/**
 * Proleptic Gregorian calendar dates as the rest of the model sees them.
 * A parsed "YYYY-MM-DD" value is a civil date; arithmetic on dates goes
 * through DayNumber, the number of days since 1970-01-01.
 */
module Calendar {

  predicate IsLeapYear(y: int)
  {
    y % 4 == 0 && (y % 100 != 0 || y % 400 == 0)
  }

  function DaysInMonth(y: int, m: int): (n: int)
    requires 1 <= m <= 12
    ensures 28 <= n <= 31
    ensures m == 2 ==> (n == 29 <==> IsLeapYear(y))
  {
    if m == 2 then (if IsLeapYear(y) then 29 else 28)
    else if m == 4 || m == 6 || m == 9 || m == 11 then 30
    else 31
  }

  function DaysInYear(y: int): int
  {
    if IsLeapYear(y) then 366 else 365
  }

  datatype CivilDate = CivilDate(year: int, month: int, day: int)

  /** A date that exists in the calendar: a month 1..12 and a day within that month. */
  type Date = d: CivilDate | 1 <= d.month <= 12 && 1 <= d.day <= DaysInMonth(d.year, d.month)
    witness CivilDate(1970, 1, 1)

  /** Days in the months of year y that come before month m (m == 13: the whole year). */
  function DaysBeforeMonth(y: int, m: int): int
    requires 1 <= m <= 13
  {
    [0, 31, 59, 90, 120, 151, 181, 212, 243, 273, 304, 334, 365][m - 1]
    + (if m > 2 && IsLeapYear(y) then 1 else 0)
  }

  /** Leap years among the years 1 .. y - 1 (extended below year 1 by floor division). */
  function LeapYearsBefore(y: int): int
  {
    (y - 1) / 4 - (y - 1) / 100 + (y - 1) / 400
  }

  /** Day number of January 1st of year y. */
  function YearStart(y: int): int
  {
    365 * (y - 1970) + LeapYearsBefore(y) - LeapYearsBefore(1970)
  }

  /** Days since 1970-01-01 (negative before it). */
  function DayNumber(d: Date): int
  {
    YearStart(d.year) + DaysBeforeMonth(d.year, d.month) + d.day - 1
  }

  /** Lexicographic order of (year, month, day): the order of the calendar. */
  predicate CivilBefore(a: Date, b: Date)
  {
    a.year < b.year
    || (a.year == b.year && a.month < b.month)
    || (a.year == b.year && a.month == b.month && a.day < b.day)
  }

  function FirstOfMonth(d: Date): (r: Date)
    ensures r.year == d.year && r.month == d.month && r.day == 1
  {
    CivilDate(d.year, d.month, 1)
  }

  function LastOfMonth(d: Date): (r: Date)
    ensures r.year == d.year && r.month == d.month && r.day == DaysInMonth(d.year, d.month)
  {
    CivilDate(d.year, d.month, DaysInMonth(d.year, d.month))
  }

  /** Day of the week, 0 = Sunday .. 6 = Saturday; 1970-01-01 was a Thursday. */
  function Weekday(d: Date): (w: int)
    ensures 0 <= w < 7
    ensures (DayNumber(d) - w + 4) % 7 == 0  // going back w days lands on a Sunday
  {
    SundayBefore(DayNumber(d));
    (DayNumber(d) + 4) % 7
  }

  const MillisPerDay: int := 86400000

  datatype Instant = Instant(date: Date, millis: int)

  /** The server clock: a date and the milliseconds elapsed since its midnight. */
  type Clock = c: Instant | 0 <= c.millis < MillisPerDay witness Instant(CivilDate(1970, 1, 1), 0)

  /** Milliseconds since the epoch of the given day at the given time of day. */
  function Timestamp(day: int, millis: int): int
  {
    day * MillisPerDay + millis
  }

  /** Going from year y to year y + 1 adds one more leap year exactly when y is a leap year. */
  lemma LeapStep(y: int)
    ensures LeapYearsBefore(y + 1) - LeapYearsBefore(y) == if IsLeapYear(y) then 1 else 0
  {
    Quotient4(y);
    Quotient100(y);
    Quotient400(y);
    DivisorsOfCenturies(y);
    var d4 := if y % 4 == 0 then 1 else 0;
    var d100 := if y % 100 == 0 then 1 else 0;
    var d400 := if y % 400 == 0 then 1 else 0;
    assert LeapYearsBefore(y + 1) - LeapYearsBefore(y) == d4 - d100 + d400;
  }

  lemma DivisorsOfCenturies(y: int)
    ensures y % 400 == 0 ==> y % 100 == 0
    ensures y % 100 == 0 ==> y % 4 == 0
  {
    if y % 400 == 0 {
      var q := y / 400;
      assert y == 400 * q;
      assert y / 100 == 4 * q;
    }
    if y % 100 == 0 {
      var q := y / 100;
      assert y == 100 * q;
      assert y / 4 == 25 * q;
    }
  }

  lemma Quotient4(y: int)
    ensures (y - 1) / 4 == if y % 4 == 0 then y / 4 - 1 else y / 4
  {
    var q := y / 4;
    assert y - 1 == 4 * (if y % 4 == 0 then q - 1 else q) + (if y % 4 == 0 then 3 else y % 4 - 1);
  }

  lemma Quotient100(y: int)
    ensures (y - 1) / 100 == if y % 100 == 0 then y / 100 - 1 else y / 100
  {
    var q := y / 100;
    assert y - 1 == 100 * (if y % 100 == 0 then q - 1 else q) + (if y % 100 == 0 then 99 else y % 100 - 1);
  }

  lemma Quotient400(y: int)
    ensures (y - 1) / 400 == if y % 400 == 0 then y / 400 - 1 else y / 400
  {
    var q := y / 400;
    assert y - 1 == 400 * (if y % 400 == 0 then q - 1 else q) + (if y % 400 == 0 then 399 else y % 400 - 1);
  }

  lemma YearLength(y: int)
    ensures YearStart(y + 1) == YearStart(y) + DaysInYear(y)
  {
    LeapStep(y);
  }

  /** Each month starts where the previous one ends; the twelve months fill the year. */
  lemma MonthStep(y: int, m: int)
    requires 1 <= m <= 12
    ensures DaysBeforeMonth(y, m + 1) == DaysBeforeMonth(y, m) + DaysInMonth(y, m)
    ensures DaysBeforeMonth(y, 13) == DaysInYear(y)
  {
  }

  lemma {:induction false} MonthsIncrease(y: int, m: int, n: int)
    requires 1 <= m < n <= 13
    ensures DaysBeforeMonth(y, m) + DaysInMonth(y, m) <= DaysBeforeMonth(y, n)
    decreases n - m
  {
    MonthStep(y, m);
    if n > m + 1 {
      MonthsIncrease(y, m + 1, n);
      MonthStep(y, m + 1);
    }
  }

  lemma {:induction false} YearsIncrease(y: int, z: int)
    requires y < z
    ensures YearStart(y) + DaysInYear(y) <= YearStart(z)
    decreases z - y
  {
    YearLength(y);
    if z > y + 1 {
      YearsIncrease(y + 1, z);
      YearLength(y + 1);
    }
  }

  /** Every date lies within its year's span of day numbers. */
  lemma WithinYear(d: Date)
    ensures YearStart(d.year) <= DayNumber(d) < YearStart(d.year) + DaysInYear(d.year)
  {
    MonthStep(d.year, d.month);
    if d.month < 12 {
      MonthsIncrease(d.year, d.month, 13);
    }
  }

  /** Day numbers order dates exactly as the calendar does. */
  lemma DayNumberOrder(a: Date, b: Date)
    ensures DayNumber(a) < DayNumber(b) <==> CivilBefore(a, b)
  {
    if a.year < b.year {
      WithinYear(a);
      WithinYear(b);
      YearsIncrease(a.year, b.year);
    } else if b.year < a.year {
      WithinYear(a);
      WithinYear(b);
      YearsIncrease(b.year, a.year);
    } else if a.month < b.month {
      MonthsIncrease(a.year, a.month, b.month);
    } else if b.month < a.month {
      MonthsIncrease(a.year, b.month, a.month);
    }
  }

  /** Distinct dates have distinct day numbers. */
  lemma DayNumberInjective(a: Date, b: Date)
    ensures DayNumber(a) == DayNumber(b) <==> a == b
  {
    DayNumberOrder(a, b);
    DayNumberOrder(b, a);
  }

  /**
   * A date lies between the first and the last day of d's month (compared as
   * day numbers, the way the month window of a leave request is computed)
   * exactly when it is in the same year and month as d.
   */
  lemma MonthWindow(d: Date, x: Date)
    ensures DayNumber(FirstOfMonth(d)) <= DayNumber(x) <= DayNumber(LastOfMonth(d))
            <==> x.year == d.year && x.month == d.month
  {
    DayNumberOrder(x, FirstOfMonth(d));
    DayNumberOrder(LastOfMonth(d), x);
  }

  /** The week start used by the weekly filter is a Sunday no later than the day it is taken from. */
  lemma WeekStartIsSunday(d: Date)
    ensures (DayNumber(d) - Weekday(d) + 4) % 7 == 0
    ensures DayNumber(d) - 6 <= DayNumber(d) - Weekday(d) <= DayNumber(d)
  {
    SundayBefore(DayNumber(d));
  }

  lemma SundayBefore(n: int)
    ensures (n - (n + 4) % 7 + 4) % 7 == 0
    ensures n - 6 <= n - (n + 4) % 7 <= n
  {
    var k := (n + 4) / 7;
    assert n + 4 == 7 * k + (n + 4) % 7;
    assert n - (n + 4) % 7 + 4 == 7 * k;
    assert (7 * k) / 7 == k;
  }
}
