/**
 * The text forms the attendance handlers produce with moment: the clock time
 * "HH:mm" of a check-in and the calendar date "DD-MM-YYYY" of a record, and
 * the reading back of "HH:mm" that the Present/Late decision relies on.
 */
module Formatting {
  import opened Common
  import opened Calendar

  const MillisPerMinute := 60000
  const MinutesPerDay := 1440

  predicate IsDigit(c: char)
  {
    '0' <= c <= '9'
  }

  predicate AllDigits(s: string)
  {
    forall i :: 0 <= i < |s| ==> IsDigit(s[i])
  }

  function DigitChar(n: int): (c: char)
    requires 0 <= n <= 9
    ensures IsDigit(c)
  {
    ('0' as int + n) as char
  }

  function DigitValue(c: char): int
  {
    c as int - '0' as int
  }

  function Pow10(n: nat): nat
  {
    if n == 0 then 1 else 10 * Pow10(n - 1)
  }

  /** The decimal value of a string of digits, most significant first. */
  function Number(s: string): int
  {
    if s == [] then 0 else 10 * Number(s[..|s| - 1]) + DigitValue(s[|s| - 1])
  }

  /** A string of k digits reads as a number below 10^k. */
  lemma {:induction false} NumberBounds(s: string)
    requires AllDigits(s)
    ensures 0 <= Number(s) < Pow10(|s|)
  {
    if s != [] {
      NumberBounds(s[..|s| - 1]);
    }
  }

  /** Reading a concatenation: the digits of the left part are shifted by the length of the right part. */
  lemma {:induction false} NumberAppend(a: string, b: string)
    ensures Number(a + b) == Number(a) * Pow10(|b|) + Number(b)
    decreases |b|
  {
    if b == [] {
      assert a + b == a;
    } else {
      var b' := b[..|b| - 1];
      assert (a + b)[..|a + b| - 1] == a + b';
      assert (a + b)[|a + b| - 1] == b[|b| - 1];
      NumberAppend(a, b');
    }
  }

  /** A number below 100 as exactly two digits, zero-padded. */
  function TwoDigits(n: int): (s: string)
    requires 0 <= n < 100
    ensures |s| == 2 && AllDigits(s) && Number(s) == n
  {
    var s := [DigitChar(n / 10), DigitChar(n % 10)];
    assert s[..1] == [s[0]] && s[..1][..0] == [];
    assert DigitValue(s[0]) == n / 10 && DigitValue(s[1]) == n % 10;
    assert Number(s[..1]) == n / 10;
    s
  }

  /** A number below 10000 as exactly four digits, zero-padded. */
  function FourDigits(n: int): (s: string)
    requires 0 <= n < 10000
    ensures |s| == 4 && AllDigits(s) && Number(s) == n
  {
    NumberAppend(TwoDigits(n / 100), TwoDigits(n % 100));
    TwoDigits(n / 100) + TwoDigits(n % 100)
  }

  /** A natural number in decimal without padding. */
  function Decimal(n: nat): (s: string)
    ensures |s| >= 1 && AllDigits(s) && Number(s) == n
  {
    if n < 10 then
      assert [DigitChar(n)][..0] == [];
      [DigitChar(n)]
    else
      var s := Decimal(n / 10) + [DigitChar(n % 10)];
      assert s[..|s| - 1] == Decimal(n / 10);
      s
  }

  /** The minute of the day moment prints for a clock ("HH:mm" drops the seconds). */
  function MinuteOfDay(c: Clock): (m: int)
    ensures 0 <= m < MinutesPerDay
    ensures m * MillisPerMinute <= c.millis < (m + 1) * MillisPerMinute
  {
    c.millis / MillisPerMinute
  }

  /** `format("HH:mm")` of a minute of the day. */
  function FormatClock(minute: int): (s: string)
    requires 0 <= minute < MinutesPerDay
    ensures |s| == 5 && s[2] == ':'
  {
    TwoDigits(minute / 60) + ":" + TwoDigits(minute % 60)
  }

  /** `moment(s, "HH:mm")` on the strings it is given here: two-digit hours and minutes, or invalid. */
  function ParseClock(s: string): (r: Option<int>)
    ensures r.Some? ==> 0 <= r.value < MinutesPerDay
  {
    if |s| == 5 && s[2] == ':' && AllDigits(s[..2]) && AllDigits(s[3..]) then
      var h, m := Number(s[..2]), Number(s[3..]);
      NumberBounds(s[..2]);
      NumberBounds(s[3..]);
      if h < 24 && m < 60 then Some(60 * h + m) else None
    else None
  }

  lemma TwoDigitsOnly(s: string)
    requires |s| == 2 && AllDigits(s)
    ensures 0 <= Number(s) < 100 && TwoDigits(Number(s)) == s
  {
    assert s[..1][..0] == [];
    NumberBounds(s);
    var t := TwoDigits(Number(s));
    assert t[0] == s[0] && t[1] == s[1];
  }

  /** Reading back what was printed gives the same minute ... */
  lemma ClockRoundTrip(minute: int)
    requires 0 <= minute < MinutesPerDay
    ensures ParseClock(FormatClock(minute)) == Some(minute)
  {
    var s := FormatClock(minute);
    assert s[..2] == TwoDigits(minute / 60);
    assert s[3..] == TwoDigits(minute % 60);
  }

  /** ... and a string that reads as a time is exactly the printed form of that time. */
  lemma ClockParsesOnlyPrintedForms(s: string)
    requires ParseClock(s).Some?
    ensures FormatClock(ParseClock(s).value) == s
  {
    var h, m := Number(s[..2]), Number(s[3..]);
    TwoDigitsOnly(s[..2]);
    TwoDigitsOnly(s[3..]);
    var minute := 60 * h + m;
    assert minute / 60 == h && minute % 60 == m;
    var t := FormatClock(minute);
    assert t[..2] == s[..2] && t[3..] == s[3..] && t[2] == s[2];
    assert t == t[..2] + [t[2]] + t[3..];
    assert s == s[..2] + [s[2]] + s[3..];
  }

  /** The year as `YYYY` prints it for years 0 to 9999; other years as a signed plain decimal. */
  function YearText(y: int): (s: string)
    ensures |s| >= 1
    ensures 0 <= y < 10000 ==> |s| == 4 && AllDigits(s) && Number(s) == y
  {
    if 0 <= y < 10000 then FourDigits(y)
    else if y < 0 then "-" + Decimal(-y)
    else Decimal(y)
  }

  /** `format("DD-MM-YYYY")` of a record's date. */
  function FormatDate(d: Date): (s: string)
    ensures |s| >= 7 && s[2] == '-' && s[5] == '-'
  {
    TwoDigits(d.day) + "-" + TwoDigits(d.month) + "-" + YearText(d.year)
  }

  /** Within years 0 to 9999 the printed date identifies the date: no two dates print alike. */
  lemma FormatDateInjective(a: Date, b: Date)
    requires 0 <= a.year < 10000 && 0 <= b.year < 10000
    requires FormatDate(a) == FormatDate(b)
    ensures a == b
  {
    var s, t := FormatDate(a), FormatDate(b);
    assert s[..2] == TwoDigits(a.day) && t[..2] == TwoDigits(b.day);
    assert s[3..5] == TwoDigits(a.month) && t[3..5] == TwoDigits(b.month);
    assert s[6..] == YearText(a.year) && t[6..] == YearText(b.year);
  }
}
