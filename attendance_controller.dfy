/**
 * The attendance handlers: check-in with its Present/Late decision and its
 * one-record-per-day rule, the daily roll-ups for the whole organisation and
 * for a manager's department, the absentee back-fill job, and the per-employee
 * listings with their 24-hex-digit id check.
 *
 * The store is the collection of attendance records in filing order; "today"
 * and the current time are parameters, and dates are UTC calendar days.
 */
module AttendanceController {
  import opened Common
  import opened Calendar
  import opened LeaveModel
  import opened Formatting
  import opened AttendanceModel

  /** The start of the working day; a check-in after it is Late. */
  const WorkStartTime := "10:00"

  datatype AttendanceError =
    | EmployeeIdRequired
    | AlreadyMarked
    | InvalidEmployeeId
    | EmployeeNotFound
    | InvalidManagerId
    | OrganizationNotFound
    | NotAManager
    | ServerError   // a failed id cast or store call: the catch path

  /** The HTTP status code each error is reported with. */
  function HttpStatus(e: AttendanceError): (code: int)
    ensures code == 404 <==> e == EmployeeNotFound || e == OrganizationNotFound
    ensures code == 403 <==> e == NotAManager
    ensures code == 500 <==> e == ServerError
    ensures code in {400, 403, 404, 500}
  {
    match e
    case EmployeeIdRequired => 400
    case AlreadyMarked => 400
    case InvalidEmployeeId => 400
    case EmployeeNotFound => 404
    case InvalidManagerId => 400
    case OrganizationNotFound => 404
    case NotAManager => 403
    case ServerError => 500
  }

  // ---------------------------------------------------------------------------
  // Employee ids

  /** `req.id || req.params.employeeId`: the caller's own id when it has one, else the path's. */
  function RequestedId(reqId: Option<string>, paramId: string): (id: string)
    ensures Given(reqId) ==> id == reqId.value
    ensures !Given(reqId) ==> id == paramId
  {
    if Given(reqId) then reqId.value else paramId
  }

  // ---------------------------------------------------------------------------
  // Check-in

  lemma WorkStartIsTen()
    ensures ParseClock(WorkStartTime) == Some(10 * 60)
  {
    var s := WorkStartTime;
    assert s[..2] == "10" && s[3..] == "00";
    assert "10"[..1] == "1" && "1"[..0] == [] && "00"[..1] == "0" && "0"[..0] == [];
  }

  /**
   * `moment(currentTime, "HH:mm").isAfter(moment(WORK_START_TIME, "HH:mm"))`:
   * Late exactly when the time reads as a clock time strictly after 10:00;
   * an unreadable time compares as not after, so it is Present.
   */
  function ClassifyCheckIn(currentTime: string): (s: AttendanceStatus)
    ensures s != Absent
    ensures s == Late <==> ParseClock(currentTime).Some? && ParseClock(currentTime).value > 10 * 60
  {
    WorkStartIsTen();
    var now, start := ParseClock(currentTime), ParseClock(WorkStartTime);
    if now.Some? && start.Some? && now.value > start.value then Late else Present
  }

  /** On the clock: a check-in is Late from 10:01:00.000 on, so 10:00 and its seconds are Present. */
  lemma LateExactlyAfterTen(c: Clock)
    ensures ClassifyCheckIn(FormatClock(MinuteOfDay(c))) == Late <==> c.millis >= 601 * MillisPerMinute
  {
    ClockRoundTrip(MinuteOfDay(c));
  }

  datatype CheckInResponse =
    | CheckedIn(status: AttendanceStatus, checkInTime: string)
    | CheckInRefused(error: AttendanceError)

  /** One check-in at clock `now` against the store: the response and the records afterwards. */
  function CheckInStep(records: seq<Attendance>, employeeId: Option<string>, now: Clock):
    (r: (CheckInResponse, seq<Attendance>))
    ensures r.0.CheckInRefused? ==> r.1 == records
    ensures r.0 == CheckInRefused(EmployeeIdRequired) <==> !Given(employeeId)
    ensures r.0 == CheckInRefused(ServerError) <==> Given(employeeId) && !IsObjectId(employeeId.value)
    ensures r.0 == CheckInRefused(AlreadyMarked) <==>
      Given(employeeId) && IsObjectId(employeeId.value) && HasRecord(records, employeeId.value, now.date)
    ensures r.0.CheckedIn? <==>
      Given(employeeId) && IsObjectId(employeeId.value) && !HasRecord(records, employeeId.value, now.date)
    ensures r.0.CheckedIn? ==>
      && r.0.checkInTime == FormatClock(MinuteOfDay(now))
      && (r.0.status == Late <==> now.millis >= 601 * MillisPerMinute)
      && r.0.status != Absent
      && !HasRecord(records, employeeId.value, now.date)
      && r.1 == records + [Attendance(employeeId.value, now.date, r.0.status, Some(r.0.checkInTime))]
  {
    if !Given(employeeId) then (CheckInRefused(EmployeeIdRequired), records)
    else if !IsObjectId(employeeId.value) then (CheckInRefused(ServerError), records)
    else if HasRecord(records, employeeId.value, now.date) then (CheckInRefused(AlreadyMarked), records)
    else
      var currentTime := FormatClock(MinuteOfDay(now));
      var status := ClassifyCheckIn(currentTime);
      LateExactlyAfterTen(now);
      (CheckedIn(status, currentTime),
       records + [NewAttendance(employeeId.value, Some(now.date), now.date, Some(status), Some(currentTime))])
  }

  /** A check-in keeps the (employee, day) keys unique. */
  lemma CheckInKeepsUnique(records: seq<Attendance>, employeeId: Option<string>, now: Clock)
    requires UniqueKeys(records)
    ensures UniqueKeys(CheckInStep(records, employeeId, now).1)
  {
    var r := CheckInStep(records, employeeId, now);
    if r.0.CheckedIn? {
      UniqueAppend(records, Attendance(employeeId.value, now.date, r.0.status, Some(r.0.checkInTime)));
    }
  }

  /** After a successful check-in, any later check-in by the same employee that day is refused. */
  lemma SecondCheckInRefused(records: seq<Attendance>, employeeId: Option<string>, now: Clock, later: Clock)
    requires CheckInStep(records, employeeId, now).0.CheckedIn?
    requires later.date == now.date
    ensures CheckInStep(CheckInStep(records, employeeId, now).1, employeeId, later).0 == CheckInRefused(AlreadyMarked)
  {
    var r := CheckInStep(records, employeeId, now);
    var a := Attendance(employeeId.value, now.date, r.0.status, Some(r.0.checkInTime));
    HasRecordAppend(records, a, employeeId.value, later.date);
  }

  // ---------------------------------------------------------------------------
  // Selections of records

  /** The records that `keep` accepts, in filing order: a store query. */
  function Select(recs: seq<Attendance>, keep: Attendance -> bool): (r: seq<Attendance>)
    ensures |r| <= |recs|
    ensures forall i :: 0 <= i < |r| ==> keep(r[i])
    ensures forall a :: a in r <==> a in recs && keep(a)
    ensures forall a :: multiset(r)[a] == if keep(a) then multiset(recs)[a] else 0
  {
    if recs == [] then []
    else
      var init, last := recs[..|recs| - 1], recs[|recs| - 1];
      assert recs == init + [last];
      var prev := Select(init, keep);
      if keep(last) then prev + [last] else prev
  }

  /** Records filed for day `d`. */
  function OnDate(recs: seq<Attendance>, d: Date): (r: seq<Attendance>)
    ensures forall a :: a in r <==> a in recs && a.date == d
  {
    Select(recs, (a: Attendance) => a.date == d)
  }

  /** Records of employee `e`. */
  function RecordsOf(recs: seq<Attendance>, e: EmployeeId): (r: seq<Attendance>)
    ensures forall a :: a in r <==> a in recs && a.employee == e
  {
    Select(recs, (a: Attendance) => a.employee == e)
  }

  /** The employees of one department of one organisation. */
  function DepartmentMembers(directory: map<EmployeeId, Employee>, organization: string, department: string):
    set<EmployeeId>
  {
    set id | id in directory && directory[id].organization == organization && directory[id].department == department
  }

  /** Records filed for day `d` by employees of one department. */
  function DepartmentRecords(recs: seq<Attendance>, directory: map<EmployeeId, Employee>,
                             organization: string, department: string, d: Date): (r: seq<Attendance>)
    ensures forall a :: a in r <==>
      && a in recs && a.date == d && a.employee in directory
      && directory[a.employee].organization == organization
      && directory[a.employee].department == department
  {
    var members := DepartmentMembers(directory, organization, department);
    Select(recs, (a: Attendance) => a.employee in members && a.date == d)
  }

  // ---------------------------------------------------------------------------
  // Roll-ups

  datatype Counts = Counts(present: nat, late: nat, absent: nat)

  function CountStatus(recs: seq<Attendance>, s: AttendanceStatus): nat
  {
    if recs == [] then 0
    else CountStatus(recs[..|recs| - 1], s) + (if recs[|recs| - 1].status == s then 1 else 0)
  }

  /** The counters a roll-up reports for `recs`. */
  function Tally(recs: seq<Attendance>): (c: Counts)
    ensures c.present == multiset(Statuses(recs))[Present]
    ensures c.late == multiset(Statuses(recs))[Late]
    ensures c.absent == multiset(Statuses(recs))[Absent]
  {
    CountIsMultiplicity(recs, Present);
    CountIsMultiplicity(recs, Late);
    CountIsMultiplicity(recs, Absent);
    Counts(CountStatus(recs, Present), CountStatus(recs, Late), CountStatus(recs, Absent))
  }

  function Statuses(recs: seq<Attendance>): seq<AttendanceStatus>
  {
    seq(|recs|, i requires 0 <= i < |recs| => recs[i].status)
  }

  /** Each counter is the number of records carrying its status ... */
  lemma {:induction false} CountIsMultiplicity(recs: seq<Attendance>, s: AttendanceStatus)
    ensures CountStatus(recs, s) == multiset(Statuses(recs))[s]
  {
    if recs != [] {
      var init := recs[..|recs| - 1];
      CountIsMultiplicity(init, s);
      assert Statuses(recs) == Statuses(init) + [recs[|recs| - 1].status];
    }
  }

  /** ... and every record is counted exactly once. */
  lemma {:induction false} TallyTotal(recs: seq<Attendance>)
    ensures Tally(recs).present + Tally(recs).late + Tally(recs).absent == |recs|
  {
    if recs != [] {
      TallyTotal(recs[..|recs| - 1]);
    }
  }

  datatype StatusEntry = StatusEntry(
    employeeId: EmployeeId,
    employeeName: string,
    status: AttendanceStatus,
    checkInTime: string,
    date: Option<string>)

  /** `map[empId] || 'Unknown'`. */
  function DisplayName(names: map<EmployeeId, string>, id: EmployeeId): (s: string)
    ensures id in names && names[id] != "" ==> s == names[id]
    ensures !(id in names && names[id] != "") ==> s == "Unknown"
  {
    if id in names && names[id] != "" then names[id] else "Unknown"
  }

  /** `record.checkInTime || 'N/A'`. */
  function CheckInText(t: Option<string>): (s: string)
    ensures Given(t) ==> s == t.value
    ensures !Given(t) ==> s == "N/A"
  {
    if Given(t) then t.value else "N/A"
  }

  /** The roll-up line for one record; the organisation-wide roll-up adds the printed date. */
  function Entry(rec: Attendance, names: map<EmployeeId, string>, withDate: bool): (e: StatusEntry)
    ensures e.employeeId == rec.employee && e.status == rec.status
    ensures e.employeeName == DisplayName(names, rec.employee)
    ensures e.checkInTime == CheckInText(rec.checkInTime)
    ensures e.date.Some? <==> withDate
    ensures withDate ==> e.date.value == FormatDate(rec.date)
  {
    StatusEntry(rec.employee, DisplayName(names, rec.employee), rec.status,
                CheckInText(rec.checkInTime), if withDate then Some(FormatDate(rec.date)) else None)
  }

  /**
   * The `recs.map` of both roll-ups: one line per record in the same order,
   * while the counter of each record's status is incremented.
   */
  method Rollup(recs: seq<Attendance>, names: map<EmployeeId, string>, withDate: bool)
    returns (entries: seq<StatusEntry>, counts: Counts)
    ensures |entries| == |recs|
    ensures forall i :: 0 <= i < |recs| ==> entries[i] == Entry(recs[i], names, withDate)
    ensures counts == Tally(recs)
  {
    entries := [];
    var present: nat, late: nat, absent: nat := 0, 0, 0;
    for i := 0 to |recs|
      invariant |entries| == i
      invariant forall j :: 0 <= j < i ==> entries[j] == Entry(recs[j], names, withDate)
      invariant present == CountStatus(recs[..i], Present)
      invariant late == CountStatus(recs[..i], Late)
      invariant absent == CountStatus(recs[..i], Absent)
    {
      CountStep(recs, i);
      var record := recs[i];
      if record.status == Present { present := present + 1; }
      if record.status == Late { late := late + 1; }
      if record.status == Absent { absent := absent + 1; }
      entries := entries + [Entry(record, names, withDate)];
    }
    assert recs[..|recs|] == recs;
    counts := Counts(present, late, absent);
  }

  /** Taking one more record into account bumps exactly the counter of its status. */
  lemma CountStep(recs: seq<Attendance>, i: int)
    requires 0 <= i < |recs|
    ensures forall s :: CountStatus(recs[..i + 1], s) == CountStatus(recs[..i], s) + (if recs[i].status == s then 1 else 0)
  {
    assert recs[..i + 1][..i] == recs[..i];
  }

  /** Employee names by id, as the roll-ups look them up. */
  function NamesOf(directory: map<EmployeeId, Employee>): (names: map<EmployeeId, string>)
    ensures names.Keys == directory.Keys
    ensures forall id :: id in names ==> names[id] == directory[id].name
  {
    map id | id in directory :: directory[id].name
  }

  /** The names the department roll-up can look up: those of the department's own employees. */
  function MemberNames(directory: map<EmployeeId, Employee>, members: set<EmployeeId>): (names: map<EmployeeId, string>)
    ensures forall id :: id in names <==> id in members && id in directory
    ensures forall id :: id in names ==> names[id] == directory[id].name
  {
    map id | id in members && id in directory :: directory[id].name
  }

  /** Every record the department roll-up lists is a member's, so its name is the one the directory gives. */
  lemma DepartmentNamesAgree(records: seq<Attendance>, directory: map<EmployeeId, Employee>,
                             organization: string, department: string, today: Date)
    ensures var recs := DepartmentRecords(records, directory, organization, department, today);
      var names := MemberNames(directory, DepartmentMembers(directory, organization, department));
      forall i :: 0 <= i < |recs| ==> Entry(recs[i], names, false) == Entry(recs[i], NamesOf(directory), false)
  {
    var recs := DepartmentRecords(records, directory, organization, department, today);
    var names := MemberNames(directory, DepartmentMembers(directory, organization, department));
    forall i | 0 <= i < |recs|
      ensures DisplayName(names, recs[i].employee) == DisplayName(NamesOf(directory), recs[i].employee)
    {
      assert recs[i] in recs;
    }
  }

  datatype TodayReport = TodayReport(noRecords: bool, entries: seq<StatusEntry>, counts: Counts)

  datatype DepartmentResponse =
    | DepartmentStatus(entries: seq<StatusEntry>, counts: Counts)
    | DepartmentRefused(error: AttendanceError)

  /**
   * The guard chain of the department roll-up, first failure wins: a missing
   * requester, then the organisation lookup (an id that is not an ObjectId
   * fails the cast), then the requester's own document, which must exist and
   * be a Manager. None when the roll-up goes ahead.
   */
  function DepartmentGuard(managerId: Option<string>, organizationId: string, organizations: set<string>,
                           directory: map<EmployeeId, Employee>): (r: Option<AttendanceError>)
    ensures r == Some(InvalidManagerId) <==> !Given(managerId)
    ensures r == Some(OrganizationNotFound) <==>
      Given(managerId) && IsObjectId(organizationId) && organizationId !in organizations
    ensures r == Some(NotAManager) <==>
      && Given(managerId) && IsObjectId(organizationId) && organizationId in organizations
      && IsObjectId(managerId.value)
      && !(managerId.value in directory && directory[managerId.value].role == Manager)
    ensures r == Some(ServerError) <==>
      Given(managerId) && (!IsObjectId(organizationId) || (organizationId in organizations && !IsObjectId(managerId.value)))
    ensures r.None? <==>
      && Given(managerId) && IsObjectId(organizationId) && organizationId in organizations
      && IsObjectId(managerId.value) && managerId.value in directory && directory[managerId.value].role == Manager
  {
    if !Given(managerId) then Some(InvalidManagerId)
    else if !IsObjectId(organizationId) then Some(ServerError)
    else if organizationId !in organizations then Some(OrganizationNotFound)
    else if !IsObjectId(managerId.value) then Some(ServerError)
    else if !(managerId.value in directory && directory[managerId.value].role == Manager) then Some(NotAManager)
    else None
  }

  /** A requester who is not a Manager never gets a department roll-up, whatever the organisation. */
  lemma OnlyManagersGetDepartmentStatus(managerId: Option<string>, organizationId: string,
                                        organizations: set<string>, directory: map<EmployeeId, Employee>)
    requires Given(managerId)
    requires !(managerId.value in directory && directory[managerId.value].role == Manager)
    ensures DepartmentGuard(managerId, organizationId, organizations, directory).Some?
  {
  }

  datatype HistoryLine = HistoryLine(status: AttendanceStatus, checkInTime: string, date: string)

  datatype HistoryResponse =
    | History(id: EmployeeId, name: string, email: string, records: seq<HistoryLine>)
    | HistoryRefused(error: AttendanceError)

  function Line(rec: Attendance): (l: HistoryLine)
    ensures l.status == rec.status && l.checkInTime == CheckInText(rec.checkInTime)
    ensures l.date == FormatDate(rec.date)
  {
    HistoryLine(rec.status, CheckInText(rec.checkInTime), FormatDate(rec.date))
  }

  datatype ListResponse = AttendanceList(records: seq<Attendance>) | ListRefused(error: AttendanceError)

  // ---------------------------------------------------------------------------
  // Absentee back-fill

  /** The record the back-fill job files for an employee with none for today. */
  function AbsentRecord(e: EmployeeId, today: Date): (a: Attendance)
    ensures a.employee == e && a.date == today && a.status == Absent && a.checkInTime.None?
  {
    NewAttendance(e, Some(today), today, Some(Absent), None)
  }

  /** The store after the back-fill job has visited `employees` in order. */
  function Backfill(recs: seq<Attendance>, employees: seq<EmployeeId>, today: Date): (r: seq<Attendance>)
    ensures |recs| <= |r| && r[..|recs|] == recs
  {
    if employees == [] then recs
    else
      var prev := Backfill(recs, employees[..|employees| - 1], today);
      var e := employees[|employees| - 1];
      if HasRecord(prev, e, today) then prev else prev + [AbsentRecord(e, today)]
  }

  /** A record of a prefix is a record of the whole. */
  lemma HasRecordExtends(a: seq<Attendance>, b: seq<Attendance>, e: EmployeeId, d: Date)
    requires |a| <= |b| && b[..|a|] == a
    ensures HasRecord(a, e, d) ==> HasRecord(b, e, d)
  {
    if HasRecord(a, e, d) {
      var i :| 0 <= i < |a| && a[i].employee == e && a[i].date == d;
      assert b[i] == a[i];
    }
  }

  /** Every record the job adds is an Absent record for today, without a check-in time, for a listed employee who had none. */
  lemma {:induction false} BackfillAdds(recs: seq<Attendance>, employees: seq<EmployeeId>, today: Date)
    ensures forall i :: |recs| <= i < |Backfill(recs, employees, today)| ==>
      && Backfill(recs, employees, today)[i].status == Absent
      && Backfill(recs, employees, today)[i].checkInTime.None?
      && Backfill(recs, employees, today)[i].date == today
      && Backfill(recs, employees, today)[i].employee in employees
      && !HasRecord(recs, Backfill(recs, employees, today)[i].employee, today)
  {
    if employees != [] {
      var init := employees[..|employees| - 1];
      var e := employees[|employees| - 1];
      BackfillAdds(recs, init, today);
      var prev := Backfill(recs, init, today);
      HasRecordExtends(recs, prev, e, today);
      assert forall x :: x in init ==> x in employees;
    }
  }

  /** Afterwards every listed employee has a record for today. */
  lemma {:induction false} BackfillCovers(recs: seq<Attendance>, employees: seq<EmployeeId>, today: Date)
    ensures forall e :: e in employees ==> HasRecord(Backfill(recs, employees, today), e, today)
  {
    if employees != [] {
      var init := employees[..|employees| - 1];
      var e := employees[|employees| - 1];
      BackfillCovers(recs, init, today);
      var prev := Backfill(recs, init, today);
      var r := Backfill(recs, employees, today);
      forall x | x in employees
        ensures HasRecord(r, x, today)
      {
        if x == e {
          if !HasRecord(prev, e, today) {
            HasRecordAppend(prev, AbsentRecord(e, today), e, today);
          }
        } else {
          assert x in init;
          HasRecordExtends(prev, r, x, today);
        }
      }
    }
  }

  /** New records go exactly to the listed employees who had no record for today. */
  lemma BackfillExactlyMissing(recs: seq<Attendance>, employees: seq<EmployeeId>, today: Date, e: EmployeeId)
    ensures HasRecord(Backfill(recs, employees, today)[|recs|..], e, today) <==>
      e in employees && !HasRecord(recs, e, today)
  {
    var r := Backfill(recs, employees, today);
    var added := r[|recs|..];
    BackfillAdds(recs, employees, today);
    if HasRecord(added, e, today) {
      var k :| 0 <= k < |added| && added[k].employee == e && added[k].date == today;
      assert r[|recs| + k] == added[k];
    }
    if e in employees && !HasRecord(recs, e, today) {
      BackfillCovers(recs, employees, today);
      var k :| 0 <= k < |r| && r[k].employee == e && r[k].date == today;
      assert added[k - |recs|] == r[k];
    }
  }

  /** The job keeps the (employee, day) keys unique. */
  lemma {:induction false} BackfillKeepsUnique(recs: seq<Attendance>, employees: seq<EmployeeId>, today: Date)
    requires UniqueKeys(recs)
    ensures UniqueKeys(Backfill(recs, employees, today))
  {
    if employees != [] {
      var init := employees[..|employees| - 1];
      var e := employees[|employees| - 1];
      BackfillKeepsUnique(recs, init, today);
      var prev := Backfill(recs, init, today);
      if !HasRecord(prev, e, today) {
        UniqueAppend(prev, AbsentRecord(e, today));
      }
    }
  }

  // ---------------------------------------------------------------------------
  // The store

  /** The attendance collection: records in filing order. */
  class AttendanceStore {
    var records: seq<Attendance>

    /** The (employee, day) key is unique; every operation below keeps it so. */
    ghost predicate Valid()
      reads this
    {
      UniqueKeys(records)
    }

    constructor ()
      ensures records == [] && Valid()
    {
      records := [];
    }

    /** `checkIn`: the response and the new store are those of CheckInStep. */
    method CheckIn(employeeId: Option<string>, now: Clock) returns (r: CheckInResponse)
      modifies this
      ensures (r, records) == CheckInStep(old(records), employeeId, now)
      ensures old(Valid()) ==> Valid()
    {
      if !Given(employeeId) {
        return CheckInRefused(EmployeeIdRequired);
      }
      var id := employeeId.value;
      if !IsObjectId(id) {
        return CheckInRefused(ServerError);
      }
      if HasRecord(records, id, now.date) {
        return CheckInRefused(AlreadyMarked);
      }
      var currentTime := FormatClock(MinuteOfDay(now));
      var status := ClassifyCheckIn(currentTime);
      ghost var before := records;
      records := records + [NewAttendance(id, Some(now.date), now.date, Some(status), Some(currentTime))];
      r := CheckedIn(status, currentTime);
      if UniqueKeys(before) {
        CheckInKeepsUnique(before, employeeId, now);
      }
    }

    /** `markAbsentees`: one pass over the employees, filing an Absent record for each one without a record today. */
    method MarkAbsentees(employees: seq<EmployeeId>, today: Date)
      modifies this
      ensures records == Backfill(old(records), employees, today)
      ensures old(Valid()) ==> Valid()
    {
      ghost var before := records;
      for i := 0 to |employees|
        invariant records == Backfill(before, employees[..i], today)
      {
        assert employees[..i + 1][..i] == employees[..i];
        if !HasRecord(records, employees[i], today) {
          records := records + [NewAttendance(employees[i], Some(today), today, Some(Absent), None)];
        }
      }
      assert employees[..|employees|] == employees;
      if UniqueKeys(before) {
        BackfillKeepsUnique(before, employees, today);
      }
    }

    /** `getEmployeeStatusForToday`: a line per record filed today, names from the directory, and the counters. */
    method StatusForToday(directory: map<EmployeeId, Employee>, today: Date) returns (r: TodayReport)
      ensures r.noRecords <==> OnDate(records, today) == []
      ensures |r.entries| == |OnDate(records, today)|
      ensures forall i :: 0 <= i < |r.entries| ==>
        r.entries[i] == Entry(OnDate(records, today)[i], NamesOf(directory), true)
      ensures r.counts == Tally(OnDate(records, today))
    {
      var recs := OnDate(records, today);
      if |recs| == 0 {
        return TodayReport(true, [], Counts(0, 0, 0));
      }
      var entries, counts := Rollup(recs, NamesOf(directory), true);
      r := TodayReport(false, entries, counts);
    }

    /**
     * `getDepartmentAttendanceStatusToday`: after the guard chain, the roll-up
     * of today's records of the employees in the manager's own department,
     * without dates.
     */
    method DepartmentStatusToday(managerId: Option<string>, organizationId: string, organizations: set<string>,
                                 directory: map<EmployeeId, Employee>, today: Date)
      returns (r: DepartmentResponse)
      ensures r.DepartmentRefused? <==> DepartmentGuard(managerId, organizationId, organizations, directory).Some?
      ensures r.DepartmentRefused? ==>
        r.error == DepartmentGuard(managerId, organizationId, organizations, directory).value
      ensures r.DepartmentStatus? ==>
        var recs := DepartmentRecords(records, directory, organizationId, directory[managerId.value].department, today);
        && |r.entries| == |recs|
        && (forall i :: 0 <= i < |recs| ==> r.entries[i] == Entry(recs[i], NamesOf(directory), false))
        && r.counts == Tally(recs)
    {
      var refused := DepartmentGuard(managerId, organizationId, organizations, directory);
      if refused.Some? {
        return DepartmentRefused(refused.value);
      }
      var manager := directory[managerId.value];
      var members := DepartmentMembers(directory, organizationId, manager.department);
      var recs := DepartmentRecords(records, directory, organizationId, manager.department, today);
      var entries, counts := Rollup(recs, MemberNames(directory, members), false);
      DepartmentNamesAgree(records, directory, organizationId, manager.department, today);
      r := DepartmentStatus(entries, counts);
    }

    /**
     * `getEmployeeAttendanceRecords`: the id must be 24 hexadecimal digits
     * (400), name an employee (404); then every record of that employee as a
     * line with its printed date.
     */
    function EmployeeAttendanceRecords(reqId: Option<string>, paramId: string,
                                       directory: map<EmployeeId, Employee>): (r: HistoryResponse)
      reads this
      ensures r == HistoryRefused(InvalidEmployeeId) <==> !IsObjectId(RequestedId(reqId, paramId))
      ensures r == HistoryRefused(EmployeeNotFound) <==>
        IsObjectId(RequestedId(reqId, paramId)) && RequestedId(reqId, paramId) !in directory
      ensures r.History? <==> IsObjectId(RequestedId(reqId, paramId)) && RequestedId(reqId, paramId) in directory
      ensures r.History? ==>
        && r.id == RequestedId(reqId, paramId) && r.id in directory
        && r.name == directory[r.id].name && r.email == directory[r.id].mail
        && |r.records| == |RecordsOf(records, r.id)|
        && forall i :: 0 <= i < |r.records| ==> r.records[i] == Line(RecordsOf(records, r.id)[i])
    {
      var id := RequestedId(reqId, paramId);
      if !IsObjectId(id) then HistoryRefused(InvalidEmployeeId)
      else if id !in directory then HistoryRefused(EmployeeNotFound)
      else
        var recs := RecordsOf(records, id);
        History(id, directory[id].name, directory[id].mail, seq(|recs|, i requires 0 <= i < |recs| => Line(recs[i])))
    }

    /** `getEmployeeAttendance`: the records of the requested employee; an id that is not an ObjectId fails the query cast. */
    function EmployeeAttendance(reqId: Option<string>, paramId: string): (r: ListResponse)
      reads this
      ensures r.ListRefused? <==> !IsObjectId(RequestedId(reqId, paramId))
      ensures r.ListRefused? ==> r.error == ServerError
      ensures r.AttendanceList? ==> forall a :: a in r.records <==>
        a in records && a.employee == RequestedId(reqId, paramId)
    {
      var id := RequestedId(reqId, paramId);
      if !IsObjectId(id) then ListRefused(ServerError) else AttendanceList(RecordsOf(records, id))
    }
  }
}
