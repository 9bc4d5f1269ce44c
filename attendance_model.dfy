/**
 * The attendance document: one record per employee and calendar day, with the
 * day's status and the check-in time as it was printed, plus the few fields of
 * the employee document that the attendance handlers look at.
 */
module AttendanceModel {
  import opened Common
  import opened Calendar
  import opened LeaveModel

  datatype AttendanceStatus = Present | Late | Absent

  function AttendanceStatusName(s: AttendanceStatus): string
  {
    match s
    case Present => "Present"
    case Late => "Late"
    case Absent => "Absent"
  }

  /** The status enum: the three names and nothing else are accepted. */
  function ParseAttendanceStatus(s: string): (r: Option<AttendanceStatus>)
    ensures r.Some? ==> AttendanceStatusName(r.value) == s
  {
    if s == "Present" then Some(Present)
    else if s == "Late" then Some(Late)
    else if s == "Absent" then Some(Absent)
    else None
  }

  lemma AttendanceNamesRoundTrip(s: AttendanceStatus)
    ensures ParseAttendanceStatus(AttendanceStatusName(s)) == Some(s)
  {
  }

  /** One attendance record; `date` is the calendar day it was filed for. */
  datatype Attendance = Attendance(
    employee: EmployeeId,
    date: Date,
    status: AttendanceStatus,
    checkInTime: Option<string>)

  /**
   * A record as the schema builds it from the fields a caller gives: the date
   * defaults to the day of `now`, the status to Absent, the check-in time to null.
   */
  function NewAttendance(employee: EmployeeId, date: Option<Date>, now: Date,
                         status: Option<AttendanceStatus>, checkInTime: Option<string>): (a: Attendance)
    ensures a.employee == employee
    ensures a.date == (if date.Some? then date.value else now)
    ensures status.None? ==> a.status == Absent
    ensures status.Some? ==> a.status == status.value
    ensures a.checkInTime == checkInTime
  {
    Attendance(employee, if date.Some? then date.value else now,
               if status.Some? then status.value else Absent, checkInTime)
  }

  /** The Employeestatus enum of an employee document; Staff is its "Employee". */
  datatype Role = Staff | Manager | Admin

  /** The fields of an employee document the attendance handlers read. */
  datatype Employee = Employee(
    name: string,
    mail: string,
    organization: string,
    department: string,
    role: Role)

  /** Whether `employee` already has a record filed for day `d`. */
  predicate HasRecord(recs: seq<Attendance>, employee: EmployeeId, d: Date)
  {
    exists i :: 0 <= i < |recs| && recs[i].employee == employee && recs[i].date == d
  }

  /** No two records share an (employee, day) key. */
  predicate UniqueKeys(recs: seq<Attendance>)
  {
    forall i, j :: 0 <= i < j < |recs| ==>
      !(recs[i].employee == recs[j].employee && recs[i].date == recs[j].date)
  }

  /** Filing a record whose key is not taken keeps the keys unique. */
  lemma UniqueAppend(recs: seq<Attendance>, a: Attendance)
    requires UniqueKeys(recs) && !HasRecord(recs, a.employee, a.date)
    ensures UniqueKeys(recs + [a])
  {
    var s := recs + [a];
    forall i, j | 0 <= i < j < |s|
      ensures !(s[i].employee == s[j].employee && s[i].date == s[j].date)
    {
      if j == |recs| {
        assert s[i] == recs[i];
      } else {
        assert s[i] == recs[i] && s[j] == recs[j];
      }
    }
  }

  /** `recs + [a]` has a record for `(e, d)` exactly when `recs` has one or `a` is it. */
  lemma HasRecordAppend(recs: seq<Attendance>, a: Attendance, e: EmployeeId, d: Date)
    ensures HasRecord(recs + [a], e, d) <==> HasRecord(recs, e, d) || (a.employee == e && a.date == d)
  {
    var s := recs + [a];
    if HasRecord(s, e, d) && !(a.employee == e && a.date == d) {
      var i :| 0 <= i < |s| && s[i].employee == e && s[i].date == d;
      assert i < |recs| && recs[i] == s[i];
    }
    if HasRecord(recs, e, d) {
      var i :| 0 <= i < |recs| && recs[i].employee == e && recs[i].date == d;
      assert s[i] == recs[i];
    }
    if a.employee == e && a.date == d {
      assert s[|recs|] == a;
    }
  }
}
