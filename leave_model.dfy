/**
 * The leave ledger document: one per employee, holding the employee's leave
 * requests and a {total, used} balance for each of the four leave types.
 */
module LeaveModel {
  import opened Common
  import opened Calendar

  type EmployeeId = string
  type RequestId = string

  datatype LeaveType = Sick | Personal | Official | Vacation

  datatype Status = Pending | Approved | Rejected

  /** The string the document stores for a leave type. */
  function TypeName(t: LeaveType): string
  {
    match t
    case Sick => "Sick"
    case Personal => "Personal"
    case Official => "Official"
    case Vacation => "Vacation"
  }

  /** The leave-type enumeration: a string is a leave type iff it is one of the four names. */
  function ParseLeaveType(s: string): (t: Option<LeaveType>)
    ensures t.Some? <==> s == "Sick" || s == "Personal" || s == "Official" || s == "Vacation"
    ensures t.Some? ==> TypeName(t.value) == s
  {
    if s == "Sick" then Some(Sick)
    else if s == "Personal" then Some(Personal)
    else if s == "Official" then Some(Official)
    else if s == "Vacation" then Some(Vacation)
    else None
  }

  function StatusName(s: Status): string
  {
    match s
    case Pending => "Pending"
    case Approved => "Approved"
    case Rejected => "Rejected"
  }

  /** The status enumeration: a string is a status iff it is one of the three names. */
  function ParseStatus(s: string): (r: Option<Status>)
    ensures r.Some? <==> s == "Pending" || s == "Approved" || s == "Rejected"
    ensures r.Some? ==> StatusName(r.value) == s
  {
    if s == "Pending" then Some(Pending)
    else if s == "Approved" then Some(Approved)
    else if s == "Rejected" then Some(Rejected)
    else None
  }

  lemma NamesRoundTrip(t: LeaveType, s: Status)
    ensures ParseLeaveType(TypeName(t)) == Some(t)
    ensures ParseStatus(StatusName(s)) == Some(s)
  {
  }

  datatype Balance = Balance(total: int, used: int)
  {
    function Available(): int
    {
      total - used
    }
  }

  /** The balances of the four leave types, one field each. */
  datatype Balances = Balances(sick: Balance, personal: Balance, official: Balance, vacation: Balance)
  {
    function Get(t: LeaveType): Balance
    {
      match t
      case Sick => sick
      case Personal => personal
      case Official => official
      case Vacation => vacation
    }

    /** These balances with the one of type t replaced by b; the other three are kept. */
    function Set(t: LeaveType, b: Balance): (r: Balances)
      ensures r.Get(t) == b
      ensures forall u :: u != t ==> r.Get(u) == Get(u)
    {
      match t
      case Sick => this.(sick := b)
      case Personal => this.(personal := b)
      case Official => this.(official := b)
      case Vacation => this.(vacation := b)
    }
  }

  /** The balances of a new ledger: totals 10, 5, 3 and 15 days, nothing used. */
  function DefaultBalances(): (b: Balances)
    ensures b.Get(Sick).total == 10 && b.Get(Personal).total == 5
    ensures b.Get(Official).total == 3 && b.Get(Vacation).total == 15
    ensures forall t :: b.Get(t).used == 0 && b.Get(t).Available() == b.Get(t).total
  {
    Balances(Balance(10, 0), Balance(5, 0), Balance(3, 0), Balance(15, 0))
  }

  /** One leave request embedded in a ledger. */
  datatype LeaveRequest = LeaveRequest(
    id: RequestId,
    startDate: Date,
    endDate: Date,
    leaveType: LeaveType,
    reason: string,
    status: Status,
    createdAt: int)

  /** A request as the document creates it: the status defaults to Pending. */
  function NewRequest(id: RequestId, startDate: Date, endDate: Date, leaveType: LeaveType,
                      reason: string, createdAt: int): (r: LeaveRequest)
    ensures r.status == Pending
    ensures r.id == id && r.startDate == startDate && r.endDate == endDate
    ensures r.leaveType == leaveType && r.reason == reason && r.createdAt == createdAt
  {
    LeaveRequest(id, startDate, endDate, leaveType, reason, Pending, createdAt)
  }

  /** What every stored request satisfies: a non-empty reason and an end on or after the start. */
  predicate WellFormed(r: LeaveRequest)
  {
    r.reason != "" && DayNumber(r.startDate) <= DayNumber(r.endDate)
  }

  /** The value of one ledger document (its owning employee aside). */
  datatype LedgerState = LedgerState(requests: seq<LeaveRequest>, balances: Balances)

  /** A ledger as it is created on an employee's first request. */
  function FreshLedger(): (s: LedgerState)
    ensures s.requests == [] && s.balances == DefaultBalances()
  {
    LedgerState([], DefaultBalances())
  }
}
