/**
 * The pure rules of the leave controller: the inclusive day span, the
 * validation chain of a new request, the balance transition of a status
 * change, and the filters of the employee's leave query.
 */
module LeaveRules {
  import opened Common
  import opened Calendar
  import opened LeaveModel

  /** A date field of a request body: absent, present but not a date, or a date. */
  datatype DateArg = Missing | Unparseable | On(date: Date)

  /** JavaScript `a < b` on two Date objects: false whenever either is an invalid date. */
  predicate DateLess(a: DateArg, b: DateArg)
  {
    a.On? && b.On? && DayNumber(a.date) < DayNumber(b.date)
  }

  /** Inclusive number of calendar days from start to end. */
  function Span(start: Date, end: Date): int
  {
    DayNumber(end) - DayNumber(start) + 1
  }

  /** The day count of a request; 0 when either date is not a valid date. */
  function LeaveDays(start: DateArg, end: DateArg): (n: int)
    ensures n > 0 <==> start.On? && end.On? && DayNumber(start.date) <= DayNumber(end.date)
    ensures start.On? && end.On? && start.date == end.date ==> n == 1
    ensures !(start.On? && end.On?) ==> n == 0
  {
    if start.On? && end.On? then Span(start.date, end.date) else 0
  }

  /** One more day at the end adds exactly one to the span. */
  lemma SpanExtends(start: Date, end: Date, next: Date)
    requires DayNumber(next) == DayNumber(end) + 1
    ensures Span(start, next) == Span(start, end) + 1
  {
  }

  datatype LeaveError =
    | MissingFields
    | DateOutOfWindow
    | InvalidRange
    | ConsecutiveCapExceeded
    | MonthlyCapExceeded
    | InsufficientBalance(available: int)
    | StatusRequired
    | EmployeeIdRequired
    | LedgerNotFound
    | RequestNotFound
    | ApprovalExceedsBalance
    | ServerError

  /** The HTTP status code each error is reported with. */
  function HttpStatus(e: LeaveError): (code: int)
    ensures code == 404 <==> e == LedgerNotFound || e == RequestNotFound
    ensures code == 500 <==> e == ServerError
    ensures code == 400 || code == 404 || code == 500
  {
    match e
    case LedgerNotFound => 404
    case RequestNotFound => 404
    case ServerError => 500
    case _ => 400
  }

  datatype Outcome<T> = Ok(value: T) | Err(error: LeaveError)

  /** At most this many consecutive days, and this many days a month, for a capped leave type. */
  const DayCap: int := 3

  /** The body of an apply request. */
  datatype ApplyBody = ApplyBody(startDate: DateArg, endDate: DateArg, reason: Option<string>, leaveType: Option<string>)

  predicate FieldMissing(body: ApplyBody)
  {
    !Given(body.leaveType) || body.startDate.Missing? || body.endDate.Missing? || !Given(body.reason)
  }

  /** Every leave type other than Sick and Vacation is limited by the day caps (unknown names too). */
  predicate Capped(typeName: string)
  {
    typeName != "Sick" && typeName != "Vacation"
  }

  /** The share of request r in the days used of type t: its span when it is Approved and of type t. */
  function Contribution(r: LeaveRequest, t: LeaveType): int
  {
    if r.status == Approved && r.leaveType == t then Span(r.startDate, r.endDate) else 0
  }

  /** Total span of the Approved requests of type t: what `used` of type t accounts for. */
  function SumApproved(reqs: seq<LeaveRequest>, t: LeaveType): int
  {
    if reqs == [] then 0
    else SumApproved(reqs[..|reqs| - 1], t) + Contribution(reqs[|reqs| - 1], t)
  }

  /**
   * The monthly-cap filter and reduce: total span of the Approved requests,
   * of any leave type, whose start is on or after day lo and whose end is on
   * or before day hi.
   */
  function ApprovedDaysWithin(reqs: seq<LeaveRequest>, lo: int, hi: int): (n: int)
    ensures AllWellFormed(reqs) ==> n >= 0
    ensures (forall i :: 0 <= i < |reqs| ==> reqs[i].status != Approved) ==> n == 0
  {
    if reqs == [] then 0
    else
      var r := reqs[|reqs| - 1];
      ApprovedDaysWithin(reqs[..|reqs| - 1], lo, hi)
      + (if r.status == Approved && DayNumber(r.startDate) >= lo && DayNumber(r.endDate) <= hi
         then Span(r.startDate, r.endDate) else 0)
  }

  /** Reference definition by the calendar: Approved requests that start and end in month (y, m). */
  function ApprovedDaysInMonth(reqs: seq<LeaveRequest>, y: int, m: int): int
  {
    if reqs == [] then 0
    else
      var r := reqs[|reqs| - 1];
      ApprovedDaysInMonth(reqs[..|reqs| - 1], y, m)
      + (if r.status == Approved && r.startDate.year == y && r.startDate.month == m
            && r.endDate.year == y && r.endDate.month == m
         then Span(r.startDate, r.endDate) else 0)
  }

  /** A stored request lies wholly in the day-number window of d's month iff it starts and ends in that month. */
  lemma InMonthWindow(r: LeaveRequest, d: Date)
    requires WellFormed(r)
    ensures (DayNumber(r.startDate) >= DayNumber(FirstOfMonth(d)) && DayNumber(r.endDate) <= DayNumber(LastOfMonth(d)))
            <==> (r.startDate.year == d.year && r.startDate.month == d.month
                  && r.endDate.year == d.year && r.endDate.month == d.month)
  {
    MonthWindow(d, r.startDate);
    MonthWindow(d, r.endDate);
  }

  /** The day-number window of the monthly cap selects exactly the requests lying in that calendar month. */
  lemma {:induction false} MonthlyWindowIsCalendarMonth(reqs: seq<LeaveRequest>, d: Date)
    requires forall i :: 0 <= i < |reqs| ==> WellFormed(reqs[i])
    ensures ApprovedDaysWithin(reqs, DayNumber(FirstOfMonth(d)), DayNumber(LastOfMonth(d)))
            == ApprovedDaysInMonth(reqs, d.year, d.month)
  {
    if reqs != [] {
      var r := reqs[|reqs| - 1];
      assert WellFormed(r);
      MonthlyWindowIsCalendarMonth(reqs[..|reqs| - 1], d);
      InMonthWindow(r, d);
    }
  }

  /** A request the validation chain accepted. */
  datatype Draft = Draft(startDate: Date, endDate: Date, leaveType: LeaveType, reason: string, span: int)

  /**
   * The validation chain of an apply request against the employee's ledger
   * (requests and balances); the first failing check decides the error.
   */
  function CheckApply(reqs: seq<LeaveRequest>, balances: Balances, body: ApplyBody, today: Date): (r: Outcome<Draft>)
    ensures FieldMissing(body) ==> r == Err(MissingFields)
    ensures r.Ok? ==>
      && body.startDate == On(r.value.startDate) && body.endDate == On(r.value.endDate)
      && body.reason == Some(r.value.reason) && r.value.reason != ""
      && body.leaveType == Some(TypeName(r.value.leaveType))
      && r.value.span == Span(r.value.startDate, r.value.endDate) >= 1
      && DayNumber(FirstOfMonth(today)) <= DayNumber(r.value.startDate)
      && (Capped(TypeName(r.value.leaveType)) ==>
            r.value.span <= DayCap
            && ApprovedDaysWithin(reqs, DayNumber(FirstOfMonth(r.value.startDate)),
                                  DayNumber(LastOfMonth(r.value.startDate))) + r.value.span <= DayCap)
      && r.value.span <= balances.Get(r.value.leaveType).Available()
  {
    if FieldMissing(body) then Err(MissingFields)
    else if DateLess(body.startDate, On(FirstOfMonth(today))) || DateLess(body.endDate, body.startDate) then
      Err(DateOutOfWindow)
    else
      var days := LeaveDays(body.startDate, body.endDate);
      if days <= 0 then Err(InvalidRange)
      else
        var name := body.leaveType.value;
        var start := body.startDate.date;
        if Capped(name) && days > DayCap then Err(ConsecutiveCapExceeded)
        else
          var monthly := ApprovedDaysWithin(reqs, DayNumber(FirstOfMonth(start)), DayNumber(LastOfMonth(start)));
          if Capped(name) && monthly + days > DayCap then Err(MonthlyCapExceeded)
          else match ParseLeaveType(name)
            case None => Err(ServerError)
            case Some(t) =>
              var available := balances.Get(t).Available();
              if days > available then Err(InsufficientBalance(available))
              else
                Ok(Draft(start, body.endDate.date, t, body.reason.value, days))
  }

  /** If every check of the chain passes, the request is accepted (the converse of CheckApply's guarantee). */
  lemma AcceptsWhenAllChecksPass(reqs: seq<LeaveRequest>, balances: Balances, body: ApplyBody, today: Date, t: LeaveType)
    requires !FieldMissing(body) && body.startDate.On? && body.endDate.On?
    requires body.leaveType == Some(TypeName(t))
    requires DayNumber(FirstOfMonth(today)) <= DayNumber(body.startDate.date) <= DayNumber(body.endDate.date)
    requires Capped(TypeName(t)) ==>
      && Span(body.startDate.date, body.endDate.date) <= DayCap
      && ApprovedDaysWithin(reqs, DayNumber(FirstOfMonth(body.startDate.date)), DayNumber(LastOfMonth(body.startDate.date)))
         + Span(body.startDate.date, body.endDate.date) <= DayCap
    requires Span(body.startDate.date, body.endDate.date) <= balances.Get(t).Available()
    ensures CheckApply(reqs, balances, body, today)
            == Ok(Draft(body.startDate.date, body.endDate.date, t, body.reason.value, Span(body.startDate.date, body.endDate.date)))
  {
    assert ParseLeaveType(TypeName(t)) == Some(t);
  }

  /** The combined date check runs right after the field check: a start before this month or an end before the start. */
  lemma DateWindowComesSecond(reqs: seq<LeaveRequest>, balances: Balances, body: ApplyBody, today: Date)
    requires !FieldMissing(body)
    ensures DateLess(body.startDate, On(FirstOfMonth(today))) || DateLess(body.endDate, body.startDate)
            <==> CheckApply(reqs, balances, body, today) == Err(DateOutOfWindow)
  {
  }

  /** Once the date check passed, an invalid range can only come from a date that does not parse. */
  lemma InvalidRangeMeansUnparseable(reqs: seq<LeaveRequest>, balances: Balances, body: ApplyBody, today: Date)
    ensures CheckApply(reqs, balances, body, today) == Err(InvalidRange)
            <==> !FieldMissing(body) && (body.startDate.Unparseable? || body.endDate.Unparseable?)
                 && !DateLess(body.startDate, On(FirstOfMonth(today)))
  {
  }

  /** Sick and Vacation requests are never refused by either day cap. */
  lemma UncappedTypesSkipCaps(reqs: seq<LeaveRequest>, balances: Balances, body: ApplyBody, today: Date)
    requires body.leaveType == Some("Sick") || body.leaveType == Some("Vacation")
    ensures CheckApply(reqs, balances, body, today) != Err(ConsecutiveCapExceeded)
    ensures CheckApply(reqs, balances, body, today) != Err(MonthlyCapExceeded)
  {
  }

  /** A capped request longer than three days is refused by the consecutive-day cap, whatever the ledger holds. */
  lemma LongCappedRequestRefused(reqs: seq<LeaveRequest>, balances: Balances, body: ApplyBody, today: Date)
    requires !FieldMissing(body) && body.startDate.On? && body.endDate.On?
    requires Capped(body.leaveType.value)
    requires DayNumber(FirstOfMonth(today)) <= DayNumber(body.startDate.date)
    requires Span(body.startDate.date, body.endDate.date) > DayCap
    ensures CheckApply(reqs, balances, body, today) == Err(ConsecutiveCapExceeded)
  {
  }

  /**
   * Once the fields, the dates and the consecutive-day cap pass, the monthly
   * cap is the next check, and the balance check the one after it.
   */
  lemma MonthlyCapThenBalance(reqs: seq<LeaveRequest>, balances: Balances, body: ApplyBody, today: Date)
    requires !FieldMissing(body) && body.startDate.On? && body.endDate.On?
    requires DayNumber(FirstOfMonth(today)) <= DayNumber(body.startDate.date) <= DayNumber(body.endDate.date)
    requires Capped(body.leaveType.value) ==> Span(body.startDate.date, body.endDate.date) <= DayCap
    ensures var start, span, name := body.startDate.date, Span(body.startDate.date, body.endDate.date), body.leaveType.value;
      var capHit := Capped(name) && ApprovedDaysWithin(reqs, DayNumber(FirstOfMonth(start)), DayNumber(LastOfMonth(start))) + span > DayCap;
      var r := CheckApply(reqs, balances, body, today);
      && (r == Err(MonthlyCapExceeded) <==> capHit)
      && ((r.Err? && r.error.InsufficientBalance?) <==>
            !capHit && ParseLeaveType(name).Some? && span > balances.Get(ParseLeaveType(name).value).Available())
      && (r.Err? && r.error.InsufficientBalance? ==> r.error.available == balances.Get(ParseLeaveType(name).value).Available())
  {
  }

  /** A leave-type name outside the four reaches the balance lookup and fails there as a server error. */
  lemma UnknownTypeIsServerError(reqs: seq<LeaveRequest>, balances: Balances, body: ApplyBody, today: Date)
    requires Given(body.leaveType) && ParseLeaveType(body.leaveType.value).None?
    ensures CheckApply(reqs, balances, body, today).Err?
    ensures CheckApply(reqs, balances, body, today).error in
      {MissingFields, DateOutOfWindow, InvalidRange, ConsecutiveCapExceeded, MonthlyCapExceeded, ServerError}
  {
  }

  predicate AllWellFormed(reqs: seq<LeaveRequest>)
  {
    forall i :: 0 <= i < |reqs| ==> WellFormed(reqs[i])
  }

  /**
   * What the ledger keeps: for every type, the Approved requests account for
   * at most the days used, and the days used never exceed the total.
   */
  predicate Accounted(reqs: seq<LeaveRequest>, balances: Balances)
  {
    AllWellFormed(reqs)
    && forall t :: SumApproved(reqs, t) <= balances.Get(t).used <= balances.Get(t).total
  }

  /** The intended accounting: the days used of each type are exactly the Approved spans of that type. */
  predicate ExactlyAccounted(reqs: seq<LeaveRequest>, balances: Balances)
  {
    AllWellFormed(reqs)
    && forall t :: SumApproved(reqs, t) == balances.Get(t).used <= balances.Get(t).total
  }

  lemma {:induction false} SumApprovedNonNegative(reqs: seq<LeaveRequest>, t: LeaveType)
    requires AllWellFormed(reqs)
    ensures SumApproved(reqs, t) >= 0
  {
    if reqs != [] {
      assert WellFormed(reqs[|reqs| - 1]);
      SumApprovedNonNegative(reqs[..|reqs| - 1], t);
    }
  }

  /** In an accounted ledger no balance is ever negative: 0 <= used <= total. */
  lemma AccountedBounds(reqs: seq<LeaveRequest>, balances: Balances, t: LeaveType)
    requires Accounted(reqs, balances)
    ensures 0 <= balances.Get(t).used <= balances.Get(t).total
  {
    SumApprovedNonNegative(reqs, t);
  }

  lemma SumApprovedAppend(reqs: seq<LeaveRequest>, x: LeaveRequest, t: LeaveType)
    ensures SumApproved(reqs + [x], t) == SumApproved(reqs, t) + Contribution(x, t)
  {
    assert (reqs + [x])[..|reqs|] == reqs;
  }

  lemma {:induction false} SumApprovedUpdate(reqs: seq<LeaveRequest>, i: nat, x: LeaveRequest, t: LeaveType)
    requires i < |reqs|
    ensures SumApproved(reqs[i := x], t) == SumApproved(reqs, t) - Contribution(reqs[i], t) + Contribution(x, t)
  {
    var n := |reqs|;
    if i == n - 1 {
      assert reqs[i := x][..n - 1] == reqs[..n - 1];
    } else {
      assert reqs[i := x][..n - 1] == reqs[..n - 1][i := x];
      SumApprovedUpdate(reqs[..n - 1], i, x, t);
    }
  }

  /** Submitting a request appends a Pending entry, so the accounting is kept, exact or not. */
  lemma SubmittingKeepsAccounting(reqs: seq<LeaveRequest>, balances: Balances, d: Draft, id: RequestId, createdAt: int)
    requires d.reason != "" && DayNumber(d.startDate) <= DayNumber(d.endDate)
    ensures var reqs' := reqs + [NewRequest(id, d.startDate, d.endDate, d.leaveType, d.reason, createdAt)];
      && (Accounted(reqs, balances) ==> Accounted(reqs', balances))
      && (ExactlyAccounted(reqs, balances) ==> ExactlyAccounted(reqs', balances))
  {
    var x := NewRequest(id, d.startDate, d.endDate, d.leaveType, d.reason, createdAt);
    forall t ensures SumApproved(reqs + [x], t) == SumApproved(reqs, t) {
      SumApprovedAppend(reqs, x, t);
    }
  }

  /**
   * The balance change of setting a request of `span` days from status
   * current to status target: leaving Approved for Rejected gives the days
   * back, entering Approved takes them and is refused if that overdraws.
   */
  function Transition(current: Status, target: Status, span: int, b: Balance): (r: Outcome<Balance>)
    ensures r.Err? <==> current != Approved && target == Approved && b.used + span > b.total
    ensures r.Err? ==> r.error == ApprovalExceedsBalance
    ensures r.Ok? ==> r.value.total == b.total && (span >= 0 && b.used <= b.total ==> r.value.used <= r.value.total)
    ensures r.Ok? && target == current ==> r.value == b
    ensures r.Ok? ==>
      r.value.used == (if current != Approved && target == Approved then b.used + span
                       else if current == Approved && target == Rejected then b.used - span
                       else b.used)
  {
    if current == Approved && target == Rejected then Ok(b.(used := b.used - span))
    else if current != Approved && target == Approved then
      var b' := b.(used := b.used + span);
      if b'.total - b'.used < 0 then Err(ApprovalExceedsBalance) else Ok(b')
    else Ok(b)
  }

  /** Approving and then rejecting a request restores the balance exactly. */
  lemma ApproveThenRejectRestores(current: Status, span: int, b: Balance)
    requires current != Approved
    requires Transition(current, Approved, span, b).Ok?
    ensures Transition(Approved, Rejected, span, Transition(current, Approved, span, b).value) == Ok(b)
  {
  }

  /** The ledger after setting request i to status target, or the error that refuses it. */
  function SetStatus(reqs: seq<LeaveRequest>, balances: Balances, i: nat, target: Status): (r: Outcome<LedgerState>)
    requires i < |reqs|
    ensures r.Ok? ==> |r.value.requests| == |reqs|
    ensures r.Ok? ==> r.value.requests[i] == reqs[i].(status := target)
    ensures r.Ok? ==> forall j :: 0 <= j < |reqs| && j != i ==> r.value.requests[j] == reqs[j]
    ensures r.Ok? ==> forall t :: t != reqs[i].leaveType ==> r.value.balances.Get(t) == balances.Get(t)
    ensures var tr := Transition(reqs[i].status, target, Span(reqs[i].startDate, reqs[i].endDate), balances.Get(reqs[i].leaveType));
      && (r.Ok? <==> tr.Ok?)
      && (r.Err? ==> r.error == ApprovalExceedsBalance)
      && (r.Ok? ==> r.value.balances.Get(reqs[i].leaveType) == tr.value)
  {
    var req := reqs[i];
    match Transition(req.status, target, Span(req.startDate, req.endDate), balances.Get(req.leaveType))
    case Err(e) => Err(e)
    case Ok(b) => Ok(LedgerState(reqs[i := req.(status := target)], balances.Set(req.leaveType, b)))
  }

  /** Every status change the controller accepts keeps 0 <= Approved days <= used <= total. */
  lemma StatusChangeKeepsAccounting(reqs: seq<LeaveRequest>, balances: Balances, i: nat, target: Status)
    requires i < |reqs| && Accounted(reqs, balances)
    ensures SetStatus(reqs, balances, i, target).Ok? ==>
      Accounted(SetStatus(reqs, balances, i, target).value.requests, SetStatus(reqs, balances, i, target).value.balances)
  {
    if SetStatus(reqs, balances, i, target).Ok? {
      var st := SetStatus(reqs, balances, i, target).value;
      SetStatusKeepsWellFormed(reqs, balances, i, target);
      forall t ensures SumApproved(st.requests, t) <= st.balances.Get(t).used <= st.balances.Get(t).total {
        StatusChangeKeepsTypeBounds(reqs, balances, i, target, t);
      }
    }
  }

  lemma StatusChangeKeepsTypeBounds(reqs: seq<LeaveRequest>, balances: Balances, i: nat, target: Status, t: LeaveType)
    requires i < |reqs| && Accounted(reqs, balances) && SetStatus(reqs, balances, i, target).Ok?
    ensures var st := SetStatus(reqs, balances, i, target).value;
      SumApproved(st.requests, t) <= st.balances.Get(t).used <= st.balances.Get(t).total
  {
    var req := reqs[i];
    assert WellFormed(req);
    SetStatusSums(reqs, balances, i, target, t);
    if t == req.leaveType {
      assert SetStatus(reqs, balances, i, target).value.balances.Get(t)
        == Transition(req.status, target, Span(req.startDate, req.endDate), balances.Get(t)).value;
    }
  }

  /** A status change rewrites one request's status and nothing else, so the requests stay well formed. */
  lemma SetStatusKeepsWellFormed(reqs: seq<LeaveRequest>, balances: Balances, i: nat, target: Status)
    requires i < |reqs| && AllWellFormed(reqs) && SetStatus(reqs, balances, i, target).Ok?
    ensures AllWellFormed(SetStatus(reqs, balances, i, target).value.requests)
  {
    var st := SetStatus(reqs, balances, i, target).value;
    forall j | 0 <= j < |st.requests| ensures WellFormed(st.requests[j]) {
      assert WellFormed(reqs[j]);
    }
  }

  /** The Approved spans of every type after a status change, from those before it. */
  lemma SetStatusSums(reqs: seq<LeaveRequest>, balances: Balances, i: nat, target: Status, t: LeaveType)
    requires i < |reqs| && SetStatus(reqs, balances, i, target).Ok?
    ensures SumApproved(SetStatus(reqs, balances, i, target).value.requests, t)
      == SumApproved(reqs, t) - Contribution(reqs[i], t) + Contribution(reqs[i].(status := target), t)
  {
    assert SetStatus(reqs, balances, i, target).value.requests == reqs[i := reqs[i].(status := target)];
    SumApprovedUpdate(reqs, i, reqs[i].(status := target), t);
  }

  /** Setting a request to one of the documented targets, Approved or Rejected, keeps the accounting exact. */
  lemma DocumentedStatusChangeKeepsExactAccounting(reqs: seq<LeaveRequest>, balances: Balances, i: nat, target: Status)
    requires i < |reqs| && ExactlyAccounted(reqs, balances)
    requires target == Approved || target == Rejected
    ensures SetStatus(reqs, balances, i, target).Ok? ==>
      ExactlyAccounted(SetStatus(reqs, balances, i, target).value.requests, SetStatus(reqs, balances, i, target).value.balances)
  {
    if SetStatus(reqs, balances, i, target).Ok? {
      var st := SetStatus(reqs, balances, i, target).value;
      SetStatusKeepsWellFormed(reqs, balances, i, target);
      forall t ensures SumApproved(st.requests, t) == st.balances.Get(t).used <= st.balances.Get(t).total {
        DocumentedStatusChangeKeepsTypeExact(reqs, balances, i, target, t);
      }
    }
  }

  lemma DocumentedStatusChangeKeepsTypeExact(reqs: seq<LeaveRequest>, balances: Balances, i: nat, target: Status, t: LeaveType)
    requires i < |reqs| && ExactlyAccounted(reqs, balances) && SetStatus(reqs, balances, i, target).Ok?
    requires target == Approved || target == Rejected
    ensures var st := SetStatus(reqs, balances, i, target).value;
      SumApproved(st.requests, t) == st.balances.Get(t).used <= st.balances.Get(t).total
  {
    var req := reqs[i];
    SetStatusSums(reqs, balances, i, target, t);
    if t == req.leaveType {
      assert SetStatus(reqs, balances, i, target).value.balances.Get(t)
        == Transition(req.status, target, Span(req.startDate, req.endDate), balances.Get(t)).value;
    }
  }

  /**
   * As written, moving an Approved request back to Pending keeps its days
   * debited: the change is accepted, `used` stays, and the Approved spans
   * drop below it, so the accounting is no longer exact.
   */
  lemma ApprovedToPendingKeepsDebit(reqs: seq<LeaveRequest>, balances: Balances, i: nat)
    requires i < |reqs| && ExactlyAccounted(reqs, balances) && reqs[i].status == Approved
    ensures SetStatus(reqs, balances, i, Pending).Ok?
    ensures SetStatus(reqs, balances, i, Pending).value.balances == balances
    ensures !ExactlyAccounted(SetStatus(reqs, balances, i, Pending).value.requests, balances)
  {
    var req := reqs[i];
    var x := req.(status := Pending);
    assert WellFormed(req);
    SumApprovedUpdate(reqs, i, x, req.leaveType);
  }

  /** The evidently intended transition: leaving Approved for any other status gives the days back. */
  function RefundingTransition(current: Status, target: Status, span: int, b: Balance): (r: Outcome<Balance>)
    ensures r.Err? <==> current != Approved && target == Approved && b.used + span > b.total
    ensures r.Ok? ==> r.value.total == b.total
  {
    if current == Approved && target != Approved then Ok(b.(used := b.used - span))
    else Transition(current, target, span, b)
  }

  function RefundingSetStatus(reqs: seq<LeaveRequest>, balances: Balances, i: nat, target: Status): (r: Outcome<LedgerState>)
    requires i < |reqs|
    ensures r.Ok? ==> r.value.requests == reqs[i := reqs[i].(status := target)]
  {
    var req := reqs[i];
    match RefundingTransition(req.status, target, Span(req.startDate, req.endDate), balances.Get(req.leaveType))
    case Err(e) => Err(e)
    case Ok(b) => Ok(LedgerState(reqs[i := req.(status := target)], balances.Set(req.leaveType, b)))
  }

  /** With refunds on every exit from Approved, every accepted status change keeps the accounting exact. */
  lemma RefundingStatusChangeKeepsExactAccounting(reqs: seq<LeaveRequest>, balances: Balances, i: nat, target: Status)
    requires i < |reqs| && ExactlyAccounted(reqs, balances)
    ensures RefundingSetStatus(reqs, balances, i, target).Ok? ==>
      ExactlyAccounted(RefundingSetStatus(reqs, balances, i, target).value.requests,
                       RefundingSetStatus(reqs, balances, i, target).value.balances)
  {
    if RefundingSetStatus(reqs, balances, i, target).Ok? {
      var st := RefundingSetStatus(reqs, balances, i, target).value;
      assert AllWellFormed(st.requests) by {
        forall j | 0 <= j < |st.requests| ensures WellFormed(st.requests[j]) {
          assert WellFormed(reqs[j]);
        }
      }
      forall t ensures SumApproved(st.requests, t) == st.balances.Get(t).used <= st.balances.Get(t).total {
        RefundingStatusChangeKeepsTypeExact(reqs, balances, i, target, t);
      }
    }
  }

  lemma RefundingStatusChangeKeepsTypeExact(reqs: seq<LeaveRequest>, balances: Balances, i: nat, target: Status, t: LeaveType)
    requires i < |reqs| && ExactlyAccounted(reqs, balances) && RefundingSetStatus(reqs, balances, i, target).Ok?
    ensures var st := RefundingSetStatus(reqs, balances, i, target).value;
      SumApproved(st.requests, t) == st.balances.Get(t).used <= st.balances.Get(t).total
  {
    var req := reqs[i];
    var x := req.(status := target);
    assert WellFormed(req);
    SumApprovedUpdate(reqs, i, x, t);
    if t == req.leaveType {
      assert RefundingSetStatus(reqs, balances, i, target).value.balances.Get(t)
        == RefundingTransition(req.status, target, Span(req.startDate, req.endDate), balances.Get(t)).value;
    }
  }

  /** `requests.id(requestId)`: the position of the first request with that id, if any. */
  function FindRequest(reqs: seq<LeaveRequest>, id: RequestId): (r: Option<nat>)
    ensures r.Some? ==> r.value < |reqs| && reqs[r.value].id == id
    ensures r.Some? ==> forall j :: 0 <= j < r.value ==> reqs[j].id != id
    ensures r.None? <==> forall j :: 0 <= j < |reqs| ==> reqs[j].id != id
  {
    if reqs == [] then None
    else if reqs[0].id == id then Some(0)
    else match FindRequest(reqs[1..], id)
      case None => None
      case Some(k) => Some(k + 1)
  }

  /** The `filter` query parameter of the employee's leave query. */
  datatype LeaveFilter = AllRequests | ThisMonth | ThisWeek

  function ParseFilter(q: Option<string>): (f: LeaveFilter)
    ensures f == ThisMonth <==> q == Some("monthly")
    ensures f == ThisWeek <==> q == Some("weekly")
  {
    if q == Some("monthly") then ThisMonth
    else if q == Some("weekly") then ThisWeek
    else AllRequests
  }

  /** Day number of the Sunday that starts the week of the clock's date. */
  function WeekStartDay(now: Clock): int
  {
    DayNumber(now.date) - Weekday(now.date)
  }

  /**
   * The weekly filter as written: the request's start (midnight) is compared
   * with the week's Sunday at the current time of day.
   */
  predicate InWeekAsWritten(r: LeaveRequest, now: Clock)
  {
    Timestamp(DayNumber(r.startDate), 0) >= Timestamp(WeekStartDay(now), now.millis)
  }

  /** The evidently intended weekly filter: the request starts on or after the week's Sunday. */
  predicate InWeekByDay(r: LeaveRequest, now: Clock)
  {
    DayNumber(r.startDate) >= WeekStartDay(now)
  }

  /**
   * Whether the filter keeps request r: the month filter keeps exactly the
   * starts within the current calendar month, the week filter exactly the
   * starts from the week's Sunday on at the current time of day.
   */
  function Keeps(f: LeaveFilter, now: Clock, r: LeaveRequest): (b: bool)
    ensures f == AllRequests ==> b
    ensures f == ThisMonth ==>
      (b <==> DayNumber(FirstOfMonth(now.date)) <= DayNumber(r.startDate) <= DayNumber(LastOfMonth(now.date)))
    ensures f == ThisWeek ==>
      (b <==> DayNumber(r.startDate) > WeekStartDay(now) || (DayNumber(r.startDate) == WeekStartDay(now) && now.millis == 0))
  {
    MonthWindow(now.date, r.startDate);
    match f
    case AllRequests => true
    case ThisMonth => r.startDate.month == now.date.month && r.startDate.year == now.date.year
    case ThisWeek => InWeekAsWritten(r, now)
  }

  predicate IsSubsequence(a: seq<LeaveRequest>, b: seq<LeaveRequest>)
  {
    if a == [] then true
    else if b == [] then false
    else if a[0] == b[0] then IsSubsequence(a[1..], b[1..])
    else IsSubsequence(a, b[1..])
  }

  /** The requests the filter keeps, in their stored order. */
  function FilterRequests(reqs: seq<LeaveRequest>, f: LeaveFilter, now: Clock): (s: seq<LeaveRequest>)
    ensures IsSubsequence(s, reqs)
    ensures forall x :: x in s <==> x in reqs && Keeps(f, now, x)
    ensures forall x :: multiset(s)[x] == if Keeps(f, now, x) then multiset(reqs)[x] else 0
    ensures f == AllRequests ==> s == reqs
  {
    if reqs == [] then []
    else
      var rest := FilterRequests(reqs[1..], f, now);
      assert reqs == [reqs[0]] + reqs[1..];
      if Keeps(f, now, reqs[0]) then [reqs[0]] + rest else rest
  }

  /**
   * The weekly filter as written keeps a request that starts on the
   * week's Sunday only when the clock reads exactly midnight; later starts
   * are always kept and earlier ones never.
   */
  lemma WeeklyFilterAsWritten(r: LeaveRequest, now: Clock)
    ensures InWeekAsWritten(r, now) <==>
      DayNumber(r.startDate) > WeekStartDay(now) || (DayNumber(r.startDate) == WeekStartDay(now) && now.millis == 0)
  {
  }

  /** So a request starting on Sunday drops out of the week as soon as the clock is past midnight. */
  lemma WeeklyFilterDropsSunday(r: LeaveRequest, now: Clock)
    requires DayNumber(r.startDate) == WeekStartDay(now) && now.millis > 0
    ensures !InWeekAsWritten(r, now) && InWeekByDay(r, now)
  {
  }

  /** The intended weekly filter keeps exactly the requests starting from this week's Sunday on. */
  lemma WeeklyFilterByDay(r: LeaveRequest, now: Clock)
    ensures InWeekByDay(r, now) <==> DayNumber(r.startDate) >= DayNumber(now.date) - Weekday(now.date)
    ensures DayNumber(r.startDate) == DayNumber(now.date) ==> InWeekByDay(r, now)
    ensures (WeekStartDay(now) + 4) % 7 == 0
  {
    WeekStartIsSunday(now.date);
  }

  /**
   * The status-update handler on one ledger: find the request, check the
   * target is a status at all (the document refuses others when saved),
   * then apply the transition.
   */
  function UpdateOutcome(reqs: seq<LeaveRequest>, balances: Balances, requestId: RequestId, status: string): (r: Outcome<LedgerState>)
    ensures FindRequest(reqs, requestId).None? ==> r == Err(RequestNotFound)
    ensures FindRequest(reqs, requestId).Some? && ParseStatus(status).None? ==> r == Err(ServerError)
    ensures FindRequest(reqs, requestId).Some? && ParseStatus(status).Some? ==>
      r == SetStatus(reqs, balances, FindRequest(reqs, requestId).value, ParseStatus(status).value)
    ensures r.Ok? ==> FindRequest(reqs, requestId).Some? && ParseStatus(status).Some?
                      && r == SetStatus(reqs, balances, FindRequest(reqs, requestId).value, ParseStatus(status).value)
  {
    match FindRequest(reqs, requestId)
    case None => Err(RequestNotFound)
    case Some(i) =>
      match ParseStatus(status)
      case None => Err(ServerError)
      case Some(s) => SetStatus(reqs, balances, i, s)
  }

  /** Re-sending the status a request already has changes nothing. */
  lemma RepeatedStatusChangesNothing(reqs: seq<LeaveRequest>, balances: Balances, i: nat)
    requires i < |reqs|
    ensures SetStatus(reqs, balances, i, reqs[i].status) == Ok(LedgerState(reqs, balances))
  {
    var req := reqs[i];
    assert reqs[i := req.(status := req.status)] == reqs;
    assert balances.Set(req.leaveType, balances.Get(req.leaveType)) == balances;
  }

  /** Whatever the status-update handler accepts keeps the ledger accounted. */
  lemma UpdateKeepsAccounting(reqs: seq<LeaveRequest>, balances: Balances, requestId: RequestId, status: string)
    requires Accounted(reqs, balances)
    ensures UpdateOutcome(reqs, balances, requestId, status).Ok? ==>
      Accounted(UpdateOutcome(reqs, balances, requestId, status).value.requests,
                UpdateOutcome(reqs, balances, requestId, status).value.balances)
  {
    match FindRequest(reqs, requestId)
    case None =>
    case Some(i) =>
      match ParseStatus(status)
      case None =>
      case Some(s) => StatusChangeKeepsAccounting(reqs, balances, i, s);
  }
}
