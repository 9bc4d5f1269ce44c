/**
 * The leave controller's handlers over the ledger documents: submitting a
 * request, changing a request's status, and the employee's own query.
 * A Ledger object is one document; the LeaveStore is the collection, keyed
 * by employee, which is what keeps at most one ledger per employee.
 */
module LeaveController {
  import opened Common
  import opened Calendar
  import opened LeaveModel
  import opened LeaveRules

  datatype ApplyResponse = Submitted(leaveBalances: Balances) | ApplyRefused(error: LeaveError)

  datatype UpdateResponse = Updated(ledger: LedgerState) | UpdateRefused(error: LeaveError)

  datatype LeavesResponse = Leaves(requests: seq<LeaveRequest>, balance: Balances) | LeavesRefused(error: LeaveError)

  /** A handler's answer together with the ledger collection it leaves behind. */
  datatype StoreStep<R> = StoreStep(response: R, ledgers: map<EmployeeId, LedgerState>)

  /**
   * `applyLeave` on the collection as values: the employee's ledger, or a
   * fresh one, is checked; only an accepted request changes the collection,
   * by appending one Pending request to that employee's ledger.
   */
  function ApplyToStore(store: map<EmployeeId, LedgerState>, employeeId: Option<string>, body: ApplyBody,
                        today: Date, id: RequestId, createdAt: int): (s: StoreStep<ApplyResponse>)
    ensures !Given(employeeId) ==> s == StoreStep(ApplyRefused(MissingFields), store)
    ensures FieldMissing(body) ==> s == StoreStep(ApplyRefused(MissingFields), store)
    ensures Given(employeeId) ==>
      s.response == ApplyToLedger(if employeeId.value in store then store[employeeId.value] else FreshLedger(),
                                  body, today, id, createdAt).0
    ensures s.response.ApplyRefused? ==> s.ledgers == store
    ensures s.response.Submitted? ==>
      var e := employeeId.value;
      && Given(employeeId) && s.ledgers.Keys == store.Keys + {e}
      && (forall k :: k in store && k != e ==> s.ledgers[k] == store[k])
      && var before := if e in store then store[e] else FreshLedger();
         && s.response.leaveBalances == before.balances && s.ledgers[e].balances == before.balances
         && |s.ledgers[e].requests| == |before.requests| + 1
         && s.ledgers[e].requests[..|before.requests|] == before.requests
         && s.ledgers[e].requests[|before.requests|].status == Pending
         && s.ledgers[e].requests[|before.requests|].id == id
    ensures s.response.Submitted? ==>
      var e := employeeId.value;
      var before := if e in store then store[e] else FreshLedger();
      && CheckApply(before.requests, before.balances, body, today).Ok?
      && var d := CheckApply(before.requests, before.balances, body, today).value;
         s.ledgers[e].requests == before.requests + [NewRequest(id, d.startDate, d.endDate, d.leaveType, d.reason, createdAt)]
  {
    if !Given(employeeId) then StoreStep(ApplyRefused(MissingFields), store)
    else
      var e := employeeId.value;
      var st := if e in store then store[e] else FreshLedger();
      var step := ApplyToLedger(st, body, today, id, createdAt);
      StoreStep(step.0, if e in store || step.0.Submitted? then store[e := step.1] else store)
  }

  /**
   * The ledger's own part of `applyLeave`: the validation chain against the
   * document, and the document as it is left, extended by one Pending
   * request on success and the old one otherwise.
   */
  function ApplyToLedger(st: LedgerState, body: ApplyBody, today: Date, id: RequestId, createdAt: int)
    : (p: (ApplyResponse, LedgerState))
    ensures p.0.ApplyRefused? ==> p.1 == st && CheckApply(st.requests, st.balances, body, today) == Err(p.0.error)
    ensures p.0.Submitted? ==>
      && CheckApply(st.requests, st.balances, body, today).Ok?
      && p.0.leaveBalances == st.balances && p.1.balances == st.balances
      && |p.1.requests| == |st.requests| + 1
      && p.1.requests[..|st.requests|] == st.requests
      && p.1.requests[|st.requests|].status == Pending
      && p.1.requests[|st.requests|].id == id
    ensures p.0.Submitted? ==>
      var d := CheckApply(st.requests, st.balances, body, today).value;
      p.1 == LedgerState(st.requests + [NewRequest(id, d.startDate, d.endDate, d.leaveType, d.reason, createdAt)], st.balances)
  {
    match CheckApply(st.requests, st.balances, body, today)
    case Err(err) => (ApplyRefused(err), st)
    case Ok(d) =>
      var reqs := st.requests + [NewRequest(id, d.startDate, d.endDate, d.leaveType, d.reason, createdAt)];
      assert reqs[..|st.requests|] == st.requests;
      (Submitted(st.balances), LedgerState(reqs, st.balances))
  }

  /**
   * `updateLeaveStatus` on the collection as values: the body guards, the
   * ledger lookup (whose filter fails to cast an employee id that is not an
   * ObjectId), then the ledger's own status update; only a successful
   * update changes the collection, and only that employee's ledger.
   */
  function UpdateInStore(store: map<EmployeeId, LedgerState>, status: Option<string>, employeeId: Option<string>,
                         requestId: RequestId): (s: StoreStep<UpdateResponse>)
    ensures !Given(status) ==> s == StoreStep(UpdateRefused(StatusRequired), store)
    ensures Given(status) && !Given(employeeId) ==> s == StoreStep(UpdateRefused(EmployeeIdRequired), store)
    ensures Given(status) && Given(employeeId) && !IsObjectId(employeeId.value) ==>
      s == StoreStep(UpdateRefused(ServerError), store)
    ensures Given(status) && Given(employeeId) && IsObjectId(employeeId.value) && employeeId.value !in store ==>
      s == StoreStep(UpdateRefused(LedgerNotFound), store)
    ensures Given(status) && Given(employeeId) && IsObjectId(employeeId.value) && employeeId.value in store ==>
      s.response == UpdateLedger(store[employeeId.value], requestId, status.value).0
    ensures s.response.UpdateRefused? ==> s.ledgers == store
    ensures s.response.Updated? ==>
      && Given(employeeId) && IsObjectId(employeeId.value) && employeeId.value in store
      && s.ledgers == store[employeeId.value := s.response.ledger]
      && UpdateOutcome(store[employeeId.value].requests, store[employeeId.value].balances, requestId, status.value)
         == Ok(s.response.ledger)
  {
    if !Given(status) then StoreStep(UpdateRefused(StatusRequired), store)
    else if !Given(employeeId) then StoreStep(UpdateRefused(EmployeeIdRequired), store)
    else if !IsObjectId(employeeId.value) then StoreStep(UpdateRefused(ServerError), store)
    else if employeeId.value !in store then StoreStep(UpdateRefused(LedgerNotFound), store)
    else
      var e := employeeId.value;
      var step := UpdateLedger(store[e], requestId, status.value);
      StoreStep(step.0, store[e := step.1])
  }

  /**
   * The ledger's own part of `updateLeaveStatus`: the response, and the
   * document as it is left, which is the old one whenever the update is refused.
   */
  function UpdateLedger(st: LedgerState, requestId: RequestId, status: string): (p: (UpdateResponse, LedgerState))
    ensures p.0.UpdateRefused? ==> p.1 == st && UpdateOutcome(st.requests, st.balances, requestId, status) == Err(p.0.error)
    ensures p.0.Updated? ==> p.0.ledger == p.1 && UpdateOutcome(st.requests, st.balances, requestId, status) == Ok(p.1)
  {
    match UpdateOutcome(st.requests, st.balances, requestId, status)
    case Err(err) => (UpdateRefused(err), st)
    case Ok(next) => (Updated(next), next)
  }

  class Ledger {
    const employee: EmployeeId
    var requests: seq<LeaveRequest>
    var balances: Balances

    ghost predicate Valid()
      reads this
    {
      Accounted(requests, balances)
    }

    function State(): LedgerState
      reads this
    {
      LedgerState(requests, balances)
    }

    /** A new document: no requests and the default balances. */
    constructor (employee: EmployeeId)
      ensures Valid() && this.employee == employee && State() == FreshLedger()
    {
      this.employee := employee;
      requests := [];
      balances := DefaultBalances();
    }

    /**
     * Runs the validation chain against this ledger; on success appends one
     * Pending request. The balances are never touched and are returned as they are.
     */
    method Apply(body: ApplyBody, today: Date, id: RequestId, createdAt: int) returns (r: ApplyResponse)
      requires Valid()
      modifies this
      ensures Valid()
      ensures (r, State()) == ApplyToLedger(old(State()), body, today, id, createdAt)
    {
      match CheckApply(requests, balances, body, today)
      case Err(e) =>
        r := ApplyRefused(e);
      case Ok(d) =>
        SubmittingKeepsAccounting(requests, balances, d, id, createdAt);
        requests := requests + [NewRequest(id, d.startDate, d.endDate, d.leaveType, d.reason, createdAt)];
        r := Submitted(balances);
    }

    /**
     * Sets the status of the request with the given id, adjusting the days
     * used of its type; on any refusal the document is left as it was.
     */
    method UpdateStatus(requestId: RequestId, status: string) returns (r: UpdateResponse)
      requires Valid()
      modifies this
      ensures Valid()
      ensures (r, State()) == UpdateLedger(old(State()), requestId, status)
    {
      var found := FindRequest(requests, requestId);
      if found.None? {
        return UpdateRefused(RequestNotFound);
      }
      var target := ParseStatus(status);
      if target.None? {
        // the document rejects a status outside the enumeration when it is saved
        return UpdateRefused(ServerError);
      }
      r := SetRequestStatus(found.value, target.value);
    }

    /** The status change of the request at index i and the days-used adjustment of its type. */
    method SetRequestStatus(i: nat, s: Status) returns (r: UpdateResponse)
      requires Valid() && i < |requests|
      modifies this
      ensures Valid()
      ensures match SetStatus(old(requests), old(balances), i, s)
        case Ok(st) => r == Updated(st) && State() == st
        case Err(e) => r == UpdateRefused(e) && State() == old(State())
    {
      StatusChangeKeepsAccounting(requests, balances, i, s);
      var req := requests[i];
      var b, ok := Rebalance(req.status, s, Span(req.startDate, req.endDate), balances.Get(req.leaveType));
      if !ok {
        return UpdateRefused(ApprovalExceedsBalance);
      }
      balances := balances.Set(req.leaveType, b);
      requests := requests[i := req.(status := s)];
      r := Updated(State());
    }
  }

  /**
   * The in-place balance arithmetic of a status change: `used -= days` when
   * an Approved request is rejected, `used += days` when a request becomes
   * Approved, refused when that leaves a negative remainder.
   */
  method Rebalance(current: Status, target: Status, days: int, b0: Balance) returns (b: Balance, ok: bool)
    ensures ok <==> Transition(current, target, days, b0).Ok?
    ensures ok ==> Transition(current, target, days, b0) == Ok(b)
  {
    b := b0;
    ok := true;
    if current == Approved && target == Rejected {
      b := b.(used := b.used - days);
    } else if current != Approved && target == Approved {
      b := b.(used := b.used + days);
      var remaining := b.total - b.used;
      if remaining < 0 {
        ok := false;
      }
    }
  }

  class LeaveStore {
    var ledgers: map<EmployeeId, Ledger>

    /** Each ledger is filed under its own employee and keeps its accounting. */
    ghost predicate Valid()
      reads this, ledgers.Values
    {
      forall e :: e in ledgers ==> ledgers[e].employee == e && ledgers[e].Valid()
    }

    ghost function Snapshot(): map<EmployeeId, LedgerState>
      reads this, ledgers.Values
    {
      map e | e in ledgers :: ledgers[e].State()
    }

    constructor ()
      ensures Valid() && ledgers == map[]
    {
      ledgers := map[];
    }

    /**
     * `applyLeave`: the employee's ledger, or a fresh one when there is none,
     * is validated and extended; a fresh ledger is stored only on success.
     */
    method ApplyLeave(employeeId: Option<string>, body: ApplyBody, today: Date, id: RequestId, createdAt: int)
      returns (r: ApplyResponse)
      requires Valid()
      modifies this, ledgers.Values
      ensures Valid()
      ensures StoreStep(r, Snapshot()) == ApplyToStore(old(Snapshot()), employeeId, body, today, id, createdAt)
    {
      if !Given(employeeId) {
        return ApplyRefused(MissingFields);
      }
      var e := employeeId.value;
      if e in ledgers {
        r := ApplyToFiled(e, body, today, id, createdAt);
      } else {
        r := FileNewLedger(e, body, today, id, createdAt);
      }
    }

    /** The request checked against, and on success added to, the ledger filed under e. */
    method ApplyToFiled(e: EmployeeId, body: ApplyBody, today: Date, id: RequestId, createdAt: int)
      returns (r: ApplyResponse)
      requires Valid() && e in ledgers
      modifies ledgers.Values
      ensures Valid() && ledgers == old(ledgers)
      ensures r == ApplyToLedger(old(Snapshot())[e], body, today, id, createdAt).0
      ensures Snapshot() == old(Snapshot())[e := ApplyToLedger(old(Snapshot())[e], body, today, id, createdAt).1]
    {
      ghost var before := Snapshot();
      var ledger := ledgers[e];
      r := ledger.Apply(body, today, id, createdAt);
      OthersKept(before, e);
    }

    /** A fresh ledger for an employee without one, filed only when the request is accepted. */
    method FileNewLedger(e: EmployeeId, body: ApplyBody, today: Date, id: RequestId, createdAt: int)
      returns (r: ApplyResponse)
      requires Valid() && e !in ledgers
      modifies this
      ensures Valid()
      ensures r == ApplyToLedger(FreshLedger(), body, today, id, createdAt).0
      ensures Snapshot() == if r.Submitted? then old(Snapshot())[e := ApplyToLedger(FreshLedger(), body, today, id, createdAt).1]
                            else old(Snapshot())
    {
      ghost var before := Snapshot();
      var ledger := new Ledger(e);
      r := ledger.Apply(body, today, id, createdAt);
      if r.Submitted? {
        ledgers := ledgers[e := ledger];
        OthersKept(before, e);
      }
    }

    /**
     * `updateLeaveStatus`: the guards on the body, then the ledger and the
     * request lookups, then the status change of the request's ledger.
     */
    method UpdateLeaveStatus(status: Option<string>, employeeId: Option<string>, requestId: RequestId)
      returns (r: UpdateResponse)
      requires Valid()
      modifies ledgers.Values
      ensures Valid() && ledgers == old(ledgers)
      ensures StoreStep(r, Snapshot()) == UpdateInStore(old(Snapshot()), status, employeeId, requestId)
    {
      if !Given(status) {
        return UpdateRefused(StatusRequired);
      }
      if !Given(employeeId) {
        return UpdateRefused(EmployeeIdRequired);
      }
      var e := employeeId.value;
      if !IsObjectId(e) {
        return UpdateRefused(ServerError);
      }
      if e !in ledgers {
        return UpdateRefused(LedgerNotFound);
      }
      ghost var before := Snapshot();
      var ledger := ledgers[e];
      r := ledger.UpdateStatus(requestId, status.value);
      OthersKept(before, e);
    }

    /**
     * The store is valid and its snapshot differs from `before` in the entry
     * of e alone once every other ledger is still filed, valid and as it was.
     */
    lemma OthersKept(before: map<EmployeeId, LedgerState>, e: EmployeeId)
      requires e in ledgers && ledgers.Keys == before.Keys + {e}
      requires ledgers[e].employee == e && ledgers[e].Valid()
      requires forall k :: k in before && k != e ==>
        && ledgers[k].employee == k && ledgers[k].State() == before[k] && Accounted(before[k].requests, before[k].balances)
      ensures Valid()
      ensures Snapshot() == before[e := ledgers[e].State()]
    {
    }

    /**
     * `getEmployeeLeaves` as written: the employee's requests through the
     * chosen filter, with the balances as stored. With no ledger the code
     * reads a field of null and answers with a server error.
     */
    function EmployeeLeaves(employeeId: Option<string>, filter: Option<string>, now: Clock): (r: LeavesResponse)
      reads this, ledgers.Values
      ensures !Given(employeeId) ==> r == LeavesRefused(EmployeeIdRequired)
      ensures Given(employeeId) && employeeId.value !in ledgers ==> r == LeavesRefused(ServerError)
      ensures Given(employeeId) && employeeId.value in ledgers ==>
        && r.Leaves?
        && IsSubsequence(r.requests, ledgers[employeeId.value].requests)
        && (forall x :: x in r.requests <==>
              x in ledgers[employeeId.value].requests && Keeps(ParseFilter(filter), now, x))
        && (forall x :: multiset(r.requests)[x] ==
              if Keeps(ParseFilter(filter), now, x) then multiset(ledgers[employeeId.value].requests)[x] else 0)
        && r.balance == ledgers[employeeId.value].balances
      ensures r.Leaves? && ParseFilter(filter) == AllRequests ==> r.requests == ledgers[employeeId.value].requests
    {
      if !Given(employeeId) then LeavesRefused(EmployeeIdRequired)
      else if employeeId.value !in ledgers then LeavesRefused(ServerError)
      else
        var ledger := ledgers[employeeId.value];
        Leaves(FilterRequests(ledger.requests, ParseFilter(filter), now), ledger.balances)
    }

    /** The evidently intended answer for an employee without a ledger: no requests and the default balances. */
    function EmployeeLeavesOrDefaults(employeeId: Option<string>, filter: Option<string>, now: Clock): (r: LeavesResponse)
      reads this, ledgers.Values
      ensures r.Leaves? <==> Given(employeeId)
      ensures Given(employeeId) && employeeId.value !in ledgers ==> r == Leaves([], DefaultBalances())
      ensures Given(employeeId) && employeeId.value in ledgers ==> r == EmployeeLeaves(employeeId, filter, now)
    {
      if Given(employeeId) && employeeId.value !in ledgers then Leaves([], DefaultBalances())
      else EmployeeLeaves(employeeId, filter, now)
    }
  }
}
