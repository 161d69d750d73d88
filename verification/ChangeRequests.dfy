/**
 An organiser's change requests on one event (backend/src/events/change-requests/change-requests.service.ts), their
 review (backend/src/events/change-requests/review/change-request-review.service.ts) and the append-only audit of
 outcomes, over the planning state of PlanningHistory.
 */
module ChangeRequests {
  import opened Wrappers
  import opened EventTypes
  import opened EventImpact
  import PlanningHistory

  datatype RequestStatus = Pending | Approved | Denied | Withdrawn | Closed

  /** What is asked for: the values at filing and the values proposed, field by field. */
  datatype Request = Request(originals: Values, proposed: Values, status: RequestStatus)

  /** One audited outcome of the request at that row. */
  datatype Outcome = Outcome(request: nat, outcome: RequestStatus, proposed: Values)

  datatype State = State(planning: PlanningHistory.State, requests: seq<Request>, audit: seq<Outcome>)

  datatype Refusal =
    | RequestClosed | EventStarted | EndBeforeStart | NoChanges | RequestPending | RequestNotFound | AlreadyDecided
    | NotApplied

  datatype Result = Done(state: State) | Refused(reason: Refusal)

  predicate Permitted(field: Field) {
    field != Name && field != Purpose
  }

  predicate Accepts(status: EventStatus) {
    status in {EventStatus.Submitted, EventStatus.Approved, EventStatus.Planning, EventStatus.Confirmed}
  }

  /** Whether this input field enters the stored request. */
  predicate Asks(values: Values, input: Values, field: Field) {
    field in input && field in values && Permitted(field) && !PlanningHistory.SameValue(values[field], input[field])
  }

  predicate HasPending(requests: seq<Request>) {
    exists k :: 0 <= k < |requests| && requests[k].status == Pending
  }

  function FileRequest(s: State, input: Values, started: bool): Result
    requires WholeEvent(s.planning.values)
  {
    var values := s.planning.values;
    if !Accepts(s.planning.status) then Refused(RequestClosed)
    else if started then Refused(EventStarted)
    else if InstantOr(input, EndDateTime, values[EndDateTime].at)
            <= InstantOr(input, StartDateTime, values[StartDateTime].at)
    then Refused(EndBeforeStart)
    else
      var proposed := map f | f in input && Asks(values, input, f) :: input[f];
      var originals := map f | f in input && Asks(values, input, f) :: values[f];
      if |proposed| == 0 then Refused(NoChanges)
      else if HasPending(s.requests) then Refused(RequestPending)
      else Done(s.(requests := s.requests + [Request(originals, proposed, Pending)]))
  }

  function Decided(s: State, k: nat, outcome: RequestStatus): State
    requires k < |s.requests|
  {
    s.(requests := s.requests[k := s.requests[k].(status := outcome)],
       audit := s.audit + [Outcome(k, outcome, s.requests[k].proposed)])
  }

  function Withdraw(s: State, k: nat): Result {
    if k >= |s.requests| then Refused(RequestNotFound)
    else if s.requests[k].status != Pending then Refused(AlreadyDecided)
    else Done(Decided(s, k, Withdrawn))
  }

  /** A cancelled or completed event's requests can no longer be denied. */
  function Deny(s: State, k: nat): Result {
    if k >= |s.requests| then Refused(RequestNotFound)
    else if s.requests[k].status != Pending then Refused(AlreadyDecided)
    else if s.planning.status in {EventStatus.Cancelled, EventStatus.Completed} then Refused(RequestClosed)
    else Done(Decided(s, k, Denied))
  }

  /** Applies the proposed values, then records the outcome; what refuses the first refuses both. */
  function Approve(s: State, k: nat, started: bool): Result
    requires WholeEvent(s.planning.values) && forall i :: 0 <= i < |s.requests| ==> WellTyped(s.requests[i].proposed)
  {
    if k >= |s.requests| then Refused(RequestNotFound)
    else if s.requests[k].status != Pending then Refused(AlreadyDecided)
    else match PlanningHistory.ApproveRequest(s.planning, s.requests[k].proposed, started)
      case Refused(reason) => Refused(NotApplied)
      case Done(planning) => Done(Decided(s, k, RequestStatus.Approved).(planning := planning))
  }

  /** Cancelling the event closes its pending requests, in row order. */
  function ClosePending(s: State, k: nat): State
    requires k <= |s.requests|
    decreases |s.requests| - k
  {
    if k == |s.requests| then s
    else if s.requests[k].status == Pending then ClosePending(Decided(s, k, Closed), k + 1)
    else ClosePending(s, k + 1)
  }

  datatype Op =
    | FileOp(input: Values, started: bool)
    | WithdrawOp(request: nat)
    | DenyOp(request: nat)
    | ApproveOp(request: nat, started: bool)
    | CancelOp
    | PlanOp(op: PlanningHistory.Op)

  ghost predicate Defined(s: State, op: Op) {
    && WholeEvent(s.planning.values)
    && (forall i :: 0 <= i < |s.requests| ==> WellTyped(s.requests[i].proposed))
    && (op.FileOp? ==> WellTyped(op.input))
  }

  /** Planning changes other than an approval, which only a request brings. */
  ghost function Step(s: State, op: Op): State {
    if !Defined(s, op) then s
    else match op
      case FileOp(input, started) => var r := FileRequest(s, input, started); if r.Done? then r.state else s
      case WithdrawOp(k) => var r := Withdraw(s, k); if r.Done? then r.state else s
      case DenyOp(k) => var r := Deny(s, k); if r.Done? then r.state else s
      case ApproveOp(k, started) => var r := Approve(s, k, started); if r.Done? then r.state else s
      case CancelOp =>
        if !IsCancellable(s.planning.status) then s
        else ClosePending(s.(planning := s.planning.(status := EventStatus.Cancelled)), 0)
      case PlanOp(p) => if p.Approve? then s else s.(planning := PlanningHistory.Step(s.planning, p))
  }

  ghost function Run(s: State, ops: seq<Op>): State
    decreases |ops|
  {
    if ops == [] then s else Run(Step(s, ops[0]), ops[1..])
  }

  // ------------------------------------------------------------------ requests and their audit

  ghost predicate OutcomeOf(s: State, k: nat, a: nat)
    requires k < |s.requests| && a < |s.audit|
  {
    && s.audit[a].request == k && s.audit[a].outcome == s.requests[k].status
    && s.audit[a].proposed == s.requests[k].proposed
  }

  ghost predicate OnlyRow(s: State, k: nat, a: nat) {
    forall b :: 0 <= b < |s.audit| && b != a ==> s.audit[b].request != k
  }

  /** The audit row of a decided request is the only one that names it. */
  ghost predicate AuditedOnce(s: State, k: nat)
    requires k < |s.requests|
  {
    exists a :: 0 <= a < |s.audit| && OutcomeOf(s, k, a) && OnlyRow(s, k, a)
  }

  ghost predicate Unaudited(s: State, k: nat) {
    forall a :: 0 <= a < |s.audit| ==> s.audit[a].request != k
  }

  ghost predicate RequestTyped(r: Request) {
    r.proposed.Keys == r.originals.Keys && |r.proposed| > 0
  }

  /** A filed request asks for real changes to permitted fields only. */
  ghost predicate RealChanges(r: Request) {
    && RequestTyped(r) && WellTyped(r.proposed)
    && forall f :: f in r.proposed ==>
         Permitted(f) && PlanningHistory.MeaningOf(r.originals[f]) != PlanningHistory.MeaningOf(r.proposed[f])
  }

  ghost predicate OnePending(requests: seq<Request>) {
    forall i, j :: 0 <= i < j < |requests| ==> requests[i].status != Pending || requests[j].status != Pending
  }

  ghost predicate RowOk(s: State, k: nat)
    requires k < |s.requests|
  {
    if s.requests[k].status == Pending then Unaudited(s, k) else AuditedOnce(s, k)
  }

  ghost predicate Books(s: State) {
    && OnePending(s.requests)
    && (forall a :: 0 <= a < |s.audit| ==> s.audit[a].request < |s.requests|)
    && (forall k :: 0 <= k < |s.requests| ==> RowOk(s, k))
  }

  ghost predicate Invariant(initial: Values, s: State) {
    && PlanningHistory.Invariant(initial, s.planning)
    && Books(s)
    && AllReal(s.requests)
  }

  lemma DecidingKeepsBooks(s: State, k: nat, outcome: RequestStatus)
    requires Books(s) && k < |s.requests| && s.requests[k].status == Pending && outcome != Pending
    ensures Books(Decided(s, k, outcome))
  {
    var after := Decided(s, k, outcome);
    forall i | 0 <= i < |after.requests|
      ensures RowOk(after, i)
    {
      assert RowOk(s, i);
      if i == k {
        assert OutcomeOf(after, k, |s.audit|);
      } else {
        assert s.requests[i].status != Pending;
        var a :| 0 <= a < |s.audit| && OutcomeOf(s, i, a) && OnlyRow(s, i, a);
        assert OutcomeOf(after, i, a);
      }
    }
  }

  lemma FilingKeepsBooks(s: State, request: Request)
    requires Books(s) && !HasPending(s.requests) && request.status == Pending
    ensures Books(s.(requests := s.requests + [request]))
  {
    var after := s.(requests := s.requests + [request]);
    forall i | 0 <= i < |after.requests|
      ensures RowOk(after, i)
    {
      if i < |s.requests| {
        assert s.requests[i].status != Pending && RowOk(s, i);
        var a :| 0 <= a < |s.audit| && OutcomeOf(s, i, a) && OnlyRow(s, i, a);
        assert OutcomeOf(after, i, a);
      }
    }
  }

  lemma FilingAsksForChanges(s: State, input: Values, started: bool)
    requires WholeEvent(s.planning.values) && WellTyped(input) && FileRequest(s, input, started).Done?
    ensures RealChanges(FileRequest(s, input, started).state.requests[|s.requests|])
  {
    var request := FileRequest(s, input, started).state.requests[|s.requests|];
    forall f | f in request.proposed
      ensures PlanningHistory.MeaningOf(request.originals[f]) != PlanningHistory.MeaningOf(request.proposed[f])
    {
      PlanningHistory.SameValueIsSameMeaning(s.planning.values[f], input[f]);
    }
  }

  /** What closing does: only Pending rows change, and none is left pending. */
  lemma {:induction false} ClosingKeepsBooks(s: State, k: nat)
    requires Books(s) && k <= |s.requests| && forall i :: 0 <= i < k ==> s.requests[i].status != Pending
    ensures Books(ClosePending(s, k))
    ensures ClosePending(s, k).planning == s.planning && KeepsDecided(s, ClosePending(s, k))
    ensures |ClosePending(s, k).requests| == |s.requests| && !HasPending(ClosePending(s, k).requests)
    decreases |s.requests| - k
  {
    if k < |s.requests| {
      if s.requests[k].status == Pending {
        DecidingKeepsBooks(s, k, Closed);
        ClosingKeepsBooks(Decided(s, k, Closed), k + 1);
      } else {
        ClosingKeepsBooks(s, k + 1);
      }
    }
  }

  /** Rows and audit only grow; a decided request never changes; what a request asks for never changes. */
  ghost predicate KeepsDecided(s: State, after: State) {
    && |s.requests| <= |after.requests| && s.audit <= after.audit
    && forall k :: 0 <= k < |s.requests| ==>
         && after.requests[k].proposed == s.requests[k].proposed
         && after.requests[k].originals == s.requests[k].originals
         && (s.requests[k].status != Pending ==> after.requests[k] == s.requests[k])
  }

  lemma BooksIgnorePlanning(s: State, t: State)
    requires Books(s) && t == s.(planning := t.planning)
    ensures Books(t)
  {
    forall k | 0 <= k < |s.requests|
      ensures RowOk(t, k)
    {
      assert RowOk(s, k);
      if s.requests[k].status != Pending {
        var a :| 0 <= a < |s.audit| && OutcomeOf(s, k, a) && OnlyRow(s, k, a);
        assert OutcomeOf(t, k, a);
      }
    }
  }

  lemma ClosingAfterCancelling(s: State)
    requires Books(s)
    ensures var after := ClosePending(s.(planning := s.planning.(status := EventStatus.Cancelled)), 0);
      && Books(after) && KeepsDecided(s, after)
      && after.planning == s.planning.(status := EventStatus.Cancelled)
      && |after.requests| == |s.requests| && !HasPending(after.requests)
  {
    var cancelled := s.(planning := s.planning.(status := EventStatus.Cancelled));
    BooksIgnorePlanning(s, cancelled);
    ClosingKeepsBooks(cancelled, 0);
  }

  lemma StepKeepsDecided(s: State, op: Op)
    requires Books(s)
    ensures KeepsDecided(s, Step(s, op))
  {
    match op
    case CancelOp => ClosingAfterCancelling(s);
    case PlanOp(p) => assert Step(s, op).requests == s.requests && Step(s, op).audit == s.audit;
    case FileOp(input, started) => assert Step(s, op).audit == s.audit;
    case WithdrawOp(k) => assert k < |s.requests| ==> KeepsDecided(s, s) && s.audit <= Decided(s, k, Withdrawn).audit;
    case DenyOp(k) => assert k < |s.requests| ==> KeepsDecided(s, s) && s.audit <= Decided(s, k, Denied).audit;
    case ApproveOp(k, started) =>
      assert k < |s.requests| ==> KeepsDecided(s, s) && s.audit <= Decided(s, k, RequestStatus.Approved).audit;
  }

  lemma StepKeepsBooks(s: State, op: Op)
    requires Books(s)
    ensures Books(Step(s, op))
  {
    if Defined(s, op) {
      match op
      case FileOp(input, started) =>
        if FileRequest(s, input, started).Done? {
          FilingKeepsBooks(s, FileRequest(s, input, started).state.requests[|s.requests|]);
        }
      case WithdrawOp(k) => if Withdraw(s, k).Done? { DecidingKeepsBooks(s, k, Withdrawn); }
      case DenyOp(k) => if Deny(s, k).Done? { DecidingKeepsBooks(s, k, Denied); }
      case ApproveOp(k, started) =>
        if Approve(s, k, started).Done? {
          DecidingKeepsBooks(s, k, RequestStatus.Approved);
          BooksIgnorePlanning(Decided(s, k, RequestStatus.Approved), Step(s, op));
        }
      case CancelOp => ClosingAfterCancelling(s);
      case PlanOp(p) => BooksIgnorePlanning(s, Step(s, op));
    }
  }

  lemma ApprovalKeepsPlanning(initial: Values, s: State, k: nat, started: bool)
    requires PlanningHistory.Invariant(initial, s.planning) && Defined(s, ApproveOp(k, started))
    requires Approve(s, k, started).Done?
    ensures PlanningHistory.Invariant(initial, Approve(s, k, started).state.planning)
  {
    var patch := s.requests[k].proposed;
    PlanningHistory.StepKeepsInvariant(initial, s.planning, PlanningHistory.Approve(patch, started));
    assert Approve(s, k, started).state.planning
        == PlanningHistory.Step(s.planning, PlanningHistory.Approve(patch, started));
  }

  lemma CancellingKeepsPlanning(initial: Values, s: State)
    requires PlanningHistory.Invariant(initial, s.planning) && Books(s)
    ensures var cancelled := s.(planning := s.planning.(status := EventStatus.Cancelled));
      && ClosePending(cancelled, 0).planning == cancelled.planning
      && PlanningHistory.Invariant(initial, cancelled.planning)
  {
    ClosingAfterCancelling(s);
    PlanningHistory.StepKeepsInvariant(initial, s.planning, PlanningHistory.MoveStatus(EventStatus.Cancelled));
  }

  lemma StepKeepsPlanning(initial: Values, s: State, op: Op)
    requires PlanningHistory.Invariant(initial, s.planning) && Books(s)
    ensures PlanningHistory.Invariant(initial, Step(s, op).planning)
  {
    if Defined(s, op) {
      match op
      case ApproveOp(k, started) => if Approve(s, k, started).Done? { ApprovalKeepsPlanning(initial, s, k, started); }
      case PlanOp(p) => PlanningHistory.StepKeepsInvariant(initial, s.planning, p);
      case CancelOp => CancellingKeepsPlanning(initial, s);
      case _ =>
    }
  }

  ghost predicate AllReal(requests: seq<Request>) {
    forall k :: 0 <= k < |requests| ==> RealChanges(requests[k])
  }

  lemma KeptRowsAreReal(s: State, after: State)
    requires AllReal(s.requests) && KeepsDecided(s, after) && |after.requests| == |s.requests|
    ensures AllReal(after.requests)
  {
    forall k | 0 <= k < |after.requests| ensures RealChanges(after.requests[k]) {
      assert RealChanges(s.requests[k]);
    }
  }

  lemma FilingIsReal(s: State, input: Values, started: bool)
    requires AllReal(s.requests) && Defined(s, FileOp(input, started)) && FileRequest(s, input, started).Done?
    ensures AllReal(FileRequest(s, input, started).state.requests)
  {
    FilingAsksForChanges(s, input, started);
  }

  lemma StepKeepsRealChanges(s: State, op: Op)
    requires Books(s) && AllReal(s.requests)
    ensures AllReal(Step(s, op).requests)
  {
    if op.FileOp? && Defined(s, op) && FileRequest(s, op.input, op.started).Done? {
      FilingIsReal(s, op.input, op.started);
    } else {
      StepKeepsRows(s, op);
      StepKeepsDecided(s, op);
      KeptRowsAreReal(s, Step(s, op));
    }
  }

  lemma StepKeepsRows(s: State, op: Op)
    requires Books(s) && !(op.FileOp? && Defined(s, op) && FileRequest(s, op.input, op.started).Done?)
    ensures |Step(s, op).requests| == |s.requests|
  {
    if op == CancelOp {
      ClosingAfterCancelling(s);
    }
  }

  lemma StepKeepsInvariant(initial: Values, s: State, op: Op)
    requires Invariant(initial, s)
    ensures Invariant(initial, Step(s, op))
  {
    StepKeepsBooks(s, op);
    StepKeepsPlanning(initial, s, op);
    StepKeepsRealChanges(s, op);
  }

  lemma WithdrawalLeavesNonePending(requests: seq<Request>, k: nat)
    requires OnePending(requests) && k < |requests| && requests[k].status == Pending
    ensures !HasPending(requests[k := requests[k].(status := Withdrawn)])
  {
  }

  /** In a reachable state every step is defined, but for a filing that validation would stop. */
  lemma InvariantDefines(initial: Values, s: State, op: Op)
    requires Invariant(initial, s) && (op.FileOp? ==> WellTyped(op.input))
    ensures Defined(s, op)
  {
    forall i | 0 <= i < |s.requests| ensures WellTyped(s.requests[i].proposed) {
      assert RealChanges(s.requests[i]);
    }
  }

  lemma WithdrawalIsAStep(s: State, k: nat)
    requires Defined(s, WithdrawOp(k)) && Withdraw(s, k).Done?
    ensures Step(s, WithdrawOp(k)) == Withdraw(s, k).state
  {
  }

  lemma WithdrawalKeepsInvariant(initial: Values, s: State, k: nat)
    requires Invariant(initial, s) && Withdraw(s, k).Done?
    ensures Invariant(initial, Withdraw(s, k).state) && KeepsDecided(s, Withdraw(s, k).state)
  {
    InvariantDefines(initial, s, WithdrawOp(k));
    WithdrawalIsAStep(s, k);
    StepKeepsInvariant(initial, s, WithdrawOp(k));
    StepKeepsDecided(s, WithdrawOp(k));
  }

  lemma ClosingKeepsInvariant(initial: Values, s: State)
    requires Invariant(initial, s)
    ensures Invariant(initial, ClosePending(s, 0)) && !HasPending(ClosePending(s, 0).requests)
    ensures KeepsDecided(s, ClosePending(s, 0))
  {
    ClosingKeepsBooks(s, 0);
    forall k | 0 <= k < |s.requests| ensures RealChanges(ClosePending(s, 0).requests[k]) {
      assert RealChanges(s.requests[k]);
    }
  }

  /**
   Over every run: at most one request is pending; every decided request has exactly one audited outcome, its own, and
   a pending one none; decided requests and audit rows never change; and the planning log still replays.
   */
  lemma {:induction false} RequestsAreAudited(initial: Values, s: State, ops: seq<Op>)
    requires Invariant(initial, s)
    ensures Invariant(initial, Run(s, ops)) && KeepsDecided(s, Run(s, ops))
    decreases |ops|
  {
    if ops != [] {
      var next := Step(s, ops[0]);
      StepKeepsInvariant(initial, s, ops[0]);
      StepKeepsDecided(s, ops[0]);
      RequestsAreAudited(initial, next, ops[1..]);
      assert forall a :: 0 <= a < |next.audit| ==> Run(s, ops).audit[a] == next.audit[a];
    }
  }

  /** An approval writes exactly the proposed values, even where the event moved on since the request was filed. */
  lemma ApprovalAppliesTheRequest(s: State, k: nat, started: bool)
    requires Defined(s, ApproveOp(k, started)) && Approve(s, k, started).Done?
    ensures var before, after := s.planning.values, Approve(s, k, started).state.planning.values;
      forall f: Field :: (f in after
                          && after[f] == if f in s.requests[k].proposed then s.requests[k].proposed[f] else before[f])
  {
    PlanningHistory.OrderHasNoDuplicates();
  }

  /** Once the event is cancelled no request is pending, and none can be filed again. */
  lemma CancellationClosesRequests(s: State, input: Values, started: bool)
    requires Books(s) && Defined(s, FileOp(input, started)) && IsCancellable(s.planning.status)
    ensures var after := Step(s, CancelOp);
      && after.planning == s.planning.(status := EventStatus.Cancelled)
      && !HasPending(after.requests)
      && FileRequest(after, input, started) == Refused(RequestClosed)
  {
    ClosingAfterCancelling(s);
  }

  // ------------------------------------------------------------------ an approval the log does not show

  /** A fresh planning event that asks for one facility. */
  ghost predicate FreshWith(s: State, c: string) {
    && s.planning.status == EventStatus.Planning && s.requests == [] && s.audit == []
    && s.planning.pending == [] && s.planning.history == []
    && WholeEvent(s.planning.values) && s.planning.values[StartDateTime].at < s.planning.values[EndDateTime].at
    && s.planning.values[Facilities] == Choices([c])
  }

  ghost function FacilityPatch(choices: seq<string>): Values {
    map[Facilities := Choices(choices)]
  }

  /** The organiser asks for b and a; the coordinator sets a and b meanwhile; then the request is approved. */
  ghost function ReorderingRun(a: string, b: string): seq<Op> {
    [FileOp(FacilityPatch([b, a]), false), PlanOp(PlanningHistory.Update(FacilityPatch([a, b]), [], 0)),
     ApproveOp(0, false)]
  }

  lemma FacilitiesAsked(s: State, a: string, b: string, c: string)
    requires FreshWith(s, c) && a != b && a != c && b != c
    ensures var filed := Step(s, FileOp(FacilityPatch([b, a]), false));
      && filed.planning == s.planning && filed.audit == []
      && |filed.requests| == 1 && filed.requests[0].status == Pending
      && filed.requests[0].proposed == FacilityPatch([b, a])
  {
    var input, values := FacilityPatch([b, a]), s.planning.values;
    assert input[Facilities].choices[0] == b && b !in [c];
    assert Asks(values, input, Facilities);
    var proposed := map f | f in input && Asks(values, input, f) :: input[f];
    assert Facilities in proposed && proposed == input;
  }

  lemma OnlyOne(fields: seq<Field>, f: Field)
    requires NoDuplicates(fields) && forall g :: g in fields <==> g == f
    ensures fields == [f]
  {
    PlanningHistory.SetSize(fields);
    assert (set g | g in fields) == {f};
    assert fields[0] in fields;
  }

  lemma NoMembers(fields: seq<Field>)
    requires NoDuplicates(fields) && forall g :: g !in fields
    ensures fields == []
  {
    PlanningHistory.SetSize(fields);
    assert (set g | g in fields) == {};
  }

  /** Setting another list of facilities is the one change of the update, and nothing holds it back. */
  lemma FacilitiesChanged(values: Values, a: string, b: string, order: seq<Field>)
    requires WholeEvent(values) && a != b && NoDuplicates(order) && Facilities in order
    requires !PlanningHistory.SameValue(values[Facilities], Choices([a, b]))
    ensures PlanningHistory.Changed(order, values, FacilityPatch([a, b])) == [Facilities]
    ensures PlanningHistory.Classified([Facilities], FacilityPatch([a, b]), values, [], 0, false) == [Facilities]
    ensures PlanningHistory.Classified([Facilities], FacilityPatch([a, b]), values, [], 0, true) == []
  {
    var patch := FacilityPatch([a, b]);
    OnlyOne(PlanningHistory.Changed(order, values, patch), Facilities);
    OnlyOne(PlanningHistory.Classified([Facilities], patch, values, [], 0, false), Facilities);
    NoMembers(PlanningHistory.Classified([Facilities], patch, values, [], 0, true));
  }

  lemma FacilitiesUpdated(p: PlanningHistory.State, a: string, b: string, order: seq<Field>)
    requires PlanningHistory.Editable(p.status) && p.pending == [] && WholeEvent(p.values)
    requires !PlanningHistory.SameValue(p.values[Facilities], Choices([a, b]))
    requires a != b && NoDuplicates(order) && Facilities in order
    ensures PlanningHistory.UpdateInOrder(p, FacilityPatch([a, b]), [], 0, order)
         == PlanningHistory.Done(PlanningHistory.Committed(p, FacilityPatch([a, b]), [], [Facilities], []))
  {
    FacilitiesChanged(p.values, a, b, order);
  }

  lemma FacilitiesWritten(values: Values, choices: seq<string>)
    requires Facilities in values
    ensures PlanningHistory.Overwritten(values, FacilityPatch(choices), [Facilities])
         == values[Facilities := Choices(choices)]
  {
    assert forall f: Field :: f in [Facilities] <==> f == Facilities;
  }

  lemma ReplayOfOne(values: Values, entry: PlanningHistory.Entry, history: seq<PlanningHistory.Entry>)
    requires entry.outcome == PlanningHistory.Applied && history == [entry]
    ensures PlanningHistory.Replay(values, history) == values[entry.field := entry.proposed]
  {
    assert history[..0] == [];
  }

  /** The log entry of setting the facilities of a fresh event. */
  ghost function FacilityEntry(p: PlanningHistory.State, choices: seq<string>): PlanningHistory.Entry
    requires Facilities in p.values
  {
    PlanningHistory.Entry(p.nextId, Facilities, p.values[Facilities], Choices(choices), PlanningHistory.Applied)
  }

  lemma FacilitiesCommitted(p: PlanningHistory.State, choices: seq<string>)
    requires p.pending == [] && p.history == [] && WholeEvent(p.values) && WellTyped(FacilityPatch(choices))
    ensures PlanningHistory.Committed(p, FacilityPatch(choices), [], [Facilities], [])
         == PlanningHistory.State(p.status, p.values[Facilities := Choices(choices)], [], [FacilityEntry(p, choices)],
                                  p.nextId + 1)
  {
    FacilitiesWritten(p.values, choices);
    assert PlanningHistory.AppliedEntries(p.values, FacilityPatch(choices), [Facilities], p.nextId)
        == [FacilityEntry(p, choices)];
  }

  lemma FacilitiesApproved(p: PlanningHistory.State, a: string, b: string, order: seq<Field>)
    requires p.status == EventStatus.Planning && p.pending == [] && WholeEvent(p.values) && a != b
    requires p.values[StartDateTime].at < p.values[EndDateTime].at && p.values[Facilities] == Choices([a, b])
    requires Facilities in order && NoDuplicates(order)
    ensures var r := PlanningHistory.ApproveInOrder(p, FacilityPatch([b, a]), false, order);
      r.Done? && r.state.values[Facilities] == Choices([b, a]) && r.state.history == p.history
  {
    var patch := FacilityPatch([b, a]);
    assert PlanningHistory.SameValue(Choices([a, b]), Choices([b, a]));
    var changed := PlanningHistory.Changed(order, p.values, patch);
    NoMembers(changed);
  }

  /** The request for b and a is pending on an event that is now set to a and b, as its log says. */
  ghost predicate SetMeanwhile(s: State, initial: Values, a: string, b: string) {
    && |s.requests| == 1 && s.requests[0].status == Pending && s.requests[0].proposed == FacilityPatch([b, a])
    && s.planning.status == EventStatus.Planning && s.planning.pending == [] && WholeEvent(s.planning.values)
    && s.planning.values[StartDateTime].at < s.planning.values[EndDateTime].at
    && s.planning.values[Facilities] == Choices([a, b])
    && Facilities in initial
    && PlanningHistory.Replay(initial, s.planning.history)[Facilities] == Choices([a, b])
  }

  lemma PlanStep(s: State, op: PlanningHistory.Op)
    requires Defined(s, PlanOp(op)) && !op.Approve?
    ensures Step(s, PlanOp(op)) == s.(planning := PlanningHistory.Step(s.planning, op))
  {
  }

  /** With the request for two different facilities filed, every further step but a filing is defined. */
  lemma FiledIsDefined(s: State, a: string, b: string, op: Op)
    requires WholeEvent(s.planning.values) && a != b && !op.FileOp?
    requires |s.requests| == 1 && s.requests[0].proposed == FacilityPatch([b, a])
    ensures Defined(s, op)
  {
    assert WellTyped(FacilityPatch([b, a]));
  }

  lemma CommittedMeanwhile(s: State, a: string, b: string, c: string, next: PlanningHistory.State)
    requires |s.requests| == 1 && s.requests[0].status == Pending && s.requests[0].proposed == FacilityPatch([b, a])
    requires FreshWith(s.(requests := []), c) && a != b
    requires next == PlanningHistory.State(s.planning.status, s.planning.values[Facilities := Choices([a, b])], [],
                                           [FacilityEntry(s.planning, [a, b])], s.planning.nextId + 1)
    ensures SetMeanwhile(s.(planning := next), s.planning.values, a, b)
  {
    ReplayOfOne(s.planning.values, FacilityEntry(s.planning, [a, b]), next.history);
  }

  lemma UpdatedMeanwhile(s: State, a: string, b: string, c: string, op: PlanningHistory.Op)
    requires |s.requests| == 1 && s.requests[0].status == Pending && s.requests[0].proposed == FacilityPatch([b, a])
    requires FreshWith(s.(requests := []), c) && a != b
    requires op == PlanningHistory.Update(FacilityPatch([a, b]), [], 0)
    ensures SetMeanwhile(Step(s, PlanOp(op)), s.planning.values, a, b)
  {
    UpdateTaken(s.planning, a, b, c, op);
    FacilitiesCommitted(s.planning, [a, b]);
    FiledIsDefined(s, a, b, PlanOp(op));
    PlanStep(s, op);
    CommittedMeanwhile(s, a, b, c, PlanningHistory.Step(s.planning, op));
  }

  lemma UpdateTaken(p: PlanningHistory.State, a: string, b: string, c: string, op: PlanningHistory.Op)
    requires PlanningHistory.Editable(p.status) && p.pending == [] && WholeEvent(p.values) && a != b
    requires p.values[Facilities] == Choices([c]) && op == PlanningHistory.Update(FacilityPatch([a, b]), [], 0)
    ensures PlanningHistory.Step(p, op) == PlanningHistory.Committed(p, FacilityPatch([a, b]), [], [Facilities], [])
  {
    PlanningHistory.OrderHasNoDuplicates();
    assert |[c]| != |[a, b]|;
    FacilitiesUpdated(p, a, b, PlanningHistory.UpdateOrder());
    PlanningHistory.AcceptedStep(p, op);
  }

  lemma ApprovalStep(s: State)
    requires Defined(s, CancelOp) && |s.requests| > 0 && s.requests[0].status == Pending
    requires PlanningHistory.ApproveRequest(s.planning, s.requests[0].proposed, false).Done?
    ensures Step(s, ApproveOp(0, false)).planning
         == PlanningHistory.ApproveRequest(s.planning, s.requests[0].proposed, false).state
  {
  }

  lemma ApprovedAfterwards(s: State, initial: Values, a: string, b: string)
    requires SetMeanwhile(s, initial, a, b) && a != b
    ensures var after := Step(s, ApproveOp(0, false)).planning;
      && Facilities in after.values && after.values[Facilities] == Choices([b, a])
      && after.history == s.planning.history
  {
    PlanningHistory.OrderHasNoDuplicates();
    FacilitiesApproved(s.planning, a, b, PlanningHistory.UpdateOrder());
    FiledIsDefined(s, a, b, CancelOp);
    ApprovalStep(s);
  }

  /**
   A reachable event on which the log and the stored list differ: the update made in between is the list the log
   replays to, and the approval stores the requested order without a log row.
   */
  lemma ReorderedApprovalEscapesTheLog(s: State, a: string, b: string, c: string)
    requires FreshWith(s, c) && a != b && a != c && b != c
    ensures var after := Run(s, ReorderingRun(a, b)).planning;
      && Facilities in after.values && after.values[Facilities] == Choices([b, a])
      && PlanningHistory.Replay(s.planning.values, after.history)[Facilities] == Choices([a, b])
  {
    var ops := ReorderingRun(a, b);
    FacilitiesAsked(s, a, b, c);
    UpdatedMeanwhile(Step(s, ops[0]), a, b, c, ops[1].op);
    ApprovedAfterwards(Step(Step(s, ops[0]), ops[1]), s.planning.values, a, b);
    ThreeSteps(s, ops);
  }

  lemma FirstStep(s: State, ops: seq<Op>)
    requires ops != []
    ensures Run(s, ops) == Run(Step(s, ops[0]), ops[1..])
  {
  }

  lemma ThreeSteps(s: State, ops: seq<Op>)
    requires |ops| == 3
    ensures Run(s, ops) == Step(Step(Step(s, ops[0]), ops[1]), ops[2])
  {
    var s1, s2 := Step(s, ops[0]), Step(Step(s, ops[0]), ops[1]);
    FirstStep(s, ops);
    FirstStep(s1, ops[1..]);
    assert ops[1..][1..] == ops[2..];
    FirstStep(s2, ops[2..]);
    assert ops[2..][1..] == [];
  }

  // ------------------------------------------------------------------ the service

  class ChangeRequestsService {
    ghost const initial: Values
    var planning: PlanningHistory.State
    var requests: seq<Request>
    var audit: seq<Outcome>

    ghost function View(): State
      reads this
    {
      State(planning, requests, audit)
    }

    /** One pending request at most, every decision audited once, and the event's log still replays. */
    ghost predicate Valid()
      reads this
    {
      Invariant(initial, View())
    }

    constructor (planning: PlanningHistory.State, ghost initial: Values)
      requires PlanningHistory.Invariant(initial, planning)
      ensures View() == State(planning, [], []) && this.initial == initial && Valid()
    {
      this.planning, requests, audit := planning, [], [];
      this.initial := initial;
    }

    method Create(input: Values, started: bool) returns (refusal: Option<Refusal>)
      requires Valid() && WellTyped(input)
      modifies this
      ensures Valid() && WholeEvent(old(planning).values)
      ensures refusal.None? <==> FileRequest(old(View()), input, started).Done?
      ensures refusal.None? ==>
        && View() == FileRequest(old(View()), input, started).state
        && RealChanges(requests[|old(requests)|]) && requests[|old(requests)|].status == Pending
      ensures refusal.Some? ==>
        View() == old(View()) && FileRequest(old(View()), input, started) == Refused(refusal.value)
    {
      StepKeepsInvariant(initial, View(), FileOp(input, started));
      InvariantDefines(initial, View(), FileOp(input, started));
      if FileRequest(View(), input, started).Done? {
        FilingAsksForChanges(View(), input, started);
      }
      refusal := InsertRequest(input, started);
    }

    method InsertRequest(input: Values, started: bool) returns (refusal: Option<Refusal>)
      requires WholeEvent(planning.values)
      modifies `requests
      ensures refusal.None? <==> FileRequest(old(View()), input, started).Done?
      ensures refusal.None? ==> View() == FileRequest(old(View()), input, started).state
      ensures refusal.Some? ==>
        View() == old(View()) && FileRequest(old(View()), input, started) == Refused(refusal.value)
    {
      if !Accepts(planning.status) { return Some(RequestClosed); }
      if started { return Some(EventStarted); }
      var values := planning.values;
      var start := InstantOr(input, StartDateTime, values[StartDateTime].at);
      var end := InstantOr(input, EndDateTime, values[EndDateTime].at);
      if end <= start { return Some(EndBeforeStart); }
      var proposed := map f | f in input && Asks(values, input, f) :: input[f];
      var originals := map f | f in input && Asks(values, input, f) :: values[f];
      if |proposed| == 0 { return Some(NoChanges); }
      if exists k :: 0 <= k < |requests| && requests[k].status == Pending { return Some(RequestPending); }
      requests := requests + [Request(originals, proposed, Pending)];
      refusal := None;
    }

    /** The outcome of one request and its audit row. */
    method RecordOutcome(k: nat, outcome: RequestStatus)
      requires k < |requests|
      modifies `requests, `audit
      ensures View() == Decided(old(View()), k, outcome)
    {
      requests := requests[k := requests[k].(status := outcome)];
      audit := audit + [Outcome(k, outcome, requests[k].proposed)];
    }

    method WithdrawRow(k: nat) returns (refusal: Option<Refusal>)
      requires Valid()
      modifies this
      ensures Valid() && KeepsDecided(old(View()), View())
      ensures refusal.None? <==> Withdraw(old(View()), k).Done?
      ensures refusal.None? ==> View() == Withdraw(old(View()), k).state && !HasPending(requests)
      ensures refusal.Some? ==> View() == old(View()) && Withdraw(old(View()), k) == Refused(refusal.value)
    {
      assert KeepsDecided(View(), View());
      if k >= |requests| { return Some(RequestNotFound); }
      if requests[k].status != Pending { return Some(AlreadyDecided); }
      WithdrawalKeepsInvariant(initial, View(), k);
      WithdrawalLeavesNonePending(requests, k);
      RecordOutcome(k, Withdrawn);
      refusal := None;
    }

    /** Closes each pending row and audits it. */
    method CloseRows()
      modifies `requests, `audit
      ensures View() == ClosePending(old(View()), 0)
    {
      var k := 0;
      while k < |requests|
        invariant k <= |requests|
        invariant ClosePending(View(), k) == ClosePending(old(View()), 0)
        decreases |requests| - k
      {
        if requests[k].status == Pending {
          RecordOutcome(k, Closed);
        }
        k := k + 1;
      }
    }

    /** The cancellation's releaser: every pending request ends Closed with its audit row, and none is left pending. */
    method ReleaseRequests()
      requires Valid()
      modifies this
      ensures View() == ClosePending(old(View()), 0)
      ensures Valid() && KeepsDecided(old(View()), View()) && !HasPending(requests)
    {
      ClosingKeepsInvariant(initial, View());
      CloseRows();
    }
  }
}
