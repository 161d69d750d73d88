/**
 When an organiser's change request is filed, withdrawn, denied, approved or closed, and what that writes
 (backend/src/events/change-requests/change-requests.service.ts, review/ and the cancellation's releaser beside them).
 */
module RequestEffects {
  import opened Wrappers
  import opened EventTypes
  import opened EventImpact
  import opened ChangeRequests
  import PlanningHistory
  import PlanningEffects

  // ------------------------------------------------------------------ filing

  /** The input asks to change the field: any field but the name and the purpose, and to another value. */
  ghost predicate Wanted(s: State, input: Values, f: Field) {
    f != Name && f != Purpose && PlanningEffects.Alters(s.planning.values, input, f)
  }

  ghost predicate NonePending(requests: seq<Request>) {
    forall k :: 0 <= k < |requests| ==> requests[k].status != Pending
  }

  ghost predicate IsOver(status: EventStatus) {
    status == EventStatus.Rejected || status == EventStatus.Completed || status == EventStatus.Cancelled
  }

  lemma WantedMeans(s: State, input: Values, f: Field)
    requires WholeEvent(s.planning.values) && WellTyped(input)
    ensures Asks(s.planning.values, input, f) <==> Wanted(s, input, f)
  {
    if f in input {
      PlanningHistory.SameValueIsSameMeaning(s.planning.values[f], input[f]);
    }
  }

  /**
   A request is filed exactly while the event is not over and has not started, its dates with the input's stay ordered,
   something is wanted and no other request is pending.
   */
  lemma FilingIsAccepted(s: State, input: Values, started: bool)
    requires WholeEvent(s.planning.values) && WellTyped(input)
    ensures FileRequest(s, input, started).Done? <==>
      && !IsOver(s.planning.status) && !started && PlanningEffects.OrderedAfter(s.planning.values, input)
      && (exists f :: Wanted(s, input, f)) && NonePending(s.requests)
  {
    CancellableUnlessOver(s.planning.status);
    var proposed := map f | f in input && Asks(s.planning.values, input, f) :: input[f];
    forall f ensures f in proposed <==> Wanted(s, input, f) {
      WantedMeans(s, input, f);
    }
    if exists f :: Wanted(s, input, f) {
      var f :| Wanted(s, input, f);
      assert f in proposed;
    }
  }

  /** Why a request is not filed, in the order of the checks. */
  lemma FilingRefusals(s: State, input: Values, started: bool)
    requires WholeEvent(s.planning.values) && WellTyped(input)
    ensures FileRequest(s, input, started).Done? || FileRequest(s, input, started) == Refused(
      if IsOver(s.planning.status) then RequestClosed
      else if started then EventStarted
      else if !PlanningEffects.OrderedAfter(s.planning.values, input) then EndBeforeStart
      else if forall f :: !Wanted(s, input, f) then NoChanges else RequestPending)
  {
    FilingIsAccepted(s, input, started);
    var proposed := map f | f in input && Asks(s.planning.values, input, f) :: input[f];
    forall f ensures f in proposed <==> Wanted(s, input, f) {
      WantedMeans(s, input, f);
    }
    CancellableUnlessOver(s.planning.status);
    if exists f :: Wanted(s, input, f) {
      var f :| Wanted(s, input, f);
      assert f in proposed;
    } else {
      assert proposed == map[];
    }
  }

  /** The stored request has every wanted field and no other, with the value stored then and the proposed one. */
  ghost predicate StoresWanted(s: State, input: Values, r: Request) {
    && r.status == Pending
    && (forall f :: f in r.proposed <==> Wanted(s, input, f)) && (forall f :: f in r.originals <==> Wanted(s, input, f))
    && (forall f :: (Wanted(s, input, f) ==>
          r.proposed[f] == input[f] && r.originals[f] == s.planning.values[f]))
  }

  /** Filing adds that one request and nothing else. */
  lemma FilingStoresTheRequest(s: State, input: Values, started: bool)
    requires WholeEvent(s.planning.values) && WellTyped(input) && FileRequest(s, input, started).Done?
    ensures var after := FileRequest(s, input, started).state;
      && |after.requests| == |s.requests| + 1 && after.requests[..|s.requests|] == s.requests
      && after == s.(requests := after.requests)
      && StoresWanted(s, input, after.requests[|s.requests|])
  {
    forall f ensures Asks(s.planning.values, input, f) <==> Wanted(s, input, f) {
      WantedMeans(s, input, f);
    }
  }

  // ------------------------------------------------------------------ outcomes

  /** Request k has this outcome and the next audit row says so; every other row stays. */
  ghost predicate EndsAs(s: State, after: State, k: nat, outcome: RequestStatus)
    requires k < |s.requests|
  {
    && after.requests == s.requests[k := Request(s.requests[k].originals, s.requests[k].proposed, outcome)]
    && after.audit == s.audit + [Outcome(k, outcome, s.requests[k].proposed)]
  }

  ghost predicate IsPending(s: State, k: nat) {
    k < |s.requests| && s.requests[k].status == Pending
  }

  /** Why a request that is not pending has no outcome left to give. */
  ghost function NotPending(s: State, k: nat): Refusal {
    if k >= |s.requests| then RequestNotFound else AlreadyDecided
  }

  lemma WithdrawalEndsIt(s: State, k: nat)
    ensures Withdraw(s, k).Done? <==> IsPending(s, k)
    ensures !IsPending(s, k) ==> Withdraw(s, k) == Refused(NotPending(s, k))
    ensures Withdraw(s, k).Done? ==>
      EndsAs(s, Withdraw(s, k).state, k, Withdrawn) && Withdraw(s, k).state.planning == s.planning
  {
  }

  /** A request can still be denied once its event was rejected, but not once it was cancelled or completed. */
  lemma DenialEndsIt(s: State, k: nat)
    ensures Deny(s, k).Done? <==>
      && IsPending(s, k)
      && s.planning.status != EventStatus.Cancelled && s.planning.status != EventStatus.Completed
    ensures Deny(s, k).Done? || Deny(s, k) == Refused(if IsPending(s, k) then RequestClosed else NotPending(s, k))
    ensures Deny(s, k).Done? ==> EndsAs(s, Deny(s, k).state, k, Denied) && Deny(s, k).state.planning == s.planning
  {
  }

  /** An approval is accepted exactly when the planning side takes the proposed values, and leaves what that leaves. */
  lemma ApprovalEndsIt(s: State, k: nat, started: bool)
    requires WholeEvent(s.planning.values) && forall i :: 0 <= i < |s.requests| ==> WellTyped(s.requests[i].proposed)
    ensures Approve(s, k, started).Done? <==>
      && IsPending(s, k) && !IsOver(s.planning.status) && !started
      && (forall f :: f in s.requests[k].proposed ==> !PlanningEffects.AwaitsReview(s.planning.pending, f))
      && PlanningEffects.OrderedAfter(s.planning.values, s.requests[k].proposed)
    ensures Approve(s, k, started).Done?
      || Approve(s, k, started) == Refused(if IsPending(s, k) then NotApplied else NotPending(s, k))
    ensures Approve(s, k, started).Done? ==>
      var applied := PlanningHistory.ApproveRequest(s.planning, s.requests[k].proposed, started);
      && EndsAs(s, Approve(s, k, started).state, k, RequestStatus.Approved)
      && applied == PlanningHistory.Done(Approve(s, k, started).state.planning)
  {
    if k < |s.requests| {
      PlanningEffects.ApprovalIsAccepted(s.planning, s.requests[k].proposed, started);
    }
  }

  // ------------------------------------------------------------------ cancelling the event

  /** From row k on every pending request is Closed; every other row stays. */
  ghost predicate ClosedFrom(s: State, after: State, k: nat) {
    && |after.requests| == |s.requests|
    && forall i :: (0 <= i < |s.requests| ==>
         after.requests[i] == if k <= i && s.requests[i].status == Pending
                              then Request(s.requests[i].originals, s.requests[i].proposed, Closed) else s.requests[i])
  }

  lemma {:induction false} ClosingCloses(s: State, k: nat)
    requires k <= |s.requests|
    ensures ClosedFrom(s, ClosePending(s, k), k) && ClosePending(s, k).planning == s.planning
    decreases |s.requests| - k
  {
    if k < |s.requests| {
      ClosingCloses(if s.requests[k].status == Pending then Decided(s, k, Closed) else s, k + 1);
    }
  }

  /** A cancellation of an event that is not over closes each pending request, with one audit row each (Books). */
  lemma CancellingClosesEachRequest(s: State)
    requires Books(s) && Defined(s, CancelOp)
    ensures var after := Step(s, CancelOp);
      && Books(after) && s.audit <= after.audit
      && if IsOver(s.planning.status) then after == s
         else after.planning == s.planning.(status := EventStatus.Cancelled) && ClosedFrom(s, after, 0)
  {
    CancellableUnlessOver(s.planning.status);
    if IsCancellable(s.planning.status) {
      ClosingAfterCancelling(s);
      ClosingCloses(s.(planning := s.planning.(status := EventStatus.Cancelled)), 0);
    }
  }

  /** Every other step of a run leaves what its operation leaves; planning steps touch no request. */
  lemma StepsTakeTheirOperation(s: State, op: Op)
    requires Defined(s, op) && op != CancelOp
    ensures match op
      case FileOp(input, started) => Taken(s, Step(s, op), FileRequest(s, input, started))
      case WithdrawOp(k) => Taken(s, Step(s, op), Withdraw(s, k))
      case DenyOp(k) => Taken(s, Step(s, op), Deny(s, k))
      case ApproveOp(k, started) => Taken(s, Step(s, op), Approve(s, k, started))
      case PlanOp(p) => Step(s, op) == if p.Approve? then s else s.(planning := PlanningHistory.Step(s.planning, p))
  {
  }

  /** An accepted operation's state, and the state before when it was refused. */
  ghost predicate Taken(s: State, after: State, result: Result) {
    after == if result.Done? then result.state else s
  }
}
