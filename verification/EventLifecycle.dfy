/**
 The lifecycle methods over one event's rows (backend/src/events/status/status.service.ts and
 backend/src/events/safety-officer/safety-officer.service.ts), each one transaction under the event row lock. Row
 updates go through the database triggers, so the response is also shown not to reset the check it records.
 */
module EventLifecycle {
  import opened Wrappers
  import opened EventTypes
  import opened Lists
  import opened Arrangements
  import opened SafetyGate
  import SafetyEffects
  import Readiness

  /** What every operation on the event keeps. */
  ghost predicate Sound(w: World) {
    HistoryOk(w.state) && CheckIsFresh(w) && NoHoldUnderCheck(w.state)
  }

  lemma StepKeepsSound(w: World, op: Op)
    requires Sound(w)
    ensures Sound(StepWorld(w, op)) && w.state.history <= StepWorld(w, op).state.history
  {
    StepKeepsHistory(w.state, op);
    StepKeepsFresh(w, op);
    StepKeepsHoldsOut(w.state, op);
  }

  /** An accepted response starts from an empty feedback list, because the request it answers cleared it. */
  lemma ResponseStep(w: World, decision: Safety, items: seq<Feedback>, now: int)
    requires Sound(w)
    ensures var accepted := ResponseRefusal(w.state, decision, items, now).None?;
      && StepWorld(w, RespondOp(decision, items, now))
           == (if accepted
               then w.(state := Responded(w.state, decision, ResponseFeedback(w.state, decision, items))) else w)
      && (accepted ==> w.state.feedback == [] && decision != Awaiting)
  {
  }

  class EventRows {
    var state: State
    /** The arrangements the last accepted check request was made for. */
    ghost var checked: Option<Checked>

    ghost function View(): World
      reads this
    {
      World(state, checked)
    }

    /** The history is a chain, a standing check is fresh, and no hold stands beside a safety record. */
    ghost predicate Valid()
      reads this
    {
      Sound(View())
    }

    constructor (details: Details)
      ensures Valid() && checked == None
      ensures state == State(EventStatus.Submitted, details, [], [], {}, None, NO_REGISTRATION, None, [], [])
    {
      state := State(EventStatus.Submitted, details, [], [], {}, None, NO_REGISTRATION, None, [], []);
      checked := None;
    }

    method Confirm(now: int) returns (refusal: Option<Refusal>)
      requires Valid()
      modifies this
      ensures View() == StepWorld(old(View()), ConfirmOp(now))
      ensures Valid() && old(state).history <= state.history
      ensures refusal.None? <==> SafetyGate.Confirm(old(state), now).Done?
      ensures refusal.Some? ==> SafetyGate.Confirm(old(state), now) == Refused(refusal.value)
      ensures refusal.None? ==> SafetyEffects.Moved(old(state), state, EventStatus.Confirmed)
    {
      SafetyEffects.ConfirmIsAccepted(state, now);
      StepKeepsSound(View(), ConfirmOp(now));
      if state.status != EventStatus.Planning { return Some(NotPlanning); }
      var ready, outstanding := Readiness.EvaluateReadiness(SnapshotOf(state), now);
      if !ready { return Some(Refusal.Blocked); }
      state := state.(status := EventStatus.Confirmed);
      state := state.(history := state.history + [Change(EventStatus.Planning, EventStatus.Confirmed)]);
      refusal := None;
    }

    method Complete(ended: bool) returns (refusal: Option<Refusal>)
      requires Valid()
      modifies this
      ensures View() == StepWorld(old(View()), CompleteOp(ended))
      ensures Valid() && old(state).history <= state.history
      ensures refusal.None? <==> old(state).status == EventStatus.Confirmed && ended
      ensures state.status == EventStatus.Completed
        <==> refusal.None? || old(state).status == EventStatus.Completed
      ensures refusal.None? <==> SafetyGate.Complete(old(state), ended).Done?
      ensures refusal.Some? ==> SafetyGate.Complete(old(state), ended) == Refused(refusal.value)
    {
      StepKeepsSound(View(), CompleteOp(ended));
      if state.status != EventStatus.Confirmed { return Some(NotConfirmed); }
      if !ended { return Some(NotEnded); }
      state := state.(status := EventStatus.Completed);
      state := state.(history := state.history + [Change(EventStatus.Confirmed, EventStatus.Completed)]);
      refusal := None;
    }

    /** Counts the open feedback items as the query does. */
    method CountUnresolved() returns (count: nat)
      ensures count == 0 <==> AllResolved(state.feedback)
    {
      count := 0;
      for k := 0 to |state.feedback|
        invariant count == 0 <==> forall j :: 0 <= j < k ==> state.feedback[j].resolved
      {
        if !state.feedback[k].resolved {
          count := count + 1;
        }
      }
    }

    method RequestSafetyCheck(now: int) returns (refusal: Option<Refusal>)
      requires Valid()
      modifies this
      ensures View() == StepWorld(old(View()), RequestCheckOp(now))
      ensures Valid() && old(state).history <= state.history
      ensures refusal.None? <==> SafetyGate.RequestSafetyCheck(old(state), now).Done?
      ensures refusal.Some? ==> SafetyGate.RequestSafetyCheck(old(state), now) == Refused(refusal.value)
      ensures refusal.None? ==> state == old(state).(safety := Some(Awaiting), feedback := [])
      ensures refusal.None? ==> checked == Some(Checked(state.details, state.bookings, state.lines))
    {
      StepKeepsSound(View(), RequestCheckOp(now));
      if state.status != EventStatus.Planning { return Some(NotPlanning); }
      if !MayRequestCheck(state, state.registration, now) { return Some(PrerequisitesNotMet); }
      if state.safety == Some(Awaiting) { return Some(CheckPending); }
      if state.safety == Some(Cleared) { return Some(CheckApproved); }
      if UnderReview(state.safety) {
        var unresolved := CountUnresolved();
        if unresolved > 0 { return Some(FeedbackUnresolved); }
      }
      state := state.(feedback := []);
      state := state.(safety := Some(Awaiting));
      checked := Some(Checked(state.details, state.bookings, state.lines));
      refusal := None;
    }

    /** The first item that selects an arrangement no longer reviewable refuses the response. */
    method SelectionsValid(items: seq<Feedback>) returns (ok: bool)
      ensures ok <==> forall k :: 0 <= k < |items| ==> SelectsReviewable(state, items[k])
    {
      for k := 0 to |items|
        invariant forall j :: 0 <= j < k ==> SelectsReviewable(state, items[j])
      {
        if !SelectsReviewable(state, items[k]) { return false; }
      }
      return true;
    }

    method InsertFeedback(items: seq<Feedback>)
      modifies `state
      ensures state == old(state).(feedback := old(state).feedback + items)
    {
      for k := 0 to |items|
        invariant state == old(state).(feedback := old(state).feedback + items[..k])
      {
        state := state.(feedback := state.feedback + [items[k]]);
        assert items[..k + 1] == items[..k] + [items[k]];
      }
      assert items[..|items|] == items;
    }

    /** Sends the selected approved bookings back, one trigger per row; flagged rows are exempt from the reset. */
    method SendBookingsBack()
      requires UnderReview(state.safety)
      modifies `state
      ensures state
           == old(state).(bookings := Map(old(state).bookings, (b: Booking) => SentBack(b, old(state).feedback)))
    {
      ghost var was := state;
      ghost var sent := Map(was.bookings, (b: Booking) => SentBack(b, was.feedback));
      for i := 0 to |state.bookings|
        invariant |state.bookings| == |was.bookings| && state == was.(bookings := state.bookings)
        invariant forall k :: 0 <= k < i ==> state.bookings[k] == sent[k]
        invariant forall k :: i <= k < |was.bookings| ==> state.bookings[k] == was.bookings[k]
      {
        MapIndex(was.bookings, (b: Booking) => SentBack(b, was.feedback), i);
        var b := state.bookings[i];
        if InVenues(state.feedback, b.id) && b.status == BookingStatus.Approved {
          state := BookingUpdated(state, i, b.(status := BookingStatus.Pending));
        }
      }
      assert state.bookings == sent;
    }

    method SendLinesBack()
      requires UnderReview(state.safety)
      modifies `state
      ensures state
           == old(state).(lines := Map(old(state).lines, (line: Line) => LineSentBack(line, old(state).feedback)))
    {
      ghost var was := state;
      ghost var sent := Map(was.lines, (line: Line) => LineSentBack(line, was.feedback));
      for i := 0 to |state.lines|
        invariant |state.lines| == |was.lines| && state == was.(lines := state.lines)
        invariant forall k :: 0 <= k < i ==> state.lines[k] == sent[k]
        invariant forall k :: i <= k < |was.lines| ==> state.lines[k] == was.lines[k]
      {
        MapIndex(was.lines, (line: Line) => LineSentBack(line, was.feedback), i);
        var line := state.lines[i];
        if InLines(state.feedback, line.id) && line.status == LineReserved {
          state := LineUpdated(state, i, line.(status := LineRequested));
        }
      }
      assert state.lines == sent;
    }

    method FindResponseRefusal(decision: Safety, items: seq<Feedback>, now: int) returns (refusal: Option<Refusal>)
      ensures refusal == ResponseRefusal(state, decision, items, now)
    {
      if decision == Awaiting { return Some(InvalidResponse); }
      if decision == ChangesNeeded {
        if items == [] { return Some(InvalidResponse); }
        if exists k :: 0 <= k < |items| && !SelectsSomething(items[k]) { return Some(InvalidResponse); }
      }
      if state.status != EventStatus.Planning { return Some(NotAwaitingCheck); }
      if !MayRequestCheck(state, NO_REGISTRATION, now) { return Some(NotAwaitingCheck); }
      if state.safety != Some(Awaiting) { return Some(NotAwaitingCheck); }
      if decision == ChangesNeeded {
        var valid := SelectionsValid(items);
        if !valid { return Some(ArrangementGone); }
      }
      refusal := None;
    }

    /** A pending check has no feedback, because the request that made it pending cleared it. */
    method RecordResponse(decision: Safety, added: seq<Feedback>)
      requires decision != Awaiting && state.feedback == [] && (decision == Cleared ==> added == [])
      modifies `state
      ensures state == Responded(old(state), decision, added)
    {
      state := state.(safety := Some(decision));
      InsertFeedback(added);
      assert [] + added == added;
      if decision == Cleared {
        NothingSentBack(state.bookings);
        NoLineSentBack(state.lines);
      } else {
        SendBookingsBack();
        SendLinesBack();
      }
    }

    method Respond(decision: Safety, items: seq<Feedback>, now: int) returns (refusal: Option<Refusal>)
      requires Valid()
      modifies this
      ensures View() == StepWorld(old(View()), RespondOp(decision, items, now))
      ensures Valid() && old(state).history <= state.history
      ensures refusal.None? <==> SafetyGate.Respond(old(state), decision, items, now).Done?
      ensures refusal.Some? ==> SafetyGate.Respond(old(state), decision, items, now) == Refused(refusal.value)
      ensures refusal.None? ==> SafetyEffects.AnsweredAsAsked(old(state), state, decision, items)
    {
      if SafetyGate.Respond(state, decision, items, now).Done? {
        SafetyEffects.ResponseDoesAsAsked(state, decision, items, now);
      }
      StepKeepsSound(View(), RespondOp(decision, items, now));
      ResponseStep(View(), decision, items, now);
      refusal := FindResponseRefusal(decision, items, now);
      if refusal.None? {
        RecordResponse(decision, ResponseFeedback(state, decision, items));
      }
    }
  }
}
