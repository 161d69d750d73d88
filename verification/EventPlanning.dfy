/**
 The planning service over one event's tables (backend/src/events/planning/event-planning.service.ts and
 event-planning.repository.ts), each method one transaction under the event row lock and proved against the transition
 of PlanningHistory it implements.
 */
module EventPlanning {
  import opened Wrappers
  import opened EventTypes
  import opened EventImpact
  import opened PlanningHistory
  import PlanningEffects

  lemma ChangedOfOne(next: Field, values: Values, patch: Values)
    ensures Changed([next], values, patch)
         == if next in patch && next in values && !SameValue(values[next], patch[next]) then [next] else []
  {
    assert [next][1..] == [];
  }

  lemma ChangedUnfolds(order: seq<Field>, values: Values, patch: Values)
    requires order != []
    ensures Changed(order, values, patch) == Changed([order[0]], values, patch) + Changed(order[1..], values, patch)
  {
    ChangedOfOne(order[0], values, patch);
  }

  lemma Regroups(head: seq<Field>, rest: seq<Field>, last: seq<Field>)
    ensures head + (rest + last) == (head + rest) + last
  {
  }

  lemma {:induction false} ChangedGrows(order: seq<Field>, next: Field, values: Values, patch: Values)
    ensures Changed(order + [next], values, patch) == Changed(order, values, patch) + Changed([next], values, patch)
  {
    var more := order + [next];
    if order == [] {
      assert more == [next];
      assert [] + Changed([next], values, patch) == Changed([next], values, patch);
    } else {
      assert more[0] == order[0] && more[1..] == order[1..] + [next];
      ChangedUnfolds(more, values, patch);
      ChangedUnfolds(order, values, patch);
      ChangedGrows(order[1..], next, values, patch);
      Regroups(Changed([order[0]], values, patch), Changed(order[1..], values, patch), Changed([next], values, patch));
    }
  }

  lemma {:induction false} ClassifiedGrows(changed: seq<Field>, next: Field, patch: Values, values: Values,
                                           bookings: seq<Booking>, equipment: nat, held: bool)
    requires WholeEvent(values) && WellTyped(patch) && next in patch && forall f :: f in changed ==> f in patch
    ensures Classified(changed + [next], patch, values, bookings, equipment, held)
         == Classified(changed, patch, values, bookings, equipment, held)
            + if IsFlagged(next, patch, values, bookings, equipment) == held then [next] else []
  {
    if changed == [] {
      assert [] + [next] == [next] && [next][1..] == [];
    } else {
      ClassifiedGrows(changed[1..], next, patch, values, bookings, equipment, held);
      assert (changed + [next])[1..] == changed[1..] + [next];
    }
  }

  lemma {:induction false} UndecidedGrows(impacts: seq<Impact>, next: Impact)
    ensures Undecided(impacts + [next]) == Undecided(impacts) + if next.impacted && next.decision.None? then 1 else 0
  {
    if impacts == [] {
      assert [] + [next] == [next] && [next][1..] == [];
    } else {
      UndecidedGrows(impacts[1..], next);
      assert (impacts + [next])[1..] == impacts[1..] + [next];
    }
  }

  class EventPlanningService {
    var status: EventStatus
    var values: Values
    var pending: seq<Pending>
    var history: seq<Entry>
    var nextId: nat

    ghost function View(): State
      reads this
    {
      State(status, values, pending, history, nextId)
    }

    constructor (status: EventStatus, values: Values)
      requires WholeEvent(values) && values[StartDateTime].at < values[EndDateTime].at
      ensures View() == State(status, values, [], [], 0) && Invariant(values, View())
    {
      this.status, this.values, pending, history, nextId := status, values, [], [], 0;
      new;
      FreshEvent(values, status);
    }

    /** The supplied fields whose value differs from the stored one, in the patch's order. */
    method ChangedFields(patch: Values, order: seq<Field>) returns (changed: seq<Field>)
      ensures changed == Changed(order, values, patch)
    {
      changed := [];
      for i := 0 to |order|
        invariant changed == Changed(order[..i], values, patch)
      {
        assert order[..i + 1] == order[..i] + [order[i]];
        ChangedGrows(order[..i], order[i], values, patch);
        ChangedOfOne(order[i], values, patch);
        if order[i] in patch && order[i] in values && !SameValue(values[order[i]], patch[order[i]]) {
          changed := changed + [order[i]];
        }
      }
      assert order[..|order|] == order;
    }

    /** Computes the impacts that ResolveChange later counts down. */
    method AssessVenueBookings(field: Field, patch: Values, bookings: seq<Booking>) returns (impacts: seq<Impact>)
      requires WholeEvent(values) && WellTyped(patch) && field in patch
      ensures impacts == Assessed(field, patch, values, bookings)
    {
      impacts := [];
      for i := 0 to |bookings|
        invariant |impacts| == i
        invariant forall k :: 0 <= k < i ==> impacts[k] == Assessed(field, patch, values, bookings)[k]
      {
        impacts := impacts + [Impact(bookings[i].id, BookingImpacted(field, patch, values, bookings[i]), None)];
      }
    }

    method IsImpacting(field: Field, patch: Values, bookings: seq<Booking>, equipment: nat) returns (flagged: bool)
      requires WholeEvent(values) && WellTyped(patch) && field in patch
      ensures flagged == IsFlagged(field, patch, values, bookings, equipment)
    {
      if !NeedsReviewPolicy(field) { return false; }
      var impacts := AssessVenueBookings(field, patch, bookings);
      for i := 0 to |impacts|
        invariant forall k :: 0 <= k < i ==> !impacts[k].impacted
      {
        assert impacts[i].impacted == BookingImpacted(field, patch, values, bookings[i]);
        if impacts[i].impacted { return true; }
      }
      assert forall k :: (0 <= k < |bookings|
                          ==> impacts[k].impacted == BookingImpacted(field, patch, values, bookings[k]));
      return equipment > 0 && EquipmentImpacted(field, patch, values);
    }

    /** The loop form of Classified: both halves at once. */
    method ClassifyUpdate(changed: seq<Field>, patch: Values, bookings: seq<Booking>, equipment: nat)
      returns (immediate: seq<Field>, held: seq<Field>)
      requires WholeEvent(values) && WellTyped(patch) && forall f :: f in changed ==> f in patch
      ensures immediate == Classified(changed, patch, values, bookings, equipment, false)
      ensures held == Classified(changed, patch, values, bookings, equipment, true)
    {
      immediate, held := [], [];
      for i := 0 to |changed|
        invariant immediate == Classified(changed[..i], patch, values, bookings, equipment, false)
        invariant held == Classified(changed[..i], patch, values, bookings, equipment, true)
      {
        assert changed[..i + 1] == changed[..i] + [changed[i]];
        ClassifiedGrows(changed[..i], changed[i], patch, values, bookings, equipment, false);
        ClassifiedGrows(changed[..i], changed[i], patch, values, bookings, equipment, true);
        var impacting := IsImpacting(changed[i], patch, bookings, equipment);
        if impacting {
          held := held + [changed[i]];
        } else {
          immediate := immediate + [changed[i]];
        }
      }
      assert changed[..|changed|] == changed;
    }

    /** Writes the given fields, one assignment each. */
    method ApplyFields(patch: Values, fields: seq<Field>)
      requires forall f: Field :: f in values
      modifies `values
      ensures values == Overwritten(old(values), patch, fields)
    {
      for i := 0 to |fields|
        invariant values == Overwritten(old(values), patch, fields[..i])
      {
        assert fields[..i + 1] == fields[..i] + [fields[i]];
        if fields[i] in patch {
          values := values[fields[i] := patch[fields[i]]];
        }
      }
      assert fields[..|fields|] == fields;
    }

    method RecordAppliedChanges(original: Values, patch: Values, fields: seq<Field>)
      requires forall f :: f in fields ==> f in original && f in patch
      modifies `history, `nextId
      ensures history == old(history) + AppliedEntries(original, patch, fields, old(nextId))
      ensures nextId == old(nextId) + |fields|
    {
      ghost var entries := AppliedEntries(original, patch, fields, nextId);
      for i := 0 to |fields|
        invariant history == old(history) + entries[..i] && nextId == old(nextId) + i
      {
        history := history + [Entry(nextId, fields[i], original[fields[i]], patch[fields[i]], Applied)];
        nextId := nextId + 1;
        assert entries[..i + 1] == entries[..i] + [entries[i]];
      }
      assert entries[..|fields|] == entries;
    }

    method CreateFlaggedChanges(original: Values, patch: Values, fields: seq<Field>, bookings: seq<Booking>)
      requires WholeEvent(original) && WellTyped(patch) && forall f :: f in fields ==> f in patch
      modifies `pending, `nextId
      ensures pending == old(pending) + HeldChanges(original, patch, fields, old(nextId), bookings)
      ensures nextId == old(nextId) + |fields|
    {
      ghost var changes := HeldChanges(original, patch, fields, nextId, bookings);
      for i := 0 to |fields|
        invariant pending == old(pending) + changes[..i] && nextId == old(nextId) + i
      {
        var impacts := Assessed(fields[i], patch, original, bookings);
        pending := pending + [Pending(nextId, fields[i], original[fields[i]], patch[fields[i]], impacts)];
        nextId := nextId + 1;
        assert changes[..i + 1] == changes[..i] + [changes[i]];
      }
      assert changes[..|fields|] == changes;
    }

    method UpdateEvent(patch: Values, bookings: seq<Booking>, equipment: nat, ghost initial: Values)
      returns (refusal: Option<Refusal>)
      requires Invariant(initial, View()) && WellTyped(patch) && DistinctBookings(bookings)
      modifies this
      ensures refusal.None? <==> PlanningHistory.UpdateEvent(old(View()), patch, bookings, equipment).Done?
      ensures refusal.Some? ==>
        PlanningHistory.UpdateEvent(old(View()), patch, bookings, equipment) == Refused(refusal.value)
      ensures View() == Step(old(View()), Update(patch, bookings, equipment)) && Invariant(initial, View())
      ensures refusal.None? ==>
        forall f :: f in values && PlanningEffects.FieldUpdated(old(View()), View(), patch, bookings, equipment, f)
    {
      ghost var was := View();
      if PlanningHistory.UpdateEvent(was, patch, bookings, equipment).Done? {
        forall f
          ensures f in PlanningHistory.UpdateEvent(was, patch, bookings, equipment).state.values
          ensures PlanningEffects.FieldUpdated(was, PlanningHistory.UpdateEvent(was, patch, bookings, equipment).state,
                                               patch, bookings, equipment, f)
        {
          PlanningEffects.UpdateTreatsEachField(was, patch, bookings, equipment, f);
        }
      }
      StepKeepsInvariant(initial, View(), Update(patch, bookings, equipment));
      refusal := UpdateInThisOrder(patch, bookings, equipment, UpdateOrder());
    }

    method AnyAwaiting(fields: seq<Field>) returns (awaiting: bool)
      ensures awaiting <==> exists f :: f in fields && HasPending(pending, f)
    {
      for i := 0 to |fields|
        invariant forall k :: 0 <= k < i ==> !HasPending(pending, fields[k])
      {
        if HasPending(pending, fields[i]) { return true; }
      }
      return false;
    }

    method UpdateInThisOrder(patch: Values, bookings: seq<Booking>, equipment: nat, order: seq<Field>)
      returns (refusal: Option<Refusal>)
      requires WholeEvent(values) && WellTyped(patch)
      modifies this
      ensures refusal.None? <==> UpdateInOrder(old(View()), patch, bookings, equipment, order).Done?
      ensures refusal.None? ==> View() == UpdateInOrder(old(View()), patch, bookings, equipment, order).state
      ensures refusal.Some? ==>
        View() == old(View()) && UpdateInOrder(old(View()), patch, bookings, equipment, order) == Refused(refusal.value)
    {
      if !Editable(status) { return Some(NotEditable); }
      if !ScheduleOk(values, patch) { return Some(InvalidSchedule); }
      var changed := ChangedFields(patch, order);
      if changed == [] { return None; }
      var awaiting := AnyAwaiting(changed);
      if awaiting { return Some(AwaitingReview); }
      var immediate, held := ClassifyUpdate(changed, patch, bookings, equipment);
      CommitUpdate(patch, bookings, immediate, held);
      refusal := None;
    }

    method CommitUpdate(patch: Values, bookings: seq<Booking>, immediate: seq<Field>, held: seq<Field>)
      requires WholeEvent(values) && WellTyped(patch) && forall f :: f in immediate || f in held ==> f in patch
      modifies this
      ensures View() == Committed(old(View()), patch, bookings, immediate, held)
    {
      var original := values;
      ApplyFields(patch, immediate);
      RecordAppliedChanges(original, patch, immediate);
      CreateFlaggedChanges(original, patch, held, bookings);
    }

    /** Closes a change: an applied one writes its field first, unless the schedule no longer fits. */
    method CloseChange(k: nat, outcome: Outcome) returns (refusal: Option<Refusal>)
      requires HasTimes(values) && (forall f: Field :: f in values) && k < |pending|
      modifies this
      ensures refusal.None? <==> Close(old(View()), k, outcome).Done?
      ensures refusal.None? ==> View() == Close(old(View()), k, outcome).state
      ensures refusal.Some? ==> View() == old(View()) && Close(old(View()), k, outcome) == Refused(refusal.value)
    {
      var change := pending[k];
      if outcome == Applied {
        var patch := map[change.field := change.proposed];
        if !ScheduleOk(values, patch) { return Some(InvalidSchedule); }
        ApplyFields(patch, [change.field]);
      }
      pending := pending[..k] + pending[k + 1..];
      history := history + [Entry(change.id, change.field, change.original, change.proposed, outcome)];
      refusal := None;
    }

    /** The decisions of the impacted bookings: how many are open, and whether all given ones confirm. */
    method CountDecisions(impacts: seq<Impact>) returns (undecided: nat, confirmed: bool)
      ensures undecided == Undecided(impacts)
      ensures undecided == 0 ==> confirmed == AllConfirmed(impacts)
    {
      undecided, confirmed := 0, true;
      for i := 0 to |impacts|
        invariant undecided == Undecided(impacts[..i])
        invariant confirmed <==>
          forall k :: (0 <= k < i && impacts[k].impacted && impacts[k].decision.Some?
                       ==> impacts[k].decision.value == Applied)
      {
        assert impacts[..i + 1] == impacts[..i] + [impacts[i]];
        UndecidedGrows(impacts[..i], impacts[i]);
        if impacts[i].impacted {
          match impacts[i].decision
          case None => undecided := undecided + 1;
          case Some(decision) => confirmed := confirmed && decision == Applied;
        }
      }
      assert impacts[..|impacts|] == impacts;
      AllDecided(impacts);
    }

    method ResolveChange(id: nat, decision: Outcome, booking: Option<nat>, ghost initial: Values)
      returns (refusal: Option<Refusal>)
      requires Invariant(initial, View())
      modifies this
      ensures refusal.None? <==> PlanningHistory.ResolveChange(old(View()), id, decision, booking).Done?
      ensures refusal.Some? ==>
        PlanningHistory.ResolveChange(old(View()), id, decision, booking) == Refused(refusal.value)
      ensures View() == Step(old(View()), Resolve(id, decision, booking)) && Invariant(initial, View())
    {
      StepKeepsInvariant(initial, View(), Resolve(id, decision, booking));
      if !Editable(status) { return Some(NotEditable); }
      var found := IndexOf(pending, id);
      if found.None? {
        return Some(if exists i :: 0 <= i < |history| && history[i].id == id then AlreadyResolved else ChangeNotFound);
      }
      var k := found.value;
      if booking.None? {
        refusal := CloseChange(k, decision);
        return;
      }
      refusal := DecideRow(k, booking.value, decision);
    }

    /** Records one booking's decision and closes the change with the last one; a close that fails undoes the record. */
    method DecideRow(k: nat, booking: nat, decision: Outcome) returns (refusal: Option<Refusal>)
      requires HasTimes(values) && (forall f: Field :: f in values) && k < |pending|
      modifies this
      ensures refusal.None? <==> DecideBooking(old(View()), k, booking, decision).Done?
      ensures refusal.None? ==> View() == DecideBooking(old(View()), k, booking, decision).state
      ensures refusal.Some? ==>
        View() == old(View()) && DecideBooking(old(View()), k, booking, decision) == Refused(refusal.value)
    {
      var impacts := pending[k].impacts;
      var entry := ImpactIndex(impacts, booking);
      if entry.None? { return Some(NotAffected); }
      var j := entry.value;
      if !impacts[j].impacted { return Some(NoImpact); }
      if impacts[j].decision.Some? { return Some(AlreadyDecided); }
      var before := pending;
      var decided := impacts[j := impacts[j].(decision := Some(decision))];
      pending := pending[k := pending[k].(impacts := decided)];
      var undecided, confirmed := CountDecisions(decided);
      if undecided > 0 { return None; }
      refusal := CloseChange(k, if confirmed then Applied else Outcome.Rejected);
      if refusal.Some? {
        pending := before;
      }
    }
  }
}
