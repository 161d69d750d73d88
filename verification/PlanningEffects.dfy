/**
 When an update, a resolution or an approved request is accepted and what it does to each field, its pending change and
 its log entry (backend/src/events/planning/event-planning.service.ts and event-planning.repository.ts).
 */
module PlanningEffects {
  import opened Wrappers
  import opened EventTypes
  import opened EventImpact
  import opened PlanningHistory
  import opened Lists

  // ------------------------------------------------------------------ when a field is held for review

  /** An edge of the schedule as the update leaves it; what it does not move keeps the given value. */
  ghost function Edge(patch: Values, f: Field, otherwise: int): int {
    if f in patch && patch[f].Instant? then patch[f].at else otherwise
  }

  /** The moved schedule is ordered and stays inside the window from start to end. */
  ghost predicate StaysInside(patch: Values, start: int, end: int) {
    start <= Edge(patch, StartDateTime, start) < Edge(patch, EndDateTime, end) <= end
  }

  /** What makes one booking object to a field of the update. */
  ghost predicate Objects(f: Field, patch: Values, event: Values, booking: Booking)
    requires WholeEvent(event) && WellTyped(patch) && f in patch
  {
    match f
    case StartDateTime => !StaysInside(patch, booking.start, booking.end)
    case EndDateTime => !StaysInside(patch, booking.start, booking.end)
    case ExpectedAttendance => booking.capacity < patch[f].count
    case Layout => true
    case Facilities => exists c :: c in patch[f].choices && c !in event[f].choices
    case _ => false
  }

  lemma ImpactedMeans(f: Field, patch: Values, event: Values, booking: Booking)
    requires WholeEvent(event) && WellTyped(patch) && f in patch
    ensures BookingImpacted(f, patch, event, booking) <==> Objects(f, patch, event, booking)
  {
    if f == Facilities && AddsFacility(patch[f].choices, event[f].choices) {
      var i :| 0 <= i < |patch[f].choices| && patch[f].choices[i] !in event[f].choices;
      assert patch[f].choices[i] in patch[f].choices;
    }
  }

  /**
   A field is held exactly when some active booking objects to it, or when live equipment meets new equipment needs or a
   schedule that leaves the stored one. Names, purposes, descriptions and accessibility are never held.
   */
  lemma HeldMeans(f: Field, patch: Values, event: Values, bookings: seq<Booking>, equipment: nat)
    requires WholeEvent(event) && WellTyped(patch) && f in patch
    ensures IsFlagged(f, patch, event, bookings, equipment) <==>
      || (exists i :: 0 <= i < |bookings| && Objects(f, patch, event, bookings[i]))
      || (equipment > 0
          && (f == EquipmentNeeds
              || ((f == StartDateTime || f == EndDateTime)
                  && !StaysInside(patch, event[StartDateTime].at, event[EndDateTime].at))))
  {
    forall i | 0 <= i < |bookings|
      ensures BookingImpacted(f, patch, event, bookings[i]) <==> Objects(f, patch, event, bookings[i])
    {
      ImpactedMeans(f, patch, event, bookings[i]);
    }
  }

  // ------------------------------------------------------------------ what the form is told

  /** The stretch that all windows share: from their latest start to their earliest end. */
  ghost predicate SharedStretch(windows: seq<Booking>, start: int, end: int) {
    && (forall i :: 0 <= i < |windows| ==> windows[i].start <= start && end <= windows[i].end)
    && (exists i :: 0 <= i < |windows| && windows[i].start == start)
    && (exists i :: 0 <= i < |windows| && windows[i].end == end)
  }

  /** A time is shown with the stretch it may move in, as needing review when there is none, and else as free. */
  lemma TimeModeIs(f: Field, event: Values, bookings: seq<Booking>, equipment: nat, start: int, end: int)
    requires HasTimes(event) && (f == StartDateTime || f == EndDateTime)
    requires var own := Booking(0, 0, event[StartDateTime].at, event[EndDateTime].at);
      SharedStretch(if equipment > 0 then bookings + [own] else bookings, start, end)
    ensures FieldMode(f, event, bookings, equipment)
      == if start < end then Conditional(Within(start, end)) else NeedsReview
  {
    var own := Booking(0, 0, event[StartDateTime].at, event[EndDateTime].at);
    var windows := if equipment > 0 then bookings + [own] else bookings;
    assert windows == Windows(event, bookings, equipment) by {
      assert bookings + [] == bookings;
    }
    LatestStartIsTheMaximum(windows, start);
    LatestStartIsTheMaximum(windows, LatestStart(windows));
    EarliestEndIsTheMinimum(windows, end);
    EarliestEndIsTheMinimum(windows, EarliestEnd(windows));
    assert LatestStart(windows) == start && EarliestEnd(windows) == end;
  }

  /** The other fields: free without what they affect; else a capacity, removals only, or review. */
  lemma OtherModesAre(event: Values, bookings: seq<Booking>, equipment: nat, max: int)
    requires HasTimes(event)
    ensures FieldMode(ExpectedAttendance, event, bookings, equipment) == Conditional(MaxAttendance(max)) <==>
      && (forall i :: 0 <= i < |bookings| ==> max <= bookings[i].capacity)
      && (exists i :: 0 <= i < |bookings| && bookings[i].capacity == max)
    ensures bookings == [] ==> FieldMode(ExpectedAttendance, event, bookings, equipment) == Direct
    ensures FieldMode(Layout, event, bookings, equipment) == (if bookings == [] then Direct else NeedsReview)
    ensures FieldMode(Facilities, event, bookings, equipment)
      == (if bookings == [] then Direct else Conditional(RemoveOnly))
    ensures FieldMode(EquipmentNeeds, event, bookings, equipment) == (if equipment == 0 then Direct else NeedsReview)
    ensures bookings == [] && equipment == 0 ==>
      && FieldMode(StartDateTime, event, bookings, equipment) == Direct
      && FieldMode(EndDateTime, event, bookings, equipment) == Direct
  {
    if bookings != [] {
      LeastCapacityIsTaken(bookings);
      LeastCapacityIsTheMinimum(bookings, max);
      LeastCapacityIsTheMinimum(bookings, LeastCapacity(bookings));
    }
  }

  lemma {:induction false} LeastCapacityIsTaken(bookings: seq<Booking>)
    requires bookings != []
    ensures exists i :: 0 <= i < |bookings| && bookings[i].capacity == LeastCapacity(bookings)
  {
    if LeastCapacity(bookings) == bookings[0].capacity {
      assert bookings[0].capacity == LeastCapacity(bookings);
    } else {
      LeastCapacityIsTaken(bookings[1..]);
      var i :| 0 <= i < |bookings[1..]| && bookings[1..][i].capacity == LeastCapacity(bookings[1..]);
      assert bookings[i + 1] == bookings[1..][i];
    }
  }

  // ------------------------------------------------------------------ an update is accepted

  /** The update gives the field a value that means something else than the stored one. */
  ghost predicate Alters(values: Values, patch: Values, f: Field) {
    f in patch && f in values && MeaningOf(values[f]) != MeaningOf(patch[f])
  }

  ghost predicate AwaitsReview(pending: seq<Pending>, f: Field) {
    exists k :: 0 <= k < |pending| && pending[k].field == f
  }

  /** With the edges of the update in place the event starts before it ends. */
  ghost predicate OrderedAfter(values: Values, patch: Values)
    requires HasTimes(values)
  {
    Edge(patch, StartDateTime, values[StartDateTime].at) < Edge(patch, EndDateTime, values[EndDateTime].at)
  }

  lemma ChangedMeansAlters(values: Values, patch: Values, f: Field)
    requires WholeEvent(values) && WellTyped(patch)
    ensures f in Changed(UpdateOrder(), values, patch) <==> Alters(values, patch, f)
  {
    OrderHasNoDuplicates();
    ChangedMeansDifferent(UpdateOrder(), values, patch);
  }

  /**
   An update is accepted exactly on an approved or planned event, when the dates it moves stay ordered and none of the
   fields it alters awaits review; the refusals come in this order.
   */
  lemma UpdateIsAccepted(s: State, patch: Values, bookings: seq<Booking>, equipment: nat)
    requires WholeEvent(s.values) && WellTyped(patch)
    ensures var result := UpdateEvent(s, patch, bookings, equipment);
      var editable := s.status == EventStatus.Approved || s.status == EventStatus.Planning;
      var ordered := StartDateTime in patch || EndDateTime in patch ==> OrderedAfter(s.values, patch);
      && (result.Done? <==>
            editable && ordered && forall f :: Alters(s.values, patch, f) ==> !AwaitsReview(s.pending, f))
      && (result == Refused(NotEditable) <==> !editable)
      && (result == Refused(InvalidSchedule) <==> editable && !ordered)
      && (!result.Done? && editable && ordered ==> result == Refused(AwaitingReview))
  {
    forall f ensures f in Changed(UpdateOrder(), s.values, patch) <==> Alters(s.values, patch, f) {
      ChangedMeansAlters(s.values, patch, f);
    }
    forall f ensures HasPending(s.pending, f) <==> AwaitsReview(s.pending, f) {
    }
  }

  // ------------------------------------------------------------------ what it does to each field

  /** Index k holds a change that the update added for this field. */
  ghost predicate HeldAt(s: State, after: State, f: Field, k: int) {
    |s.pending| <= k < |after.pending| && after.pending[k].field == f
  }

  ghost predicate LoggedAt(s: State, after: State, f: Field, k: int) {
    |s.history| <= k < |after.history| && after.history[k].field == f
  }

  ghost predicate NothingHeld(s: State, after: State, f: Field) {
    forall k :: !HeldAt(s, after, f, k)
  }

  ghost predicate NothingLogged(s: State, after: State, f: Field) {
    forall k :: !LoggedAt(s, after, f, k)
  }

  /** The change starts from the stored value, proposes the new one, and each booking is yet to decide. */
  ghost predicate IsReviewOf(change: Pending, values: Values, patch: Values, bookings: seq<Booking>, f: Field)
    requires WholeEvent(values) && WellTyped(patch) && f in patch
  {
    && change.original == values[f] && change.proposed == patch[f] && |change.impacts| == |bookings|
    && forall i :: 0 <= i < |bookings| ==>
         change.impacts[i] == Impact(bookings[i].id, Objects(f, patch, values, bookings[i]), None)
  }

  /** Exactly one change is added for the field, and it is its review. */
  ghost predicate HeldOnce(s: State, after: State, patch: Values, bookings: seq<Booking>, f: Field)
    requires WholeEvent(s.values) && WellTyped(patch) && f in patch
  {
    exists k :: HeldAt(s, after, f, k) && IsReviewOf(after.pending[k], s.values, patch, bookings, f)
                && forall j :: HeldAt(s, after, f, j) ==> j == k
  }

  /** Exactly one entry is added for the field: applied, from the stored value to the new one. */
  ghost predicate LoggedOnce(s: State, after: State, patch: Values, f: Field)
    requires f in s.values && f in patch
  {
    exists k :: LoggedAt(s, after, f, k)
                && after.history[k] == Entry(after.history[k].id, f, s.values[f], patch[f], Applied)
                && forall j :: LoggedAt(s, after, f, j) ==> j == k
  }

  /** What an accepted update does to one field. */
  ghost predicate FieldUpdated(s: State, after: State, patch: Values, bookings: seq<Booking>, equipment: nat, f: Field)
    requires WholeEvent(s.values) && WellTyped(patch) && f in after.values
  {
    if !Alters(s.values, patch, f) then
      after.values[f] == s.values[f] && NothingHeld(s, after, f) && NothingLogged(s, after, f)
    else if IsFlagged(f, patch, s.values, bookings, equipment) then
      after.values[f] == s.values[f] && HeldOnce(s, after, patch, bookings, f) && NothingLogged(s, after, f)
    else
      after.values[f] == patch[f] && NothingHeld(s, after, f) && LoggedOnce(s, after, patch, f)
  }

  lemma CommitHoldsOnce(s: State, patch: Values, bookings: seq<Booking>, immediate: seq<Field>, held: seq<Field>,
                        f: Field)
    requires WholeEvent(s.values) && WellTyped(patch) && NoDuplicates(held)
    requires forall g :: g in immediate || g in held ==> g in patch
    ensures var after := Committed(s, patch, bookings, immediate, held);
      if f in held then HeldOnce(s, after, patch, bookings, f) else NothingHeld(s, after, f)
  {
    var after := Committed(s, patch, bookings, immediate, held);
    forall k | |s.pending| <= k < |after.pending| ensures after.pending[k].field == held[k - |s.pending|] {
    }
    if f in held {
      var i :| 0 <= i < |held| && held[i] == f;
      var change := after.pending[|s.pending| + i];
      forall j | 0 <= j < |bookings|
        ensures change.impacts[j] == Impact(bookings[j].id, Objects(f, patch, s.values, bookings[j]), None)
      {
        ImpactedMeans(f, patch, s.values, bookings[j]);
      }
      assert HeldAt(s, after, f, |s.pending| + i);
    }
  }

  lemma EntriesLogOnce(s: State, after: State, patch: Values, fields: seq<Field>, f: Field)
    requires NoDuplicates(fields) && forall g :: g in fields ==> g in s.values && g in patch
    requires after.history == s.history + AppliedEntries(s.values, patch, fields, s.nextId)
    ensures if f in fields then LoggedOnce(s, after, patch, f) else NothingLogged(s, after, f)
  {
    assert forall k :: |s.history| <= k < |after.history| ==> after.history[k].field == fields[k - |s.history|];
    if f in fields {
      var i :| 0 <= i < |fields| && fields[i] == f;
      assert LoggedAt(s, after, f, |s.history| + i);
    }
  }

  lemma CommitTreatsField(s: State, patch: Values, bookings: seq<Booking>, equipment: nat, immediate: seq<Field>,
                          held: seq<Field>, f: Field)
    requires WholeEvent(s.values) && WellTyped(patch) && NoDuplicates(immediate) && NoDuplicates(held)
    requires forall g :: g in immediate || g in held <==> Alters(s.values, patch, g)
    requires forall g :: g in immediate ==> g in patch && !IsFlagged(g, patch, s.values, bookings, equipment)
    requires forall g :: g in held ==> g in patch && IsFlagged(g, patch, s.values, bookings, equipment)
    ensures FieldUpdated(s, Committed(s, patch, bookings, immediate, held), patch, bookings, equipment, f)
  {
    CommitHoldsOnce(s, patch, bookings, immediate, held, f);
    EntriesLogOnce(s, Committed(s, patch, bookings, immediate, held), patch, immediate, f);
  }

  /**
   An altered field that is held keeps its stored value and gets exactly one pending change; one that is not held takes
   the new value with exactly one log entry; every other field is left alone.
   */
  lemma UpdateTreatsEachField(s: State, patch: Values, bookings: seq<Booking>, equipment: nat, f: Field)
    requires WholeEvent(s.values) && WellTyped(patch) && UpdateEvent(s, patch, bookings, equipment).Done?
    ensures f in UpdateEvent(s, patch, bookings, equipment).state.values
    ensures FieldUpdated(s, UpdateEvent(s, patch, bookings, equipment).state, patch, bookings, equipment, f)
  {
    var order := UpdateOrder();
    var changed := Changed(order, s.values, patch);
    OrderHasNoDuplicates();
    assert NoDuplicates(changed);
    forall g ensures g in changed <==> Alters(s.values, patch, g) {
      ChangedMeansAlters(s.values, patch, g);
    }
    if changed == [] {
      assert f !in changed && UpdateEvent(s, patch, bookings, equipment) == Done(s);
    } else {
      CommitTreatsField(s, patch, bookings, equipment,
                        Classified(changed, patch, s.values, bookings, equipment, false),
                        Classified(changed, patch, s.values, bookings, equipment, true), f);
    }
  }

  /** The place of a field in every list of fields. */
  function Rank(f: Field): nat {
    match f
    case Name => 0
    case Purpose => 1
    case Description => 2
    case EquipmentNeeds => 3
    case Layout => 4
    case Facilities => 5
    case Accessibility => 6
    case StartDateTime => 7
    case EndDateTime => 8
    case ExpectedAttendance => 9
  }

  ghost predicate Ranked(fields: seq<Field>) {
    forall i, j :: 0 <= i < j < |fields| ==> Rank(fields[i]) < Rank(fields[j])
  }

  lemma OrderIsRanked()
    ensures Ranked(UpdateOrder())
  {
    forall i: nat | i < 10 ensures Rank(UpdateOrder()[i]) == i {
    }
  }

  lemma {:induction false} ChangedIsRanked(order: seq<Field>, values: Values, patch: Values)
    requires Ranked(order)
    ensures Ranked(Changed(order, values, patch))
  {
    if order != [] {
      ChangedIsRanked(order[1..], values, patch);
      forall f | f in Changed(order[1..], values, patch) ensures Rank(order[0]) < Rank(f) {
        assert f in order[1..];
      }
    }
  }

  lemma {:induction false} ClassifiedIsRanked(changed: seq<Field>, patch: Values, values: Values,
                                              bookings: seq<Booking>, equipment: nat, held: bool)
    requires WholeEvent(values) && WellTyped(patch) && Ranked(changed) && forall f :: f in changed ==> f in patch
    ensures Ranked(Classified(changed, patch, values, bookings, equipment, held))
  {
    if changed != [] {
      ClassifiedIsRanked(changed[1..], patch, values, bookings, equipment, held);
      forall f | f in Classified(changed[1..], patch, values, bookings, equipment, held)
        ensures Rank(changed[0]) < Rank(f)
      {
        assert f in changed[1..];
      }
    }
  }

  /** The identifiers of what was added: log entries first, then held changes, counted up without a gap. */
  ghost predicate NumberedInTurn(s: State, after: State) {
    && (forall k :: |s.history| <= k < |after.history| ==> after.history[k].id == s.nextId + k - |s.history|)
    && (forall k :: |s.pending| <= k < |after.pending| ==>
          after.pending[k].id == s.nextId + |after.history| - |s.history| + k - |s.pending|)
    && after.nextId == s.nextId + |after.history| - |s.history| + |after.pending| - |s.pending|
  }

  /** Added entries, and added changes, follow the order of the fields. */
  ghost predicate AddedInOrder(s: State, after: State) {
    && (forall i, j :: |s.history| <= i < j < |after.history| ==>
          Rank(after.history[i].field) < Rank(after.history[j].field))
    && (forall i, j :: |s.pending| <= i < j < |after.pending| ==>
          Rank(after.pending[i].field) < Rank(after.pending[j].field))
  }

  lemma CommitAddsInOrder(s: State, patch: Values, bookings: seq<Booking>, immediate: seq<Field>, held: seq<Field>)
    requires WholeEvent(s.values) && WellTyped(patch) && Ranked(immediate) && Ranked(held)
    requires forall g :: g in immediate || g in held ==> g in patch
    ensures var after := Committed(s, patch, bookings, immediate, held);
      && s.pending <= after.pending && s.history <= after.history
      && NumberedInTurn(s, after) && AddedInOrder(s, after)
  {
    var after := Committed(s, patch, bookings, immediate, held);
    assert forall k :: |s.pending| <= k < |after.pending| ==> after.pending[k].field == held[k - |s.pending|];
    assert forall k :: |s.history| <= k < |after.history| ==> after.history[k].field == immediate[k - |s.history|];
  }

  /** Everything stored before stays in place, and what is added is numbered and ordered. */
  lemma UpdateOnlyAdds(s: State, patch: Values, bookings: seq<Booking>, equipment: nat)
    requires WholeEvent(s.values) && WellTyped(patch) && UpdateEvent(s, patch, bookings, equipment).Done?
    ensures var after := UpdateEvent(s, patch, bookings, equipment).state;
      && after.status == s.status && after.values.Keys == s.values.Keys
      && s.pending <= after.pending && s.history <= after.history
      && NumberedInTurn(s, after) && AddedInOrder(s, after)
  {
    var changed := Changed(UpdateOrder(), s.values, patch);
    OrderIsRanked();
    ChangedIsRanked(UpdateOrder(), s.values, patch);
    if changed != [] {
      var immediate := Classified(changed, patch, s.values, bookings, equipment, false);
      var held := Classified(changed, patch, s.values, bookings, equipment, true);
      ClassifiedIsRanked(changed, patch, s.values, bookings, equipment, false);
      ClassifiedIsRanked(changed, patch, s.values, bookings, equipment, true);
      CommitAddsInOrder(s, patch, bookings, immediate, held);
    }
  }

  // ------------------------------------------------------------------ resolving

  /** The change the identifier names: the first pending one that carries it. */
  ghost predicate Names(pending: seq<Pending>, id: nat, k: nat) {
    k < |pending| && pending[k].id == id && forall i :: 0 <= i < k ==> pending[i].id != id
  }

  lemma NamedIsFound(pending: seq<Pending>, id: nat)
    ensures forall k: nat :: Names(pending, id, k) ==> IndexOf(pending, id) == Some(k)
    ensures (forall i :: 0 <= i < |pending| ==> pending[i].id != id) ==> IndexOf(pending, id).None?
  {
  }

  /** With its one value written the event still starts before it ends. */
  ghost predicate MayClose(s: State, change: Pending)
    requires HasTimes(s.values)
  {
    change.field == StartDateTime || change.field == EndDateTime ==>
      OrderedAfter(s.values, map[change.field := change.proposed])
  }

  /** Change k has left the list for the log; its value is written when it was applied. */
  ghost predicate ClosedAs(s: State, after: State, k: nat, outcome: Outcome)
    requires k < |s.pending|
  {
    var change := s.pending[k];
    && after == s.(values := after.values, pending := s.pending[..k] + s.pending[k + 1..],
                   history := s.history + [Entry(change.id, change.field, change.original, change.proposed, outcome)])
    && after.values == if outcome == Applied then s.values[change.field := change.proposed] else s.values
  }

  /** A whole change is rejected always, and confirmed exactly when the schedule still fits. */
  lemma WholeChangeIsResolved(s: State, id: nat, k: nat, decision: Outcome)
    requires WholeEvent(s.values) && Names(s.pending, id, k)
    ensures var result := ResolveChange(s, id, decision, None);
      && (result.Done? <==>
            && (s.status == EventStatus.Approved || s.status == EventStatus.Planning)
            && (decision == Applied ==> MayClose(s, s.pending[k])))
      && (result.Done? ==> ClosedAs(s, result.state, k, decision))
      && (!result.Done? ==>
            result == Refused(if s.status != EventStatus.Approved && s.status != EventStatus.Planning then NotEditable
                              else InvalidSchedule))
  {
    NamedIsFound(s.pending, id);
  }

  /** An identifier no pending change carries: resolved already if the log has it, and unknown otherwise. */
  lemma UnknownChangeIsRefused(s: State, id: nat, decision: Outcome, booking: Option<nat>)
    requires WholeEvent(s.values) && forall i :: 0 <= i < |s.pending| ==> s.pending[i].id != id
    ensures ResolveChange(s, id, decision, booking) == Refused(
      if s.status != EventStatus.Approved && s.status != EventStatus.Planning then NotEditable
      else if exists i :: 0 <= i < |s.history| && s.history[i].id == id then AlreadyResolved
      else ChangeNotFound)
  {
    NamedIsFound(s.pending, id);
  }

  /** The entry of the booking in the change: the first that carries its identifier. */
  ghost predicate Concerns(impacts: seq<Impact>, booking: nat, j: nat) {
    j < |impacts| && impacts[j].booking == booking && forall i :: 0 <= i < j ==> impacts[i].booking != booking
  }

  /** Every other impacted booking has decided. */
  ghost predicate OthersDecided(impacts: seq<Impact>, j: nat) {
    forall i :: 0 <= i < |impacts| && i != j && impacts[i].impacted ==> impacts[i].decision.Some?
  }

  ghost predicate OthersConfirm(impacts: seq<Impact>, j: nat) {
    forall i :: 0 <= i < |impacts| && i != j && impacts[i].impacted ==> impacts[i].decision == Some(Applied)
  }

  lemma DecidedMeans(impacts: seq<Impact>, j: nat, decision: Outcome)
    requires j < |impacts| && impacts[j].impacted && impacts[j].decision.None?
    ensures var decided := impacts[j := impacts[j].(decision := Some(decision))];
      && (Undecided(decided) == 0 <==> OthersDecided(impacts, j))
      && (AllConfirmed(decided) <==> decision == Applied && OthersConfirm(impacts, j))
  {
    var decided := impacts[j := impacts[j].(decision := Some(decision))];
    AllDecided(decided);
    assert decided[j].impacted && decided[j].decision == Some(decision);
    assert forall i :: 0 <= i < |impacts| && i != j ==> decided[i] == impacts[i];
  }

  /** A booking decides once, if it is impacted; only the decision that closes the change needs the schedule to fit. */
  lemma BookingDecides(s: State, id: nat, k: nat, booking: nat, j: nat, decision: Outcome)
    requires WholeEvent(s.values) && Names(s.pending, id, k) && Concerns(s.pending[k].impacts, booking, j)
    ensures var change, result := s.pending[k], ResolveChange(s, id, decision, Some(booking));
      var applies := decision == Applied && OthersConfirm(change.impacts, j);
      && (result.Done? <==>
            && (s.status == EventStatus.Approved || s.status == EventStatus.Planning)
            && change.impacts[j].impacted && change.impacts[j].decision.None?
            && (applies ==> MayClose(s, change)))
      && (result.Done? && OthersDecided(change.impacts, j) ==>
            ClosedAs(s, result.state, k, if applies then Applied else Outcome.Rejected))
      && (result.Done? && !OthersDecided(change.impacts, j) ==>
            result.state
              == s.(pending := s.pending[k := change.(impacts := change.impacts[
                    j := Impact(booking, true, Some(decision))])]))
      && (!result.Done? ==>
            result == Refused(if s.status != EventStatus.Approved && s.status != EventStatus.Planning then NotEditable
                              else if !change.impacts[j].impacted then NoImpact
                              else if change.impacts[j].decision.Some? then AlreadyDecided else InvalidSchedule))
  {
    var impacts := s.pending[k].impacts;
    NamedIsFound(s.pending, id);
    assert ImpactIndex(impacts, booking) == Some(j);
    if impacts[j].impacted && impacts[j].decision.None? {
      DecidedMeans(impacts, j, decision);
    }
    var decided := impacts[j := impacts[j].(decision := Some(decision))];
    var recorded := s.pending[k := s.pending[k].(impacts := decided)];
    assert recorded[..k] == s.pending[..k] && recorded[k + 1..] == s.pending[k + 1..];
  }

  /** A booking the change does not mention has nothing to decide. */
  lemma UnaffectedBookingIsRefused(s: State, id: nat, k: nat, booking: nat, decision: Outcome)
    requires WholeEvent(s.values) && Names(s.pending, id, k)
    requires s.status == EventStatus.Approved || s.status == EventStatus.Planning
    requires forall j :: 0 <= j < |s.pending[k].impacts| ==> s.pending[k].impacts[j].booking != booking
    ensures ResolveChange(s, id, decision, Some(booking)) == Refused(NotAffected)
  {
    NamedIsFound(s.pending, id);
  }

  // ------------------------------------------------------------------ an organiser's request

  /**
   Approving a request is accepted exactly while the event is not over and has not started, none of the requested fields
   awaits review, and the event then starts before it ends.
   */
  lemma ApprovalIsAccepted(s: State, patch: Values, started: bool)
    requires WholeEvent(s.values) && WellTyped(patch)
    ensures var result := ApproveRequest(s, patch, started);
      var over := s.status == EventStatus.Rejected || s.status == EventStatus.Completed
                  || s.status == EventStatus.Cancelled;
      var free := forall f :: f in patch ==> !AwaitsReview(s.pending, f);
      && (result.Done? <==> !over && !started && free && OrderedAfter(s.values, patch))
      && (!result.Done? ==>
            result == Refused(if over then NotOpen else if started then EventStarted
                              else if !free then AwaitingReview else InvalidSchedule))
  {
    forall f ensures HasPending(s.pending, f) <==> AwaitsReview(s.pending, f) {
    }
  }

  lemma EntriesAreOrdered(s: State, after: State, patch: Values, fields: seq<Field>)
    requires Ranked(fields) && forall g :: g in fields ==> g in s.values && g in patch
    requires after.history == s.history + AppliedEntries(s.values, patch, fields, s.nextId)
    requires after.pending == s.pending && after.nextId == s.nextId + |fields|
    ensures NumberedInTurn(s, after) && AddedInOrder(s, after)
  {
    assert forall k :: |s.history| <= k < |after.history| ==> after.history[k].field == fields[k - |s.history|];
  }

  /** It reopens a Confirmed event, leaves every pending change, and adds its log entries in order. */
  lemma ApprovalOnlyAdds(s: State, patch: Values, started: bool)
    requires WholeEvent(s.values) && WellTyped(patch) && ApproveRequest(s, patch, started).Done?
    ensures var after := ApproveRequest(s, patch, started).state;
      && after.status == (if s.status == EventStatus.Confirmed then EventStatus.Planning else s.status)
      && after.pending == s.pending && after.values.Keys == s.values.Keys
      && s.history <= after.history && NumberedInTurn(s, after) && AddedInOrder(s, after)
  {
    OrderIsRanked();
    ChangedIsRanked(UpdateOrder(), s.values, patch);
    EntriesAreOrdered(s, ApproveRequest(s, patch, started).state, patch, Changed(UpdateOrder(), s.values, patch));
  }

  /** It writes every requested field and logs exactly the altered ones. */
  lemma ApprovalWritesTheRequest(s: State, patch: Values, started: bool, f: Field)
    requires WholeEvent(s.values) && WellTyped(patch) && ApproveRequest(s, patch, started).Done?
    ensures var after := ApproveRequest(s, patch, started).state;
      && f in after.values && after.values[f] == (if f in patch then patch[f] else s.values[f])
      && if Alters(s.values, patch, f) then LoggedOnce(s, after, patch, f) else NothingLogged(s, after, f)
  {
    OrderHasNoDuplicates();
    ChangedMeansAlters(s.values, patch, f);
    EntriesLogOnce(s, ApproveRequest(s, patch, started).state, patch, Changed(UpdateOrder(), s.values, patch), f);
  }

  /** A run that goes on takes the next step from where it stood. */
  lemma {:induction false} RunTakesTheNextStep(s: State, ops: seq<Op>, op: Op)
    ensures Run(s, ops + [op]) == Step(Run(s, ops), op)
    decreases |ops|
  {
    var longer := ops + [op];
    if ops == [] {
      assert longer[0] == op && longer[1..] == [];
    } else {
      assert longer[0] == ops[0] && longer[1..] == ops[1..] + [op];
      RunTakesTheNextStep(Step(s, ops[0]), ops[1..], op);
    }
  }

  /** The other services only move the status. */
  lemma StatusIsMoved(s: State, status: EventStatus)
    requires WholeEvent(s.values)
    ensures Apply(s, MoveStatus(status)) == Done(State(status, s.values, s.pending, s.history, s.nextId))
  {
  }
}
