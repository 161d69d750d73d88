/**
 The planning change engine of one event: direct updates, changes held for review, their per-booking and whole
 resolution, approved change requests, and the log that replays to the event
 (backend/src/events/planning/event-planning.service.ts and event-planning.repository.ts, and the apply step of
 backend/src/events/change-requests/review/change-request-review.service.ts).
 */
module PlanningHistory {
  import opened Wrappers
  import opened EventTypes
  import opened EventImpact
  import opened Lists

  datatype Outcome = Applied | Rejected

  datatype Impact = Impact(booking: nat, impacted: bool, decision: Option<Outcome>)

  /** A change awaiting review. */
  datatype Pending = Pending(id: nat, field: Field, original: Value, proposed: Value, impacts: seq<Impact>)

  /** A resolved change, in the order of resolution. */
  datatype Entry = Entry(id: nat, field: Field, original: Value, proposed: Value, outcome: Outcome)

  datatype State = State(status: EventStatus, values: Values, pending: seq<Pending>, history: seq<Entry>, nextId: nat)

  datatype Refusal =
    | NotEditable | InvalidSchedule | AwaitingReview | ChangeNotFound | AlreadyResolved | NotAffected | NoImpact
    | AlreadyDecided | NotOpen | EventStarted

  datatype Result = Done(state: State) | Refused(reason: Refusal)

  function FieldAt(i: nat): Field {
    if i == 0 then Name
    else if i == 1 then Purpose
    else if i == 2 then Description
    else if i == 3 then EquipmentNeeds
    else if i == 4 then Layout
    else if i == 5 then Facilities
    else if i == 6 then Accessibility
    else if i == 7 then StartDateTime
    else if i == 8 then EndDateTime
    else ExpectedAttendance
  }

  /** The order in which an update's fields are compared, held and written. */
  function UpdateOrder(): (order: seq<Field>)
    ensures |order| == 10
  {
    seq(10, (i: nat) => FieldAt(i))
  }

  predicate Editable(status: EventStatus) {
    status == EventStatus.Approved || status == EventStatus.Planning
  }

  /** Lists compare as sets of equal length; everything else strictly. */
  predicate SameValue(stored: Value, proposed: Value) {
    if stored.Choices? && proposed.Choices? then
      && |stored.choices| == |proposed.choices|
      && forall i :: 0 <= i < |proposed.choices| ==> proposed.choices[i] in stored.choices
    else stored == proposed
  }

  // ------------------------------------------------------------------ updating

  function Changed(order: seq<Field>, values: Values, patch: Values): (changed: seq<Field>)
    ensures forall f :: f in changed <==> f in order && f in patch && f in values && !SameValue(values[f], patch[f])
    ensures NoDuplicates(order) ==> NoDuplicates(changed)
  {
    if order == [] then []
    else
      var f, rest := order[0], Changed(order[1..], values, patch);
      if f in patch && f in values && !SameValue(values[f], patch[f]) then [f] + rest else rest
  }

  /** The changed fields that are held for review, or those that are not, in their order. */
  function Classified(changed: seq<Field>, patch: Values, values: Values, bookings: seq<Booking>, equipment: nat,
                      held: bool): (fields: seq<Field>)
    requires WholeEvent(values) && WellTyped(patch) && forall f :: f in changed ==> f in patch
    ensures forall f :: f in fields <==> f in changed && IsFlagged(f, patch, values, bookings, equipment) == held
    ensures NoDuplicates(changed) ==> NoDuplicates(fields)
  {
    if changed == [] then []
    else
      var f, rest := changed[0], Classified(changed[1..], patch, values, bookings, equipment, held);
      if IsFlagged(f, patch, values, bookings, equipment) == held then [f] + rest else rest
  }

  function Assessed(field: Field, patch: Values, values: Values, bookings: seq<Booking>): (impacts: seq<Impact>)
    requires WholeEvent(values) && WellTyped(patch) && field in patch
    ensures |impacts| == |bookings|
  {
    seq(|bookings|, i requires 0 <= i < |bookings| =>
      Impact(bookings[i].id, BookingImpacted(field, patch, values, bookings[i]), None))
  }

  function Overwritten(values: Values, patch: Values, fields: seq<Field>): Values {
    map f | f in values :: if f in fields && f in patch then patch[f] else values[f]
  }

  function AppliedEntries(values: Values, patch: Values, fields: seq<Field>, firstId: nat): (entries: seq<Entry>)
    requires forall f :: f in fields ==> f in values && f in patch
    ensures |entries| == |fields|
  {
    seq(|fields|, i requires 0 <= i < |fields| =>
      Entry(firstId + i, fields[i], values[fields[i]], patch[fields[i]], Applied))
  }

  function HeldChanges(values: Values, patch: Values, fields: seq<Field>, firstId: nat, bookings: seq<Booking>)
      : (held: seq<Pending>)
    requires WholeEvent(values) && WellTyped(patch) && forall f :: f in fields ==> f in patch
    ensures |held| == |fields|
  {
    seq(|fields|, i requires 0 <= i < |fields| =>
      Pending(firstId + i, fields[i], values[fields[i]], patch[fields[i]],
              Assessed(fields[i], patch, values, bookings)))
  }

  predicate HasPending(pending: seq<Pending>, field: Field) {
    exists k :: 0 <= k < |pending| && pending[k].field == field
  }

  /** Validation leaves a patch well typed; bookings are the active ones and have distinct identifiers. */
  function UpdateEvent(s: State, patch: Values, bookings: seq<Booking>, equipment: nat): Result
    requires WholeEvent(s.values) && WellTyped(patch)
  {
    UpdateInOrder(s, patch, bookings, equipment, UpdateOrder())
  }

  function UpdateInOrder(s: State, patch: Values, bookings: seq<Booking>, equipment: nat, order: seq<Field>): Result
    requires WholeEvent(s.values) && WellTyped(patch)
  {
    if !Editable(s.status) then Refused(NotEditable)
    else if !ScheduleOk(s.values, patch) then Refused(InvalidSchedule)
    else
      var changed := Changed(order, s.values, patch);
      if changed == [] then Done(s)
      else if exists f :: f in changed && HasPending(s.pending, f) then Refused(AwaitingReview)
      else
        Done(Committed(s, patch, bookings,
                       Classified(changed, patch, s.values, bookings, equipment, false),
                       Classified(changed, patch, s.values, bookings, equipment, true)))
  }

  /** The writes of one update: the immediate fields with their log entries, and the held changes. */
  function Committed(s: State, patch: Values, bookings: seq<Booking>, immediate: seq<Field>, held: seq<Field>): State
    requires WholeEvent(s.values) && WellTyped(patch)
    requires forall f :: f in immediate || f in held ==> f in patch
  {
    State(
      s.status,
      Overwritten(s.values, patch, immediate),
      s.pending + HeldChanges(s.values, patch, held, s.nextId + |immediate|, bookings),
      s.history + AppliedEntries(s.values, patch, immediate, s.nextId),
      s.nextId + |immediate| + |held|)
  }

  // ------------------------------------------------------------------ resolving

  function IndexOf(pending: seq<Pending>, id: nat): Option<nat> {
    IndexWhere(pending, (change: Pending) => change.id == id)
  }

  function ImpactIndex(impacts: seq<Impact>, booking: nat): Option<nat> {
    IndexWhere(impacts, (impact: Impact) => impact.booking == booking)
  }

  function Undecided(impacts: seq<Impact>): nat {
    if impacts == [] then 0
    else (if impacts[0].impacted && impacts[0].decision.None? then 1 else 0) + Undecided(impacts[1..])
  }

  predicate AllConfirmed(impacts: seq<Impact>) {
    forall i :: 0 <= i < |impacts| && impacts[i].impacted ==> impacts[i].decision == Some(Applied)
  }

  function Close(s: State, k: nat, outcome: Outcome): Result
    requires HasTimes(s.values) && k < |s.pending|
  {
    var change := s.pending[k];
    var entry := Entry(change.id, change.field, change.original, change.proposed, outcome);
    var closed := s.(pending := s.pending[..k] + s.pending[k + 1..], history := s.history + [entry]);
    if outcome == Outcome.Rejected then Done(closed)
    else if !ScheduleOk(s.values, map[change.field := change.proposed]) then Refused(InvalidSchedule)
    else Done(closed.(values := Overwritten(s.values, map[change.field := change.proposed], [change.field])))
  }

  /** One decision for a booking; the last one closes the change, and a close that fails rolls the decision back. */
  function DecideBooking(s: State, k: nat, booking: nat, decision: Outcome): Result
    requires HasTimes(s.values) && k < |s.pending|
  {
    var impacts := s.pending[k].impacts;
    match ImpactIndex(impacts, booking)
    case None => Refused(NotAffected)
    case Some(j) =>
      if !impacts[j].impacted then Refused(NoImpact)
      else if impacts[j].decision.Some? then Refused(AlreadyDecided)
      else
        var decided := impacts[j := impacts[j].(decision := Some(decision))];
        var recorded := s.(pending := s.pending[k := s.pending[k].(impacts := decided)]);
        if Undecided(decided) > 0 then Done(recorded)
        else Close(recorded, k, if AllConfirmed(decided) then Applied else Outcome.Rejected)
  }

  function ResolveChange(s: State, id: nat, decision: Outcome, booking: Option<nat>): Result
    requires HasTimes(s.values)
  {
    if !Editable(s.status) then Refused(NotEditable)
    else match IndexOf(s.pending, id)
      case None =>
        Refused(if exists i :: 0 <= i < |s.history| && s.history[i].id == id then AlreadyResolved else ChangeNotFound)
      case Some(k) => if booking.Some? then DecideBooking(s, k, booking.value, decision) else Close(s, k, decision)
  }

  // ------------------------------------------------------------------ approving an organiser's request

  /** Every requested field is written; the log records those whose value changed. */
  function ApproveRequest(s: State, patch: Values, started: bool): Result
    requires WholeEvent(s.values) && WellTyped(patch)
  {
    ApproveInOrder(s, patch, started, UpdateOrder())
  }

  function ApproveInOrder(s: State, patch: Values, started: bool, order: seq<Field>): Result
    requires WholeEvent(s.values) && WellTyped(patch)
  {
    if s.status !in {EventStatus.Submitted, EventStatus.Approved, EventStatus.Planning, EventStatus.Confirmed}
    then Refused(NotOpen)
    else if started then Refused(EventStarted)
    else if exists f :: f in patch && HasPending(s.pending, f) then Refused(AwaitingReview)
    else if InstantOr(patch, EndDateTime, s.values[EndDateTime].at)
            <= InstantOr(patch, StartDateTime, s.values[StartDateTime].at)
    then Refused(InvalidSchedule)
    else
      var changed := Changed(order, s.values, patch);
      Done(s.(
        status := if s.status == EventStatus.Confirmed then EventStatus.Planning else s.status,
        values := Overwritten(s.values, patch, order),
        history := s.history + AppliedEntries(s.values, patch, changed, s.nextId),
        nextId := s.nextId + |changed|))
  }

  datatype Op =
    | Update(patch: Values, bookings: seq<Booking>, equipment: nat)
    | Resolve(id: nat, decision: Outcome, booking: Option<nat>)
    | Approve(patch: Values, started: bool)
    | MoveStatus(status: EventStatus)

  ghost predicate GoodInput(op: Op) {
    && (op.Update? || op.Approve? ==> WellTyped(op.patch))
    && (op.Update? ==> DistinctBookings(op.bookings))
  }

  ghost predicate DistinctBookings(bookings: seq<Booking>) {
    forall i, j :: 0 <= i < j < |bookings| ==> bookings[i].id != bookings[j].id
  }

  function Apply(s: State, op: Op): Result
    requires WholeEvent(s.values) && GoodInput(op)
  {
    match op
    case Update(patch, bookings, equipment) => UpdateEvent(s, patch, bookings, equipment)
    case Resolve(id, decision, booking) => ResolveChange(s, id, decision, booking)
    case Approve(patch, started) => ApproveRequest(s, patch, started)
    case MoveStatus(status) => Done(s.(status := status))
  }

  /** A refused request, and one validation stops, leaves the state as it was. */
  ghost function Step(s: State, op: Op): State {
    if WholeEvent(s.values) && GoodInput(op) && Apply(s, op).Done? then Apply(s, op).state else s
  }

  ghost function Run(s: State, ops: seq<Op>): State
    decreases |ops|
  {
    if ops == [] then s else Run(Step(s, ops[0]), ops[1..])
  }

  /** An accepted request takes the state to what it returns. */
  lemma AcceptedStep(s: State, op: Op)
    requires WholeEvent(s.values) && GoodInput(op) && Apply(s, op).Done?
    ensures Step(s, op) == Apply(s, op).state
  {
  }

  // ------------------------------------------------------------------ what a value means

  /** A choice list means its set of choices. */
  datatype Meaning = Exactly(value: Value) | ChoiceSet(choices: set<string>)

  ghost function MeaningOf(value: Value): Meaning {
    if value.Choices? then ChoiceSet(set c | c in value.choices) else Exactly(value)
  }

  lemma {:induction false} SetSize<T>(s: seq<T>)
    requires NoDuplicates(s)
    ensures |set x | x in s| == |s|
  {
    if s != [] {
      var init, last := s[..|s| - 1], s[|s| - 1];
      SetSize(init);
      assert s == init + [last];
      assert (set x | x in s) == (set x | x in init) + {last};
    }
  }

  /** On lists without duplicates the source's comparison is equality of meaning, so it is an equivalence. */
  lemma SameValueIsSameMeaning(a: Value, b: Value)
    requires a.Choices? ==> NoDuplicates(a.choices)
    requires b.Choices? ==> NoDuplicates(b.choices)
    ensures SameValue(a, b) <==> MeaningOf(a) == MeaningOf(b)
  {
    if a.Choices? && b.Choices? {
      SetSize(a.choices);
      SetSize(b.choices);
      var stored, proposed := set c | c in a.choices, set c | c in b.choices;
      if SameValue(a, b) {
        assert proposed <= stored;
        EqualSizedSubset(proposed, stored);
      }
      if stored == proposed {
        assert forall i :: 0 <= i < |b.choices| ==> b.choices[i] in proposed;
      }
    }
  }

  /** With duplicates it is not even symmetric, which is why validation removes them. */
  lemma DuplicatesBreakTheComparison(c: string, d: string)
    requires c != d
    ensures SameValue(Choices([c, d]), Choices([c, c])) && !SameValue(Choices([c, c]), Choices([c, d]))
  {
    assert d !in [c, c];
    assert Choices([c, d]).choices[1] == d;
  }

  // ------------------------------------------------------------------ the log replays

  function Replay(initial: Values, history: seq<Entry>): (values: Values)
    ensures forall f :: f in initial ==> f in values
  {
    if history == [] then initial
    else
      var last, before := history[|history| - 1], Replay(initial, history[..|history| - 1]);
      if last.outcome == Applied then before[last.field := last.proposed] else before
  }

  ghost predicate SameMeanings(a: Values, b: Values) {
    forall f: Field :: f in a && f in b && MeaningOf(a[f]) == MeaningOf(b[f])
  }

  /** Entry k starts from what the entries before it left, and is a real change. */
  ghost predicate Follows(initial: Values, history: seq<Entry>, k: nat)
    requires k < |history|
  {
    var before := Replay(initial, history[..k]);
    && history[k].field in before
    && MeaningOf(before[history[k].field]) == MeaningOf(history[k].original)
    && MeaningOf(history[k].original) != MeaningOf(history[k].proposed)
  }

  ghost predicate LogReplays(initial: Values, history: seq<Entry>, values: Values) {
    && SameMeanings(Replay(initial, history), values)
    && forall k :: 0 <= k < |history| ==> Follows(initial, history, k)
  }

  lemma LogGrows(initial: Values, history: seq<Entry>, values: Values, entry: Entry)
    requires LogReplays(initial, history, values)
    requires entry.field in values && entry.original == values[entry.field]
    requires MeaningOf(entry.original) != MeaningOf(entry.proposed)
    ensures LogReplays(initial, history + [entry],
      if entry.outcome == Applied then values[entry.field := entry.proposed] else values)
  {
    var longer := history + [entry];
    assert longer[..|history|] == history;
    forall k | 0 <= k < |longer| ensures Follows(initial, longer, k) {
      if k < |history| {
        assert longer[..k] == history[..k];
        assert Follows(initial, history, k);
      }
    }
  }

  /** Logging one field more is one entry more and one write more. */
  lemma OneFieldMore(values: Values, patch: Values, init: seq<Field>, last: Field, firstId: nat)
    requires forall f :: f in init + [last] ==> f in values && f in patch
    requires last !in init
    ensures forall f :: f in init ==> f in values && f in patch
    ensures last in values && last in patch
    ensures AppliedEntries(values, patch, init + [last], firstId)
         == AppliedEntries(values, patch, init, firstId)
            + [Entry(firstId + |init|, last, values[last], patch[last], Applied)]
    ensures Overwritten(values, patch, init + [last]) == Overwritten(values, patch, init)[last := patch[last]]
    ensures Overwritten(values, patch, init)[last] == values[last]
  {
    assert forall f :: f in init ==> f in init + [last];
    assert last in init + [last];
  }

  lemma LogTakesField(initial: Values, history: seq<Entry>, values: Values, patch: Values, init: seq<Field>,
                      last: Field, firstId: nat)
    requires forall f :: f in init + [last] ==> f in values && f in patch
    requires last !in init && MeaningOf(values[last]) != MeaningOf(patch[last])
    requires forall f :: f in init ==> f in values && f in patch
    requires LogReplays(initial, history + AppliedEntries(values, patch, init, firstId),
                        Overwritten(values, patch, init))
    ensures LogReplays(initial, history + AppliedEntries(values, patch, init + [last], firstId),
                       Overwritten(values, patch, init + [last]))
  {
    var entries, entry := AppliedEntries(values, patch, init, firstId),
                          Entry(firstId + |init|, last, values[last], patch[last], Applied);
    OneFieldMore(values, patch, init, last, firstId);
    LogGrows(initial, history + entries, Overwritten(values, patch, init), entry);
    assert history + (entries + [entry]) == history + entries + [entry];
  }

  lemma LastIsNew(fields: seq<Field>)
    requires fields != [] && NoDuplicates(fields)
    ensures var init, last := fields[..|fields| - 1], fields[|fields| - 1];
      fields == init + [last] && last !in init && NoDuplicates(init) && forall f :: f in init ==> f in fields
  {
  }

  /** One update logs its immediate fields one by one; replaying them writes exactly those fields. */
  lemma {:induction false} LogTakesUpdate(initial: Values, history: seq<Entry>, values: Values, patch: Values,
                                          fields: seq<Field>, firstId: nat)
    requires LogReplays(initial, history, values)
    requires NoDuplicates(fields) && forall f :: f in fields ==> f in values && f in patch
    requires forall f :: f in fields ==> MeaningOf(values[f]) != MeaningOf(patch[f])
    ensures LogReplays(initial, history + AppliedEntries(values, patch, fields, firstId),
                        Overwritten(values, patch, fields))
  {
    if fields == [] {
      assert history + AppliedEntries(values, patch, fields, firstId) == history;
      assert Overwritten(values, patch, fields) == values;
    } else {
      LastIsNew(fields);
      var init, last := fields[..|fields| - 1], fields[|fields| - 1];
      LogTakesUpdate(initial, history, values, patch, init, firstId);
      LogTakesField(initial, history, values, patch, init, last, firstId);
    }
  }

  // ------------------------------------------------------------------ what every run keeps

  ghost predicate PendingOk(values: Values, change: Pending) {
    && change.field in values && change.original == values[change.field]
    && Fits(change.field, change.proposed)
    && (change.proposed.Choices? ==> NoDuplicates(change.proposed.choices))
    && MeaningOf(change.original) != MeaningOf(change.proposed)
    && DistinctImpacts(change.impacts)
  }

  ghost predicate DistinctImpacts(impacts: seq<Impact>) {
    forall i, j :: 0 <= i < j < |impacts| ==> impacts[i].booking != impacts[j].booking
  }

  ghost predicate OnePerField(pending: seq<Pending>) {
    forall i, j :: 0 <= i < j < |pending| ==> pending[i].field != pending[j].field
  }

  ghost predicate PendingsOk(values: Values, pending: seq<Pending>) {
    OnePerField(pending) && forall k :: 0 <= k < |pending| ==> PendingOk(values, pending[k])
  }

  /**
   At most one pending change per field, each still starting from the stored value; the log replays from the initial
   event to the stored one, every entry starting where the one before left its field; the schedule stays ordered.
   */
  ghost predicate Invariant(initial: Values, s: State) {
    && WholeEvent(s.values)
    && PendingsOk(s.values, s.pending)
    && LogReplays(initial, s.history, s.values)
    && s.values[StartDateTime].at < s.values[EndDateTime].at
  }

  lemma FreshEvent(values: Values, status: EventStatus)
    requires WholeEvent(values) && values[StartDateTime].at < values[EndDateTime].at
    ensures Invariant(values, State(status, values, [], [], 0))
  {
  }

  lemma OrderHasNoDuplicates()
    ensures NoDuplicates(UpdateOrder())
    ensures forall f: Field :: f in UpdateOrder()
  {
    forall f: Field ensures f in UpdateOrder() {
      match f
      case Name => assert UpdateOrder()[0] == f;
      case Purpose => assert UpdateOrder()[1] == f;
      case Description => assert UpdateOrder()[2] == f;
      case EquipmentNeeds => assert UpdateOrder()[3] == f;
      case Layout => assert UpdateOrder()[4] == f;
      case Facilities => assert UpdateOrder()[5] == f;
      case Accessibility => assert UpdateOrder()[6] == f;
      case StartDateTime => assert UpdateOrder()[7] == f;
      case EndDateTime => assert UpdateOrder()[8] == f;
      case ExpectedAttendance => assert UpdateOrder()[9] == f;
    }
  }

  lemma ChangedMeansDifferent(order: seq<Field>, values: Values, patch: Values)
    requires WholeEvent(values) && WellTyped(patch)
    ensures forall f :: f in Changed(order, values, patch) ==> MeaningOf(values[f]) != MeaningOf(patch[f])
    ensures forall f :: (f in order && f in patch && f !in Changed(order, values, patch)
                         ==> MeaningOf(values[f]) == MeaningOf(patch[f]))
  {
    forall f | f in order && f in patch
      ensures SameValue(values[f], patch[f]) <==> MeaningOf(values[f]) == MeaningOf(patch[f])
    {
      SameValueIsSameMeaning(values[f], patch[f]);
    }
  }

  lemma OverwrittenStaysWhole(values: Values, patch: Values, fields: seq<Field>)
    requires WholeEvent(values) && WellTyped(patch)
    ensures WholeEvent(Overwritten(values, patch, fields))
  {
  }

  /** The date fields an update writes leave the schedule ordered: both edges are held back, or neither. */
  lemma UpdateKeepsSchedule(values: Values, patch: Values, bookings: seq<Booking>, equipment: nat, order: seq<Field>)
    requires WholeEvent(values) && WellTyped(patch) && values[StartDateTime].at < values[EndDateTime].at
    requires ScheduleOk(values, patch) && forall f: Field :: f in order
    ensures var changed := Changed(order, values, patch);
      var after := Overwritten(values, patch, Classified(changed, patch, values, bookings, equipment, false));
      HasTimes(after) && after[StartDateTime].at < after[EndDateTime].at
  {
    var changed := Changed(order, values, patch);
    var immediate := Classified(changed, patch, values, bookings, equipment, false);
    OverwrittenStaysWhole(values, patch, immediate);
    if StartDateTime in patch && EndDateTime in patch {
      TimesClassifiedAlike(patch, values, bookings, equipment);
    }
    assert forall f :: IsTime(f) && f in patch && f !in changed ==> patch[f] == values[f];
    assert forall f :: (IsTime(f) && f in changed && f !in immediate
                        ==> IsFlagged(f, patch, values, bookings, equipment));
  }

  lemma HeldChangesAreOk(values: Values, after: Values, patch: Values, fields: seq<Field>, firstId: nat,
                         bookings: seq<Booking>)
    requires WholeEvent(values) && WellTyped(patch) && DistinctBookings(bookings)
    requires forall f :: f in fields ==> f in patch && f in after && after[f] == values[f]
    requires forall f :: f in fields ==> MeaningOf(values[f]) != MeaningOf(patch[f])
    ensures var held := HeldChanges(values, patch, fields, firstId, bookings);
      forall k :: 0 <= k < |held| ==> PendingOk(after, held[k])
  {
  }

  lemma HeldChangesOnePerField(values: Values, patch: Values, fields: seq<Field>, firstId: nat, bookings: seq<Booking>)
    requires WholeEvent(values) && WellTyped(patch) && forall f :: f in fields ==> f in patch
    requires NoDuplicates(fields)
    ensures OnePerField(HeldChanges(values, patch, fields, firstId, bookings))
  {
  }

  /** The split of the changed fields into those written now and those held. */
  ghost predicate Splits(values: Values, patch: Values, pending: seq<Pending>, immediate: seq<Field>,
                         held: seq<Field>)
  {
    && NoDuplicates(immediate) && NoDuplicates(held)
    && (forall f :: f in immediate ==> f !in held)
    && (forall f :: f in immediate || f in held ==>
          f in patch && f in values && MeaningOf(values[f]) != MeaningOf(patch[f]) && !HasPending(pending, f))
  }

  lemma UpdateHolds(values: Values, patch: Values, pending: seq<Pending>, immediate: seq<Field>, held: seq<Field>,
                    firstId: nat, bookings: seq<Booking>)
    requires WholeEvent(values) && WellTyped(patch) && DistinctBookings(bookings)
    requires PendingsOk(values, pending) && Splits(values, patch, pending, immediate, held)
    ensures PendingsOk(Overwritten(values, patch, immediate),
                       pending + HeldChanges(values, patch, held, firstId, bookings))
  {
    var after, changes := Overwritten(values, patch, immediate), HeldChanges(values, patch, held, firstId, bookings);
    HeldChangesAreOk(values, after, patch, held, firstId, bookings);
    HeldChangesOnePerField(values, patch, held, firstId, bookings);
    NewHoldsKeepPending(values, after, pending, immediate, changes, held, patch);
  }

  lemma UpdateSplits(values: Values, patch: Values, pending: seq<Pending>, bookings: seq<Booking>, equipment: nat,
                     order: seq<Field>)
    requires WholeEvent(values) && WellTyped(patch) && NoDuplicates(order)
    requires forall f :: f in Changed(order, values, patch) ==> !HasPending(pending, f)
    ensures var changed := Changed(order, values, patch);
      Splits(values, patch, pending, Classified(changed, patch, values, bookings, equipment, false),
             Classified(changed, patch, values, bookings, equipment, true))
  {
    ChangedMeansDifferent(order, values, patch);
  }

  lemma CommitKeepsPending(s: State, patch: Values, bookings: seq<Booking>, immediate: seq<Field>, held: seq<Field>)
    requires WholeEvent(s.values) && WellTyped(patch) && DistinctBookings(bookings)
    requires PendingsOk(s.values, s.pending) && Splits(s.values, patch, s.pending, immediate, held)
    ensures var after := Committed(s, patch, bookings, immediate, held); PendingsOk(after.values, after.pending)
  {
    UpdateHolds(s.values, patch, s.pending, immediate, held, s.nextId + |immediate|, bookings);
  }

  lemma CommitKeepsInvariant(initial: Values, s: State, patch: Values, bookings: seq<Booking>,
                             immediate: seq<Field>, held: seq<Field>)
    requires Invariant(initial, s) && WellTyped(patch) && DistinctBookings(bookings)
    requires Splits(s.values, patch, s.pending, immediate, held)
    requires Overwritten(s.values, patch, immediate)[StartDateTime].at
           < Overwritten(s.values, patch, immediate)[EndDateTime].at
    ensures Invariant(initial, Committed(s, patch, bookings, immediate, held))
  {
    LogTakesUpdate(initial, s.history, s.values, patch, immediate, s.nextId);
    CommitKeepsPending(s, patch, bookings, immediate, held);
    OverwrittenStaysWhole(s.values, patch, immediate);
  }

  lemma UpdateKeepsInvariant(initial: Values, s: State, patch: Values, bookings: seq<Booking>, equipment: nat,
                             order: seq<Field>)
    requires Invariant(initial, s) && WellTyped(patch) && DistinctBookings(bookings)
    requires NoDuplicates(order) && forall f: Field :: f in order
    requires UpdateInOrder(s, patch, bookings, equipment, order).Done?
    ensures Invariant(initial, UpdateInOrder(s, patch, bookings, equipment, order).state)
  {
    var changed := Changed(order, s.values, patch);
    if changed != [] {
      var immediate := Classified(changed, patch, s.values, bookings, equipment, false);
      var held := Classified(changed, patch, s.values, bookings, equipment, true);
      UpdateSplits(s.values, patch, s.pending, bookings, equipment, order);
      UpdateKeepsSchedule(s.values, patch, bookings, equipment, order);
      CommitKeepsInvariant(initial, s, patch, bookings, immediate, held);
    }
  }

  lemma NewHoldsKeepPending(values: Values, after: Values, pending: seq<Pending>, immediate: seq<Field>,
                            changes: seq<Pending>, held: seq<Field>, patch: Values)
    requires PendingsOk(values, pending) && PendingsOk(after, changes)
    requires forall k :: 0 <= k < |changes| ==> changes[k].field in held
    requires forall f :: f in immediate || f in held ==> !HasPending(pending, f)
    requires after == Overwritten(values, patch, immediate)
    ensures PendingsOk(after, pending + changes)
  {
    forall k | 0 <= k < |pending|
      ensures PendingOk(after, pending[k]) && pending[k].field !in immediate && pending[k].field !in held
    {
      assert HasPending(pending, pending[k].field);
    }
  }

  /** Without the closed change, and with its field written or not, the other changes still start from stored values. */
  lemma OthersStayPending(values: Values, pending: seq<Pending>, k: nat)
    requires k < |pending| && PendingsOk(values, pending)
    ensures PendingsOk(values, pending[..k] + pending[k + 1..])
    ensures PendingsOk(values[pending[k].field := pending[k].proposed], pending[..k] + pending[k + 1..])
  {
    var rest, written := pending[..k] + pending[k + 1..], values[pending[k].field := pending[k].proposed];
    forall i | 0 <= i < |rest| ensures PendingOk(values, rest[i]) && PendingOk(written, rest[i]) {
      var j := if i < k then i else i + 1;
      assert rest[i] == pending[j] && PendingOk(values, pending[j]);
      assert pending[j].field != pending[k].field;
    }
  }

  lemma CloseKeepsInvariant(initial: Values, s: State, k: nat, outcome: Outcome)
    requires Invariant(initial, s) && k < |s.pending| && Close(s, k, outcome).Done?
    ensures Invariant(initial, Close(s, k, outcome).state)
  {
    var change := s.pending[k];
    assert PendingOk(s.values, change);
    LogGrows(initial, s.history, s.values, Entry(change.id, change.field, change.original, change.proposed, outcome));
    OthersStayPending(s.values, s.pending, k);
    assert outcome == Applied ==> Close(s, k, outcome).state.values == s.values[change.field := change.proposed];
  }

  lemma DecisionKeepsPending(values: Values, pending: seq<Pending>, k: nat, j: nat, decision: Outcome)
    requires k < |pending| && j < |pending[k].impacts| && PendingsOk(values, pending)
    ensures var impacts := pending[k].impacts;
      var decided := pending[k := pending[k].(impacts := impacts[j := impacts[j].(decision := Some(decision))])];
      PendingsOk(values, decided)
  {
    assert PendingOk(values, pending[k]);
  }

  lemma ResolveKeepsInvariant(initial: Values, s: State, id: nat, decision: Outcome, booking: Option<nat>)
    requires Invariant(initial, s) && ResolveChange(s, id, decision, booking).Done?
    ensures Invariant(initial, ResolveChange(s, id, decision, booking).state)
  {
    var k := IndexOf(s.pending, id).value;
    if booking.None? {
      CloseKeepsInvariant(initial, s, k, decision);
    } else {
      var impacts := s.pending[k].impacts;
      var j := ImpactIndex(impacts, booking.value).value;
      var decided := impacts[j := impacts[j].(decision := Some(decision))];
      var recorded := s.(pending := s.pending[k := s.pending[k].(impacts := decided)]);
      DecisionKeepsPending(s.values, s.pending, k, j, decision);
      if Undecided(decided) == 0 {
        CloseKeepsInvariant(initial, recorded, k, if AllConfirmed(decided) then Applied else Outcome.Rejected);
      }
    }
  }

  /** An approved request logs the fields whose value changed; the others it rewrites keep their meaning. */
  lemma ApprovalLogs(initial: Values, s: State, patch: Values, order: seq<Field>)
    requires Invariant(initial, s) && WellTyped(patch) && NoDuplicates(order) && forall f: Field :: f in order
    ensures LogReplays(initial, s.history + AppliedEntries(s.values, patch, Changed(order, s.values, patch), s.nextId),
                       Overwritten(s.values, patch, order))
  {
    ChangedMeansDifferent(order, s.values, patch);
    var changed := Changed(order, s.values, patch);
    LogTakesUpdate(initial, s.history, s.values, patch, changed, s.nextId);
    var logged, after := Overwritten(s.values, patch, changed), Overwritten(s.values, patch, order);
    assert forall f: Field :: MeaningOf(logged[f]) == MeaningOf(after[f]);
  }

  lemma ApprovalKeepsPending(values: Values, pending: seq<Pending>, patch: Values, order: seq<Field>)
    requires PendingsOk(values, pending)
    requires forall f :: f in patch ==> !HasPending(pending, f)
    ensures PendingsOk(Overwritten(values, patch, order), pending)
  {
    forall k | 0 <= k < |pending| ensures PendingOk(Overwritten(values, patch, order), pending[k]) {
      assert PendingOk(values, pending[k]) && HasPending(pending, pending[k].field);
    }
  }

  lemma ApproveKeepsInvariant(initial: Values, s: State, patch: Values, started: bool, order: seq<Field>)
    requires Invariant(initial, s) && WellTyped(patch) && ApproveInOrder(s, patch, started, order).Done?
    requires NoDuplicates(order) && forall f: Field :: f in order
    ensures Invariant(initial, ApproveInOrder(s, patch, started, order).state)
  {
    ApprovalLogs(initial, s, patch, order);
    ApprovalKeepsPending(s.values, s.pending, patch, order);
    OverwrittenStaysWhole(s.values, patch, order);
  }

  lemma StepKeepsInvariant(initial: Values, s: State, op: Op)
    requires Invariant(initial, s)
    ensures Invariant(initial, Step(s, op))
  {
    OrderHasNoDuplicates();
    if GoodInput(op) && Apply(s, op).Done? {
      match op
      case Update(patch, bookings, equipment) =>
        UpdateKeepsInvariant(initial, s, patch, bookings, equipment, UpdateOrder());
      case Resolve(id, decision, booking) => ResolveKeepsInvariant(initial, s, id, decision, booking);
      case Approve(patch, started) => ApproveKeepsInvariant(initial, s, patch, started, UpdateOrder());
      case MoveStatus(status) =>
    }
  }

  /** Over every run: one pending change per field, and the log replays from the initial event to the current one. */
  lemma {:induction false} HistoryReplays(initial: Values, s: State, ops: seq<Op>)
    requires Invariant(initial, s)
    ensures Invariant(initial, Run(s, ops))
    decreases |ops|
  {
    if ops != [] {
      StepKeepsInvariant(initial, s, ops[0]);
      HistoryReplays(initial, Step(s, ops[0]), ops[1..]);
    }
  }

  // ------------------------------------------------------------------ where the replay is exact

  /** The step rewrites a choice list in another order, which the log does not record. */
  ghost predicate Reorders(s: State, op: Op) {
    op.Approve? && exists f: Field :: ReordersField(s.values, op.patch, f)
  }

  lemma {:induction false} ReplayAppends(initial: Values, history: seq<Entry>, more: seq<Entry>)
    ensures Replay(initial, history + more) == Replay(Replay(initial, history), more)
  {
    if more == [] {
      assert history + more == history;
    } else {
      var init, last := more[..|more| - 1], more[|more| - 1];
      assert (history + more)[..|history + more| - 1] == history + init;
      assert (history + more)[|history + more| - 1] == last;
      ReplayAppends(initial, history, init);
    }
  }

  /** Replaying one update's entries writes exactly its fields. */
  lemma {:induction false} ReplayOfUpdate(values: Values, patch: Values, fields: seq<Field>, firstId: nat)
    requires NoDuplicates(fields) && forall f :: f in fields ==> f in values && f in patch
    ensures Replay(values, AppliedEntries(values, patch, fields, firstId)) == Overwritten(values, patch, fields)
  {
    if fields == [] {
      assert Overwritten(values, patch, fields) == values;
    } else {
      var init, last := fields[..|fields| - 1], fields[|fields| - 1];
      assert fields == init + [last];
      assert last !in init;
      OneFieldMore(values, patch, init, last, firstId);
      ReplayOfUpdate(values, patch, init, firstId);
      var entries := AppliedEntries(values, patch, fields, firstId);
      assert entries[..|entries| - 1] == AppliedEntries(values, patch, init, firstId);
    }
  }

  lemma UpdateReplaysExactly(initial: Values, s: State, patch: Values, bookings: seq<Booking>, equipment: nat,
                             order: seq<Field>)
    requires WholeEvent(s.values) && WellTyped(patch) && NoDuplicates(order) && Replay(initial, s.history) == s.values
    requires UpdateInOrder(s, patch, bookings, equipment, order).Done?
    ensures var after := UpdateInOrder(s, patch, bookings, equipment, order).state;
      Replay(initial, after.history) == after.values
  {
    var changed := Changed(order, s.values, patch);
    if changed != [] {
      var immediate := Classified(changed, patch, s.values, bookings, equipment, false);
      ReplayAppends(initial, s.history, AppliedEntries(s.values, patch, immediate, s.nextId));
      ReplayOfUpdate(s.values, patch, immediate, s.nextId);
    }
  }

  /** What an approval stores, and what its log entries replay to. */
  lemma ApprovalReplay(initial: Values, s: State, patch: Values, started: bool, order: seq<Field>)
    requires WholeEvent(s.values) && WellTyped(patch) && NoDuplicates(order)
    requires Replay(initial, s.history) == s.values && ApproveInOrder(s, patch, started, order).Done?
    ensures var after := ApproveInOrder(s, patch, started, order).state;
      && Replay(initial, after.history) == Overwritten(s.values, patch, Changed(order, s.values, patch))
      && after.values == Overwritten(s.values, patch, order)
  {
    var changed := Changed(order, s.values, patch);
    ReplayAppends(initial, s.history, AppliedEntries(s.values, patch, changed, s.nextId));
    ReplayOfUpdate(s.values, patch, changed, s.nextId);
  }

  /** The patch writes this field's list in another order. */
  predicate ReordersField(values: Values, patch: Values, f: Field) {
    f in patch && f in values && SameValue(values[f], patch[f]) && values[f] != patch[f]
  }

  /** Writing only the changed fields writes the same values, except where a list is merely reordered. */
  lemma UnchangedWritesAgree(values: Values, patch: Values, order: seq<Field>)
    requires WholeEvent(values) && forall f: Field :: f in order
    ensures Overwritten(values, patch, Changed(order, values, patch)) == Overwritten(values, patch, order)
      <==> forall f: Field :: !ReordersField(values, patch, f)
  {
    var replayed := Overwritten(values, patch, Changed(order, values, patch));
    var stored := Overwritten(values, patch, order);
    forall f: Field ensures replayed[f] != stored[f] <==> ReordersField(values, patch, f) {
      assert f in order;
    }
    assert replayed.Keys == stored.Keys == values.Keys;
  }

  lemma ApprovalReplaysUpToOrder(initial: Values, s: State, patch: Values, started: bool, order: seq<Field>)
    requires WholeEvent(s.values) && WellTyped(patch) && NoDuplicates(order) && forall f: Field :: f in order
    requires Replay(initial, s.history) == s.values && ApproveInOrder(s, patch, started, order).Done?
    ensures var after := ApproveInOrder(s, patch, started, order).state;
      Replay(initial, after.history) == after.values <==> !Reorders(s, Approve(patch, started))
  {
    ApprovalReplay(initial, s, patch, started, order);
    UnchangedWritesAgree(s.values, patch, order);
  }

  lemma ResolutionReplaysExactly(initial: Values, s: State, k: nat, outcome: Outcome)
    requires HasTimes(s.values) && k < |s.pending| && s.pending[k].field in s.values
    requires Replay(initial, s.history) == s.values && Close(s, k, outcome).Done?
    ensures Replay(initial, Close(s, k, outcome).state.history) == Close(s, k, outcome).state.values
  {
    var after := Close(s, k, outcome).state;
    assert after.history[..|after.history| - 1] == s.history;
  }

  /**
   When the log replays to exactly the stored event, one more step keeps it exact unless, and only unless, an approved
   request rewrites a list in another order.
   */
  lemma ReplayStaysExact(initial: Values, s: State, op: Op)
    requires Invariant(initial, s) && GoodInput(op) && Apply(s, op).Done? && Replay(initial, s.history) == s.values
    ensures Replay(initial, Step(s, op).history) == Step(s, op).values <==> !Reorders(s, op)
  {
    OrderHasNoDuplicates();
    match op
    case Update(patch, bookings, equipment) =>
      UpdateReplaysExactly(initial, s, patch, bookings, equipment, UpdateOrder());
    case Approve(patch, started) => ApprovalReplaysUpToOrder(initial, s, patch, started, UpdateOrder());
    case Resolve(id, decision, booking) =>
      var k := IndexOf(s.pending, id).value;
      assert PendingOk(s.values, s.pending[k]);
      if booking.None? {
        ResolutionReplaysExactly(initial, s, k, decision);
      } else if Step(s, op).history != s.history {
        var impacts := s.pending[k].impacts;
        var j := ImpactIndex(impacts, booking.value).value;
        var decided := impacts[j := impacts[j].(decision := Some(decision))];
        var recorded := s.(pending := s.pending[k := s.pending[k].(impacts := decided)]);
        ResolutionReplaysExactly(initial, recorded, k, if AllConfirmed(decided) then Applied else Outcome.Rejected);
      }
    case MoveStatus(status) =>
  }

  predicate Exact(initial: Values, s: State) {
    Replay(initial, s.history) == s.values
  }

  /** The log replays to exactly the stored event now and after every step of the run. */
  ghost predicate AlwaysExact(initial: Values, s: State, ops: seq<Op>)
    decreases |ops|
  {
    Exact(initial, s) && (ops != [] ==> AlwaysExact(initial, Step(s, ops[0]), ops[1..]))
  }

  /** No accepted step of the run is an approval that reorders a list. */
  ghost predicate NeverReorders(s: State, ops: seq<Op>)
    decreases |ops|
  {
    ops != [] ==>
      && !(WholeEvent(s.values) && GoodInput(ops[0]) && Apply(s, ops[0]).Done? && Reorders(s, ops[0]))
      && NeverReorders(Step(s, ops[0]), ops[1..])
  }

  /** From an exact state, a run keeps the replay exact throughout if and only if no step of it reorders a list. */
  lemma {:induction false} RunReplaysExactly(initial: Values, s: State, ops: seq<Op>)
    requires Invariant(initial, s) && Exact(initial, s)
    ensures AlwaysExact(initial, s, ops) <==> NeverReorders(s, ops)
    decreases |ops|
  {
    if ops != [] {
      var next := Step(s, ops[0]);
      StepKeepsInvariant(initial, s, ops[0]);
      if GoodInput(ops[0]) && Apply(s, ops[0]).Done? {
        ReplayStaysExact(initial, s, ops[0]);
      }
      if Exact(initial, next) {
        RunReplaysExactly(initial, next, ops[1..]);
      } else {
        assert !AlwaysExact(initial, next, ops[1..]);
      }
    }
  }

  // ------------------------------------------------------------------ per-booking resolution

  lemma {:induction false} DecisionCountsDown(impacts: seq<Impact>, j: nat, decision: Outcome)
    requires j < |impacts| && impacts[j].impacted && impacts[j].decision.None?
    ensures Undecided(impacts[j := impacts[j].(decision := Some(decision))]) == Undecided(impacts) - 1
  {
    var decided := impacts[j := impacts[j].(decision := Some(decision))];
    if j == 0 {
      assert decided[1..] == impacts[1..];
    } else {
      DecisionCountsDown(impacts[1..], j - 1, decision);
      assert decided[1..] == impacts[1..][j - 1 := impacts[j].(decision := Some(decision))];
    }
  }

  lemma {:induction false} AllDecided(impacts: seq<Impact>)
    ensures Undecided(impacts) == 0
      <==> forall i :: 0 <= i < |impacts| && impacts[i].impacted ==> impacts[i].decision.Some?
  {
    if impacts != [] {
      AllDecided(impacts[1..]);
      assert forall i :: 1 <= i < |impacts| ==> impacts[i] == impacts[1..][i - 1];
    }
  }

  /**
   An accepted decision for one booking alters only that booking's entry of that change and lowers the number of
   undecided impacted bookings by one, so a change takes as many decisions as it impacts bookings. The change closes
   exactly when none is left, and then as Applied, with the field set to the proposal, exactly when every impacted
   booking was confirmed.
   */
  lemma BookingDecision(s: State, id: nat, decision: Outcome, booking: nat)
    requires HasTimes(s.values) && ResolveChange(s, id, decision, Some(booking)).Done?
    ensures var k := IndexOf(s.pending, id).value;
      var change, after := s.pending[k], ResolveChange(s, id, decision, Some(booking)).state;
      exists decided: seq<Impact> ::
        && |decided| == |change.impacts|
        && DecidesOnly(change.impacts, decided, booking, decision)
        && Undecided(decided) == Undecided(change.impacts) - 1
        && (Undecided(decided) > 0 ==>
              && after == s.(pending := after.pending)
              && after.pending == s.pending[k := change.(impacts := decided)])
        && (Undecided(decided) == 0 ==>
              && after.pending == s.pending[..k] + s.pending[k + 1..]
              && after.history == s.history + [Entry(id, change.field, change.original, change.proposed,
                                                     if AllConfirmed(decided) then Applied else Outcome.Rejected)]
              && after.values ==
                   if AllConfirmed(decided)
                   then Overwritten(s.values, map[change.field := change.proposed], [change.field]) else s.values)
  {
    var k := IndexOf(s.pending, id).value;
    var impacts := s.pending[k].impacts;
    var j := ImpactIndex(impacts, booking).value;
    var decided := impacts[j := impacts[j].(decision := Some(decision))];
    DecisionCountsDown(impacts, j, decision);
    assert DecidesOnly(impacts, decided, booking, decision);
    var recorded := s.pending[k := s.pending[k].(impacts := decided)];
    assert recorded[..k] == s.pending[..k] && recorded[k + 1..] == s.pending[k + 1..];
  }

  /** Exactly one entry, of that booking, impacted and undecided before, now carries the decision. */
  ghost predicate DecidesOnly(before: seq<Impact>, after: seq<Impact>, booking: nat, decision: Outcome)
    requires |before| == |after|
  {
    exists j :: 0 <= j < |before|
      && before[j].booking == booking && before[j].impacted && before[j].decision.None?
      && after == before[j := before[j].(decision := Some(decision))]
  }

  /** A change of the schedule that no longer fits closes nothing: the decision that would close it is undone too. */
  lemma UnfitScheduleNeverCloses(s: State, id: nat, booking: Option<nat>)
    requires HasTimes(s.values) && Editable(s.status) && IndexOf(s.pending, id).Some?
    requires var change := s.pending[IndexOf(s.pending, id).value];
      && !ScheduleOk(s.values, map[change.field := change.proposed])
      && DistinctImpacts(change.impacts) && AllConfirmedBut(change.impacts, booking)
    ensures ResolveChange(s, id, Applied, booking).Refused?
  {
    if booking.Some? {
      var k := IndexOf(s.pending, id).value;
      var impacts := s.pending[k].impacts;
      if ImpactIndex(impacts, booking.value).Some? {
        var j := ImpactIndex(impacts, booking.value).value;
        var decided := impacts[j := impacts[j].(decision := Some(Applied))];
        AllDecided(decided);
        assert forall i :: 0 <= i < |impacts| && i != j ==> impacts[i].booking != booking.value;
        assert AllConfirmed(decided);
      }
    }
  }

  ghost predicate AllConfirmedBut(impacts: seq<Impact>, booking: Option<nat>) {
    forall i :: 0 <= i < |impacts| && impacts[i].impacted && Some(impacts[i].booking) != booking
      ==> impacts[i].decision == Some(Applied)
  }

  lemma {:induction false} SameIds(before: seq<Pending>, after: seq<Pending>, id: nat)
    requires |before| == |after| && forall i :: 0 <= i < |before| ==> after[i].id == before[i].id
    ensures IndexOf(after, id) == IndexOf(before, id)
  {
    if before != [] {
      SameIds(before[1..], after[1..], id);
    }
  }

  /**
   A whole-change decision does not read what single bookings decided: whatever decisions the change carries, the result
   is the same, and a confirmation sets exactly its field to the proposal even when a booking was already rejected.
   */
  lemma WholeConfirmOverridesBookings(s: State, id: nat, decision: Outcome, others: seq<Impact>)
    requires HasTimes(s.values) && IndexOf(s.pending, id).Some?
    ensures var k := IndexOf(s.pending, id).value;
      var decided := s.(pending := s.pending[k := s.pending[k].(impacts := others)]);
      ResolveChange(decided, id, decision, None) == ResolveChange(s, id, decision, None)
    ensures var change, r := s.pending[IndexOf(s.pending, id).value], ResolveChange(s, id, Applied, None);
      && (r.Done? <==> Editable(s.status) && ScheduleOk(s.values, map[change.field := change.proposed]))
      && (r.Done? && change.field in s.values ==> r.state.values == s.values[change.field := change.proposed])
  {
    var k := IndexOf(s.pending, id).value;
    var change := s.pending[k];
    var decided := s.pending[k := change.(impacts := others)];
    SameIds(s.pending, decided, id);
    assert decided[..k] == s.pending[..k] && decided[k + 1..] == s.pending[k + 1..];
    assert change.field in [change.field];
  }

  /** A rejection, of a whole change or of its last booking, leaves every value of the event as it was. */
  lemma RejectionChangesNothing(s: State, id: nat, booking: Option<nat>)
    requires HasTimes(s.values) && ResolveChange(s, id, Outcome.Rejected, booking).Done?
    ensures ResolveChange(s, id, Outcome.Rejected, booking).state.values == s.values
  {
    if booking.Some? {
      var k := IndexOf(s.pending, id).value;
      var impacts := s.pending[k].impacts;
      var j := ImpactIndex(impacts, booking.value).value;
      var decided := impacts[j := impacts[j].(decision := Some(Outcome.Rejected))];
      assert decided[j].decision == Some(Outcome.Rejected) && decided[j].impacted;
      assert !AllConfirmed(decided);
    }
  }
}
