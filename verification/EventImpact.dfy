/**
 Which event changes affect an existing arrangement (backend/src/events/planning/helpers/event-impact.ts and the pure
 part of event-planning.service.ts), the edit conditions advertised for each field, and the form's own reading of those
 conditions (frontend/src/utils/planning.ts). Bookings are the active ones, equipment is the number of active lines.
 */
module EventImpact {
  import opened Wrappers

  datatype Field =
    | Name | Purpose | Description | StartDateTime | EndDateTime | ExpectedAttendance | Layout | Facilities
    | Accessibility | EquipmentNeeds

  /** Dates are instants: the source compares and checks them only after parsing. */
  datatype Value = Text(text: string) | Instant(at: int) | Count(count: int) | Choices(choices: seq<string>)

  type Values = map<Field, Value>

  predicate Fits(field: Field, value: Value) {
    match field
    case StartDateTime | EndDateTime => value.Instant?
    case ExpectedAttendance => value.Count?
    case Facilities | Accessibility => value.Choices?
    case _ => value.Text?
  }

  /** Every field present carries a value of its kind, and choice lists carry no duplicate. */
  ghost predicate WellTyped(values: Values) {
    forall f :: f in values ==> Fits(f, values[f]) && (values[f].Choices? ==> NoDuplicates(values[f].choices))
  }

  ghost predicate WholeEvent(event: Values) {
    WellTyped(event) && forall f: Field :: f in event
  }

  ghost predicate NoDuplicates<T>(s: seq<T>) {
    forall i, j :: 0 <= i < j < |s| ==> s[i] != s[j]
  }

  /** An active venue booking with the window it holds. */
  datatype Booking = Booking(id: nat, capacity: int, start: int, end: int)

  predicate NeedsReviewPolicy(field: Field) {
    field in {StartDateTime, EndDateTime, ExpectedAttendance, Layout, Facilities, EquipmentNeeds}
  }

  predicate IsTime(field: Field) {
    field == StartDateTime || field == EndDateTime
  }

  predicate HasTimes(event: Values) {
    && StartDateTime in event && event[StartDateTime].Instant?
    && EndDateTime in event && event[EndDateTime].Instant?
  }

  predicate WithinWindow(start: int, end: int, heldStart: int, heldEnd: int) {
    start < end && start >= heldStart && end <= heldEnd
  }

  function InstantOr(values: Values, field: Field, otherwise: int): int {
    if field in values && values[field].Instant? then values[field].at else otherwise
  }

  // ------------------------------------------------------------------ the server's rules

  /** A time field brings both edges of the update; the edge it leaves out keeps the booking's own value. */
  predicate MovesOut(patch: Values, booking: Booking) {
    && (StartDateTime in patch || EndDateTime in patch)
    && !WithinWindow(InstantOr(patch, StartDateTime, booking.start), InstantOr(patch, EndDateTime, booking.end),
                     booking.start, booking.end)
  }

  predicate AddsFacility(wanted: seq<string>, current: seq<string>) {
    exists i :: 0 <= i < |wanted| && wanted[i] !in current
  }

  predicate BookingImpacted(field: Field, patch: Values, event: Values, booking: Booking)
    requires field in patch && field in event && Fits(field, patch[field]) && Fits(field, event[field])
  {
    match field
    case StartDateTime => MovesOut(patch, booking)
    case EndDateTime => MovesOut(patch, booking)
    case ExpectedAttendance => patch[field].count > booking.capacity
    case Layout => true
    case Facilities => AddsFacility(patch[field].choices, event[field].choices)
    case _ => false
  }

  predicate EquipmentImpacted(field: Field, patch: Values, event: Values)
    requires HasTimes(event)
  {
    if field == EquipmentNeeds then true
    else if IsTime(field) then
      var start, end := event[StartDateTime].at, event[EndDateTime].at;
      !WithinWindow(InstantOr(patch, StartDateTime, start), InstantOr(patch, EndDateTime, end), start, end)
    else false
  }

  /** The server's verdict on one field of a patch: held back if some booking, or the equipment, objects. */
  predicate IsFlagged(field: Field, patch: Values, event: Values, bookings: seq<Booking>, equipment: nat)
    requires WholeEvent(event) && WellTyped(patch) && field in patch
  {
    && NeedsReviewPolicy(field)
    && ((exists i :: 0 <= i < |bookings| && BookingImpacted(field, patch, event, bookings[i]))
        || (equipment > 0 && EquipmentImpacted(field, patch, event)))
  }

  /** The merged schedule must end after it starts. */
  predicate ScheduleOk(event: Values, patch: Values)
    requires HasTimes(event)
  {
    (StartDateTime in patch || EndDateTime in patch) ==>
      InstantOr(patch, StartDateTime, event[StartDateTime].at) < InstantOr(patch, EndDateTime, event[EndDateTime].at)
  }

  // ------------------------------------------------------------------ the advertised conditions

  datatype Condition = Within(start: int, end: int) | MaxAttendance(max: int) | RemoveOnly

  datatype Mode = Direct | NeedsReview | Conditional(condition: Condition)

  function LatestStart(bookings: seq<Booking>): int
    requires bookings != []
  {
    if |bookings| == 1 then bookings[0].start
    else var rest := LatestStart(bookings[1..]); if bookings[0].start > rest then bookings[0].start else rest
  }

  function EarliestEnd(bookings: seq<Booking>): int
    requires bookings != []
  {
    if |bookings| == 1 then bookings[0].end
    else var rest := EarliestEnd(bookings[1..]); if bookings[0].end < rest then bookings[0].end else rest
  }

  function LeastCapacity(bookings: seq<Booking>): int
    requires bookings != []
  {
    if |bookings| == 1 then bookings[0].capacity
    else
      var rest := LeastCapacity(bookings[1..]);
      if bookings[0].capacity < rest then bookings[0].capacity else rest
  }

  /** Every window that must still cover the event: the bookings', and the event's own when equipment is held. */
  function Windows(event: Values, bookings: seq<Booking>, equipment: nat): seq<Booking>
    requires HasTimes(event)
  {
    bookings + if equipment > 0 then [Booking(0, 0, event[StartDateTime].at, event[EndDateTime].at)] else []
  }

  function FieldMode(field: Field, event: Values, bookings: seq<Booking>, equipment: nat): Mode
    requires HasTimes(event)
  {
    match field
    case StartDateTime => TimeMode(Windows(event, bookings, equipment))
    case EndDateTime => TimeMode(Windows(event, bookings, equipment))
    case ExpectedAttendance =>
      if bookings == [] then Direct else Conditional(MaxAttendance(LeastCapacity(bookings)))
    case Layout => if bookings == [] then Direct else NeedsReview
    case Facilities => if bookings == [] then Direct else Conditional(RemoveOnly)
    case EquipmentNeeds => if equipment == 0 then Direct else NeedsReview
    case _ => Direct
  }

  function TimeMode(windows: seq<Booking>): Mode {
    if windows == [] then Direct
    else if !(LatestStart(windows) < EarliestEnd(windows)) then NeedsReview
    else Conditional(Within(LatestStart(windows), EarliestEnd(windows)))
  }

  // ------------------------------------------------------------------ the form's reading of a condition

  datatype ConditionProposal = ConditionProposal(
    start: Option<int>,
    end: Option<int>,
    attendance: Option<int>,
    facilities: seq<string>,
    currentFacilities: seq<string>
  )

  predicate SatisfiesCondition(condition: Condition, proposal: ConditionProposal) {
    match condition
    case Within(start, end) =>
      && proposal.start.Some? && proposal.end.Some?
      && proposal.start.value < proposal.end.value
      && proposal.start.value >= start && proposal.end.value <= end
    case MaxAttendance(max) => proposal.attendance.Some? && proposal.attendance.value <= max
    case RemoveOnly =>
      forall i :: 0 <= i < |proposal.facilities| ==> proposal.facilities[i] in proposal.currentFacilities
  }

  // ------------------------------------------------------------------ extremes

  lemma {:induction false} LatestStartIsTheMaximum(bookings: seq<Booking>, t: int)
    requires bookings != []
    ensures t >= LatestStart(bookings) <==> forall i :: 0 <= i < |bookings| ==> t >= bookings[i].start
    ensures exists i :: 0 <= i < |bookings| && bookings[i].start == LatestStart(bookings)
  {
    if |bookings| > 1 {
      LatestStartIsTheMaximum(bookings[1..], t);
      var i :| 0 <= i < |bookings[1..]| && bookings[1..][i].start == LatestStart(bookings[1..]);
      assert bookings[i + 1] == bookings[1..][i];
      assert forall k :: 1 <= k < |bookings| ==> bookings[k] == bookings[1..][k - 1];
    }
  }

  lemma {:induction false} EarliestEndIsTheMinimum(bookings: seq<Booking>, t: int)
    requires bookings != []
    ensures t <= EarliestEnd(bookings) <==> forall i :: 0 <= i < |bookings| ==> t <= bookings[i].end
    ensures exists i :: 0 <= i < |bookings| && bookings[i].end == EarliestEnd(bookings)
  {
    if |bookings| > 1 {
      EarliestEndIsTheMinimum(bookings[1..], t);
      var i :| 0 <= i < |bookings[1..]| && bookings[1..][i].end == EarliestEnd(bookings[1..]);
      assert bookings[i + 1] == bookings[1..][i];
      assert forall k :: 1 <= k < |bookings| ==> bookings[k] == bookings[1..][k - 1];
    }
  }

  lemma {:induction false} LeastCapacityIsTheMinimum(bookings: seq<Booking>, n: int)
    requires bookings != []
    ensures n <= LeastCapacity(bookings) <==> forall i :: 0 <= i < |bookings| ==> n <= bookings[i].capacity
  {
    if |bookings| > 1 {
      LeastCapacityIsTheMinimum(bookings[1..], n);
      assert forall k :: 1 <= k < |bookings| ==> bookings[k] == bookings[1..][k - 1];
    }
  }

  // ------------------------------------------------------------------ conditions agree with the rules

  /** The move an update makes, as every window sees it: an edge left out keeps that window's own edge. */
  ghost predicate FitsEveryWindow(patch: Values, windows: seq<Booking>) {
    forall i :: 0 <= i < |windows| ==>
      WithinWindow(InstantOr(patch, StartDateTime, windows[i].start), InstantOr(patch, EndDateTime, windows[i].end),
                   windows[i].start, windows[i].end)
  }

  /** A time change is held back exactly when some window that must cover the event does not. */
  lemma TimeFlagMeansOutside(field: Field, patch: Values, event: Values, bookings: seq<Booking>, equipment: nat)
    requires WholeEvent(event) && WellTyped(patch) && IsTime(field) && field in patch
    ensures IsFlagged(field, patch, event, bookings, equipment)
      <==> !FitsEveryWindow(patch, Windows(event, bookings, equipment))
  {
    var windows := Windows(event, bookings, equipment);
    assert forall i :: 0 <= i < |bookings| ==> windows[i] == bookings[i];
    if equipment > 0 {
      assert windows[|bookings|] == Booking(0, 0, event[StartDateTime].at, event[EndDateTime].at);
    }
    if !FitsEveryWindow(patch, windows) {
      var i :| 0 <= i < |windows| && !WithinWindow(InstantOr(patch, StartDateTime, windows[i].start),
        InstantOr(patch, EndDateTime, windows[i].end), windows[i].start, windows[i].end);
      assert i < |bookings| ==> BookingImpacted(field, patch, event, bookings[i]);
    }
  }

  /** The two time fields of one update are always held back together or applied together. */
  lemma TimesClassifiedAlike(patch: Values, event: Values, bookings: seq<Booking>, equipment: nat)
    requires WholeEvent(event) && WellTyped(patch) && StartDateTime in patch && EndDateTime in patch
    ensures IsFlagged(StartDateTime, patch, event, bookings, equipment)
      <==> IsFlagged(EndDateTime, patch, event, bookings, equipment)
  {
    TimeFlagMeansOutside(StartDateTime, patch, event, bookings, equipment);
    TimeFlagMeansOutside(EndDateTime, patch, event, bookings, equipment);
  }

  lemma MoveFitsCommonWindow(patch: Values, windows: seq<Booking>)
    requires windows != [] && StartDateTime in patch && patch[StartDateTime].Instant?
    requires EndDateTime in patch && patch[EndDateTime].Instant?
    ensures FitsEveryWindow(patch, windows) <==>
      WithinWindow(patch[StartDateTime].at, patch[EndDateTime].at, LatestStart(windows), EarliestEnd(windows))
  {
    LatestStartIsTheMaximum(windows, patch[StartDateTime].at);
    EarliestEndIsTheMinimum(windows, patch[EndDateTime].at);
    if FitsEveryWindow(patch, windows) {
      assert WithinWindow(patch[StartDateTime].at, patch[EndDateTime].at, windows[0].start, windows[0].end);
    }
  }

  /** Windows without a common interval fit no update at all, whichever edges it moves. */
  lemma NoCommonWindowFitsNothing(patch: Values, windows: seq<Booking>)
    requires windows != [] && LatestStart(windows) >= EarliestEnd(windows)
    requires exists f :: IsTime(f) && f in patch && patch[f].Instant?
    requires WellTyped(patch)
    ensures !FitsEveryWindow(patch, windows)
  {
    LatestStartIsTheMaximum(windows, 0);
    EarliestEndIsTheMinimum(windows, 0);
    var i :| 0 <= i < |windows| && windows[i].start == LatestStart(windows);
    var j :| 0 <= j < |windows| && windows[j].end == EarliestEnd(windows);
    var start, end := InstantOr(patch, StartDateTime, windows[i].start), InstantOr(patch, EndDateTime, windows[j].end);
    assert StartDateTime !in patch ==> EndDateTime in patch;
    assert !(start >= windows[i].start && start < end && end <= windows[j].end);
  }

  ghost function FormProposal(start: int, end: int, patch: Values, event: Values): ConditionProposal
    requires WholeEvent(event) && WellTyped(patch)
  {
    ConditionProposal(
      Some(start), Some(end),
      if ExpectedAttendance in patch then Some(patch[ExpectedAttendance].count) else None,
      if Facilities in patch then patch[Facilities].choices else [],
      event[Facilities].choices)
  }

  /** Agreement of one advertised mode with what saving the change will do. */
  ghost predicate ModeIsHonest(field: Field, patch: Values, event: Values, bookings: seq<Booking>, equipment: nat,
                               proposal: ConditionProposal)
    requires WholeEvent(event) && WellTyped(patch) && field in patch
  {
    match FieldMode(field, event, bookings, equipment)
    case Direct => !IsFlagged(field, patch, event, bookings, equipment)
    case NeedsReview => IsFlagged(field, patch, event, bookings, equipment)
    case Conditional(condition) =>
      SatisfiesCondition(condition, proposal) <==> !IsFlagged(field, patch, event, bookings, equipment)
  }

  /**
   Every advertised mode is honest for every field but a half-moved time: a field shown as direct is never held back,
   one shown as needing review always is, and a condition holds exactly when saving applies the change at once.
   */
  lemma ModesAreHonest(field: Field, patch: Values, event: Values, bookings: seq<Booking>, equipment: nat)
    requires WholeEvent(event) && WellTyped(patch) && field in patch
    requires IsTime(field) ==> StartDateTime in patch && EndDateTime in patch
    ensures ModeIsHonest(field, patch, event, bookings, equipment,
      FormProposal(InstantOr(patch, StartDateTime, 0), InstantOr(patch, EndDateTime, 0), patch, event))
  {
    if IsTime(field) {
      var windows := Windows(event, bookings, equipment);
      TimeFlagMeansOutside(field, patch, event, bookings, equipment);
      if windows != [] {
        MoveFitsCommonWindow(patch, windows);
      }
    } else if field == ExpectedAttendance && bookings != [] {
      LeastCapacityIsTheMinimum(bookings, patch[field].count);
      if patch[field].count > LeastCapacity(bookings) {
        var i :| 0 <= i < |bookings| && patch[field].count > bookings[i].capacity;
        assert BookingImpacted(field, patch, event, bookings[i]);
      }
    } else if bookings != [] {
      assert BookingImpacted(field, patch, event, bookings[0]) || field != Layout;
      if field == Facilities && AddsFacility(patch[field].choices, event[field].choices) {
        assert BookingImpacted(field, patch, event, bookings[0]);
      }
    }
  }

  /**
   When only the start moves, the form fills the other edge from the event while the server keeps each booking's own
   end. The form's verdict is the server's exactly when the event ends within every window.
   */
  lemma HalfMovedStart(patch: Values, event: Values, bookings: seq<Booking>, equipment: nat)
    requires WholeEvent(event) && WellTyped(patch) && StartDateTime in patch && EndDateTime !in patch
    requires ScheduleOk(event, patch)
    requires FieldMode(StartDateTime, event, bookings, equipment).Conditional?
    ensures var condition := FieldMode(StartDateTime, event, bookings, equipment).condition;
      var end := event[EndDateTime].at;
      SatisfiesCondition(condition, FormProposal(patch[StartDateTime].at, end, patch, event)) <==>
        && !IsFlagged(StartDateTime, patch, event, bookings, equipment)
        && end <= EarliestEnd(Windows(event, bookings, equipment))
  {
    var windows, start, end := Windows(event, bookings, equipment), patch[StartDateTime].at, event[EndDateTime].at;
    TimeFlagMeansOutside(StartDateTime, patch, event, bookings, equipment);
    LatestStartIsTheMaximum(windows, start);
    EarliestEndIsTheMinimum(windows, end);
    EarliestEndIsTheMinimum(windows, start + 1);
  }

  lemma HalfMovedEnd(patch: Values, event: Values, bookings: seq<Booking>, equipment: nat)
    requires WholeEvent(event) && WellTyped(patch) && EndDateTime in patch && StartDateTime !in patch
    requires ScheduleOk(event, patch)
    requires FieldMode(EndDateTime, event, bookings, equipment).Conditional?
    ensures var condition := FieldMode(EndDateTime, event, bookings, equipment).condition;
      var start := event[StartDateTime].at;
      SatisfiesCondition(condition, FormProposal(start, patch[EndDateTime].at, patch, event)) <==>
        && !IsFlagged(EndDateTime, patch, event, bookings, equipment)
        && start >= LatestStart(Windows(event, bookings, equipment))
  {
    var windows, start, end := Windows(event, bookings, equipment), event[StartDateTime].at, patch[EndDateTime].at;
    TimeFlagMeansOutside(EndDateTime, patch, event, bookings, equipment);
    LatestStartIsTheMaximum(windows, start);
    EarliestEndIsTheMinimum(windows, end);
    LatestStartIsTheMaximum(windows, end - 1);
  }

  /** The gap is real: an event that outlasts its booking may move its start inside the booking, against the form. */
  lemma FormAndServerDisagree(event: Values, patch: Values)
    requires WholeEvent(event) && event[StartDateTime] == Instant(0) && event[EndDateTime] == Instant(10)
    requires patch == map[StartDateTime := Instant(2)]
    ensures var bookings := [Booking(1, 100, 0, 8)];
      && !IsFlagged(StartDateTime, patch, event, bookings, 0)
      && FieldMode(StartDateTime, event, bookings, 0) == Conditional(Within(0, 8))
      && !SatisfiesCondition(Within(0, 8), FormProposal(2, 10, patch, event))
  {
    TimeFlagMeansOutside(StartDateTime, patch, event, [Booking(1, 100, 0, 8)], 0);
    assert [Booking(1, 100, 0, 8)] + [] == [Booking(1, 100, 0, 8)];
  }

  /** The disjoint-window case also holds for half-moved times: shown as needing review, always held back. */
  lemma DisjointWindowsAlwaysReview(field: Field, patch: Values, event: Values, bookings: seq<Booking>, equipment: nat)
    requires WholeEvent(event) && WellTyped(patch) && IsTime(field) && field in patch
    ensures FieldMode(field, event, bookings, equipment) == NeedsReview
      ==> IsFlagged(field, patch, event, bookings, equipment)
    ensures FieldMode(field, event, bookings, equipment) == Direct
      ==> !IsFlagged(field, patch, event, bookings, equipment)
  {
    var windows := Windows(event, bookings, equipment);
    TimeFlagMeansOutside(field, patch, event, bookings, equipment);
    if windows != [] && LatestStart(windows) >= EarliestEnd(windows) {
      NoCommonWindowFitsNothing(patch, windows);
    }
  }
}
