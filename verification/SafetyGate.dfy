/**
 The lifecycle of one event around its safety check: the status changes and their history
 (backend/src/events/status/status.service.ts, backend/src/events/events.service.ts), the Safety Officer's response
 (backend/src/events/safety-officer/safety-officer.service.ts) and the database triggers that reset a check when an
 arrangement changes (database/postgresql/init/003_functions_triggers.sql). Row changes by venue and technical staff are
 arbitrary, within what those services write.
 */
module SafetyGate {
  import opened Wrappers
  import opened EventTypes
  import opened Lists
  import opened Arrangements
  import Readiness
  import Checklist

  datatype Safety = Awaiting | Cleared | ChangesNeeded | TurnedDown

  /** One feedback item and the arrangements it sends back for review. */
  datatype Feedback = Feedback(venues: set<nat>, lines: set<nat>, resolved: bool)

  /** The detail columns, up to whether they list any equipment. */
  datatype Details = Details(text: int, needsEquipment: bool)

  datatype Change = Change(from: EventStatus, to: EventStatus)

  /** `blocked` are the bookings whose venue an unavailable period overlaps; it is derived, not stored on the row. */
  datatype State = State(
    status: EventStatus,
    details: Details,
    bookings: seq<Booking>,
    lines: seq<Line>,
    blocked: set<nat>,
    noneConfirmedAt: Option<int>,
    registration: Checklist.Registration,
    safety: Option<Safety>,
    feedback: seq<Feedback>,
    history: seq<Change>
  )

  datatype Refusal =
    | NotSubmitted | NotApproved | NotPlanning | NotConfirmed | NotEnded | NotCancellable | Blocked | EquipmentRequired
    | PrerequisitesNotMet | CheckPending | CheckApproved | FeedbackUnresolved | NotAwaitingCheck | ArrangementGone
    | InvalidResponse | NotResolvable | FeedbackNotFound | NotWritten | NotOpen

  datatype Result = Done(state: State) | Refused(reason: Refusal)

  // ------------------------------------------------------------------ the triggers

  /** What every trigger does once it fires: the safety record and its feedback items are gone. */
  function ResetCheck(s: State): State {
    s.(safety := None, feedback := [])
  }

  predicate UnderReview(safety: Option<Safety>) {
    safety == Some(ChangesNeeded) || safety == Some(TurnedDown)
  }

  predicate VenueFlagged(s: State, id: nat) {
    UnderReview(s.safety) && exists k :: 0 <= k < |s.feedback| && id in s.feedback[k].venues
  }

  predicate LineFlagged(s: State, id: nat) {
    UnderReview(s.safety) && exists k :: 0 <= k < |s.feedback| && id in s.feedback[k].lines
  }

  function BookingUpdated(s: State, i: nat, b: Booking): State
    requires i < |s.bookings|
  {
    var was, next := s.bookings[i], s.(bookings := s.bookings[i := b]);
    if b.status == Released && was.status != Released then next
    else if VenueFlagged(s, was.id) then next
    else if b != was then ResetCheck(next)
    else next
  }

  function LineUpdated(s: State, i: nat, line: Line): State
    requires i < |s.lines|
  {
    var was, next := s.lines[i], s.(lines := s.lines[i := line]);
    if line.status == LineReleased && was.status != LineReleased then next
    else if LineFlagged(s, was.id) then next
    else if line != was then ResetCheck(next)
    else next
  }

  function DetailsUpdated(s: State, details: Details): State {
    if details != s.details then ResetCheck(s.(details := details)) else s
  }

  // ------------------------------------------------------------------ reading the arrangements

  /** The bookings as the arrangements reader returns them. */
  function Facts(s: State): seq<Booking> {
    Map(s.bookings, (b: Booking) => b.(unavailable := b.id in s.blocked))
  }

  const NO_REGISTRATION: Checklist.Registration := Checklist.RegistrationWindow(false, None, None)

  predicate MayRequestCheck(s: State, r: Checklist.Registration, now: int) {
    Checklist.CanRequestSafetyCheck(Facts(s), s.lines, s.noneConfirmedAt, r, 0, now)
  }

  function ReadinessOf(safety: Option<Safety>): Option<Readiness.SafetyState> {
    match safety
    case None => None
    case Some(Awaiting) => Some(Readiness.AwaitingCheck)
    case Some(Cleared) => Some(Readiness.SafetyApproved)
    case Some(ChangesNeeded) => Some(Readiness.ChangesRequested)
    case Some(TurnedDown) => Some(Readiness.SafetyRejected)
  }

  function SnapshotOf(s: State): Readiness.Snapshot {
    Readiness.Snapshot(Facts(s), s.lines, ReadinessOf(s.safety), s.noneConfirmedAt.Some?)
  }

  // ------------------------------------------------------------------ status changes

  function Move(s: State, to: EventStatus): State {
    s.(status := to, history := s.history + [Change(s.status, to)])
  }

  function ApproveEvent(s: State): Result {
    if s.status != EventStatus.Submitted then Refused(NotSubmitted) else Done(s.(status := EventStatus.Approved))
  }

  function RejectEvent(s: State): Result {
    if s.status != EventStatus.Submitted then Refused(NotSubmitted) else Done(s.(status := EventStatus.Rejected))
  }

  /** The compare-and-set shared by venue requests, hold requests and equipment submissions. */
  function StartPlanning(s: State): Result {
    if s.status != EventStatus.Approved then Refused(NotApproved) else Done(Move(s, EventStatus.Planning))
  }

  function Confirm(s: State, now: int): Result {
    if s.status != EventStatus.Planning then Refused(NotPlanning)
    else if Readiness.OutstandingItems(SnapshotOf(s), now) != [] then Refused(Blocked)
    else Done(Move(s, EventStatus.Confirmed))
  }

  function Complete(s: State, ended: bool): Result {
    if s.status != EventStatus.Confirmed then Refused(NotConfirmed)
    else if !ended then Refused(NotEnded)
    else Done(Move(s, EventStatus.Completed))
  }

  function ReleasedBooking(b: Booking): Booking {
    if b.status == BookingStatus.Approved || b.status == BookingStatus.Pending then b.(status := Released) else b
  }

  /** Releases every approved and pending booking and every live equipment line; the safety record stays. */
  function Cancel(s: State): Result {
    if !IsCancellable(s.status) then Refused(NotCancellable)
    else
      var bookings := Map(s.bookings, (b: Booking) => ReleasedBooking(b));
      var lines := Map(s.lines, (line: Line) =>
        if line.status in {LineRequested, LineReserved, LineUnavailable} then line.(status := LineReleased) else line);
      Done(Move(s, EventStatus.Cancelled).(bookings := bookings, lines := lines))
  }

  /** An approved change request edits the details and sends a Confirmed event back to Planning. */
  function ApproveChangeRequest(s: State, details: Details): Result {
    if s.status !in {EventStatus.Submitted, EventStatus.Approved, EventStatus.Planning, EventStatus.Confirmed}
    then Refused(NotOpen)
    else
      var edited := DetailsUpdated(s, details);
      Done(if s.status == EventStatus.Confirmed then Move(edited, EventStatus.Planning) else edited)
  }

  // ------------------------------------------------------------------ the safety check

  function ConfirmNoEquipment(s: State, now: int): Result {
    if s.status != EventStatus.Planning then Refused(NotPlanning)
    else if s.details.needsEquipment || ActiveLines(s.lines) != [] then Refused(EquipmentRequired)
    else Done(s.(noneConfirmedAt := if s.noneConfirmedAt.Some? then s.noneConfirmedAt else Some(now)))
  }

  predicate AllResolved(feedback: seq<Feedback>) {
    forall k :: 0 <= k < |feedback| ==> feedback[k].resolved
  }

  function RequestSafetyCheck(s: State, now: int): Result {
    if s.status != EventStatus.Planning then Refused(NotPlanning)
    else if !MayRequestCheck(s, s.registration, now) then Refused(PrerequisitesNotMet)
    else if s.safety == Some(Awaiting) then Refused(CheckPending)
    else if s.safety == Some(Cleared) then Refused(CheckApproved)
    else if UnderReview(s.safety) && !AllResolved(s.feedback) then Refused(FeedbackUnresolved)
    else Done(s.(safety := Some(Awaiting), feedback := []))
  }

  function ResolveFeedback(s: State, k: nat, resolved: bool): Result {
    if s.status != EventStatus.Planning then Refused(NotPlanning)
    else if !UnderReview(s.safety) then Refused(NotResolvable)
    else if k >= |s.feedback| then Refused(FeedbackNotFound)
    else Done(s.(feedback := s.feedback[k := s.feedback[k].(resolved := resolved)]))
  }

  /** The ordinary approved bookings and the reserved lines, which a response may send back. */
  function ReviewableVenues(bookings: seq<Booking>): set<nat> {
    set i | 0 <= i < |bookings| && bookings[i].status == BookingStatus.Approved && !bookings[i].tentative
      :: bookings[i].id
  }

  function ReviewableLines(lines: seq<Line>): set<nat> {
    set i | 0 <= i < |lines| && lines[i].status == LineReserved :: lines[i].id
  }

  predicate SelectsSomething(item: Feedback) {
    item.venues != {} || item.lines != {}
  }

  predicate SelectsReviewable(s: State, item: Feedback) {
    item.venues <= ReviewableVenues(s.bookings) && item.lines <= ReviewableLines(s.lines)
  }

  predicate InVenues(feedback: seq<Feedback>, id: nat) {
    exists k :: 0 <= k < |feedback| && id in feedback[k].venues
  }

  predicate InLines(feedback: seq<Feedback>, id: nat) {
    exists k :: 0 <= k < |feedback| && id in feedback[k].lines
  }

  function SentBack(b: Booking, feedback: seq<Feedback>): Booking {
    if InVenues(feedback, b.id) && b.status == BookingStatus.Approved then b.(status := BookingStatus.Pending) else b
  }

  function LineSentBack(line: Line, feedback: seq<Feedback>): Line {
    if InLines(feedback, line.id) && line.status == LineReserved then line.(status := LineRequested) else line
  }

  /** A rejection selects every reviewable arrangement; a change request brings its own selections, all open. */
  function ResponseFeedback(s: State, decision: Safety, items: seq<Feedback>): seq<Feedback> {
    if decision == TurnedDown then [Feedback(ReviewableVenues(s.bookings), ReviewableLines(s.lines), false)]
    else if decision == ChangesNeeded then Map(items, (item: Feedback) => item.(resolved := false))
    else []
  }

  /** Why a response is refused, in the order the checks are made. */
  function ResponseRefusal(s: State, decision: Safety, items: seq<Feedback>, now: int): Option<Refusal> {
    if decision == Awaiting then Some(InvalidResponse)
    else if decision == ChangesNeeded
            && (items == [] || exists k :: 0 <= k < |items| && !SelectsSomething(items[k]))
    then Some(InvalidResponse)
    else if s.status != EventStatus.Planning then Some(NotAwaitingCheck)
    else if !MayRequestCheck(s, NO_REGISTRATION, now) then Some(NotAwaitingCheck)
    else if s.safety != Some(Awaiting) then Some(NotAwaitingCheck)
    else if decision == ChangesNeeded && exists k :: 0 <= k < |items| && !SelectsReviewable(s, items[k])
    then Some(ArrangementGone)
    else None
  }

  /** The record, its feedback items, and the rows those send back. */
  function Responded(s: State, decision: Safety, added: seq<Feedback>): State {
    s.(safety := Some(decision),
       feedback := s.feedback + added,
       bookings := Map(s.bookings, (b: Booking) => SentBack(b, added)),
       lines := Map(s.lines, (line: Line) => LineSentBack(line, added)))
  }

  function Respond(s: State, decision: Safety, items: seq<Feedback>, now: int): Result {
    var refusal := ResponseRefusal(s, decision, items, now);
    if refusal.Some? then Refused(refusal.value)
    else Done(Responded(s, decision, ResponseFeedback(s, decision, items)))
  }

  // ------------------------------------------------------------------ every operation

  datatype Op =
    | ApproveOp | RejectOp | StartPlanningOp
    | ConfirmOp(now: int)
    | CompleteOp(ended: bool)
    | CancelOp
    | ApproveChangeOp(details: Details)
    | ConfirmNoneOp(now: int)
    | RequestCheckOp(now: int)
    | RespondOp(decision: Safety, items: seq<Feedback>, now: int)
    | ResolveFeedbackOp(item: nat, resolved: bool)
    | InsertBooking(booking: Booking)
    | UpdateBooking(row: nat, booking: Booking)
    | DeleteBooking(row: nat)
    | InsertLine(line: Line)
    | UpdateLine(row: nat, line: Line)
    | DeleteLine(row: nat)
    | EditDetails(details: Details, freesLines: bool)
    | BlockVenues(blocked: set<nat>)
    | ConfigureRegistration(registration: Checklist.Registration)

  /**
   On a live event only an approved tentative hold is released row by row; a hold may be converted to an ordinary
   booking, never the other way.
   */
  predicate MayWrite(was: Booking, b: Booking) {
    && b.id == was.id && (b.tentative ==> was.tentative)
    && (b.status == Released && was.status != Released ==> was.tentative && was.status == BookingStatus.Approved)
  }

  function FreeLines(s: State): State {
    s.(lines := Map(s.lines, (line: Line) =>
      if line.status == LineReserved then line.(status := LineReleased) else line))
  }

  function Apply(s: State, op: Op): Result {
    match op
    case ApproveOp => ApproveEvent(s)
    case RejectOp => RejectEvent(s)
    case StartPlanningOp => StartPlanning(s)
    case ConfirmOp(now) => Confirm(s, now)
    case CompleteOp(ended) => Complete(s, ended)
    case CancelOp => Cancel(s)
    case ApproveChangeOp(details) => ApproveChangeRequest(s, details)
    case ConfirmNoneOp(now) => ConfirmNoEquipment(s, now)
    case RequestCheckOp(now) => RequestSafetyCheck(s, now)
    case RespondOp(decision, items, now) => Respond(s, decision, items, now)
    case ResolveFeedbackOp(k, resolved) => ResolveFeedback(s, k, resolved)
    case InsertBooking(b) =>
      if exists i :: 0 <= i < |s.bookings| && s.bookings[i].id == b.id then Refused(NotWritten)
      else Done(ResetCheck(s.(bookings := s.bookings + [b])))
    case UpdateBooking(i, b) =>
      if i >= |s.bookings| || !MayWrite(s.bookings[i], b) then Refused(NotWritten) else Done(BookingUpdated(s, i, b))
    case DeleteBooking(i) =>
      if i >= |s.bookings| then Refused(NotWritten) else Done(ResetCheck(s.(bookings := Without(s.bookings, i))))
    case InsertLine(line) => Done(ResetCheck(s.(lines := s.lines + [line])))
    case UpdateLine(i, line) =>
      if i >= |s.lines| || line.id != s.lines[i].id
         || (line.status == LineReleased && s.lines[i].status != LineReleased)
      then Refused(NotWritten)
      else Done(LineUpdated(s, i, line))
    case DeleteLine(i) =>
      if i >= |s.lines| then Refused(NotWritten) else Done(ResetCheck(s.(lines := Without(s.lines, i))))
    case EditDetails(details, freesLines) =>
      if s.status !in {EventStatus.Approved, EventStatus.Planning} || (freesLines && details == s.details)
      then Refused(NotWritten)
      else Done(if freesLines then FreeLines(DetailsUpdated(s, details)) else DetailsUpdated(s, details))
    case BlockVenues(blocked) => Done(s.(blocked := blocked))
    case ConfigureRegistration(r) => Done(s.(registration := r))
  }

  function Step(s: State, op: Op): State {
    if Apply(s, op).Done? then Apply(s, op).state else s
  }

  function Run(s: State, ops: seq<Op>): State
    decreases |ops|
  {
    if ops == [] then s else Run(Step(s, ops[0]), ops[1..])
  }

  // ------------------------------------------------------------------ a check covers the arrangements it was asked for

  /** What the last accepted request was made for: kept beside the state, for the proofs only. */
  datatype Checked = Checked(details: Details, bookings: seq<Booking>, lines: seq<Line>)

  datatype World = World(state: State, checked: Option<Checked>)

  function StepWorld(w: World, op: Op): World {
    var next := Step(w.state, op);
    World(next, if op.RequestCheckOp? && Apply(w.state, op).Done?
                then Some(Checked(next.details, next.bookings, next.lines)) else w.checked)
  }

  function RunWorld(w: World, ops: seq<Op>): World
    decreases |ops|
  {
    if ops == [] then w else RunWorld(StepWorld(w, ops[0]), ops[1..])
  }

  predicate Stands(safety: Option<Safety>) {
    safety == Some(Awaiting) || safety == Some(Cleared)
  }

  ghost predicate NoHolds(bookings: seq<Booking>) {
    forall i :: 0 <= i < |bookings| ==> !(bookings[i].tentative && bookings[i].status == BookingStatus.Approved)
  }

  ghost predicate SomeActive(bookings: seq<Booking>) {
    exists i :: 0 <= i < |bookings| && IsActive(bookings[i])
  }

  /** A standing check and the recorded arrangements agree; no hold is among them. */
  ghost predicate CheckIsFresh(w: World) {
    var s := w.state;
    Stands(s.safety) && s.status != EventStatus.Cancelled ==>
      && w.checked == Some(Checked(s.details, s.bookings, s.lines))
      && NoHolds(s.bookings) && SomeActive(s.bookings) && s.feedback == []
  }

  lemma FactsIndex(s: State, i: nat)
    requires i < |s.bookings|
    ensures |Facts(s)| == |s.bookings|
    ensures Facts(s)[i] == s.bookings[i].(unavailable := s.bookings[i].id in s.blocked)
  {
    MapIndex(s.bookings, (b: Booking) => b.(unavailable := b.id in s.blocked), i);
  }

  lemma ActiveFactsAreRows(s: State, i: nat)
    requires i < |s.bookings|
    ensures Facts(s)[i] in ActiveBookings(Facts(s)) <==> IsActive(s.bookings[i])
  {
    FactsIndex(s, i);
    FilterContains(Facts(s), (b: Booking) => IsActive(b), Facts(s)[i]);
  }

  /** A request is accepted only over arrangements with an active booking and no hold among them. */
  lemma RequestIsOverRealBookings(s: State, r: Checklist.Registration, now: int)
    requires MayRequestCheck(s, r, now)
    ensures NoHolds(s.bookings) && SomeActive(s.bookings)
  {
    Checklist.VenueConfirmedMeans(Facts(s), now);
    var active := ActiveBookings(Facts(s));
    forall i | 0 <= i < |s.bookings|
      ensures !(s.bookings[i].tentative && s.bookings[i].status == BookingStatus.Approved)
    {
      FactsIndex(s, i);
      ActiveFactsAreRows(s, i);
      assert IsActive(s.bookings[i]) ==> Readiness.IsResolved(Facts(s)[i], active);
    }
    FilterContains(Facts(s), (b: Booking) => IsActive(b), active[0]);
    assert active[0] in Facts(s);
    var i :| 0 <= i < |Facts(s)| && Facts(s)[i] == active[0];
    FactsIndex(s, 0);
    ActiveFactsAreRows(s, i);
  }

  lemma {:induction false} NothingSentBack(bookings: seq<Booking>)
    ensures Map(bookings, (b: Booking) => SentBack(b, [])) == bookings
  {
    forall i | 0 <= i < |bookings| ensures Map(bookings, (b: Booking) => SentBack(b, []))[i] == bookings[i] {
      MapIndex(bookings, (b: Booking) => SentBack(b, []), i);
    }
  }

  lemma {:induction false} NoLineSentBack(lines: seq<Line>)
    ensures Map(lines, (line: Line) => LineSentBack(line, [])) == lines
  {
    forall i | 0 <= i < |lines| ensures Map(lines, (line: Line) => LineSentBack(line, []))[i] == lines[i] {
      MapIndex(lines, (line: Line) => LineSentBack(line, []), i);
    }
  }

  lemma ResponseKeepsFresh(w: World, decision: Safety, items: seq<Feedback>, now: int)
    requires CheckIsFresh(w)
    ensures CheckIsFresh(StepWorld(w, RespondOp(decision, items, now)))
  {
    NothingSentBack(w.state.bookings);
    NoLineSentBack(w.state.lines);
  }

  lemma UpdateBookingKeepsFresh(w: World, i: nat, b: Booking)
    requires CheckIsFresh(w) && i < |w.state.bookings| && MayWrite(w.state.bookings[i], b)
    ensures CheckIsFresh(w.(state := BookingUpdated(w.state, i, b)))
  {
    assert b == w.state.bookings[i] ==> w.state.bookings[i := b] == w.state.bookings;
  }

  lemma UpdateLineKeepsFresh(w: World, i: nat, line: Line)
    requires CheckIsFresh(w) && i < |w.state.lines|
    requires line.status == LineReleased ==> w.state.lines[i].status == LineReleased
    ensures CheckIsFresh(w.(state := LineUpdated(w.state, i, line)))
  {
    assert line == w.state.lines[i] ==> w.state.lines[i := line] == w.state.lines;
  }

  /** The other operations reset a standing check, end with it, or leave it and everything it covers alone. */
  lemma OthersLeaveTheCheck(s: State, op: Op)
    requires !op.RequestCheckOp? && !op.RespondOp? && !op.UpdateBooking? && !op.UpdateLine?
    ensures var after := Step(s, op);
      Stands(after.safety) && after.status != EventStatus.Cancelled ==>
        && s.status != EventStatus.Cancelled && after.safety == s.safety && after.feedback == s.feedback
        && after.details == s.details && after.bookings == s.bookings && after.lines == s.lines
  {
  }

  lemma StepKeepsFresh(w: World, op: Op)
    requires CheckIsFresh(w)
    ensures CheckIsFresh(StepWorld(w, op))
  {
    match op
    case RequestCheckOp(now) =>
      if Apply(w.state, op).Done? {
        RequestIsOverRealBookings(w.state, w.state.registration, now);
      }
    case RespondOp(decision, items, now) => ResponseKeepsFresh(w, decision, items, now);
    case UpdateBooking(i, b) => if Apply(w.state, op).Done? { UpdateBookingKeepsFresh(w, i, b); }
    case UpdateLine(i, line) => if Apply(w.state, op).Done? { UpdateLineKeepsFresh(w, i, line); }
    case _ => OthersLeaveTheCheck(w.state, op);
  }

  /** The freshness of a standing check survives every run. */
  lemma {:induction false} StandingCheckIsFresh(w: World, ops: seq<Op>)
    requires CheckIsFresh(w)
    ensures CheckIsFresh(RunWorld(w, ops))
    decreases |ops|
  {
    if ops != [] {
      StepKeepsFresh(w, ops[0]);
      StandingCheckIsFresh(StepWorld(w, ops[0]), ops[1..]);
    }
  }

  // ------------------------------------------------------------------ no hold beside a safety record

  ghost predicate DistinctIds(bookings: seq<Booking>) {
    forall i, j :: 0 <= i < j < |bookings| ==> bookings[i].id != bookings[j].id
  }

  /** What feedback selects among the bookings are ordinary ones. */
  ghost predicate FlagsAreOrdinary(bookings: seq<Booking>, feedback: seq<Feedback>) {
    forall i :: 0 <= i < |bookings| && InVenues(feedback, bookings[i].id) ==> !bookings[i].tentative
  }

  /** While a safety record exists, whatever its verdict, no approved tentative hold does. */
  ghost predicate NoHoldUnderCheck(s: State) {
    && DistinctIds(s.bookings)
    && (s.safety.Some? ==> NoHolds(s.bookings) && FlagsAreOrdinary(s.bookings, s.feedback))
  }

  lemma SelectedIsOrdinary(s: State, decision: Safety, items: seq<Feedback>, i: nat)
    requires DistinctIds(s.bookings) && i < |s.bookings|
    requires decision == ChangesNeeded ==> forall k :: 0 <= k < |items| ==> SelectsReviewable(s, items[k])
    requires InVenues(ResponseFeedback(s, decision, items), s.bookings[i].id)
    ensures !s.bookings[i].tentative
  {
    var feedback := ResponseFeedback(s, decision, items);
    var k :| 0 <= k < |feedback| && s.bookings[i].id in feedback[k].venues;
    if decision == ChangesNeeded {
      MapIndex(items, (item: Feedback) => item.(resolved := false), k);
    }
    assert s.bookings[i].id in ReviewableVenues(s.bookings);
  }

  lemma InEither(first: seq<Feedback>, second: seq<Feedback>, id: nat)
    ensures InVenues(first + second, id) ==> InVenues(first, id) || InVenues(second, id)
  {
    if InVenues(first + second, id) {
      var k :| 0 <= k < |first + second| && id in (first + second)[k].venues;
      assert k < |first| ==> id in first[k].venues;
      assert k >= |first| ==> id in second[k - |first|].venues;
    }
  }

  lemma RespondedKeepsHoldsOut(s: State, decision: Safety, added: seq<Feedback>)
    requires NoHoldUnderCheck(s) && s.safety.Some? && FlagsAreOrdinary(s.bookings, added)
    ensures NoHoldUnderCheck(Responded(s, decision, added))
  {
    var after := Responded(s, decision, added);
    MapIndexes(s.bookings, (b: Booking) => SentBack(b, added));
    assert forall i :: 0 <= i < |s.bookings| ==> after.bookings[i] == SentBack(s.bookings[i], added);
    forall i | 0 <= i < |after.bookings| && InVenues(after.feedback, after.bookings[i].id)
      ensures !after.bookings[i].tentative
    {
      InEither(s.feedback, added, s.bookings[i].id);
    }
  }

  lemma ResponseKeepsHoldsOut(s: State, decision: Safety, items: seq<Feedback>, now: int)
    requires NoHoldUnderCheck(s) && Respond(s, decision, items, now).Done?
    ensures NoHoldUnderCheck(Respond(s, decision, items, now).state)
  {
    var added := ResponseFeedback(s, decision, items);
    forall i | 0 <= i < |s.bookings| && InVenues(added, s.bookings[i].id) ensures !s.bookings[i].tentative {
      SelectedIsOrdinary(s, decision, items, i);
    }
    RespondedKeepsHoldsOut(s, decision, added);
  }

  lemma UpdateKeepsHoldsOut(s: State, i: nat, b: Booking)
    requires NoHoldUnderCheck(s) && i < |s.bookings| && MayWrite(s.bookings[i], b)
    ensures NoHoldUnderCheck(BookingUpdated(s, i, b))
  {
    assert VenueFlagged(s, b.id) ==> InVenues(s.feedback, b.id);
  }

  lemma ResolvingKeepsHoldsOut(s: State, k: nat, resolved: bool)
    requires NoHoldUnderCheck(s) && ResolveFeedback(s, k, resolved).Done?
    ensures NoHoldUnderCheck(ResolveFeedback(s, k, resolved).state)
  {
    var after := ResolveFeedback(s, k, resolved).state;
    forall i | 0 <= i < |after.bookings| && InVenues(after.feedback, after.bookings[i].id)
      ensures !after.bookings[i].tentative
    {
      var j :| 0 <= j < |after.feedback| && after.bookings[i].id in after.feedback[j].venues;
      assert s.bookings[i].id in s.feedback[j].venues;
    }
  }

  lemma CancelKeepsHoldsOut(s: State)
    requires NoHoldUnderCheck(s) && IsCancellable(s.status)
    ensures NoHoldUnderCheck(Cancel(s).state)
  {
    MapIndexes(s.bookings, (b: Booking) => ReleasedBooking(b));
  }

  lemma RequestKeepsHoldsOut(s: State, now: int)
    requires NoHoldUnderCheck(s) && RequestSafetyCheck(s, now).Done?
    ensures NoHoldUnderCheck(RequestSafetyCheck(s, now).state)
  {
    RequestIsOverRealBookings(s, s.registration, now);
  }

  /** Every other operation leaves the bookings alone, and the safety record too or without a trace. */
  lemma OthersLeaveTheRows(s: State, op: Op)
    requires !op.RequestCheckOp? && !op.RespondOp? && !op.ResolveFeedbackOp? && !op.CancelOp?
    requires !op.InsertBooking? && !op.UpdateBooking? && !op.DeleteBooking?
    ensures var after := Step(s, op);
      && after.bookings == s.bookings
      && (after.safety.None? || (after.safety == s.safety && after.feedback == s.feedback))
  {
  }

  lemma StepKeepsHoldsOut(s: State, op: Op)
    requires NoHoldUnderCheck(s)
    ensures NoHoldUnderCheck(Step(s, op))
  {
    if Apply(s, op).Done? {
      match op
      case RequestCheckOp(now) => RequestKeepsHoldsOut(s, now);
      case RespondOp(decision, items, now) => ResponseKeepsHoldsOut(s, decision, items, now);
      case UpdateBooking(i, b) => UpdateKeepsHoldsOut(s, i, b);
      case ResolveFeedbackOp(k, resolved) => ResolvingKeepsHoldsOut(s, k, resolved);
      case CancelOp => CancelKeepsHoldsOut(s);
      case InsertBooking(b) => assert Step(s, op).safety.None?;
      case DeleteBooking(i) => assert Step(s, op).safety.None?;
      case _ => OthersLeaveTheRows(s, op);
    }
  }

  lemma {:induction false} HoldsStayOut(s: State, ops: seq<Op>)
    requires NoHoldUnderCheck(s)
    ensures NoHoldUnderCheck(Run(s, ops))
    decreases |ops|
  {
    if ops != [] {
      StepKeepsHoldsOut(s, ops[0]);
      HoldsStayOut(Step(s, ops[0]), ops[1..]);
    }
  }

  lemma FactsRewritten(s: State, i: nat, now: int)
    requires i < |s.bookings|
    ensures SchedulerRewrote(
      Facts(s), Facts(s.(bookings := s.bookings[i := Persisted(s.bookings[i], now)])), now)
  {
    var after := s.(bookings := s.bookings[i := Persisted(s.bookings[i], now)]);
    forall k | 0 <= k < |s.bookings|
      ensures |Facts(s)| == |Facts(after)| == |s.bookings|
      ensures Facts(after)[k] == Facts(s)[k] || (k == i && Facts(after)[k] == Persisted(Facts(s)[k], now))
    {
      FactsIndex(s, k);
      FactsIndex(after, k);
    }
  }

  /** The scheduler finds a hold only where no safety record exists, so the trigger it fires resets nothing. */
  lemma SchedulerResetsNothing(s: State, i: nat, now: int)
    requires NoHoldUnderCheck(s) && i < |s.bookings|
    ensures var after := Step(s, UpdateBooking(i, Persisted(s.bookings[i], now)));
      && after.bookings == s.bookings[i := Persisted(s.bookings[i], now)]
      && after.safety == s.safety && after.lines == s.lines && after.blocked == s.blocked
      && after.noneConfirmedAt == s.noneConfirmedAt
  {
    assert IsOver(s.bookings[i], now) ==> s.safety.None?;
  }

  /**
   In every reachable state the scheduler's write, with the trigger it fires, changes nothing that readiness lists, now
   or at any later time.
   */
  lemma SchedulerIsInvisibleInEveryRun(s: State, ops: seq<Op>, i: nat, now: int, later: int)
    requires NoHoldUnderCheck(s) && i < |Run(s, ops).bookings| && now <= later
    ensures var t := Run(s, ops);
      Readiness.OutstandingItems(SnapshotOf(Step(t, UpdateBooking(i, Persisted(t.bookings[i], now)))), later)
        == Readiness.OutstandingItems(SnapshotOf(t), later)
  {
    var t := Run(s, ops);
    var after := Step(t, UpdateBooking(i, Persisted(t.bookings[i], now)));
    HoldsStayOut(s, ops);
    SchedulerResetsNothing(t, i, now);
    FactsRewritten(t, i, now);
    assert Facts(after) == Facts(t.(bookings := after.bookings));
    Readiness.SchedulerIsInvisible(SnapshotOf(t), SnapshotOf(after), now, later);
  }

  // ------------------------------------------------------------------ the confirm gate

  /** Every active booking, as read, is an available ordinary approval or a rejection with a covering replacement. */
  ghost predicate EveryBookingSettled(s: State) {
    forall i :: 0 <= i < |s.bookings| && IsActive(s.bookings[i]) ==>
      Readiness.IsResolved(Facts(s)[i], ActiveBookings(Facts(s)))
  }

  lemma ReadyBookingsSettled(s: State)
    requires Readiness.VenueSatisfied(Facts(s))
    ensures |Facts(s)| == |s.bookings| && EveryBookingSettled(s)
  {
    forall i | 0 <= i < |s.bookings| && IsActive(s.bookings[i])
      ensures Readiness.IsResolved(Facts(s)[i], ActiveBookings(Facts(s)))
    {
      ActiveFactsAreRows(s, i);
    }
  }

  /** Some active row is an available ordinary approval. */
  ghost predicate HasConfirmedBooking(s: State) {
    exists i :: 0 <= i < |s.bookings| && IsConfirmed(Facts(s)[i])
  }

  lemma SettledMeansOneConfirmed(s: State)
    requires EveryBookingSettled(s) && SomeActive(s.bookings)
    ensures HasConfirmedBooking(s)
  {
    var i :| 0 <= i < |s.bookings| && IsActive(s.bookings[i]);
    var active := ActiveBookings(Facts(s));
    FactsIndex(s, i);
    if !IsConfirmed(Facts(s)[i]) {
      var k :| 0 <= k < |active| && Replaces(active[k], Facts(s)[i]);
      FilterContains(Facts(s), (b: Booking) => IsActive(b), active[k]);
      var j :| 0 <= j < |Facts(s)| && Facts(s)[j] == active[k];
      assert IsConfirmed(Facts(s)[j]);
    }
  }

  /** Each status has its own door: which step, from which status, leads into it. */
  lemma EachStatusHasItsDoor(s: State, op: Op)
    requires Step(s, op).status != s.status
    ensures match Step(s, op).status
      case Submitted => false
      case Approved => op.ApproveOp? && s.status == EventStatus.Submitted
      case Rejected => op.RejectOp? && s.status == EventStatus.Submitted
      case Planning => (op.StartPlanningOp? && s.status == EventStatus.Approved)
                       || (op.ApproveChangeOp? && s.status == EventStatus.Confirmed)
      case Confirmed => op.ConfirmOp? && s.status == EventStatus.Planning
      case Completed => op.CompleteOp? && op.ended && s.status == EventStatus.Confirmed
      case Cancelled => op.CancelOp? && IsCancellable(s.status)
    ensures !op.ApproveOp? && !op.RejectOp? ==>
      Step(s, op).history == s.history + [Change(s.status, Step(s, op).status)]
  {
  }

  lemma StepKeepsConfirmation(s: State, op: Op)
    requires s.noneConfirmedAt.Some?
    ensures Step(s, op).noneConfirmedAt == s.noneConfirmedAt
  {
  }

  /** The first "no equipment needed" confirmation stands for good, whatever follows. */
  lemma {:induction false} FirstConfirmationWins(s: State, ops: seq<Op>)
    requires s.noneConfirmedAt.Some?
    ensures Run(s, ops).noneConfirmedAt == s.noneConfirmedAt
    decreases |ops|
  {
    if ops != [] {
      StepKeepsConfirmation(s, ops[0]);
      FirstConfirmationWins(Step(s, ops[0]), ops[1..]);
    }
  }

  lemma OnlyConfirmConfirms(s: State, op: Op)
    requires s.status != EventStatus.Confirmed && Step(s, op).status == EventStatus.Confirmed
    ensures op.ConfirmOp? && s.status == EventStatus.Planning && Readiness.OutstandingItems(SnapshotOf(s), op.now) == []
  {
  }

  lemma ReadyState(s: State, now: int)
    requires Readiness.OutstandingItems(SnapshotOf(s), now) == []
    ensures |Facts(s)| == |s.bookings| && EveryBookingSettled(s)
    ensures Readiness.EquipmentSatisfied(s.lines, s.noneConfirmedAt.Some?)
    ensures s.safety == Some(Cleared)
  {
    Readiness.ReadyMeans(SnapshotOf(s), now);
    ReadyBookingsSettled(s);
  }

  /**
   The only step into Confirmed is Confirm, from Planning, over arrangements no staff review is open on: every active
   booking is settled and one of them confirmed, every active line is reserved or none was confirmed as needed, and the
   Safety Officer approved these very arrangements. Over a run this also closes the all-released gap of the readiness
   rule itself.
   */
  lemma ConfirmGate(w: World, op: Op)
    requires CheckIsFresh(w)
    requires w.state.status != EventStatus.Confirmed && Step(w.state, op).status == EventStatus.Confirmed
    ensures op.ConfirmOp? && w.state.status == EventStatus.Planning
    ensures |Facts(w.state)| == |w.state.bookings| && EveryBookingSettled(w.state) && HasConfirmedBooking(w.state)
    ensures Readiness.EquipmentSatisfied(w.state.lines, w.state.noneConfirmedAt.Some?)
    ensures w.state.safety == Some(Cleared) && w.state.feedback == []
    ensures w.checked == Some(Checked(w.state.details, w.state.bookings, w.state.lines))
  {
    OnlyConfirmConfirms(w.state, op);
    ReadyState(w.state, op.now);
    SettledMeansOneConfirmed(w.state);
  }

  /** A check that does not stand stays down until it is requested again. */
  lemma OnlyRequestRaises(s: State, op: Op)
    requires !Stands(s.safety) && !op.RequestCheckOp?
    ensures !Stands(Step(s, op).safety)
  {
  }

  /** While none stands, nothing becomes Confirmed. */
  lemma NoneStandsNoneConfirms(s: State, op: Op)
    requires !Stands(s.safety) && s.status != EventStatus.Confirmed
    ensures Step(s, op).status != EventStatus.Confirmed
  {
    if Step(s, op).status == EventStatus.Confirmed {
      OnlyConfirmConfirms(s, op);
      ReadyState(s, op.now);
      assert false;
    }
  }

  /**
   After a rejection, a change request, or any reset, no run confirms the event without a fresh safety check request:
   whatever staff re-approve, the Safety Officer is asked again.
   */
  lemma {:induction false} NoConfirmWithoutFreshRequest(s: State, ops: seq<Op>)
    requires !Stands(s.safety) && s.status != EventStatus.Confirmed
    requires forall k :: 0 <= k < |ops| ==> !ops[k].RequestCheckOp?
    ensures Run(s, ops).status != EventStatus.Confirmed && !Stands(Run(s, ops).safety)
    decreases |ops|
  {
    if ops != [] {
      OnlyRequestRaises(s, ops[0]);
      NoneStandsNoneConfirms(s, ops[0]);
      NoConfirmWithoutFreshRequest(Step(s, ops[0]), ops[1..]);
    }
  }

  // ------------------------------------------------------------------ the response

  /**
   A rejection or change request returns exactly the flagged arrangements to staff review: each selected booking is
   pending again, each selected line requested again, and no other row changes in any column.
   */
  lemma ResponseReturnsExactlyTheFlagged(s: State, decision: Safety, items: seq<Feedback>, now: int)
    requires Respond(s, decision, items, now).Done? && s.feedback == []
    ensures var after := Respond(s, decision, items, now).state;
      && after.safety == Some(decision) && |after.bookings| == |s.bookings| && |after.lines| == |s.lines|
      && (forall i :: 0 <= i < |s.bookings| ==>
            after.bookings[i] ==
              if InVenues(after.feedback, s.bookings[i].id) && s.bookings[i].status == BookingStatus.Approved
              then s.bookings[i].(status := BookingStatus.Pending) else s.bookings[i])
      && (forall i :: 0 <= i < |s.lines| ==>
            after.lines[i] == if InLines(after.feedback, s.lines[i].id) && s.lines[i].status == LineReserved
                              then s.lines[i].(status := LineRequested) else s.lines[i])
  {
    var feedback := ResponseFeedback(s, decision, items);
    assert s.feedback + feedback == feedback;
    forall i | 0 <= i < |s.bookings|
      ensures Map(s.bookings, (b: Booking) => SentBack(b, feedback))[i] == SentBack(s.bookings[i], feedback)
    {
      MapIndex(s.bookings, (b: Booking) => SentBack(b, feedback), i);
    }
    forall i | 0 <= i < |s.lines|
      ensures Map(s.lines, (line: Line) => LineSentBack(line, feedback))[i] == LineSentBack(s.lines[i], feedback)
    {
      MapIndex(s.lines, (line: Line) => LineSentBack(line, feedback), i);
    }
  }

  lemma VenuesAllSentBack(bookings: seq<Booking>, feedback: seq<Feedback>)
    requires feedback != [] && ReviewableVenues(bookings) <= feedback[0].venues
    ensures ReviewableVenues(Map(bookings, (b: Booking) => SentBack(b, feedback))) == {}
  {
    MapIndexes(bookings, (b: Booking) => SentBack(b, feedback));
    forall i | 0 <= i < |bookings| && bookings[i].status == BookingStatus.Approved && !bookings[i].tentative
      ensures InVenues(feedback, bookings[i].id)
    {
      assert bookings[i].id in feedback[0].venues;
    }
  }

  lemma LinesAllSentBack(lines: seq<Line>, feedback: seq<Feedback>)
    requires feedback != [] && ReviewableLines(lines) <= feedback[0].lines
    ensures ReviewableLines(Map(lines, (line: Line) => LineSentBack(line, feedback))) == {}
  {
    MapIndexes(lines, (line: Line) => LineSentBack(line, feedback));
    forall i | 0 <= i < |lines| && lines[i].status == LineReserved ensures InLines(feedback, lines[i].id) {
      assert lines[i].id in feedback[0].lines;
    }
  }

  lemma OpenFeedbackBlocks(s: State, k: nat, later: int)
    requires UnderReview(s.safety) && k < |s.feedback| && !s.feedback[k].resolved
    ensures RequestSafetyCheck(s, later).Refused?
  {
    assert !AllResolved(s.feedback);
  }

  lemma RejectedState(s: State, now: int)
    requires Respond(s, TurnedDown, [], now).Done?
    ensures Respond(s, TurnedDown, [], now).state
         == Responded(s, TurnedDown, [Feedback(ReviewableVenues(s.bookings), ReviewableLines(s.lines), false)])
  {
  }

  /** After a rejection no ordinary booking is approved and no line reserved, and the check is not requestable. */
  lemma RejectionOpensEverything(s: State, now: int, later: int)
    requires Respond(s, TurnedDown, [], now).Done?
    ensures var after := Respond(s, TurnedDown, [], now).state;
      && ReviewableVenues(after.bookings) == {} && ReviewableLines(after.lines) == {}
      && RequestSafetyCheck(after, later).Refused?
  {
    var feedback := [Feedback(ReviewableVenues(s.bookings), ReviewableLines(s.lines), false)];
    RejectedState(s, now);
    VenuesAllSentBack(s.bookings, feedback);
    LinesAllSentBack(s.lines, feedback);
    OpenFeedbackBlocks(Responded(s, TurnedDown, feedback), |s.feedback|, later);
  }

  lemma {:induction false} WorldRunsTheState(w: World, ops: seq<Op>)
    ensures RunWorld(w, ops).state == Run(w.state, ops)
    decreases |ops|
  {
    if ops != [] {
      WorldRunsTheState(StepWorld(w, ops[0]), ops[1..]);
    }
  }

  /** Row f is gone, no longer active, or settled for good. */
  ghost predicate SettledOrGone(s: State, f: nat) {
    forall i :: 0 <= i < |s.bookings| && s.bookings[i].id == f && IsActive(s.bookings[i]) ==>
      |Facts(s)| == |s.bookings| && Readiness.IsResolved(Facts(s)[i], ActiveBookings(Facts(s)))
  }

  /** A flagged row is open right after the response: pending, not approved. */
  lemma FlaggedIsOpen(s: State, decision: Safety, items: seq<Feedback>, now: int, f: nat)
    requires Respond(s, decision, items, now).Done? && s.feedback == []
    requires InVenues(Respond(s, decision, items, now).state.feedback, f)
    ensures var after := Respond(s, decision, items, now).state;
      && !Stands(after.safety) && after.status == EventStatus.Planning
      && forall i :: 0 <= i < |after.bookings| && after.bookings[i].id == f
           ==> after.bookings[i].status != BookingStatus.Approved
  {
    ResponseReturnsExactlyTheFlagged(s, decision, items, now);
  }

  /** While no check stands, an accepted Confirm further on means a new request and that everything is settled. */
  lemma ConfirmNeedsANewCheck(w: World, ops: seq<Op>, f: nat, at: int)
    requires CheckIsFresh(w) && !Stands(w.state.safety) && w.state.status != EventStatus.Confirmed
    requires Confirm(RunWorld(w, ops).state, at).Done?
    ensures exists k :: 0 <= k < |ops| && ops[k].RequestCheckOp?
    ensures var t := RunWorld(w, ops);
      && SettledOrGone(t.state, f) && t.state.safety == Some(Cleared)
      && t.checked == Some(Checked(t.state.details, t.state.bookings, t.state.lines))
  {
    var t := RunWorld(w, ops);
    StandingCheckIsFresh(w, ops);
    WorldRunsTheState(w, ops);
    ConfirmGate(t, ConfirmOp(at));
    if forall k :: 0 <= k < |ops| ==> !ops[k].RequestCheckOp? {
      NoConfirmWithoutFreshRequest(w.state, ops);
      assert false;
    }
  }

  lemma RespondedWorld(w: World, decision: Safety, items: seq<Feedback>, now: int)
    requires CheckIsFresh(w) && Respond(w.state, decision, items, now).Done?
    ensures StepWorld(w, RespondOp(decision, items, now)) == w.(state := Respond(w.state, decision, items, now).state)
    ensures CheckIsFresh(w.(state := Respond(w.state, decision, items, now).state)) && w.state.feedback == []
  {
    StepKeepsFresh(w, RespondOp(decision, items, now));
  }

  /**
   Whatever run follows a response that flags booking f, should a later Confirm be accepted then f is absent, inactive
   or settled by that time, a new check was requested in between, and the Safety Officer cleared exactly the
   arrangements now stored. Right after the response no row of that id is an approved booking.
   */
  lemma FlaggedIsSettledBeforeConfirm(w: World, decision: Safety, items: seq<Feedback>, now: int, f: nat, ops: seq<Op>,
                                      at: int, responded: World)
    requires CheckIsFresh(w) && Respond(w.state, decision, items, now).Done?
    requires InVenues(Respond(w.state, decision, items, now).state.feedback, f)
    requires responded == StepWorld(w, RespondOp(decision, items, now))
    ensures forall i :: 0 <= i < |responded.state.bookings| && responded.state.bookings[i].id == f
              ==> responded.state.bookings[i].status != BookingStatus.Approved
    ensures Confirm(RunWorld(responded, ops).state, at).Done? ==>
      var t := RunWorld(responded, ops);
      && (exists k :: 0 <= k < |ops| && ops[k].RequestCheckOp?)
      && SettledOrGone(t.state, f)
      && t.state.safety == Some(Cleared) && t.checked == Some(Checked(t.state.details, t.state.bookings, t.state.lines))
  {
    RespondedWorld(w, decision, items, now);
    FlaggedIsOpen(w.state, decision, items, now, f);
    assert !Stands(responded.state.safety) && responded.state.status == EventStatus.Planning;
    if Confirm(RunWorld(responded, ops).state, at).Done? {
      ConfirmNeedsANewCheck(responded, ops, f, at);
    }
  }

  // ------------------------------------------------------------------ the history is a chain

  ghost predicate Chained(history: seq<Change>) {
    forall k :: 0 < k < |history| ==> history[k].from == history[k - 1].to
  }

  ghost predicate HistoryOk(s: State) {
    && Chained(s.history)
    && (forall k :: 0 <= k < |s.history| ==> !IsTerminal(s.history[k].from) && s.history[k].from != s.history[k].to)
    && (if s.history == []
        then s.status in {EventStatus.Submitted, EventStatus.Approved, EventStatus.Rejected}
        else s.history[|s.history| - 1].to == s.status
             && s.status in {EventStatus.Planning, EventStatus.Confirmed, EventStatus.Completed, EventStatus.Cancelled})
  }

  /** The status changes there are: the two first decisions write no history row, every other change writes one. */
  ghost predicate StatusMoves(s: State, after: State) {
    || (after.status == s.status && after.history == s.history)
    || (s.status == EventStatus.Submitted && after.history == s.history
        && after.status in {EventStatus.Approved, EventStatus.Rejected})
    || (!IsTerminal(s.status) && after.status != s.status
        && after.history == s.history + [Change(s.status, after.status)]
        && after.status in {EventStatus.Planning, EventStatus.Confirmed, EventStatus.Completed, EventStatus.Cancelled})
  }

  lemma StepMovesStatus(s: State, op: Op)
    ensures StatusMoves(s, Step(s, op))
  {
  }

  lemma MovesKeepHistory(s: State, after: State)
    requires HistoryOk(s) && StatusMoves(s, after)
    ensures HistoryOk(after)
    ensures s.history <= after.history
    ensures IsTerminal(s.status) ==> after.status == s.status
  {
  }

  /** One step keeps the chain, only ever appends to it, and never leaves a terminal status. */
  lemma StepKeepsHistory(s: State, op: Op)
    requires HistoryOk(s)
    ensures HistoryOk(Step(s, op)) && s.history <= Step(s, op).history
    ensures IsTerminal(s.status) ==> Step(s, op).status == s.status
  {
    StepMovesStatus(s, op);
    MovesKeepHistory(s, Step(s, op));
  }

  /**
   Over every run each history row starts where the one before ended and the last one ends at the stored status; rows
   are never rewritten; Rejected, Completed and Cancelled are never left.
   */
  lemma {:induction false} HistoryIsAChain(s: State, ops: seq<Op>)
    requires HistoryOk(s)
    ensures HistoryOk(Run(s, ops)) && s.history <= Run(s, ops).history
    ensures IsTerminal(s.status) ==> Run(s, ops).status == s.status
    decreases |ops|
  {
    if ops != [] {
      StepKeepsHistory(s, ops[0]);
      HistoryIsAChain(Step(s, ops[0]), ops[1..]);
    }
  }
}
