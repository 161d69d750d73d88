/**
 The Event Coordinator Lead's assignments (backend/src/lead/lead-assignment.service.ts) and the notices that follow an
 event to its current coordinator: change and cancellation requests (backend/src/events/change-requests/,
 backend/src/events/cancellation-requests/), equipment decisions (backend/src/equipment/requests/), venue decisions,
 holds and impacts (backend/src/venues/review/, backend/src/venues/notifications/) and clarifications
 (backend/src/clarifications/). An event's organiser is who submitted it.
 */
module LeadAssignment {
  import opened Wrappers
  import opened EventTypes
  import opened Lists

  type EventId = nat
  type UserId = nat

  datatype Kind =
    | AssignmentNotice | ReassignmentNotice | ChangeRequestNotice | CancellationRequestNotice | EquipmentDecisionNotice
    | VenueDecisionNotice | HoldLifecycleNotice | VenueImpactNotice | ClarificationNotice
    | UnassignmentNotice | SafetyResponseNotice

  datatype Notice = Notice(recipient: UserId, event: EventId, kind: Kind, read: bool)

  /** One reassignment record. */
  datatype Move = Move(from: UserId, to: UserId)

  datatype EventRow = EventRow(organiser: UserId, status: EventStatus, coordinator: Option<UserId>, moves: seq<Move>)

  /** Who acts on a clarification thread, with the two roles that matter there. */
  datatype Caller = Caller(id: UserId, coordinates: bool, organises: bool)

  datatype State = State(
    events: map<EventId, EventRow>,
    notices: seq<Notice>,
    pendingChange: set<EventId>,
    pendingCancellation: set<EventId>
  )

  datatype Refusal =
    | EventNotFound | AlreadyAssigned | NotAwaitingAssignment | CoordinatorUnavailable | NotReassignable
    | ChangedSinceLoaded
    | SameCoordinator | RequestPending | NothingPending | RequestClosed | NotYours | ClarificationsClosed

  datatype Result = Done(state: State) | Refused(reason: Refusal)

  /** The notices a reassignment takes from the former coordinator. */
  predicate FollowsTheEvent(kind: Kind) {
    kind in {AssignmentNotice, ReassignmentNotice, ChangeRequestNotice, CancellationRequestNotice, VenueDecisionNotice,
             HoldLifecycleNotice, EquipmentDecisionNotice, VenueImpactNotice, ClarificationNotice}
  }

  predicate IsActiveWorkload(status: EventStatus) {
    status in {EventStatus.Submitted, EventStatus.Approved, EventStatus.Planning, EventStatus.Confirmed}
  }

  function Notify(s: State, recipient: UserId, event: EventId, kind: Kind): State {
    s.(notices := s.notices + [Notice(recipient, event, kind, false)])
  }

  /** A request made before the coordinator had the event reaches them now. */
  function NotifyPending(s: State, event: EventId, coordinator: UserId): State {
    var changed := if event in s.pendingChange then Notify(s, coordinator, event, ChangeRequestNotice) else s;
    if event in s.pendingCancellation then Notify(changed, coordinator, event, CancellationRequestNotice) else changed
  }

  function AssignEvent(s: State, event: EventId, coordinator: UserId, available: bool): Result {
    if event !in s.events then Refused(EventNotFound)
    else if s.events[event].coordinator.Some? then Refused(AlreadyAssigned)
    else if s.events[event].status != EventStatus.Submitted then Refused(NotAwaitingAssignment)
    else if !available then Refused(CoordinatorUnavailable)
    else
      var held := s.(events := s.events[event := s.events[event].(coordinator := Some(coordinator))]);
      Done(NotifyPending(Notify(held, coordinator, event, AssignmentNotice), event, coordinator))
  }

  function Cleared(n: Notice, event: EventId, from: UserId): Notice {
    if n.recipient == from && n.event == event && FollowsTheEvent(n.kind) && !n.read then n.(read := true) else n
  }

  function ClearNotices(s: State, event: EventId, from: UserId): State {
    s.(notices := Map(s.notices, (n: Notice) => Cleared(n, event, from)))
  }

  function Recorded(s: State, event: EventId, from: UserId, to: UserId): State
    requires event in s.events
  {
    var row := s.events[event];
    s.(events := s.events[event := row.(coordinator := Some(to), moves := row.moves + [Move(from, to)])])
  }

  /** `shown` is the coordinator the page displayed, so a stale page cannot undo a newer reassignment. */
  function ReassignEvent(s: State, event: EventId, to: UserId, shown: UserId, available: bool): Result {
    if event !in s.events then Refused(EventNotFound)
    else if s.events[event].coordinator.None? || !IsActiveWorkload(s.events[event].status) then Refused(NotReassignable)
    else if s.events[event].coordinator.value != shown then Refused(ChangedSinceLoaded)
    else if shown == to then Refused(SameCoordinator)
    else if !available then Refused(CoordinatorUnavailable)
    else
      var cleared := ClearNotices(Recorded(s, event, shown, to), event, shown);
      var told := Notify(Notify(cleared, to, event, ReassignmentNotice), shown, event, UnassignmentNotice);
      Done(NotifyPending(told, event, to))
  }

  /** Tells the assigned coordinator, if there is one. */
  function NotifyCoordinator(s: State, event: EventId, kind: Kind): State {
    if event in s.events && s.events[event].coordinator.Some?
    then Notify(s, s.events[event].coordinator.value, event, kind) else s
  }

  predicate IsAssignedTo(row: EventRow, caller: Caller) {
    caller.coordinates && row.coordinator == Some(caller.id)
  }

  /** The assigned coordinator asks the organiser to clarify the request. */
  function OpenClarification(s: State, event: EventId, caller: Caller): Result {
    if event !in s.events then Refused(EventNotFound)
    else if !IsAssignedTo(s.events[event], caller) then Refused(NotYours)
    else if s.events[event].status !in {EventStatus.Submitted, EventStatus.Approved, EventStatus.Planning}
    then Refused(ClarificationsClosed)
    else Done(Notify(s, s.events[event].organiser, event, ClarificationNotice))
  }

  /**
   A reply to an open thread, or its resolution, tells the other side; whoever is both coordinator and organiser acts as
   the coordinator. Only a resolution is still possible once the event is Confirmed.
   */
  function AnswerClarification(s: State, event: EventId, caller: Caller, resolves: bool, isOpen: bool): Result {
    if event !in s.events then Refused(EventNotFound)
    else
      var row := s.events[event];
      if !IsAssignedTo(row, caller) && !(caller.organises && row.organiser == caller.id) then Refused(NotYours)
      else if row.status == EventStatus.Cancelled then Refused(ClarificationsClosed)
      else if !resolves && row.status == EventStatus.Confirmed then Refused(ClarificationsClosed)
      else if !isOpen then Refused(NothingPending)
      else if IsAssignedTo(row, caller) then Done(Notify(s, row.organiser, event, ClarificationNotice))
      else Done(NotifyCoordinator(s, event, ClarificationNotice))
  }

  datatype Op =
    | Assign(event: EventId, coordinator: UserId, available: bool)
    | Reassign(event: EventId, to: UserId, shown: UserId, available: bool)
    | RequestChange(event: EventId)
    | EndChange(event: EventId)
    | RequestCancellation(event: EventId)
    | EndCancellation(event: EventId)
    | DecideEquipment(event: EventId)
    | DecideBooking(event: EventId)
    | ChangeHold(event: EventId)
    | ChangeVenue(event: EventId)
    | Clarify(event: EventId, caller: Caller)
    | Answer(event: EventId, caller: Caller, resolves: bool, isOpen: bool)
    | RespondSafety(event: EventId)
    | MarkRead(row: nat)
    | MoveStatus(event: EventId, status: EventStatus)
    | SubmitEvent(event: EventId, organiser: UserId)

  function Apply(s: State, op: Op): Result {
    match op
    case Assign(event, coordinator, available) => AssignEvent(s, event, coordinator, available)
    case Reassign(event, to, shown, available) => ReassignEvent(s, event, to, shown, available)
    case RequestChange(event) =>
      if event !in s.events then Refused(EventNotFound)
      else if !IsActiveWorkload(s.events[event].status) then Refused(RequestClosed)
      else if event in s.pendingChange then Refused(RequestPending)
      else Done(NotifyCoordinator(s, event, ChangeRequestNotice).(pendingChange := s.pendingChange + {event}))
    case EndChange(event) =>
      if event !in s.pendingChange then Refused(NothingPending)
      else Done(s.(pendingChange := s.pendingChange - {event}))
    case RequestCancellation(event) =>
      if event !in s.events then Refused(EventNotFound)
      else if !IsCancellable(s.events[event].status) then Refused(RequestClosed)
      else if event in s.pendingCancellation then Refused(RequestPending)
      else Done(NotifyCoordinator(s, event, CancellationRequestNotice)
                .(pendingCancellation := s.pendingCancellation + {event}))
    case EndCancellation(event) =>
      if event !in s.pendingCancellation then Refused(NothingPending)
      else Done(s.(pendingCancellation := s.pendingCancellation - {event}))
    case DecideEquipment(event) => Done(NotifyCoordinator(s, event, EquipmentDecisionNotice))
    case DecideBooking(event) => Done(NotifyCoordinator(s, event, VenueDecisionNotice))
    case ChangeHold(event) =>
      if event in s.events && s.events[event].status == EventStatus.Cancelled then Done(s)
      else Done(NotifyCoordinator(s, event, HoldLifecycleNotice))
    case ChangeVenue(event) => Done(NotifyCoordinator(s, event, VenueImpactNotice))
    case Clarify(event, caller) => OpenClarification(s, event, caller)
    case Answer(event, caller, resolves, isOpen) => AnswerClarification(s, event, caller, resolves, isOpen)
    case RespondSafety(event) => Done(NotifyCoordinator(s, event, SafetyResponseNotice))
    case MarkRead(k) =>
      if k >= |s.notices| then Refused(EventNotFound)
      else Done(s.(notices := s.notices[k := s.notices[k].(read := true)]))
    case MoveStatus(event, status) =>
      if event !in s.events then Refused(EventNotFound)
      else Done(s.(events := s.events[event := s.events[event].(status := status)]))
    case SubmitEvent(event, organiser) =>
      if event in s.events then Refused(AlreadyAssigned)
      else Done(s.(events := s.events[event := EventRow(organiser, EventStatus.Submitted, None, [])]))
  }

  function Step(s: State, op: Op): State {
    if Apply(s, op).Done? then Apply(s, op).state else s
  }

  function Run(s: State, ops: seq<Op>): State
    decreases |ops|
  {
    if ops == [] then s else Run(Step(s, ops[0]), ops[1..])
  }

  // ------------------------------------------------------------------ notices follow the assignment

  ghost predicate IsCurrent(s: State, event: EventId, u: UserId) {
    event in s.events && s.events[event].coordinator == Some(u)
  }

  /** A clarification notice may also be addressed to the event's organiser. */
  ghost predicate ReachesOrganiser(s: State, n: Notice) {
    n.kind == ClarificationNotice && n.event in s.events && s.events[n.event].organiser == n.recipient
  }

  /** An unread notice that follows the event is addressed to its current coordinator. */
  ghost predicate NoticeOk(s: State, n: Notice) {
    !n.read && FollowsTheEvent(n.kind) ==> IsCurrent(s, n.event, n.recipient) || ReachesOrganiser(s, n)
  }

  ghost predicate NoticesFollow(s: State) {
    forall k :: 0 <= k < |s.notices| ==> NoticeOk(s, s.notices[k])
  }

  /** The reassignment records of an event: a chain of distinct coordinators that ends at the current one. */
  ghost predicate ChainOk(row: EventRow) {
    && (forall k :: 0 <= k < |row.moves| ==> row.moves[k].from != row.moves[k].to)
    && (forall k :: 0 < k < |row.moves| ==> row.moves[k].from == row.moves[k - 1].to)
    && (row.moves != [] ==> row.coordinator == Some(row.moves[|row.moves| - 1].to))
  }

  ghost predicate ChainsHold(s: State) {
    forall event :: event in s.events ==> ChainOk(s.events[event])
  }

  ghost predicate Told(notices: seq<Notice>, event: EventId, u: UserId, kind: Kind) {
    exists k :: 0 <= k < |notices|
      && notices[k].event == event && notices[k].recipient == u && notices[k].kind == kind
  }

  /** A pending request's event is known, and its current coordinator, if any, was told of it. */
  ghost predicate PendingTold(s: State, pending: set<EventId>, kind: Kind) {
    forall event :: event in pending ==>
      event in s.events
      && (s.events[event].coordinator.Some? ==> Told(s.notices, event, s.events[event].coordinator.value, kind))
  }

  ghost predicate Invariant(s: State) {
    && NoticesFollow(s) && ChainsHold(s)
    && PendingTold(s, s.pendingChange, ChangeRequestNotice)
    && PendingTold(s, s.pendingCancellation, CancellationRequestNotice)
  }

  /** The notices of a step: those there were, some now read, and new ones behind them. */
  ghost predicate NoticesGrow(before: seq<Notice>, after: seq<Notice>) {
    && |before| <= |after|
    && forall k :: 0 <= k < |before| ==> after[k] == before[k] || after[k] == before[k].(read := true)
  }

  lemma StepGrowsNotices(s: State, op: Op)
    ensures NoticesGrow(s.notices, Step(s, op).notices)
  {
    if op.Reassign? {
      MapIndexes(s.notices, (n: Notice) => Cleared(n, op.event, op.shown));
    }
  }

  lemma ToldStaysTold(before: seq<Notice>, after: seq<Notice>, event: EventId, u: UserId, kind: Kind)
    requires NoticesGrow(before, after) && Told(before, event, u, kind)
    ensures Told(after, event, u, kind)
  {
    var k :| 0 <= k < |before| && before[k].event == event && before[k].recipient == u && before[k].kind == kind;
    assert after[k].event == event;
  }

  lemma AssignKeepsNotices(s: State, event: EventId, coordinator: UserId, available: bool)
    requires NoticesFollow(s) && AssignEvent(s, event, coordinator, available).Done?
    ensures NoticesFollow(AssignEvent(s, event, coordinator, available).state)
  {
    var after := AssignEvent(s, event, coordinator, available).state;
    forall k | 0 <= k < |after.notices| ensures NoticeOk(after, after.notices[k]) {
      assert k < |s.notices| ==> after.notices[k] == s.notices[k] && NoticeOk(s, s.notices[k]);
    }
  }

  lemma ReassignKeepsNotices(s: State, event: EventId, to: UserId, shown: UserId, available: bool)
    requires NoticesFollow(s) && ReassignEvent(s, event, to, shown, available).Done?
    ensures NoticesFollow(ReassignEvent(s, event, to, shown, available).state)
  {
    var after := ReassignEvent(s, event, to, shown, available).state;
    MapIndexes(s.notices, (n: Notice) => Cleared(n, event, shown));
    forall k | 0 <= k < |after.notices| ensures NoticeOk(after, after.notices[k]) {
      assert k < |s.notices| ==> after.notices[k] == Cleared(s.notices[k], event, shown) && NoticeOk(s, s.notices[k]);
    }
  }

  lemma StepKeepsNotices(s: State, op: Op)
    requires NoticesFollow(s)
    ensures NoticesFollow(Step(s, op))
  {
    if Apply(s, op).Done? {
      match op
      case Assign(event, coordinator, available) => AssignKeepsNotices(s, event, coordinator, available);
      case Reassign(event, to, shown, available) => ReassignKeepsNotices(s, event, to, shown, available);
      case _ =>
        var after := Step(s, op);
        forall k | 0 <= k < |after.notices| ensures NoticeOk(after, after.notices[k]) {
          assert k < |s.notices| ==> NoticeOk(s, s.notices[k]);
        }
    }
  }

  /** A step records a move exactly when it reassigns, and otherwise only ever assigns the first coordinator. */
  lemma StepExtendsChain(s: State, op: Op, event: EventId)
    requires event in Step(s, op).events
    ensures var after := Step(s, op).events[event];
      || (event !in s.events && after.moves == [])
      || (event in s.events && after.moves == s.events[event].moves
          && (after.coordinator == s.events[event].coordinator || s.events[event].coordinator.None?))
      || (event in s.events && op.Reassign? && s.events[event].coordinator == Some(op.shown) && op.shown != op.to
          && after.coordinator == Some(op.to) && after.moves == s.events[event].moves + [Move(op.shown, op.to)])
  {
  }

  lemma StepKeepsChains(s: State, op: Op)
    requires ChainsHold(s)
    ensures ChainsHold(Step(s, op))
  {
    var after := Step(s, op);
    forall event | event in after.events ensures ChainOk(after.events[event]) {
      StepExtendsChain(s, op, event);
      assert event in s.events ==> ChainOk(s.events[event]);
    }
  }

  /** Whoever holds the event after the step, when a request is pending on it, has been told. */
  lemma StepTells(s: State, op: Op, event: EventId)
    requires Apply(s, op).Done? && event in Step(s, op).events && Step(s, op).events[event].coordinator.Some?
    requires event in s.events ==> s.events[event].coordinator != Step(s, op).events[event].coordinator
    ensures var u := Step(s, op).events[event].coordinator.value;
      && (event in Step(s, op).pendingChange ==> Told(Step(s, op).notices, event, u, ChangeRequestNotice))
      && (event in Step(s, op).pendingCancellation ==> Told(Step(s, op).notices, event, u, CancellationRequestNotice))
  {
    var after := Step(s, op);
    assert op.Assign? || op.Reassign?;
    assert op.event == event;
    var n := |after.notices|;
    assert event in s.pendingCancellation ==> after.notices[n - 1].kind == CancellationRequestNotice;
    assert event in s.pendingChange ==>
      after.notices[if event in s.pendingCancellation then n - 2 else n - 1].kind == ChangeRequestNotice;
  }

  /** The requests of this kind that are pending. */
  ghost function Pending(s: State, kind: Kind): set<EventId> {
    if kind == ChangeRequestNotice then s.pendingChange else s.pendingCancellation
  }

  /** A request is made pending by the step that tells the coordinator of it. */
  lemma NewlyPendingTold(s: State, op: Op, event: EventId, kind: Kind)
    requires kind in {ChangeRequestNotice, CancellationRequestNotice}
    requires event in Pending(Step(s, op), kind) && event !in Pending(s, kind)
    ensures event in s.events && Step(s, op).events == s.events
    ensures s.events[event].coordinator.Some? ==>
      Step(s, op).notices == s.notices + [Notice(s.events[event].coordinator.value, event, kind, false)]
  {
  }

  lemma PendingToldAfter(s: State, op: Op, event: EventId, kind: Kind)
    requires kind in {ChangeRequestNotice, CancellationRequestNotice} && PendingTold(s, Pending(s, kind), kind)
    requires Apply(s, op).Done? && event in Pending(Step(s, op), kind)
    ensures event in Step(s, op).events
    ensures Step(s, op).events[event].coordinator.Some? ==>
      Told(Step(s, op).notices, event, Step(s, op).events[event].coordinator.value, kind)
  {
    var after := Step(s, op);
    if event !in Pending(s, kind) {
      NewlyPendingTold(s, op, event, kind);
      if s.events[event].coordinator.Some? {
        assert after.notices[|s.notices|].event == event;
      }
    } else if after.events[event].coordinator.Some? {
      var u := after.events[event].coordinator.value;
      if s.events[event].coordinator != Some(u) {
        StepTells(s, op, event);
      } else {
        StepGrowsNotices(s, op);
        ToldStaysTold(s.notices, after.notices, event, u, kind);
      }
    }
  }

  lemma StepKeepsPendingTold(s: State, op: Op, kind: Kind)
    requires kind in {ChangeRequestNotice, CancellationRequestNotice} && PendingTold(s, Pending(s, kind), kind)
    ensures PendingTold(Step(s, op), Pending(Step(s, op), kind), kind)
  {
    if Apply(s, op).Done? {
      forall event | event in Pending(Step(s, op), kind)
        ensures event in Step(s, op).events
        ensures Step(s, op).events[event].coordinator.Some? ==>
          Told(Step(s, op).notices, event, Step(s, op).events[event].coordinator.value, kind)
      {
        PendingToldAfter(s, op, event, kind);
      }
    }
  }

  lemma StepKeepsInvariant(s: State, op: Op)
    requires Invariant(s)
    ensures Invariant(Step(s, op))
  {
    StepKeepsNotices(s, op);
    StepKeepsChains(s, op);
    StepKeepsPendingTold(s, op, ChangeRequestNotice);
    StepKeepsPendingTold(s, op, CancellationRequestNotice);
  }

  /**
   In every reachable state, each unread notice that follows the event is addressed to the event's current coordinator,
   or, where it is about a clarification, to its organiser; the reassignment records are a chain of distinct
   coordinators that ends at that coordinator; and a pending request's current coordinator was told of it.
   */
  lemma {:induction false} NoticesFollowTheAssignment(s: State, ops: seq<Op>)
    requires Invariant(s)
    ensures Invariant(Run(s, ops))
    decreases |ops|
  {
    if ops != [] {
      StepKeepsInvariant(s, ops[0]);
      NoticesFollowTheAssignment(Step(s, ops[0]), ops[1..]);
    }
  }

  /** A reassignment marks read exactly the former coordinator's unread notices that follow this event. */
  lemma ReassignmentClearsExactly(s: State, event: EventId, to: UserId, shown: UserId, available: bool, k: nat)
    requires ReassignEvent(s, event, to, shown, available).Done? && k < |s.notices|
    ensures var n, after := s.notices[k], ReassignEvent(s, event, to, shown, available).state.notices[k];
      && after == n.(read := after.read)
      && (after.read <==> n.read || (n.recipient == shown && n.event == event && FollowsTheEvent(n.kind)))
  {
    MapIndexes(s.notices, (n: Notice) => Cleared(n, event, shown));
  }

  /** After a reassignment no unread notice that follows the event is left with the former coordinator. */
  lemma NothingStaysBehind(s: State, event: EventId, to: UserId, shown: UserId, available: bool)
    requires ReassignEvent(s, event, to, shown, available).Done?
    ensures var after := ReassignEvent(s, event, to, shown, available).state;
      && IsCurrent(after, event, to)
      && forall k :: 0 <= k < |after.notices| ==> !LeftBehind(after.notices[k], event, shown)
  {
    var after := ReassignEvent(s, event, to, shown, available).state;
    MapIndexes(s.notices, (n: Notice) => Cleared(n, event, shown));
    forall k | 0 <= k < |after.notices| ensures !LeftBehind(after.notices[k], event, shown) {
      assert k < |s.notices| ==> after.notices[k] == Cleared(s.notices[k], event, shown);
    }
  }

  ghost predicate LeftBehind(n: Notice, event: EventId, former: UserId) {
    n.event == event && n.recipient == former && FollowsTheEvent(n.kind) && !n.read
  }

  lemma AssigneeIsTold(s: State, event: EventId, coordinator: UserId, available: bool)
    requires AssignEvent(s, event, coordinator, available).Done?
    ensures var after := AssignEvent(s, event, coordinator, available).state;
      IsCurrent(after, event, coordinator) && Told(after.notices, event, coordinator, AssignmentNotice)
  {
    assert AssignEvent(s, event, coordinator, available).state.notices[|s.notices|].kind == AssignmentNotice;
  }

  /** A Safety Officer's response is not among them: its unread notice stays with whoever had the event. */
  lemma SafetyResponseStaysBehind(event: EventId, organiser: UserId, former: UserId, next: UserId)
    requires former != next
    ensures var s := Run(State(map[], [], {}, {}),
                         [SubmitEvent(event, organiser), Assign(event, former, true), RespondSafety(event),
                          Reassign(event, next, former, true)]);
      IsCurrent(s, event, next) && Notice(former, event, SafetyResponseNotice, false) in s.notices
  {
    var submit, assign := SubmitEvent(event, organiser), Assign(event, former, true);
    var respond, reassign := RespondSafety(event), Reassign(event, next, former, true);
    var s0 := State(map[], [], {}, {});
    var s3 := Step(Step(Step(s0, submit), assign), respond);
    var s4 := Step(s3, reassign);
    assert s3.notices ==
      [Notice(former, event, AssignmentNotice, false), Notice(former, event, SafetyResponseNotice, false)];
    ReassignmentClearsExactly(s3, event, next, former, true, 1);
    assert s4.notices[1] == Notice(former, event, SafetyResponseNotice, false);
    TwoSteps(s0, [submit, assign, respond, reassign]);
    TwoSteps(Step(Step(s0, submit), assign), [submit, assign, respond, reassign][2..]);
  }

  lemma TwoSteps(s: State, ops: seq<Op>)
    requires |ops| >= 2
    ensures Run(s, ops) == Run(Step(Step(s, ops[0]), ops[1]), ops[2..])
  {
    assert Run(s, ops) == Run(Step(s, ops[0]), ops[1..]);
    assert ops[1..][0] == ops[1] && ops[1..][1..] == ops[2..];
  }

  // ------------------------------------------------------------------ when, and what it writes

  /** Every kind follows the event but the notice of having lost it and the Safety Officer's response. */
  lemma FollowingKinds(kind: Kind)
    ensures FollowsTheEvent(kind) <==> kind != UnassignmentNotice && kind != SafetyResponseNotice
  {
  }

  /** What a new coordinator hears of requests that were waiting. */
  ghost function Waiting(s: State, event: EventId, u: UserId): seq<Notice> {
    (if event in s.pendingChange then [Notice(u, event, ChangeRequestNotice, false)] else [])
    + (if event in s.pendingCancellation then [Notice(u, event, CancellationRequestNotice, false)] else [])
  }

  /** What the assigned coordinator hears, if there is one. */
  ghost function ToCoordinator(s: State, event: EventId, kind: Kind): seq<Notice> {
    if event in s.events && s.events[event].coordinator.Some?
    then [Notice(s.events[event].coordinator.value, event, kind, false)] else []
  }

  ghost predicate IsOpen(status: EventStatus) {
    status != EventStatus.Rejected && status != EventStatus.Completed && status != EventStatus.Cancelled
  }

  lemma ActiveMeansOpen(status: EventStatus)
    ensures IsActiveWorkload(status) <==> IsOpen(status)
    ensures IsCancellable(status) <==> IsOpen(status)
  {
    CancellableUnlessOver(status);
  }

  /** A submitted event without a coordinator gets an available one, who is told of it and of what is waiting. */
  lemma AssignmentIs(s: State, event: EventId, coordinator: UserId, available: bool)
    ensures AssignEvent(s, event, coordinator, available).Done? <==>
      && event in s.events && s.events[event].coordinator.None? && s.events[event].status == EventStatus.Submitted
      && available
    ensures AssignEvent(s, event, coordinator, available).Done? ==>
      var row, after := s.events[event], AssignEvent(s, event, coordinator, available).state;
      && after == s.(events := after.events, notices := after.notices)
      && after.events == s.events[event := EventRow(row.organiser, row.status, Some(coordinator), row.moves)]
      && after.notices
           == s.notices + [Notice(coordinator, event, AssignmentNotice, false)] + Waiting(s, event, coordinator)
    ensures AssignEvent(s, event, coordinator, available).Done?
      || AssignEvent(s, event, coordinator, available) == Refused(
           if event !in s.events then EventNotFound
           else if s.events[event].coordinator.Some? then AlreadyAssigned
           else if s.events[event].status != EventStatus.Submitted then NotAwaitingAssignment
           else CoordinatorUnavailable)
  {
  }

  /** The coordinator shown on the page is replaced by another, available one, while the event is open. */
  lemma ReassignmentIsAccepted(s: State, event: EventId, to: UserId, shown: UserId, available: bool)
    ensures ReassignEvent(s, event, to, shown, available).Done? <==>
      && event in s.events && s.events[event].coordinator == Some(shown) && IsOpen(s.events[event].status)
      && to != shown && available
    ensures ReassignEvent(s, event, to, shown, available).Done?
      || ReassignEvent(s, event, to, shown, available) == Refused(
           if event !in s.events then EventNotFound
           else if s.events[event].coordinator.None? || !IsOpen(s.events[event].status) then NotReassignable
           else if s.events[event].coordinator != Some(shown) then ChangedSinceLoaded
           else if to == shown then SameCoordinator else CoordinatorUnavailable)
  {
    if event in s.events {
      ActiveMeansOpen(s.events[event].status);
    }
  }

  /** It is recorded, and both coordinators are told: the new one also of what is waiting. */
  lemma ReassignmentWrites(s: State, event: EventId, to: UserId, shown: UserId, available: bool)
    requires ReassignEvent(s, event, to, shown, available).Done?
    ensures event in s.events
    ensures var row, after := s.events[event], ReassignEvent(s, event, to, shown, available).state;
      && after == s.(events := after.events, notices := after.notices)
      && after.events == s.events[event := EventRow(row.organiser, row.status, Some(to), row.moves + [Move(shown, to)])]
      && after.notices[|s.notices|..]
           == [Notice(to, event, ReassignmentNotice, false), Notice(shown, event, UnassignmentNotice, false)]
              + Waiting(s, event, to)
  {
  }

  /** A request is filed once while the event is open, and the coordinator is told; it ends only if it is pending. */
  lemma ChangeRequestsAre(s: State, event: EventId)
    ensures Apply(s, RequestChange(event)).Done?
      <==> event in s.events && IsOpen(s.events[event].status) && event !in s.pendingChange
    ensures Apply(s, RequestChange(event)).Done? ==>
      Apply(s, RequestChange(event)).state
        == s.(notices := s.notices + ToCoordinator(s, event, ChangeRequestNotice),
              pendingChange := s.pendingChange + {event})
    ensures Apply(s, EndChange(event)).Done? <==> event in s.pendingChange
    ensures Apply(s, EndChange(event)).Done? ==>
      Apply(s, EndChange(event)).state == s.(pendingChange := s.pendingChange - {event})
  {
    if event in s.events {
      ActiveMeansOpen(s.events[event].status);
    }
  }

  lemma CancellationRequestsAre(s: State, event: EventId)
    ensures Apply(s, RequestCancellation(event)).Done?
      <==> event in s.events && IsOpen(s.events[event].status) && event !in s.pendingCancellation
    ensures Apply(s, RequestCancellation(event)).Done? ==>
      Apply(s, RequestCancellation(event)).state
        == s.(notices := s.notices + ToCoordinator(s, event, CancellationRequestNotice),
              pendingCancellation := s.pendingCancellation + {event})
    ensures Apply(s, EndCancellation(event)).Done? <==> event in s.pendingCancellation
    ensures Apply(s, EndCancellation(event)).Done? ==>
      Apply(s, EndCancellation(event)).state == s.(pendingCancellation := s.pendingCancellation - {event})
  {
    if event in s.events {
      ActiveMeansOpen(s.events[event].status);
    }
  }

  lemma RequestRefusals(s: State, event: EventId)
    ensures var refused := if event !in s.events then EventNotFound
                           else if !IsOpen(s.events[event].status) then RequestClosed else RequestPending;
      && (Apply(s, RequestChange(event)).Done? || Apply(s, RequestChange(event)) == Refused(refused))
      && (Apply(s, RequestCancellation(event)).Done? || Apply(s, RequestCancellation(event)) == Refused(refused))
    ensures Apply(s, EndChange(event)).Done? || Apply(s, EndChange(event)) == Refused(NothingPending)
    ensures Apply(s, EndCancellation(event)).Done? || Apply(s, EndCancellation(event)) == Refused(NothingPending)
  {
    if event in s.events {
      ActiveMeansOpen(s.events[event].status);
    }
  }

  /** Decisions, holds, venue changes and safety responses tell the coordinator; a cancelled event's holds nobody. */
  lemma DecisionsAreTold(s: State, event: EventId)
    ensures Apply(s, DecideEquipment(event))
      == Done(s.(notices := s.notices + ToCoordinator(s, event, EquipmentDecisionNotice)))
    ensures Apply(s, DecideBooking(event))
      == Done(s.(notices := s.notices + ToCoordinator(s, event, VenueDecisionNotice)))
    ensures Apply(s, ChangeVenue(event)) == Done(s.(notices := s.notices + ToCoordinator(s, event, VenueImpactNotice)))
  {
  }

  lemma HoldsAndResponsesAreTold(s: State, event: EventId)
    ensures Apply(s, RespondSafety(event))
      == Done(s.(notices := s.notices + ToCoordinator(s, event, SafetyResponseNotice)))
    ensures var cancelled := event in s.events && s.events[event].status == EventStatus.Cancelled;
      Apply(s, ChangeHold(event))
        == Done(if cancelled then s else s.(notices := s.notices + ToCoordinator(s, event, HoldLifecycleNotice)))
  {
  }

  /** The caller coordinates the event. */
  ghost predicate Coordinates(s: State, event: EventId, caller: Caller) {
    event in s.events && caller.coordinates && s.events[event].coordinator == Some(caller.id)
  }

  ghost predicate Organises(s: State, event: EventId, caller: Caller) {
    event in s.events && caller.organises && s.events[event].organiser == caller.id
  }

  /** The coordinator opens a clarification until the event is confirmed, and the organiser is told. */
  lemma ClarificationIsOpened(s: State, event: EventId, caller: Caller)
    ensures Apply(s, Clarify(event, caller)).Done? <==>
      && Coordinates(s, event, caller)
      && s.events[event].status != EventStatus.Confirmed && IsOpen(s.events[event].status)
    ensures Apply(s, Clarify(event, caller)).Done? ==>
      Apply(s, Clarify(event, caller)).state
        == s.(notices := s.notices + [Notice(s.events[event].organiser, event, ClarificationNotice, false)])
  {
    if event in s.events {
      match s.events[event].status
      case Submitted =>
      case Approved =>
      case Rejected =>
      case Planning =>
      case Confirmed =>
      case Completed =>
      case Cancelled =>
    }
  }

  /** Either side answers an open thread until the event is confirmed, or resolves it until it is cancelled. */
  lemma ClarificationIsAnswered(s: State, event: EventId, caller: Caller, resolves: bool, isOpen: bool)
    ensures Apply(s, Answer(event, caller, resolves, isOpen)).Done? <==>
      && (Coordinates(s, event, caller) || Organises(s, event, caller)) && isOpen
      && s.events[event].status != EventStatus.Cancelled
      && (s.events[event].status == EventStatus.Confirmed ==> resolves)
    ensures Apply(s, Answer(event, caller, resolves, isOpen)).Done? ==>
      Apply(s, Answer(event, caller, resolves, isOpen)).state
        == s.(notices := s.notices
                + if Coordinates(s, event, caller)
                  then [Notice(s.events[event].organiser, event, ClarificationNotice, false)]
                  else ToCoordinator(s, event, ClarificationNotice))
  {
  }

  lemma ClarificationRefusals(s: State, event: EventId, caller: Caller, resolves: bool, isOpen: bool)
    ensures Apply(s, Clarify(event, caller)).Done? || Apply(s, Clarify(event, caller)) == Refused(
      if event !in s.events then EventNotFound
      else if !Coordinates(s, event, caller) then NotYours else ClarificationsClosed)
    ensures Apply(s, Answer(event, caller, resolves, isOpen)).Done?
      || Apply(s, Answer(event, caller, resolves, isOpen)) == Refused(
           if event !in s.events then EventNotFound
           else if !Coordinates(s, event, caller) && !Organises(s, event, caller) then NotYours
           else if s.events[event].status == EventStatus.Cancelled
                   || (s.events[event].status == EventStatus.Confirmed && !resolves) then ClarificationsClosed
           else NothingPending)
  {
  }

  /** Reading a notice, moving a status and submitting an event write that one row. */
  lemma RowsAreWritten(s: State, k: nat, event: EventId, status: EventStatus, organiser: UserId)
    ensures Apply(s, MarkRead(k)).Done? <==> k < |s.notices|
    ensures k < |s.notices| ==>
      var n := s.notices[k];
      Apply(s, MarkRead(k)).state == s.(notices := s.notices[k := Notice(n.recipient, n.event, n.kind, true)])
    ensures Apply(s, MoveStatus(event, status)).Done? <==> event in s.events
    ensures event in s.events ==>
      var row := s.events[event];
      Apply(s, MoveStatus(event, status)).state
        == s.(events := s.events[event := EventRow(row.organiser, status, row.coordinator, row.moves)])
    ensures Apply(s, SubmitEvent(event, organiser)).Done? <==> event !in s.events
    ensures event !in s.events ==>
      Apply(s, SubmitEvent(event, organiser)).state
        == s.(events := s.events[event := EventRow(organiser, EventStatus.Submitted, None, [])])
  {
  }

  // ------------------------------------------------------------------ the service

  class LeadAssignmentService {
    var events: map<EventId, EventRow>
    var notices: seq<Notice>
    var pendingChange: set<EventId>
    var pendingCancellation: set<EventId>

    ghost function View(): State
      reads this
    {
      State(events, notices, pendingChange, pendingCancellation)
    }

    constructor ()
      ensures View() == State(map[], [], {}, {}) && Invariant(View())
    {
      events, notices, pendingChange, pendingCancellation := map[], [], {}, {};
    }

    method InsertNotice(recipient: UserId, event: EventId, kind: Kind)
      modifies `notices
      ensures View() == Notify(old(View()), recipient, event, kind)
    {
      notices := notices + [Notice(recipient, event, kind, false)];
    }

    method InsertPendingNotices(event: EventId, coordinator: UserId)
      modifies `notices
      ensures View() == NotifyPending(old(View()), event, coordinator)
    {
      if event in pendingChange {
        InsertNotice(coordinator, event, ChangeRequestNotice);
      }
      if event in pendingCancellation {
        InsertNotice(coordinator, event, CancellationRequestNotice);
      }
    }

    method AssignRow(event: EventId, coordinator: UserId, available: bool) returns (refusal: Option<Refusal>)
      requires Invariant(View())
      modifies this
      ensures View() == Step(old(View()), Assign(event, coordinator, available)) && Invariant(View())
      ensures refusal.None? ==>
        IsCurrent(View(), event, coordinator) && Told(notices, event, coordinator, AssignmentNotice)
      ensures refusal.None? <==> AssignEvent(old(View()), event, coordinator, available).Done?
      ensures refusal.Some? ==> AssignEvent(old(View()), event, coordinator, available) == Refused(refusal.value)
    {
      StepKeepsInvariant(View(), Assign(event, coordinator, available));
      if AssignEvent(View(), event, coordinator, available).Done? {
        AssigneeIsTold(View(), event, coordinator, available);
      }
      refusal := AssignInside(event, coordinator, available);
    }

    method AssignInside(event: EventId, coordinator: UserId, available: bool) returns (refusal: Option<Refusal>)
      modifies `events, `notices
      ensures View() == Step(old(View()), Assign(event, coordinator, available))
      ensures refusal.None? <==> AssignEvent(old(View()), event, coordinator, available).Done?
      ensures refusal.Some? ==> AssignEvent(old(View()), event, coordinator, available) == Refused(refusal.value)
    {
      if event !in events { return Some(EventNotFound); }
      if events[event].coordinator.Some? { return Some(AlreadyAssigned); }
      if events[event].status != EventStatus.Submitted { return Some(NotAwaitingAssignment); }
      if !available { return Some(CoordinatorUnavailable); }
      events := events[event := events[event].(coordinator := Some(coordinator))];
      InsertNotice(coordinator, event, AssignmentNotice);
      InsertPendingNotices(event, coordinator);
      refusal := None;
    }

    method ReassignRow(event: EventId, to: UserId, shown: UserId, available: bool) returns (refusal: Option<Refusal>)
      requires Invariant(View())
      modifies this
      ensures View() == Step(old(View()), Reassign(event, to, shown, available)) && Invariant(View())
      ensures refusal.None? ==>
        IsCurrent(View(), event, to) && forall k :: 0 <= k < |notices| ==> !LeftBehind(notices[k], event, shown)
      ensures refusal.None? <==> ReassignEvent(old(View()), event, to, shown, available).Done?
      ensures refusal.Some? ==> ReassignEvent(old(View()), event, to, shown, available) == Refused(refusal.value)
    {
      StepKeepsInvariant(View(), Reassign(event, to, shown, available));
      if ReassignEvent(View(), event, to, shown, available).Done? {
        NothingStaysBehind(View(), event, to, shown, available);
      }
      refusal := ReassignInside(event, to, shown, available);
    }

    method ReassignInside(event: EventId, to: UserId, shown: UserId, available: bool) returns (refusal: Option<Refusal>)
      modifies `events, `notices
      ensures View() == Step(old(View()), Reassign(event, to, shown, available))
      ensures refusal.None? <==> ReassignEvent(old(View()), event, to, shown, available).Done?
      ensures refusal.Some? ==> ReassignEvent(old(View()), event, to, shown, available) == Refused(refusal.value)
    {
      if event !in events { return Some(EventNotFound); }
      var row := events[event];
      if row.coordinator.None? || !IsActiveWorkload(row.status) { return Some(NotReassignable); }
      if row.coordinator.value != shown { return Some(ChangedSinceLoaded); }
      if shown == to { return Some(SameCoordinator); }
      if !available { return Some(CoordinatorUnavailable); }
      events := events[event := row.(coordinator := Some(to))];
      events := events[event := events[event].(moves := row.moves + [Move(shown, to)])];
      notices := Map(notices, (n: Notice) => Cleared(n, event, shown));
      InsertNotice(to, event, ReassignmentNotice);
      InsertNotice(shown, event, UnassignmentNotice);
      InsertPendingNotices(event, to);
      refusal := None;
    }
  }
}
