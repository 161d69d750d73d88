/**
 An organiser's cancellation requests (backend/src/events/cancellation-requests/cancellation-requests.service.ts): many
 events, each with its requests, decided by the coordinator assigned at that moment. Accepting runs the cancellation in
 the same transaction.
 */
module CancellationRequests {
  import opened Wrappers
  import opened EventTypes
  import opened Lists

  type EventId = nat
  type UserId = nat

  datatype RequestStatus = Pending | Accepted | Declined

  datatype Request = Request(id: nat, event: EventId, status: RequestStatus, decidedBy: Option<UserId>)

  datatype EventRow = EventRow(status: EventStatus, organiser: UserId, coordinator: Option<UserId>)

  datatype State = State(events: map<EventId, EventRow>, requests: seq<Request>, nextId: nat)

  datatype Refusal =
    EventNotFound | Forbidden | NotCancellable | RequestPending | AlreadyDecided | ReleaseFailed | NotMoved

  datatype Result = Done(state: State) | Refused(reason: Refusal)

  predicate HasPending(s: State, event: EventId) {
    exists k :: 0 <= k < |s.requests| && s.requests[k].event == event && s.requests[k].status == Pending
  }

  function FileRequest(s: State, organiser: UserId, event: EventId): Result {
    if event !in s.events then Refused(EventNotFound)
    else if s.events[event].organiser != organiser then Refused(Forbidden)
    else if !IsCancellable(s.events[event].status) then Refused(NotCancellable)
    else if HasPending(s, event) then Refused(RequestPending)
    else Done(s.(requests := s.requests + [Request(s.nextId, event, Pending, None)], nextId := s.nextId + 1))
  }

  function IndexOf(requests: seq<Request>, id: nat): Option<nat> {
    IndexWhere(requests, (request: Request) => request.id == id)
  }

  function Cancelled(s: State, event: EventId): State
    requires event in s.events
  {
    s.(events := s.events[event := s.events[event].(status := EventStatus.Cancelled)])
  }

  function Decided(s: State, k: nat, decider: UserId, accept: bool): State
    requires k < |s.requests|
  {
    s.(requests :=
      s.requests[k := s.requests[k].(status := if accept then Accepted else Declined, decidedBy := Some(decider))])
  }

  /** `releasesFail` is a fault inside the cancellation: it rolls the decision back with everything else. */
  function DecideRequest(s: State, coordinator: UserId, id: nat, accept: bool, releasesFail: bool): Result {
    match IndexOf(s.requests, id)
    case None => Refused(Forbidden)
    case Some(k) =>
      var request := s.requests[k];
      if request.event !in s.events then Refused(Forbidden)
      else if s.events[request.event].coordinator != Some(coordinator) then Refused(Forbidden)
      else if request.status != Pending then Refused(AlreadyDecided)
      else if !IsCancellable(s.events[request.event].status) then Refused(NotCancellable)
      else if accept && releasesFail then Refused(ReleaseFailed)
      else Done(if accept then Cancelled(Decided(s, k, coordinator, accept), request.event)
                else Decided(s, k, coordinator, accept))
  }

  function CancelDirectly(s: State, coordinator: UserId, event: EventId): Result {
    if event !in s.events then Refused(EventNotFound)
    else if s.events[event].coordinator != Some(coordinator) then Refused(Forbidden)
    else if !IsCancellable(s.events[event].status) then Refused(NotCancellable)
    else Done(Cancelled(s, event))
  }

  /** Every other status change and reassignment: a terminal status is never left (SafetyGate.HistoryIsAChain). */
  function MoveEvent(s: State, event: EventId, row: EventRow): Result {
    if event !in s.events || row.organiser != s.events[event].organiser then Refused(NotMoved)
    else if IsTerminal(s.events[event].status) && row.status != s.events[event].status then Refused(NotMoved)
    else Done(s.(events := s.events[event := row]))
  }

  datatype Op =
    | CreateOp(organiser: UserId, event: EventId)
    | DecideOp(coordinator: UserId, id: nat, accept: bool, releasesFail: bool)
    | CancelOp(coordinator: UserId, event: EventId)
    | MoveOp(event: EventId, row: EventRow)
    | SubmitEvent(event: EventId, organiser: UserId)

  function Apply(s: State, op: Op): Result {
    match op
    case CreateOp(organiser, event) => FileRequest(s, organiser, event)
    case DecideOp(coordinator, id, accept, fails) => DecideRequest(s, coordinator, id, accept, fails)
    case CancelOp(coordinator, event) => CancelDirectly(s, coordinator, event)
    case MoveOp(event, row) => MoveEvent(s, event, row)
    case SubmitEvent(event, organiser) =>
      if event in s.events then Refused(NotMoved)
      else Done(s.(events := s.events[event := EventRow(EventStatus.Submitted, organiser, None)]))
  }

  function Step(s: State, op: Op): State {
    if Apply(s, op).Done? then Apply(s, op).state else s
  }

  function Run(s: State, ops: seq<Op>): State
    decreases |ops|
  {
    if ops == [] then s else Run(Step(s, ops[0]), ops[1..])
  }

  /** A run that goes on takes the next step from where it stood. */
  lemma {:induction false} RunTakesTheNextStep(s: State, ops: seq<Op>, op: Op)
    ensures Run(s, ops + [op]) == Step(Run(s, ops), op)
    decreases |ops|
  {
    var longer := ops + [op];
    if ops == [] {
      assert longer[0] == op && longer[1..] == [];
    } else {
      assert longer[0] == ops[0] && longer[1..] == ops[1..] + [op];
      RunTakesTheNextStep(Step(s, ops[0]), ops[1..], op);
    }
  }

  // ------------------------------------------------------------------ the protocol

  /** Two requests of one event never share a status that only one of them may have. */
  ghost predicate OneOfEach(requests: seq<Request>, i: nat, j: nat)
    requires i < |requests| && j < |requests|
  {
    requests[i].event == requests[j].event && requests[i].status == requests[j].status ==>
      requests[i].status == Declined
  }

  /** An accepted request means a Cancelled event; a decided one names who decided; ids are fresh. */
  ghost predicate RequestOk(s: State, k: nat)
    requires k < |s.requests|
  {
    var request := s.requests[k];
    && request.event in s.events && request.id < s.nextId
    && (request.status == Accepted ==> s.events[request.event].status == EventStatus.Cancelled)
    && (request.status == Pending <==> request.decidedBy.None?)
  }

  ghost predicate Protocol(s: State) {
    && (forall i, j {:trigger OneOfEach(s.requests, i, j)} :: 0 <= i < j < |s.requests| ==> OneOfEach(s.requests, i, j))
    && (forall k {:trigger RequestOk(s, k)} :: 0 <= k < |s.requests| ==> RequestOk(s, k))
  }

  /** Decided requests never change, and rows are only appended. */
  ghost predicate KeepsDecided(s: State, after: State) {
    && |s.requests| <= |after.requests|
    && forall k :: 0 <= k < |s.requests| ==>
         && after.requests[k].id == s.requests[k].id && after.requests[k].event == s.requests[k].event
         && (s.requests[k].status != Pending ==> after.requests[k] == s.requests[k])
  }

  lemma StepKeepsProtocol(s: State, op: Op)
    requires Protocol(s)
    ensures Protocol(Step(s, op))
  {
    var after := Step(s, op);
    forall i, j | 0 <= i < j < |after.requests| ensures OneOfEach(after.requests, i, j) {
      OneOfEachAfter(s, op, i, j);
    }
    forall k | 0 <= k < |after.requests| ensures RequestOk(after, k) {
      assert k < |s.requests| ==> RequestOk(s, k);
    }
  }

  lemma OneOfEachAfter(s: State, op: Op, i: nat, j: nat)
    requires Protocol(s) && i < j < |Step(s, op).requests|
    ensures OneOfEach(Step(s, op).requests, i, j)
  {
    assert j < |s.requests| ==> OneOfEach(s.requests, i, j);
    if Apply(s, op).Done? {
      match op
      case CreateOp(organiser, event) =>
        assert i < |s.requests| ==> RequestOk(s, i);
      case DecideOp(coordinator, id, accept, fails) =>
        assert RequestOk(s, i) && RequestOk(s, j);
      case _ =>
    }
  }

  lemma StepKeepsDecided(s: State, op: Op)
    ensures KeepsDecided(s, Step(s, op))
  {
  }

  /**
   Under any interleaving of filing, deciding, direct cancellation, completion and reassignment: an event has at most
   one pending and at most one accepted request, an accepted request means a Cancelled event, and a decided request
   never changes again.
   */
  lemma {:induction false} ProtocolHolds(s: State, ops: seq<Op>)
    requires Protocol(s)
    ensures Protocol(Run(s, ops)) && KeepsDecided(s, Run(s, ops))
    decreases |ops|
  {
    if ops != [] {
      StepKeepsProtocol(s, ops[0]);
      StepKeepsDecided(s, ops[0]);
      ProtocolHolds(Step(s, ops[0]), ops[1..]);
    }
  }

  lemma ClosedStaysUndecided(s: State, op: Op, k: nat)
    requires k < |s.requests| && s.requests[k].status == Pending
    requires s.requests[k].event in s.events && IsTerminal(s.events[s.requests[k].event].status)
    ensures k < |Step(s, op).requests| && Step(s, op).requests[k] == s.requests[k]
    ensures s.requests[k].event in Step(s, op).events
    ensures Step(s, op).events[s.requests[k].event].status == s.events[s.requests[k].event].status
  {
  }

  /** A terminal event freezes its pending request: after any run the row still reads Pending, so nobody decided it. */
  lemma {:induction false} ClosedIsForever(s: State, ops: seq<Op>, k: nat)
    requires k < |s.requests| && s.requests[k].status == Pending
    requires s.requests[k].event in s.events && IsTerminal(s.events[s.requests[k].event].status)
    ensures k < |Run(s, ops).requests| && Run(s, ops).requests[k] == s.requests[k]
    decreases |ops|
  {
    if ops != [] {
      ClosedStaysUndecided(s, ops[0], k);
      ClosedIsForever(Step(s, ops[0]), ops[1..], k);
    }
  }

  /** Deciding touches one request and, exactly when it accepts, one event; a failing release leaves everything. */
  lemma DecisionIsOneStep(s: State, coordinator: UserId, id: nat, accept: bool, fails: bool)
    requires DecideRequest(s, coordinator, id, accept, fails).Done?
    ensures var k := IndexOf(s.requests, id).value;
      var after := DecideRequest(s, coordinator, id, accept, fails).state;
      && s.requests[k].status == Pending && after.requests[k].decidedBy == Some(coordinator)
      && (forall i :: 0 <= i < |s.requests| && i != k ==> after.requests[i] == s.requests[i])
      && (accept <==> after.requests[k].status == Accepted)
      && (accept <==> after.events[s.requests[k].event].status == EventStatus.Cancelled)
      && (forall e :: e in s.events && (e != s.requests[k].event || !accept) ==> after.events[e] == s.events[e])
  {
  }

  // ------------------------------------------------------------------ when, and what it writes

  /** The event is there and not over. */
  ghost predicate IsOpen(s: State, event: EventId) {
    && event in s.events
    && s.events[event].status != EventStatus.Rejected && s.events[event].status != EventStatus.Completed
    && s.events[event].status != EventStatus.Cancelled
  }

  /** The same event row under the status Cancelled. */
  ghost predicate IsCancelledIn(s: State, after: map<EventId, EventRow>, event: EventId)
    requires event in s.events
  {
    after == s.events[event := EventRow(EventStatus.Cancelled, s.events[event].organiser, s.events[event].coordinator)]
  }

  /** Only the organiser files, for an open event without a pending request; each refusal has its reason, in order. */
  lemma FilingIsAccepted(s: State, organiser: UserId, event: EventId)
    ensures var result := FileRequest(s, organiser, event);
      var own := event in s.events && s.events[event].organiser == organiser;
      var asked := exists k :: 0 <= k < |s.requests| && s.requests[k].event == event && s.requests[k].status == Pending;
      && (result.Done? <==> own && IsOpen(s, event) && !asked)
      && (result.Done? ==>
            result.state
              == s.(requests := s.requests + [Request(s.nextId, event, Pending, None)], nextId := s.nextId + 1))
      && (result == Refused(EventNotFound) <==> event !in s.events)
      && (result == Refused(Forbidden) <==> event in s.events && s.events[event].organiser != organiser)
      && (result == Refused(NotCancellable) <==> own && !IsOpen(s, event))
      && (result == Refused(RequestPending) <==> own && IsOpen(s, event) && asked)
  {
    if event in s.events {
      CancellableUnlessOver(s.events[event].status);
    }
  }

  /** The request the identifier names: the first row that carries it. */
  ghost predicate Names(requests: seq<Request>, id: nat, k: nat) {
    k < |requests| && requests[k].id == id && forall i :: 0 <= i < k ==> requests[i].id != id
  }

  /** Only the event's current coordinator decides, once, while the event is open; a fault refuses an acceptance. */
  lemma DecisionIsAccepted(s: State, coordinator: UserId, id: nat, k: nat, accept: bool, fails: bool)
    requires Names(s.requests, id, k)
    ensures var request, result := s.requests[k], DecideRequest(s, coordinator, id, accept, fails);
      var own := request.event in s.events && s.events[request.event].coordinator == Some(coordinator);
      && (result.Done? <==>
            own && request.status == Pending && IsOpen(s, request.event) && (accept ==> !fails))
      && (result == Refused(Forbidden) <==> !own)
      && (result == Refused(AlreadyDecided) <==> own && request.status != Pending)
      && (result == Refused(NotCancellable) <==> own && request.status == Pending && !IsOpen(s, request.event))
      && (result == Refused(ReleaseFailed) <==>
            own && request.status == Pending && IsOpen(s, request.event) && accept && fails)
  {
    assert IndexOf(s.requests, id) == Some(k);
    if s.requests[k].event in s.events {
      CancellableUnlessOver(s.events[s.requests[k].event].status);
    }
  }

  /** It records who decided what on that one row, and an acceptance cancels that one event with it. */
  lemma DecisionWrites(s: State, coordinator: UserId, id: nat, k: nat, accept: bool, fails: bool)
    requires Names(s.requests, id, k) && DecideRequest(s, coordinator, id, accept, fails).Done?
    ensures var request, after := s.requests[k], DecideRequest(s, coordinator, id, accept, fails).state;
      var status := if accept then Accepted else Declined;
      && after == s.(events := after.events, requests := after.requests)
      && after.requests == s.requests[k := Request(id, request.event, status, Some(coordinator))]
      && request.event in s.events
      && if accept then IsCancelledIn(s, after.events, request.event) else after.events == s.events
  {
    assert IndexOf(s.requests, id) == Some(k);
  }

  lemma UnknownRequestIsForbidden(s: State, coordinator: UserId, id: nat, accept: bool, fails: bool)
    requires forall k :: 0 <= k < |s.requests| ==> s.requests[k].id != id
    ensures DecideRequest(s, coordinator, id, accept, fails) == Refused(Forbidden)
  {
  }

  /** The coordinator of an open event cancels it without touching any request. */
  lemma DirectCancellation(s: State, coordinator: UserId, event: EventId)
    ensures Apply(s, CancelOp(coordinator, event)).Done?
      <==> IsOpen(s, event) && s.events[event].coordinator == Some(coordinator)
    ensures Apply(s, CancelOp(coordinator, event)).Done? ==>
      var after := Apply(s, CancelOp(coordinator, event)).state;
      after == s.(events := after.events) && IsCancelledIn(s, after.events, event)
    ensures Apply(s, CancelOp(coordinator, event)).Done? || Apply(s, CancelOp(coordinator, event)) == Refused(
      if event !in s.events then EventNotFound
      else if s.events[event].coordinator != Some(coordinator) then Forbidden else NotCancellable)
  {
    if event in s.events {
      CancellableUnlessOver(s.events[event].status);
    }
  }

  /** The other writers of an event row keep its organiser and never leave a terminal status. */
  lemma EventRowIsWritten(s: State, event: EventId, row: EventRow, organiser: UserId)
    ensures Apply(s, MoveOp(event, row)).Done? <==>
      && event in s.events && row.organiser == s.events[event].organiser
      && (row.status != s.events[event].status ==> IsOpen(s, event))
    ensures Apply(s, MoveOp(event, row)).Done? ==>
      Apply(s, MoveOp(event, row)).state == s.(events := s.events[event := row])
    ensures Apply(s, SubmitEvent(event, organiser)).Done? <==> event !in s.events
    ensures Apply(s, SubmitEvent(event, organiser)).Done? ==>
      Apply(s, SubmitEvent(event, organiser)).state
        == s.(events := s.events[event := EventRow(EventStatus.Submitted, organiser, None)])
  {
    if event in s.events {
      CancellableUnlessOver(s.events[event].status);
    }
  }

  // ------------------------------------------------------------------ the service

  class CancellationRequestsService {
    var events: map<EventId, EventRow>
    var requests: seq<Request>
    var nextId: nat

    ghost function View(): State
      reads this
    {
      State(events, requests, nextId)
    }

    constructor (events: map<EventId, EventRow>)
      ensures View() == State(events, [], 0) && Protocol(View())
    {
      this.events, requests, nextId := events, [], 0;
    }

    method Create(organiser: UserId, event: EventId) returns (refusal: Option<Refusal>)
      requires Protocol(View())
      modifies this
      ensures View() == Step(old(View()), CreateOp(organiser, event)) && Protocol(View())
      ensures refusal.None? <==> FileRequest(old(View()), organiser, event).Done?
      ensures refusal.Some? ==> FileRequest(old(View()), organiser, event) == Refused(refusal.value)
    {
      StepKeepsProtocol(View(), CreateOp(organiser, event));
      if event !in events { return Some(EventNotFound); }
      if events[event].organiser != organiser { return Some(Forbidden); }
      if !IsCancellable(events[event].status) { return Some(NotCancellable); }
      if exists k :: 0 <= k < |requests| && requests[k].event == event && requests[k].status == Pending {
        return Some(RequestPending);
      }
      requests := requests + [Request(nextId, event, Pending, None)];
      nextId := nextId + 1;
      refusal := None;
    }

    /** The request is decided first; a fault in the cancellation that follows restores it. */
    method Decide(coordinator: UserId, id: nat, accept: bool, releasesFail: bool) returns (refusal: Option<Refusal>)
      requires Protocol(View())
      modifies this
      ensures View() == Step(old(View()), DecideOp(coordinator, id, accept, releasesFail)) && Protocol(View())
      ensures refusal.None? <==> DecideRequest(old(View()), coordinator, id, accept, releasesFail).Done?
      ensures refusal.Some? ==>
        DecideRequest(old(View()), coordinator, id, accept, releasesFail) == Refused(refusal.value)
    {
      StepKeepsProtocol(View(), DecideOp(coordinator, id, accept, releasesFail));
      var found := IndexOf(requests, id);
      if found.None? { return Some(Forbidden); }
      var k := found.value;
      var request := requests[k];
      if request.event !in events || events[request.event].coordinator != Some(coordinator) { return Some(Forbidden); }
      if request.status != Pending { return Some(AlreadyDecided); }
      if !IsCancellable(events[request.event].status) { return Some(NotCancellable); }
      var before := requests;
      var decided := request.(status := if accept then Accepted else Declined, decidedBy := Some(coordinator));
      requests := requests[k := decided];
      if accept {
        if releasesFail {
          requests := before;
          return Some(ReleaseFailed);
        }
        events := events[request.event := events[request.event].(status := EventStatus.Cancelled)];
      }
      refusal := None;
    }
  }
}
