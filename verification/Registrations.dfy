/**
 Attendee registration, withdrawal and the waiting list of one event, as the state machine that the event row lock
 serialises (backend/src/registrations/registrations.service.ts, its waitlist/ helpers and
 backend/src/registrations/settings/). Times are instants; an operation that throws inside its transaction leaves the
 state as it was.
 */
module Registrations {
  import opened Wrappers
  import opened EventTypes
  import opened Waitlist

  const MAX_REGISTRATION_CAPACITY: int := 2147483647

  datatype Settings = Settings(enabled: bool, opensAt: Option<int>, closesAt: Option<int>, limit: int)

  datatype EventRow = EventRow(
    status: EventStatus,
    settings: Settings,
    version: nat,
    startsAt: int,
    organiser: UserId,
    coordinator: Option<UserId>
  )

  /** `lastTicket` is the waiting list sequence, which all events share. */
  datatype State = State(event: EventRow, rows: Rows, lastTicket: nat)

  datatype Refusal =
    | EventNotFound | NotOpen | Closed | Disabled | AlreadyRegistered | AlreadyWaiting | Full | WaitlistNotAvailable
    | WaitlistNotPermitted | RegistrationNotFound | EventIsCancelled | NotWithdrawable | AlreadyWithdrawn
    | EventAlreadyOccurred | NotConfigurable | SettingsConflict | InvalidCapacity | CapacityTooLarge | InvalidPeriod
    | Incomplete | CapacityBelowConfirmed | NotCancellable

  datatype Reply = Done | JoinedAt(position: nat) | Refused(reason: Refusal)

  datatype Result = Result(state: State, reply: Reply)

  // ------------------------------------------------------------------ window, settling and filling

  datatype WindowState = Open | WindowNotOpen | WindowClosed | WindowDisabled

  predicate AttendeeVisible(status: EventStatus) {
    status in {EventStatus.Confirmed, EventStatus.Completed, EventStatus.Cancelled}
  }

  /** Inclusive at the opening instant, exclusive at the closing instant. */
  function RegistrationWindowState(event: EventRow, now: int): WindowState {
    var w := event.settings;
    if event.status != EventStatus.Confirmed then WindowClosed
    else if !w.enabled then WindowDisabled
    else if w.opensAt.Some? && now < w.opensAt.value then WindowNotOpen
    else if w.closesAt.Some? && now >= w.closesAt.value then WindowClosed
    else Open
  }

  function WindowRefusal(w: WindowState): Refusal
    requires w != Open
  {
    match w
    case WindowNotOpen => NotOpen
    case WindowClosed => Closed
    case WindowDisabled => Disabled
  }

  /** The one test for "this waiting list is to be removed". */
  predicate Due(w: Settings, now: int) {
    !w.enabled || (w.closesAt.Some? && now >= w.closesAt.value)
  }

  function Settle(w: Settings, rows: Rows, now: int): Rows {
    map u | u in rows ::
      if Due(w, now) && rows[u].status == Waitlisted then rows[u].(status := RowStatus.Removed) else rows[u]
  }

  function Fill(w: Settings, rows: Rows, now: int): Rows {
    var settled := Settle(w, rows, now);
    Promoted(settled, w.limit - |Holders(settled)|)
  }

  // ------------------------------------------------------------------ operations

  function RegisterAttendee(s: State, u: UserId, now: int): Result {
    var w := RegistrationWindowState(s.event, now);
    if !AttendeeVisible(s.event.status) then Result(s, Refused(EventNotFound))
    else if w != Open then Result(s, Refused(WindowRefusal(w)))
    else if u in Holders(s.rows) then Result(s, Refused(AlreadyRegistered))
    else if u in Waiting(s.rows) then Result(s, Refused(AlreadyWaiting))
    else if |Holders(s.rows)| >= s.event.settings.limit then Result(s, Refused(Full))
    else if u in s.rows && s.rows[u].status == RowStatus.Cancelled then Result(s, Refused(AlreadyRegistered))
    else Result(s.(rows := s.rows[u := Row(Registered, None)]), Done)
  }

  function Enqueued(rows: Rows, u: UserId, now: int, ticket: nat): Rows {
    rows[u := Row(Waitlisted, Some(Place(now, ticket)))]
  }

  /** What stops a join, tested on the settled rows in this order. */
  function JoinObstacle(event: EventRow, rows: Rows, u: UserId, now: int): Option<Refusal> {
    var w := RegistrationWindowState(event, now);
    if w != Open then Some(WindowRefusal(w))
    else if u in Holders(rows) then Some(AlreadyRegistered)
    else if u in Waiting(rows) then Some(AlreadyWaiting)
    else if |Holders(rows)| < event.settings.limit then Some(WaitlistNotAvailable)
    else None
  }

  function JoinRefusal(s: State, u: UserId, now: int): Option<Refusal> {
    if !AttendeeVisible(s.event.status) then Some(EventNotFound)
    else if u == s.event.organiser || s.event.coordinator == Some(u) then Some(WaitlistNotPermitted)
    else JoinObstacle(s.event, Settle(s.event.settings, s.rows, now), u, now)
  }

  // A refusal is thrown, so the settling that precedes it is rolled back.
  function JoinQueue(s: State, u: UserId, now: int): Result {
    var refusal, ticket := JoinRefusal(s, u, now), s.lastTicket + 1;
    if refusal.Some? then Result(s, Refused(refusal.value))
    else
      var joined := Enqueued(Settle(s.event.settings, s.rows, now), u, now, ticket);
      Result(s.(rows := joined, lastTicket := ticket), JoinedAt(Position(joined, u)))
  }

  /** The rows once the caller's own row is withdrawn, before the place is offered. */
  function MarkedLeft(rows: Rows, u: UserId): Rows
    requires u in rows
  {
    rows[u := rows[u].(status := RowStatus.Withdrawn)]
  }

  /** What a row that no longer takes part answers to a withdrawal. */
  function NotTakingPart(event: EventRow, status: RowStatus): Option<Refusal> {
    match status
    case Cancelled => Some(if event.status == EventStatus.Cancelled then EventIsCancelled else NotWithdrawable)
    case Removed => Some(NotWithdrawable)
    case Withdrawn => Some(AlreadyWithdrawn)
    case _ => None
  }

  // Refusals after the settling are returned, not thrown, so the settling is kept.
  function WithdrawAttendee(s: State, u: UserId, now: int): Result {
    if u !in s.rows then Result(s, Refused(RegistrationNotFound))
    else
      var settled := if s.rows[u].status == Waitlisted
                     then s.(rows := Settle(s.event.settings, s.rows, now)) else s;
      var row := settled.rows[u];
      var gone := NotTakingPart(s.event, row.status);
      if gone.Some? then Result(settled, Refused(gone.value))
      else if now >= s.event.startsAt then Result(s, Refused(EventAlreadyOccurred))
      else
        var left := MarkedLeft(settled.rows, u);
        Result(s.(rows := if row.status == Waitlisted then left else Fill(s.event.settings, left, now)), Done)
  }

  /** None stands for a field absent from the request. */
  datatype SettingsPatch = SettingsPatch(
    enabled: Option<bool>,
    opensAt: Option<int>,
    closesAt: Option<int>,
    limit: Option<int>
  )

  function Or<T>(patch: Option<T>, saved: T): T {
    if patch.Some? then patch.value else saved
  }

  function Merged(saved: Settings, patch: SettingsPatch): Settings {
    Settings(
      Or(patch.enabled, saved.enabled),
      if patch.opensAt.Some? then patch.opensAt else saved.opensAt,
      if patch.closesAt.Some? then patch.closesAt else saved.closesAt,
      Or(patch.limit, saved.limit)
    )
  }

  function SettingsViolation(saved: Settings, patch: SettingsPatch, startsAt: int, confirmed: int): Option<Refusal> {
    var next := Merged(saved, patch);
    if next.limit < 1 then Some(InvalidCapacity)
    else if next.limit > MAX_REGISTRATION_CAPACITY then Some(CapacityTooLarge)
    else if (patch.opensAt.Some? || patch.closesAt.Some?) && next.closesAt.Some?
            && ((next.opensAt.Some? && next.closesAt.value <= next.opensAt.value) || next.closesAt.value > startsAt)
    then Some(InvalidPeriod)
    else if next.enabled && (next.opensAt.None? || next.closesAt.None?) then Some(Incomplete)
    else if next.limit < confirmed then Some(CapacityBelowConfirmed)
    else None
  }

  predicate Configurable(status: EventStatus) {
    status in {EventStatus.Approved, EventStatus.Planning, EventStatus.Confirmed}
  }

  // The list is settled against the saved window, then against the merged one, so either may empty it.
  function ApplySettings(s: State, version: nat, patch: SettingsPatch, now: int): Result {
    var saved := s.event.settings;
    var rows := Settle(saved, s.rows, now);
    var violation := SettingsViolation(saved, patch, s.event.startsAt, |Holders(rows)|);
    var next := Merged(saved, patch);
    if !Configurable(s.event.status) then Result(s, Refused(NotConfigurable))
    else if version != s.event.version then Result(s, Refused(SettingsConflict))
    else if violation.Some? then Result(s, Refused(violation.value))
    else
      var resettled := Settle(next, rows, now);
      Result(
        s.(event := s.event.(settings := next, version := s.event.version + 1),
           rows := if next.limit > saved.limit then Fill(next, resettled, now) else resettled),
        Done)
  }

  /** The registration part of cancelling the event: Registered rows first, then the settled waiting list. */
  function CancelEvent(s: State, now: int): Result {
    if !IsCancellable(s.event.status) then Result(s, Refused(NotCancellable))
    else
      var released := map u | u in s.rows ::
        if s.rows[u].status == Registered then s.rows[u].(status := RowStatus.Cancelled) else s.rows[u];
      var settled := Settle(s.event.settings, released, now);
      var closed := map u | u in settled ::
        if settled[u].status == Waitlisted then settled[u].(status := RowStatus.Cancelled) else settled[u];
      Result(s.(event := s.event.(status := EventStatus.Cancelled), rows := closed), Done)
  }

  /** One committed transaction; the last two are what the rest of the system does to this event and the sequence. */
  datatype Op =
    | Register(user: UserId, now: int)
    | Join(user: UserId, now: int)
    | Withdraw(user: UserId, now: int)
    | Configure(version: nat, patch: SettingsPatch, now: int)
    | SettleOnRead(now: int)
    | Cancel(now: int)
    | MoveEvent(status: EventStatus, coordinator: Option<UserId>, startsAt: int)
    | DrawTickets(count: nat)

  function Step(s: State, op: Op): Result {
    match op
    case Register(u, now) => RegisterAttendee(s, u, now)
    case Join(u, now) => JoinQueue(s, u, now)
    case Withdraw(u, now) => WithdrawAttendee(s, u, now)
    case Configure(version, patch, now) => ApplySettings(s, version, patch, now)
    case SettleOnRead(now) => Result(s.(rows := Settle(s.event.settings, s.rows, now)), Done)
    case Cancel(now) => CancelEvent(s, now)
    case MoveEvent(status, coordinator, startsAt) =>
      if status == EventStatus.Cancelled then Result(s, Refused(NotCancellable))
      else Result(s.(event := s.event.(status := status, coordinator := coordinator, startsAt := startsAt)), Done)
    case DrawTickets(count) => Result(s.(lastTicket := s.lastTicket + count), Done)
  }

  function Run(s: State, ops: seq<Op>): State
    decreases |ops|
  {
    if ops == [] then s else Run(Step(s, ops[0]).state, ops[1..])
  }

  // ------------------------------------------------------------------ capacity and queue, over every run

  /** Never more holders than places, and nobody waits while a place is free. */
  ghost predicate RowsOk(rows: Rows, limit: int, lastTicket: nat) {
    && |Holders(rows)| <= limit
    && (Waiting(rows) != {} ==> |Holders(rows)| == limit)
    && QueueOk(rows)
    && TicketsUpTo(rows, lastTicket)
  }

  ghost predicate Invariant(s: State) {
    s.event.settings.limit >= 1 && RowsOk(s.rows, s.event.settings.limit, s.lastTicket)
  }

  lemma InitialState(event: EventRow, lastTicket: nat)
    requires event.settings.limit >= 1
    ensures Invariant(State(event, map[], lastTicket))
  {
    assert Holders(map[]) == {};
  }

  lemma SettleSets(w: Settings, rows: Rows, now: int)
    ensures Holders(Settle(w, rows, now)) == Holders(rows)
    ensures Waiting(Settle(w, rows, now)) == if Due(w, now) then {} else Waiting(rows)
    ensures !Due(w, now) ==> Settle(w, rows, now) == rows
  {
  }

  /** Filling takes exactly as many entries as there are free places, or empties the list. */
  lemma FillSizes(w: Settings, rows: Rows, now: int)
    requires QueueOk(rows) && |Holders(rows)| <= w.limit
    ensures QueueOk(Fill(w, rows, now))
    ensures forall last :: TicketsUpTo(rows, last) ==> TicketsUpTo(Fill(w, rows, now), last)
    ensures |Holders(Fill(w, rows, now))| <= w.limit
    ensures Waiting(Fill(w, rows, now)) != {} ==> |Holders(Fill(w, rows, now))| == w.limit
  {
    var settled := Settle(w, rows, now);
    SettleSets(w, rows, now);
    QueueShrinks(rows, settled);
    FilledUp(settled, w.limit - |Holders(settled)|, w.limit);
  }

  lemma CancelSets(s: State, now: int)
    requires IsCancellable(s.event.status)
    ensures Holders(CancelEvent(s, now).state.rows) == {} && Waiting(CancelEvent(s, now).state.rows) == {}
  {
  }

  /** An open list is not due, so an accepted join settles nothing: it only appends the caller's row. */
  lemma JoinAppends(s: State, u: UserId, now: int)
    requires JoinRefusal(s, u, now).None?
    ensures Settle(s.event.settings, s.rows, now) == s.rows
    ensures u !in Holders(s.rows) + Waiting(s.rows) && |Holders(s.rows)| >= s.event.settings.limit
  {
    SettleSets(s.event.settings, s.rows, now);
  }

  /** A join either leaves the state alone or appends one row; the settling it starts with never removes anyone. */
  lemma JoinEffect(s: State, u: UserId, now: int)
    ensures var after := JoinQueue(s, u, now);
      if after.reply.JoinedAt? then
        && u !in Holders(s.rows) + Waiting(s.rows)
        && after.state == s.(rows := Enqueued(s.rows, u, now, s.lastTicket + 1), lastTicket := s.lastTicket + 1)
        && |Holders(s.rows)| >= s.event.settings.limit
        && after.reply.position == Position(after.state.rows, u)
      else after.state == s
  {
    if JoinRefusal(s, u, now).None? {
      JoinAppends(s, u, now);
    }
  }

  /** Cancelling the event: attendees and waiters are Cancelled, waiters of a due list Removed, others as they were. */
  lemma CancelClosesEveryRow(s: State, now: int, u: UserId)
    requires CancelEvent(s, now).reply == Done && u in s.rows
    ensures var was, row := s.rows[u].status, CancelEvent(s, now).state.rows[u];
      && row.place == s.rows[u].place
      && row.status == (if was == Registered then RowStatus.Cancelled
                        else if was != Waitlisted then was
                        else if Due(s.event.settings, now) then RowStatus.Removed else RowStatus.Cancelled)
  {
  }

  lemma EnqueuedKeepsRows(rows: Rows, u: UserId, now: int, limit: int, last: nat)
    requires RowsOk(rows, limit, last) && u !in Holders(rows) + Waiting(rows) && |Holders(rows)| >= limit
    ensures RowsOk(Enqueued(rows, u, now, last + 1), limit, last + 1)
  {
    QueueGrows(rows, u, now, last);
  }

  lemma JoinKeepsInvariant(s: State, u: UserId, now: int)
    requires Invariant(s)
    ensures Invariant(JoinQueue(s, u, now).state)
  {
    if JoinRefusal(s, u, now).None? {
      JoinAppends(s, u, now);
      EnqueuedKeepsRows(s.rows, u, now, s.event.settings.limit, s.lastTicket);
    }
  }

  lemma LeavingSets(rows: Rows, u: UserId)
    requires u in rows && QueueOk(rows)
    ensures Holders(MarkedLeft(rows, u)) == Holders(rows) - {u}
    ensures Waiting(MarkedLeft(rows, u)) == Waiting(rows) - {u}
    ensures |Holders(MarkedLeft(rows, u))| <= |Holders(rows)|
    ensures QueueOk(MarkedLeft(rows, u))
    ensures forall last :: TicketsUpTo(rows, last) ==> TicketsUpTo(MarkedLeft(rows, u), last)
  {
    RowUpdateSets(rows, u, MarkedLeft(rows, u)[u]);
    QueueShrinks(rows, MarkedLeft(rows, u));
    SubsetSize(Holders(MarkedLeft(rows, u)), Holders(rows));
  }

  lemma SettleKeepsRows(w: Settings, rows: Rows, now: int, limit: int, lastTicket: nat)
    requires RowsOk(rows, limit, lastTicket)
    ensures RowsOk(Settle(w, rows, now), limit, lastTicket)
  {
    SettleSets(w, rows, now);
  }

  lemma LeavingKeepsRows(w: Settings, rows: Rows, u: UserId, now: int, lastTicket: nat)
    requires RowsOk(rows, w.limit, lastTicket) && u in rows
    ensures RowsOk(Fill(w, MarkedLeft(rows, u), now), w.limit, lastTicket)
    ensures u !in Holders(rows) ==> RowsOk(MarkedLeft(rows, u), w.limit, lastTicket)
  {
    LeavingSets(rows, u);
    FillSizes(w, MarkedLeft(rows, u), now);
  }

  lemma WithdrawKeepsInvariant(s: State, u: UserId, now: int)
    requires Invariant(s)
    ensures Invariant(WithdrawAttendee(s, u, now).state)
  {
    if u in s.rows {
      var w := s.event.settings;
      if s.rows[u].status == Waitlisted {
        SettleKeepsRows(w, s.rows, now, w.limit, s.lastTicket);
        LeavingKeepsRows(w, Settle(w, s.rows, now), u, now, s.lastTicket);
      } else {
        LeavingKeepsRows(w, s.rows, u, now, s.lastTicket);
      }
    }
  }

  lemma ConfigureKeepsInvariant(s: State, version: nat, patch: SettingsPatch, now: int)
    requires Invariant(s)
    ensures Invariant(ApplySettings(s, version, patch, now).state)
  {
    var saved, next := s.event.settings, Merged(s.event.settings, patch);
    var rows := Settle(saved, s.rows, now);
    SettleKeepsRows(saved, s.rows, now, saved.limit, s.lastTicket);
    SettleKeepsRows(next, rows, now, saved.limit, s.lastTicket);
    SettleSets(next, rows, now);
    if SettingsViolation(saved, patch, s.event.startsAt, |Holders(rows)|).None? {
      FillSizes(next, Settle(next, rows, now), now);
    }
  }

  lemma RegisterKeepsInvariant(s: State, u: UserId, now: int)
    requires Invariant(s)
    ensures Invariant(RegisterAttendee(s, u, now).state)
  {
    var after := RegisterAttendee(s, u, now).state;
    if after != s {
      RowUpdateSets(s.rows, u, Row(Registered, None));
      QueueShrinks(s.rows, after.rows);
    }
  }

  lemma StepKeepsInvariant(s: State, op: Op)
    requires Invariant(s)
    ensures Invariant(Step(s, op).state)
  {
    match op
    case Register(u, now) => RegisterKeepsInvariant(s, u, now);
    case Join(u, now) => JoinKeepsInvariant(s, u, now);
    case Withdraw(u, now) => WithdrawKeepsInvariant(s, u, now);
    case Configure(version, patch, now) => ConfigureKeepsInvariant(s, version, patch, now);
    case SettleOnRead(now) => SettleKeepsRows(s.event.settings, s.rows, now, s.event.settings.limit, s.lastTicket);
    case Cancel(now) => if IsCancellable(s.event.status) { CancelSets(s, now); }
    case _ =>
  }

  /**
   Over every run: Registered rows never exceed the limit, and an entry waits only while the event is exactly full.
   The source promises the second half while registration is open; it holds in every state.
   */
  lemma {:induction false} CapacityAndQueueHold(s: State, ops: seq<Op>)
    requires Invariant(s)
    ensures Invariant(Run(s, ops))
    ensures |Holders(Run(s, ops).rows)| <= Run(s, ops).event.settings.limit
    ensures Waiting(Run(s, ops).rows) != {} ==> |Holders(Run(s, ops).rows)| == Run(s, ops).event.settings.limit
    decreases |ops|
  {
    if ops != [] {
      StepKeepsInvariant(s, ops[0]);
      CapacityAndQueueHold(Step(s, ops[0]).state, ops[1..]);
    }
  }

  // ------------------------------------------------------------------ first come, first served

  ghost predicate JoinIsOnTime(s: State, op: Op) {
    op.Join? ==> NobodyJoinedAfter(s.rows, op.now)
  }

  ghost predicate NobodyJoinedAfter(rows: Rows, from: int) {
    forall u :: u in Waiting(rows) ==> rows[u].place.Some? && rows[u].place.value.joinedAt <= from
  }

  /** If a still waits: only former holders and people ahead of a hold a place, and nobody new is ahead of a. */
  ghost predicate FairTo(rows: Rows, after: Rows, a: UserId) {
    a in Waiting(rows) && a in Waiting(after) ==>
      && Holders(after) <= Holders(rows) + Ahead(rows, a)
      && Ahead(after, a) <= Ahead(rows, a)
  }

  lemma FairInTurn(rows: Rows, middle: Rows, after: Rows, a: UserId)
    requires FairTo(rows, middle, a) && FairTo(middle, after, a)
    requires a in Waiting(after) ==> a in Waiting(middle)
    ensures FairTo(rows, after, a)
  {
  }

  lemma SettleIsFair(w: Settings, rows: Rows, now: int, a: UserId)
    ensures FairTo(rows, Settle(w, rows, now), a)
  {
    SettleSets(w, rows, now);
  }

  lemma LeavingIsFair(rows: Rows, u: UserId, a: UserId)
    requires u in rows
    ensures FairTo(rows, MarkedLeft(rows, u), a)
  {
    RowUpdateSets(rows, u, MarkedLeft(rows, u)[u]);
  }

  lemma PromotionIsFair(rows: Rows, free: int, a: UserId)
    requires QueueOk(rows)
    ensures FairTo(rows, Promoted(rows, free), a)
  {
    PromotedSets(rows, free);
    if free >= 0 && a in Waiting(rows) - Front(rows, free) {
      FrontIsAhead(rows, free, a);
    }
  }

  lemma FillIsFair(w: Settings, rows: Rows, now: int, a: UserId)
    requires QueueOk(rows)
    ensures FairTo(rows, Fill(w, rows, now), a)
    ensures a in Waiting(Fill(w, rows, now)) ==> a in Waiting(rows)
  {
    var settled := Settle(w, rows, now);
    SettleSets(w, rows, now);
    QueueShrinks(rows, settled);
    SettleIsFair(w, rows, now, a);
    PromotionIsFair(settled, w.limit - |Holders(settled)|, a);
    PromotedSets(settled, w.limit - |Holders(settled)|);
    FairInTurn(rows, settled, Fill(w, rows, now), a);
  }

  lemma JoinIsFair(s: State, u: UserId, now: int, a: UserId)
    requires Invariant(s) && JoinIsOnTime(s, Join(u, now))
    ensures FairTo(s.rows, JoinQueue(s, u, now).state.rows, a)
  {
    SettleSets(s.event.settings, s.rows, now);
    if JoinQueue(s, u, now).reply.JoinedAt? && a in Waiting(s.rows) {
      var joined := JoinQueue(s, u, now).state.rows;
      RowUpdateSets(s.rows, u, joined[u]);
      assert !IsAhead(joined, u, a);
    }
  }

  lemma LeavingTheListIsFair(w: Settings, rows: Rows, u: UserId, now: int, a: UserId)
    requires u in rows
    ensures FairTo(rows, Settle(w, rows, now), a)
    ensures FairTo(rows, MarkedLeft(Settle(w, rows, now), u), a)
  {
    var settled := Settle(w, rows, now);
    SettleIsFair(w, rows, now, a);
    LeavingIsFair(settled, u, a);
    RowUpdateSets(settled, u, MarkedLeft(settled, u)[u]);
    FairInTurn(rows, settled, MarkedLeft(settled, u), a);
  }

  lemma HandingOnIsFair(w: Settings, rows: Rows, u: UserId, now: int, a: UserId)
    requires QueueOk(rows) && u in rows
    ensures FairTo(rows, Fill(w, MarkedLeft(rows, u), now), a)
  {
    LeavingSets(rows, u);
    LeavingIsFair(rows, u, a);
    FillIsFair(w, MarkedLeft(rows, u), now, a);
    FairInTurn(rows, MarkedLeft(rows, u), Fill(w, MarkedLeft(rows, u), now), a);
  }

  lemma WithdrawIsFair(s: State, u: UserId, now: int, a: UserId)
    requires Invariant(s)
    ensures FairTo(s.rows, WithdrawAttendee(s, u, now).state.rows, a)
  {
    var after := WithdrawAttendee(s, u, now).state.rows;
    if u in s.rows && after != s.rows {
      if s.rows[u].status == Waitlisted {
        LeavingTheListIsFair(s.event.settings, s.rows, u, now, a);
      } else {
        HandingOnIsFair(s.event.settings, s.rows, u, now, a);
      }
    }
  }

  lemma SettlingTwiceIsFair(saved: Settings, next: Settings, rows: Rows, now: int, a: UserId)
    requires QueueOk(rows)
    ensures var resettled := Settle(next, Settle(saved, rows, now), now);
      FairTo(rows, resettled, a) && QueueOk(resettled)
  {
    var settled := Settle(saved, rows, now);
    SettleSets(saved, rows, now);
    SettleSets(next, settled, now);
    QueueShrinks(rows, Settle(next, settled, now));
    SettleIsFair(saved, rows, now, a);
    SettleIsFair(next, settled, now, a);
    FairInTurn(rows, settled, Settle(next, settled, now), a);
  }

  lemma FillingAfterwardsIsFair(w: Settings, rows: Rows, resettled: Rows, now: int, a: UserId)
    requires QueueOk(resettled) && FairTo(rows, resettled, a)
    ensures FairTo(rows, Fill(w, resettled, now), a)
  {
    FillIsFair(w, resettled, now, a);
    FairInTurn(rows, resettled, Fill(w, resettled, now), a);
  }

  lemma ConfigureIsFair(s: State, version: nat, patch: SettingsPatch, now: int, a: UserId)
    requires Invariant(s)
    ensures FairTo(s.rows, ApplySettings(s, version, patch, now).state.rows, a)
  {
    var saved, next := s.event.settings, Merged(s.event.settings, patch);
    SettlingTwiceIsFair(saved, next, s.rows, now, a);
    FillingAfterwardsIsFair(next, s.rows, Settle(next, Settle(saved, s.rows, now), now), now, a);
  }

  /** Nobody registers past a waiting entry: while one waits the event is full. */
  lemma RegisterIsFair(s: State, u: UserId, now: int, a: UserId)
    requires Invariant(s)
    ensures FairTo(s.rows, RegisterAttendee(s, u, now).state.rows, a)
  {
    if RegisterAttendee(s, u, now).reply == Done {
      assert Waiting(s.rows) == {};
    }
  }

  lemma CancelIsFair(s: State, now: int, a: UserId)
    ensures FairTo(s.rows, CancelEvent(s, now).state.rows, a)
  {
    if IsCancellable(s.event.status) {
      CancelSets(s, now);
    }
  }

  /** One step lets in only those who held a place or stood ahead of a, and puts nobody new ahead of a. */
  lemma StepIsFair(s: State, op: Op, a: UserId)
    requires Invariant(s) && JoinIsOnTime(s, op)
    ensures FairTo(s.rows, Step(s, op).state.rows, a)
  {
    match op
    case Register(u, now) => RegisterIsFair(s, u, now, a);
    case Join(u, now) => JoinIsFair(s, u, now, a);
    case Withdraw(u, now) => WithdrawIsFair(s, u, now, a);
    case Configure(version, patch, now) => ConfigureIsFair(s, version, patch, now, a);
    case SettleOnRead(now) => SettleIsFair(s.event.settings, s.rows, now, a);
    case Cancel(now) => CancelIsFair(s, now, a);
    case _ =>
  }

  /** The join instants never go back, starting from an instant no current waiter joined after. */
  ghost predicate JoinsInOrder(ops: seq<Op>, from: int) {
    ops == [] || (if ops[0].Join? then from <= ops[0].now && JoinsInOrder(ops[1..], ops[0].now)
                  else JoinsInOrder(ops[1..], from))
  }

  ghost predicate WaitsThroughout(s: State, ops: seq<Op>, a: UserId)
    decreases |ops|
  {
    a in Waiting(s.rows) && (ops != [] ==> WaitsThroughout(Step(s, ops[0]).state, ops[1..], a))
  }

  lemma ShrinkingKeepsClock(rows: Rows, from: int, w: Settings, now: int, u: UserId)
    requires NobodyJoinedAfter(rows, from)
    ensures NobodyJoinedAfter(Settle(w, rows, now), from)
    ensures NobodyJoinedAfter(Fill(w, rows, now), from)
    ensures u in rows ==> NobodyJoinedAfter(MarkedLeft(rows, u), from)
  {
  }

  lemma WithdrawKeepsClock(s: State, u: UserId, now: int, from: int)
    requires NobodyJoinedAfter(s.rows, from)
    ensures NobodyJoinedAfter(WithdrawAttendee(s, u, now).state.rows, from)
  {
    var w := s.event.settings;
    ShrinkingKeepsClock(s.rows, from, w, now, u);
    ShrinkingKeepsClock(Settle(w, s.rows, now), from, w, now, u);
    if u in s.rows {
      ShrinkingKeepsClock(MarkedLeft(s.rows, u), from, w, now, u);
    }
  }

  lemma ConfigureKeepsClock(s: State, version: nat, patch: SettingsPatch, now: int, from: int)
    requires NobodyJoinedAfter(s.rows, from)
    ensures NobodyJoinedAfter(ApplySettings(s, version, patch, now).state.rows, from)
  {
    var w, next := s.event.settings, Merged(s.event.settings, patch);
    ShrinkingKeepsClock(s.rows, from, w, now, 0);
    ShrinkingKeepsClock(Settle(w, s.rows, now), from, next, now, 0);
    ShrinkingKeepsClock(Settle(next, Settle(w, s.rows, now), now), from, next, now, 0);
  }

  lemma JoinKeepsClock(s: State, u: UserId, now: int, from: int)
    requires NobodyJoinedAfter(s.rows, from) && from <= now
    ensures NobodyJoinedAfter(JoinQueue(s, u, now).state.rows, now)
  {
    JoinEffect(s, u, now);
  }

  lemma StepKeepsClock(s: State, op: Op, from: int)
    requires NobodyJoinedAfter(s.rows, from) && (op.Join? ==> from <= op.now)
    ensures NobodyJoinedAfter(Step(s, op).state.rows, if op.Join? then op.now else from)
  {
    match op
    case Withdraw(u, now) => WithdrawKeepsClock(s, u, now, from);
    case Configure(version, patch, now) => ConfigureKeepsClock(s, version, patch, now, from);
    case Join(u, now) => JoinKeepsClock(s, u, now, from);
    case SettleOnRead(now) => ShrinkingKeepsClock(s.rows, from, s.event.settings, now, 0);
    case _ =>
  }

  /**
   No overtaking, over every run in which the join clock does not go back: while an attendee waits throughout, the
   only people who can come to hold a place are those who already held one or stood ahead at the start, neither by
   promotion nor by registering directly; and the attendee's position never increases.
   */
  lemma {:induction false} NoOvertaking(s: State, ops: seq<Op>, from: int, a: UserId)
    requires Invariant(s) && NobodyJoinedAfter(s.rows, from) && JoinsInOrder(ops, from) && WaitsThroughout(s, ops, a)
    ensures Holders(Run(s, ops).rows) <= Holders(s.rows) + Ahead(s.rows, a)
    ensures Ahead(Run(s, ops).rows, a) <= Ahead(s.rows, a)
    ensures Position(Run(s, ops).rows, a) <= Position(s.rows, a)
    decreases |ops|
  {
    if ops != [] {
      var next := Step(s, ops[0]).state;
      assert a in Waiting(next.rows);
      StepIsFair(s, ops[0], a);
      StepKeepsInvariant(s, ops[0]);
      StepKeepsClock(s, ops[0], from);
      NoOvertaking(next, ops[1..], if ops[0].Join? then ops[0].now else from, a);
    }
    SubsetSize(Ahead(Run(s, ops).rows, a), Ahead(s.rows, a));
  }

  lemma EnqueuedPosition(rows: Rows, u: UserId, now: int, last: nat)
    requires QueueOk(rows) && TicketsUpTo(rows, last) && u !in Waiting(rows)
    ensures var joined := Enqueued(rows, u, now, last + 1);
      && Waiting(joined) == Waiting(rows) + {u}
      && (Position(joined, u) == |Waiting(joined)| <==> NobodyJoinedAfter(rows, now))
  {
    var joined := Enqueued(rows, u, now, last + 1);
    RowUpdateSets(rows, u, joined[u]);
    assert Ahead(joined, u) <= Waiting(rows);
    if NobodyJoinedAfter(rows, now) {
      assert Ahead(joined, u) == Waiting(rows);
    } else {
      var v :| v in Waiting(rows) && rows[v].place.value.joinedAt > now;
      StrictSubsetSize(Ahead(joined, u), Waiting(rows), v);
    }
  }

  /**
   The position a join returns is the number now waiting, exactly when nobody waiting joined after this instant: the
   source relies on the injected clock not going back.
   */
  lemma JoinPosition(s: State, u: UserId, now: int)
    requires Invariant(s) && JoinQueue(s, u, now).reply.JoinedAt?
    ensures var after := JoinQueue(s, u, now);
      && Waiting(after.state.rows) == Waiting(s.rows) + {u}
      && u !in Waiting(s.rows)
      && (after.reply.position == |Waiting(after.state.rows)| <==> NobodyJoinedAfter(s.rows, now))
  {
    JoinEffect(s, u, now);
    EnqueuedPosition(s.rows, u, now, s.lastTicket);
  }

  /** A queue of one that joined at 10 and a join at 5: position 1, though two are then waiting. */
  lemma EarlierClockJumpsAhead(s: State, u: UserId, v: UserId)
    requires Invariant(s) && Waiting(s.rows) == {v} && s.rows[v].place.Some? && s.rows[v].place.value.joinedAt == 10
    requires JoinQueue(s, u, 5).reply.JoinedAt?
    ensures JoinQueue(s, u, 5).reply == JoinedAt(1) && |Waiting(JoinQueue(s, u, 5).state.rows)| == 2
  {
    var joined := JoinQueue(s, u, 5).state.rows;
    JoinPosition(s, u, 5);
    JoinEffect(s, u, 5);
    assert Ahead(joined, u) == {};
  }

  /** A confirmed event for one attendee, open from the start, with nobody in it yet. */
  predicate OpenForOne(s: State) {
    && s.event.status == EventStatus.Confirmed && s.event.settings == Settings(true, None, None, 1) && s.rows == map[]
    && s.event.coordinator == None && s.event.organiser > 2
  }

  lemma FirstTakesThePlace(s: State)
    requires OpenForOne(s)
    ensures Step(s, Register(0, 0)).state == s.(rows := map[0 := Row(Registered, None)])
    ensures Holders(map[0 := Row(Registered, None)]) == {0} && Waiting(map[0 := Row(Registered, None)]) == {}
  {
    assert Holders(s.rows) == {};
  }

  lemma SecondWaits(s: State)
    requires OpenForOne(s.(rows := map[])) && s.rows == map[0 := Row(Registered, None)]
    requires Holders(s.rows) == {0} && Waiting(s.rows) == {}
    ensures var queue := Step(s, Join(1, 10)).state;
      && queue == s.(rows := Enqueued(s.rows, 1, 10, s.lastTicket + 1), lastTicket := s.lastTicket + 1)
      && Holders(queue.rows) == {0} && Waiting(queue.rows) == {1}
  {
    SettleSets(s.event.settings, s.rows, 10);
    RowUpdateSets(s.rows, 1, Row(Waitlisted, Some(Place(10, s.lastTicket + 1))));
  }

  lemma ThirdJoins(queue: State)
    requires OpenForOne(queue.(rows := map[])) && Invariant(queue) && Holders(queue.rows) == {0}
    requires Waiting(queue.rows) == {1} && queue.rows[1].place.Some? && queue.rows[1].place.value.joinedAt == 10
    ensures JoinQueue(queue, 2, 5).reply == JoinedAt(1) && |Waiting(JoinQueue(queue, 2, 5).state.rows)| == 2
  {
    SettleSets(queue.event.settings, queue.rows, 5);
    EarlierClockJumpsAhead(queue, 2, 1);
  }

  /** That queue is reached: 0 takes the only place, 1 joins at 10, and 2 then joins at 5. */
  lemma EarlierClockIsReached(s: State)
    requires OpenForOne(s)
    ensures var queue := Run(s, [Register(0, 0), Join(1, 10)]);
      && Step(queue, Join(2, 5)).reply == JoinedAt(1) && |Waiting(Step(queue, Join(2, 5)).state.rows)| == 2
  {
    var first := Step(s, Register(0, 0)).state;
    FirstTakesThePlace(s);
    SecondWaits(first);
    var queue := Step(first, Join(1, 10)).state;
    ThirdJoins(queue);
    TwoSteps(s, Register(0, 0), Join(1, 10));
  }

  lemma TwoSteps(s: State, first: Op, second: Op)
    ensures Run(s, [first, second]) == Step(Step(s, first).state, second).state
  {
    assert [first, second][1..] == [second] && [second][1..] == [];
    assert Run(s, [first, second]) == Run(Step(s, first).state, [second]);
  }

  /** A join never removes anyone, even when it finds the list closed: that refusal rolls the settling back. */
  lemma JoinKeepsOtherRows(s: State, u: UserId, now: int)
    ensures forall v :: v != u && v in s.rows ==>
      v in JoinQueue(s, u, now).state.rows && JoinQueue(s, u, now).state.rows[v] == s.rows[v]
    ensures JoinQueue(s, u, now).reply.Refused? ==> JoinQueue(s, u, now).state == s
  {
    SettleSets(s.event.settings, s.rows, now);
  }

  lemma HandOnWhenDue(w: Settings, rows: Rows, u: UserId, now: int)
    requires QueueOk(rows) && u in Holders(rows) && Due(w, now)
    ensures var after := Fill(w, MarkedLeft(rows, u), now);
      Holders(after) == Holders(rows) - {u} && Waiting(after) == {}
  {
    var settled := Settle(w, MarkedLeft(rows, u), now);
    LeavingSets(rows, u);
    SettleSets(w, MarkedLeft(rows, u), now);
    PromotedSets(settled, w.limit - |Holders(settled)|);
    assert Front(settled, w.limit - |Holders(settled)|) == {};
  }

  lemma HandOnWhenOpen(w: Settings, rows: Rows, u: UserId, now: int, lastTicket: nat)
    requires RowsOk(rows, w.limit, lastTicket) && u in Holders(rows) && !Due(w, now)
    ensures var after := Fill(w, MarkedLeft(rows, u), now);
      Holders(after) == Holders(rows) - {u} + Front(rows, 1)
  {
    var left := MarkedLeft(rows, u);
    var free := w.limit - |Holders(left)|;
    SettleSets(w, left, now);
    assert Fill(w, left, now) == Promoted(left, free);
    assert Front(left, free) == Front(rows, 1) && Holders(left) == Holders(rows) - {u} by {
      LeavingSets(rows, u);
      FreedPlaceReaches(rows, left, u, w.limit);
    }
    PromotedSets(left, free);
  }

  /** The place u frees reaches exactly the first waiting entry; without waiters it reaches nobody. */
  lemma FreedPlaceReaches(rows: Rows, left: Rows, u: UserId, limit: int)
    requires Holders(left) == Holders(rows) - {u} && u in Holders(rows)
    requires Waiting(left) == Waiting(rows)
    requires forall v :: v in Waiting(rows) ==> left[v].place == rows[v].place
    requires |Holders(rows)| <= limit && (Waiting(rows) != {} ==> |Holders(rows)| == limit)
    ensures Front(left, limit - |Holders(left)|) == Front(rows, 1)
  {
    assert Holders(rows) == Holders(left) + {u};
    if Waiting(rows) == {} {
      assert Front(left, limit - |Holders(left)|) == {} == Front(rows, 1);
    } else {
      SamePositions(rows, left, 1);
    }
  }

  /**
   A Registered withdrawal hands its place on exactly when someone waits and the list is not due to be removed;
   then the first in the queue, and nobody else, is promoted.
   */
  lemma WithdrawalHandsThePlaceOn(s: State, u: UserId, now: int)
    requires Invariant(s) && u in Holders(s.rows) && WithdrawAttendee(s, u, now).reply == Done
    ensures var after := WithdrawAttendee(s, u, now).state.rows;
      && (|Holders(after)| == |Holders(s.rows)| <==> Waiting(s.rows) != {} && !Due(s.event.settings, now))
      && (!Due(s.event.settings, now) ==> Holders(after) == Holders(s.rows) - {u} + Front(s.rows, 1))
      && (Due(s.event.settings, now) ==> Holders(after) == Holders(s.rows) - {u} && Waiting(after) == {})
  {
    var w, holders := s.event.settings, Holders(s.rows);
    var after := Fill(w, MarkedLeft(s.rows, u), now);
    assert WithdrawAttendee(s, u, now).state.rows == after;
    assert holders == (holders - {u}) + {u};
    if Due(w, now) {
      HandOnWhenDue(w, s.rows, u, now);
    } else {
      HandOnWhenOpen(w, s.rows, u, now, s.lastTicket);
      FrontSize(s.rows, 1);
      PlacesAfterHandingOn(holders, u, Front(s.rows, 1));
    }
  }

  lemma PlacesAfterHandingOn(holders: set<UserId>, u: UserId, first: set<UserId>)
    requires u in holders && holders !! first
    ensures |holders - {u} + first| == |holders| - 1 + |first|
  {
    assert holders == (holders - {u}) + {u};
  }

  lemma SamePositions(rows: Rows, other: Rows, k: int)
    requires Waiting(rows) == Waiting(other)
    requires forall u :: u in Waiting(rows) ==> rows[u].place == other[u].place
    ensures Front(rows, k) == Front(other, k)
  {
    forall u | u in Waiting(rows) ensures Position(rows, u) == Position(other, u) {
      assert Ahead(rows, u) == Ahead(other, u);
    }
  }

  /** An entry is removed from the list only because its registration was closed or switched off. */
  lemma RemovalMeansClosed(s: State, op: Op, u: UserId)
    requires u in Waiting(s.rows) && Step(s, op).state.rows[u].status == RowStatus.Removed
    ensures op.Withdraw? || op.Configure? || op.SettleOnRead? || op.Cancel?
    ensures Due(s.event.settings, op.now) || Due(Step(s, op).state.event.settings, op.now)
  {
  }

  /** While someone still waits, promoting the first of them extends the promoted front by one. */
  lemma PromotionGoesOn(start: Rows, k: nat, next: UserId)
    requires QueueOk(start) && k <= |Waiting(start)|
    requires IsFirst(Promoted(start, k), Waiting(Promoted(start, k)), next)
    ensures k < |Waiting(start)| && next in Promoted(start, k)
    ensures Promoted(start, k)[next := Promoted(start, k)[next].(status := Registered)] == Promoted(start, k + 1)
  {
    FrontSize(start, k);
    PromotedSets(start, k);
    StrictSubsetSize(Front(start, k), Waiting(start), next);
    PromoteOne(start, k, next);
  }

  /** Having promoted as many as there are places, or everyone, is having promoted exactly the front. */
  lemma EveryoneReached(start: Rows, promoted: nat, places: int)
    requires QueueOk(start) && promoted <= |Waiting(start)|
    requires promoted == places || (places <= 0 && promoted == 0)
             || (promoted <= places && Waiting(Promoted(start, promoted)) == {})
    ensures Promoted(start, promoted) == Promoted(start, places)
    ensures |Holders(Promoted(start, places))| == |Holders(start)| + promoted
  {
    PromotedSets(start, promoted);
    PromotedSizes(start, promoted);
    NobodyLeft(start, promoted, places);
  }

  // ------------------------------------------------------------------ the service

  /** One event's tables as fields; a method body stands for one transaction on them. */
  class RegistrationsService {
    var event: EventRow
    var rows: Rows
    var lastTicket: nat

    ghost function View(): State
      reads this
    {
      State(event, rows, lastTicket)
    }

    constructor (event: EventRow, lastTicket: nat)
      requires event.settings.limit >= 1
      ensures View() == State(event, map[], lastTicket) && Invariant(View())
    {
      this.event, this.rows, this.lastTicket := event, map[], lastTicket;
      new;
      InitialState(event, lastTicket);
    }

    method SettleLocked(now: int)
      modifies `rows
      ensures rows == Settle(event.settings, old(rows), now)
    {
      if Due(event.settings, now) {
        rows := map u | u in rows ::
          if rows[u].status == Waitlisted then rows[u].(status := RowStatus.Removed) else rows[u];
      }
    }

    method FillFreeSpots(now: int) returns (promoted: nat)
      requires QueueOk(rows)
      modifies `rows
      ensures rows == Fill(event.settings, old(rows), now)
      ensures promoted == |Holders(rows)| - |Holders(old(rows))|
    {
      ghost var before := rows;
      SettleLocked(now);
      SettleSets(event.settings, before, now);
      var taken := |Holders(rows)|;
      promoted := PromoteInTurn(event.settings.limit - taken);
    }

    /** One promotion at a time, always the first waiting entry, while a place is free. */
    method PromoteInTurn(places: int) returns (promoted: nat)
      requires QueueOk(rows)
      modifies `rows
      ensures rows == Promoted(old(rows), places)
      ensures promoted == |Holders(rows)| - |Holders(old(rows))|
    {
      ghost var start := rows;
      var free := places;
      promoted := 0;
      assert Promoted(start, 0) == start;
      while free > 0
        invariant free == places - promoted && promoted <= |Waiting(start)|
        invariant promoted > 0 ==> free >= 0
        invariant rows == Promoted(start, promoted)
        decreases free
      {
        var next := FirstWaiting();
        if next.None? {
          break;
        }
        PromotionGoesOn(start, promoted, next.value);
        rows := rows[next.value := rows[next.value].(status := Registered)];
        free, promoted := free - 1, promoted + 1;
      }
      EveryoneReached(start, promoted, places);
    }

    method FirstWaiting() returns (first: Option<UserId>)
      ensures first.None? <==> Waiting(rows) == {}
      ensures first.Some? ==> IsFirst(rows, Waiting(rows), first.value)
    {
      var waiting := Waiting(rows);
      if waiting == {} { return None; }
      ghost var someone := FirstExists(rows, waiting);
      assert IsFirst(rows, waiting, someone);
      var next :| next in waiting && forall o :: o in waiting ==> !IsAhead(rows, o, next);
      first := Some(next);
    }

    method Register(u: UserId, now: int) returns (reply: Reply)
      requires Invariant(View())
      modifies this
      ensures View() == RegisterAttendee(old(View()), u, now).state && Invariant(View())
      ensures reply == RegisterAttendee(old(View()), u, now).reply
    {
      StepKeepsInvariant(View(), Op.Register(u, now));
      if !AttendeeVisible(event.status) { return Refused(EventNotFound); }
      var window := RegistrationWindowState(event, now);
      if window != Open { return Refused(WindowRefusal(window)); }
      if u in rows && rows[u].status == Registered { return Refused(AlreadyRegistered); }
      if u in rows && rows[u].status == Waitlisted { return Refused(AlreadyWaiting); }
      var taken := |Holders(rows)|;
      if taken >= event.settings.limit { return Refused(Full); }
      if u in rows && rows[u].status !in {RowStatus.Withdrawn, RowStatus.Removed} { return Refused(AlreadyRegistered); }
      rows := rows[u := Row(Registered, None)];
      reply := Done;
    }

    method FindJoinObstacle(u: UserId, now: int) returns (refusal: Option<Refusal>)
      ensures refusal == JoinObstacle(event, rows, u, now)
    {
      var window := RegistrationWindowState(event, now);
      if window != Open { return Some(WindowRefusal(window)); }
      if u in rows && rows[u].status == Registered { return Some(AlreadyRegistered); }
      if u in rows && rows[u].status == Waitlisted { return Some(AlreadyWaiting); }
      var taken := |Holders(rows)|;
      if taken < event.settings.limit { return Some(WaitlistNotAvailable); }
      refusal := None;
    }

    method JoinWaitlist(u: UserId, now: int) returns (reply: Reply)
      requires Invariant(View())
      modifies this
      ensures View() == JoinQueue(old(View()), u, now).state && Invariant(View())
      ensures reply == JoinQueue(old(View()), u, now).reply
    {
      JoinKeepsInvariant(View(), u, now);
      reply := JoinRows(u, now);
    }

    method JoinRows(u: UserId, now: int) returns (reply: Reply)
      modifies `rows, `lastTicket
      ensures View() == JoinQueue(old(View()), u, now).state
      ensures reply == JoinQueue(old(View()), u, now).reply
    {
      if !AttendeeVisible(event.status) { return Refused(EventNotFound); }
      if u == event.organiser || event.coordinator == Some(u) { return Refused(WaitlistNotPermitted); }
      var before := rows;
      SettleLocked(now);
      var obstacle := FindJoinObstacle(u, now);
      if obstacle.Some? {
        rows := before;
        return Refused(obstacle.value);
      }
      lastTicket := lastTicket + 1;
      rows := rows[u := Row(Waitlisted, Some(Place(now, lastTicket)))];
      reply := JoinedAt(Position(rows, u));
    }

    method Withdraw(u: UserId, now: int) returns (reply: Reply)
      requires Invariant(View())
      modifies this
      ensures View() == WithdrawAttendee(old(View()), u, now).state && Invariant(View())
      ensures reply == WithdrawAttendee(old(View()), u, now).reply
    {
      WithdrawKeepsInvariant(View(), u, now);
      reply := WithdrawRow(u, now);
    }

    method WithdrawRow(u: UserId, now: int) returns (reply: Reply)
      requires QueueOk(rows)
      modifies `rows
      ensures View() == WithdrawAttendee(old(View()), u, now).state
      ensures reply == WithdrawAttendee(old(View()), u, now).reply
    {
      SettleSets(event.settings, rows, now);
      if u !in rows { return Refused(RegistrationNotFound); }
      if rows[u].status == Waitlisted {
        SettleLocked(now);
      }
      var status := rows[u].status;
      var gone := NotTakingPart(event, status);
      if gone.Some? { return Refused(gone.value); }
      if now >= event.startsAt { return Refused(EventAlreadyOccurred); }
      rows := rows[u := rows[u].(status := RowStatus.Withdrawn)];
      if status == Registered {
        LeavingSets(old(rows), u);
        var promoted := FillFreeSpots(now);
      }
      reply := Done;
    }

    method UpdateSettings(version: nat, patch: SettingsPatch, now: int) returns (reply: Reply)
      requires Invariant(View())
      modifies this
      ensures View() == ApplySettings(old(View()), version, patch, now).state && Invariant(View())
      ensures reply == ApplySettings(old(View()), version, patch, now).reply
    {
      ConfigureKeepsInvariant(View(), version, patch, now);
      if !Configurable(event.status) { return Refused(NotConfigurable); }
      if version != event.version { return Refused(SettingsConflict); }
      var before := rows;
      SettleLocked(now);
      var saved := event.settings;
      var violation := SettingsViolation(saved, patch, event.startsAt, |Holders(rows)|);
      if violation.Some? {
        rows := before;
        return Refused(violation.value);
      }
      event := event.(settings := Merged(saved, patch), version := event.version + 1);
      SettleLocked(now);
      SettleSets(saved, before, now);
      SettleSets(event.settings, Settle(saved, before, now), now);
      QueueShrinks(before, rows);
      if event.settings.limit > saved.limit {
        var promoted := FillFreeSpots(now);
      }
      reply := Done;
    }
  }
}
