/**
 Cancelling an event (backend/src/events/cancel/cancel-event.service.ts) over the tables of all events: one transaction
 that changes the status, writes the notices and runs every registered releaser, or leaves everything as it was
 (backend/src/events/cancel/release.registry.ts and the releasers it lists).
 */
module Cancellation {
  import opened Wrappers
  import opened EventTypes
  import opened Lists
  import Arrangements
  import Waitlist

  type EventId = nat
  type UserId = nat

  datatype EventRow = EventRow(
    status: EventStatus,
    organiser: UserId,
    coordinator: Option<UserId>,
    registrationEnabled: bool,
    registrationClosesAt: Option<int>
  )

  datatype BookingRow = BookingRow(event: EventId, status: Arrangements.BookingStatus)

  datatype LineRow = LineRow(event: EventId, status: Arrangements.LineStatus)

  datatype RegistrationRow = RegistrationRow(event: EventId, attendee: UserId, status: Waitlist.RowStatus)

  datatype ChangeStatus = Pending | Approved | Denied | Withdrawn | Closed

  datatype ChangeRow = ChangeRow(event: EventId, status: ChangeStatus)

  /** An EventCancelled notice; its once-only index allows one per recipient and event. */
  datatype Notice = Notice(recipient: UserId, event: EventId)

  datatype HistoryRow = HistoryRow(event: EventId, from: EventStatus, to: EventStatus)

  datatype Db = Db(
    events: map<EventId, EventRow>,
    bookings: seq<BookingRow>,
    lines: seq<LineRow>,
    registrations: seq<RegistrationRow>,
    changes: seq<ChangeRow>,
    notices: seq<Notice>,
    history: seq<HistoryRow>
  )

  datatype Releaser = VenueBookings | Registrations | WaitingList | ChangeRequests | EquipmentReservations

  const DEFAULT_RELEASERS: seq<Releaser> :=
    [VenueBookings, Registrations, WaitingList, ChangeRequests, EquipmentReservations]

  // ------------------------------------------------------------------ notices

  /** An insertion under the uniqueness of (recipient, event): a second one has no effect. */
  function WriteOnce(notices: seq<Notice>, notice: Notice): seq<Notice> {
    if notice in notices then notices else notices + [notice]
  }

  function WriteAll(notices: seq<Notice>, recipients: seq<UserId>, event: EventId): seq<Notice>
    decreases |recipients|
  {
    if recipients == [] then notices
    else WriteAll(WriteOnce(notices, Notice(recipients[0], event)), recipients[1..], event)
  }

  function Attendees(rows: seq<RegistrationRow>, event: EventId, status: Waitlist.RowStatus): seq<UserId> {
    Map(Filter(rows, (row: RegistrationRow) => row.event == event && row.status == status),
        (row: RegistrationRow) => row.attendee)
  }

  /** A set in insertion order. */
  function AddOnce(recipients: seq<UserId>, u: UserId): seq<UserId> {
    if u in recipients then recipients else recipients + [u]
  }

  function AddEach(recipients: seq<UserId>, more: seq<UserId>): seq<UserId>
    decreases |more|
  {
    if more == [] then recipients else AddEach(AddOnce(recipients, more[0]), more[1..])
  }

  // ------------------------------------------------------------------ the releasers

  predicate WaitlistDue(row: EventRow, now: int) {
    !row.registrationEnabled || (row.registrationClosesAt.Some? && now >= row.registrationClosesAt.value)
  }

  predicate IsDue(db: Db, event: EventId, now: int) {
    event in db.events && WaitlistDue(db.events[event], now)
  }

  function ReleasedBooking(row: BookingRow, event: EventId): BookingRow {
    if row.event == event && row.status in {Arrangements.Pending, Arrangements.Approved}
    then row.(status := Arrangements.Released) else row
  }

  function ReleasedLine(row: LineRow, event: EventId): LineRow {
    if row.event == event
       && row.status in {Arrangements.LineRequested, Arrangements.LineReserved, Arrangements.LineUnavailable}
    then row.(status := Arrangements.LineReleased) else row
  }

  function ClosedChange(row: ChangeRow, event: EventId): ChangeRow {
    if row.event == event && row.status == ChangeStatus.Pending then row.(status := Closed) else row
  }

  function Restatus(row: RegistrationRow, event: EventId, from: Waitlist.RowStatus, to: Waitlist.RowStatus)
      : RegistrationRow {
    if row.event == event && row.status == from then row.(status := to) else row
  }

  /** A waiting list already due is removed without notice; otherwise each waiting attendee is cancelled and told. */
  function Release(db: Db, releaser: Releaser, event: EventId, now: int): Db {
    match releaser
    case VenueBookings => db.(bookings := Map(db.bookings, (row: BookingRow) => ReleasedBooking(row, event)))
    case Registrations =>
      db.(registrations := Map(db.registrations, (row: RegistrationRow) =>
        Restatus(row, event, Waitlist.Registered, Waitlist.Cancelled)))
    case WaitingList =>
      var to := if IsDue(db, event, now) then Waitlist.Removed else Waitlist.Cancelled;
      var told := if IsDue(db, event, now) then [] else Attendees(db.registrations, event, Waitlist.Waitlisted);
      db.(registrations :=
        Map(db.registrations, (row: RegistrationRow) => Restatus(row, event, Waitlist.Waitlisted, to)),
          notices := WriteAll(db.notices, told, event))
    case ChangeRequests => db.(changes := Map(db.changes, (row: ChangeRow) => ClosedChange(row, event)))
    case EquipmentReservations => db.(lines := Map(db.lines, (row: LineRow) => ReleasedLine(row, event)))
  }

  function ReleaseAll(db: Db, releasers: seq<Releaser>, event: EventId, now: int): Db
    decreases |releasers|
  {
    if releasers == [] then db else ReleaseAll(Release(db, releasers[0], event, now), releasers[1..], event, now)
  }

  /** Who the core step tells, computed from the tables as the transaction found them. */
  function Recipients(db: Db, releasers: seq<Releaser>, actor: UserId, event: EventId, skipOrganiser: bool): seq<UserId>
    requires event in db.events
  {
    var organiser := db.events[event].organiser;
    var collected := if Registrations in releasers then Attendees(db.registrations, event, Waitlist.Registered) else [];
    var all := AddEach(AddOnce([organiser], actor), collected);
    if skipOrganiser then Filter(all, (u: UserId) => u != organiser) else all
  }

  datatype Refusal = EventNotFound | NotAllowed | NotCancellable | ReleaserFailed

  datatype Result = Done(db: Db) | Refused(reason: Refusal)

  function Marked(db: Db, event: EventId): Db
    requires event in db.events
  {
    var row := db.events[event];
    db.(events := db.events[event := row.(status := EventStatus.Cancelled)],
        history := db.history + [HistoryRow(event, row.status, EventStatus.Cancelled)])
  }

  /** `fault` is the releaser that fails, if one does: the transaction then rolls back as a whole. */
  function Cancel(db: Db, releasers: seq<Releaser>, actor: UserId, event: EventId, now: int, skipOrganiser: bool,
                  fault: Option<nat>): Result {
    if event !in db.events then Refused(EventNotFound)
    else if db.events[event].coordinator != Some(actor) then Refused(NotAllowed)
    else if !IsCancellable(db.events[event].status) then Refused(NotCancellable)
    else if fault.Some? && fault.value < |releasers| then Refused(ReleaserFailed)
    else
      var marked := Marked(db, event);
      var told := marked.(notices :=
        WriteAll(marked.notices, Recipients(db, releasers, actor, event, skipOrganiser), event));
      Done(ReleaseAll(told, releasers, event, now))
  }

  // ------------------------------------------------------------------ only this event's rows

  ghost predicate SameOthers(db: Db, after: Db, event: EventId) {
    && (forall e :: e != event ==> (e in db.events <==> e in after.events))
    && (forall e :: e != event && e in db.events && e in after.events ==> after.events[e] == db.events[e])
    && |after.bookings| == |db.bookings| && |after.lines| == |db.lines|
    && |after.registrations| == |db.registrations| && |after.changes| == |db.changes|
    && (forall i :: 0 <= i < |db.bookings| && db.bookings[i].event != event ==> after.bookings[i] == db.bookings[i])
    && (forall i :: 0 <= i < |db.lines| && db.lines[i].event != event ==> after.lines[i] == db.lines[i])
    && (forall i :: 0 <= i < |db.registrations| && db.registrations[i].event != event
          ==> after.registrations[i] == db.registrations[i])
    && (forall i :: 0 <= i < |db.changes| && db.changes[i].event != event ==> after.changes[i] == db.changes[i])
  }

  /** Every row keeps its owner; notices and history only grow, and only by rows of this event. */
  ghost predicate KeepsOwners(db: Db, after: Db, event: EventId)
    requires SameOthers(db, after, event)
  {
    && (forall i :: 0 <= i < |db.bookings| ==> after.bookings[i].event == db.bookings[i].event)
    && (forall i :: 0 <= i < |db.lines| ==> after.lines[i].event == db.lines[i].event)
    && (forall i :: 0 <= i < |db.registrations| ==> after.registrations[i].event == db.registrations[i].event)
    && (forall i :: 0 <= i < |db.changes| ==> after.changes[i].event == db.changes[i].event)
    && db.notices <= after.notices
    && (forall k :: |db.notices| <= k < |after.notices| ==> after.notices[k].event == event)
    && db.history <= after.history
    && (forall k :: |db.history| <= k < |after.history| ==> after.history[k].event == event)
  }

  ghost predicate TouchesOnly(db: Db, after: Db, event: EventId) {
    SameOthers(db, after, event) && KeepsOwners(db, after, event)
  }

  lemma TouchesInTurn(a: Db, b: Db, c: Db, event: EventId)
    requires TouchesOnly(a, b, event) && TouchesOnly(b, c, event)
    ensures TouchesOnly(a, c, event)
  {
    assert forall k :: 0 <= k < |b.notices| ==> c.notices[k] == b.notices[k];
    assert forall k :: 0 <= k < |b.history| ==> c.history[k] == b.history[k];
  }

  lemma {:induction false} WriteAllAppends(notices: seq<Notice>, recipients: seq<UserId>, event: EventId)
    ensures notices <= WriteAll(notices, recipients, event)
    ensures forall k :: |notices| <= k < |WriteAll(notices, recipients, event)| ==>
      WriteAll(notices, recipients, event)[k].event == event
    decreases |recipients|
  {
    if recipients != [] {
      WriteAllAppends(WriteOnce(notices, Notice(recipients[0], event)), recipients[1..], event);
    }
  }

  lemma ReleaseTouchesOnly(db: Db, releaser: Releaser, event: EventId, now: int)
    ensures TouchesOnly(db, Release(db, releaser, event, now), event)
  {
    match releaser
    case VenueBookings =>
      MapIndexes(db.bookings, (row: BookingRow) => ReleasedBooking(row, event));
    case Registrations =>
      MapIndexes(db.registrations, (row: RegistrationRow) =>
        Restatus(row, event, Waitlist.Registered, Waitlist.Cancelled));
    case WaitingList =>
      var to := if IsDue(db, event, now) then Waitlist.Removed else Waitlist.Cancelled;
      var told := if IsDue(db, event, now) then [] else Attendees(db.registrations, event, Waitlist.Waitlisted);
      MapIndexes(db.registrations, (row: RegistrationRow) => Restatus(row, event, Waitlist.Waitlisted, to));
      WriteAllAppends(db.notices, told, event);
    case ChangeRequests => MapIndexes(db.changes, (row: ChangeRow) => ClosedChange(row, event));
    case EquipmentReservations => MapIndexes(db.lines, (row: LineRow) => ReleasedLine(row, event));
  }

  lemma {:induction false} ReleasesTouchOnly(db: Db, releasers: seq<Releaser>, event: EventId, now: int)
    ensures TouchesOnly(db, ReleaseAll(db, releasers, event, now), event)
    ensures ReleaseAll(db, releasers, event, now).events == db.events
    ensures ReleaseAll(db, releasers, event, now).history == db.history
    decreases |releasers|
  {
    if releasers != [] {
      var next := Release(db, releasers[0], event, now);
      ReleaseTouchesOnly(db, releasers[0], event, now);
      ReleasesTouchOnly(next, releasers[1..], event, now);
      TouchesInTurn(db, next, ReleaseAll(db, releasers, event, now), event);
    }
  }

  // ------------------------------------------------------------------ nothing of this event stays live

  /** The releaser has nothing left to release. */
  ghost predicate Freed(db: Db, releaser: Releaser, event: EventId) {
    match releaser
    case VenueBookings =>
      forall i :: 0 <= i < |db.bookings| && db.bookings[i].event == event
        ==> db.bookings[i].status !in {Arrangements.Pending, Arrangements.Approved}
    case Registrations =>
      forall i :: 0 <= i < |db.registrations| && db.registrations[i].event == event
        ==> db.registrations[i].status != Waitlist.Registered
    case WaitingList =>
      forall i :: 0 <= i < |db.registrations| && db.registrations[i].event == event
        ==> db.registrations[i].status != Waitlist.Waitlisted
    case ChangeRequests =>
      forall i :: 0 <= i < |db.changes| && db.changes[i].event == event ==> db.changes[i].status != ChangeStatus.Pending
    case EquipmentReservations =>
      forall i :: 0 <= i < |db.lines| && db.lines[i].event == event ==>
        db.lines[i].status !in {Arrangements.LineRequested, Arrangements.LineReserved, Arrangements.LineUnavailable}
  }

  lemma ReleaseFrees(db: Db, releaser: Releaser, other: Releaser, event: EventId, now: int)
    ensures Freed(Release(db, releaser, event, now), releaser, event)
    ensures Freed(db, other, event) ==> Freed(Release(db, releaser, event, now), other, event)
  {
    match releaser
    case VenueBookings =>
      MapIndexes(db.bookings, (row: BookingRow) => ReleasedBooking(row, event));
    case Registrations =>
      MapIndexes(db.registrations, (row: RegistrationRow) =>
        Restatus(row, event, Waitlist.Registered, Waitlist.Cancelled));
    case WaitingList =>
      var to := if IsDue(db, event, now) then Waitlist.Removed else Waitlist.Cancelled;
      MapIndexes(db.registrations, (row: RegistrationRow) => Restatus(row, event, Waitlist.Waitlisted, to));
    case ChangeRequests => MapIndexes(db.changes, (row: ChangeRow) => ClosedChange(row, event));
    case EquipmentReservations => MapIndexes(db.lines, (row: LineRow) => ReleasedLine(row, event));
  }

  /** Whatever the registered order, every registered table ends up free of live rows of the event. */
  lemma {:induction false} ReleasesFree(db: Db, releasers: seq<Releaser>, releaser: Releaser, event: EventId, now: int)
    requires releaser in releasers || Freed(db, releaser, event)
    ensures Freed(ReleaseAll(db, releasers, event, now), releaser, event)
    decreases |releasers|
  {
    if releasers != [] {
      var next := Release(db, releasers[0], event, now);
      ReleaseFrees(db, releasers[0], releaser, event, now);
      assert releasers == [releasers[0]] + releasers[1..];
      ReleasesFree(next, releasers[1..], releaser, event, now);
    }
  }

  // ------------------------------------------------------------------ what becomes of each row

  ghost predicate BookingOutcome(was: BookingRow, now: BookingRow, event: EventId, released: bool) {
    && now.event == was.event
    && now.status == if released && was.event == event
                        && (was.status == Arrangements.Pending || was.status == Arrangements.Approved)
                     then Arrangements.Released else was.status
  }

  ghost predicate LineOutcome(was: LineRow, now: LineRow, event: EventId, released: bool) {
    && now.event == was.event
    && now.status == if released && was.event == event
                        && (was.status == Arrangements.LineRequested || was.status == Arrangements.LineReserved
                            || was.status == Arrangements.LineUnavailable)
                     then Arrangements.LineReleased else was.status
  }

  /** `due` says whether the waiting list was to be removed anyway. */
  ghost predicate RegistrationOutcome(was: RegistrationRow, now: RegistrationRow, event: EventId, released: bool,
                                      closed: bool, due: bool)
  {
    && now.event == was.event && now.attendee == was.attendee
    && now.status == if released && was.event == event && was.status == Waitlist.Registered then Waitlist.Cancelled
                     else if closed && was.event == event && was.status == Waitlist.Waitlisted
                     then if due then Waitlist.Removed else Waitlist.Cancelled
                     else was.status
  }

  ghost predicate ChangeOutcome(was: ChangeRow, now: ChangeRow, event: EventId, closed: bool) {
    && now.event == was.event
    && now.status == if closed && was.event == event && was.status == ChangeStatus.Pending then Closed else was.status
  }

  function SetOf(releasers: seq<Releaser>): set<Releaser> {
    set r | r in releasers
  }

  /** Every row of every table after these releasers, whatever their order. */
  ghost predicate Outcomes(db: Db, after: Db, releasers: set<Releaser>, event: EventId, due: bool) {
    && |after.bookings| == |db.bookings| && |after.lines| == |db.lines|
    && |after.registrations| == |db.registrations| && |after.changes| == |db.changes|
    && (forall i :: (0 <= i < |db.bookings| ==>
          BookingOutcome(db.bookings[i], after.bookings[i], event, VenueBookings in releasers)))
    && (forall i :: (0 <= i < |db.lines| ==>
          LineOutcome(db.lines[i], after.lines[i], event, EquipmentReservations in releasers)))
    && (forall i :: (0 <= i < |db.registrations| ==>
          RegistrationOutcome(db.registrations[i], after.registrations[i], event, Registrations in releasers,
                              WaitingList in releasers, due)))
    && (forall i :: (0 <= i < |db.changes| ==>
          ChangeOutcome(db.changes[i], after.changes[i], event, ChangeRequests in releasers)))
  }

  lemma OutcomesInTurn(a: Db, b: Db, c: Db, first: Releaser, rest: set<Releaser>, event: EventId, due: bool)
    requires Outcomes(a, b, {first}, event, due) && Outcomes(b, c, rest, event, due)
    ensures Outcomes(a, c, {first} + rest, event, due)
  {
  }

  lemma ReleaseOutcome(db: Db, releaser: Releaser, event: EventId, now: int)
    ensures Outcomes(db, Release(db, releaser, event, now), {releaser}, event, IsDue(db, event, now))
  {
    match releaser
    case VenueBookings =>
      MapIndexes(db.bookings, (row: BookingRow) => ReleasedBooking(row, event));
    case Registrations =>
      MapIndexes(db.registrations, (row: RegistrationRow) =>
        Restatus(row, event, Waitlist.Registered, Waitlist.Cancelled));
    case WaitingList =>
      var to := if IsDue(db, event, now) then Waitlist.Removed else Waitlist.Cancelled;
      MapIndexes(db.registrations, (row: RegistrationRow) => Restatus(row, event, Waitlist.Waitlisted, to));
    case ChangeRequests => MapIndexes(db.changes, (row: ChangeRow) => ClosedChange(row, event));
    case EquipmentReservations => MapIndexes(db.lines, (row: LineRow) => ReleasedLine(row, event));
  }

  lemma {:induction false} ReleasesOutcome(db: Db, releasers: seq<Releaser>, event: EventId, now: int, due: bool)
    requires due == IsDue(db, event, now)
    ensures Outcomes(db, ReleaseAll(db, releasers, event, now), SetOf(releasers), event, due)
    decreases |releasers|
  {
    if releasers != [] {
      var next := Release(db, releasers[0], event, now);
      ReleaseOutcome(db, releasers[0], event, now);
      ReleasesOutcome(next, releasers[1..], event, now, due);
      OutcomesInTurn(db, next, ReleaseAll(next, releasers[1..], event, now), releasers[0], SetOf(releasers[1..]), event,
                     due);
      assert releasers == [releasers[0]] + releasers[1..];
      assert SetOf(releasers) == {releasers[0]} + SetOf(releasers[1..]);
    }
  }

  // ------------------------------------------------------------------ exactly one notice each

  ghost predicate OneEach(notices: seq<Notice>) {
    forall i, j :: 0 <= i < j < |notices| ==> notices[i] != notices[j]
  }

  lemma WriteOnceKeepsOneEach(notices: seq<Notice>, notice: Notice)
    requires OneEach(notices)
    ensures OneEach(WriteOnce(notices, notice))
    ensures notice in WriteOnce(notices, notice)
  {
  }

  /** Writing to a list of recipients tells each of them, nobody else, and nobody twice. */
  lemma {:induction false} WriteAllTells(notices: seq<Notice>, recipients: seq<UserId>, event: EventId, u: UserId)
    requires OneEach(notices)
    ensures OneEach(WriteAll(notices, recipients, event))
    ensures Notice(u, event) in WriteAll(notices, recipients, event) <==> Notice(u, event) in notices || u in recipients
    decreases |recipients|
  {
    if recipients != [] {
      WriteOnceKeepsOneEach(notices, Notice(recipients[0], event));
      WriteAllTells(WriteOnce(notices, Notice(recipients[0], event)), recipients[1..], event, u);
      assert recipients == [recipients[0]] + recipients[1..];
    }
  }

  lemma {:induction false} CountOfOneEach(notices: seq<Notice>, notice: Notice)
    requires OneEach(notices) && notice in notices
    ensures multiset(notices)[notice] == 1
  {
    var init, last := notices[..|notices| - 1], notices[|notices| - 1];
    assert notices == init + [last];
    if last == notice {
      assert notice !in init;
    } else {
      CountOfOneEach(init, notice);
    }
  }

  ghost predicate WaitsFor(db: Db, event: EventId, u: UserId) {
    exists i :: 0 <= i < |db.registrations| && db.registrations[i] == RegistrationRow(event, u, Waitlist.Waitlisted)
  }

  lemma AttendeesMeans(rows: seq<RegistrationRow>, event: EventId, status: Waitlist.RowStatus, u: UserId)
    ensures u in Attendees(rows, event, status)
      <==> exists i :: 0 <= i < |rows| && rows[i] == RegistrationRow(event, u, status)
  {
    var kept := Filter(rows, (row: RegistrationRow) => row.event == event && row.status == status);
    var row := RegistrationRow(event, u, status);
    FilterContains(rows, (r: RegistrationRow) => r.event == event && r.status == status, row);
    MapIndexes(kept, (r: RegistrationRow) => r.attendee);
    if u in Attendees(rows, event, status) {
      var i :| 0 <= i < |kept| && kept[i].attendee == u;
      FilterContains(rows, (r: RegistrationRow) => r.event == event && r.status == status, kept[i]);
      assert kept[i] == row;
    }
    if row in rows {
      var i :| 0 <= i < |kept| && kept[i] == row;
      assert Attendees(rows, event, status)[i] == u;
    }
  }

  /** The releasers tell exactly the attendees still waiting on an open list, once each. */
  lemma {:induction false} ReleasesTell(db: Db, releasers: seq<Releaser>, event: EventId, now: int, u: UserId)
    requires OneEach(db.notices)
    ensures var after := ReleaseAll(db, releasers, event, now);
      && OneEach(after.notices)
      && (Notice(u, event) in after.notices <==>
            Notice(u, event) in db.notices
            || (WaitingList in releasers && !IsDue(db, event, now) && WaitsFor(db, event, u)))
    decreases |releasers|
  {
    if releasers != [] {
      var next := Release(db, releasers[0], event, now);
      assert releasers == [releasers[0]] + releasers[1..];
      ReleaseTells(db, releasers[0], event, now, u);
      ReleasesTell(next, releasers[1..], event, now, u);
    }
  }

  lemma ReleaseTells(db: Db, releaser: Releaser, event: EventId, now: int, u: UserId)
    requires OneEach(db.notices)
    ensures var after := Release(db, releaser, event, now);
      && OneEach(after.notices) && after.events == db.events
      && (releaser == WaitingList ==> !WaitsFor(after, event, u))
      && (releaser == WaitingList ==>
            (Notice(u, event) in after.notices <==>
               Notice(u, event) in db.notices || (!IsDue(db, event, now) && WaitsFor(db, event, u))))
      && (releaser != WaitingList ==>
            after.notices == db.notices && (WaitsFor(after, event, u) <==> WaitsFor(db, event, u)))
  {
    match releaser
    case WaitingList =>
      var to := if IsDue(db, event, now) then Waitlist.Removed else Waitlist.Cancelled;
      var told := if IsDue(db, event, now) then [] else Attendees(db.registrations, event, Waitlist.Waitlisted);
      MapIndexes(db.registrations, (row: RegistrationRow) => Restatus(row, event, Waitlist.Waitlisted, to));
      WriteAllTells(db.notices, told, event, u);
      AttendeesMeans(db.registrations, event, Waitlist.Waitlisted, u);
    case Registrations =>
      var after := Release(db, releaser, event, now);
      MapIndexes(db.registrations, (row: RegistrationRow) =>
        Restatus(row, event, Waitlist.Registered, Waitlist.Cancelled));
      assert forall i :: 0 <= i < |db.registrations| ==>
        (after.registrations[i] == RegistrationRow(event, u, Waitlist.Waitlisted)
         <==> db.registrations[i] == RegistrationRow(event, u, Waitlist.Waitlisted));
      if WaitsFor(db, event, u) {
        var i :| 0 <= i < |db.registrations| && db.registrations[i] == RegistrationRow(event, u, Waitlist.Waitlisted);
        assert after.registrations[i] == RegistrationRow(event, u, Waitlist.Waitlisted);
      }
    case _ =>
  }

  // ------------------------------------------------------------------ the whole step

  lemma CancelEffect(db: Db, releasers: seq<Releaser>, actor: UserId, event: EventId, now: int, skipOrganiser: bool,
                     fault: Option<nat>)
    requires Cancel(db, releasers, actor, event, now, skipOrganiser, fault).Done?
    ensures var after := Cancel(db, releasers, actor, event, now, skipOrganiser, fault).db;
      && TouchesOnly(db, after, event)
      && after.events == db.events[event := db.events[event].(status := EventStatus.Cancelled)]
      && after.history == db.history + [HistoryRow(event, db.events[event].status, EventStatus.Cancelled)]
      && forall releaser :: releaser in releasers ==> Freed(after, releaser, event)
  {
    var told := Marked(db, event).(notices :=
      WriteAll(db.notices, Recipients(db, releasers, actor, event, skipOrganiser), event));
    WriteAllAppends(db.notices, Recipients(db, releasers, actor, event, skipOrganiser), event);
    ReleasesTouchOnly(told, releasers, event, now);
    assert TouchesOnly(db, told, event);
    TouchesInTurn(db, told, ReleaseAll(told, releasers, event, now), event);
    forall releaser | releaser in releasers ensures Freed(ReleaseAll(told, releasers, event, now), releaser, event) {
      ReleasesFree(told, releasers, releaser, event, now);
    }
  }

  /**
   Who is told: the recipients read before any release, and the attendees waiting on a list that is still open, each
   exactly once; nobody else.
   */
  lemma CancelTells(db: Db, releasers: seq<Releaser>, actor: UserId, event: EventId, now: int, skipOrganiser: bool,
                    fault: Option<nat>, u: UserId)
    requires Cancel(db, releasers, actor, event, now, skipOrganiser, fault).Done? && OneEach(db.notices)
    ensures var after := Cancel(db, releasers, actor, event, now, skipOrganiser, fault).db;
      var told := u in Recipients(db, releasers, actor, event, skipOrganiser)
        || (WaitingList in releasers && !IsDue(db, event, now) && WaitsFor(db, event, u));
      && OneEach(after.notices)
      && multiset(after.notices)[Notice(u, event)] == if told || Notice(u, event) in db.notices then 1 else 0
  {
    var recipients := Recipients(db, releasers, actor, event, skipOrganiser);
    var told := Marked(db, event).(notices := WriteAll(db.notices, recipients, event));
    WriteAllTells(db.notices, recipients, event, u);
    ReleasesTell(told, releasers, event, now, u);
    var after := ReleaseAll(told, releasers, event, now);
    assert WaitsFor(told, event, u) <==> WaitsFor(db, event, u);
    if Notice(u, event) in after.notices {
      CountOfOneEach(after.notices, Notice(u, event));
    }
  }

  lemma {:induction false} AddEachContains(recipients: seq<UserId>, more: seq<UserId>, u: UserId)
    ensures u in AddEach(recipients, more) <==> u in recipients || u in more
    decreases |more|
  {
    if more != [] {
      AddEachContains(AddOnce(recipients, more[0]), more[1..], u);
      assert more == [more[0]] + more[1..];
    }
  }

  ghost predicate Complete(releasers: seq<Releaser>) {
    forall releaser: Releaser :: releaser in releasers
  }

  /** The registry lists every releaser, once. */
  lemma DefaultIsComplete()
    ensures Complete(DEFAULT_RELEASERS) && NoneTwice(DEFAULT_RELEASERS)
  {
    forall releaser: Releaser ensures releaser in DEFAULT_RELEASERS {
      match releaser
      case VenueBookings => assert DEFAULT_RELEASERS[0] == releaser;
      case Registrations => assert DEFAULT_RELEASERS[1] == releaser;
      case WaitingList => assert DEFAULT_RELEASERS[2] == releaser;
      case ChangeRequests => assert DEFAULT_RELEASERS[3] == releaser;
      case EquipmentReservations => assert DEFAULT_RELEASERS[4] == releaser;
    }
  }

  /**
   The recipients are the organiser, the coordinator who cancels and, when the registrations have a releaser, every
   Registered attendee; or all of these but the organiser.
   */
  lemma RecipientsAre(db: Db, releasers: seq<Releaser>, actor: UserId, event: EventId, skipOrganiser: bool, u: UserId)
    requires event in db.events
    ensures u in Recipients(db, releasers, actor, event, skipOrganiser) <==>
      && (u == db.events[event].organiser || u == actor
          || (Registrations in releasers
              && exists i :: (0 <= i < |db.registrations|
                              && db.registrations[i] == RegistrationRow(event, u, Waitlist.Registered))))
      && !(skipOrganiser && u == db.events[event].organiser)
  {
    var organiser := db.events[event].organiser;
    var collected := if Registrations in releasers then Attendees(db.registrations, event, Waitlist.Registered) else [];
    AttendeesMeans(db.registrations, event, Waitlist.Registered, u);
    AddEachContains(AddOnce([organiser], actor), collected, u);
    FilterContains(AddEach(AddOnce([organiser], actor), collected), (x: UserId) => x != organiser, u);
  }

  ghost predicate EachOnce(users: seq<UserId>) {
    forall i, j :: 0 <= i < j < |users| ==> users[i] != users[j]
  }

  lemma {:induction false} AddEachAddsOnce(recipients: seq<UserId>, more: seq<UserId>)
    requires EachOnce(recipients)
    ensures EachOnce(AddEach(recipients, more))
    decreases |more|
  {
    if more != [] {
      AddEachAddsOnce(AddOnce(recipients, more[0]), more[1..]);
    }
  }

  lemma {:induction false} FilterKeepsOnce(users: seq<UserId>, keep: UserId -> bool)
    requires EachOnce(users)
    ensures EachOnce(Filter(users, keep))
  {
    if users != [] {
      FilterKeepsOnce(users[1..], keep);
      FilterContains(users[1..], keep, users[0]);
    }
  }

  /** Nobody is a recipient twice. */
  lemma RecipientsOnce(db: Db, releasers: seq<Releaser>, actor: UserId, event: EventId, skipOrganiser: bool)
    requires event in db.events
    ensures EachOnce(Recipients(db, releasers, actor, event, skipOrganiser))
  {
    var organiser := db.events[event].organiser;
    var collected := if Registrations in releasers then Attendees(db.registrations, event, Waitlist.Registered) else [];
    AddEachAddsOnce(AddOnce([organiser], actor), collected);
    FilterKeepsOnce(AddEach(AddOnce([organiser], actor), collected), (u: UserId) => u != organiser);
  }

  /**
   After an accepted cancellation with a complete registry: Pending and Approved bookings of the event are Released, its
   Requested, Reserved and Unavailable lines are Released, its Registered attendees Cancelled, its waiting entries
   Removed if registration was off or past its close and Cancelled otherwise, its Pending change requests Closed; every
   other row of every table is as it was.
   */
  ghost predicate EveryRowReleased(db: Db, after: Db, event: EventId, now: int)
    requires event in db.events
  {
    var row := db.events[event];
    var due := !row.registrationEnabled || (row.registrationClosesAt.Some? && row.registrationClosesAt.value <= now);
    Outcomes(db, after, {VenueBookings, Registrations, WaitingList, ChangeRequests, EquipmentReservations}, event, due)
  }

  lemma CancellationReleasesEveryRow(db: Db, releasers: seq<Releaser>, actor: UserId, event: EventId, now: int,
                                     skipOrganiser: bool, fault: Option<nat>)
    requires Complete(releasers) && Cancel(db, releasers, actor, event, now, skipOrganiser, fault).Done?
    ensures event in db.events
    ensures EveryRowReleased(db, Cancel(db, releasers, actor, event, now, skipOrganiser, fault).db, event, now)
  {
    var told := Marked(db, event).(notices :=
      WriteAll(db.notices, Recipients(db, releasers, actor, event, skipOrganiser), event));
    ReleasesOutcome(told, releasers, event, now, IsDue(told, event, now));
    assert {VenueBookings, Registrations, WaitingList, ChangeRequests, EquipmentReservations} <= SetOf(releasers);
  }

  /**
   Cancellation is one step, for any complete registry. On success the event is Cancelled with one history row, each row
   of it is released as its table asks, no row of another event changed, and it cannot be cancelled again; it is refused
   exactly for the stated reasons, and then nothing changed.
   */
  lemma CancellationIsOneStep(db: Db, releasers: seq<Releaser>, actor: UserId, event: EventId, now: int,
                              skipOrganiser: bool, fault: Option<nat>)
    requires Complete(releasers)
    ensures Cancel(db, releasers, actor, event, now, skipOrganiser, fault).Refused? <==>
      event !in db.events || db.events[event].coordinator != Some(actor)
      || db.events[event].status in {EventStatus.Rejected, EventStatus.Completed, EventStatus.Cancelled}
      || (fault.Some? && fault.value < |releasers|)
    ensures var result := Cancel(db, releasers, actor, event, now, skipOrganiser, fault);
      result.Done? || result == Refused(
        if event !in db.events then EventNotFound
        else if db.events[event].coordinator != Some(actor) then NotAllowed
        else if IsCancellable(db.events[event].status) then ReleaserFailed else NotCancellable)
    ensures Cancel(db, releasers, actor, event, now, skipOrganiser, fault).Done? ==>
      var after := Cancel(db, releasers, actor, event, now, skipOrganiser, fault).db;
      && TouchesOnly(db, after, event)
      && after.events == db.events[event := db.events[event].(status := EventStatus.Cancelled)]
      && after.history == db.history + [HistoryRow(event, db.events[event].status, EventStatus.Cancelled)]
      && EveryRowReleased(db, after, event, now)
      && Cancel(after, releasers, actor, event, now, skipOrganiser, None) == Refused(NotCancellable)
  {
    if event in db.events {
      CancellableUnlessOver(db.events[event].status);
    }
    if Cancel(db, releasers, actor, event, now, skipOrganiser, fault).Done? {
      CancelEffect(db, releasers, actor, event, now, skipOrganiser, fault);
      CancellationReleasesEveryRow(db, releasers, actor, event, now, skipOrganiser, fault);
    }
  }

  // ------------------------------------------------------------------ the service

  class CancelEventService {
    var db: Db
    const releasers: seq<Releaser>

    constructor (db: Db, releasers: seq<Releaser>)
      ensures this.db == db && this.releasers == releasers
    {
      this.db, this.releasers := db, releasers;
    }

    /** The recipient set, in insertion order, read before anything is released. */
    method CollectRecipients(actor: UserId, event: EventId, skipOrganiser: bool) returns (recipients: seq<UserId>)
      requires event in db.events && NoneTwice(releasers)
      ensures recipients == Recipients(db, releasers, actor, event, skipOrganiser)
    {
      var organiser := db.events[event].organiser;
      recipients := AddOnce([organiser], actor);
      ghost var start := recipients;
      var attendees := Attendees(db.registrations, event, Waitlist.Registered);
      for k := 0 to |releasers|
        invariant recipients == if Registrations in releasers[..k] then AddEach(start, attendees) else start
      {
        assert releasers[..k + 1] == releasers[..k] + [releasers[k]];
        if releasers[k] == Registrations {
          assert forall j :: 0 <= j < k ==> releasers[j] != releasers[k];
          recipients := AddEach(recipients, attendees);
        }
      }
      assert releasers[..|releasers|] == releasers;
      assert AddEach(start, []) == start;
      if skipOrganiser {
        recipients := Filter(recipients, (u: UserId) => u != organiser);
      }
    }

    method WriteNotices(recipients: seq<UserId>, event: EventId)
      modifies `db
      ensures db == old(db).(notices := WriteAll(old(db).notices, recipients, event))
    {
      ghost var start := db.notices;
      for k := 0 to |recipients|
        invariant db == old(db).(notices := db.notices)
        invariant WriteAll(db.notices, recipients[k..], event) == WriteAll(start, recipients, event)
      {
        assert recipients[k..][0] == recipients[k] && recipients[k..][1..] == recipients[k + 1..];
        if Notice(recipients[k], event) !in db.notices {
          db := db.(notices := db.notices + [Notice(recipients[k], event)]);
        }
      }
    }

    /** With the registry complete, an accepted cancellation releases every row of the event and no other. */
    method CancelEvent(actor: UserId, event: EventId, now: int, fault: Option<nat>) returns (refusal: Option<Refusal>)
      requires NoneTwice(releasers) && Complete(releasers)
      modifies `db
      ensures refusal.None? <==>
        && event in old(db).events && old(db).events[event].coordinator == Some(actor)
        && old(db).events[event].status !in {EventStatus.Rejected, EventStatus.Completed, EventStatus.Cancelled}
        && (fault.Some? ==> fault.value >= |releasers|)
      ensures refusal.None? ==> TouchesOnly(old(db), db, event) && EveryRowReleased(old(db), db, event, now)
      ensures refusal.Some? ==> db == old(db)
    {
      CancellationIsOneStep(db, releasers, actor, event, now, false, fault);
      refusal := CancelInside(actor, event, now, false, fault);
    }

    /** Runs each releaser in turn; a fault at one of them restores the tables as the transaction found them. */
    method CancelInside(actor: UserId, event: EventId, now: int, skipOrganiser: bool, fault: Option<nat>)
      returns (refusal: Option<Refusal>)
      requires NoneTwice(releasers)
      modifies `db
      ensures refusal.None? <==> Cancel(old(db), releasers, actor, event, now, skipOrganiser, fault).Done?
      ensures refusal.None? ==> db == Cancel(old(db), releasers, actor, event, now, skipOrganiser, fault).db
      ensures refusal.Some? ==>
        db == old(db) && Cancel(old(db), releasers, actor, event, now, skipOrganiser, fault) == Refused(refusal.value)
    {
      if event !in db.events { return Some(EventNotFound); }
      var row := db.events[event];
      if row.coordinator != Some(actor) { return Some(NotAllowed); }
      if !IsCancellable(row.status) { return Some(NotCancellable); }
      var before := db;
      db := db.(events := db.events[event := row.(status := EventStatus.Cancelled)]);
      db := db.(history := db.history + [HistoryRow(event, row.status, EventStatus.Cancelled)]);
      var recipients := CollectRecipients(actor, event, skipOrganiser);
      WriteNotices(recipients, event);
      ghost var told := db;
      for k := 0 to |releasers|
        invariant ReleaseAll(db, releasers[k..], event, now) == ReleaseAll(told, releasers, event, now)
        invariant fault.Some? ==> fault.value >= k
      {
        if fault == Some(k) {
          db := before;
          return Some(ReleaserFailed);
        }
        assert releasers[k..][0] == releasers[k] && releasers[k..][1..] == releasers[k + 1..];
        db := Release(db, releasers[k], event, now);
      }
      refusal := None;
    }
  }

  ghost predicate NoneTwice(releasers: seq<Releaser>) {
    forall i, j :: 0 <= i < j < |releasers| ==> releasers[i] != releasers[j]
  }
}
