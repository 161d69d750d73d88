/**
 The rule for confirming an event (backend/src/events/status/readiness.ts): what is still outstanding, in which order,
 and why neither the order of the rows nor the expiry scheduler can change it.
 */
module Readiness {
  import opened Wrappers
  import opened Lists
  import opened Arrangements

  datatype SafetyState = SafetyApproved | AwaitingCheck | ChangesRequested | SafetyRejected

  /** `safety` is None while no safety record exists. */
  datatype Snapshot = Snapshot(
    bookings: seq<Booking>,
    equipment: seq<Line>,
    safety: Option<SafetyState>,
    noneConfirmed: bool
  )

  datatype VenueState = RunningHold | EndedHold | VenueUnavailable | WasRejected | StillPending

  datatype Outstanding =
    | NoVenueRequested
    | VenueOutstanding(venueName: string, state: VenueState)
    | EquipmentOutstanding(name: string, quantity: nat, status: LineStatus)
    | NoEquipmentRequested
    | SafetyOutstanding(safety: Option<SafetyState>)

  function VenueItem(b: Booking, now: int): Option<Outstanding> {
    if b.status == Approved then
      match ApprovedHoldState(b, now)
      case Some(hold) =>
        Some(VenueOutstanding(b.venueName, if hold == HoldState.HoldExpired then EndedHold else RunningHold))
      case None => if b.unavailable then Some(VenueOutstanding(b.venueName, VenueUnavailable)) else None
    else if b.status == Rejected then Some(VenueOutstanding(b.venueName, WasRejected))
    else if b.holdExpiresAt.None? then Some(VenueOutstanding(b.venueName, StillPending))
    else Some(VenueOutstanding(b.venueName, if b.holdExpiresAt.value <= now then EndedHold else RunningHold))
  }

  /** A rejection with a covering replacement is history. */
  function OutstandingVenue(b: Booking, active: seq<Booking>, now: int): Option<Outstanding> {
    if b.status == Rejected && HasReplacement(b, active) then None else VenueItem(b, now)
  }

  function EquipmentItem(line: Line): Option<Outstanding> {
    if !IsActiveLine(line) || line.status == LineReserved then None
    else Some(EquipmentOutstanding(line.name, line.quantity, line.status))
  }

  predicate NoneRequested(bookings: seq<Booking>) {
    ActiveBookings(bookings) == []
    && (bookings == [] || exists i :: 0 <= i < |bookings| && bookings[i].status == BookingStatus.Cancelled)
  }

  function VenueItems(bookings: seq<Booking>, now: int): seq<Outstanding> {
    var active := ActiveBookings(bookings);
    (if NoneRequested(bookings) then [NoVenueRequested] else [])
    + Collect(SortBy(active, (b: Booking) => b.id), (b: Booking) => OutstandingVenue(b, active, now))
  }

  function EquipmentItems(lines: seq<Line>, noneConfirmed: bool): seq<Outstanding> {
    Collect(SortBy(lines, (line: Line) => line.id), (line: Line) => EquipmentItem(line))
    + if ActiveLines(lines) == [] && !noneConfirmed then [NoEquipmentRequested] else []
  }

  /** Everything outstanding, in the order it is listed. */
  function OutstandingItems(snapshot: Snapshot, now: int): seq<Outstanding> {
    VenueItems(snapshot.bookings, now)
    + EquipmentItems(snapshot.equipment, snapshot.noneConfirmed)
    + if snapshot.safety == Some(SafetyApproved) then [] else [SafetyOutstanding(snapshot.safety)]
  }

  /** The loop over the active bookings, sorted. */
  method CheckEach(bookings: seq<Booking>, active: seq<Booking>, now: int) returns (outstanding: seq<Outstanding>)
    ensures outstanding == Collect(bookings, (b: Booking) => OutstandingVenue(b, active, now))
  {
    ghost var item := (b: Booking) => OutstandingVenue(b, active, now);
    outstanding := [];
    for i := 0 to |bookings|
      invariant outstanding == Collect(bookings[..i], item)
    {
      CollectGrows(bookings[..i], bookings[i], item);
      assert bookings[..i + 1] == bookings[..i] + [bookings[i]];
      if bookings[i].status == Rejected && HasReplacement(bookings[i], active) {
        continue;
      }
      var venueItem := VenueItem(bookings[i], now);
      if venueItem.Some? {
        outstanding := outstanding + [venueItem.value];
      }
    }
    assert bookings[..|bookings|] == bookings;
  }

  method CheckVenues(bookings: seq<Booking>, now: int) returns (outstanding: seq<Outstanding>)
    ensures outstanding == VenueItems(bookings, now)
  {
    outstanding := [];
    var active := ActiveBookings(bookings);
    if NoneRequested(bookings) {
      outstanding := outstanding + [NoVenueRequested];
    }
    var each := CheckEach(SortBy(active, (b: Booking) => b.id), active, now);
    outstanding := outstanding + each;
  }

  method CheckEquipment(lines: seq<Line>) returns (outstanding: seq<Outstanding>)
    ensures outstanding == Collect(lines, (line: Line) => EquipmentItem(line))
  {
    ghost var item := (line: Line) => EquipmentItem(line);
    outstanding := [];
    for i := 0 to |lines|
      invariant outstanding == Collect(lines[..i], item)
    {
      CollectGrows(lines[..i], lines[i], item);
      assert lines[..i + 1] == lines[..i] + [lines[i]];
      var equipmentItem := EquipmentItem(lines[i]);
      if equipmentItem.Some? {
        outstanding := outstanding + [equipmentItem.value];
      }
    }
    assert lines[..|lines|] == lines;
  }

  method EvaluateReadiness(snapshot: Snapshot, now: int) returns (ready: bool, outstanding: seq<Outstanding>)
    ensures outstanding == OutstandingItems(snapshot, now)
    ensures ready <==> outstanding == []
  {
    outstanding := CheckVenues(snapshot.bookings, now);
    var equipment := CheckEquipment(SortBy(snapshot.equipment, (line: Line) => line.id));
    if ActiveLines(snapshot.equipment) == [] && !snapshot.noneConfirmed {
      equipment := equipment + [NoEquipmentRequested];
    }
    outstanding := outstanding + equipment;
    if snapshot.safety != Some(SafetyApproved) {
      outstanding := outstanding + [SafetyOutstanding(snapshot.safety)];
    }
    ready := |outstanding| == 0;
  }

  // ------------------------------------------------------------------ what ready means

  /** An active booking that asks for nothing more. */
  predicate IsResolved(b: Booking, active: seq<Booking>) {
    IsConfirmed(b) || (b.status == Rejected && HasReplacement(b, active))
  }

  predicate AllResolved(bookings: seq<Booking>) {
    var active := ActiveBookings(bookings);
    forall b :: b in active ==> IsResolved(b, active)
  }

  predicate VenueSatisfied(bookings: seq<Booking>) {
    AllResolved(bookings) && !NoneRequested(bookings)
  }

  predicate EquipmentSatisfied(lines: seq<Line>, noneConfirmed: bool) {
    var active := ActiveLines(lines);
    if active == [] then noneConfirmed else forall line :: line in active ==> line.status == LineReserved
  }

  lemma VenueItemsEmpty(bookings: seq<Booking>, now: int)
    ensures VenueItems(bookings, now) == [] <==> VenueSatisfied(bookings)
  {
    var active := ActiveBookings(bookings);
    var sorted := SortBy(active, (b: Booking) => b.id);
    var item := (b: Booking) => OutstandingVenue(b, active, now);
    CollectsNothing(sorted, item);
    forall b ensures b in sorted <==> b in active {
      SortByContains(active, (x: Booking) => x.id, b);
    }
    forall b | b in active ensures item(b).None? <==> IsResolved(b, active) {
    }
  }

  lemma EquipmentItemsEmpty(lines: seq<Line>, noneConfirmed: bool)
    ensures EquipmentItems(lines, noneConfirmed) == [] <==> EquipmentSatisfied(lines, noneConfirmed)
  {
    var sorted := SortBy(lines, (line: Line) => line.id);
    CollectsNothing(sorted, (line: Line) => EquipmentItem(line));
    forall line ensures line in sorted <==> line in lines {
      SortByContains(lines, (x: Line) => x.id, line);
    }
    forall line ensures line in ActiveLines(lines) <==> line in lines && IsActiveLine(line) {
      FilterContains(lines, (x: Line) => IsActiveLine(x), line);
    }
    if ActiveLines(lines) == [] {
      assert forall line :: line in lines ==> line !in ActiveLines(lines);
    }
  }

  /**
   Ready means exactly this, at any time: every active booking is an available ordinary approval or a rejection with a
   covering replacement, there is an active booking (or every booking was released), the equipment is all reserved or
   confirmed as none, and the Safety Officer approved.
   */
  lemma ReadyMeans(snapshot: Snapshot, now: int)
    ensures OutstandingItems(snapshot, now) == [] <==>
      && VenueSatisfied(snapshot.bookings)
      && EquipmentSatisfied(snapshot.equipment, snapshot.noneConfirmed)
      && snapshot.safety == Some(SafetyApproved)
  {
    VenueItemsEmpty(snapshot.bookings, now);
    EquipmentItemsEmpty(snapshot.equipment, snapshot.noneConfirmed);
  }

  /** The source promises that no booking is never vacuously approved; a list of released bookings alone is. */
  lemma ReleasedBookingsAskForNothing(bookings: seq<Booking>)
    requires bookings != [] && forall i :: 0 <= i < |bookings| ==> bookings[i].status == Released
    ensures VenueSatisfied(bookings) && ActiveBookings(bookings) == []
  {
    var active := ActiveBookings(bookings);
    if active != [] {
      FilterContains(bookings, (b: Booking) => IsActive(b), active[0]);
    }
  }

  // ------------------------------------------------------------------ order and the scheduler

  ghost predicate DistinctBookings(bookings: seq<Booking>) {
    DistinctKeys(bookings, (b: Booking) => b.id)
  }

  lemma ActiveIdsDistinct(bookings: seq<Booking>)
    requires DistinctBookings(bookings)
    ensures DistinctBookings(ActiveBookings(bookings))
  {
    FilterKeepsDistinct(bookings, (b: Booking) => IsActive(b), (b: Booking) => b.id);
  }

  lemma SameReplacements(a: seq<Booking>, b: seq<Booking>, rejected: Booking)
    requires multiset(a) == multiset(b)
    ensures HasReplacement(rejected, a) == HasReplacement(rejected, b)
  {
    if HasReplacement(rejected, a) {
      var i :| 0 <= i < |a| && Replaces(a[i], rejected);
      assert a[i] in multiset(b);
    }
    if HasReplacement(rejected, b) {
      var i :| 0 <= i < |b| && Replaces(b[i], rejected);
      assert b[i] in multiset(a);
    }
  }

  lemma SameNoneRequested(a: seq<Booking>, b: seq<Booking>)
    requires multiset(a) == multiset(b)
    ensures NoneRequested(a) == NoneRequested(b)
  {
    FilterForgetsOrder(a, b, (x: Booking) => IsActive(x));
    assert |multiset(a)| == |a| && |multiset(b)| == |b|;
    assert |multiset(ActiveBookings(a))| == |ActiveBookings(a)| && |multiset(ActiveBookings(b))| == |ActiveBookings(b)|;
    if exists i :: 0 <= i < |a| && a[i].status == BookingStatus.Cancelled {
      var i :| 0 <= i < |a| && a[i].status == BookingStatus.Cancelled;
      assert a[i] in multiset(b);
    }
    if exists i :: 0 <= i < |b| && b[i].status == BookingStatus.Cancelled {
      var i :| 0 <= i < |b| && b[i].status == BookingStatus.Cancelled;
      assert b[i] in multiset(a);
    }
  }

  lemma VenueItemsForgetOrder(a: seq<Booking>, b: seq<Booking>, now: int)
    requires multiset(a) == multiset(b) && DistinctBookings(b)
    ensures VenueItems(a, now) == VenueItems(b, now)
  {
    var activeA, activeB := ActiveBookings(a), ActiveBookings(b);
    FilterForgetsOrder(a, b, (x: Booking) => IsActive(x));
    ActiveIdsDistinct(b);
    SortForgetsOrder(activeA, activeB, (x: Booking) => x.id);
    SameNoneRequested(a, b);
    forall x: Booking ensures OutstandingVenue(x, activeA, now) == OutstandingVenue(x, activeB, now) {
      SameReplacements(activeA, activeB, x);
    }
    CollectSame(SortBy(activeB, (x: Booking) => x.id), (x: Booking) => OutstandingVenue(x, activeA, now),
                (x: Booking) => OutstandingVenue(x, activeB, now));
  }

  /** Permuting bookings and equipment lines permutes nothing in the answer. */
  lemma ReadinessForgetsOrder(a: Snapshot, b: Snapshot, now: int)
    requires multiset(a.bookings) == multiset(b.bookings) && DistinctBookings(b.bookings)
    requires multiset(a.equipment) == multiset(b.equipment) && DistinctKeys(b.equipment, (line: Line) => line.id)
    requires a.safety == b.safety && a.noneConfirmed == b.noneConfirmed
    ensures OutstandingItems(a, now) == OutstandingItems(b, now)
  {
    VenueItemsForgetOrder(a.bookings, b.bookings, now);
    SortForgetsOrder(a.equipment, b.equipment, (line: Line) => line.id);
    FilterForgetsOrder(a.equipment, b.equipment, (line: Line) => IsActiveLine(line));
    assert |multiset(ActiveLines(a.equipment))| == |ActiveLines(a.equipment)|;
    assert |multiset(ActiveLines(b.equipment))| == |ActiveLines(b.equipment)|;
  }

  lemma SettlingKeepsNoneRequested(bookings: seq<Booking>, now: int)
    ensures NoneRequested(Settled(bookings, now)) == NoneRequested(bookings)
  {
    var settled := Settled(bookings, now);
    SettlingKeepsActive(bookings, now);
    MapIndexes(bookings, (b: Booking) => Persisted(b, now));
    forall i | 0 <= i < |bookings|
      ensures settled[i].status == BookingStatus.Cancelled <==> bookings[i].status == BookingStatus.Cancelled
    {
      assert settled[i] == Persisted(bookings[i], now);
    }
  }

  lemma SettlingKeepsItem(b: Booking, active: seq<Booking>, now: int)
    ensures OutstandingVenue(Persisted(b, now), Settled(active, now), now) == OutstandingVenue(b, active, now)
  {
    SettlingKeepsReplacement(Persisted(b, now), active, now);
    SettlingKeepsReplacement(b, active, now);
  }

  lemma VenueItemsOfSettled(bookings: seq<Booking>, now: int)
    ensures VenueItems(Settled(bookings, now), now) == VenueItems(bookings, now)
  {
    var settle := (b: Booking) => Persisted(b, now);
    var active := ActiveBookings(bookings);
    SettlingKeepsActive(bookings, now);
    SettlingKeepsNoneRequested(bookings, now);
    SortOfMap(active, settle, (b: Booking) => b.id);
    forall b: Booking
      ensures OutstandingVenue(Persisted(b, now), Settled(active, now), now) == OutstandingVenue(b, active, now)
    {
      SettlingKeepsItem(b, active, now);
    }
    CollectOfMap(SortBy(active, (b: Booking) => b.id), settle,
                 (b: Booking) => OutstandingVenue(b, Settled(active, now), now),
                 (b: Booking) => OutstandingVenue(b, active, now));
  }

  /** The expiry scheduler is invisible: whatever it has stored, wherever the rows sit, now and at every later time. */
  lemma SchedulerIsInvisible(before: Snapshot, after: Snapshot, now: int, later: int)
    requires SchedulerRewrote(before.bookings, after.bookings, now) && now <= later
    requires after == before.(bookings := after.bookings)
    ensures OutstandingItems(after, later) == OutstandingItems(before, later)
  {
    RewriteStaysInvisible(before.bookings, after.bookings, now, later);
    RewritesSettleAlike(before.bookings, after.bookings, later);
    VenueItemsOfSettled(before.bookings, later);
    VenueItemsOfSettled(after.bookings, later);
  }
}
