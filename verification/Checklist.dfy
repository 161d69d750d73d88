/**
 The planning checklist (backend/src/events/status/checklist.ts) and its agreement with the Confirm rule: the two are
 derived independently, and differ on exactly one kind of snapshot.
 */
module Checklist {
  import opened Wrappers
  import opened Lists
  import opened Arrangements
  import opened Readiness

  datatype RequestStatus = NotRequested | PendingRequest | Confirmed | UnavailableRequest

  datatype Prerequisite = Venue | Equipment | Registration

  datatype Registration = RegistrationWindow(enabled: bool, opensAt: Option<int>, closesAt: Option<int>)

  function VenueRequestStatus(b: Booking, now: int): RequestStatus {
    if b.status == Rejected then UnavailableRequest
    else match ApprovedHoldState(b, now)
      case Some(hold) => if hold == HoldState.HoldExpired then UnavailableRequest else PendingRequest
      case None =>
        if b.status == Approved then (if b.unavailable then UnavailableRequest else Confirmed) else PendingRequest
  }

  function EquipmentRequestStatus(line: Line): RequestStatus {
    if line.status == LineUnavailable then UnavailableRequest
    else if line.status == LineReserved then Confirmed
    else PendingRequest
  }

  /** The section's status: the worst of its requests' statuses. */
  function Combined(statuses: seq<RequestStatus>): RequestStatus {
    if UnavailableRequest in statuses then UnavailableRequest
    else if PendingRequest in statuses then PendingRequest
    else Confirmed
  }

  function SectionStatus(statuses: seq<RequestStatus>): RequestStatus {
    if statuses == [] then NotRequested else Combined(statuses)
  }

  /** The current requests: rejected history with a covering replacement is left out. */
  function CurrentBookings(bookings: seq<Booking>): seq<Booking> {
    var active := ActiveBookings(bookings);
    Filter(active, (b: Booking) => !(b.status == Rejected && HasReplacement(b, active)))
  }

  function VenueStatus(bookings: seq<Booking>, now: int): RequestStatus {
    SectionStatus(Map(CurrentBookings(bookings), (b: Booking) => VenueRequestStatus(b, now)))
  }

  /** One venue request as the checklist lists it; an approved tentative hold shows its hold state. */
  datatype VenueRequestItem =
    VenueRequestItem(id: nat, venueName: string, status: RequestStatus, hold: Option<HoldState>)

  function VenueRequestItems(bookings: seq<Booking>, now: int): seq<VenueRequestItem> {
    Map(CurrentBookings(bookings), (b: Booking) =>
      VenueRequestItem(b.id, b.venueName, VenueRequestStatus(b, now), ApprovedHoldState(b, now)))
  }

  function EquipmentStatus(lines: seq<Line>): RequestStatus {
    SectionStatus(Map(ActiveLines(lines), (line: Line) => EquipmentRequestStatus(line)))
  }

  predicate EquipmentConfirmed(lines: seq<Line>, confirmedAt: Option<int>) {
    EquipmentStatus(lines) == Confirmed || (ActiveLines(lines) == [] && confirmedAt.Some?)
  }

  predicate RegistrationReady(r: Registration) {
    !r.enabled || (r.opensAt.Some? && r.closesAt.Some?)
  }

  /** Derived without readiness.ts; ChecklistAgreesWithConfirm compares the two. */
  function Blocking(bookings: seq<Booking>, lines: seq<Line>, confirmedAt: Option<int>, r: Registration, now: int)
      : seq<Prerequisite> {
    (if VenueStatus(bookings, now) != Confirmed then [Venue] else [])
    + (if !EquipmentConfirmed(lines, confirmedAt) then [Equipment] else [])
    + (if !RegistrationReady(r) then [Prerequisite.Registration] else [])
  }

  predicate CanRequestSafetyCheck(bookings: seq<Booking>, lines: seq<Line>, confirmedAt: Option<int>, r: Registration,
                                  unresolvedFeedback: nat, now: int) {
    Blocking(bookings, lines, confirmedAt, r, now) == [] && unresolvedFeedback == 0
  }

  // ------------------------------------------------------------------ agreement with readiness

  lemma {:induction false} SectionConfirmed<T>(s: seq<T>, status: T -> RequestStatus)
    requires forall x :: x in s ==> status(x) != NotRequested
    ensures SectionStatus(Map(s, status)) == Confirmed <==> s != [] && forall x :: x in s ==> status(x) == Confirmed
  {
    var statuses := Map(s, status);
    forall i | 0 <= i < |s| ensures statuses[i] == status(s[i]) {
      MapIndex(s, status, i);
    }
    forall x | x in s ensures status(x) in statuses {
      var i :| 0 <= i < |s| && s[i] == x;
      assert statuses[i] == status(x);
    }
    if SectionStatus(statuses) == Confirmed {
      assert UnavailableRequest !in statuses && PendingRequest !in statuses;
    }
  }

  lemma CurrentMeans(bookings: seq<Booking>, b: Booking)
    ensures var active := ActiveBookings(bookings);
      b in CurrentBookings(bookings) <==> b in active && !(b.status == Rejected && HasReplacement(b, active))
  {
    var active := ActiveBookings(bookings);
    FilterContains(active, (x: Booking) => !(x.status == Rejected && HasReplacement(x, active)), b);
  }

  /** A replacement is itself a current booking, so rejected history alone never empties the section. */
  lemma SomethingIsCurrent(bookings: seq<Booking>)
    requires ActiveBookings(bookings) != []
    ensures CurrentBookings(bookings) != []
  {
    var active := ActiveBookings(bookings);
    CurrentMeans(bookings, active[0]);
    if active[0].status == Rejected && HasReplacement(active[0], active) {
      var i :| 0 <= i < |active| && Replaces(active[i], active[0]);
      CurrentMeans(bookings, active[i]);
    }
  }

  /** A venue section is confirmed exactly when some booking is active and every active one asks for nothing more. */
  lemma VenueConfirmedMeans(bookings: seq<Booking>, now: int)
    ensures VenueStatus(bookings, now) == Confirmed <==> ActiveBookings(bookings) != [] && AllResolved(bookings)
  {
    var active, current := ActiveBookings(bookings), CurrentBookings(bookings);
    SectionConfirmed(current, (b: Booking) => VenueRequestStatus(b, now));
    forall b ensures b in current <==> b in active && !(b.status == Rejected && HasReplacement(b, active)) {
      CurrentMeans(bookings, b);
    }
    if active != [] {
      SomethingIsCurrent(bookings);
    }
    if current != [] {
      assert current[0] in active;
    }
  }

  lemma EquipmentConfirmedMeans(lines: seq<Line>, confirmedAt: Option<int>)
    ensures EquipmentConfirmed(lines, confirmedAt) <==> EquipmentSatisfied(lines, confirmedAt.Some?)
  {
    var active := ActiveLines(lines);
    SectionConfirmed(active, (line: Line) => EquipmentRequestStatus(line));
    if active != [] {
      assert active[0] in active;
    }
  }

  predicate BlocksVenueOrEquipment(blocking: seq<Prerequisite>) {
    Venue in blocking || Equipment in blocking
  }

  lemma BlockingMeans(bookings: seq<Booking>, lines: seq<Line>, confirmedAt: Option<int>, r: Registration, now: int)
    ensures BlocksVenueOrEquipment(Blocking(bookings, lines, confirmedAt, r, now))
      <==> VenueStatus(bookings, now) != Confirmed || !EquipmentConfirmed(lines, confirmedAt)
  {
    var blocking := Blocking(bookings, lines, confirmedAt, r, now);
    assert VenueStatus(bookings, now) != Confirmed ==> blocking[0] == Venue;
  }

  predicate AllReleased(bookings: seq<Booking>) {
    bookings != [] && forall i :: 0 <= i < |bookings| ==> bookings[i].status == Released
  }

  /** The two rules for the venue section differ on exactly one kind of list. */
  lemma VenueRulesDiffer(bookings: seq<Booking>)
    ensures ActiveBookings(bookings) != [] && AllResolved(bookings)
      <==> VenueSatisfied(bookings) && !AllReleased(bookings)
  {
    var active := ActiveBookings(bookings);
    forall b ensures b in active <==> b in bookings && IsActive(b) {
      FilterContains(bookings, (x: Booking) => IsActive(x), b);
    }
    if active == [] {
      assert forall i :: 0 <= i < |bookings| ==> bookings[i] !in active;
    } else {
      assert active[0] in active;
    }
  }

  /**
   The checklist lists neither venue nor equipment as blocking exactly when Confirm, with the safety check approved and
   the same none-needed confirmation, has nothing outstanding, except for a snapshot with bookings that are all
   released: there Confirm asks for no venue and the checklist does.
   */
  lemma ChecklistAgreesWithConfirm(bookings: seq<Booking>, lines: seq<Line>, confirmedAt: Option<int>, r: Registration,
                                   now: int)
    ensures var snapshot := Snapshot(bookings, lines, Some(SafetyApproved), confirmedAt.Some?);
      var ready := OutstandingItems(snapshot, now) == [];
      !BlocksVenueOrEquipment(Blocking(bookings, lines, confirmedAt, r, now)) <==> ready && !AllReleased(bookings)
  {
    ReadyMeans(Snapshot(bookings, lines, Some(SafetyApproved), confirmedAt.Some?), now);
    BlockingMeans(bookings, lines, confirmedAt, r, now);
    VenueConfirmedMeans(bookings, now);
    EquipmentConfirmedMeans(lines, confirmedAt);
    VenueRulesDiffer(bookings);
  }

  /** An empty blocking list is strong enough for Confirm: only the Safety Officer's approval is missing. */
  lemma RequestableMeansConfirmable(bookings: seq<Booking>, lines: seq<Line>, confirmedAt: Option<int>, r: Registration,
                                    unresolvedFeedback: nat, now: int)
    requires CanRequestSafetyCheck(bookings, lines, confirmedAt, r, unresolvedFeedback, now)
    ensures OutstandingItems(Snapshot(bookings, lines, Some(SafetyApproved), confirmedAt.Some?), now) == []
    ensures exists b :: b in bookings && IsConfirmed(b)
  {
    ChecklistAgreesWithConfirm(bookings, lines, confirmedAt, r, now);
    VenueConfirmedMeans(bookings, now);
    var active := ActiveBookings(bookings);
    assert IsResolved(active[0], active);
    var i := 0;
    if !IsConfirmed(active[0]) {
      i :| 0 <= i < |active| && Replaces(active[i], active[0]);
    }
    FilterContains(bookings, (x: Booking) => IsActive(x), active[i]);
  }

  lemma CurrentOfSettled(bookings: seq<Booking>, now: int)
    ensures CurrentBookings(Settled(bookings, now)) == Settled(CurrentBookings(bookings), now)
  {
    var settle := (b: Booking) => Persisted(b, now);
    var active := ActiveBookings(bookings);
    SettlingKeepsActive(bookings, now);
    forall b: Booking
      ensures HasReplacement(b, Settled(active, now)) == HasReplacement(b, active)
      ensures HasReplacement(Persisted(b, now), active) == HasReplacement(b, active)
    {
      SettlingKeepsReplacement(b, active, now);
    }
    FilterSame(Settled(active, now), (b: Booking) => !(b.status == Rejected && HasReplacement(b, Settled(active, now))),
               (b: Booking) => !(b.status == Rejected && HasReplacement(b, active)));
    FilterOfMap(active, settle, (b: Booking) => !(b.status == Rejected && HasReplacement(b, active)));
  }

  lemma VenueSectionOfSettled(bookings: seq<Booking>, now: int)
    ensures VenueStatus(Settled(bookings, now), now) == VenueStatus(bookings, now)
    ensures VenueRequestItems(Settled(bookings, now), now) == VenueRequestItems(bookings, now)
  {
    var settle := (b: Booking) => Persisted(b, now);
    CurrentOfSettled(bookings, now);
    MapOfMap(CurrentBookings(bookings), settle, (b: Booking) => VenueRequestStatus(b, now));
    MapOfMap(CurrentBookings(bookings), settle, (b: Booking) =>
      VenueRequestItem(b.id, b.venueName, VenueRequestStatus(b, now), ApprovedHoldState(b, now)));
  }

  /** The checklist's venue section, too, reads the same before and after the expiry scheduler ran. */
  lemma SchedulerIsInvisibleToChecklist(before: seq<Booking>, after: seq<Booking>, lines: seq<Line>,
                                        confirmedAt: Option<int>,
                                        r: Registration, now: int, later: int)
    requires SchedulerRewrote(before, after, now) && now <= later
    ensures Blocking(after, lines, confirmedAt, r, later) == Blocking(before, lines, confirmedAt, r, later)
    ensures VenueStatus(after, later) == VenueStatus(before, later)
    ensures VenueRequestItems(after, later) == VenueRequestItems(before, later)
  {
    RewriteStaysInvisible(before, after, now, later);
    RewritesSettleAlike(before, after, later);
    VenueSectionOfSettled(before, later);
    VenueSectionOfSettled(after, later);
  }
}
