/**
 The facts the read models share: venue bookings, equipment lines, the one hold rule
 (backend/src/events/venue-unavailable.ts) and what the expiry scheduler writes. Slot times are None when they do not
 parse as dates.
 */
module Arrangements {
  import opened Wrappers
  import opened Lists

  datatype BookingStatus = Pending | Approved | Rejected | Released | Cancelled | Expired

  datatype Booking = Booking(
    id: nat,
    venue: nat,
    venueName: string,
    venueLocation: string,
    status: BookingStatus,
    holdExpiresAt: Option<int>,
    tentative: bool,
    unavailable: bool,
    start: Option<int>,
    end: Option<int>
  )

  datatype LineStatus = LineRequested | LineReserved | LineUnavailable | LineCancelled | LineReleased

  datatype Line = Line(id: nat, name: string, quantity: nat, status: LineStatus)

  datatype HoldState = Active | HoldExpired

  /** Some exactly for a tentative hold that staff accepted, before or after the scheduler rewrote its status. */
  function ApprovedHoldState(b: Booking, now: int): Option<HoldState> {
    if !b.tentative then None
    else if b.status == Expired then Some(HoldExpired)
    else if b.status != Approved then None
    else if b.holdExpiresAt.Some? && b.holdExpiresAt.value <= now then Some(HoldExpired)
    else Some(Active)
  }

  predicate IsOver(b: Booking, now: int) {
    b.tentative && b.status == Approved && b.holdExpiresAt.Some? && b.holdExpiresAt.value <= now
  }

  /** What the expiry scheduler stores for a hold that has run out. */
  function Persisted(b: Booking, now: int): Booking {
    if IsOver(b, now) then b.(status := Expired) else b
  }

  /** Row by row, stored as it was or as the scheduler rewrote it at some earlier time. */
  ghost predicate SchedulerRewrote(before: seq<Booking>, after: seq<Booking>, now: int) {
    && |before| == |after|
    && forall i :: 0 <= i < |before| ==>
         after[i] == before[i] || exists t: int :: t <= now && after[i] == Persisted(before[i], t)
  }

  /** Every row as a reader at this instant already takes it. */
  function Settled(bookings: seq<Booking>, now: int): seq<Booking> {
    Map(bookings, (b: Booking) => Persisted(b, now))
  }

  /** Whatever the scheduler has written so far, the settled list is the same. */
  lemma {:induction false} RewritesSettleAlike(before: seq<Booking>, after: seq<Booking>, now: int)
    requires SchedulerRewrote(before, after, now)
    ensures Settled(before, now) == Settled(after, now)
  {
    forall i | 0 <= i < |before| ensures Settled(before, now)[i] == Settled(after, now)[i] {
      MapIndex(before, (b: Booking) => Persisted(b, now), i);
      MapIndex(after, (b: Booking) => Persisted(b, now), i);
    }
  }

  /** A hold that has run out stays so: the rewrite is invisible at every later time too. */
  lemma RewriteStaysInvisible(before: seq<Booking>, after: seq<Booking>, now: int, later: int)
    requires SchedulerRewrote(before, after, now) && now <= later
    ensures SchedulerRewrote(before, after, later)
  {
  }

  predicate IsActive(b: Booking) {
    b.status != Released && b.status != Cancelled
  }

  function ActiveBookings(bookings: seq<Booking>): seq<Booking> {
    Filter(bookings, (b: Booking) => IsActive(b))
  }

  predicate IsActiveLine(line: Line) {
    line.status != LineCancelled && line.status != LineReleased
  }

  function ActiveLines(lines: seq<Line>): seq<Line> {
    Filter(lines, (line: Line) => IsActiveLine(line))
  }

  /** An available ordinary approval at the same venue that covers the rejected booking's whole slot. */
  predicate Replaces(candidate: Booking, rejected: Booking) {
    && rejected.start.Some? && rejected.end.Some? && rejected.start.value < rejected.end.value
    && candidate.id != rejected.id && candidate.venue == rejected.venue
    && candidate.status == Approved && !candidate.unavailable && !candidate.tentative
    && candidate.start.Some? && candidate.end.Some?
    && candidate.start.value <= rejected.start.value && candidate.end.value >= rejected.end.value
  }

  predicate HasReplacement(rejected: Booking, bookings: seq<Booking>) {
    exists i :: 0 <= i < |bookings| && Replaces(bookings[i], rejected)
  }

  /** A booking that is confirmed for good: approved, an ordinary one, and its venue free. */
  predicate IsConfirmed(b: Booking) {
    b.status == Approved && !b.tentative && !b.unavailable
  }

  lemma SettlingKeepsReplacement(b: Booking, bookings: seq<Booking>, now: int)
    ensures HasReplacement(b, Settled(bookings, now)) == HasReplacement(b, bookings)
    ensures HasReplacement(Persisted(b, now), bookings) == HasReplacement(b, bookings)
  {
    forall i | 0 <= i < |bookings| ensures Replaces(Settled(bookings, now)[i], b) == Replaces(bookings[i], b) {
      MapIndex(bookings, (x: Booking) => Persisted(x, now), i);
    }
    if HasReplacement(b, bookings) {
      var i :| 0 <= i < |bookings| && Replaces(bookings[i], b);
      assert Replaces(Settled(bookings, now)[i], b);
    }
  }

  lemma SettlingKeepsActive(bookings: seq<Booking>, now: int)
    ensures ActiveBookings(Settled(bookings, now)) == Settled(ActiveBookings(bookings), now)
  {
    FilterOfMap(bookings, (b: Booking) => Persisted(b, now), (b: Booking) => IsActive(b));
  }
}
