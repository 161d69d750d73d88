/**
 What the three read models show of each stored row: the outstanding items of the Confirm rule
 (backend/src/events/status/readiness.ts), the checklist's requests (backend/src/events/status/checklist.ts) and the
 queue's holds and venues (backend/src/events/queue/queue-indicators.ts), in terms of the columns alone.
 */
module ReadModels {
  import opened Wrappers
  import E = EventTypes
  import opened Lists
  import opened Arrangements
  import R = Readiness
  import C = Checklist
  import Q = QueueIndicators

  // ------------------------------------------------------------------ rows

  /** Neither released nor cancelled. */
  ghost predicate IsCurrent(b: Booking) {
    b.status != Released && b.status != BookingStatus.Cancelled
  }

  /** The hold's expiry has been reached. */
  ghost predicate RanOut(b: Booking, now: int) {
    b.holdExpiresAt.Some? && b.holdExpiresAt.value <= now
  }

  ghost predicate IsSecured(b: Booking) {
    b.status == Approved && !b.tentative && !b.unavailable
  }

  /** Another secured booking of the same venue spans the whole slot of the rejected one. */
  ghost predicate IsReplaced(b: Booking, bookings: seq<Booking>) {
    b.status == Rejected && exists other :: other in bookings && StandsIn(other, b)
  }

  ghost predicate StandsIn(other: Booking, b: Booking) {
    && IsSecured(other) && other.id != b.id && other.venue == b.venue
    && b.start.Some? && b.end.Some? && other.start.Some? && other.end.Some?
    && other.start.value <= b.start.value < b.end.value <= other.end.value
  }

  lemma ReplacedMeans(b: Booking, bookings: seq<Booking>)
    ensures b.status == Rejected && HasReplacement(b, ActiveBookings(bookings)) <==> IsReplaced(b, bookings)
  {
    var active := ActiveBookings(bookings);
    forall other: Booking ensures Replaces(other, b) <==> StandsIn(other, b) {
    }
    forall other ensures other in active <==> other in bookings && IsActive(other) {
      FilterContains(bookings, (x: Booking) => IsActive(x), other);
    }
    if HasReplacement(b, active) {
      var i :| 0 <= i < |active| && Replaces(active[i], b);
      assert active[i] in bookings && StandsIn(active[i], b);
    }
    if exists other :: other in bookings && StandsIn(other, b) {
      var other :| other in bookings && StandsIn(other, b);
      assert other in active;
      var i :| 0 <= i < |active| && active[i] == other;
      assert Replaces(active[i], b);
    }
  }

  /** What the scheduler writes: a tentative approval past its expiry becomes Expired, and no other column changes. */
  lemma SchedulerWrites(b: Booking, now: int)
    ensures var after := Persisted(b, now);
      && after == b.(status := after.status)
      && (after.status != b.status <==> b.tentative && b.status == Approved && RanOut(b, now))
      && (after.status != b.status ==> after.status == Expired)
  {
  }

  // ------------------------------------------------------------------ the Confirm rule

  /** The words the Confirm rule has for a current booking that asks for something. */
  ghost predicate ShownAs(b: Booking, state: R.VenueState, now: int) {
    match state
    case WasRejected => b.status == Rejected
    case VenueUnavailable => b.status == Approved && !b.tentative && b.unavailable
    case StillPending => b.status != Rejected && b.status != Approved && b.holdExpiresAt.None?
    case RunningHold =>
      || (b.status == Approved && b.tentative && !RanOut(b, now))
      || (b.status != Rejected && b.status != Approved && b.holdExpiresAt.Some? && !RanOut(b, now))
    case EndedHold => b.status != Rejected && (b.status == Approved ==> b.tentative) && RanOut(b, now)
  }

  /** A current booking is listed unless it is secured or replaced, under its venue's name and its one state. */
  lemma VenueItemMeans(b: Booking, bookings: seq<Booking>, now: int, state: R.VenueState)
    ensures var item := R.OutstandingVenue(b, ActiveBookings(bookings), now);
      && (item.None? <==> IsSecured(b) || IsReplaced(b, bookings))
      && (item == Some(R.VenueOutstanding(b.venueName, state))
          <==> !IsReplaced(b, bookings) && ShownAs(b, state, now))
      && (item.Some? ==> item.value.VenueOutstanding? && item.value.venueName == b.venueName)
  {
    ReplacedMeans(b, bookings);
  }

  ghost predicate NothingBooked(bookings: seq<Booking>) {
    && (forall b :: b in bookings ==> !IsCurrent(b))
    && (bookings == [] || exists b :: b in bookings && b.status == BookingStatus.Cancelled)
  }

  ghost predicate IsLive(line: Line) {
    line.status != LineCancelled && line.status != LineReleased
  }

  lemma NoneRequestedMeans(bookings: seq<Booking>)
    ensures R.NoneRequested(bookings) <==> NothingBooked(bookings)
  {
    var active := ActiveBookings(bookings);
    forall b ensures b in active <==> b in bookings && IsCurrent(b) {
      FilterContains(bookings, (x: Booking) => IsActive(x), b);
    }
    if active != [] {
      assert active[0] in active;
    }
  }

  lemma VenueItemsAre(bookings: seq<Booking>, now: int, o: R.Outstanding)
    ensures o in R.VenueItems(bookings, now) <==>
      || (o == R.NoVenueRequested && NothingBooked(bookings))
      || exists b :: b in bookings && IsCurrent(b) && R.OutstandingVenue(b, ActiveBookings(bookings), now) == Some(o)
  {
    var active := ActiveBookings(bookings);
    var item := (b: Booking) => R.OutstandingVenue(b, active, now);
    NoneRequestedMeans(bookings);
    CollectContains(SortBy(active, (b: Booking) => b.id), item, o);
    forall b ensures b in SortBy(active, (x: Booking) => x.id) <==> b in bookings && IsCurrent(b) {
      SortByContains(active, (x: Booking) => x.id, b);
      FilterContains(bookings, (x: Booking) => IsActive(x), b);
    }
    forall b ensures item(b) == R.OutstandingVenue(b, active, now) {
    }
  }

  lemma EquipmentItemsAre(lines: seq<Line>, noneConfirmed: bool, o: R.Outstanding)
    ensures o in R.EquipmentItems(lines, noneConfirmed) <==>
      || (o == R.NoEquipmentRequested && !noneConfirmed && forall line :: line in lines ==> !IsLive(line))
      || exists line :: line in lines && IsLive(line) && line.status != LineReserved
                        && o == R.EquipmentOutstanding(line.name, line.quantity, line.status)
  {
    var active := ActiveLines(lines);
    var item := (line: Line) => R.EquipmentItem(line);
    CollectContains(SortBy(lines, (line: Line) => line.id), item, o);
    forall line ensures line in SortBy(lines, (x: Line) => x.id) <==> line in lines {
      SortByContains(lines, (x: Line) => x.id, line);
    }
    forall line ensures line in active <==> line in lines && IsLive(line) {
      FilterContains(lines, (x: Line) => IsActiveLine(x), line);
    }
    if active != [] {
      assert active[0] in active;
    }
    forall line ensures item(line) == Some(o) <==>
      IsLive(line) && line.status != LineReserved && o == R.EquipmentOutstanding(line.name, line.quantity, line.status)
    {
    }
  }

  /**
   Exactly what the Confirm rule lists: a missing venue, one item for each current booking that is neither secured nor
   replaced, one for each live line that is not reserved, missing equipment, and a safety check that is not approved.
   */
  lemma OutstandingItemsAre(snapshot: R.Snapshot, now: int, o: R.Outstanding)
    ensures o in R.OutstandingItems(snapshot, now) <==>
      match o
      case NoVenueRequested => NothingBooked(snapshot.bookings)
      case VenueOutstanding(name, state) =>
        exists b :: b in snapshot.bookings && IsCurrent(b) && b.venueName == name
                    && !IsReplaced(b, snapshot.bookings) && ShownAs(b, state, now)
      case EquipmentOutstanding(name, quantity, status) =>
        exists line :: line in snapshot.equipment && IsLive(line) && line.status != LineReserved
                       && line.name == name && line.quantity == quantity && line.status == status
      case NoEquipmentRequested =>
        !snapshot.noneConfirmed && forall line :: line in snapshot.equipment ==> !IsLive(line)
      case SafetyOutstanding(safety) => safety == snapshot.safety && snapshot.safety != Some(R.SafetyApproved)
  {
    var bookings, active := snapshot.bookings, ActiveBookings(snapshot.bookings);
    VenueItemsAre(bookings, now, o);
    EquipmentItemsAre(snapshot.equipment, snapshot.noneConfirmed, o);
    forall b | R.OutstandingVenue(b, active, now) == Some(o)
      ensures o.VenueOutstanding? && o.venueName == b.venueName
      ensures !IsReplaced(b, bookings) && ShownAs(b, o.state, now)
    {
      VenueItemMeans(b, bookings, now, if o.VenueOutstanding? then o.state else R.WasRejected);
    }
    if o.VenueOutstanding? {
      forall b: Booking | b.venueName == o.venueName && !IsReplaced(b, bookings) && ShownAs(b, o.state, now)
        ensures R.OutstandingVenue(b, active, now) == Some(o)
      {
        VenueItemMeans(b, bookings, now, o.state);
      }
    }
  }

  // ------------------------------------------------------------------ the checklist

  /** Unavailable, confirmed, or pending: the checklist's word for one booking. */
  lemma VenueStatusMeans(b: Booking, now: int)
    ensures var status := C.VenueRequestStatus(b, now);
      && (status == C.Confirmed <==> IsSecured(b))
      && (status == C.UnavailableRequest <==>
            || b.status == Rejected
            || (b.status == Approved && !b.tentative && b.unavailable)
            || (b.tentative && (b.status == Expired || (b.status == Approved && RanOut(b, now)))))
      && status != C.NotRequested
  {
  }

  lemma LineStatusMeans(line: Line)
    ensures var status := C.EquipmentRequestStatus(line);
      && (status == C.Confirmed <==> line.status == LineReserved)
      && (status == C.UnavailableRequest <==> line.status == LineUnavailable) && status != C.NotRequested
  {
  }

  /** A section without a request is not requested; otherwise its worst request decides. */
  lemma SectionMeans<T>(requests: seq<T>, status: T -> C.RequestStatus)
    requires forall x :: x in requests ==> status(x) != C.NotRequested
    ensures var section := C.SectionStatus(Map(requests, status));
      && (section == C.NotRequested <==> requests == [])
      && (section == C.UnavailableRequest <==> exists x :: x in requests && status(x) == C.UnavailableRequest)
      && (section == C.Confirmed <==> requests != [] && forall x :: x in requests ==> status(x) == C.Confirmed)
  {
    MapIndexes(requests, status);
    C.SectionConfirmed(requests, status);
    forall x | x in requests ensures status(x) in Map(requests, status) {
      var i :| 0 <= i < |requests| && requests[i] == x;
      assert Map(requests, status)[i] == status(x);
    }
    if C.UnavailableRequest in Map(requests, status) {
      var i :| 0 <= i < |requests| && Map(requests, status)[i] == C.UnavailableRequest;
      assert requests[i] in requests && status(requests[i]) == C.UnavailableRequest;
    }
  }

  /** The checklist's requests are the current bookings that are not replaced. */
  ghost predicate IsRequest(b: Booking, bookings: seq<Booking>) {
    b in bookings && IsCurrent(b) && !IsReplaced(b, bookings)
  }

  lemma RequestsAre(bookings: seq<Booking>, b: Booking)
    ensures b in C.CurrentBookings(bookings) <==> IsRequest(b, bookings)
  {
    C.CurrentMeans(bookings, b);
    ReplacedMeans(b, bookings);
    FilterContains(bookings, (x: Booking) => IsActive(x), b);
  }

  /** Each listed request shows its booking's own columns, the status above and its hold. */
  lemma RequestItemsAre(bookings: seq<Booking>, now: int, i: nat)
    requires i < |C.CurrentBookings(bookings)|
    ensures |C.VenueRequestItems(bookings, now)| == |C.CurrentBookings(bookings)|
    ensures var b, item := C.CurrentBookings(bookings)[i], C.VenueRequestItems(bookings, now)[i];
      && IsRequest(b, bookings)
      && item.id == b.id && item.venueName == b.venueName && item.status == C.VenueRequestStatus(b, now)
      && (item.hold.Some? <==> b.tentative && (b.status == Approved || b.status == Expired))
      && (item.hold == Some(HoldState.HoldExpired)
          <==> b.tentative && (b.status == Expired || (b.status == Approved && RanOut(b, now))))
  {
    RequestsAre(bookings, C.CurrentBookings(bookings)[i]);
    MapIndex(C.CurrentBookings(bookings), (b: Booking) =>
      C.VenueRequestItem(b.id, b.venueName, C.VenueRequestStatus(b, now), ApprovedHoldState(b, now)), i);
  }

  /** The venue section: unavailable if some request is, confirmed if all are, not requested without any. */
  lemma VenueSectionMeans(bookings: seq<Booking>, now: int)
    ensures var section := C.VenueStatus(bookings, now);
      && (section == C.NotRequested <==> forall b :: !IsRequest(b, bookings))
      && (section == C.UnavailableRequest <==>
            exists b :: IsRequest(b, bookings) && C.VenueRequestStatus(b, now) == C.UnavailableRequest)
      && (section == C.Confirmed <==>
            && (exists b :: IsRequest(b, bookings))
            && forall b :: IsRequest(b, bookings) ==> C.VenueRequestStatus(b, now) == C.Confirmed)
  {
    var current := C.CurrentBookings(bookings);
    SectionMeans(current, (b: Booking) => C.VenueRequestStatus(b, now));
    forall b ensures b in current <==> IsRequest(b, bookings) {
      RequestsAre(bookings, b);
    }
    if current != [] {
      assert current[0] in current;
    }
  }

  lemma EquipmentSectionMeans(lines: seq<Line>)
    ensures var section := C.EquipmentStatus(lines);
      && (section == C.NotRequested <==> forall line :: line in lines ==> !IsLive(line))
      && (section == C.UnavailableRequest <==> exists line :: line in lines && line.status == LineUnavailable)
      && (section == C.Confirmed <==>
            && (exists line :: line in lines && IsLive(line))
            && forall line :: line in lines && IsLive(line) ==> line.status == LineReserved)
  {
    var active := ActiveLines(lines);
    SectionMeans(active, (line: Line) => C.EquipmentRequestStatus(line));
    forall line ensures line in active <==> line in lines && IsLive(line) {
      FilterContains(lines, (x: Line) => IsActiveLine(x), line);
    }
    if active != [] {
      assert active[0] in active;
    }
  }

  /** What blocks the safety check, in this order: venue, equipment, registration dates. */
  lemma BlockingIs(bookings: seq<Booking>, lines: seq<Line>, confirmedAt: Option<int>, r: C.Registration, now: int)
    ensures var blocking := C.Blocking(bookings, lines, confirmedAt, r, now);
      && (C.Venue in blocking <==> C.VenueStatus(bookings, now) != C.Confirmed)
      && (C.Equipment in blocking <==>
            && C.EquipmentStatus(lines) != C.Confirmed
            && (confirmedAt.None? || exists line :: line in lines && IsLive(line)))
      && (C.Prerequisite.Registration in blocking <==> r.enabled && (r.opensAt.None? || r.closesAt.None?))
      && |blocking| <= 3
      && (|blocking| == 3 ==> blocking == [C.Venue, C.Equipment, C.Prerequisite.Registration])
  {
    var blocking := C.Blocking(bookings, lines, confirmedAt, r, now);
    EquipmentSectionMeans(lines);
    forall line ensures line in ActiveLines(lines) <==> line in lines && IsLive(line) {
      FilterContains(lines, (x: Line) => IsActiveLine(x), line);
    }
    if ActiveLines(lines) != [] {
      assert ActiveLines(lines)[0] in ActiveLines(lines);
    }
    var venue := if C.VenueStatus(bookings, now) != C.Confirmed then [C.Venue] else [];
    var equipment := if !C.EquipmentConfirmed(lines, confirmedAt) then [C.Equipment] else [];
    var registration := if !C.RegistrationReady(r) then [C.Prerequisite.Registration] else [];
    assert blocking == venue + equipment + registration;
    assert forall p :: p in blocking <==> p in venue || p in equipment || p in registration;
  }

  /** The check may be requested when both sections are settled, the dates complete and all feedback resolved. */
  lemma RequestableIs(bookings: seq<Booking>, lines: seq<Line>, confirmedAt: Option<int>, r: C.Registration,
                      unresolved: nat, now: int)
    ensures C.CanRequestSafetyCheck(bookings, lines, confirmedAt, r, unresolved, now) <==>
      && C.VenueStatus(bookings, now) == C.Confirmed
      && (C.EquipmentStatus(lines) == C.Confirmed
          || (confirmedAt.Some? && forall line :: line in lines ==> !IsLive(line)))
      && (r.enabled ==> r.opensAt.Some? && r.closesAt.Some?) && unresolved == 0
  {
    BlockingIs(bookings, lines, confirmedAt, r, now);
    var blocking := C.Blocking(bookings, lines, confirmedAt, r, now);
    if blocking != [] {
      assert blocking[0] in blocking;
      match blocking[0]
      case Venue =>
      case Equipment =>
      case Registration =>
    }
  }

  // ------------------------------------------------------------------ the queue

  /** The venue's name, with its location when another booked venue has the same name. */
  lemma LabelMeans(b: Booking, bookings: seq<Booking>)
    ensures var clash := exists other :: other in bookings && other.venue != b.venue && other.venueName == b.venueName;
      Q.VenueLabel(b, bookings) == b.venueName + if clash then " (" + b.venueLocation + ")" else ""
  {
    if Q.NameClashes(b, bookings) {
      var i :| 0 <= i < |bookings| && bookings[i].venue != b.venue && bookings[i].venueName == b.venueName;
      assert bookings[i] in bookings;
    }
    assert b.venueName + "" == b.venueName;
    assert b.venueName + " (" + b.venueLocation + ")" == b.venueName + (" (" + b.venueLocation + ")");
  }

  /** Pending, or a tentative booking approved or expired, with an expiry: shown as a hold. */
  ghost predicate IsShownAsHold(b: Booking) {
    && b.holdExpiresAt.Some?
    && (b.status == Pending || (b.tentative && (b.status == Approved || b.status == Expired)))
  }

  /** The queue lists exactly the holds, each with its venue, its expiry and whether that has come. */
  lemma HoldsAre(bookings: seq<Booking>, now: int, hold: Q.QueueHold)
    ensures hold in Q.DeriveHolds(bookings, now) <==>
      exists b :: b in bookings && IsShownAsHold(b)
                  && hold == Q.QueueHold(Q.VenueLabel(b, bookings), b.holdExpiresAt.value,
                                         RanOut(b, now) || (b.tentative && b.status == Expired))
  {
    var item := (b: Booking) => Q.HoldItem(b, bookings, now);
    CollectContains(bookings, item, hold);
    forall b: Booking ensures item(b) == Some(hold) <==>
      IsShownAsHold(b) && hold == Q.QueueHold(Q.VenueLabel(b, bookings), b.holdExpiresAt.value,
                                              RanOut(b, now) || (b.tentative && b.status == Expired))
    {
    }
  }

  /**
   A booking of an unavailable venue matters while it occupies it: not once it is Expired, an approval until its
   tentative hold runs out, anything else until its expiry.
   */
  ghost predicate IsHit(b: Booking, now: int) {
    && b.unavailable && b.status != Expired
    && (b.status == Approved ==> !(b.tentative && RanOut(b, now)))
    && (b.status != Approved ==> !RanOut(b, now))
  }

  /** Booking i is hit, and no later one of its venue is. */
  ghost predicate IsLastHit(bookings: seq<Booking>, i: int, now: int) {
    && 0 <= i < |bookings| && IsHit(bookings[i], now)
    && forall j :: i < j < |bookings| && IsHit(bookings[j], now) ==> bookings[j].venue != bookings[i].venue
  }

  /** A further booking takes its venue's entry over, or adds one. */
  lemma OneMoreEntry(bookings: seq<Booking>, last: Booking, b: Booking)
    ensures b in Q.ByVenue(bookings + [last]) <==> b == last || (b in Q.ByVenue(bookings) && b.venue != last.venue)
  {
    var longer, entries := bookings + [last], Q.ByVenue(bookings);
    assert longer[..|longer| - 1] == bookings && longer[|longer| - 1] == last;
    Q.OneEntryPerVenue(bookings, last.venue);
    var k := Q.VenueIndex(entries, last.venue);
    if k.Some? {
      var after := entries[k.value := last];
      assert after[k.value] == last;
      assert forall i :: (0 <= i < |entries| && i != k.value
                          ==> entries[i].venue != last.venue && after[i] == entries[i]);
      if b in entries && b.venue != last.venue {
        var i :| 0 <= i < |entries| && entries[i] == b;
        assert after[i] == b;
      }
    }
  }

  ghost predicate ShowsLast(bookings: seq<Booking>, now: int, b: Booking) {
    exists i :: IsLastHit(bookings, i, now) && bookings[i] == b
  }

  lemma LastHitOfLonger(bookings: seq<Booking>, last: Booking, now: int, b: Booking)
    ensures ShowsLast(bookings + [last], now, b) <==>
      if IsHit(last, now) then b == last || (ShowsLast(bookings, now, b) && b.venue != last.venue)
      else ShowsLast(bookings, now, b)
  {
    var longer := bookings + [last];
    assert longer[|bookings|] == last;
    forall i | 0 <= i < |bookings|
      ensures IsLastHit(longer, i, now) <==>
        IsLastHit(bookings, i, now) && (IsHit(last, now) ==> last.venue != bookings[i].venue)
    {
      assert longer[i] == bookings[i];
      assert forall j :: 0 <= j < |bookings| ==> longer[j] == bookings[j];
    }
    if ShowsLast(bookings, now, b) && (IsHit(last, now) ==> b.venue != last.venue) {
      var i :| IsLastHit(bookings, i, now) && bookings[i] == b;
      assert IsLastHit(longer, i, now) && longer[i] == b;
    }
    assert IsHit(last, now) ==> IsLastHit(longer, |bookings|, now);
  }

  lemma {:induction false} EntriesAreLastHits(bookings: seq<Booking>, now: int, b: Booking)
    ensures b in Q.ByVenue(Filter(bookings, (x: Booking) => Q.IsAffected(x, now))) <==> ShowsLast(bookings, now, b)
  {
    if bookings != [] {
      var init, last := bookings[..|bookings| - 1], bookings[|bookings| - 1];
      var hit := (x: Booking) => Q.IsAffected(x, now);
      assert bookings == init + [last];
      EntriesAreLastHits(init, now, b);
      FilterGrows(init, last, hit);
      LastHitOfLonger(init, last, now, b);
      assert hit(last) <==> IsHit(last, now);
      if hit(last) {
        OneMoreEntry(Filter(init, hit), last, b);
      } else {
        assert Filter(init, hit) + [] == Filter(init, hit);
      }
    }
  }

  /** The unavailable venues are those of hit bookings, each once, under the label of the last. */
  lemma UnavailableVenuesAre(bookings: seq<Booking>, now: int, shown: string)
    ensures shown in Q.UnavailableVenues(bookings, now)
      <==> exists i :: IsLastHit(bookings, i, now) && shown == Q.VenueLabel(bookings[i], bookings)
  {
    var entries := Q.ByVenue(Filter(bookings, (x: Booking) => Q.IsAffected(x, now)));
    MapIndexes(entries, (b: Booking) => Q.VenueLabel(b, bookings));
    if exists i :: IsLastHit(bookings, i, now) && shown == Q.VenueLabel(bookings[i], bookings) {
      var i :| IsLastHit(bookings, i, now) && shown == Q.VenueLabel(bookings[i], bookings);
      assert ShowsLast(bookings, now, bookings[i]);
      EntriesAreLastHits(bookings, now, bookings[i]);
      var k :| 0 <= k < |entries| && entries[k] == bookings[i];
      assert Q.UnavailableVenues(bookings, now)[k] == shown;
    }
    if shown in Q.UnavailableVenues(bookings, now) {
      var k :| 0 <= k < |entries| && Q.UnavailableVenues(bookings, now)[k] == shown;
      EntriesAreLastHits(bookings, now, entries[k]);
      assert ShowsLast(bookings, now, entries[k]);
    }
  }

  /** The safety word on a card; none when the event is over. */
  lemma SafetyWordMeans(status: E.EventStatus, stored: Option<Q.StoredSafety>, wasReset: bool)
    ensures var word := Q.DeriveQueueSafety(status, stored, wasReset);
      var over := status == E.EventStatus.Rejected || status == E.EventStatus.Completed
                  || status == E.EventStatus.Cancelled;
      && (word == Some(Q.Reset) <==> !over && stored.None? && wasReset)
      && (word == Some(Q.SafetyRejected) <==> !over && stored == Some(Q.RejectedCheck))
      && (word == Some(Q.ChangesRequested) <==> !over && stored == Some(Q.StoredSafety.ChangesNeeded))
      && (word == Some(Q.AwaitingCheck) <==> status == E.EventStatus.Planning && stored == Some(Q.PendingCheck))
      && (word == Some(Q.Cleared) <==>
            !over && status != E.EventStatus.Confirmed && stored == Some(Q.ApprovedCheck))
  {
    E.CancellableUnlessOver(status);
  }
}
