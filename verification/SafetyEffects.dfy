/**
 When each step of the lifecycle and of the safety check is accepted and what it writes, in terms of the stored rows
 alone (backend/src/events/status/, backend/src/events/safety-officer/safety-officer.service.ts).
 */
module SafetyEffects {
  import opened Wrappers
  import opened EventTypes
  import opened Lists
  import opened Arrangements
  import opened SafetyGate
  import Readiness
  import Checklist

  // ------------------------------------------------------------------ the arrangements, row by row

  /** Neither released nor cancelled. */
  ghost predicate IsCurrent(b: Booking) {
    b.status != BookingStatus.Released && b.status != BookingStatus.Cancelled
  }

  ghost predicate SomeCurrent(s: State) {
    exists i :: 0 <= i < |s.bookings| && IsCurrent(s.bookings[i])
  }

  /** An approved ordinary booking of a venue that is free of unavailable periods. */
  ghost predicate IsSecured(s: State, b: Booking) {
    b.status == BookingStatus.Approved && !b.tentative && b.id !in s.blocked
  }

  /** A different secured booking of the same venue that spans the whole slot. */
  ghost predicate StandsIn(s: State, other: Booking, b: Booking) {
    && IsSecured(s, other) && other.id != b.id && other.venue == b.venue
    && b.start.Some? && b.end.Some? && other.start.Some? && other.end.Some?
    && other.start.value <= b.start.value < b.end.value <= other.end.value
  }

  ghost predicate IsReplaced(s: State, b: Booking) {
    b.status == BookingStatus.Rejected && exists j :: 0 <= j < |s.bookings| && StandsIn(s, s.bookings[j], b)
  }

  /** Every current booking is secured, or rejected and replaced. */
  ghost predicate VenuesFine(s: State) {
    forall i :: 0 <= i < |s.bookings| && IsCurrent(s.bookings[i]) ==>
      IsSecured(s, s.bookings[i]) || IsReplaced(s, s.bookings[i])
  }

  ghost predicate IsLive(line: Line) {
    line.status != LineCancelled && line.status != LineReleased
  }

  ghost predicate NoLiveLine(s: State) {
    forall i :: 0 <= i < |s.lines| ==> !IsLive(s.lines[i])
  }

  /** Every live line is reserved; without a live line the none-needed confirmation is there. */
  ghost predicate EquipmentFine(s: State) {
    if NoLiveLine(s) then s.noneConfirmedAt.Some?
    else forall i :: 0 <= i < |s.lines| && IsLive(s.lines[i]) ==> s.lines[i].status == LineReserved
  }

  lemma StandInMeans(s: State, j: nat, i: nat)
    requires i < |s.bookings| && j < |s.bookings|
    ensures |Facts(s)| == |s.bookings|
    ensures Replaces(Facts(s)[j], Facts(s)[i]) <==> StandsIn(s, s.bookings[j], s.bookings[i])
    ensures StandsIn(s, s.bookings[j], s.bookings[i]) ==> IsActive(Facts(s)[j])
  {
    FactsIndex(s, i);
    FactsIndex(s, j);
  }

  lemma ReplacementMeans(s: State, i: nat)
    requires i < |s.bookings|
    ensures |Facts(s)| == |s.bookings|
    ensures HasReplacement(Facts(s)[i], ActiveBookings(Facts(s)))
      <==> exists j :: 0 <= j < |s.bookings| && StandsIn(s, s.bookings[j], s.bookings[i])
  {
    FactsIndex(s, i);
    var facts := Facts(s);
    var active := ActiveBookings(facts);
    if HasReplacement(facts[i], active) {
      var k :| 0 <= k < |active| && Replaces(active[k], facts[i]);
      FilterContains(facts, (b: Booking) => IsActive(b), active[k]);
      var j :| 0 <= j < |facts| && facts[j] == active[k];
      StandInMeans(s, j, i);
    }
    if exists j :: 0 <= j < |s.bookings| && StandsIn(s, s.bookings[j], s.bookings[i]) {
      var j :| 0 <= j < |s.bookings| && StandsIn(s, s.bookings[j], s.bookings[i]);
      StandInMeans(s, j, i);
      FilterContains(facts, (b: Booking) => IsActive(b), facts[j]);
      var k :| 0 <= k < |active| && active[k] == facts[j];
      assert Replaces(active[k], facts[i]);
    }
  }

  lemma ReplacedMeans(s: State, i: nat)
    requires i < |s.bookings|
    ensures |Facts(s)| == |s.bookings|
    ensures Readiness.IsResolved(Facts(s)[i], ActiveBookings(Facts(s)))
      <==> IsSecured(s, s.bookings[i]) || IsReplaced(s, s.bookings[i])
  {
    FactsIndex(s, i);
    ReplacementMeans(s, i);
  }

  lemma ResolvedMeans(s: State)
    ensures Readiness.AllResolved(Facts(s)) <==> VenuesFine(s)
    ensures ActiveBookings(Facts(s)) == [] <==> !SomeCurrent(s)
  {
    var active := ActiveBookings(Facts(s));
    forall i | 0 <= i < |s.bookings|
      ensures |Facts(s)| == |s.bookings| && (Facts(s)[i] in active <==> IsCurrent(s.bookings[i]))
      ensures Readiness.IsResolved(Facts(s)[i], active)
        <==> IsSecured(s, s.bookings[i]) || IsReplaced(s, s.bookings[i])
    {
      ActiveFactsAreRows(s, i);
      FactsIndex(s, i);
      ReplacedMeans(s, i);
    }
    forall b | b in active ensures exists i :: 0 <= i < |s.bookings| && Facts(s)[i] == b {
      FilterContains(Facts(s), (x: Booking) => IsActive(x), b);
    }
    if active != [] {
      assert active[0] in active;
    }
    forall i | 0 <= i < |s.bookings| && IsCurrent(s.bookings[i]) ensures active != [] {
      assert Facts(s)[i] in active;
    }
  }

  lemma EquipmentMeans(s: State)
    ensures Readiness.EquipmentSatisfied(s.lines, s.noneConfirmedAt.Some?) <==> EquipmentFine(s)
    ensures ActiveLines(s.lines) == [] <==> NoLiveLine(s)
  {
    var active := ActiveLines(s.lines);
    forall line ensures line in active <==> line in s.lines && IsLive(line) {
      FilterContains(s.lines, (x: Line) => IsActiveLine(x), line);
    }
    if active != [] {
      assert active[0] in s.lines;
    }
    forall i | 0 <= i < |s.lines| ensures s.lines[i] in active <==> IsLive(s.lines[i]) {
    }
  }

  /** The section "venue" of the checklist blocks unless some booking is current and all of them are fine. */
  lemma RequestableMeans(s: State, r: Checklist.Registration, now: int)
    ensures MayRequestCheck(s, r, now) <==>
      && SomeCurrent(s) && VenuesFine(s) && EquipmentFine(s)
      && (r.enabled ==> r.opensAt.Some? && r.closesAt.Some?)
  {
    ResolvedMeans(s);
    EquipmentMeans(s);
    Checklist.VenueConfirmedMeans(Facts(s), now);
    Checklist.EquipmentConfirmedMeans(s.lines, s.noneConfirmedAt);
    Checklist.BlockingMeans(Facts(s), s.lines, s.noneConfirmedAt, r, now);
  }

  lemma NoVenueMeans(s: State)
    ensures Readiness.NoneRequested(Facts(s)) <==>
      && !SomeCurrent(s)
      && (s.bookings == [] || exists i :: 0 <= i < |s.bookings| && s.bookings[i].status == BookingStatus.Cancelled)
  {
    ResolvedMeans(s);
    forall i | 0 <= i < |s.bookings| ensures |Facts(s)| == |s.bookings| && Facts(s)[i].status == s.bookings[i].status {
      FactsIndex(s, i);
    }
  }

  // ------------------------------------------------------------------ the status changes

  /** The event moved on, with one history row for it, and nothing else changed. */
  ghost predicate Moved(s: State, after: State, to: EventStatus) {
    after == s.(status := to, history := s.history + [Change(s.status, to)])
  }

  /**
   Confirm is accepted exactly in Planning, with every current booking secured or replaced, at least one booking current
   or all of them released, the equipment reserved or confirmed as none, and the Safety Officer's clearance.
   */
  lemma ConfirmIsAccepted(s: State, now: int)
    ensures Confirm(s, now).Done? <==>
      && s.status == EventStatus.Planning && VenuesFine(s) && EquipmentFine(s) && s.safety == Some(Cleared)
      && (SomeCurrent(s)
          || (s.bookings != []
              && forall i :: 0 <= i < |s.bookings| ==> s.bookings[i].status == BookingStatus.Released))
    ensures Confirm(s, now).Done? ==> Moved(s, Confirm(s, now).state, EventStatus.Confirmed)
    ensures Confirm(s, now).Done?
      || Confirm(s, now) == Refused(if s.status != EventStatus.Planning then NotPlanning else Blocked)
  {
    Readiness.ReadyMeans(SnapshotOf(s), now);
    ResolvedMeans(s);
    EquipmentMeans(s);
    NoVenueMeans(s);
  }

  /** The first decision, the start of planning and completion: from one status each, into one. */
  lemma StatusChangesAre(s: State, ended: bool)
    ensures Apply(s, ApproveOp) == (if s.status == EventStatus.Submitted then Done(s.(status := EventStatus.Approved))
                                else Refused(NotSubmitted))
    ensures Apply(s, RejectOp) == (if s.status == EventStatus.Submitted then Done(s.(status := EventStatus.Rejected))
                               else Refused(NotSubmitted))
    ensures Apply(s, StartPlanningOp).Done? <==> s.status == EventStatus.Approved
    ensures Apply(s, StartPlanningOp).Done? ==> Moved(s, Apply(s, StartPlanningOp).state, EventStatus.Planning)
    ensures Apply(s, CompleteOp(ended)).Done? <==> s.status == EventStatus.Confirmed && ended
    ensures Apply(s, CompleteOp(ended)).Done? ==> Moved(s, Apply(s, CompleteOp(ended)).state, EventStatus.Completed)
    ensures Apply(s, StartPlanningOp).Done? || Apply(s, StartPlanningOp) == Refused(NotApproved)
    ensures Apply(s, CompleteOp(ended)).Done?
      || Apply(s, CompleteOp(ended)) == Refused(if s.status != EventStatus.Confirmed then NotConfirmed else NotEnded)
  {
  }

  /**
   Cancelling is accepted on every event that is not over. Pending and approved bookings and live lines are Released,
   every other row stays, and the safety record with its feedback stays too.
   */
  lemma CancelReleasesTheRows(s: State)
    ensures Apply(s, CancelOp).Done? <==>
      s.status != EventStatus.Rejected && s.status != EventStatus.Completed && s.status != EventStatus.Cancelled
    ensures Apply(s, CancelOp).Done? || Apply(s, CancelOp) == Refused(NotCancellable)
    ensures Apply(s, CancelOp).Done? ==>
      var after := Apply(s, CancelOp).state;
      && Moved(s.(bookings := after.bookings, lines := after.lines), after, EventStatus.Cancelled)
      && |after.bookings| == |s.bookings| && |after.lines| == |s.lines|
      && (forall i :: (0 <= i < |s.bookings| ==>
            after.bookings[i] ==
              if s.bookings[i].status == BookingStatus.Pending || s.bookings[i].status == BookingStatus.Approved
              then s.bookings[i].(status := BookingStatus.Released) else s.bookings[i]))
      && (forall i :: (0 <= i < |s.lines| ==>
            after.lines[i] == if IsLive(s.lines[i]) then s.lines[i].(status := LineReleased) else s.lines[i]))
  {
    CancellableUnlessOver(s.status);
    MapIndexes(s.bookings, (b: Booking) => ReleasedBooking(b));
    MapIndexes(s.lines, (line: Line) =>
      if line.status in {LineRequested, LineReserved, LineUnavailable} then line.(status := LineReleased) else line);
  }

  /** The check and its feedback are gone. */
  ghost predicate CheckGone(s: State) {
    s.safety.None? && s.feedback == []
  }

  ghost predicate CheckKept(s: State, after: State) {
    after.safety == s.safety && after.feedback == s.feedback
  }

  /** Details are rewritten; a real change ends the check. */
  ghost predicate DetailsWritten(s: State, after: State, details: Details) {
    && after == s.(details := details, safety := after.safety, feedback := after.feedback)
    && if details == s.details then CheckKept(s, after) else CheckGone(after)
  }

  /** An approved change request writes the details of an event that is not over, and reopens a Confirmed one. */
  lemma ChangeReopensTheEvent(s: State, details: Details)
    ensures Apply(s, ApproveChangeOp(details)).Done? <==>
      s.status != EventStatus.Rejected && s.status != EventStatus.Completed && s.status != EventStatus.Cancelled
    ensures Apply(s, ApproveChangeOp(details)).Done? || Apply(s, ApproveChangeOp(details)) == Refused(NotOpen)
    ensures Apply(s, ApproveChangeOp(details)).Done? ==>
      var after := Apply(s, ApproveChangeOp(details)).state;
      && DetailsWritten(s, after.(status := s.status, history := s.history), details)
      && (s.status == EventStatus.Confirmed ==>
            Moved(after.(status := s.status, history := s.history), after, EventStatus.Planning))
      && (s.status != EventStatus.Confirmed ==> after.status == s.status && after.history == s.history)
  {
  }

  // ------------------------------------------------------------------ asking for the check

  /** "No equipment needed" is accepted in Planning without any wish or live line; the first instant is kept. */
  lemma NoneIsConfirmed(s: State, now: int)
    ensures Apply(s, ConfirmNoneOp(now)).Done? <==>
      s.status == EventStatus.Planning && !s.details.needsEquipment && NoLiveLine(s)
    ensures Apply(s, ConfirmNoneOp(now)).Done? ==>
      Apply(s, ConfirmNoneOp(now)).state
        == s.(noneConfirmedAt := Some(if s.noneConfirmedAt.Some? then s.noneConfirmedAt.value else now))
    ensures Apply(s, ConfirmNoneOp(now)).Done?
      || Apply(s, ConfirmNoneOp(now))
           == Refused(if s.status != EventStatus.Planning then NotPlanning else EquipmentRequired)
  {
    EquipmentMeans(s);
  }

  ghost predicate AllSettled(feedback: seq<Feedback>) {
    forall k :: 0 <= k < |feedback| ==> feedback[k].resolved
  }

  /**
   A check is granted exactly in Planning, over arrangements that are fine and registration dates that are complete,
   when none is pending or cleared and every item of an earlier response is resolved. It starts without feedback.
   */
  lemma CheckIsRequested(s: State, now: int)
    ensures RequestSafetyCheck(s, now).Done? <==>
      && s.status == EventStatus.Planning && SomeCurrent(s) && VenuesFine(s) && EquipmentFine(s)
      && (s.registration.enabled ==> s.registration.opensAt.Some? && s.registration.closesAt.Some?)
      && s.safety != Some(Awaiting) && s.safety != Some(Cleared) && (s.safety.Some? ==> AllSettled(s.feedback))
    ensures RequestSafetyCheck(s, now).Done? ==>
      RequestSafetyCheck(s, now).state == s.(safety := Some(Awaiting), feedback := [])
  {
    RequestableMeans(s, s.registration, now);
    assert AllResolved(s.feedback) <==> AllSettled(s.feedback);
    if s.safety.Some? {
      match s.safety.value
      case Awaiting =>
      case Cleared =>
      case ChangesNeeded =>
      case TurnedDown =>
    }
  }

  /** Why a check is not granted, in the order of the checks. */
  lemma RequestRefusals(s: State, now: int)
    ensures RequestSafetyCheck(s, now).Done? || RequestSafetyCheck(s, now) == Refused(
      if s.status != EventStatus.Planning then NotPlanning
      else if !SomeCurrent(s) || !VenuesFine(s) || !EquipmentFine(s)
              || (s.registration.enabled && (s.registration.opensAt.None? || s.registration.closesAt.None?))
      then PrerequisitesNotMet
      else if s.safety == Some(Awaiting) then CheckPending
      else if s.safety == Some(Cleared) then CheckApproved else FeedbackUnresolved)
  {
    RequestableMeans(s, s.registration, now);
  }

  /** One item of a negative response is marked; the others and everything else stay. */
  lemma ItemIsMarked(s: State, k: nat, resolved: bool)
    ensures Apply(s, ResolveFeedbackOp(k, resolved)).Done? <==>
      && s.status == EventStatus.Planning && (s.safety == Some(ChangesNeeded) || s.safety == Some(TurnedDown))
      && k < |s.feedback|
    ensures Apply(s, ResolveFeedbackOp(k, resolved)).Done? ==>
      var after := Apply(s, ResolveFeedbackOp(k, resolved)).state;
      && after == s.(feedback := after.feedback) && |after.feedback| == |s.feedback|
      && after.feedback[k] == Feedback(s.feedback[k].venues, s.feedback[k].lines, resolved)
      && forall j :: 0 <= j < |s.feedback| && j != k ==> after.feedback[j] == s.feedback[j]
    ensures Apply(s, ResolveFeedbackOp(k, resolved)).Done? || Apply(s, ResolveFeedbackOp(k, resolved)) == Refused(
      if s.status != EventStatus.Planning then NotPlanning
      else if s.safety != Some(ChangesNeeded) && s.safety != Some(TurnedDown) then NotResolvable
      else FeedbackNotFound)
  {
  }

  // ------------------------------------------------------------------ the response

  /** The rows a response may send back: approved ordinary bookings and reserved lines. */
  ghost predicate IsOrdinary(s: State, id: nat) {
    exists i :: 0 <= i < |s.bookings| && s.bookings[i].id == id
                && s.bookings[i].status == BookingStatus.Approved && !s.bookings[i].tentative
  }

  ghost predicate IsReservedLine(s: State, id: nat) {
    exists i :: 0 <= i < |s.lines| && s.lines[i].id == id && s.lines[i].status == LineReserved
  }

  /** The item selects something, and only what may be sent back. */
  ghost predicate MaySelect(s: State, item: Feedback) {
    && (item.venues != {} || item.lines != {})
    && (forall id :: id in item.venues ==> IsOrdinary(s, id))
    && (forall id :: id in item.lines ==> IsReservedLine(s, id))
  }

  /**
   A response is accepted exactly while a check is pending in Planning over arrangements that are still fine. A change
   request brings at least one item and each may select what it does; the registration dates do not matter here.
   */
  lemma ResponseIsAccepted(s: State, decision: Safety, items: seq<Feedback>, now: int)
    ensures Respond(s, decision, items, now).Done? <==>
      && decision != Awaiting && s.safety == Some(Awaiting) && s.status == EventStatus.Planning
      && SomeCurrent(s) && VenuesFine(s) && EquipmentFine(s)
      && (decision == ChangesNeeded ==> items != [] && forall k :: 0 <= k < |items| ==> MaySelect(s, items[k]))
  {
    RequestableMeans(s, NO_REGISTRATION, now);
    forall k | 0 <= k < |items|
      ensures MaySelect(s, items[k]) <==> SelectsSomething(items[k]) && SelectsReviewable(s, items[k])
    {
      SelectableMeans(s, items[k]);
    }
  }

  /** Why a response is refused, in the order of the checks. */
  lemma ResponseRefusals(s: State, decision: Safety, items: seq<Feedback>, now: int)
    ensures Respond(s, decision, items, now).Done? || Respond(s, decision, items, now) == Refused(
      if decision == Awaiting || (decision == ChangesNeeded && !SelectsThroughout(items)) then InvalidResponse
      else if s.status != EventStatus.Planning || s.safety != Some(Awaiting)
              || !SomeCurrent(s) || !VenuesFine(s) || !EquipmentFine(s) then NotAwaitingCheck
      else ArrangementGone)
  {
    RequestableMeans(s, NO_REGISTRATION, now);
  }

  /** There is an item, and each selects something. */
  ghost predicate SelectsThroughout(items: seq<Feedback>) {
    items != [] && forall k :: 0 <= k < |items| ==> items[k].venues != {} || items[k].lines != {}
  }

  lemma ReviewableMeans(s: State, id: nat)
    ensures id in ReviewableVenues(s.bookings) <==> IsOrdinary(s, id)
    ensures id in ReviewableLines(s.lines) <==> IsReservedLine(s, id)
  {
  }

  lemma SelectableMeans(s: State, item: Feedback)
    ensures MaySelect(s, item) <==> SelectsSomething(item) && SelectsReviewable(s, item)
  {
    forall id: nat
      ensures id in ReviewableVenues(s.bookings) <==> IsOrdinary(s, id)
      ensures id in ReviewableLines(s.lines) <==> IsReservedLine(s, id)
    {
      ReviewableMeans(s, id);
    }
  }

  /** Some item of the request selects the booking, or the line. */
  ghost predicate Asks(items: seq<Feedback>, id: nat) {
    exists k :: 0 <= k < |items| && id in items[k].venues
  }

  ghost predicate AsksLine(items: seq<Feedback>, id: nat) {
    exists k :: 0 <= k < |items| && id in items[k].lines
  }

  /** Only the record, its feedback and the status of arrangements differ. */
  ghost predicate Answered(s: State, after: State, decision: Safety) {
    && after.safety == Some(decision)
    && after == s.(safety := after.safety, feedback := after.feedback, bookings := after.bookings, lines := after.lines)
    && |after.bookings| == |s.bookings| && |after.lines| == |s.lines|
  }

  /** Booking i is pending again when it was approved and sent back, and untouched otherwise; likewise each line. */
  ghost predicate BookingReturned(s: State, after: State, i: nat, sent: bool)
    requires i < |s.bookings| == |after.bookings|
  {
    after.bookings[i] == if sent && s.bookings[i].status == BookingStatus.Approved
                         then s.bookings[i].(status := BookingStatus.Pending) else s.bookings[i]
  }

  ghost predicate LineReturned(s: State, after: State, i: nat, sent: bool)
    requires i < |s.lines| == |after.lines|
  {
    after.lines[i] == if sent && s.lines[i].status == LineReserved then s.lines[i].(status := LineRequested)
                      else s.lines[i]
  }

  lemma RespondedRows(s: State, decision: Safety, added: seq<Feedback>)
    ensures var after := Responded(s, decision, added);
      && Answered(s, after, decision) && after.feedback == s.feedback + added
      && (forall i :: 0 <= i < |s.bookings| ==> BookingReturned(s, after, i, Asks(added, s.bookings[i].id)))
      && (forall i :: 0 <= i < |s.lines| ==> LineReturned(s, after, i, AsksLine(added, s.lines[i].id)))
  {
    MapIndexes(s.bookings, (b: Booking) => SentBack(b, added));
    MapIndexes(s.lines, (line: Line) => LineSentBack(line, added));
  }

  /**
   Every item of the request is stored, in order, open and with its own selections, and a booking or a line returned to
   review exactly when some item selects it.
   */
  ghost predicate StoresEveryItem(s: State, after: State, items: seq<Feedback>)
    requires |after.bookings| == |s.bookings| && |after.lines| == |s.lines|
  {
    && |after.feedback| == |items|
    && (forall k :: 0 <= k < |items| ==> after.feedback[k] == Feedback(items[k].venues, items[k].lines, false))
    && (forall i :: 0 <= i < |s.bookings| ==> BookingReturned(s, after, i, Asks(items, s.bookings[i].id)))
    && (forall i :: 0 <= i < |s.lines| ==> LineReturned(s, after, i, AsksLine(items, s.lines[i].id)))
  }

  /**
   One open item holds every approved ordinary booking and every reserved line, and all bookings and lines of those
   identifiers are returned to review.
   */
  ghost predicate StoresEverything(s: State, after: State)
    requires |after.bookings| == |s.bookings| && |after.lines| == |s.lines|
  {
    && |after.feedback| == 1 && !after.feedback[0].resolved
    && (forall id :: id in after.feedback[0].venues <==> IsOrdinary(s, id))
    && (forall id :: id in after.feedback[0].lines <==> IsReservedLine(s, id))
    && (forall i :: 0 <= i < |s.bookings| ==> BookingReturned(s, after, i, IsOrdinary(s, s.bookings[i].id)))
    && (forall i :: 0 <= i < |s.lines| ==> LineReturned(s, after, i, IsReservedLine(s, s.lines[i].id)))
  }

  /** A change request stores its items, a rejection everything, and a clearance neither feedback nor any row. */
  ghost predicate AnsweredAsAsked(s: State, after: State, decision: Safety, items: seq<Feedback>) {
    && Answered(s, after, decision)
    && match decision
       case ChangesNeeded => StoresEveryItem(s, after, items)
       case TurnedDown => StoresEverything(s, after)
       case Cleared => after == s.(safety := Some(Cleared))
       case Awaiting => false
  }

  lemma ItemsAreStored(s: State, items: seq<Feedback>, added: seq<Feedback>)
    requires s.feedback == [] && |added| == |items|
    requires forall k :: 0 <= k < |items| ==> added[k] == Feedback(items[k].venues, items[k].lines, false)
    ensures AnsweredAsAsked(s, Responded(s, ChangesNeeded, added), ChangesNeeded, items)
  {
    RespondedRows(s, ChangesNeeded, added);
    assert [] + added == added;
    forall id: nat ensures (Asks(added, id) <==> Asks(items, id)) && (AsksLine(added, id) <==> AsksLine(items, id)) {
      AskedAlike(added, items, id);
    }
  }

  lemma ChangesAreRequested(s: State, items: seq<Feedback>, now: int)
    requires Respond(s, ChangesNeeded, items, now).Done? && s.feedback == []
    ensures AnsweredAsAsked(s, Respond(s, ChangesNeeded, items, now).state, ChangesNeeded, items)
  {
    var added := ResponseFeedback(s, ChangesNeeded, items);
    MapIndexes(items, (item: Feedback) => item.(resolved := false));
    assert Respond(s, ChangesNeeded, items, now).state == Responded(s, ChangesNeeded, added);
    ItemsAreStored(s, items, added);
  }

  lemma AskedAlike(first: seq<Feedback>, second: seq<Feedback>, id: nat)
    requires |first| == |second|
    requires forall k :: 0 <= k < |first| ==> first[k].venues == second[k].venues && first[k].lines == second[k].lines
    ensures Asks(first, id) <==> Asks(second, id)
    ensures AsksLine(first, id) <==> AsksLine(second, id)
  {
    if Asks(first, id) {
      var k :| 0 <= k < |first| && id in first[k].venues;
      assert id in second[k].venues;
    }
    if AsksLine(first, id) {
      var k :| 0 <= k < |first| && id in first[k].lines;
      assert id in second[k].lines;
    }
  }

  lemma RejectionReturnsEverything(s: State, items: seq<Feedback>, now: int)
    requires Respond(s, TurnedDown, items, now).Done? && s.feedback == []
    ensures AnsweredAsAsked(s, Respond(s, TurnedDown, items, now).state, TurnedDown, items)
  {
    var added := ResponseFeedback(s, TurnedDown, items);
    RespondedRows(s, TurnedDown, added);
    forall id: nat
      ensures id in added[0].venues <==> IsOrdinary(s, id)
      ensures id in added[0].lines <==> IsReservedLine(s, id)
    {
      ReviewableMeans(s, id);
    }
  }

  /** Every accepted response records its decision and does what its request asked for, and nothing else. */
  lemma ResponseDoesAsAsked(s: State, decision: Safety, items: seq<Feedback>, now: int)
    requires Respond(s, decision, items, now).Done? && s.feedback == []
    ensures AnsweredAsAsked(s, Respond(s, decision, items, now).state, decision, items)
  {
    match decision
    case ChangesNeeded => ChangesAreRequested(s, items, now);
    case TurnedDown => RejectionReturnsEverything(s, items, now);
    case Cleared => RespondedRows(s, Cleared, []);
    case Awaiting => assert false;
  }

  // ------------------------------------------------------------------ what ends a check

  /** The last response returned the booking to review: editing it then is what the response asked for. */
  ghost predicate SentBackBooking(s: State, id: nat) {
    (s.safety == Some(ChangesNeeded) || s.safety == Some(TurnedDown)) && Asks(s.feedback, id)
  }

  ghost predicate SentBackLine(s: State, id: nat) {
    (s.safety == Some(ChangesNeeded) || s.safety == Some(TurnedDown)) && AsksLine(s.feedback, id)
  }

  /**
   A booking is rewritten in place. The check ends exactly when a column really changes, unless the last response
   selected the booking or the write releases it. A write that the row's staff cannot make is refused.
   */
  lemma BookingIsRewritten(s: State, i: nat, b: Booking)
    ensures Apply(s, UpdateBooking(i, b)).Done? <==>
      && i < |s.bookings| && b.id == s.bookings[i].id && (b.tentative ==> s.bookings[i].tentative)
      && (b.status == BookingStatus.Released && s.bookings[i].status != BookingStatus.Released ==>
            s.bookings[i].tentative && s.bookings[i].status == BookingStatus.Approved)
    ensures Apply(s, UpdateBooking(i, b)).Done? ==>
      var after := Apply(s, UpdateBooking(i, b)).state;
      var exempt := b == s.bookings[i] || SentBackBooking(s, b.id)
                    || (b.status == BookingStatus.Released && s.bookings[i].status != BookingStatus.Released);
      && after == s.(bookings := s.bookings[i := b], safety := after.safety, feedback := after.feedback)
      && if exempt then CheckKept(s, after) else CheckGone(after)
  {
  }

  lemma LineIsRewritten(s: State, i: nat, line: Line)
    ensures Apply(s, UpdateLine(i, line)).Done? <==>
      && i < |s.lines| && line.id == s.lines[i].id
      && (line.status == LineReleased ==> s.lines[i].status == LineReleased)
    ensures Apply(s, UpdateLine(i, line)).Done? ==>
      var after := Apply(s, UpdateLine(i, line)).state;
      && after == s.(lines := s.lines[i := line], safety := after.safety, feedback := after.feedback)
      && if line == s.lines[i] || SentBackLine(s, line.id) then CheckKept(s, after) else CheckGone(after)
  {
  }

  /** The triggers let a release pass: a cancellation's row updates leave the check as it was. */
  lemma ReleasesKeepTheCheck(s: State, i: nat, j: nat)
    requires i < |s.bookings| && s.bookings[i].status != BookingStatus.Released
    requires j < |s.lines| && s.lines[j].status != LineReleased
    ensures CheckKept(s, BookingUpdated(s, i, s.bookings[i].(status := BookingStatus.Released)))
    ensures CheckKept(s, LineUpdated(s, j, s.lines[j].(status := LineReleased)))
  {
  }

  /** A new or a deleted row always ends the check; the other rows keep their order. */
  lemma BookingsComeAndGo(s: State, i: nat, b: Booking)
    ensures Apply(s, InsertBooking(b)).Done? <==> forall j :: 0 <= j < |s.bookings| ==> s.bookings[j].id != b.id
    ensures Apply(s, InsertBooking(b)).Done? ==>
      Apply(s, InsertBooking(b)).state == s.(bookings := s.bookings + [b], safety := None, feedback := [])
    ensures Apply(s, DeleteBooking(i)).Done? <==> i < |s.bookings|
    ensures i < |s.bookings| ==>
      Apply(s, DeleteBooking(i)).state
        == s.(bookings := s.bookings[..i] + s.bookings[i + 1..], safety := None, feedback := [])
  {
  }

  lemma LinesComeAndGo(s: State, i: nat, line: Line)
    ensures Apply(s, InsertLine(line)) == Done(s.(lines := s.lines + [line], safety := None, feedback := []))
    ensures Apply(s, DeleteLine(i)).Done? <==> i < |s.lines|
    ensures i < |s.lines| ==>
      Apply(s, DeleteLine(i)).state == s.(lines := s.lines[..i] + s.lines[i + 1..], safety := None, feedback := [])
  {
  }

  /** A direct edit is accepted while approved or planning; one that frees the lines releases the reserved ones. */
  lemma DetailsAreEdited(s: State, details: Details, frees: bool)
    ensures Apply(s, EditDetails(details, frees)).Done? <==>
      (s.status == EventStatus.Approved || s.status == EventStatus.Planning) && (frees ==> details != s.details)
    ensures Apply(s, EditDetails(details, frees)).Done? ==>
      var after := Apply(s, EditDetails(details, frees)).state;
      && DetailsWritten(s, after.(lines := s.lines), details) && |after.lines| == |s.lines|
      && forall i :: (0 <= i < |s.lines| ==>
           after.lines[i] == if frees && s.lines[i].status == LineReserved then s.lines[i].(status := LineReleased)
                             else s.lines[i])
  {
    MapIndexes(s.lines, (line: Line) =>
      if line.status == LineReserved then line.(status := LineReleased) else line);
  }

  /** Blocking venues and configuring registration touch nothing else: neither ends a check. */
  lemma OtherWriters(s: State, blocked: set<nat>, r: Checklist.Registration)
    ensures Apply(s, BlockVenues(blocked)) == Done(s.(blocked := blocked))
    ensures Apply(s, ConfigureRegistration(r)) == Done(s.(registration := r))
  {
  }
}
