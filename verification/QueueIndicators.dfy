/**
 The indicators on one card of the coordinator's queue (backend/src/events/queue/queue-indicators.ts): holds,
 unavailable venues, the safety state, the reasons for action, and the status filter.
 */
module QueueIndicators {
  import opened Wrappers
  import opened EventTypes
  import opened Lists
  import opened Arrangements
  import Readiness

  datatype QueueHold = QueueHold(venue: string, expiresAt: int, ended: bool)

  datatype StoredSafety = PendingCheck | ApprovedCheck | ChangesNeeded | RejectedCheck

  datatype QueueSafety = AwaitingCheck | ChangesRequested | SafetyRejected | Reset | Cleared

  datatype QueueAction =
    AwaitingReview | SafetyChangesRequested | SafetyWasRejected | SafetyWasReset | VenueUnavailable | HoldEnded

  // ------------------------------------------------------------------ holds and unavailable venues

  /** Venues that share a name are told apart by their location. */
  predicate NameClashes(b: Booking, bookings: seq<Booking>) {
    exists i :: 0 <= i < |bookings| && bookings[i].venue != b.venue && bookings[i].venueName == b.venueName
  }

  function VenueLabel(b: Booking, bookings: seq<Booking>): string {
    if NameClashes(b, bookings) then b.venueName + " (" + b.venueLocation + ")" else b.venueName
  }

  predicate IsHold(b: Booking, now: int) {
    b.holdExpiresAt.Some? && (b.status == Pending || ApprovedHoldState(b, now).Some?)
  }

  /** Active until its expiry instant, ended from that instant on. */
  predicate HoldHasEnded(b: Booking, now: int)
    requires b.holdExpiresAt.Some?
  {
    ApprovedHoldState(b, now) == Some(HoldState.HoldExpired) || b.holdExpiresAt.value <= now
  }

  function HoldItem(b: Booking, bookings: seq<Booking>, now: int): Option<QueueHold> {
    if IsHold(b, now)
    then Some(QueueHold(VenueLabel(b, bookings), b.holdExpiresAt.value, HoldHasEnded(b, now))) else None
  }

  function DeriveHolds(bookings: seq<Booking>, now: int): seq<QueueHold> {
    Collect(bookings, (b: Booking) => HoldItem(b, bookings, now))
  }

  predicate OccupiesVenue(b: Booking, now: int) {
    if b.status == Expired then false
    else if b.status == BookingStatus.Approved then ApprovedHoldState(b, now) != Some(HoldState.HoldExpired)
    else b.holdExpiresAt.None? || b.holdExpiresAt.value > now
  }

  predicate IsAffected(b: Booking, now: int) {
    b.unavailable && OccupiesVenue(b, now)
  }

  /** One entry per venue, where its first booking stands, showing its last. */
  function ByVenue(bookings: seq<Booking>): (entries: seq<Booking>) {
    if bookings == [] then []
    else
      var entries, last := ByVenue(bookings[..|bookings| - 1]), bookings[|bookings| - 1];
      match VenueIndex(entries, last.venue)
      case Some(k) => entries[k := last]
      case None => entries + [last]
  }

  function VenueIndex(entries: seq<Booking>, venue: nat): Option<nat> {
    IndexWhere(entries, (entry: Booking) => entry.venue == venue)
  }

  function UnavailableVenues(bookings: seq<Booking>, now: int): seq<string> {
    Map(ByVenue(Filter(bookings, (b: Booking) => IsAffected(b, now))), (b: Booking) => VenueLabel(b, bookings))
  }

  // ------------------------------------------------------------------ the safety state and the actions

  function DeriveQueueSafety(status: EventStatus, stored: Option<StoredSafety>, wasReset: bool): Option<QueueSafety> {
    if IsTerminal(status) then None
    else match stored
      case None => if wasReset then Some(Reset) else None
      case Some(RejectedCheck) => Some(SafetyRejected)
      case Some(ChangesNeeded) => Some(ChangesRequested)
      case Some(PendingCheck) => if status == EventStatus.Planning then Some(AwaitingCheck) else None
      case Some(ApprovedCheck) => if status == EventStatus.Confirmed then None else Some(Cleared)
  }

  /** What a card shows before its reasons are listed. */
  datatype Shown =
    Shown(status: EventStatus, safety: Option<QueueSafety>, holds: seq<QueueHold>, unavailable: seq<string>)

  predicate AnyEnded(holds: seq<QueueHold>) {
    exists i :: 0 <= i < |holds| && holds[i].ended
  }

  predicate Applies(action: QueueAction, shown: Shown) {
    match action
    case AwaitingReview => shown.status == EventStatus.Submitted
    case SafetyChangesRequested => shown.safety == Some(ChangesRequested)
    case SafetyWasRejected => shown.safety == Some(SafetyRejected)
    case SafetyWasReset => shown.safety == Some(Reset)
    case VenueUnavailable => shown.unavailable != []
    case HoldEnded => AnyEnded(shown.holds)
  }

  /** The fixed order of the reasons. */
  function Rank(action: QueueAction): nat {
    match action
    case AwaitingReview => 0
    case SafetyChangesRequested => 1
    case SafetyWasRejected => 2
    case SafetyWasReset => 3
    case VenueUnavailable => 4
    case HoldEnded => 5
  }

  /** In the fixed order, so no reason twice. */
  ghost predicate InOrder(actions: seq<QueueAction>) {
    forall i, j :: 0 <= i < j < |actions| ==> Rank(actions[i]) < Rank(actions[j])
  }

  /** Exactly the applicable reasons below a rank, in order. */
  ghost predicate ListsBelow(actions: seq<QueueAction>, rank: nat, shown: Shown) {
    InOrder(actions) && forall action :: action in actions <==> Rank(action) < rank && Applies(action, shown)
  }

  lemma NextReason(actions: seq<QueueAction>, next: QueueAction, shown: Shown)
    requires ListsBelow(actions, Rank(next), shown)
    ensures ListsBelow(if Applies(next, shown) then actions + [next] else actions, Rank(next) + 1, shown)
  {
    assert forall i :: 0 <= i < |actions| ==> actions[i] in actions;
    assert forall action :: Rank(action) == Rank(next) ==> action == next;
  }

  method PushWhen(actions: seq<QueueAction>, applies: bool, next: QueueAction, ghost shown: Shown)
    returns (pushed: seq<QueueAction>)
    requires ListsBelow(actions, Rank(next), shown) && (applies <==> Applies(next, shown))
    ensures ListsBelow(pushed, Rank(next) + 1, shown)
  {
    NextReason(actions, next, shown);
    pushed := actions;
    if applies {
      pushed := pushed + [next];
    }
  }

  method DeriveActions(shown: Shown) returns (actions: seq<QueueAction>)
    ensures InOrder(actions) && forall action :: action in actions <==> Applies(action, shown)
  {
    actions := [];
    actions := PushWhen(actions, shown.status == EventStatus.Submitted, AwaitingReview, shown);
    actions := PushWhen(actions, shown.safety == Some(ChangesRequested), SafetyChangesRequested, shown);
    actions := PushWhen(actions, shown.safety == Some(SafetyRejected), SafetyWasRejected, shown);
    actions := PushWhen(actions, shown.safety == Some(Reset), SafetyWasReset, shown);
    actions := PushWhen(actions, |shown.unavailable| > 0, VenueUnavailable, shown);
    actions := PushWhen(actions, AnyEnded(shown.holds), HoldEnded, shown);
    assert forall action :: Rank(action) < 6;
  }

  /** Some booking's venue is unavailable while the booking still occupies it. */
  predicate SomeAffected(bookings: seq<Booking>, now: int) {
    exists i :: 0 <= i < |bookings| && IsAffected(bookings[i], now)
  }

  predicate SomeHoldEnded(bookings: seq<Booking>, now: int) {
    exists i :: 0 <= i < |bookings| && IsHold(bookings[i], now) && HoldHasEnded(bookings[i], now)
  }

  lemma UnavailableMeansAffected(bookings: seq<Booking>, now: int)
    ensures UnavailableVenues(bookings, now) != [] <==> SomeAffected(bookings, now)
  {
    var affected := Filter(bookings, (b: Booking) => IsAffected(b, now));
    MapIndexes(ByVenue(affected), (b: Booking) => VenueLabel(b, bookings));
    if affected != [] {
      FilterContains(bookings, (b: Booking) => IsAffected(b, now), affected[0]);
      OneEntryPerVenue(affected, affected[0].venue);
      assert HasVenue(affected, affected[0].venue);
    }
    if SomeAffected(bookings, now) {
      var i :| 0 <= i < |bookings| && IsAffected(bookings[i], now);
      FilterContains(bookings, (b: Booking) => IsAffected(b, now), bookings[i]);
    }
  }

  lemma AnyEndedSplits(first: seq<QueueHold>, rest: seq<QueueHold>)
    ensures AnyEnded(first + rest) <==> AnyEnded(first) || AnyEnded(rest)
  {
    var both := first + rest;
    assert forall i :: 0 <= i < |first| ==> both[i] == first[i];
    assert forall i :: 0 <= i < |rest| ==> both[|first| + i] == rest[i];
  }

  lemma SomeHoldEndedSplits(bookings: seq<Booking>, now: int)
    requires bookings != []
    ensures SomeHoldEnded(bookings, now)
      <==> (IsHold(bookings[0], now) && HoldHasEnded(bookings[0], now)) || SomeHoldEnded(bookings[1..], now)
  {
    assert forall i :: 1 <= i < |bookings| ==> bookings[i] == bookings[1..][i - 1];
  }

  lemma {:induction false} EndedMeansSomeHold(bookings: seq<Booking>, all: seq<Booking>, now: int)
    ensures AnyEnded(Collect(bookings, (b: Booking) => HoldItem(b, all, now))) <==> SomeHoldEnded(bookings, now)
  {
    if bookings != [] {
      var item := (b: Booking) => HoldItem(b, all, now);
      var first := if item(bookings[0]).Some? then [item(bookings[0]).value] else [];
      EndedMeansSomeHold(bookings[1..], all, now);
      SomeHoldEndedSplits(bookings, now);
      AnyEndedSplits(first, Collect(bookings[1..], item));
      assert Collect(bookings, item) == first + Collect(bookings[1..], item);
      assert AnyEnded(first) <==> item(bookings[0]).Some? && item(bookings[0]).value.ended by {
        assert first != [] ==> first[0] == item(bookings[0]).value;
      }
    }
  }

  /** The stored facts that call for the coordinator: what the card's reasons come down to. */
  predicate CallsForAction(status: EventStatus, stored: Option<StoredSafety>, wasReset: bool, bookings: seq<Booking>,
                           now: int) {
    && !IsTerminal(status)
    && (status == EventStatus.Submitted
        || stored == Some(StoredSafety.ChangesNeeded) || stored == Some(RejectedCheck) || (stored.None? && wasReset)
        || SomeAffected(bookings, now) || SomeHoldEnded(bookings, now))
  }

  lemma ReasonsMeanFacts(status: EventStatus, stored: Option<StoredSafety>, wasReset: bool, bookings: seq<Booking>,
                         now: int, shown: Shown)
    requires shown.status == status && shown.safety == DeriveQueueSafety(status, stored, wasReset)
    requires shown.holds == if IsTerminal(status) then [] else DeriveHolds(bookings, now)
    requires shown.unavailable == if IsTerminal(status) then [] else UnavailableVenues(bookings, now)
    ensures (exists action :: Applies(action, shown)) <==> CallsForAction(status, stored, wasReset, bookings, now)
  {
    UnavailableMeansAffected(bookings, now);
    EndedMeansSomeHold(bookings, bookings, now);
    if CallsForAction(status, stored, wasReset, bookings, now) {
      var reason :=
        if status == EventStatus.Submitted then AwaitingReview
        else if stored == Some(StoredSafety.ChangesNeeded) then SafetyChangesRequested
        else if stored == Some(RejectedCheck) then SafetyWasRejected
        else if stored.None? && wasReset then SafetyWasReset
        else if SomeAffected(bookings, now) then VenueUnavailable else HoldEnded;
      assert Applies(reason, shown);
    }
  }

  /**
   Everything one card shows. The reasons are exactly the applicable ones, in the fixed order; the card asks for action
   exactly when the stored facts call for it; and an event that is over shows its status only.
   */
  method BuildQueueIndicators(status: EventStatus, stored: Option<StoredSafety>, wasReset: bool, bookings: seq<Booking>,
                              now: int)
    returns (shown: Shown, actions: seq<QueueAction>, needsAction: bool)
    ensures InOrder(actions) && forall action :: action in actions <==> Applies(action, shown)
    ensures needsAction <==> CallsForAction(status, stored, wasReset, bookings, now)
    ensures IsTerminal(status) ==> shown == Shown(status, None, [], []) && actions == []
    ensures !IsTerminal(status) ==>
      shown == Shown(status, DeriveQueueSafety(status, stored, wasReset), DeriveHolds(bookings, now),
                     UnavailableVenues(bookings, now))
  {
    var terminal := IsTerminal(status);
    var safety := DeriveQueueSafety(status, stored, wasReset);
    var holds := if terminal then [] else DeriveHolds(bookings, now);
    var unavailable := if terminal then [] else UnavailableVenues(bookings, now);
    shown := Shown(status, safety, holds, unavailable);
    actions := DeriveActions(shown);
    needsAction := |actions| > 0;
    ReasonsMeanFacts(status, stored, wasReset, bookings, now, shown);
    if |actions| > 0 {
      assert Applies(actions[0], shown) by { assert actions[0] in actions; }
    }
  }

  // ------------------------------------------------------------------ agreement and the scheduler

  /**
   Where the queue shows a hold, its end is the Confirm rule's "hold ended" of the same row, and such a hold occupies no
   venue. The two would differ exactly on a row stored as expired ahead of its own expiry, which no scheduler writes.
   */
  lemma HoldReadingsAgree(b: Booking, bookings: seq<Booking>, now: int)
    requires IsHold(b, now)
    ensures var queue := HoldItem(b, bookings, now).value.ended;
      var confirm := Readiness.VenueItem(b, now) == Some(Readiness.VenueOutstanding(b.venueName, Readiness.EndedHold));
      && (queue <==> !OccupiesVenue(b, now))
      && ((queue <==> confirm) <==> !(b.status == Expired && b.holdExpiresAt.value > now))
  {
  }

  ghost predicate HasVenue(bookings: seq<Booking>, venue: nat) {
    exists i :: 0 <= i < |bookings| && bookings[i].venue == venue
  }

  ghost predicate DistinctVenues(bookings: seq<Booking>) {
    forall i, j :: 0 <= i < j < |bookings| ==> bookings[i].venue != bookings[j].venue
  }

  /** Each venue appears once, and exactly the venues of the given bookings appear. */
  lemma {:induction false} OneEntryPerVenue(bookings: seq<Booking>, venue: nat)
    ensures DistinctVenues(ByVenue(bookings))
    ensures HasVenue(ByVenue(bookings), venue) <==> HasVenue(bookings, venue)
  {
    if bookings != [] {
      var init, last := bookings[..|bookings| - 1], bookings[|bookings| - 1];
      OneEntryPerVenue(init, venue);
      var entries, after := ByVenue(init), ByVenue(bookings);
      var k := VenueIndex(entries, last.venue);
      assert after == if k.Some? then entries[k.value := last] else entries + [last];
      assert forall i :: 0 <= i < |entries| ==> after[i].venue == entries[i].venue;
      assert after[if k.Some? then k.value else |entries|].venue == last.venue;
      assert HasVenue(after, venue) <==> HasVenue(entries, venue) || last.venue == venue;
      assert HasVenue(bookings, venue) <==> HasVenue(init, venue) || last.venue == venue;
    }
  }

  lemma SettlingKeepsLabels(b: Booking, bookings: seq<Booking>, now: int)
    ensures VenueLabel(b, Settled(bookings, now)) == VenueLabel(b, bookings)
    ensures VenueLabel(Persisted(b, now), bookings) == VenueLabel(b, bookings)
  {
    forall i | 0 <= i < |bookings|
      ensures Settled(bookings, now)[i].venue == bookings[i].venue
      ensures Settled(bookings, now)[i].venueName == bookings[i].venueName
    {
      MapIndex(bookings, (x: Booking) => Persisted(x, now), i);
    }
    if NameClashes(b, bookings) {
      var i :| 0 <= i < |bookings| && bookings[i].venue != b.venue && bookings[i].venueName == b.venueName;
      assert Settled(bookings, now)[i].venue != b.venue;
    }
  }

  lemma HoldsOfSettled(bookings: seq<Booking>, now: int)
    ensures DeriveHolds(Settled(bookings, now), now) == DeriveHolds(bookings, now)
  {
    forall b: Booking ensures HoldItem(Persisted(b, now), Settled(bookings, now), now) == HoldItem(b, bookings, now) {
      SettlingKeepsLabels(Persisted(b, now), bookings, now);
      SettlingKeepsLabels(b, bookings, now);
    }
    CollectOfMap(bookings, (b: Booking) => Persisted(b, now), (b: Booking) => HoldItem(b, Settled(bookings, now), now),
                 (b: Booking) => HoldItem(b, bookings, now));
  }

  /** A hold that has run out affects no venue, stored as ended or not, so the same bookings are affected. */
  lemma {:induction false} AffectedOfSettled(bookings: seq<Booking>, now: int)
    ensures Filter(Settled(bookings, now), (b: Booking) => IsAffected(b, now))
         == Filter(bookings, (b: Booking) => IsAffected(b, now))
  {
    if bookings != [] {
      var settle := (b: Booking) => Persisted(b, now);
      AffectedOfSettled(bookings[1..], now);
      assert Map(bookings, settle)[1..] == Map(bookings[1..], settle);
      assert Map(bookings, settle)[0] == settle(bookings[0]);
    }
  }

  lemma UnavailableOfSettled(bookings: seq<Booking>, now: int)
    ensures UnavailableVenues(Settled(bookings, now), now) == UnavailableVenues(bookings, now)
  {
    AffectedOfSettled(bookings, now);
    forall b: Booking ensures VenueLabel(b, Settled(bookings, now)) == VenueLabel(b, bookings) {
      SettlingKeepsLabels(b, bookings, now);
    }
    MapSame(ByVenue(Filter(bookings, (b: Booking) => IsAffected(b, now))),
            (b: Booking) => VenueLabel(b, Settled(bookings, now)), (b: Booking) => VenueLabel(b, bookings));
  }

  /** The queue's holds and unavailable venues read the same whatever the expiry scheduler has stored. */
  lemma SchedulerIsInvisibleToQueue(before: seq<Booking>, after: seq<Booking>, now: int, later: int)
    requires SchedulerRewrote(before, after, now) && now <= later
    ensures DeriveHolds(after, later) == DeriveHolds(before, later)
    ensures UnavailableVenues(after, later) == UnavailableVenues(before, later)
  {
    RewriteStaysInvisible(before, after, now, later);
    RewritesSettleAlike(before, after, later);
    HoldsOfSettled(before, later);
    HoldsOfSettled(after, later);
    UnavailableOfSettled(before, later);
    UnavailableOfSettled(after, later);
  }

  // ------------------------------------------------------------------ the parts of a query value

  /** A query value is a string, or anything else by its string form. */
  datatype QueryValue = Text(text: string) | Other(text: string)

  function Split(s: string, separator: char): (parts: seq<string>)
    ensures parts != []
  {
    if s == "" then [""]
    else
      var rest := Split(s[1..], separator);
      if s[0] == separator then [""] + rest else [[s[0]] + rest[0]] + rest[1..]
  }

  function Join(parts: seq<string>, separator: char): string
    requires parts != []
  {
    if |parts| == 1 then parts[0] else parts[0] + [separator] + Join(parts[1..], separator)
  }

  /** Splitting loses nothing: the parts hold no separator and join to the string again. */
  lemma {:induction false} SplitJoins(s: string, separator: char)
    ensures Join(Split(s, separator), separator) == s
    ensures forall i :: 0 <= i < |Split(s, separator)| ==> separator !in Split(s, separator)[i]
  {
    if s != "" {
      SplitJoins(s[1..], separator);
      var rest, parts := Split(s[1..], separator), Split(s, separator);
      assert s == [s[0]] + s[1..];
      if s[0] == separator {
        assert parts[1..] == rest;
      } else if |rest| > 1 {
        assert parts[1..] == rest[1..];
        assert [s[0]] + rest[0] + [separator] + Join(rest[1..], separator)
            == [s[0]] + (rest[0] + [separator] + Join(rest[1..], separator));
      }
    }
  }

  /** White space and line terminators as ECMAScript trims them. */
  predicate IsBlank(c: char) {
    var code := c as int;
    || 0x09 <= code <= 0x0D || code == 0x20 || code == 0xA0 || code == 0x1680 || 0x2000 <= code <= 0x200A
    || code == 0x2028 || code == 0x2029 || code == 0x202F || code == 0x205F || code == 0x3000 || code == 0xFEFF
  }

  /** Tab to carriage return, the separators of Unicode, and the byte order mark. */
  lemma BlanksAre(c: char)
    ensures IsBlank(c) <==>
      || c == '\t' || c == '\n' || c as int == 11 || c as int == 12 || c == '\r' || c == ' '
      || c as int == 0xA0 || c as int == 0x1680 || c as int == 0xFEFF || IsSeparator(c as int)
  {
  }

  /** Space, line and paragraph separators above the Latin ones: the fixed-width spaces and five single ones. */
  ghost predicate IsSeparator(code: int) {
    || (8191 < code < 8203)
    || code in {8232, 8233, 8239, 8287, 12288}
  }

  function TrimStart(s: string): string {
    if s != "" && IsBlank(s[0]) then TrimStart(s[1..]) else s
  }

  function TrimEnd(s: string): string {
    if s != "" && IsBlank(s[|s| - 1]) then TrimEnd(s[..|s| - 1]) else s
  }

  function Trim(s: string): string {
    TrimEnd(TrimStart(s))
  }

  lemma {:induction false} StartTrimmed(s: string) returns (from: nat)
    ensures from <= |s| && TrimStart(s) == s[from..]
    ensures forall i :: 0 <= i < from ==> IsBlank(s[i])
    ensures from < |s| ==> !IsBlank(s[from])
  {
    from := 0;
    if s != "" && IsBlank(s[0]) {
      from := StartTrimmed(s[1..]);
      assert s[1..][from..] == s[from + 1..];
      assert forall i :: 1 <= i < |s| ==> s[i] == s[1..][i - 1];
      from := from + 1;
    }
  }

  lemma {:induction false} EndTrimmed(s: string) returns (to: nat)
    ensures to <= |s| && TrimEnd(s) == s[..to]
    ensures forall i :: to <= i < |s| ==> IsBlank(s[i])
    ensures 0 < to ==> !IsBlank(s[to - 1])
  {
    to := |s|;
    if s != "" && IsBlank(s[|s| - 1]) {
      to := EndTrimmed(s[..|s| - 1]);
      assert s[..|s| - 1][..to] == s[..to];
    }
  }

  /** Trimming takes blanks off the two ends, and every one of them. */
  lemma TrimTakesTheEnds(s: string) returns (from: nat, to: nat)
    ensures from <= to <= |s| && Trim(s) == s[from..to]
    ensures forall i :: 0 <= i < from || to <= i < |s| ==> IsBlank(s[i])
    ensures from < to ==> !IsBlank(s[from]) && !IsBlank(s[to - 1])
  {
    from := StartTrimmed(s);
    var rest := s[from..];
    var length := EndTrimmed(rest);
    to := from + length;
    assert rest[..length] == s[from..to];
    assert forall i :: from <= i < |s| ==> s[i] == rest[i - from];
  }

  function PartsOf(value: QueryValue): seq<string> {
    if value.Text? then Map(Split(value.text, ','), Trim) else [value.text]
  }

  function AllParts(raw: seq<QueryValue>): seq<string> {
    if raw == [] then [] else PartsOf(raw[0]) + AllParts(raw[1..])
  }

  /** The parts asked for, in order; blank ones ask for nothing. */
  function Wanted(raw: seq<QueryValue>): seq<string> {
    Filter(AllParts(raw), (part: string) => part != "")
  }

  /** What one value asks for: the trimmed stretches between its commas, or itself when it is no string. */
  ghost predicate AsksFor(value: QueryValue, part: string) {
    && part != ""
    && if value.Other? then part == value.text
       else exists i :: 0 <= i < |Split(value.text, ',')| && part == Trim(Split(value.text, ',')[i])
  }

  lemma PartsAre(value: QueryValue, part: string)
    ensures part != "" && part in PartsOf(value) <==> AsksFor(value, part)
  {
    if value.Text? {
      MapIndexes(Split(value.text, ','), Trim);
      if AsksFor(value, part) {
        var i :| 0 <= i < |Split(value.text, ',')| && part == Trim(Split(value.text, ',')[i]);
        assert PartsOf(value)[i] == part;
      }
    }
  }

  lemma {:induction false} AllPartsAppend(first: seq<QueryValue>, more: seq<QueryValue>)
    ensures AllParts(first + more) == AllParts(first) + AllParts(more)
  {
    if first == [] {
      assert first + more == more;
    } else {
      AllPartsAppend(first[1..], more);
      assert (first + more)[1..] == first[1..] + more && (first + more)[0] == first[0];
    }
  }

  /** The parts of several values follow one another in the order of the values. */
  lemma WantedInOrder(first: seq<QueryValue>, more: seq<QueryValue>)
    ensures Wanted(first + more) == Wanted(first) + Wanted(more)
  {
    AllPartsAppend(first, more);
    FilterAppends(AllParts(first), AllParts(more), (part: string) => part != "");
  }

  /** A query asks for exactly the non-blank parts of its values. */
  lemma {:induction false} WantedAre(raw: seq<QueryValue>, part: string)
    ensures part in Wanted(raw) <==> exists k :: 0 <= k < |raw| && AsksFor(raw[k], part)
  {
    FilterContains(AllParts(raw), (p: string) => p != "", part);
    if raw != [] {
      WantedAre(raw[1..], part);
      FilterContains(AllParts(raw[1..]), (p: string) => p != "", part);
      PartsAre(raw[0], part);
      assert forall k :: 1 <= k < |raw| ==> raw[k] == raw[1..][k - 1];
    }
  }

  // ------------------------------------------------------------------ the status filter

  datatype StatusFilter = NoFilter | Only(statuses: seq<EventStatus>) | Unknown(value: string)

  function StatusName(status: EventStatus): string {
    match status
    case Submitted => "submitted"
    case Approved => "approved"
    case Rejected => "rejected"
    case Planning => "planning"
    case Confirmed => "confirmed"
    case Completed => "completed"
    case Cancelled => "cancelled"
  }

  function Lower(c: char): char {
    if 'A' <= c <= 'Z' then c - 'A' + 'a' else c
  }

  function LowerCase(s: string): string {
    if s == "" then "" else [Lower(s[0])] + LowerCase(s[1..])
  }

  predicate Names(value: string, status: EventStatus) {
    LowerCase(value) == StatusName(status)
  }

  function StatusNamed(lower: string): Option<EventStatus> {
    if lower == StatusName(EventStatus.Submitted) then Some(EventStatus.Submitted)
    else if lower == StatusName(EventStatus.Approved) then Some(EventStatus.Approved)
    else if lower == StatusName(EventStatus.Planning) then Some(EventStatus.Planning)
    else if lower == StatusName(EventStatus.Confirmed) then Some(EventStatus.Confirmed)
    else if lower == StatusName(EventStatus.Completed) then Some(EventStatus.Completed)
    else if lower == StatusName(EventStatus.Cancelled) then Some(EventStatus.Cancelled)
    else if lower == StatusName(EventStatus.Rejected) then Some(EventStatus.Rejected)
    else None
  }

  function StatusOf(value: string): Option<EventStatus> {
    StatusNamed(LowerCase(value))
  }

  lemma StatusNamesDiffer(s: EventStatus, t: EventStatus)
    requires StatusName(s) == StatusName(t)
    ensures s == t
  {
    assert StatusName(s)[0] == StatusName(t)[0] && StatusName(s)[2] == StatusName(t)[2];
  }

  /** A part names at most one status, and the lookup finds it whatever its case. */
  lemma StatusOfIsTheName(value: string, s: EventStatus)
    ensures StatusOf(value) == Some(s) <==> Names(value, s)
  {
    if Names(value, s) && StatusOf(value).Some? {
      StatusNamesDiffer(s, StatusOf(value).value);
    }
  }

  /** The same word up to the case of the letters A to Z. */
  ghost predicate SameWord(value: string, word: string) {
    && |value| == |word|
    && forall i :: 0 <= i < |value| ==>
         word[i] as int == if 65 <= value[i] as int <= 90 then value[i] as int + 32 else value[i] as int
  }

  lemma {:induction false} LowerCaseIsSameWord(value: string, word: string)
    ensures LowerCase(value) == word <==> SameWord(value, word)
  {
    if value == "" {
    } else if word != "" {
      LowerCaseIsSameWord(value[1..], word[1..]);
      assert word == [word[0]] + word[1..];
      assert LowerCase(value)[1..] == LowerCase(value[1..]) && LowerCase(value)[0] == Lower(value[0]);
      assert forall i :: 1 <= i < |value| && |value| == |word| ==>
        value[i] == value[1..][i - 1] && word[i] == word[1..][i - 1];
      assert SameWord(value, word) <==> SameWord(value[1..], word[1..]) && word[0] == Lower(value[0]);
    }
  }

  /** A filter part names a status exactly when it is the status's word in any case. */
  lemma StatusWords(value: string)
    ensures StatusOf(value) == Some(EventStatus.Submitted) <==> SameWord(value, "submitted")
    ensures StatusOf(value) == Some(EventStatus.Approved) <==> SameWord(value, "approved")
    ensures StatusOf(value) == Some(EventStatus.Rejected) <==> SameWord(value, "rejected")
    ensures StatusOf(value) == Some(EventStatus.Planning) <==> SameWord(value, "planning")
    ensures StatusOf(value) == Some(EventStatus.Confirmed) <==> SameWord(value, "confirmed")
    ensures StatusOf(value) == Some(EventStatus.Completed) <==> SameWord(value, "completed")
    ensures StatusOf(value) == Some(EventStatus.Cancelled) <==> SameWord(value, "cancelled")
  {
    forall s: EventStatus ensures StatusOf(value) == Some(s) <==> SameWord(value, StatusName(s)) {
      StatusOfIsTheName(value, s);
      LowerCaseIsSameWord(value, StatusName(s));
    }
  }

  ghost predicate Asked(matches: seq<Option<EventStatus>>, s: EventStatus) {
    Some(s) in matches
  }

  ghost predicate NoneTwice(statuses: seq<EventStatus>) {
    forall i, j :: 0 <= i < j < |statuses| ==> statuses[i] != statuses[j]
  }

  ghost predicate FirstUnknown(wanted: seq<string>, value: string) {
    exists k :: (0 <= k < |wanted| && wanted[k] == value && StatusOf(value).None?
                 && forall i :: 0 <= i < k ==> StatusOf(wanted[i]).Some?)
  }

  /** The statuses matched, each once; or the place of the first part that matches none. */
  method CollectStatuses(matches: seq<Option<EventStatus>>) returns (statuses: seq<EventStatus>, unknown: Option<nat>)
    ensures unknown.Some? ==>
      unknown.value < |matches| && matches[unknown.value].None? && None !in matches[..unknown.value]
    ensures unknown.None? ==> None !in matches && NoneTwice(statuses)
    ensures unknown.None? ==> forall s: EventStatus :: s in statuses <==> Asked(matches, s)
  {
    statuses, unknown := [], None;
    for i := 0 to |matches|
      invariant None !in matches[..i] && NoneTwice(statuses)
      invariant forall s: EventStatus :: s in statuses <==> Asked(matches[..i], s)
    {
      if matches[i].None? { return statuses, Some(i); }
      assert matches[..i + 1] == matches[..i] + [matches[i]];
      if matches[i].value !in statuses {
        assert forall k :: 0 <= k < |statuses| ==> statuses[k] in statuses;
        statuses := statuses + [matches[i].value];
      }
    }
    assert matches[..|matches|] == matches;
  }

  /**
   `raw` is None for an absent query value. Without a non-blank part there is no filter; an unknown part refuses the
   filter and the first one is reported; otherwise the filter is exactly the statuses named, each once.
   */
  method ParseStatusFilter(raw: Option<seq<QueryValue>>) returns (filter: StatusFilter)
    ensures filter.NoFilter? <==> raw.None? || Wanted(raw.value) == []
    ensures filter.Unknown? ==> FirstUnknown(Wanted(raw.value), filter.value)
    ensures filter.Only? ==> NoneTwice(filter.statuses)
    ensures filter.Only? ==> forall i :: 0 <= i < |Wanted(raw.value)| ==> StatusOf(Wanted(raw.value)[i]).Some?
    ensures filter.Only? ==>
      forall s: EventStatus :: s in filter.statuses <==> Asked(Map(Wanted(raw.value), StatusOf), s)
  {
    if raw.None? { return NoFilter; }
    var wanted := Wanted(raw.value);
    if |wanted| == 0 { return NoFilter; }
    var matches := Map(wanted, StatusOf);
    var statuses, unknown := CollectStatuses(matches);
    forall i | 0 <= i < |wanted| ensures matches[i] == StatusOf(wanted[i]) {
      MapIndex(wanted, StatusOf, i);
    }
    if unknown.Some? {
      assert forall i :: 0 <= i < unknown.value ==> matches[..unknown.value][i] == matches[i];
      return Unknown(wanted[unknown.value]);
    }
    return Only(statuses);
  }
}
