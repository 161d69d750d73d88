/**
 What each equipment transaction does to the rows, and exactly when it is accepted, in terms of the columns alone
 (backend/src/equipment/requests/equipment-requests.repository.ts and the releaser and removal beside it).
 */
module EquipmentEffects {
  import opened Wrappers
  import opened EventTypes
  import opened Sums
  import opened EquipmentStock

  // ------------------------------------------------------------------ the rest of the state

  /** Only this event's row differs, and its window does not. */
  ghost predicate OnlyEvent(s: State, after: State, e: nat)
    requires e < |s.events|
  {
    && |after.events| == |s.events| && after.inventory == s.inventory
    && after.events[e].start == s.events[e].start && after.events[e].end == s.events[e].end
    && forall i :: 0 <= i < |s.events| && i != e ==> after.events[i] == s.events[i]
  }

  /** Reservation lines change status only; item columns, names and quantities stay. */
  ghost predicate OnlyStatuses(before: seq<Item>, after: seq<Item>) {
    && |after| == |before|
    && forall i :: (0 <= i < |before| ==>
         && after[i].id == before[i].id && after[i].name == before[i].name && after[i].kind == before[i].kind
         && after[i].quantity == before[i].quantity && (after[i].line.Some? <==> before[i].line.Some?)
         && (before[i].line.Some? ==> after[i].line.value.name == before[i].line.value.name
                                      && after[i].line.value.quantity == before[i].line.value.quantity))
  }

  // ------------------------------------------------------------------ submitting and updating

  /** The total a submission asks for under one name. */
  function Submitted(input: seq<SubmittedItem>, name: string): nat {
    if input == [] then 0
    else Submitted(input[..|input| - 1], name)
         + if input[|input| - 1].name == name then input[|input| - 1].quantity else 0
  }

  /** Item k is what line k of the submission asks for, with a Requested line of that name and quantity. */
  ghost predicate AskedFor(input: seq<SubmittedItem>, items: seq<Item>) {
    && |items| == |input|
    && forall k :: (0 <= k < |input| ==>
         && items[k].name == input[k].name && items[k].kind == input[k].kind && items[k].quantity == input[k].quantity
         && items[k].line == Some(Line(input[k].name, input[k].quantity, Requested)))
  }

  /** The request as submitted: pending, item by item as asked, under the next free identifiers. */
  ghost predicate HoldsSubmission(s: State, after: State, e: nat, input: seq<SubmittedItem>)
    requires HasRequest(after, e)
  {
    && after.events[e].request.value.status == PendingReview
    && AskedFor(input, ItemsOf(after, e))
    && (forall k :: 0 <= k < |input| ==> ItemsOf(after, e)[k].id == s.nextItem + k)
    && after.nextItem == s.nextItem + |input|
  }

  lemma {:induction false} DemandIsSubmitted(input: seq<SubmittedItem>, items: seq<Item>, name: string)
    requires AskedFor(input, items)
    ensures Demand(items, true, name) == Submitted(input, name)
  {
    if input != [] {
      var n := |input| - 1;
      DemandIsSubmitted(input[..n], items[..n], name);
      SumEqual(n, (i: nat) => if i < |items| then ItemDemand(items[i], true, name) else 0,
               (i: nat) => if i < |items[..n]| then ItemDemand(items[..n][i], true, name) else 0);
    }
  }

  lemma NewItemsAreAsked(input: seq<SubmittedItem>, firstId: nat, name: string)
    ensures AskedFor(input, NewItems(input, firstId))
    ensures forall k :: 0 <= k < |input| ==> NewItems(input, firstId)[k].id == firstId + k
    ensures Demand(NewItems(input, firstId), true, name) == Submitted(input, name)
  {
    DemandIsSubmitted(input, NewItems(input, firstId), name);
  }

  /** A submission stores what was asked for, moves the event to Planning and touches nothing else. */
  lemma SubmitStoresTheSubmission(s: State, e: nat, input: seq<SubmittedItem>, name: string)
    ensures Submit(s, e, input).Done? <==>
      && e < |s.events| && s.events[e].request.None?
      && (s.events[e].status == EventStatus.Approved || s.events[e].status == EventStatus.Planning)
    ensures Submit(s, e, input).Done? || Submit(s, e, input) == Refused(
      if e >= |s.events| then EventNotFound
      else if s.events[e].status != EventStatus.Approved && s.events[e].status != EventStatus.Planning then EventNotOpen
      else AlreadySubmitted)
    ensures Submit(s, e, input).Done? ==>
      var after := Submit(s, e, input).state;
      && OnlyEvent(s, after, e) && HasRequest(after, e) && HoldsSubmission(s, after, e, input)
      && after.events[e].status == EventStatus.Planning
      && Demand(ItemsOf(after, e), true, name) == Submitted(input, name)
  {
    NewItemsAreAsked(input, s.nextItem, name);
    assert Submit(s, e, input).Done? ==> ItemsOf(Submit(s, e, input).state, e) == NewItems(input, s.nextItem);
  }

  /** Whether the safety review selected some line of the request. */
  ghost predicate UnderReview(items: seq<Item>, flagged: set<nat>) {
    exists j :: 0 <= j < |items| && items[j].line.Some? && items[j].id in flagged
  }

  ghost predicate Selected(item: Item, flagged: set<nat>) {
    item.line.Some? && item.id in flagged
  }

  /** Row k of the submission is meant for the item with this identifier. */
  ghost predicate MeantFor(input: seq<SubmittedItem>, id: nat, k: int) {
    0 <= k < |input| && input[k].id == Some(id)
  }

  ghost predicate HasItem(items: seq<Item>, id: Option<nat>) {
    id.Some? && exists j :: 0 <= j < |items| && items[j].id == id.value
  }

  ghost predicate HasRow(input: seq<SubmittedItem>, id: nat) {
    exists k :: 0 <= k < |input| && input[k].id == Some(id)
  }

  ghost predicate DistinctRows(input: seq<SubmittedItem>) {
    forall k, l :: 0 <= k < l < |input| ==> input[k].id != input[l].id
  }

  /** The rows meant for the item leave its name, kind and quantity alone. */
  ghost predicate Unaltered(input: seq<SubmittedItem>, item: Item) {
    forall k :: (0 <= k < |input| && input[k].id == Some(item.id)
                 ==> input[k].name == item.name && input[k].kind == item.kind && input[k].quantity == item.quantity)
  }

  /** The submission names the current items, each exactly once, and no other. */
  ghost predicate NamesExactly(input: seq<SubmittedItem>, items: seq<Item>) {
    && |input| == |items| && DistinctRows(input)
    && (forall k :: 0 <= k < |input| ==> HasItem(items, input[k].id))
    && (forall j :: 0 <= j < |items| ==> HasRow(input, items[j].id))
  }

  /** It names the current items and alters only selected ones. */
  ghost predicate RevisesSelected(input: seq<SubmittedItem>, items: seq<Item>, flagged: set<nat>) {
    && NamesExactly(input, items)
    && (forall j :: 0 <= j < |items| && !Selected(items[j], flagged) ==> Unaltered(input, items[j]))
  }

  lemma {:induction false} SubmittedForMeans(input: seq<SubmittedItem>, id: nat)
    requires DistinctRows(input)
    ensures SubmittedFor(input, id).Some? <==> HasRow(input, id)
    ensures forall k :: MeantFor(input, id, k) ==> SubmittedFor(input, id) == Some(input[k])
  {
    if input != [] {
      SubmittedForMeans(input[1..], id);
      assert forall k :: 1 <= k < |input| ==> input[k] == input[1..][k - 1];
      forall k | MeantFor(input, id, k) ensures SubmittedFor(input, id) == Some(input[k]) {
        if k > 0 {
          assert MeantFor(input[1..], id, k - 1) && input[0].id != input[k].id;
        }
      }
      if HasRow(input, id) && input[0].id != Some(id) {
        var k :| 0 <= k < |input| && input[k].id == Some(id);
        assert MeantFor(input[1..], id, k - 1);
      }
      if HasRow(input[1..], id) {
        var k :| 0 <= k < |input[1..]| && input[1..][k].id == Some(id);
        assert input[k + 1].id == Some(id);
      }
    }
  }

  lemma NamesEveryItemMeans(input: seq<SubmittedItem>, items: seq<Item>)
    ensures NamesEveryItem(input, items) <==> NamesExactly(input, items)
  {
    if DistinctRows(input) {
      forall j | 0 <= j < |items| ensures SubmittedFor(input, items[j].id).Some? <==> HasRow(input, items[j].id) {
        SubmittedForMeans(input, items[j].id);
      }
    }
    if NamesEveryItem(input, items) {
      forall k | 0 <= k < |input| ensures HasItem(items, input[k].id) {
        var j :| 0 <= j < |items| && items[j].id == input[k].id.value;
      }
      assert DistinctRows(input);
    }
    if NamesExactly(input, items) {
      forall k | 0 <= k < |input| ensures exists j :: 0 <= j < |items| && items[j].id == input[k].id.value {
        assert HasItem(items, input[k].id);
      }
    }
  }

  lemma OnlyFlaggedMeans(input: seq<SubmittedItem>, items: seq<Item>, flagged: set<nat>)
    requires NamesEveryItem(input, items)
    ensures OnlyFlaggedChange(input, items, flagged) <==> RevisesSelected(input, items, flagged)
  {
    NamesEveryItemMeans(input, items);
    forall j | 0 <= j < |items|
      ensures SameArrangement(items[j], SubmittedFor(input, items[j].id).value) <==> Unaltered(input, items[j])
    {
      SubmittedForMeans(input, items[j].id);
      assert HasRow(input, items[j].id);
      var k :| 0 <= k < |input| && input[k].id == Some(items[j].id);
      assert MeantFor(input, items[j].id, k);
    }
  }

  /** Selected items take what was submitted for them, with a Requested line of it; the others stay as they were. */
  ghost predicate RevisedAsAsked(input: seq<SubmittedItem>, before: seq<Item>, after: seq<Item>, flagged: set<nat>) {
    && |after| == |before|
    && (forall j :: 0 <= j < |before| && !Selected(before[j], flagged) ==> after[j] == before[j])
    && (forall j, k {:trigger MeantFor(input, before[j].id, k)} ::
          (0 <= j < |before| && Selected(before[j], flagged) && MeantFor(input, before[j].id, k)
           ==> RewrittenAs(before[j], after[j], input[k])))
  }

  ghost predicate RewrittenAs(before: Item, after: Item, asked: SubmittedItem) {
    && after.id == before.id && after.name == asked.name && after.kind == asked.kind && after.quantity == asked.quantity
    && after.line == Some(Line(asked.name, asked.quantity, Requested))
  }

  lemma ReviseFlaggedRewrites(input: seq<SubmittedItem>, items: seq<Item>, flagged: set<nat>)
    requires NamesEveryItem(input, items)
    ensures RevisedAsAsked(input, items, ReviseFlagged(input, items, flagged), flagged)
  {
    forall j, k | 0 <= j < |items| && Selected(items[j], flagged) && MeantFor(input, items[j].id, k)
      ensures RewrittenAs(items[j], ReviseFlagged(input, items, flagged)[j], input[k])
    {
      SubmittedForMeans(input, items[j].id);
    }
  }

  lemma UpdateIsAccepted(s: State, e: nat, input: seq<SubmittedItem>, flagged: set<nat>)
    ensures Update(s, e, input, flagged).Done? <==>
      && HasRequest(s, e)
      && (s.events[e].status == EventStatus.Approved || s.events[e].status == EventStatus.Planning)
      && (UnderReview(ItemsOf(s, e), flagged) ==> RevisesSelected(input, ItemsOf(s, e), flagged))
    ensures Update(s, e, input, flagged).Done? || Update(s, e, input, flagged) == Refused(
      if !HasRequest(s, e) then RequestNotFound
      else if s.events[e].status == EventStatus.Completed then EventCompleted
      else if s.events[e].status == EventStatus.Confirmed then EventConfirmed
      else if s.events[e].status != EventStatus.Approved && s.events[e].status != EventStatus.Planning then EventNotOpen
      else InvalidSafetyReviewUpdate)
  {
    if HasRequest(s, e) {
      NamesEveryItemMeans(input, ItemsOf(s, e));
      if NamesEveryItem(input, ItemsOf(s, e)) {
        OnlyFlaggedMeans(input, ItemsOf(s, e), flagged);
      }
      assert UnderReview(ItemsOf(s, e), flagged)
        <==> exists j :: 0 <= j < |ItemsOf(s, e)| && IsFlagged(ItemsOf(s, e)[j], flagged);
    }
  }

  /** Either way the request is pending again, and nothing else changes. */
  lemma UpdateKeepsTheRest(s: State, e: nat, input: seq<SubmittedItem>, flagged: set<nat>)
    requires Update(s, e, input, flagged).Done?
    ensures HasRequest(s, e)
    ensures var after := Update(s, e, input, flagged).state;
      && OnlyEvent(s, after, e) && HasRequest(after, e)
      && after.events[e].status == s.events[e].status && after.events[e].request.value.status == PendingReview
  {
  }

  /** Without selected lines an update stores the submission like a first one. */
  lemma UpdateStoresTheSubmission(s: State, e: nat, input: seq<SubmittedItem>, flagged: set<nat>, name: string)
    requires Update(s, e, input, flagged).Done? && HasRequest(s, e) && !UnderReview(ItemsOf(s, e), flagged)
    ensures var after := Update(s, e, input, flagged).state;
      && HasRequest(after, e) && HoldsSubmission(s, after, e, input)
      && Demand(ItemsOf(after, e), true, name) == Submitted(input, name)
  {
    assert forall j :: 0 <= j < |ItemsOf(s, e)| ==> !IsFlagged(ItemsOf(s, e)[j], flagged);
    NewItemsAreAsked(input, s.nextItem, name);
    assert ItemsOf(Update(s, e, input, flagged).state, e) == NewItems(input, s.nextItem);
  }

  /** Under a safety review it rewrites exactly the selected items. */
  lemma ReviewRewritesTheSelected(s: State, e: nat, input: seq<SubmittedItem>, flagged: set<nat>)
    requires Update(s, e, input, flagged).Done? && HasRequest(s, e) && UnderReview(ItemsOf(s, e), flagged)
    ensures var after := Update(s, e, input, flagged).state;
      && HasRequest(after, e) && RevisedAsAsked(input, ItemsOf(s, e), ItemsOf(after, e), flagged)
      && after.nextItem == s.nextItem
  {
    assert exists j :: 0 <= j < |ItemsOf(s, e)| && IsFlagged(ItemsOf(s, e)[j], flagged);
    ReviseFlaggedRewrites(input, ItemsOf(s, e), flagged);
  }

  // ------------------------------------------------------------------ deciding

  /** A decision is about the items with a Requested line, or about all items when there is none. */
  ghost predicate Decided(items: seq<Item>, i: nat)
    requires i < |items|
  {
    (items[i].line.Some? && items[i].line.value.status == Requested) || NoneRequested(items)
  }

  ghost predicate NoneRequested(items: seq<Item>) {
    forall j :: 0 <= j < |items| && items[j].line.Some? ==> items[j].line.value.status != Requested
  }

  /** Pending, on an event that is neither over nor already confirmed. */
  ghost predicate Decidable(s: State, e: nat) {
    && HasRequest(s, e) && s.events[e].request.value.status == PendingReview
    && s.events[e].status != EventStatus.Completed && s.events[e].status != EventStatus.Confirmed
  }

  /** Why a request cannot be decided at all. */
  ghost function WhyUndecidable(s: State, e: nat): Refusal {
    if !HasRequest(s, e) then RequestNotFound
    else if s.events[e].status == EventStatus.Completed then EventCompleted
    else if s.events[e].status == EventStatus.Confirmed then EventConfirmed else NotPending
  }

  /** What the decided items ask for under one name. */
  ghost function Asked(items: seq<Item>, whole: bool, name: string): nat {
    if items == [] then 0
    else
      var last := items[|items| - 1];
      Asked(items[..|items| - 1], whole, name)
      + if last.name == name && (whole || (last.line.Some? && last.line.value.status == Requested))
        then last.quantity else 0
  }

  /** What Reserved lines hold of one name. */
  ghost function Kept(items: seq<Item>, name: string): nat {
    if items == [] then 0
    else
      var last := items[|items| - 1].line;
      Kept(items[..|items| - 1], name)
      + if last.Some? && last.value.status == Reserved && last.value.name == name then last.value.quantity else 0
  }

  /** What events other than this one hold of a name, among those that run at some time between start and end. */
  ghost function KeptBeside(events: seq<Event>, own: Option<nat>, start: int, end: int, name: string): nat {
    if events == [] then 0
    else
      var n := |events| - 1;
      KeptBeside(events[..n], own, start, end, name)
      + if own != Some(n) && events[n].request.Some? && events[n].start < end && start < events[n].end
        then Kept(events[n].request.value.items, name) else 0
  }

  /** The name is in active stock, and the total asked for fits beside what overlapping events hold. */
  ghost predicate Fits(s: State, e: nat, name: string)
    requires HasRequest(s, e)
  {
    var items, ev := ItemsOf(s, e), s.events[e];
    && name in s.inventory && s.inventory[name].available
    && Asked(items, NoneRequested(items), name)
         + KeptBeside(s.events, if NoneRequested(items) then Some(e) else None, ev.start, ev.end, name)
       <= s.inventory[name].active
  }

  lemma {:induction false} DemandIsAsked(items: seq<Item>, partial: bool, name: string)
    ensures Demand(items, partial, name) == Asked(items, !partial, name)
  {
    if items != [] {
      var n := |items| - 1;
      DemandIsAsked(items[..n], partial, name);
      SumEqual(n, (i: nat) => if i < |items| then ItemDemand(items[i], partial, name) else 0,
               (i: nat) => if i < |items[..n]| then ItemDemand(items[..n][i], partial, name) else 0);
    }
  }

  lemma {:induction false} HeldIsKept(items: seq<Item>, name: string)
    ensures ItemsHeld(items, name) == Kept(items, name)
  {
    if items != [] {
      var n := |items| - 1;
      HeldIsKept(items[..n], name);
      SumEqual(n, (i: nat) => if i < |items| then LineHeld(items[i], name) else 0,
               (i: nat) => if i < |items[..n]| then LineHeld(items[..n][i], name) else 0);
    }
  }

  /** A family over a sequence, with one index left out, sums to the same over a longer one up to its last term. */
  lemma SumOfLonger(events: seq<Event>, own: Option<nat>, held: Event -> nat)
    requires events != []
    ensures var n := |events| - 1;
      Sum(n + 1, (i: nat) => if i < |events| && Some(i) != own then held(events[i]) else 0)
        == Sum(n, (i: nat) => if i < |events[..n]| && Some(i) != own then held(events[..n][i]) else 0)
           + if Some(n) != own then held(events[n]) else 0
  {
    var n := |events| - 1;
    var all := (i: nat) => if i < |events| && Some(i) != own then held(events[i]) else 0;
    SumEqual(n, all, (i: nat) => if i < |events[..n]| && Some(i) != own then held(events[..n][i]) else 0);
    assert Sum(n + 1, all) == Sum(n, all) + all(n);
  }

  lemma ReservedAsFamily(events: seq<Event>, name: string, start: int, end: int, own: Option<nat>, held: Event -> nat)
    requires forall ev :: held(ev) == HeldDuring(ev, name, start, end)
    ensures ReservedDuring(events, name, start, end, own)
      == Sum(|events|, (i: nat) => if i < |events| && Some(i) != own then held(events[i]) else 0)
  {
    SumEqual(|events|, (i: nat) =>
      if i < |events| && Some(i) != own then HeldDuring(events[i], name, start, end) else 0, (i: nat) =>
      if i < |events| && Some(i) != own then held(events[i]) else 0);
  }

  /** What the last event adds to the sum over the overlapping ones. */
  lemma LastIsAdded(events: seq<Event>, name: string, start: int, end: int, own: Option<nat>)
    requires events != []
    ensures var n := |events| - 1;
      ReservedDuring(events, name, start, end, own)
        == ReservedDuring(events[..n], name, start, end, own)
           + if Some(n) != own then HeldDuring(events[n], name, start, end) else 0
  {
    var n, held := |events| - 1, (ev: Event) => HeldDuring(ev, name, start, end);
    ReservedAsFamily(events, name, start, end, own, held);
    ReservedAsFamily(events[..n], name, start, end, own, held);
    SumOfLonger(events, own, held);
  }

  lemma OneEventKeeps(ev: Event, name: string, start: int, end: int)
    ensures HeldDuring(ev, name, start, end)
      == if ev.request.Some? && ev.start < end && start < ev.end then Kept(ev.request.value.items, name) else 0
  {
    if ev.request.Some? {
      HeldIsKept(ev.request.value.items, name);
    }
  }

  lemma {:induction false} ReservedIsKept(events: seq<Event>, name: string, start: int, end: int, own: Option<nat>)
    ensures ReservedDuring(events, name, start, end, own) == KeptBeside(events, own, start, end, name)
  {
    if events != [] {
      var n := |events| - 1;
      ReservedIsKept(events[..n], name, start, end, own);
      LastIsAdded(events, name, start, end, own);
      OneEventKeeps(events[n], name, start, end);
    }
  }

  lemma PartialMeansRequested(items: seq<Item>)
    ensures IsPartial(items) <==> !NoneRequested(items)
    ensures forall i :: 0 <= i < |items| ==> (Listed(items[i], IsPartial(items)) <==> Decided(items, i))
  {
    if !NoneRequested(items) {
      var j :| 0 <= j < |items| && items[j].line.Some? && items[j].line.value.status == Requested;
      assert IsRequested(items[j]);
    }
  }

  /** Two non-empty windows overlap exactly when they share an instant. */
  lemma OverlapMeansCommonInstant(ev: Event, start: int, end: int)
    requires ev.start < ev.end && start < end
    ensures Overlaps(ev, start, end) <==> exists t: int :: start <= t < end && Covers(ev, t)
  {
    if Overlaps(ev, start, end) {
      var t := if start < ev.start then ev.start else start;
      assert start <= t < end && Covers(ev, t);
    }
  }

  lemma DecidedDemandIsPositive(items: seq<Item>, i: nat)
    requires i < |items| && Decided(items, i)
    ensures Demand(items, !NoneRequested(items), items[i].name) > 0
  {
    PartialMeansRequested(items);
    SumContains(|items|, (k: nat) =>
      if k < |items| then ItemDemand(items[k], !NoneRequested(items), items[i].name) else 0, i);
  }

  lemma SufficesMeansFits(s: State, e: nat, i: nat)
    requires HasRequest(s, e) && i < |ItemsOf(s, e)| && Decided(ItemsOf(s, e), i)
    ensures Suffices(s, e, ItemsOf(s, e), ItemsOf(s, e)[i].name) <==> Fits(s, e, ItemsOf(s, e)[i].name)
  {
    var items, ev := ItemsOf(s, e), s.events[e];
    PartialMeansRequested(items);
    DecidedDemandIsPositive(items, i);
    DemandIsAsked(items, IsPartial(items), items[i].name);
    ReservedIsKept(s.events, items[i].name, ev.start, ev.end, if IsPartial(items) then None else Some(e));
  }

  /** A reservation is accepted exactly when the request is decidable and every decided item's name fits. */
  lemma ReserveIsAccepted(s: State, e: nat)
    ensures Reserve(s, e).Done? <==>
      && Decidable(s, e)
      && forall i :: 0 <= i < |ItemsOf(s, e)| && Decided(ItemsOf(s, e), i) ==> Fits(s, e, ItemsOf(s, e)[i].name)
    ensures Reserve(s, e).Done?
      || Reserve(s, e) == Refused(if Decidable(s, e) then InsufficientActiveStock else WhyUndecidable(s, e))
  {
    if HasRequest(s, e) {
      var items := ItemsOf(s, e);
      PartialMeansRequested(items);
      forall i | 0 <= i < |items| && Decided(items, i)
        ensures Suffices(s, e, items, items[i].name) <==> Fits(s, e, items[i].name)
      {
        SufficesMeansFits(s, e, i);
      }
    }
  }

  /** It leaves every decided item with a Reserved line of its name and quantity, and every other item as it was. */
  lemma ReserveReserves(s: State, e: nat)
    requires Reserve(s, e).Done?
    ensures HasRequest(s, e)
    ensures var items, after := ItemsOf(s, e), Reserve(s, e).state;
      && OnlyEvent(s, after, e) && HasRequest(after, e) && after.nextItem == s.nextItem
      && after.events[e].status == s.events[e].status && after.events[e].request.value.status == RequestReserved
      && |ItemsOf(after, e)| == |items|
      && forall i :: (0 <= i < |items| ==>
           ItemsOf(after, e)[i]
             == if Decided(items, i) then items[i].(line := Some(Line(items[i].name, items[i].quantity, Reserved)))
                else items[i])
  {
    PartialMeansRequested(ItemsOf(s, e));
  }

  /** Every line with one of these statuses takes the new one; nothing else of any item changes. */
  ghost predicate LinesMoved(before: seq<Item>, after: seq<Item>, from: set<LineStatus>, to: LineStatus) {
    && OnlyStatuses(before, after)
    && forall i :: (0 <= i < |before| && before[i].line.Some? ==>
         after[i].line.value.status == if before[i].line.value.status in from then to else before[i].line.value.status)
  }

  /**
   Cannot Provide is accepted exactly when the request is decidable. It makes Requested lines Unavailable, or Reserved
   ones when there was no Requested line.
   */
  lemma CannotProvideRetires(s: State, e: nat)
    ensures MarkCannotProvide(s, e).Done? <==> Decidable(s, e)
    ensures !Decidable(s, e) ==> MarkCannotProvide(s, e) == Refused(WhyUndecidable(s, e))
    ensures MarkCannotProvide(s, e).Done? ==>
      var items, after := ItemsOf(s, e), MarkCannotProvide(s, e).state;
      && OnlyEvent(s, after, e) && HasRequest(after, e) && after.nextItem == s.nextItem
      && after.events[e].status == s.events[e].status && after.events[e].request.value.status == CannotProvide
      && LinesMoved(items, ItemsOf(after, e), if NoneRequested(items) then {Reserved} else {Requested}, Unavailable)
  {
    if HasRequest(s, e) {
      PartialMeansRequested(ItemsOf(s, e));
    }
  }

  // ------------------------------------------------------------------ what planning, safety and cancellation do

  /** A new time always succeeds: lines are Released exactly where they were Reserved and the window grew. */
  lemma RescheduleMoves(s: State, e: nat, start: int, end: int)
    ensures Reschedule(s, e, start, end).Done? <==> e < |s.events|
    ensures e >= |s.events| ==> Reschedule(s, e, start, end) == Refused(EventNotFound)
    ensures Reschedule(s, e, start, end).Done? && HasRequest(s, e) ==>
      var before, after := s.events[e], Reschedule(s, e, start, end).state;
      && HasRequest(after, e) && after.events[e].start == start && after.events[e].end == end
      && after.events[e].request.value.status == (if before.request.value.status == RequestReserved then PendingReview
                                                  else before.request.value.status)
      && LinesMoved(ItemsOf(s, e), ItemsOf(after, e),
                    if before.start <= start && end <= before.end then {} else {Reserved}, Released)
  {
  }

  /** A safety response makes the selected Reserved lines Requested, and the request pending if it selected a line. */
  lemma SendBackMoves(s: State, e: nat, selected: set<nat>)
    ensures SendBack(s, e, selected).Done? <==> HasRequest(s, e)
    ensures !HasRequest(s, e) ==> SendBack(s, e, selected) == Refused(RequestNotFound)
    ensures HasRequest(s, e) ==>
      var items, after := ItemsOf(s, e), SendBack(s, e, selected).state;
      && OnlyEvent(s, after, e) && HasRequest(after, e) && after.events[e].status == s.events[e].status
      && after.events[e].request.value.status == (if UnderReview(items, selected) then PendingReview
                                                  else s.events[e].request.value.status)
      && OnlyStatuses(items, ItemsOf(after, e))
      && forall i :: (0 <= i < |items| && items[i].line.Some? ==>
           ItemsOf(after, e)[i].line.value.status ==
             if items[i].id in selected && items[i].line.value.status == Reserved then Requested
             else items[i].line.value.status)
  {
  }

  /** Cancelling releases every line that is Requested, Reserved or Unavailable and leaves the request's status. */
  lemma CancelReleases(s: State, e: nat)
    ensures Cancel(s, e).Done? <==>
      && e < |s.events| && s.events[e].status != EventStatus.Rejected
      && s.events[e].status != EventStatus.Completed && s.events[e].status != EventStatus.Cancelled
    ensures Cancel(s, e).Done? || Cancel(s, e) == Refused(if e >= |s.events| then EventNotFound else NotCancellable)
    ensures Cancel(s, e).Done? ==>
      var after := Cancel(s, e).state;
      && OnlyEvent(s, after, e) && after.events[e].status == EventStatus.Cancelled
      && (HasRequest(after, e) <==> HasRequest(s, e))
      && (HasRequest(s, e) ==>
            && after.events[e].request.value.status == s.events[e].request.value.status
            && LinesMoved(ItemsOf(s, e), ItemsOf(after, e), {Requested, Reserved, Unavailable}, Released))
  {
    if e < |s.events| {
      CancellableUnlessOver(s.events[e].status);
    }
  }

  /** Only an Unavailable line of an event in Planning is removed, and the item stays without it. */
  lemma RemoveLineRemoves(s: State, e: nat, i: nat)
    ensures RemoveLine(s, e, i).Done? <==>
      && HasRequest(s, e) && i < |ItemsOf(s, e)| && ItemsOf(s, e)[i].line.Some?
      && s.events[e].status == EventStatus.Planning && ItemsOf(s, e)[i].line.value.status == Unavailable
    ensures RemoveLine(s, e, i).Done? || RemoveLine(s, e, i) == Refused(
      if !HasRequest(s, e) || i >= |ItemsOf(s, e)| || ItemsOf(s, e)[i].line.None? then LineNotFound
      else if s.events[e].status != EventStatus.Planning then EventNotOpen else LineNotRemovable)
    ensures RemoveLine(s, e, i).Done? ==>
      var after := RemoveLine(s, e, i).state;
      && OnlyEvent(s, after, e) && HasRequest(after, e)
      && after.events[e].status == s.events[e].status
      && after.events[e].request.value.status == s.events[e].request.value.status
      && |ItemsOf(after, e)| == |ItemsOf(s, e)| && ItemsOf(after, e)[i] == ItemsOf(s, e)[i].(line := None)
      && forall j :: 0 <= j < |ItemsOf(s, e)| && j != i ==> ItemsOf(after, e)[j] == ItemsOf(s, e)[j]
  {
  }

  /** Status changes of a live event, new events and the inventory: each writes its own column and nothing else. */
  lemma OtherWriters(s: State, e: nat, status: EventStatus, start: int, end: int, inventory: Inventory)
    ensures Apply(s, MoveStatus(e, status)).Done?
      <==> e < |s.events| && s.events[e].status != EventStatus.Cancelled
    ensures Apply(s, MoveStatus(e, status)).Done? ==>
      Apply(s, MoveStatus(e, status)).state
        == s.(events := s.events[e := Event(status, s.events[e].start, s.events[e].end, s.events[e].request)])
    ensures Apply(s, NewEvent(start, end))
      == Done(s.(events := s.events + [Event(EventStatus.Submitted, start, end, None)]))
    ensures Apply(s, Restock(inventory)) == Done(s.(inventory := inventory))
  {
  }
}
