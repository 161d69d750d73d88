/**
 Stock is never over-committed: the allocator's overlap sum bounds what is held at every single instant, and every other
 step only gives holds up. Also what the review queue and the availability read say about the same decision.
 */
module StockBound {
  import opened Wrappers
  import opened EventTypes
  import opened Sums
  import opened EquipmentStock

  /** At every instant, what is Reserved of each name is at most its active stock. */
  ghost predicate WithinStock(s: State) {
    forall name, t: int {:trigger HeldAt(s.events, name, t)} ::
      HeldAt(s.events, name, t) <= ActiveStock(s.inventory, name)
  }

  // ------------------------------------------------------------------ steps that only give holds up

  /** The event holds no more than before at this instant. */
  predicate HoldsNoMore(before: Event, after: Event, name: string, t: int) {
    HeldIn(after, name, t) <= HeldIn(before, name, t)
  }

  lemma EventReplaced(events: seq<Event>, e: nat, ev: Event, name: string, t: int)
    requires e < |events| && HoldsNoMore(events[e], ev, name, t)
    ensures HeldAt(events[e := ev], name, t) <= HeldAt(events, name, t)
  {
    var after := events[e := ev];
    SumMonotone(|events|, (i: nat) => if i < |after| then HeldIn(after[i], name, t) else 0,
                (i: nat) => if i < |events| then HeldIn(events[i], name, t) else 0);
  }

  lemma ItemsHoldNoMore(before: seq<Item>, after: seq<Item>, name: string)
    requires |before| == |after|
    requires forall i :: 0 <= i < |before| ==> LineHeld(after[i], name) <= LineHeld(before[i], name)
    ensures ItemsHeld(after, name) <= ItemsHeld(before, name)
  {
    SumMonotone(|before|, (i: nat) => if i < |after| then LineHeld(after[i], name) else 0,
                (i: nat) => if i < |before| then LineHeld(before[i], name) else 0);
  }

  lemma NothingHeld(items: seq<Item>, name: string)
    requires forall i :: 0 <= i < |items| ==> LineHeld(items[i], name) == 0
    ensures ItemsHeld(items, name) == 0
  {
    SumZero(|items|, (i: nat) => if i < |items| then LineHeld(items[i], name) else 0);
  }

  lemma RestatusHoldsNoMore(items: seq<Item>, from: set<LineStatus>, to: LineStatus, name: string)
    requires to != Reserved
    ensures ItemsHeld(RestatusAll(items, from, to), name) <= ItemsHeld(items, name)
    ensures Reserved in from ==> ItemsHeld(RestatusAll(items, from, to), name) == 0
  {
    ItemsHoldNoMore(items, RestatusAll(items, from, to), name);
    if Reserved in from {
      NothingHeld(RestatusAll(items, from, to), name);
    }
  }

  lemma EventAppended(events: seq<Event>, ev: Event, name: string, t: int)
    requires ev.request.None?
    ensures HeldAt(events + [ev], name, t) == HeldAt(events, name, t)
  {
    var after := events + [ev];
    SumEqual(|events|, (i: nat) => if i < |after| then HeldIn(after[i], name, t) else 0,
             (i: nat) => if i < |events| then HeldIn(events[i], name, t) else 0);
  }

  lemma ChangesItsEvent(s: State, op: Op)
    requires Apply(s, op).Done? && !op.NewEvent? && !op.Restock?
    ensures op.event < |s.events| && |Step(s, op).events| == |s.events|
    ensures Step(s, op).events == s.events[op.event := Step(s, op).events[op.event]]
  {
  }

  lemma UpdateGivesUp(s: State, e: nat, input: seq<SubmittedItem>, flagged: set<nat>, name: string, t: int)
    requires Update(s, e, input, flagged).Done?
    ensures e < |Update(s, e, input, flagged).state.events|
    ensures HoldsNoMore(s.events[e], Update(s, e, input, flagged).state.events[e], name, t)
  {
    NothingHeld(NewItems(input, s.nextItem), name);
    if NamesEveryItem(input, ItemsOf(s, e)) {
      ItemsHoldNoMore(ItemsOf(s, e), ReviseFlagged(input, ItemsOf(s, e), flagged), name);
    }
  }

  lemma RescheduleGivesUp(s: State, e: nat, start: int, end: int, name: string, t: int)
    requires Reschedule(s, e, start, end).Done?
    ensures HoldsNoMore(s.events[e], Reschedule(s, e, start, end).state.events[e], name, t)
  {
    if HasRequest(s, e) {
      RestatusHoldsNoMore(ItemsOf(s, e), {Reserved}, Released, name);
    }
  }

  lemma LinesGiveUp(s: State, e: nat, selected: set<nat>, i: nat, name: string, t: int)
    requires e < |s.events|
    ensures SendBack(s, e, selected).Done?
      ==> HoldsNoMore(s.events[e], SendBack(s, e, selected).state.events[e], name, t)
    ensures RemoveLine(s, e, i).Done? ==> HoldsNoMore(s.events[e], RemoveLine(s, e, i).state.events[e], name, t)
  {
    if HasRequest(s, e) {
      ItemsHoldNoMore(ItemsOf(s, e), ItemsOf(SendBack(s, e, selected).state, e), name);
    }
    if RemoveLine(s, e, i).Done? {
      ItemsHoldNoMore(ItemsOf(s, e), ItemsOf(RemoveLine(s, e, i).state, e), name);
    }
  }

  lemma ItsEventGivesUp(s: State, op: Op, name: string, t: int)
    requires Apply(s, op).Done? && !op.ReserveOp? && !op.NewEvent? && !op.Restock?
    requires op.event < |s.events| && |Step(s, op).events| == |s.events|
    ensures HoldsNoMore(s.events[op.event], Step(s, op).events[op.event], name, t)
  {
    match op
    case SubmitOp(e, input) => NothingHeld(NewItems(input, s.nextItem), name);
    case UpdateOp(e, input, flagged) => UpdateGivesUp(s, e, input, flagged, name, t);
    case CannotProvideOp(e) =>
      RestatusHoldsNoMore(ItemsOf(s, e), {Requested}, Unavailable, name);
      RestatusHoldsNoMore(ItemsOf(s, e), {Requested, Reserved}, Unavailable, name);
    case RescheduleOp(e, start, end) => RescheduleGivesUp(s, e, start, end, name, t);
    case SendBackOp(e, selected) => LinesGiveUp(s, e, selected, 0, name, t);
    case CancelOp(e) =>
      if HasRequest(s, e) {
        RestatusHoldsNoMore(ItemsOf(s, e), {Requested, Reserved, Unavailable}, Released, name);
      }
    case RemoveLineOp(e, i) => LinesGiveUp(s, e, {}, i, name, t);
    case MoveStatus(e, status) =>
  }

  /** Every transaction but a reservation leaves its event holding no more than before, and no other event changed. */
  lemma EventGivesUp(s: State, op: Op, name: string, t: int)
    requires Apply(s, op).Done? && !op.ReserveOp? && !op.NewEvent? && !op.Restock?
    ensures op.event < |s.events| && |Step(s, op).events| == |s.events|
    ensures Step(s, op).events == s.events[op.event := Step(s, op).events[op.event]]
    ensures HoldsNoMore(s.events[op.event], Step(s, op).events[op.event], name, t)
  {
    ChangesItsEvent(s, op);
    ItsEventGivesUp(s, op, name, t);
  }

  // ------------------------------------------------------------------ a reservation

  /** The items of an event after its reservation hold what they held when decided in part, plus the demand. */
  lemma ReservedHolds(items: seq<Item>, name: string)
    ensures ItemsHeld(ReservedItems(items), name)
         == Demand(items, IsPartial(items), name) + if IsPartial(items) then ItemsHeld(items, name) else 0
  {
    var after, partial := ReservedItems(items), IsPartial(items);
    var held := (i: nat) => if i < |items| && partial then LineHeld(items[i], name) else 0;
    var demand := (i: nat) => if i < |items| then ItemDemand(items[i], partial, name) else 0;
    SumAdds(|items|, held, demand, (i: nat) => if i < |after| then LineHeld(after[i], name) else 0);
    if partial {
      SumEqual(|items|, held, (i: nat) => if i < |items| then LineHeld(items[i], name) else 0);
    } else {
      SumZero(|items|, held);
    }
  }

  /** At an instant of its window, an event that covers it also overlaps the window. */
  lemma InstantsWithinOverlap(ev: Event, start: int, end: int, name: string, t: int)
    requires start <= t < end
    ensures HeldIn(ev, name, t) <= HeldDuring(ev, name, start, end)
  {
  }

  /** The overlap sum the allocator checks, plus the demand, bounds the holds at every instant of the window. */
  lemma OverlapSumBoundsInstants(s: State, e: nat, name: string, t: int)
    requires HasRequest(s, e) && Covers(s.events[e], t)
    ensures var items := ItemsOf(s, e);
      var after := WithRequest(s, e, Request(RequestReserved, ReservedItems(items)));
      HeldAt(after.events, name, t)
        <= ReservedDuring(s.events, name, s.events[e].start, s.events[e].end,
                          if IsPartial(items) then None else Some(e))
           + Demand(items, IsPartial(items), name)
  {
    var ev, items := s.events[e], ItemsOf(s, e);
    var excluded := if IsPartial(items) then None else Some(e);
    var after := WithRequest(s, e, Request(RequestReserved, ReservedItems(items))).events;
    var counted: nat -> nat := (i: nat) =>
      if i < |s.events| && Some(i) != excluded then HeldDuring(s.events[i], name, ev.start, ev.end) else 0;
    var withDemand: nat -> nat := (i: nat) => counted(i) + if i == e then Demand(items, IsPartial(items), name) else 0;
    SumChangedAt(|s.events|, counted, withDemand, e);
    ReservedHolds(items, name);
    forall i: nat | i < |s.events| ensures (if i < |after| then HeldIn(after[i], name, t) else 0) <= withDemand(i) {
      InstantsWithinOverlap(s.events[i], ev.start, ev.end, name, t);
    }
    SumMonotone(|s.events|, (i: nat) => if i < |after| then HeldIn(after[i], name, t) else 0, withDemand);
  }

  lemma DemandMeansListed(items: seq<Item>, partial: bool, name: string)
    requires Demand(items, partial, name) > 0
    ensures exists i :: 0 <= i < |items| && Listed(items[i], partial) && items[i].name == name
  {
    if forall i :: 0 <= i < |items| ==> ItemDemand(items[i], partial, name) == 0 {
      SumZero(|items|, (i: nat) => if i < |items| then ItemDemand(items[i], partial, name) else 0);
    }
  }

  lemma DemandCoversItem(items: seq<Item>, partial: bool, i: nat)
    requires i < |items| && Listed(items[i], partial)
    ensures Demand(items, partial, items[i].name) >= items[i].quantity
  {
    SumContains(|items|, (k: nat) => if k < |items| then ItemDemand(items[k], partial, items[i].name) else 0, i);
  }

  /**
   A successful reservation puts every name it asks for within its stock at every instant of the event's window,
   whatever the state was before, even after the inventory was lowered.
   */
  lemma ReserveEstablishesTheBound(s: State, e: nat, name: string, t: int)
    requires Reserve(s, e).Done? && Covers(s.events[e], t)
    requires Demand(ItemsOf(s, e), IsPartial(ItemsOf(s, e)), name) > 0
    ensures HeldAt(Reserve(s, e).state.events, name, t) <= ActiveStock(s.inventory, name)
  {
    var items := ItemsOf(s, e);
    DemandMeansListed(items, IsPartial(items), name);
    assert Suffices(s, e, items, name);
    OverlapSumBoundsInstants(s, e, name, t);
  }

  lemma ReserveKeepsOthers(s: State, e: nat, name: string, t: int)
    requires Reserve(s, e).Done?
    requires !Covers(s.events[e], t) || Demand(ItemsOf(s, e), IsPartial(ItemsOf(s, e)), name) == 0
    ensures HeldAt(Reserve(s, e).state.events, name, t) <= HeldAt(s.events, name, t)
  {
    ReservedHolds(ItemsOf(s, e), name);
    EventReplaced(s.events, e, Reserve(s, e).state.events[e], name, t);
  }

  // ------------------------------------------------------------------ every run

  /** An inventory change that lowers, disables, renames or drops no stocked name. */
  ghost predicate LowersNothing(s: State, op: Op) {
    op.Restock? ==> forall name :: ActiveStock(s.inventory, name) <= ActiveStock(op.inventory, name)
  }

  ghost predicate NeverLowered(s: State, ops: seq<Op>)
    decreases |ops|
  {
    ops != [] ==> LowersNothing(s, ops[0]) && NeverLowered(Step(s, ops[0]), ops[1..])
  }

  lemma StepKeepsWithinStock(s: State, op: Op)
    requires WithinStock(s) && LowersNothing(s, op)
    ensures WithinStock(Step(s, op))
  {
    var after := Step(s, op);
    forall name, t: int ensures HeldAt(after.events, name, t) <= ActiveStock(after.inventory, name) {
      StepAt(s, op, name, t);
    }
  }

  lemma StepAt(s: State, op: Op, name: string, t: int)
    requires HeldAt(s.events, name, t) <= ActiveStock(s.inventory, name) && LowersNothing(s, op)
    ensures HeldAt(Step(s, op).events, name, t) <= ActiveStock(Step(s, op).inventory, name)
  {
    if Apply(s, op).Done? {
      if op.ReserveOp? {
        if Covers(s.events[op.event], t) && Demand(ItemsOf(s, op.event), IsPartial(ItemsOf(s, op.event)), name) > 0 {
          ReserveEstablishesTheBound(s, op.event, name, t);
        } else {
          ReserveKeepsOthers(s, op.event, name, t);
        }
      } else if op.NewEvent? {
        EventAppended(s.events, Event(EventStatus.Submitted, op.start, op.end, None), name, t);
      } else if !op.Restock? {
        EventGivesUp(s, op, name, t);
        EventReplaced(s.events, op.event, Step(s, op).events[op.event], name, t);
      }
    }
  }

  /**
   Over every run of submissions, updates, decisions, reschedules, safety responses, cancellations and removals in
   which the inventory is not lowered, no name is over-committed at any instant.
   */
  lemma {:induction false} NeverOverCommitted(s: State, ops: seq<Op>)
    requires WithinStock(s) && NeverLowered(s, ops)
    ensures WithinStock(Run(s, ops))
    decreases |ops|
  {
    if ops != [] {
      StepKeepsWithinStock(s, ops[0]);
      NeverOverCommitted(Step(s, ops[0]), ops[1..]);
    }
  }

  lemma EmptyStateIsWithinStock(inventory: Inventory)
    ensures WithinStock(State([], inventory, 0))
  {
  }

  /** The bound needs that premise: lowering the stock under a live reservation breaks it. */
  lemma LoweringBreaksTheBound()
    ensures var item := Item(0, "Projector", "Visual", 1, Some(Line("Projector", 1, Reserved)));
      var ev := Event(EventStatus.Planning, 0, 2, Some(Request(RequestReserved, [item])));
      var s := State([ev], map["Projector" := Stock(1, true)], 1);
      && HeldAt(s.events, "Projector", 1) <= ActiveStock(s.inventory, "Projector")
      && HeldAt(Step(s, Restock(map["Projector" := Stock(0, true)])).events, "Projector", 1)
         > ActiveStock(Step(s, Restock(map["Projector" := Stock(0, true)])).inventory, "Projector")
  {
    var item := Item(0, "Projector", "Visual", 1, Some(Line("Projector", 1, Reserved)));
    var ev := Event(EventStatus.Planning, 0, 2, Some(Request(RequestReserved, [item])));
    SumOfOne(1, (i: nat) => if i < |[item]| then LineHeld([item][i], "Projector") else 0, 0);
    SumOfOne(1, (i: nat) => if i < |[ev]| then HeldIn([ev][i], "Projector", 1) else 0, 0);
  }

  // ------------------------------------------------------------------ what staff are shown

  /** The available quantity shown beside an item in the review queue, never negative. */
  function AvailableShown(s: State, e: nat, name: string): nat
    requires HasRequest(s, e)
  {
    var remaining := Remaining(s, e, IsPartial(ItemsOf(s, e)), name);
    if remaining < 0 then 0 else remaining
  }

  predicate MarkedSufficient(s: State, e: nat, item: Item)
    requires HasRequest(s, e)
  {
    AvailableShown(s, e, item.name) >= item.quantity
  }

  predicate DistinctNames(items: seq<Item>, partial: bool) {
    forall i, j :: 0 <= i < j < |items| && Listed(items[i], partial) && Listed(items[j], partial)
                   ==> items[i].name != items[j].name
  }

  /** Reserve's stock check compares each name's total with the very quantity shown for that name. */
  lemma StockCheckReadsTheQueue(s: State, e: nat)
    requires HasRequest(s, e)
    ensures var items := ItemsOf(s, e);
      StockSuffices(s, e, items) <==>
        forall i :: 0 <= i < |items| && Listed(items[i], IsPartial(items))
          ==> Demand(items, IsPartial(items), items[i].name) <= AvailableShown(s, e, items[i].name)
  {
    var items := ItemsOf(s, e);
    forall i | 0 <= i < |items| && Listed(items[i], IsPartial(items))
      ensures Suffices(s, e, items, items[i].name)
         <==> Demand(items, IsPartial(items), items[i].name) <= AvailableShown(s, e, items[i].name)
    {
      DemandCoversItem(items, IsPartial(items), i);
    }
  }

  predicate AllMarkedSufficient(s: State, e: nat)
    requires HasRequest(s, e)
  {
    var items := ItemsOf(s, e);
    forall i :: 0 <= i < |items| && Listed(items[i], IsPartial(items)) ==> MarkedSufficient(s, e, items[i])
  }

  /** A request passes reserve's stock check only if every item listed for it in the queue is marked sufficient. */
  lemma ReservableMeansAllSufficient(s: State, e: nat)
    requires HasRequest(s, e) && StockSuffices(s, e, ItemsOf(s, e))
    ensures AllMarkedSufficient(s, e)
  {
    var items := ItemsOf(s, e);
    forall i | 0 <= i < |items| && Listed(items[i], IsPartial(items)) ensures MarkedSufficient(s, e, items[i]) {
      DemandCoversItem(items, IsPartial(items), i);
      assert Suffices(s, e, items, items[i].name);
    }
  }

  lemma DemandOfOneItem(items: seq<Item>, partial: bool, i: nat)
    requires i < |items| && Listed(items[i], partial) && DistinctNames(items, partial)
    ensures Demand(items, partial, items[i].name) == items[i].quantity
  {
    SumOfOne(|items|, (k: nat) => if k < |items| then ItemDemand(items[k], partial, items[i].name) else 0, i);
  }

  /** With distinct names the queue's marks decide: reserve passes exactly when every listed item is sufficient. */
  lemma DistinctNamesMakeTheMarksExact(s: State, e: nat)
    requires HasRequest(s, e) && DistinctNames(ItemsOf(s, e), IsPartial(ItemsOf(s, e)))
    ensures StockSuffices(s, e, ItemsOf(s, e)) <==> AllMarkedSufficient(s, e)
  {
    var items := ItemsOf(s, e);
    StockCheckReadsTheQueue(s, e);
    forall i | 0 <= i < |items| && Listed(items[i], IsPartial(items))
      ensures Demand(items, IsPartial(items), items[i].name) == items[i].quantity
    {
      DemandOfOneItem(items, IsPartial(items), i);
    }
  }

  /** The marks and reserve's stock check say the same about this request under that inventory. */
  predicate MarksAgree(s: State, e: nat, inventory: Inventory)
    requires HasRequest(s, e)
  {
    var stocked := s.(inventory := inventory);
    StockSuffices(stocked, e, ItemsOf(s, e)) <==> AllMarkedSufficient(stocked, e)
  }

  /** What the overlap sum counts against the request. */
  function Taken(s: State, e: nat, name: string): nat
    requires HasRequest(s, e)
  {
    var ev := s.events[e];
    ReservedDuring(s.events, name, ev.start, ev.end, if IsPartial(ItemsOf(s, e)) then None else Some(e))
  }

  /** Stock that covers every name's total exactly, except one piece short of the given name's. */
  function OneShort(s: State, e: nat, short: string): Inventory
    requires HasRequest(s, e)
  {
    var items := ItemsOf(s, e);
    map i: nat | i < |items| ::
      items[i].name := Stock(OneShortOf(Taken(s, e, items[i].name), Demand(items, IsPartial(items), items[i].name),
                                        items[i].name == short), true)
  }

  function OneShortOf(taken: nat, demand: nat, short: bool): nat {
    if short && demand > 0 then taken + demand - 1 else taken + demand
  }

  lemma OneShortMisleads(s: State, e: nat, i: nat, j: nat)
    requires HasRequest(s, e) && i < j < |ItemsOf(s, e)| && ItemsOf(s, e)[i].name == ItemsOf(s, e)[j].name
    requires Listed(ItemsOf(s, e)[i], IsPartial(ItemsOf(s, e))) && Listed(ItemsOf(s, e)[j], IsPartial(ItemsOf(s, e)))
    ensures !MarksAgree(s, e, OneShort(s, e, ItemsOf(s, e)[i].name))
  {
    var items, short := ItemsOf(s, e), ItemsOf(s, e)[i].name;
    var partial, stocked := IsPartial(items), s.(inventory := OneShort(s, e, short));
    DemandCoversItem(items, partial, i);
    assert !Suffices(stocked, e, items, short);
    forall k | 0 <= k < |items| && Listed(items[k], partial) ensures MarkedSufficient(stocked, e, items[k]) {
      DemandCoversItem(items, partial, k);
      if items[k].name == short {
        var other := if k == i then j else i;
        TwoItemsDemand(items, partial, if k < other then k else other, if k < other then other else k);
      }
    }
  }

  lemma TwoItemsDemand(items: seq<Item>, partial: bool, i: nat, j: nat)
    requires i < j < |items| && Listed(items[i], partial) && Listed(items[j], partial) && items[i].name == items[j].name
    ensures items[i].quantity + items[j].quantity <= Demand(items, partial, items[i].name)
  {
    SumContainsTwo(|items|, (k: nat) => if k < |items| then ItemDemand(items[k], partial, items[i].name) else 0, i, j);
  }

  /** Distinct names are the whole condition: they are distinct exactly when the marks agree under every inventory. */
  lemma MarksAgreeIffDistinct(s: State, e: nat)
    requires HasRequest(s, e)
    ensures DistinctNames(ItemsOf(s, e), IsPartial(ItemsOf(s, e)))
      <==> forall inventory {:trigger MarksAgree(s, e, inventory)} :: MarksAgree(s, e, inventory)
  {
    var items := ItemsOf(s, e);
    if DistinctNames(items, IsPartial(items)) {
      forall inventory ensures MarksAgree(s, e, inventory) {
        DistinctNamesMakeTheMarksExact(s.(inventory := inventory), e);
      }
    } else {
      var i, j :| 0 <= i < j < |items| && Listed(items[i], IsPartial(items)) && Listed(items[j], IsPartial(items))
                  && items[i].name == items[j].name;
      OneShortMisleads(s, e, i, j);
    }
  }

  /** For example, two lines of three from a stock of five are each sufficient, yet reserve refuses them. */
  lemma SameNameTwiceMisleads(s: State, items: seq<Item>, name: string)
    requires |items| == 2
    requires forall i :: 0 <= i < 2 ==> items[i].name == name && items[i].quantity == 3 && IsRequested(items[i])
    requires s.events == [Event(EventStatus.Planning, 0, 2, Some(Request(PendingReview, items)))]
    requires s.inventory == map[name := Stock(5, true)]
    ensures MarkedSufficient(s, 0, items[0]) && MarkedSufficient(s, 0, items[1])
    ensures Reserve(s, 0) == Refused(InsufficientActiveStock)
  {
    assert IsRequested(items[0]);
    NothingHeld(items, name);
    SumZero(1, (i: nat) => if i < 1 && Some(i) != None then HeldDuring(s.events[0], name, 0, 2) else 0);
    SumEqual(1, (i: nat) => if i < 1 && Some(i) != None then HeldDuring(s.events[0], name, 0, 2) else 0,
             (i: nat) => if i < |s.events| && Some(i) != None then HeldDuring(s.events[i], name, 0, 2) else 0);
    DemandOfTwo(items, name);
    assert !Suffices(s, 0, items, items[0].name);
  }

  lemma DemandOfTwo(items: seq<Item>, name: string)
    requires |items| == 2
    requires forall i :: 0 <= i < 2 ==> items[i].name == name && items[i].quantity == 3 && IsRequested(items[i])
    ensures Demand(items, true, name) == 6
  {
    var f: nat -> nat := (i: nat) => if i < |items| then ItemDemand(items[i], true, name) else 0;
    assert Sum(2, f) == Sum(1, f) + f(1) && Sum(1, f) == Sum(0, f) + f(0);
  }

  /** The availability read for a window: every inventory name with the quantity it offers. */
  function Availability(s: State, start: int, end: int): map<string, nat> {
    map name | name in s.inventory ::
      var offered := ActiveStock(s.inventory, name) - ReservedDuring(s.events, name, start, end, None);
      if offered < 0 then 0 else offered
  }

  predicate OffersEnough(offered: map<string, nat>, items: seq<Item>) {
    forall i :: 0 <= i < |items| && Listed(items[i], IsPartial(items)) ==>
      items[i].name in offered && Demand(items, IsPartial(items), items[i].name) <= offered[items[i].name]
  }

  /**
   A request decided line by line passes exactly when the availability read for its window offers at least each listed
   name's total; one decided as a whole may pass on less, because its own holds are not counted against it.
   */
  lemma ReserveAgreesWithAvailability(s: State, e: nat)
    requires HasRequest(s, e)
    ensures var items, offered := ItemsOf(s, e), Availability(s, s.events[e].start, s.events[e].end);
      && (OffersEnough(offered, items) ==> StockSuffices(s, e, items))
      && (IsPartial(items) ==> (StockSuffices(s, e, items) <==> OffersEnough(offered, items)))
  {
    var items, start, end := ItemsOf(s, e), s.events[e].start, s.events[e].end;
    forall i | 0 <= i < |items| && Listed(items[i], IsPartial(items))
      ensures Demand(items, IsPartial(items), items[i].name) > 0
      ensures ReservedDuring(s.events, items[i].name, start, end, Some(e))
           <= ReservedDuring(s.events, items[i].name, start, end, None)
      ensures StockSuffices(s, e, items) ==> Suffices(s, e, items, items[i].name)
    {
      DemandCoversItem(items, IsPartial(items), i);
      ExcludingCountsLess(s.events, items[i].name, start, end, e);
    }
  }

  lemma ExcludingCountsLess(events: seq<Event>, name: string, start: int, end: int, e: nat)
    ensures ReservedDuring(events, name, start, end, Some(e)) <= ReservedDuring(events, name, start, end, None)
  {
    SumMonotone(|events|,
      (i: nat) => if i < |events| && Some(i) != Some(e) then HeldDuring(events[i], name, start, end) else 0,
      (i: nat) => if i < |events| && Some(i) != None then HeldDuring(events[i], name, start, end) else 0);
  }

  // ------------------------------------------------------------------ what a decision and a cancellation free

  predicate HasReserved(items: seq<Item>) {
    exists i :: 0 <= i < |items| && items[i].line.Some? && items[i].line.value.status == Reserved
  }

  /**
   Cannot Provide is documented to free the equipment fully. It does exactly when the request was not decided line by
   line or held nothing: beside a Requested line, a line that is already Reserved stays Reserved.
   */
  lemma CannotProvideFreesEverything(s: State, e: nat)
    requires MarkCannotProvide(s, e).Done?
    ensures var items, after := ItemsOf(s, e), ItemsOf(MarkCannotProvide(s, e).state, e);
      && !IsPartial(after)
      && (!HasReserved(after) <==> !IsPartial(items) || !HasReserved(items))
  {
    var items, after := ItemsOf(s, e), ItemsOf(MarkCannotProvide(s, e).state, e);
    if IsPartial(items) && HasReserved(items) {
      var i :| 0 <= i < |items| && items[i].line.Some? && items[i].line.value.status == Reserved;
      assert after[i].line == items[i].line;
    }
  }

  /** Two items reserved, one sent back by the Safety Officer, the request then refused. */
  ghost function PartialRefusal(input: seq<SubmittedItem>): seq<Op> {
    [NewEvent(0, 2), MoveStatus(0, EventStatus.Approved), SubmitOp(0, input), ReserveOp(0), SendBackOp(0, {1}),
     CannotProvideOp(0)]
  }

  /** Two items of one piece each, of different names. */
  ghost predicate IsPair(input: seq<SubmittedItem>) {
    |input| == 2 && input[0].quantity == 1 && input[1].quantity == 1 && input[0].name != input[1].name
  }

  /** The only event, with a pending request for the pair and stock for it. */
  ghost predicate PairPending(s: State, input: seq<SubmittedItem>) {
    && IsPair(input) && |s.events| == 1 && s.events[0].status == EventStatus.Planning
    && s.events[0].request == Some(Request(PendingReview, NewItems(input, 0)))
    && ActiveStock(s.inventory, input[0].name) == 1 && ActiveStock(s.inventory, input[1].name) == 1
  }

  lemma ReservesNothing(s: State, name: string)
    requires |s.events| == 1 && EventHeld(s.events[0], name) == 0
    ensures ReservedDuring(s.events, name, s.events[0].start, s.events[0].end, None) == 0
  {
    var ev := s.events[0];
    SumZero(|s.events|, (i: nat) =>
      if i < |s.events| && Some(i) != None then HeldDuring(s.events[i], name, ev.start, ev.end) else 0);
  }

  lemma PairSuffices(s: State, input: seq<SubmittedItem>)
    requires PairPending(s, input)
    ensures Reserve(s, 0).Done?
  {
    var items := NewItems(input, 0);
    assert IsRequested(items[0]);
    forall i | 0 <= i < 2 ensures Suffices(s, 0, items, items[i].name) {
      DemandOfOneItem(items, true, i);
      NothingHeld(items, items[i].name);
      ReservesNothing(s, items[i].name);
    }
  }

  /** From a pending pair: reserved, one line sent back, refused; the other line is still Reserved. */
  lemma PairRefused(s: State, input: seq<SubmittedItem>)
    requires PairPending(s, input)
    ensures var refused := Step(Step(Step(s, ReserveOp(0)), SendBackOp(0, {1})), CannotProvideOp(0));
      && HasRequest(refused, 0) && refused.events[0].request.value.status == CannotProvide
      && HasReserved(ItemsOf(refused, 0))
  {
    PairSuffices(s, input);
    var items := NewItems(input, 0);
    assert IsRequested(items[0]);
    var reserved := Step(s, ReserveOp(0));
    assert ItemsOf(reserved, 0) == [ReservedItem(items[0]), ReservedItem(items[1])];
    var sentBack := Step(reserved, SendBackOp(0, {1}));
    assert ItemsOf(sentBack, 0) == [ReservedItem(items[0]), items[1]];
    assert IsRequested(ItemsOf(sentBack, 0)[1]);
    var refused := Step(sentBack, CannotProvideOp(0));
    assert ItemsOf(refused, 0)[0] == ReservedItem(items[0]);
  }

  lemma PairSubmitted(inventory: Inventory, input: seq<SubmittedItem>)
    requires IsPair(input) && ActiveStock(inventory, input[0].name) == 1 && ActiveStock(inventory, input[1].name) == 1
    ensures var approved := Step(Step(State([], inventory, 0), NewEvent(0, 2)), MoveStatus(0, EventStatus.Approved));
      PairPending(Step(approved, SubmitOp(0, input)), input)
  {
  }

  /** The documented promise fails on a reachable state: the line that was not sent back is still Reserved. */
  lemma CannotProvideLeavesALine(inventory: Inventory, input: seq<SubmittedItem>)
    requires IsPair(input) && ActiveStock(inventory, input[0].name) == 1 && ActiveStock(inventory, input[1].name) == 1
    ensures var s := Run(State([], inventory, 0), PartialRefusal(input));
      HasRequest(s, 0) && s.events[0].request.value.status == CannotProvide && HasReserved(ItemsOf(s, 0))
  {
    var s0, ops := State([], inventory, 0), PartialRefusal(input);
    PairSubmitted(inventory, input);
    PairRefused(Step(Step(Step(s0, ops[0]), ops[1]), ops[2]), input);
    SixSteps(s0, ops);
  }

  lemma SixSteps(s: State, ops: seq<Op>)
    requires |ops| == 6
    ensures Run(s, ops) == Step(Step(Step(Step(Step(Step(s, ops[0]), ops[1]), ops[2]), ops[3]), ops[4]), ops[5])
  {
    ThreeSteps(s, ops);
    ThreeSteps(Step(Step(Step(s, ops[0]), ops[1]), ops[2]), ops[3..]);
  }

  lemma ThreeSteps(s: State, ops: seq<Op>)
    requires |ops| >= 3
    ensures Run(s, ops) == Run(Step(Step(Step(s, ops[0]), ops[1]), ops[2]), ops[3..])
  {
    var s1, s2 := Step(s, ops[0]), Step(Step(s, ops[0]), ops[1]);
    assert Run(s, ops) == Run(s1, ops[1..]);
    assert ops[1..][1..] == ops[2..] && ops[1..][0] == ops[1];
    assert Run(s1, ops[1..]) == Run(s2, ops[2..]);
    assert ops[2..][1..] == ops[3..] && ops[2..][0] == ops[2];
  }

  ghost predicate CancelledAndFree(s: State, e: nat) {
    && e < |s.events| && s.events[e].status == EventStatus.Cancelled
    && (HasRequest(s, e) ==> !HasReserved(ItemsOf(s, e)) && !IsPartial(ItemsOf(s, e)))
  }

  /** A cancelled event stays free of holds, except exactly when a reservation of its pending request is accepted. */
  lemma OnlyReserveRevives(s: State, op: Op, e: nat)
    requires CancelledAndFree(s, e)
    ensures CancelledAndFree(Step(s, op), e)
      <==> !(op == ReserveOp(e) && Reserve(s, e).Done? && ItemsOf(s, e) != [])
  {
    if op == ReserveOp(e) && Reserve(s, e).Done? && ItemsOf(s, e) != [] {
      var after := ItemsOf(Step(s, op), e);
      assert after[0].line.Some? && after[0].line.value.status == Reserved;
    }
  }

  lemma {:induction false} FreeStaysFree(s: State, ops: seq<Op>, e: nat)
    requires CancelledAndFree(s, e)
    requires forall k :: 0 <= k < |ops| ==> ops[k] != ReserveOp(e)
    ensures CancelledAndFree(Run(s, ops), e)
    decreases |ops|
  {
    if ops != [] {
      OnlyReserveRevives(s, ops[0], e);
      FreeStaysFree(Step(s, ops[0]), ops[1..], e);
    }
  }

  /** Whatever follows an accepted cancellation, short of reserving this event's request, no line of it is live. */
  lemma {:induction false} CancelledStaysFree(s: State, ops: seq<Op>, e: nat)
    requires Cancel(s, e).Done?
    requires forall k :: 0 <= k < |ops| ==> ops[k] != ReserveOp(e)
    ensures CancelledAndFree(Run(Step(s, CancelOp(e)), ops), e)
  {
    FreeStaysFree(Step(s, CancelOp(e)), ops, e);
  }

  /**
   The exception is real: reserve looks at the event only for Completed and Confirmed, so a request that was pending
   when its event was cancelled can still be reserved, whenever the stock suffices.
   */
  lemma ReserveIgnoresCancellation(s: State, e: nat)
    requires CancelledAndFree(s, e) && HasRequest(s, e) && s.events[e].request.value.status == PendingReview
    ensures Reserve(s, e).Done? <==> StockSuffices(s, e, ItemsOf(s, e))
    ensures Reserve(s, e).Done? ==>
      && Reserve(s, e).state.events[e].status == EventStatus.Cancelled
      && forall i :: 0 <= i < |ItemsOf(s, e)| ==> ItemsOf(Reserve(s, e).state, e)[i] == ReservedItem(ItemsOf(s, e)[i])
  {
  }

  /**
   A new time puts a Reserved request back into review. Inside the old window it keeps every hold; outside it frees
   exactly the Reserved lines, so nothing stays held.
   */
  lemma RescheduleKeepsOrFrees(s: State, e: nat, start: int, end: int, name: string)
    requires HasRequest(s, e)
    ensures var before, after := s.events[e], Reschedule(s, e, start, end).state.events[e];
      var inside := before.start <= start && end <= before.end;
      && after.start == start && after.end == end && after.status == before.status && after.request.Some?
      && after.request.value.status != RequestReserved
      && (before.request.value.status != RequestReserved ==> after.request.value.status == before.request.value.status)
      && EventHeld(after, name) == (if inside then EventHeld(before, name) else 0)
      && (inside ==> after.request.value.items == before.request.value.items)
      && (forall i :: 0 <= i < |before.request.value.items| ==>
            IsRequested(after.request.value.items[i]) == IsRequested(before.request.value.items[i]))
  {
    RestatusHoldsNoMore(ItemsOf(s, e), {Reserved}, Released, name);
  }

  /** A safety response reopens exactly the selected Reserved lines; holding less, it touches no other line. */
  lemma SendBackReopensExactly(s: State, e: nat, selected: set<nat>, i: nat)
    requires HasRequest(s, e) && i < |ItemsOf(s, e)|
    ensures var was, now := ItemsOf(s, e)[i], ItemsOf(SendBack(s, e, selected).state, e)[i];
      var reopened := was.line.Some? && was.line.value.status == Reserved && was.id in selected;
      && (reopened ==> IsRequested(now) && now.line.value == was.line.value.(status := Requested))
      && (!reopened ==> now == was)
      && (reopened ==> SendBack(s, e, selected).state.events[e].request.value.status == PendingReview)
  {
  }

  predicate AllListed(items: seq<Item>) {
    forall i :: 0 <= i < |items| ==> Listed(items[i], IsPartial(items))
  }

  /** The items of a request that was just reserved throughout, with the selected lines sent back. */
  function SentBack(items: seq<Item>, selected: set<nat>): seq<Item> {
    Returned(ReservedItems(items), selected)
  }

  lemma SentBackSplitsTheDemand(items: seq<Item>, selected: set<nat>, name: string)
    requires AllListed(items)
    ensures ItemsHeld(SentBack(items, selected), name) + Demand(SentBack(items, selected), true, name)
         == Demand(items, IsPartial(items), name)
  {
    var sent := SentBack(items, selected);
    SumAdds(|items|, (i: nat) => if i < |sent| then LineHeld(sent[i], name) else 0,
            (i: nat) => if i < |sent| then ItemDemand(sent[i], true, name) else 0,
            (i: nat) => if i < |items| then ItemDemand(items[i], IsPartial(items), name) else 0);
  }

  /** With its own holds counted, the event adds to the overlap sum at most what its items now hold. */
  lemma OwnHoldsAdd(events: seq<Event>, e: nat, now: Event, name: string, start: int, end: int, excluded: Option<nat>)
    requires e < |events| && (excluded == None || excluded == Some(e))
    ensures ReservedDuring(events[e := now], name, start, end, None)
         <= ReservedDuring(events, name, start, end, excluded) + EventHeld(now, name)
  {
    var after := events[e := now];
    SumChangedAt(|events|,
      (i: nat) => if i < |events| && Some(i) != excluded then HeldDuring(events[i], name, start, end) else 0,
      (i: nat) => if i < |after| && Some(i) != None then HeldDuring(after[i], name, start, end) else 0, e);
  }

  lemma SentBackSuffices(s: State, e: nat, sent: State, selected: set<nat>)
    requires HasRequest(s, e) && StockSuffices(s, e, ItemsOf(s, e)) && AllListed(ItemsOf(s, e))
    requires sent == WithRequest(s, e, Request(PendingReview, SentBack(ItemsOf(s, e), selected)))
    requires IsPartial(ItemsOf(sent, e))
    ensures StockSuffices(sent, e, ItemsOf(sent, e))
  {
    var items, now, ev := ItemsOf(s, e), ItemsOf(sent, e), s.events[e];
    forall i | 0 <= i < |now| ensures Suffices(sent, e, now, now[i].name) {
      var name := items[i].name;
      assert Suffices(s, e, items, name);
      SentBackSplitsTheDemand(items, selected, name);
      OwnHoldsAdd(s.events, e, sent.events[e], name, ev.start, ev.end, if IsPartial(items) then None else Some(e));
    }
  }

  lemma ReservedAgain(items: seq<Item>, selected: set<nat>)
    requires AllListed(items) && IsPartial(SentBack(items, selected))
    ensures ReservedItems(SentBack(items, selected)) == ReservedItems(items)
  {
  }

  lemma SelectingReopens(r: State, e: nat, selected: set<nat>, i: nat)
    requires HasRequest(r, e) && i < |ItemsOf(r, e)| && ItemsOf(r, e)[i].line.Some? && ItemsOf(r, e)[i].id in selected
    ensures SendBack(r, e, selected)
         == Done(WithRequest(r, e, Request(PendingReview, Returned(ItemsOf(r, e), selected))))
  {
  }

  /** With a selected line of the freshly reserved request sent back, the request is pending and decided in part. */
  lemma SentBackState(s: State, e: nat, selected: set<nat>, i: nat)
    requires Reserve(s, e).Done? && AllListed(ItemsOf(s, e))
    requires i < |ItemsOf(s, e)| && ItemsOf(s, e)[i].id in selected
    ensures IsPartial(SentBack(ItemsOf(s, e), selected))
    ensures SendBack(Reserve(s, e).state, e, selected)
         == Done(WithRequest(s, e, Request(PendingReview, SentBack(ItemsOf(s, e), selected))))
  {
    var items, reserved := ItemsOf(s, e), Reserve(s, e).state;
    assert IsRequested(SentBack(items, selected)[i]);
    assert ItemsOf(reserved, e) == ReservedItems(items);
    SelectingReopens(reserved, e, selected, i);
  }

  lemma ReserveOfPending(s: State, e: nat, items: seq<Item>)
    requires Undecidable(s, e).None?
    requires StockSuffices(WithRequest(s, e, Request(PendingReview, items)), e, items)
    ensures Reserve(WithRequest(s, e, Request(PendingReview, items)), e)
         == Done(WithRequest(s, e, Request(RequestReserved, ReservedItems(items))))
  {
  }

  /**
   Sending lines back undoes nothing for good: with no other step in between, the request is accepted again whatever
   was selected, and every line and the request's status are then what the first reservation left.
   */
  lemma ReserveAgainRestores(s: State, e: nat, selected: set<nat>, i: nat)
    requires Reserve(s, e).Done? && AllListed(ItemsOf(s, e))
    requires i < |ItemsOf(s, e)| && ItemsOf(s, e)[i].id in selected
    ensures SendBack(Reserve(s, e).state, e, selected).Done?
    ensures Reserve(SendBack(Reserve(s, e).state, e, selected).state, e) == Reserve(s, e)
  {
    var sent := WithRequest(s, e, Request(PendingReview, SentBack(ItemsOf(s, e), selected)));
    SentBackState(s, e, selected, i);
    SentBackSuffices(s, e, sent, selected);
    ReservedAgain(ItemsOf(s, e), selected);
    ReserveOfPending(s, e, SentBack(ItemsOf(s, e), selected));
  }

  /** A transaction changes at most the event it names. */
  lemma OtherEventsUntouched(s: State, op: Op, i: nat)
    requires i < |s.events| && (op.NewEvent? || op.Restock? || i != op.event)
    ensures i < |Step(s, op).events| && Step(s, op).events[i] == s.events[i]
  {
  }
}
