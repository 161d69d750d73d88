/**
 The equipment stock allocator: requests, their reservation lines and the inventory of every event together
 (backend/src/equipment/requests/equipment-requests.repository.ts, backend/src/equipment/equipment.service.ts and the
 planning, safety and cancellation steps that touch a reservation line). An event is an index, so is its one request;
 event windows are half-open intervals of instants.
 */
module EquipmentStock {
  import opened Wrappers
  import opened EventTypes
  import opened Sums

  type Quantity = q: nat | q > 0 witness 1

  datatype LineStatus = Requested | Reserved | Unavailable | Released

  datatype Line = Line(name: string, quantity: Quantity, status: LineStatus)

  /** A requested item and its reservation line, which an older or a removed line leaves absent. */
  datatype Item = Item(id: nat, name: string, kind: string, quantity: Quantity, line: Option<Line>)

  datatype RequestStatus = PendingReview | RequestReserved | CannotProvide

  datatype Request = Request(status: RequestStatus, items: seq<Item>)

  datatype Event = Event(status: EventStatus, start: int, end: int, request: Option<Request>)

  datatype Stock = Stock(active: nat, available: bool)

  type Inventory = map<string, Stock>

  datatype State = State(events: seq<Event>, inventory: Inventory, nextItem: nat)

  datatype SubmittedItem = SubmittedItem(id: Option<nat>, name: string, kind: string, quantity: Quantity)

  datatype Refusal =
    | RequestNotFound | EventNotFound | EventNotOpen | EventCompleted | EventConfirmed | AlreadySubmitted | NotPending
    | InsufficientActiveStock | InvalidSafetyReviewUpdate | NotCancellable | LineNotFound | LineNotRemovable

  datatype Result = Done(state: State) | Refused(reason: Refusal)

  // ------------------------------------------------------------------ quantities

  function ActiveStock(inventory: Inventory, name: string): nat {
    if name in inventory && inventory[name].available then inventory[name].active else 0
  }

  function LineHeld(item: Item, name: string): nat {
    if item.line.Some? && item.line.value.status == Reserved && item.line.value.name == name
    then item.line.value.quantity else 0
  }

  function ItemsHeld(items: seq<Item>, name: string): nat {
    Sum(|items|, (i: nat) => if i < |items| then LineHeld(items[i], name) else 0)
  }

  function EventHeld(ev: Event, name: string): nat {
    if ev.request.Some? then ItemsHeld(ev.request.value.items, name) else 0
  }

  predicate Covers(ev: Event, t: int) {
    ev.start <= t < ev.end
  }

  function HeldIn(ev: Event, name: string, t: int): nat {
    if Covers(ev, t) then EventHeld(ev, name) else 0
  }

  /** What is Reserved of a name at one instant, over all events. */
  function HeldAt(events: seq<Event>, name: string, t: int): nat {
    Sum(|events|, (i: nat) => if i < |events| then HeldIn(events[i], name, t) else 0)
  }

  predicate Overlaps(ev: Event, start: int, end: int) {
    ev.start < end && ev.end > start
  }

  function HeldDuring(ev: Event, name: string, start: int, end: int): nat {
    if Overlaps(ev, start, end) then EventHeld(ev, name) else 0
  }

  /** The database's sum over the events whose window overlaps; an excluded event is not counted. */
  function ReservedDuring(events: seq<Event>, name: string, start: int, end: int, excluded: Option<nat>): nat {
    Sum(|events|, (i: nat) =>
      if i < |events| && Some(i) != excluded then HeldDuring(events[i], name, start, end) else 0)
  }

  // ------------------------------------------------------------------ what one decision covers

  predicate IsRequested(item: Item) {
    item.line.Some? && item.line.value.status == Requested
  }

  /** A request with a Requested line is decided line by line; any other as a whole. */
  predicate IsPartial(items: seq<Item>) {
    exists i :: 0 <= i < |items| && IsRequested(items[i])
  }

  predicate Listed(item: Item, partial: bool) {
    partial ==> IsRequested(item)
  }

  function ItemDemand(item: Item, partial: bool, name: string): nat {
    if Listed(item, partial) && item.name == name then item.quantity else 0
  }

  function Demand(items: seq<Item>, partial: bool, name: string): nat {
    Sum(|items|, (i: nat) => if i < |items| then ItemDemand(items[i], partial, name) else 0)
  }

  /** Stock left for event e's request; its own Reserved lines count only when it is decided line by line. */
  function Remaining(s: State, e: nat, partial: bool, name: string): int
    requires e < |s.events|
  {
    var ev := s.events[e];
    ActiveStock(s.inventory, name)
      - ReservedDuring(s.events, name, ev.start, ev.end, if partial then None else Some(e))
  }

  predicate Suffices(s: State, e: nat, items: seq<Item>, name: string)
    requires e < |s.events|
  {
    Demand(items, IsPartial(items), name) <= Remaining(s, e, IsPartial(items), name)
  }

  predicate StockSuffices(s: State, e: nat, items: seq<Item>)
    requires e < |s.events|
  {
    forall i :: 0 <= i < |items| && Listed(items[i], IsPartial(items)) ==> Suffices(s, e, items, items[i].name)
  }

  // ------------------------------------------------------------------ the transactions

  predicate HasRequest(s: State, e: nat) {
    e < |s.events| && s.events[e].request.Some?
  }

  function ItemsOf(s: State, e: nat): seq<Item>
    requires HasRequest(s, e)
  {
    s.events[e].request.value.items
  }

  function WithRequest(s: State, e: nat, request: Request): State
    requires e < |s.events|
  {
    s.(events := s.events[e := s.events[e].(request := Some(request))])
  }

  function NewItem(submitted: SubmittedItem, id: nat): Item {
    Item(id, submitted.name, submitted.kind, submitted.quantity,
         Some(Line(submitted.name, submitted.quantity, Requested)))
  }

  function NewItems(input: seq<SubmittedItem>, firstId: nat): (items: seq<Item>)
    ensures |items| == |input|
  {
    seq(|input|, i requires 0 <= i < |input| => NewItem(input[i], firstId + i))
  }

  function Submit(s: State, e: nat, input: seq<SubmittedItem>): Result {
    if e >= |s.events| then Refused(EventNotFound)
    else if s.events[e].status !in {EventStatus.Approved, EventStatus.Planning} then Refused(EventNotOpen)
    else if s.events[e].request.Some? then Refused(AlreadySubmitted)
    else
      var next := WithRequest(s, e, Request(PendingReview, NewItems(input, s.nextItem)));
      Done(next.(events := next.events[e := next.events[e].(status := EventStatus.Planning)],
                 nextItem := s.nextItem + |input|))
  }

  function SubmittedFor(input: seq<SubmittedItem>, id: nat): Option<SubmittedItem> {
    if input == [] then None
    else if input[0].id == Some(id) then Some(input[0])
    else SubmittedFor(input[1..], id)
  }

  /** The submission names every current item exactly once, and no other. */
  predicate NamesEveryItem(input: seq<SubmittedItem>, items: seq<Item>) {
    && |input| == |items|
    && (forall i :: 0 <= i < |input| ==> input[i].id.Some?)
    && (forall i, j :: 0 <= i < j < |input| ==> input[i].id != input[j].id)
    && (forall i :: 0 <= i < |input| ==> exists j :: 0 <= j < |items| && items[j].id == input[i].id.value)
    && (forall j :: 0 <= j < |items| ==> SubmittedFor(input, items[j].id).Some?)
  }

  predicate SameArrangement(item: Item, submitted: SubmittedItem) {
    item.name == submitted.name && item.kind == submitted.kind && item.quantity == submitted.quantity
  }

  /** The Safety Officer's feedback selects a line; an item without a line cannot be selected. */
  predicate IsFlagged(item: Item, flagged: set<nat>) {
    item.line.Some? && item.id in flagged
  }

  predicate OnlyFlaggedChange(input: seq<SubmittedItem>, items: seq<Item>, flagged: set<nat>)
    requires NamesEveryItem(input, items)
  {
    forall j :: 0 <= j < |items| && !IsFlagged(items[j], flagged)
      ==> SameArrangement(items[j], SubmittedFor(input, items[j].id).value)
  }

  function Resubmitted(item: Item, submitted: SubmittedItem): Item {
    item.(name := submitted.name, kind := submitted.kind, quantity := submitted.quantity,
          line := Some(Line(submitted.name, submitted.quantity, Requested)))
  }

  function ReviseFlagged(input: seq<SubmittedItem>, items: seq<Item>, flagged: set<nat>): (revised: seq<Item>)
    requires NamesEveryItem(input, items)
    ensures |revised| == |items|
  {
    seq(|items|, j requires 0 <= j < |items| =>
      if IsFlagged(items[j], flagged) then Resubmitted(items[j], SubmittedFor(input, items[j].id).value) else items[j])
  }

  /** `flagged` are the items a rejected or changes-needed safety check selected. */
  function Update(s: State, e: nat, input: seq<SubmittedItem>, flagged: set<nat>): Result {
    if !HasRequest(s, e) then Refused(RequestNotFound)
    else if s.events[e].status == EventStatus.Completed then Refused(EventCompleted)
    else if s.events[e].status == EventStatus.Confirmed then Refused(EventConfirmed)
    else if s.events[e].status !in {EventStatus.Approved, EventStatus.Planning} then Refused(EventNotOpen)
    else
      var items := ItemsOf(s, e);
      if exists j :: 0 <= j < |items| && IsFlagged(items[j], flagged) then
        if !NamesEveryItem(input, items) || !OnlyFlaggedChange(input, items, flagged)
        then Refused(InvalidSafetyReviewUpdate)
        else Done(WithRequest(s, e, Request(PendingReview, ReviseFlagged(input, items, flagged))))
      else
        Done(WithRequest(s, e, Request(PendingReview, NewItems(input, s.nextItem)))
             .(nextItem := s.nextItem + |input|))
  }

  function ReservedItem(item: Item): Item {
    item.(line := Some(Line(item.name, item.quantity, Reserved)))
  }

  function ReservedItems(items: seq<Item>): (after: seq<Item>)
    ensures |after| == |items|
  {
    seq(|items|, i requires 0 <= i < |items| =>
      if Listed(items[i], IsPartial(items)) then ReservedItem(items[i]) else items[i])
  }

  function Undecidable(s: State, e: nat): Option<Refusal> {
    if !HasRequest(s, e) then Some(RequestNotFound)
    else if s.events[e].status == EventStatus.Completed then Some(EventCompleted)
    else if s.events[e].status == EventStatus.Confirmed then Some(EventConfirmed)
    else if s.events[e].request.value.status != PendingReview then Some(NotPending)
    else None
  }

  function Reserve(s: State, e: nat): Result {
    if Undecidable(s, e).Some? then Refused(Undecidable(s, e).value)
    else if !StockSuffices(s, e, ItemsOf(s, e)) then Refused(InsufficientActiveStock)
    else Done(WithRequest(s, e, Request(RequestReserved, ReservedItems(ItemsOf(s, e)))))
  }

  function Restatus(item: Item, from: set<LineStatus>, to: LineStatus): Item {
    if item.line.Some? && item.line.value.status in from
    then item.(line := Some(item.line.value.(status := to))) else item
  }

  function RestatusAll(items: seq<Item>, from: set<LineStatus>, to: LineStatus): (after: seq<Item>)
    ensures |after| == |items|
  {
    seq(|items|, i requires 0 <= i < |items| => Restatus(items[i], from, to))
  }

  function MarkCannotProvide(s: State, e: nat): Result {
    if Undecidable(s, e).Some? then Refused(Undecidable(s, e).value)
    else
      var items := ItemsOf(s, e);
      var retired := if IsPartial(items) then {Requested} else {Requested, Reserved};
      Done(WithRequest(s, e, Request(CannotProvide, RestatusAll(items, retired, Unavailable))))
  }

  /** A new time: a Reserved request is reviewed again, and a window that grew gives its lines up. */
  function Reschedule(s: State, e: nat, start: int, end: int): Result {
    if e >= |s.events| then Refused(EventNotFound)
    else
      var ev := s.events[e];
      var outside := start < ev.start || end > ev.end;
      var moved := ev.(start := start, end := end);
      var request :=
        if ev.request.None? then None
        else
          var r := ev.request.value;
          Some(Request(if r.status == RequestReserved then PendingReview else r.status,
                       if outside then RestatusAll(r.items, {Reserved}, Released) else r.items));
      Done(s.(events := s.events[e := moved.(request := request)]))
  }

  /** Items after a safety response that selected some of them: a selected Reserved line is Requested again. */
  function Returned(items: seq<Item>, selected: set<nat>): (after: seq<Item>)
    ensures |after| == |items|
  {
    seq(|items|, i requires 0 <= i < |items| =>
      if items[i].id in selected then Restatus(items[i], {Reserved}, Requested) else items[i])
  }

  /** The Safety Officer sends the selected Reserved lines back for review. */
  function SendBack(s: State, e: nat, selected: set<nat>): Result {
    if !HasRequest(s, e) then Refused(RequestNotFound)
    else
      var items := ItemsOf(s, e);
      var touched := exists i :: 0 <= i < |items| && items[i].line.Some? && items[i].id in selected;
      Done(WithRequest(s, e,
        Request(if touched then PendingReview else s.events[e].request.value.status, Returned(items, selected))))
  }

  function Cancel(s: State, e: nat): Result {
    if e >= |s.events| then Refused(EventNotFound)
    else if !IsCancellable(s.events[e].status) then Refused(NotCancellable)
    else
      var ev := s.events[e].(status := EventStatus.Cancelled);
      var request :=
        if ev.request.None? then None
        else Some(ev.request.value.(items :=
          RestatusAll(ev.request.value.items, {Requested, Reserved, Unavailable}, Released)));
      Done(s.(events := s.events[e := ev.(request := request)]))
  }

  /** Deletes the reservation line; the request keeps the item. */
  function RemoveLine(s: State, e: nat, i: nat): Result {
    if !HasRequest(s, e) || i >= |ItemsOf(s, e)| || ItemsOf(s, e)[i].line.None? then Refused(LineNotFound)
    else if s.events[e].status != EventStatus.Planning then Refused(EventNotOpen)
    else if ItemsOf(s, e)[i].line.value.status != Unavailable then Refused(LineNotRemovable)
    else
      var request := s.events[e].request.value;
      Done(WithRequest(s, e, request.(items := request.items[i := request.items[i].(line := None)])))
  }

  /** One committed transaction; the last three are what the rest of the system does to events and inventory. */
  datatype Op =
    | SubmitOp(event: nat, input: seq<SubmittedItem>)
    | UpdateOp(event: nat, input: seq<SubmittedItem>, flagged: set<nat>)
    | ReserveOp(event: nat)
    | CannotProvideOp(event: nat)
    | RescheduleOp(event: nat, start: int, end: int)
    | SendBackOp(event: nat, selected: set<nat>)
    | CancelOp(event: nat)
    | RemoveLineOp(event: nat, item: nat)
    | MoveStatus(event: nat, status: EventStatus)
    | NewEvent(start: int, end: int)
    | Restock(inventory: Inventory)

  function Apply(s: State, op: Op): Result {
    match op
    case SubmitOp(e, input) => Submit(s, e, input)
    case UpdateOp(e, input, flagged) => Update(s, e, input, flagged)
    case ReserveOp(e) => Reserve(s, e)
    case CannotProvideOp(e) => MarkCannotProvide(s, e)
    case RescheduleOp(e, start, end) => Reschedule(s, e, start, end)
    case SendBackOp(e, selected) => SendBack(s, e, selected)
    case CancelOp(e) => Cancel(s, e)
    case RemoveLineOp(e, i) => RemoveLine(s, e, i)
    case MoveStatus(e, status) =>
      if e >= |s.events| || s.events[e].status == EventStatus.Cancelled then Refused(EventNotFound)
      else Done(s.(events := s.events[e := s.events[e].(status := status)]))
    case NewEvent(start, end) => Done(s.(events := s.events + [Event(EventStatus.Submitted, start, end, None)]))
    case Restock(inventory) => Done(s.(inventory := inventory))
  }

  function Step(s: State, op: Op): State {
    var r := Apply(s, op);
    if r.Done? then r.state else s
  }

  function Run(s: State, ops: seq<Op>): State
    decreases |ops|
  {
    if ops == [] then s else Run(Step(s, ops[0]), ops[1..])
  }
}
