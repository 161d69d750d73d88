/**
 The request repository over its tables, each method one transaction under the event and request row locks
 (backend/src/equipment/requests/equipment-requests.repository.ts). Every method is proved against the transition of
 EquipmentStock it implements.
 */
module EquipmentRequests {
  import opened Wrappers
  import opened EventTypes
  import opened EquipmentStock
  import opened Lists
  import StockBound
  import EquipmentEffects

  // ------------------------------------------------------------------ item identifiers

  ghost predicate DistinctIds(items: seq<Item>) {
    forall i, j :: 0 <= i < j < |items| ==> items[i].id != items[j].id
  }

  /** Identifiers are the primary key: distinct within a request. */
  ghost predicate ItemIdsDistinct(s: State) {
    forall e :: 0 <= e < |s.events| && s.events[e].request.Some? ==> DistinctIds(s.events[e].request.value.items)
  }

  lemma StepKeepsIds(s: State, op: Op)
    requires ItemIdsDistinct(s)
    ensures ItemIdsDistinct(Step(s, op))
  {
    var after := Step(s, op);
    forall e | 0 <= e < |after.events| && after.events[e].request.Some?
      ensures DistinctIds(after.events[e].request.value.items)
    {
      StepKeepsIdsOf(s, op, e);
    }
  }

  lemma NewIdsDistinct(input: seq<SubmittedItem>, firstId: nat)
    ensures DistinctIds(NewItems(input, firstId))
  {
  }

  /** A request as submitted or updated holds new items, or the selected items rewritten under their identifiers. */
  lemma SubmissionKeepsIds(s: State, op: Op, e: nat)
    requires ItemIdsDistinct(s) && HasRequest(Step(s, op), e) && (op.SubmitOp? || op.UpdateOp?)
    ensures DistinctIds(ItemsOf(Step(s, op), e))
  {
    NewIdsDistinct(op.input, s.nextItem);
    if HasRequest(s, e) {
      assert DistinctIds(ItemsOf(s, e));
    }
  }

  /** Every other transaction keeps a request's items under their identifiers. */
  lemma SameIds(s: State, op: Op, e: nat)
    requires HasRequest(Step(s, op), e) && !op.SubmitOp? && !op.UpdateOp?
    ensures HasRequest(s, e) && |ItemsOf(Step(s, op), e)| == |ItemsOf(s, e)|
    ensures forall i :: 0 <= i < |ItemsOf(s, e)| ==> ItemsOf(Step(s, op), e)[i].id == ItemsOf(s, e)[i].id
  {
  }

  lemma StepKeepsIdsOf(s: State, op: Op, e: nat)
    requires ItemIdsDistinct(s) && HasRequest(Step(s, op), e)
    ensures DistinctIds(ItemsOf(Step(s, op), e))
  {
    if op.SubmitOp? || op.UpdateOp? {
      SubmissionKeepsIds(s, op, e);
    } else {
      SameIds(s, op, e);
      assert DistinctIds(ItemsOf(s, e));
    }
  }

  /** What every transaction keeps: identifiers are distinct and no name is over-committed. */
  ghost predicate Valid(s: State) {
    ItemIdsDistinct(s) && StockBound.WithinStock(s)
  }

  lemma StepKeepsValid(s: State, op: Op)
    requires Valid(s) && !op.Restock?
    ensures Valid(Step(s, op))
  {
    StepKeepsIds(s, op);
    StockBound.StepKeepsWithinStock(s, op);
  }

  // ------------------------------------------------------------------ matching a submission to the current items

  ghost function SubmittedIds(input: seq<SubmittedItem>): set<nat> {
    set i | 0 <= i < |input| && input[i].id.Some? :: input[i].id.value
  }

  ghost function Ids(items: seq<Item>): set<nat> {
    set i | 0 <= i < |items| :: items[i].id
  }

  lemma {:induction false} IdsCount(items: seq<Item>)
    requires DistinctIds(items)
    ensures |Ids(items)| == |items|
  {
    if items != [] {
      var last := |items| - 1;
      IdsCount(items[..last]);
      assert Ids(items) == Ids(items[..last]) + {items[last].id};
      assert items[last].id !in Ids(items[..last]);
    }
  }

  predicate AllDistinctIds(input: seq<SubmittedItem>) {
    && (forall i :: 0 <= i < |input| ==> input[i].id.Some?)
    && (forall i, j :: 0 <= i < j < |input| ==> input[i].id != input[j].id)
  }

  lemma {:induction false} FindsById(input: seq<SubmittedItem>, i: nat)
    requires i < |input| && AllDistinctIds(input)
    ensures SubmittedFor(input, input[i].id.value) == Some(input[i])
  {
    if i > 0 {
      assert input[1..][i - 1] == input[i];
      FindsById(input[1..], i - 1);
    }
  }

  lemma {:induction false} SubmittedIdsCount(input: seq<SubmittedItem>)
    ensures |SubmittedIds(input)| <= |input|
    ensures |SubmittedIds(input)| == |input| <==> AllDistinctIds(input)
  {
    if input != [] {
      var init, last := input[..|input| - 1], input[|input| - 1];
      SubmittedIdsCount(init);
      SubmittedIdsGrow(init, last);
      assert input == init + [last];
      DistinctIdsGrow(init, last);
    }
  }

  lemma SubmittedIdsGrow(input: seq<SubmittedItem>, row: SubmittedItem)
    ensures SubmittedIds(input + [row]) == SubmittedIds(input) + if row.id.Some? then {row.id.value} else {}
  {
    var more := input + [row];
    assert more[|input|] == row && forall k :: 0 <= k < |input| ==> more[k] == input[k];
    assert row.id.Some? ==> more[|input|].id.value in SubmittedIds(more);
    assert forall k :: 0 <= k < |input| && input[k].id.Some? ==> more[k].id.value in SubmittedIds(more);
  }

  lemma DistinctIdsGrow(input: seq<SubmittedItem>, row: SubmittedItem)
    ensures AllDistinctIds(input + [row])
      <==> AllDistinctIds(input) && row.id.Some? && row.id.value !in SubmittedIds(input)
  {
    var more := input + [row];
    assert more[|input|] == row && forall k :: 0 <= k < |input| ==> more[k] == input[k];
    if AllDistinctIds(more) {
      assert forall k :: 0 <= k < |input| ==> input[k].id != row.id;
    }
  }

  /** The size tests of the source decide whether the submission names every current item exactly once. */
  lemma SizesDecide(input: seq<SubmittedItem>, items: seq<Item>)
    requires DistinctIds(items)
    ensures var keys := SubmittedIds(input);
      NamesEveryItem(input, items) <==> |keys| == |input| && |keys| == |items| && keys <= Ids(items)
  {
    var keys := SubmittedIds(input);
    IdsCount(items);
    SubmittedIdsCount(input);
    if |keys| == |input| && |keys| == |items| && keys <= Ids(items) {
      EqualSizedSubset(keys, Ids(items));
      forall j | 0 <= j < |items| ensures SubmittedFor(input, items[j].id).Some? {
        assert items[j].id in keys;
        var i :| 0 <= i < |input| && input[i].id == Some(items[j].id);
        FindsById(input, i);
      }
      forall i | 0 <= i < |input| ensures exists j :: 0 <= j < |items| && items[j].id == input[i].id.value {
        assert input[i].id.value in keys;
      }
    }
  }

  /** Looking a current item up by identifier gives the submitted item meant for it. */
  predicate ByIdMatches(byId: map<nat, SubmittedItem>, input: seq<SubmittedItem>, items: seq<Item>) {
    forall j :: 0 <= j < |items| ==>
      items[j].id in byId && SubmittedFor(input, items[j].id) == Some(byId[items[j].id])
  }

  lemma ByIdFinds(byId: map<nat, SubmittedItem>, input: seq<SubmittedItem>, items: seq<Item>)
    requires DistinctIds(items) && NamesEveryItem(input, items) && byId.Keys == SubmittedIds(input)
    requires forall id :: id in byId ==> byId[id].id == Some(id) && byId[id] in input
    ensures ByIdMatches(byId, input, items)
  {
    SizesDecide(input, items);
    IdsCount(items);
    EqualSizedSubset(SubmittedIds(input), Ids(items));
    forall j | 0 <= j < |items|
      ensures items[j].id in byId && SubmittedFor(input, items[j].id) == Some(byId[items[j].id])
    {
      assert items[j].id in Ids(items);
      var i :| 0 <= i < |input| && input[i] == byId[items[j].id];
      FindsById(input, i);
    }
  }

  // ------------------------------------------------------------------ the repository

  class EquipmentRequestsRepository {
    var events: seq<Event>
    var inventory: Inventory
    var nextItem: nat

    ghost function View(): State
      reads this
    {
      State(events, inventory, nextItem)
    }

    constructor (inventory: Inventory)
      ensures View() == State([], inventory, 0) && Valid(View())
    {
      events, this.inventory, nextItem := [], inventory, 0;
      StockBound.EmptyStateIsWithinStock(inventory);
    }

    /** One item row and one Requested reservation row for each submitted item, in order. */
    method InsertItems(input: seq<SubmittedItem>) returns (items: seq<Item>)
      modifies `nextItem
      ensures items == NewItems(input, old(nextItem)) && nextItem == old(nextItem) + |input|
    {
      items := [];
      for i := 0 to |input|
        invariant |items| == i && nextItem == old(nextItem) + i
        invariant forall k :: 0 <= k < i ==> items[k] == NewItem(input[k], old(nextItem) + k)
      {
        items := items + [NewItem(input[i], nextItem)];
        nextItem := nextItem + 1;
      }
    }

    method Submit(e: nat, input: seq<SubmittedItem>) returns (refusal: Option<Refusal>)
      requires Valid(View())
      modifies this
      ensures View() == Step(old(View()), SubmitOp(e, input)) && Valid(View())
      ensures refusal.None? <==> EquipmentStock.Submit(old(View()), e, input).Done?
      ensures refusal.Some? ==> EquipmentStock.Submit(old(View()), e, input) == Refused(refusal.value)
      ensures refusal.None? ==>
        HasRequest(View(), e) && EquipmentEffects.HoldsSubmission(old(View()), View(), e, input)
    {
      StepKeepsValid(View(), SubmitOp(e, input));
      EquipmentEffects.SubmitStoresTheSubmission(View(), e, input, "");
      if e >= |events| { return Some(EventNotFound); }
      if events[e].status !in {EventStatus.Approved, EventStatus.Planning} { return Some(EventNotOpen); }
      if events[e].request.Some? { return Some(AlreadySubmitted); }
      var items := InsertItems(input);
      events := events[e := events[e].(request := Some(Request(PendingReview, items)))];
      if events[e].status == EventStatus.Approved {
        events := events[e := events[e].(status := EventStatus.Planning)];
      }
      refusal := None;
    }

    /** The submitted items that carry an identifier, by identifier. */
    method IndexById(input: seq<SubmittedItem>) returns (byId: map<nat, SubmittedItem>)
      ensures byId.Keys == SubmittedIds(input)
      ensures forall id :: id in byId ==> byId[id].id == Some(id) && byId[id] in input
    {
      byId := map[];
      for i := 0 to |input|
        invariant byId.Keys == SubmittedIds(input[..i])
        invariant forall id :: id in byId ==> byId[id].id == Some(id) && byId[id] in input
      {
        assert input[..i + 1] == input[..i] + [input[i]];
        SubmittedIdsGrow(input[..i], input[i]);
        if input[i].id.Some? {
          byId := byId[input[i].id.value := input[i]];
        }
      }
      assert input[..|input|] == input;
    }

    /** Items as the table returns them; the loop stops at the first unselected item the submission changes. */
    method ChangesOnlySelected(byId: map<nat, SubmittedItem>, ghost input: seq<SubmittedItem>, items: seq<Item>,
                               flagged: set<nat>)
      returns (ok: bool)
      requires NamesEveryItem(input, items) && ByIdMatches(byId, input, items)
      ensures ok <==> OnlyFlaggedChange(input, items, flagged)
    {
      for j := 0 to |items|
        invariant forall k :: 0 <= k < j && !IsFlagged(items[k], flagged)
                    ==> SameArrangement(items[k], SubmittedFor(input, items[k].id).value)
      {
        var submitted := byId[items[j].id];
        if !IsFlagged(items[j], flagged) && !SameArrangement(items[j], submitted) { return false; }
      }
      return true;
    }

    /** Rewrites each selected item and its line; every other row stays as it is. */
    method RewriteSelected(byId: map<nat, SubmittedItem>, ghost input: seq<SubmittedItem>, items: seq<Item>,
                           flagged: set<nat>)
      returns (revised: seq<Item>)
      requires NamesEveryItem(input, items) && ByIdMatches(byId, input, items)
      ensures revised == ReviseFlagged(input, items, flagged)
    {
      revised := items;
      for j := 0 to |items|
        invariant |revised| == |items| && revised[j..] == items[j..]
        invariant forall k :: 0 <= k < j ==> revised[k] == ReviseFlagged(input, items, flagged)[k]
      {
        assert revised[j] == revised[j..][0] == items[j];
        if IsFlagged(items[j], flagged) {
          var submitted := byId[items[j].id];
          revised := revised[j := Resubmitted(items[j], submitted)];
        }
        assert revised[j + 1..] == items[j..][1..] == items[j + 1..];
      }
    }

    /** The items as revised under a safety review, unless the submission does more than the review asked for. */
    method ReviseItems(input: seq<SubmittedItem>, items: seq<Item>, flagged: set<nat>)
      returns (revised: Option<seq<Item>>)
      requires DistinctIds(items)
      ensures revised.Some? <==> NamesEveryItem(input, items) && OnlyFlaggedChange(input, items, flagged)
      ensures revised.Some? ==> revised.value == ReviseFlagged(input, items, flagged)
    {
      var byId := IndexById(input);
      var existing := set j | 0 <= j < |items| :: items[j].id;
      assert existing == Ids(items) && |byId| == |byId.Keys|;
      SizesDecide(input, items);
      if |byId| != |input| || |byId| != |items| || !(byId.Keys <= existing) { return None; }
      ByIdFinds(byId, input, items);
      var ok := ChangesOnlySelected(byId, input, items, flagged);
      if !ok { return None; }
      var rewritten := RewriteSelected(byId, input, items, flagged);
      revised := Some(rewritten);
    }

    method Update(e: nat, input: seq<SubmittedItem>, flagged: set<nat>) returns (refusal: Option<Refusal>)
      requires Valid(View())
      modifies this
      ensures View() == Step(old(View()), UpdateOp(e, input, flagged)) && Valid(View())
      ensures refusal.None? <==> EquipmentStock.Update(old(View()), e, input, flagged).Done?
      ensures refusal.Some? ==> EquipmentStock.Update(old(View()), e, input, flagged) == Refused(refusal.value)
      ensures refusal.None? ==> HasRequest(old(View()), e) && HasRequest(View(), e)
      ensures refusal.None? ==>
        var before := ItemsOf(old(View()), e);
        if EquipmentEffects.UnderReview(before, flagged)
        then EquipmentEffects.RevisedAsAsked(input, before, ItemsOf(View(), e), flagged)
        else EquipmentEffects.HoldsSubmission(old(View()), View(), e, input)
    {
      StepKeepsValid(View(), UpdateOp(e, input, flagged));
      ghost var was := View();
      if EquipmentStock.Update(was, e, input, flagged).Done? {
        EquipmentEffects.UpdateKeepsTheRest(was, e, input, flagged);
        if EquipmentEffects.UnderReview(ItemsOf(was, e), flagged) {
          EquipmentEffects.ReviewRewritesTheSelected(was, e, input, flagged);
        } else {
          EquipmentEffects.UpdateStoresTheSubmission(was, e, input, flagged, "");
        }
      }
      refusal := UpdateRows(e, input, flagged);
    }

    method UpdateRows(e: nat, input: seq<SubmittedItem>, flagged: set<nat>) returns (refusal: Option<Refusal>)
      requires ItemIdsDistinct(View())
      modifies `events, `nextItem
      ensures refusal.None? <==> EquipmentStock.Update(old(View()), e, input, flagged).Done?
      ensures refusal.None? ==> View() == EquipmentStock.Update(old(View()), e, input, flagged).state
      ensures refusal.Some? ==>
        View() == old(View()) && EquipmentStock.Update(old(View()), e, input, flagged) == Refused(refusal.value)
    {
      if e >= |events| || events[e].request.None? { return Some(RequestNotFound); }
      if events[e].status == EventStatus.Completed { return Some(EventCompleted); }
      if events[e].status == EventStatus.Confirmed { return Some(EventConfirmed); }
      if events[e].status !in {EventStatus.Approved, EventStatus.Planning} { return Some(EventNotOpen); }
      var items := events[e].request.value.items;
      var written;
      if exists j :: 0 <= j < |items| && IsFlagged(items[j], flagged) {
        var revised := ReviseItems(input, items, flagged);
        if revised.None? { return Some(InvalidSafetyReviewUpdate); }
        written := revised.value;
      } else {
        written := InsertItems(input);
      }
      events := events[e := events[e].(request := Some(Request(PendingReview, written)))];
      refusal := None;
    }

    /** The first listed item whose name has less stock left than the request asks for in total. */
    method FindUnavailable(e: nat, items: seq<Item>) returns (name: Option<string>)
      requires e < |events|
      ensures name.None? <==> StockSuffices(View(), e, items)
      ensures name.Some? ==> !Suffices(View(), e, items, name.value)
    {
      var partial := IsPartial(items);
      for i := 0 to |items|
        invariant forall k :: 0 <= k < i && Listed(items[k], partial) ==> Suffices(View(), e, items, items[k].name)
      {
        if Listed(items[i], partial) {
          var remaining := Remaining(State(events, inventory, nextItem), e, partial, items[i].name);
          if remaining < Demand(items, partial, items[i].name) { return Some(items[i].name); }
        }
      }
      return None;
    }

    /** Inserts the missing lines, then refreshes every line the decision covers from its item. */
    method FillAndRefresh(items: seq<Item>) returns (reserved: seq<Item>)
      ensures reserved == ReservedItems(items)
    {
      var partial := IsPartial(items);
      var filled := seq(|items|, i requires 0 <= i < |items| =>
        if !partial && items[i].line.None? then ReservedItem(items[i]) else items[i]);
      reserved := seq(|filled|, i requires 0 <= i < |filled| =>
        if Listed(filled[i], partial) && filled[i].line.Some? then ReservedItem(filled[i]) else filled[i]);
    }

    method Reserve(e: nat) returns (refusal: Option<Refusal>, name: string)
      requires Valid(View())
      modifies this
      ensures View() == Step(old(View()), ReserveOp(e)) && Valid(View())
      ensures refusal.None? <==> EquipmentStock.Reserve(old(View()), e).Done?
      ensures refusal.Some? ==> EquipmentStock.Reserve(old(View()), e) == Refused(refusal.value)
      ensures refusal == Some(InsufficientActiveStock) ==>
        HasRequest(old(View()), e) && !Suffices(old(View()), e, ItemsOf(old(View()), e), name)
    {
      name := "";
      StepKeepsValid(View(), ReserveOp(e));
      if e >= |events| || events[e].request.None? { return Some(RequestNotFound), ""; }
      if events[e].status == EventStatus.Completed { return Some(EventCompleted), ""; }
      if events[e].status == EventStatus.Confirmed { return Some(EventConfirmed), ""; }
      if events[e].request.value.status != PendingReview { return Some(NotPending), ""; }
      var items := events[e].request.value.items;
      var unavailable := FindUnavailable(e, items);
      if unavailable.Some? { return Some(InsufficientActiveStock), unavailable.value; }
      var reserved := FillAndRefresh(items);
      events := events[e := events[e].(request := Some(Request(RequestReserved, reserved)))];
      refusal := None;
    }

    method MarkCannotProvide(e: nat) returns (refusal: Option<Refusal>)
      requires Valid(View())
      modifies this
      ensures View() == Step(old(View()), CannotProvideOp(e)) && Valid(View())
      ensures refusal.None? <==> EquipmentStock.MarkCannotProvide(old(View()), e).Done?
      ensures refusal.Some? ==> EquipmentStock.MarkCannotProvide(old(View()), e) == Refused(refusal.value)
    {
      StepKeepsValid(View(), CannotProvideOp(e));
      if e >= |events| || events[e].request.None? { return Some(RequestNotFound); }
      if events[e].status == EventStatus.Completed { return Some(EventCompleted); }
      if events[e].status == EventStatus.Confirmed { return Some(EventConfirmed); }
      if events[e].request.value.status != PendingReview { return Some(NotPending); }
      var items := events[e].request.value.items;
      var pending := exists i :: 0 <= i < |items| && IsRequested(items[i]);
      var retired := seq(|items|, i requires 0 <= i < |items| =>
        if IsRequested(items[i]) || (!pending && items[i].line.Some? && items[i].line.value.status == Reserved)
        then items[i].(line := Some(items[i].line.value.(status := Unavailable))) else items[i]);
      assert retired == RestatusAll(items, if pending then {Requested} else {Requested, Reserved}, Unavailable);
      events := events[e := events[e].(request := Some(Request(CannotProvide, retired)))];
      refusal := None;
    }
  }

  // ------------------------------------------------------------------ reading requests

  /** One joined row: the request it belongs to and the item columns. */
  datatype JoinedRow = JoinedRow(request: nat, item: string)

  datatype Record = Record(id: nat, items: seq<string>)

  /** The item columns of one request's rows, in row order. */
  function ItemsFor(rows: seq<JoinedRow>, id: nat): seq<string> {
    if rows == [] then []
    else
      var last := rows[|rows| - 1];
      ItemsFor(rows[..|rows| - 1], id) + if last.request == id then [last.item] else []
  }

  /** The requests in the order of their first rows. */
  function FirstSeen(rows: seq<JoinedRow>): (ids: seq<nat>)
    ensures forall id :: id in ids <==> exists i :: 0 <= i < |rows| && rows[i].request == id
  {
    if rows == [] then []
    else
      var ids, last := FirstSeen(rows[..|rows| - 1]), rows[|rows| - 1].request;
      if last in ids then ids else ids + [last]
  }

  ghost predicate HasRow(rows: seq<JoinedRow>, id: nat) {
    exists i :: 0 <= i < |rows| && rows[i].request == id
  }

  ghost predicate HasRecord(records: seq<Record>, id: nat) {
    exists k :: 0 <= k < |records| && records[k].id == id
  }

  ghost predicate DistinctRecords(records: seq<Record>) {
    forall j, k :: 0 <= j < k < |records| ==> records[j].id != records[k].id
  }

  /** One record per request, in the order of their first rows, each holding exactly its own rows in order. */
  ghost predicate Grouped(rows: seq<JoinedRow>, records: seq<Record>) {
    && |records| == |FirstSeen(rows)| && (forall k :: 0 <= k < |records| ==> records[k].id == FirstSeen(rows)[k])
    && DistinctRecords(records)
    && (forall id :: HasRecord(records, id) <==> HasRow(rows, id))
    && (forall k :: 0 <= k < |records| ==> records[k].items == ItemsFor(rows, records[k].id))
  }

  /** What one row does: it joins its request's record, or opens one behind the others. */
  predicate TakesRow(records: seq<Record>, row: JoinedRow, after: seq<Record>) {
    || (exists k :: 0 <= k < |records| && records[k].id == row.request
          && after == records[k := Record(row.request, records[k].items + [row.item])])
    || ((forall k :: 0 <= k < |records| ==> records[k].id != row.request)
          && after == records + [Record(row.request, [row.item])])
  }

  lemma SameRecords(before: seq<Record>, after: seq<Record>)
    requires |after| == |before| && forall k :: 0 <= k < |before| ==> after[k].id == before[k].id
    ensures forall id :: HasRecord(after, id) <==> HasRecord(before, id)
  {
    forall id | HasRecord(after, id) ensures HasRecord(before, id) {
      var k :| 0 <= k < |after| && after[k].id == id;
      assert before[k].id == id;
    }
    forall id | HasRecord(before, id) ensures HasRecord(after, id) {
      var k :| 0 <= k < |before| && before[k].id == id;
      assert after[k].id == id;
    }
  }

  lemma OneRecordMore(records: seq<Record>, last: Record, request: nat)
    requires last.id == request
    ensures forall id :: HasRecord(records + [last], id) <==> HasRecord(records, id) || id == request
  {
    var more := records + [last];
    assert more[|records|].id == request;
    forall id | HasRecord(records, id) ensures HasRecord(more, id) {
      var k :| 0 <= k < |records| && records[k].id == id;
      assert more[k].id == id;
    }
  }

  lemma OneRowMore(rows: seq<JoinedRow>, row: JoinedRow)
    ensures forall id :: HasRow(rows + [row], id) <==> HasRow(rows, id) || id == row.request
  {
    var more := rows + [row];
    assert more[|rows|] == row;
    forall id | HasRow(rows, id) ensures HasRow(more, id) {
      var i :| 0 <= i < |rows| && rows[i].request == id;
      assert more[i].request == id;
    }
  }

  lemma RowTaken(rows: seq<JoinedRow>, row: JoinedRow, records: seq<Record>, after: seq<Record>)
    requires Grouped(rows, records) && TakesRow(records, row, after)
    ensures Grouped(rows + [row], after)
    ensures |after| >= |records| && forall k :: 0 <= k < |records| ==> after[k].id == records[k].id
  {
    var more := rows + [row];
    assert more[..|rows|] == rows && more[|rows|] == row;
    OneRowMore(rows, row);
    if HasRecord(records, row.request) {
      SameRecords(records, after);
    } else {
      NoRowsNoItems(rows, row.request);
      OneRecordMore(records, Record(row.request, [row.item]), row.request);
    }
  }

  /** `position` finds each request's record. */
  ghost predicate Finds(position: map<nat, nat>, records: seq<Record>) {
    && (forall id :: id in position <==> HasRecord(records, id))
    && forall id :: id in position ==> position[id] < |records| && records[position[id]].id == id
  }

  /** One turn of the loop: the row joins its record, which is opened first where there is none. */
  method TakeRow(records: seq<Record>, position: map<nat, nat>, row: JoinedRow)
    returns (after: seq<Record>, places: map<nat, nat>)
    requires Finds(position, records)
    ensures Finds(places, after) && TakesRow(records, row, after)
  {
    after, places := records, position;
    if row.request !in position {
      places := places[row.request := |records|];
      after := after + [Record(row.request, [])];
      assert forall k :: 0 <= k < |records| ==> HasRecord(records, records[k].id);
    }
    var k := places[row.request];
    ghost var started := after;
    after := after[k := after[k].(items := after[k].items + [row.item])];
    if row.request in position {
      assert after == records[k := Record(row.request, records[k].items + [row.item])];
    } else {
      assert [] + [row.item] == [row.item];
      assert after == records + [Record(row.request, [row.item])];
    }
    SameRecords(started, after);
    assert row.request in position ==> started == records;
    if row.request !in position {
      OneRecordMore(records, Record(row.request, []), row.request);
    }
  }

  method ReadRequests(rows: seq<JoinedRow>) returns (records: seq<Record>)
    ensures Grouped(rows, records)
  {
    records := [];
    var position: map<nat, nat> := map[];
    for i := 0 to |rows|
      invariant Grouped(rows[..i], records) && Finds(position, records)
    {
      ghost var before := records;
      records, position := TakeRow(records, position, rows[i]);
      assert rows[..i + 1] == rows[..i] + [rows[i]];
      RowTaken(rows[..i], rows[i], before, records);
    }
    assert rows[..|rows|] == rows;
  }

  lemma {:induction false} NoRowsNoItems(rows: seq<JoinedRow>, id: nat)
    requires forall i :: 0 <= i < |rows| ==> rows[i].request != id
    ensures ItemsFor(rows, id) == []
  {
    if rows != [] {
      NoRowsNoItems(rows[..|rows| - 1], id);
    }
  }
}
