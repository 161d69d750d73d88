/**
 Event request drafts (backend/src/event-drafts/drafts.service.ts): optimistic versions, retry identifiers, and
 submission, under any interleaving of windows, lost responses and owners.
 */
module Drafts {
  import opened Wrappers

  type DraftId = nat
  type UserId = nat
  type OperationId = nat

  /** `event` is set exactly on submission. */
  datatype Draft = Draft(
    owner: UserId,
    fields: string,
    version: nat,
    lastOperation: Option<OperationId>,
    event: Option<nat>
  )

  /** The start and end that the submit request itself carries. */
  datatype Dates = Dates(start: int, end: int)

  /** An event request: the draft it was submitted from, that draft's fields and the dates of the submission. */
  datatype EventRow = EventRow(draft: DraftId, fields: string, dates: Dates, stillSubmitted: bool)

  datatype State = State(drafts: map<DraftId, Draft>, events: seq<EventRow>)

  datatype Refusal =
    | DraftNotFound | AlreadySubmitted | IdentifierReused | ChangedElsewhere | NoLongerSubmitted | InvalidFields
    | InvalidVersion | EventNotFound

  datatype Result = Done(state: State, draft: Draft) | Refused(reason: Refusal)

  /** One save request: the values, the version it was edited from and its retry identifier. */
  datatype SaveRequest = SaveRequest(owner: UserId, id: DraftId, fields: string, version: nat, operation: OperationId)

  /** Version 0 starts the draft unless it exists; its own transaction rolls the start back on refusal. */
  function Started(s: State, r: SaveRequest): State {
    if r.version == 0 && r.id !in s.drafts
    then s.(drafts := s.drafts[r.id := Draft(r.owner, r.fields, 0, None, None)]) else s
  }

  function SaveDraft(s: State, r: SaveRequest): Result {
    var started := Started(s, r);
    if r.id !in started.drafts || started.drafts[r.id].owner != r.owner then Refused(DraftNotFound)
    else
      var row := started.drafts[r.id];
      if row.event.Some? then Refused(AlreadySubmitted)
      else if row.lastOperation == Some(r.operation) then
        if row.fields != r.fields then Refused(IdentifierReused) else Done(started, row)
      else if row.version != r.version then Refused(ChangedElsewhere)
      else
        var saved := row.(fields := r.fields, version := row.version + 1, lastOperation := Some(r.operation));
        Done(started.(drafts := started.drafts[r.id := saved]), saved)
  }

  /** `valid` says whether the saved fields with these dates pass the checks of event creation. */
  function SubmitDraft(s: State, owner: UserId, id: DraftId, version: nat, dates: Dates, valid: bool): Result {
    if version < 1 then Refused(InvalidVersion)
    else if id !in s.drafts || s.drafts[id].owner != owner then Refused(DraftNotFound)
    else
      var row := s.drafts[id];
      if row.event.Some? then
        if row.event.value >= |s.events| then Refused(EventNotFound)
        else if !s.events[row.event.value].stillSubmitted then Refused(NoLongerSubmitted)
        else Done(s, row)
      else if row.version != version then Refused(ChangedElsewhere)
      else if !valid then Refused(InvalidFields)
      else
        var submitted := row.(event := Some(|s.events|), version := row.version + 1);
        Done(State(s.drafts[id := submitted], s.events + [EventRow(id, row.fields, dates, true)]), submitted)
  }

  datatype Op =
    | Save(request: SaveRequest)
    | Submit(owner: UserId, id: DraftId, version: nat, dates: Dates, valid: bool)
    | EventMoves(event: nat)

  /** The event request leaves Submitted once its coordinator decides it. */
  function Moved(s: State, event: nat): State {
    if event < |s.events| then s.(events := s.events[event := s.events[event].(stillSubmitted := false)]) else s
  }

  function Step(s: State, op: Op): State {
    match op
    case Save(r) => var result := SaveDraft(s, r); if result.Done? then result.state else s
    case Submit(owner, id, version, dates, valid) =>
      var result := SubmitDraft(s, owner, id, version, dates, valid); if result.Done? then result.state else s
    case EventMoves(event) => Moved(s, event)
  }

  function Run(s: State, ops: seq<Op>): State
    decreases |ops|
  {
    if ops == [] then s else Run(Step(s, ops[0]), ops[1..])
  }

  /** A run that goes on takes the next step from where it stood. */
  lemma {:induction false} RunTakesTheNextStep(s: State, ops: seq<Op>, op: Op)
    ensures Run(s, ops + [op]) == Step(Run(s, ops), op)
    decreases |ops|
  {
    var longer := ops + [op];
    if ops == [] {
      assert longer[0] == op && longer[1..] == [];
    } else {
      assert longer[0] == ops[0] && longer[1..] == ops[1..] + [op];
      RunTakesTheNextStep(Step(s, ops[0]), ops[1..], op);
    }
  }

  // ------------------------------------------------------------------ what every run keeps

  ghost predicate EventOfDraft(s: State, i: nat)
    requires i < |s.events|
  {
    var id := s.events[i].draft;
    id in s.drafts && s.drafts[id].event == Some(i) && s.drafts[id].fields == s.events[i].fields
  }

  /** Events and submitted drafts correspond one to one, with the fields frozen at submission. */
  ghost predicate OneEventEach(s: State) {
    && (forall i {:trigger EventOfDraft(s, i)} :: 0 <= i < |s.events| ==> EventOfDraft(s, i))
    && (forall id :: id in s.drafts && s.drafts[id].event.Some? ==>
          s.drafts[id].event.value < |s.events| && s.events[s.drafts[id].event.value].draft == id)
  }

  lemma StepKeepsOneEventEach(s: State, op: Op)
    requires OneEventEach(s)
    ensures OneEventEach(Step(s, op))
  {
    var after := Step(s, op);
    forall i | 0 <= i < |after.events| ensures EventOfDraft(after, i) {
      assert i < |s.events| ==> EventOfDraft(s, i);
    }
  }

  /** How a draft may go on: versions never fall, an unchanged version is an unchanged draft, a submission is final. */
  ghost predicate Continues(before: Draft, after: Draft) {
    && after.owner == before.owner
    && before.version <= after.version
    && (after.version == before.version ==> after == before)
    && (before.event.Some? ==> after == before)
  }

  ghost predicate AllContinue(s: State, after: State) {
    forall id :: id in s.drafts ==> id in after.drafts && Continues(s.drafts[id], after.drafts[id])
  }

  /** Event rows are only appended, and keep their draft, fields and dates. */
  ghost predicate EventsContinue(s: State, after: State) {
    && |s.events| <= |after.events|
    && forall i :: 0 <= i < |s.events| ==>
         after.events[i] == s.events[i].(stillSubmitted := after.events[i].stillSubmitted)
  }

  lemma StepContinues(s: State, op: Op)
    ensures AllContinue(s, Step(s, op)) && EventsContinue(s, Step(s, op))
    ensures forall id :: id in s.drafts ==> Step(s, op).drafts[id].version <= s.drafts[id].version + 1
  {
  }

  /**
   Over every run: each draft yields at most one event, whose fields are the draft's at submission; versions only rise;
   a draft whose version did not rise did not change; a submitted draft never changes again, nor do its event's fields
   and dates.
   */
  lemma {:induction false} DraftsContinue(s: State, ops: seq<Op>)
    requires OneEventEach(s)
    ensures OneEventEach(Run(s, ops)) && AllContinue(s, Run(s, ops)) && EventsContinue(s, Run(s, ops))
    decreases |ops|
  {
    if ops != [] {
      StepKeepsOneEventEach(s, ops[0]);
      StepContinues(s, ops[0]);
      DraftsContinue(Step(s, ops[0]), ops[1..]);
    }
  }

  lemma TwoEventsTwoDrafts(s: State, i: nat, j: nat)
    requires OneEventEach(s) && i < |s.events| && j < |s.events| && s.events[i].draft == s.events[j].draft
    ensures i == j
  {
    assert EventOfDraft(s, i) && EventOfDraft(s, j);
  }

  // ------------------------------------------------------------------ no lost update

  /** A save that changes an existing draft was edited from the very version it replaces, and raises it by one. */
  lemma AcceptedSaveSawTheLatest(s: State, r: SaveRequest)
    requires r.id in s.drafts && SaveDraft(s, r).Done? && SaveDraft(s, r).state != s
    ensures r.version == s.drafts[r.id].version
    ensures SaveDraft(s, r).draft.version == r.version + 1 && SaveDraft(s, r).draft.fields == r.fields
    ensures forall id :: id in s.drafts && id != r.id ==> SaveDraft(s, r).state.drafts[id] == s.drafts[id]
  {
    assert s.drafts[r.id := s.drafts[r.id]] == s.drafts;
  }

  /** A retry of the last operation answers with the saved draft and changes nothing. */
  lemma RetryChangesNothing(s: State, r: SaveRequest)
    requires SaveDraft(s, r).Done?
    ensures var after := SaveDraft(s, r);
      && after.state.drafts[r.id] == after.draft
      && SaveDraft(after.state, r) == Done(after.state, after.draft)
  {
  }

  /**
   No update is lost: once anyone's save or submission raised the version past the one a window opened, that window's
   save leaves the draft as it is, whatever happened in between. It is refused, or it was itself the last save.
   */
  lemma StaleSaveChangesNothing(s: State, ops: seq<Op>, r: SaveRequest)
    requires OneEventEach(s) && r.id in s.drafts && s.drafts[r.id].version > r.version
    ensures Step(Run(s, ops), Save(r)) == Run(s, ops)
    ensures SaveDraft(Run(s, ops), r).Done? ==> Run(s, ops).drafts[r.id].lastOperation == Some(r.operation)
  {
    DraftsContinue(s, ops);
  }

  /** An accepted request takes effect once: repeating it after any run changes nothing. */
  lemma SaveAppliesOnce(s: State, r: SaveRequest, ops: seq<Op>)
    requires OneEventEach(s) && SaveDraft(s, r).Done? && SaveDraft(s, r).draft.version > r.version
    ensures var later := Run(SaveDraft(s, r).state, ops); Step(later, Save(r)) == later
  {
    StepKeepsOneEventEach(s, Save(r));
    StaleSaveChangesNothing(SaveDraft(s, r).state, ops, r);
  }

  /**
   Repeating a submission whose response was lost creates no second event and moves no date, whatever dates the
   repetition carries and whatever happened in between.
   */
  lemma SubmitAppliesOnce(s: State, owner: UserId, id: DraftId, version: nat, dates: Dates, valid: bool, ops: seq<Op>)
    requires OneEventEach(s) && SubmitDraft(s, owner, id, version, dates, valid).Done?
    ensures var later := Run(SubmitDraft(s, owner, id, version, dates, valid).state, ops);
      forall v: nat, other: Dates, ok: bool :: Step(later, Submit(owner, id, v, other, ok)) == later
  {
    var after := SubmitDraft(s, owner, id, version, dates, valid).state;
    StepKeepsOneEventEach(s, Submit(owner, id, version, dates, valid));
    DraftsContinue(after, ops);
  }

  /** Of two windows opened on the same version only one saves: the other is told that the draft changed elsewhere. */
  lemma OneWindowWins(s: State, first: SaveRequest, second: SaveRequest)
    requires first.owner == second.owner && first.id == second.id
    requires first.version == second.version && first.operation != second.operation
    requires SaveDraft(s, first).Done? && SaveDraft(s, first).draft.version > first.version
    requires SaveDraft(s, second).Done?
    ensures SaveDraft(SaveDraft(s, first).state, second) == Refused(ChangedElsewhere)
  {
  }

  // ------------------------------------------------------------------ what one request does

  /** A first save is accepted exactly for version 0, and stores the draft as version 1 of the caller. */
  lemma FirstSaveStartsTheDraft(s: State, r: SaveRequest)
    requires r.id !in s.drafts
    ensures var stored := Draft(r.owner, r.fields, 1, Some(r.operation), None);
      SaveDraft(s, r) == if r.version == 0 then Done(State(s.drafts[r.id := stored], s.events), stored)
                         else Refused(DraftNotFound)
  {
  }

  /** A repetition of the last save, by its identifier. */
  ghost predicate Repeats(row: Draft, r: SaveRequest) {
    row.lastOperation.Some? && row.lastOperation.value == r.operation
  }

  /**
   A later save is accepted exactly from the owner of an open draft, for its current version or as a repetition of the
   last one with the same fields. A new one writes the request's fields under the next version; each refusal has its
   reason.
   */
  lemma SaveWritesTheFields(s: State, r: SaveRequest)
    requires r.id in s.drafts
    ensures var row, result := s.drafts[r.id], SaveDraft(s, r);
      && (result.Done? <==>
            && row.owner == r.owner && row.event.None?
            && if Repeats(row, r) then row.fields == r.fields else row.version == r.version)
      && (result.Done? ==>
            && result.draft == (if Repeats(row, r) then row
                                else Draft(row.owner, r.fields, row.version + 1, Some(r.operation), None))
            && result.state.events == s.events && result.state.drafts == s.drafts[r.id := result.draft])
      && (result == Refused(DraftNotFound) <==> row.owner != r.owner)
      && (result == Refused(AlreadySubmitted) <==> row.owner == r.owner && row.event.Some?)
      && (result == Refused(IdentifierReused) <==>
            row.owner == r.owner && row.event.None? && Repeats(row, r) && row.fields != r.fields)
      && (result == Refused(ChangedElsewhere) <==>
            row.owner == r.owner && row.event.None? && !Repeats(row, r) && row.version != r.version)
  {
    assert s.drafts[r.id := s.drafts[r.id]] == s.drafts;
  }

  /** An open draft of the caller is submitted for its current version, once its fields and dates pass the checks. */
  lemma SubmissionCreatesTheEvent(s: State, owner: UserId, id: DraftId, version: nat, dates: Dates, valid: bool)
    requires id in s.drafts && s.drafts[id].event.None?
    ensures var row, result := s.drafts[id], SubmitDraft(s, owner, id, version, dates, valid);
      && (result.Done? <==> version >= 1 && row.owner == owner && row.version == version && valid)
      && (result.Done? ==>
            && result.draft == Draft(row.owner, row.fields, row.version + 1, row.lastOperation, Some(|s.events|))
            && result.state.drafts == s.drafts[id := result.draft]
            && result.state.events == s.events + [EventRow(id, row.fields, dates, true)])
      && (result == Refused(ChangedElsewhere) <==> version >= 1 && row.owner == owner && row.version != version)
      && (result == Refused(InvalidFields) <==>
            version >= 1 && row.owner == owner && row.version == version && !valid)
  {
  }

  /** For a draft already submitted, the caller gets its event's draft back while that event is still undecided. */
  lemma SubmissionIsRepeated(s: State, owner: UserId, id: DraftId, version: nat, dates: Dates, valid: bool)
    requires id in s.drafts && s.drafts[id].event.Some?
    ensures var row, result := s.drafts[id], SubmitDraft(s, owner, id, version, dates, valid);
      && (result.Done? <==>
            && version >= 1 && row.owner == owner
            && row.event.value < |s.events| && s.events[row.event.value].stillSubmitted)
      && (result.Done? ==> result.state == s && result.draft == row)
      && (result == Refused(NoLongerSubmitted) <==>
            && version >= 1 && row.owner == owner
            && row.event.value < |s.events| && !s.events[row.event.value].stillSubmitted)
      && (result == Refused(EventNotFound) <==>
            version >= 1 && row.owner == owner && row.event.value >= |s.events|)
  {
  }

  /** No version, and no draft of the caller: refused as such, in this order. */
  lemma SubmissionNeedsADraft(s: State, owner: UserId, id: DraftId, version: nat, dates: Dates, valid: bool)
    ensures SubmitDraft(s, owner, id, version, dates, valid) == Refused(InvalidVersion) <==> version == 0
    ensures SubmitDraft(s, owner, id, version, dates, valid) == Refused(DraftNotFound) <==>
      version >= 1 && (id in s.drafts ==> s.drafts[id].owner != owner)
  {
  }

  lemma DecidedEventOnly(s: State, event: nat)
    ensures var after := Step(s, EventMoves(event));
      && after.drafts == s.drafts && |after.events| == |s.events|
      && forall i :: (0 <= i < |s.events| ==>
           after.events[i] == s.events[i].(stillSubmitted := s.events[i].stillSubmitted && i != event))
  {
  }

  /** The operation is a submission of this draft with these dates. */
  ghost predicate Submits(op: Op, id: DraftId, dates: Dates) {
    op.Submit? && op.id == id && op.dates == dates
  }

  lemma StepAddsSubmitted(s: State, op: Op)
    ensures |s.events| <= |Step(s, op).events| <= |s.events| + 1
    ensures |Step(s, op).events| > |s.events| ==>
      Submits(op, Step(s, op).events[|s.events|].draft, Step(s, op).events[|s.events|].dates)
  {
  }

  /** Every event that a run adds has the dates of a submission in that run, of its own draft. */
  lemma {:induction false} EventDatesWereSubmitted(s: State, ops: seq<Op>, i: nat)
    requires |s.events| <= i < |Run(s, ops).events|
    ensures exists k :: 0 <= k < |ops| && Submits(ops[k], Run(s, ops).events[i].draft, Run(s, ops).events[i].dates)
    decreases |ops|
  {
    var next := Step(s, ops[0]);
    StepAddsSubmitted(s, ops[0]);
    if i < |next.events| {
      EventsOnlyAppended(next, ops[1..]);
      assert Submits(ops[0], Run(s, ops).events[i].draft, Run(s, ops).events[i].dates);
    } else {
      EventDatesWereSubmitted(next, ops[1..], i);
      var k :| 0 <= k < |ops[1..]| && Submits(ops[1..][k], Run(s, ops).events[i].draft, Run(s, ops).events[i].dates);
      assert ops[k + 1] == ops[1..][k];
    }
  }

  lemma {:induction false} EventsOnlyAppended(s: State, ops: seq<Op>)
    ensures EventsContinue(s, Run(s, ops))
    decreases |ops|
  {
    if ops != [] {
      StepContinues(s, ops[0]);
      EventsOnlyAppended(Step(s, ops[0]), ops[1..]);
    }
  }

  // ------------------------------------------------------------------ the service

  class DraftsService {
    var drafts: map<DraftId, Draft>
    var events: seq<EventRow>

    ghost function View(): State
      reads this
    {
      State(drafts, events)
    }

    constructor ()
      ensures View() == State(map[], []) && OneEventEach(View())
    {
      drafts, events := map[], [];
    }

    method SaveRow(r: SaveRequest) returns (refusal: Option<Refusal>, row: Option<Draft>)
      requires OneEventEach(View())
      modifies this
      ensures View() == Step(old(View()), Save(r)) && OneEventEach(View())
      ensures refusal.Some? ==> SaveDraft(old(View()), r) == Refused(refusal.value)
      ensures refusal.None? ==> row.Some? && SaveDraft(old(View()), r) == Done(View(), row.value)
    {
      StepKeepsOneEventEach(View(), Save(r));
      row := None;
      var before := drafts;
      if r.version == 0 && r.id !in drafts {
        drafts := drafts[r.id := Draft(r.owner, r.fields, 0, None, None)];
      }
      if r.id !in drafts || drafts[r.id].owner != r.owner { drafts := before; return Some(DraftNotFound), None; }
      var current := drafts[r.id];
      if current.event.Some? { drafts := before; return Some(AlreadySubmitted), None; }
      if current.lastOperation == Some(r.operation) {
        if current.fields != r.fields { drafts := before; return Some(IdentifierReused), None; }
      } else {
        if current.version != r.version { drafts := before; return Some(ChangedElsewhere), None; }
        current := current.(fields := r.fields, version := current.version + 1, lastOperation := Some(r.operation));
        drafts := drafts[r.id := current];
      }
      refusal, row := None, Some(current);
    }

    method SubmitRow(owner: UserId, id: DraftId, version: nat, dates: Dates, valid: bool)
      returns (refusal: Option<Refusal>)
      requires OneEventEach(View())
      modifies this
      ensures View() == Step(old(View()), Submit(owner, id, version, dates, valid)) && OneEventEach(View())
      ensures refusal.None? <==> SubmitDraft(old(View()), owner, id, version, dates, valid).Done?
      ensures refusal.Some? ==> SubmitDraft(old(View()), owner, id, version, dates, valid) == Refused(refusal.value)
    {
      StepKeepsOneEventEach(View(), Submit(owner, id, version, dates, valid));
      if version < 1 { return Some(InvalidVersion); }
      if id !in drafts || drafts[id].owner != owner { return Some(DraftNotFound); }
      var row := drafts[id];
      if row.event.Some? {
        if row.event.value >= |events| { return Some(EventNotFound); }
        if !events[row.event.value].stillSubmitted { return Some(NoLongerSubmitted); }
        return None;
      }
      if row.version != version { return Some(ChangedElsewhere); }
      if !valid { return Some(InvalidFields); }
      var event := |events|;
      events := events + [EventRow(id, row.fields, dates, true)];
      drafts := drafts[id := row.(event := Some(event), version := row.version + 1)];
      refusal := None;
    }
  }
}
