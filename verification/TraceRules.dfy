/**
  What a session log must look like, told without the validator: which turn and step stand open,
  how many have ended, and which calls are unanswered, all read off the log (sessionlog/invariant.go).
*/
module TraceRules {
  import opened Outcomes
  import opened LlmContent
  import opened SessionEvents
  import opened TurnTrace

  // ---- Reading the log ----

  function TurnsEnded(log: seq<Event>): nat {
    if log == [] then 0 else TurnsEnded(log[..|log| - 1]) + if log[|log| - 1].kind == TurnEnd then 1 else 0
  }

  /** How many steps ended since the last turn began. */
  function StepsEnded(log: seq<Event>): nat {
    if log == [] then 0 else
      match log[|log| - 1].kind
      case TurnStart => 0
      case StepEnd => StepsEnded(log[..|log| - 1]) + 1
      case _ => StepsEnded(log[..|log| - 1])
  }

  /** The turn that began at k has not ended. */
  predicate TurnOpenSince(log: seq<Event>, k: nat) {
    && k < |log| && log[k].kind == TurnStart && log[k].data.TurnStartData?
    && forall m :: k < m < |log| ==> log[m].kind != TurnEnd && log[m].kind != TurnStart
  }

  ghost predicate InTurn(log: seq<Event>) {
    exists k: nat :: TurnOpenSince(log, k)
  }

  ghost predicate InTurnNumber(log: seq<Event>, turn: int) {
    exists k: nat :: TurnOpenSince(log, k) && log[k].data.turn == turn
  }

  /** The step that began at k has not ended. */
  predicate StepOpenSince(log: seq<Event>, k: nat) {
    && k < |log| && log[k].kind == StepStart && log[k].data.StepData?
    && forall m :: k < m < |log| ==> log[m].kind != StepEnd && log[m].kind != StepStart
  }

  ghost predicate InStep(log: seq<Event>) {
    exists k: nat :: StepOpenSince(log, k)
  }

  ghost predicate InStepNumber(log: seq<Event>, turn: int, step: int) {
    exists k: nat :: StepOpenSince(log, k) && log[k].data.turn == turn && log[k].data.step == step
  }

  /** A tool result that enters the surface by itself, rather than in another one's place. */
  predicate Appends(e: Event, id: CallId) {
    e.kind == ToolResult && e.data.ToolResultData? && e.surfaceOp == Some(AppendOp) && e.data.message.source == ToolSource(id)
  }

  /** The call recorded at c still waits: its step has not ended and no result was appended for it. */
  predicate WaitsSince(log: seq<Event>, id: CallId, c: nat) {
    && c < |log| && log[c].kind == ToolCall && log[c].data.ToolCallData? && log[c].data.callId == id
    && forall m :: c < m < |log| ==> log[m].kind != StepEnd && !Appends(log[m], id)
  }

  ghost predicate Waits(log: seq<Event>, id: CallId) {
    exists c: nat :: WaitsSince(log, id, c)
  }

  /** What repair writes for a call that was declared but never recorded. */
  predicate NotStartedForm(data: Payload) {
    && data.ToolResultData? && data.error.Some? && data.error.value.code == "TOOL_NOT_STARTED"
    && data.message.role == UserRole && data.message.source.ToolSource?
    && |data.message.content| == 1 && data.message.content[0].ToolResultBlock? && data.message.content[0].isError
  }

  // ---- The rules ----

  /** The payload is what an event of this type must carry; the open types carry anything. */
  predicate Decodes(e: Event) {
    match e.kind
    case TurnStart => e.data.TurnStartData?
    case TurnEnd => e.data.TurnEndData?
    case StepStart => e.data.StepData?
    case StepEnd => e.data.StepData?
    case AssistantChunk => e.data.ChunkData?
    case AssistantMessage => e.data.AssistantData?
    case ToolCall => e.data.ToolCallData?
    case ToolResult => e.data.ToolResultData?
    case _ => true
  }

  ghost predicate ResultAllowed(log: seq<Event>, e: Event)
    requires e.kind == ToolResult && Decodes(e)
  {
    if e.surfaceOp != Some(AppendOp) then InTurn(log)
    else
      && InStepNumber(log, e.data.turn, e.data.step)
      && e.data.message.source.ToolSource?
      && (Waits(log, e.data.message.source.callId) || NotStartedForm(e.data))
  }

  /** Where in the log an event of this type may stand, and the numbers it must carry there. */
  ghost predicate Placed(log: seq<Event>, e: Event)
    requires Decodes(e)
  {
    match e.kind
    case TurnStart => !InTurn(log) && e.data.turn == TurnsEnded(log) + 1
    case TurnEnd => InTurnNumber(log, e.data.turn) && !InStep(log)
    case StepStart => InTurnNumber(log, e.data.turn) && !InStep(log) && e.data.step == StepsEnded(log) + 1
    case StepEnd => InStepNumber(log, e.data.turn, e.data.step)
    case AssistantChunk => InStepNumber(log, e.data.turn, e.data.step)
    case AssistantMessage => InStepNumber(log, e.data.turn, e.data.step)
    case ToolCall => InStepNumber(log, e.data.turn, e.data.step)
    case ToolResult => ResultAllowed(log, e)
    case TodoWrite => InTurn(log)
    case RequestHeader => InTurn(log)
    case RequestContext => InTurn(log)
    case UserMessage => true
    case EndSeed => true
    case Extension(_) => true
  }

  function LastSeq(log: seq<Event>): int {
    if log == [] then -1 else log[|log| - 1].seqNo
  }

  ghost predicate MayFollow(log: seq<Event>, e: Event) {
    e.seqNo > LastSeq(log) && Decodes(e) && Placed(log, e)
  }

  /** The event is in order and in place, but its contents do not read as what its type says. */
  ghost predicate Garbled(log: seq<Event>, e: Event) {
    && e.seqNo > LastSeq(log)
    && (!Decodes(e) ||
        (e.kind == ToolResult && e.surfaceOp == Some(AppendOp) && InStepNumber(log, e.data.turn, e.data.step)
         && !e.data.message.source.ToolSource?))
  }

  // ---- The validator's account is the log's own ----

  /** The account says of the log what the log says of itself. */
  ghost predicate Accounts(t: TraceState, log: seq<Event>) {
    && t.lastSeq == LastSeq(log)
    && t.nextTurn == TurnsEnded(log) + 1
    && t.nextStep == StepsEnded(log) + 1
    && (t.turnIsOpen <==> InTurn(log))
    && (t.turnIsOpen ==> forall turn :: InTurnNumber(log, turn) <==> turn == t.openTurn)
    && (t.stepIsOpen <==> InStep(log))
    && (t.stepIsOpen ==> forall turn, step :: InStepNumber(log, turn, step) <==> turn == t.openTurn && step == t.openStep)
    && (forall id :: id in t.pendingCalls <==> Waits(log, id))
  }

  lemma CountsStep(before: seq<Event>, e: Event)
    ensures LastSeq(before + [e]) == e.seqNo
    ensures TurnsEnded(before + [e]) == TurnsEnded(before) + if e.kind == TurnEnd then 1 else 0
    ensures StepsEnded(before + [e]) ==
            if e.kind == TurnStart then 0 else if e.kind == StepEnd then StepsEnded(before) + 1 else StepsEnded(before)
  {
    assert (before + [e])[..|before|] == before;
  }

  lemma TurnOpenStep(before: seq<Event>, e: Event, k: nat)
    ensures TurnOpenSince(before + [e], k) <==>
            if k == |before| then e.kind == TurnStart && e.data.TurnStartData?
            else TurnOpenSince(before, k) && e.kind != TurnEnd && e.kind != TurnStart
  {
    var log := before + [e];
    assert log[|before|] == e && forall m :: 0 <= m < |before| ==> log[m] == before[m];
  }

  lemma InTurnStep(before: seq<Event>, e: Event)
    ensures InTurn(before + [e]) <==>
            (e.kind == TurnStart && e.data.TurnStartData?) || (InTurn(before) && e.kind != TurnEnd && e.kind != TurnStart)
    ensures forall turn :: InTurnNumber(before + [e], turn) <==>
            (e.kind == TurnStart && e.data.TurnStartData? && e.data.turn == turn)
            || (InTurnNumber(before, turn) && e.kind != TurnEnd && e.kind != TurnStart)
  {
    hide TurnOpenSince;
    var log := before + [e];
    forall k: nat
      ensures TurnOpenSince(log, k) <==>
              if k == |before| then e.kind == TurnStart && e.data.TurnStartData?
              else TurnOpenSince(before, k) && e.kind != TurnEnd && e.kind != TurnStart
      ensures TurnOpenSince(before, k) ==> k < |before| && log[k] == before[k]
    {
      TurnOpenStep(before, e, k);
      TurnOpenInside(before, k);
    }
    assert log[|before|] == e;
    assert TurnOpenSince(log, |before|) <==> e.kind == TurnStart && e.data.TurnStartData?;
  }

  lemma TurnOpenInside(log: seq<Event>, k: nat)
    ensures TurnOpenSince(log, k) ==> k < |log| && log[k].kind == TurnStart
  {
  }

  lemma StepOpenStep(before: seq<Event>, e: Event, k: nat)
    ensures StepOpenSince(before + [e], k) <==>
            if k == |before| then e.kind == StepStart && e.data.StepData?
            else StepOpenSince(before, k) && e.kind != StepEnd && e.kind != StepStart
  {
    var log := before + [e];
    assert log[|before|] == e && forall m :: 0 <= m < |before| ==> log[m] == before[m];
  }

  lemma InStepStep(before: seq<Event>, e: Event)
    ensures InStep(before + [e]) <==>
            (e.kind == StepStart && e.data.StepData?) || (InStep(before) && e.kind != StepEnd && e.kind != StepStart)
    ensures forall turn, step :: InStepNumber(before + [e], turn, step) <==>
            (e.kind == StepStart && e.data.StepData? && e.data.turn == turn && e.data.step == step)
            || (InStepNumber(before, turn, step) && e.kind != StepEnd && e.kind != StepStart)
  {
    hide StepOpenSince;
    var log := before + [e];
    forall k: nat
      ensures StepOpenSince(log, k) <==>
              if k == |before| then e.kind == StepStart && e.data.StepData?
              else StepOpenSince(before, k) && e.kind != StepEnd && e.kind != StepStart
      ensures StepOpenSince(before, k) ==> k < |before| && log[k] == before[k]
    {
      StepOpenStep(before, e, k);
      StepOpenInside(before, k);
    }
    assert log[|before|] == e;
    assert StepOpenSince(log, |before|) <==> e.kind == StepStart && e.data.StepData?;
  }

  lemma StepOpenInside(log: seq<Event>, k: nat)
    ensures StepOpenSince(log, k) ==> k < |log| && log[k].kind == StepStart
  {
  }

  lemma WaitsStep(before: seq<Event>, e: Event, id: CallId)
    ensures Waits(before + [e], id) <==>
            (e.kind == ToolCall && e.data.ToolCallData? && e.data.callId == id)
            || (Waits(before, id) && e.kind != StepEnd && !Appends(e, id))
  {
    hide Appends;
    var log := before + [e];
    assert log[|before|] == e && forall m :: 0 <= m < |before| ==> log[m] == before[m];
    forall c: nat
      ensures WaitsSince(log, id, c) <==>
              if c == |before| then e.kind == ToolCall && e.data.ToolCallData? && e.data.callId == id
              else WaitsSince(before, id, c) && e.kind != StepEnd && !Appends(e, id)
    {
    }
    assert WaitsSince(log, id, |before|) <==> e.kind == ToolCall && e.data.ToolCallData? && e.data.callId == id;
  }

  // ---- One event ----

  lemma SyntheticIsNotStarted(data: Payload)
    requires data.ToolResultData?
    ensures SyntheticNotStarted(data) <==> NotStartedForm(data)
  {
  }

  lemma NextDecides(t: TraceState, log: seq<Event>, e: Event)
    requires Accounts(t, log) && WellNested(t)
    ensures Step(t, e).Ok? <==> MayFollow(log, e)
    ensures Step(t, e).Err? ==> Step(t, e).error == if Garbled(log, e) then MalformedValue else TraceViolation
  {
    hide InTurn, InTurnNumber, InStep, InStepNumber, Waits, TurnsEnded, StepsEnded, SyntheticNotStarted, NotStartedForm;
    if e.data.ToolResultData? {
      SyntheticIsNotStarted(e.data);
    }
    NumbersImplyOpen(log);
  }

  lemma NumbersImplyOpen(log: seq<Event>)
    ensures forall turn :: InTurnNumber(log, turn) ==> InTurn(log)
    ensures forall turn, step :: InStepNumber(log, turn, step) ==> InStep(log)
  {
  }

  lemma NextAccounts(t: TraceState, log: seq<Event>, e: Event)
    requires Accounts(t, log) && WellNested(t) && Step(t, e).Ok?
    ensures Accounts(Step(t, e).value, log + [e])
  {
    hide InTurn, InTurnNumber, InStep, InStepNumber, Waits, TurnsEnded, StepsEnded, SyntheticNotStarted;
    CountsStep(log, e);
    InTurnStep(log, e);
    InStepStep(log, e);
    forall id ensures Waits(log + [e], id) <==> id in Step(t, e).value.pendingCalls {
      WaitsStep(log, e, id);
    }
  }

  // ---- Whole logs ----

  /** Every event may follow what comes before it. */
  ghost predicate WellFormed(log: seq<Event>) {
    forall n :: 0 <= n < |log| ==> MayFollow(log[..n], log[n])
  }

  lemma WellFormedStep(before: seq<Event>, e: Event)
    ensures WellFormed(before + [e]) <==> WellFormed(before) && MayFollow(before, e)
  {
    hide MayFollow;
    var log := before + [e];
    assert forall n :: 0 <= n <= |before| ==> log[..n] == before[..n];
    assert forall n :: 0 <= n < |before| ==> log[n] == before[n];
    assert before[..|before|] == before && log[|before|] == e;
  }

  lemma NothingAccounts()
    ensures Accounts(EMPTY_TRACE, [])
  {
  }

  /** The validator accepts a log exactly when every event may follow those before it, and then its account is the log's. */
  lemma {:induction false} AcceptsExactly(log: seq<Event>)
    ensures Replay(log).Ok? <==> WellFormed(log)
    ensures Replay(log).Ok? ==> Accounts(Replay(log).value, log)
  {
    hide Step, WellFormed, MayFollow, Accounts;
    if log == [] {
      NothingAccounts();
      assert WellFormed(log) by { NothingToOrder(); }
    } else {
      var (before, e) := (log[..|log| - 1], log[|log| - 1]);
      assert log == before + [e];
      AcceptsExactly(before);
      WellFormedStep(before, e);
      if Replay(before).Ok? {
        ReplayWellNested(before);
        NextDecides(Replay(before).value, before, e);
        if Step(Replay(before).value, e).Ok? {
          NextAccounts(Replay(before).value, before, e);
        }
      }
    }
  }

  lemma NothingToOrder()
    ensures WellFormed([])
  {
  }

  /** The next event of an accepted log: accepted exactly when it may follow, and malformed exactly when it is garbled. */
  lemma NextEventExactly(log: seq<Event>, e: Event)
    requires Replay(log).Ok?
    ensures Replay(log + [e]).Ok? <==> MayFollow(log, e)
    ensures Replay(log + [e]).Err? ==> Replay(log + [e]).error == if Garbled(log, e) then MalformedValue else TraceViolation
  {
    hide Step, MayFollow, Accounts, Garbled;
    AcceptsExactly(log);
    ReplayWellNested(log);
    assert (log + [e])[..|log|] == log;
    NextDecides(Replay(log).value, log, e);
  }
}
