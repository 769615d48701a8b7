/**
  The turn / step / tool-call relations a session log has to keep (sessionlog/invariant.go):
  a check that reads, a transition that is applied, and the walk over a whole log.
*/
module TurnTrace {
  import opened Outcomes
  import opened LlmContent
  import opened SessionEvents

  datatype TraceState = TraceState(
    lastSeq: int,
    openTurn: int,
    turnIsOpen: bool,
    openStep: int,
    stepIsOpen: bool,
    nextTurn: int,
    nextStep: int,
    pendingCalls: set<CallId>
  )

  const EMPTY_TRACE := TraceState(-1, 0, false, 0, false, 1, 1, {})

  datatype PendingChange = PendingNone | PendingAdd(id: CallId) | PendingDelete(id: CallId) | PendingClear

  /** A checked change that has not been applied yet. */
  datatype Transition = Transition(
    lastSeq: int,
    openTurn: int,
    turnIsOpen: bool,
    openStep: int,
    stepIsOpen: bool,
    nextTurn: int,
    nextStep: int,
    pending: PendingChange
  )

  /** The error code of a call that was requested but never recorded as started. */
  const TOOL_NOT_STARTED := "TOOL_NOT_STARTED"

  /** A result repair wrote for a call that never started: it has no earlier tool/call. */
  predicate SyntheticNotStarted(data: Payload)
    requires data.ToolResultData?
  {
    && data.error.Some? && data.error.value.code == TOOL_NOT_STARTED
    && data.message.ToolResult().Some? && data.message.ToolResult().value.isError
  }

  predicate StepOpenAt(t: TraceState, turn: int, step: int) {
    t.turnIsOpen && t.stepIsOpen && t.openTurn == turn && t.openStep == step
  }

  function ValidateToolResult(t: TraceState, event: Event, base: Transition): Result<Transition, LogError> {
    if !event.data.ToolResultData? then Err(MalformedValue)
    else if event.surfaceOp != Some(AppendOp) then
      if t.turnIsOpen then Ok(base) else Err(TraceViolation)
    else if !StepOpenAt(t, event.data.turn, event.data.step) then Err(TraceViolation)
    else if !event.data.message.source.ToolSource? then Err(MalformedValue)
    else
      var callId := event.data.message.source.callId;
      if callId !in t.pendingCalls && !SyntheticNotStarted(event.data) then Err(TraceViolation)
      else Ok(base.(pending := PendingDelete(callId)))
  }

  function Validate(t: TraceState, event: Event): Result<Transition, LogError> {
    if event.seqNo <= t.lastSeq then Err(TraceViolation) else
      var base := Transition(event.seqNo, t.openTurn, t.turnIsOpen, t.openStep, t.stepIsOpen, t.nextTurn, t.nextStep, PendingNone);
      match event.kind
      case TurnStart =>
        if !event.data.TurnStartData? then Err(MalformedValue)
        else if t.turnIsOpen || event.data.turn != t.nextTurn then Err(TraceViolation)
        else Ok(base.(openTurn := event.data.turn, turnIsOpen := true, nextStep := 1))
      case TurnEnd =>
        if !event.data.TurnEndData? then Err(MalformedValue)
        else if !t.turnIsOpen || t.openTurn != event.data.turn || t.stepIsOpen then Err(TraceViolation)
        else Ok(base.(turnIsOpen := false, nextTurn := t.nextTurn + 1))
      case StepStart =>
        if !event.data.StepData? then Err(MalformedValue)
        else if !t.turnIsOpen || t.openTurn != event.data.turn || t.stepIsOpen || event.data.step != t.nextStep then Err(TraceViolation)
        else Ok(base.(openStep := event.data.step, stepIsOpen := true))
      case StepEnd =>
        if !event.data.StepData? then Err(MalformedValue)
        else if !StepOpenAt(t, event.data.turn, event.data.step) then Err(TraceViolation)
        else Ok(base.(pending := PendingClear, stepIsOpen := false, nextStep := t.nextStep + 1))
      case AssistantChunk =>
        if !event.data.ChunkData? then Err(MalformedValue)
        else if !StepOpenAt(t, event.data.turn, event.data.step) then Err(TraceViolation)
        else Ok(base)
      case AssistantMessage =>
        if !event.data.AssistantData? then Err(MalformedValue)
        else if !StepOpenAt(t, event.data.turn, event.data.step) then Err(TraceViolation)
        else Ok(base)
      case ToolCall =>
        if !event.data.ToolCallData? then Err(MalformedValue)
        else if !StepOpenAt(t, event.data.turn, event.data.step) then Err(TraceViolation)
        else Ok(base.(pending := PendingAdd(event.data.callId)))
      case ToolResult => ValidateToolResult(t, event, base)
      case UserMessage => Ok(base)
      case EndSeed => Ok(base)
      case TodoWrite => if t.turnIsOpen then Ok(base) else Err(TraceViolation)
      case RequestHeader => if t.turnIsOpen then Ok(base) else Err(TraceViolation)
      case RequestContext => if t.turnIsOpen then Ok(base) else Err(TraceViolation)
      case Extension(_) => Ok(base)
  }

  function ApplyTransition(t: TraceState, c: Transition): TraceState {
    var calls := match c.pending
      case PendingNone => t.pendingCalls
      case PendingAdd(id) => t.pendingCalls + {id}
      case PendingDelete(id) => t.pendingCalls - {id}
      case PendingClear => {};
    TraceState(c.lastSeq, c.openTurn, c.turnIsOpen, c.openStep, c.stepIsOpen, c.nextTurn, c.nextStep, calls)
  }

  function Step(t: TraceState, event: Event): Result<TraceState, LogError> {
    var transition :- Validate(t, event);
    Ok(ApplyTransition(t, transition))
  }

  function Replay(events: seq<Event>): Result<TraceState, LogError> {
    if events == [] then Ok(EMPTY_TRACE) else
      var before :- Replay(events[..|events| - 1]);
      Step(before, events[|events| - 1])
  }

  /** What every validated log keeps: a step is open only inside a turn, calls pend only inside a step. */
  predicate WellNested(t: TraceState) {
    && (t.stepIsOpen ==> t.turnIsOpen)
    && (!t.stepIsOpen ==> t.pendingCalls == {})
    && t.lastSeq >= -1
    && (t.turnIsOpen ==> t.openTurn == t.nextTurn)
    && (t.stepIsOpen ==> t.openStep == t.nextStep)
  }

  lemma StepWellNested(t: TraceState, event: Event)
    requires WellNested(t) && Step(t, event).Ok?
    ensures WellNested(Step(t, event).value) && Step(t, event).value.lastSeq == event.seqNo
  {
  }

  lemma {:induction false} ReplayWellNested(events: seq<Event>)
    requires Replay(events).Ok?
    ensures WellNested(Replay(events).value)
    ensures events != [] ==> Replay(events).value.lastSeq == events[|events| - 1].seqNo >= 0
  {
    hide Step;
    if events != [] {
      ReplayWellNested(events[..|events| - 1]);
      StepWellNested(Replay(events[..|events| - 1]).value, events[|events| - 1]);
      StepAdvances(Replay(events[..|events| - 1]).value, events[|events| - 1]);
    }
  }

  lemma StepAdvances(t: TraceState, event: Event)
    requires Step(t, event).Ok?
    ensures event.seqNo > t.lastSeq
  {
  }

  /** The account a session keeps; Validate reads it, Apply moves it forward. */
  class Trace {
    var lastSeq: int
    var openTurn: int
    var turnIsOpen: bool
    var openStep: int
    var stepIsOpen: bool
    var nextTurn: int
    var nextStep: int
    var pendingCalls: set<CallId>

    function View(): TraceState
      reads this
    {
      TraceState(lastSeq, openTurn, turnIsOpen, openStep, stepIsOpen, nextTurn, nextStep, pendingCalls)
    }

    constructor ()
      ensures View() == EMPTY_TRACE
    {
      lastSeq, openTurn, turnIsOpen := -1, 0, false;
      openStep, stepIsOpen := 0, false;
      nextTurn, nextStep, pendingCalls := 1, 1, {};
    }

    method Apply(transition: Transition)
      modifies this
      ensures View() == ApplyTransition(old(View()), transition)
    {
      lastSeq := transition.lastSeq;
      openTurn, turnIsOpen := transition.openTurn, transition.turnIsOpen;
      openStep, stepIsOpen := transition.openStep, transition.stepIsOpen;
      nextTurn, nextStep := transition.nextTurn, transition.nextStep;
      match transition.pending
      case PendingNone =>
      case PendingAdd(id) => pendingCalls := pendingCalls + {id};
      case PendingDelete(id) => pendingCalls := pendingCalls - {id};
      case PendingClear => pendingCalls := {};
    }
  }

  method ValidateLog(events: seq<Event>) returns (r: Result<TraceState, LogError>)
    ensures r == Replay(events)
  {
    hide Validate;
    var trace := new Trace();
    for n := 0 to |events|
      invariant fresh(trace) && Replay(events[..n]) == Ok(trace.View())
    {
      assert events[..n + 1][..n] == events[..n];
      var transition := Validate(trace.View(), events[n]);
      if transition.Err? {
        FailurePersists(events, n + 1);
        return Err(transition.error);
      }
      trace.Apply(transition.value);
    }
    assert events[..|events|] == events;
    return Ok(trace.View());
  }

  lemma {:induction false} FailurePersists(events: seq<Event>, n: nat)
    requires n <= |events| && Replay(events[..n]).Err?
    ensures Replay(events) == Replay(events[..n])
  {
    hide Step;
    if n < |events| {
      assert events[..|events| - 1][..n] == events[..n];
      FailurePersists(events[..|events| - 1], n);
    } else {
      assert events[..n] == events;
    }
  }
}
