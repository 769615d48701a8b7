/** Closing the open tail of a log that crashed in the middle of a turn (sessionlog/repair.go). */
module Repair {
  import opened Outcomes
  import opened LlmContent
  import opened Decimals
  import opened SessionEvents
  import opened TurnTrace

  const TOOL_OUTCOME_UNKNOWN := "TOOL_OUTCOME_UNKNOWN"

  const OUTCOME_UNKNOWN_TEXT := "The tool call was interrupted after it was recorded, but no result was durably recorded. Its outcome is unknown. Decide whether to retry from the tool semantics: retry only if the operation is read-only or idempotent; if it may have side effects, first verify external state or ask the user. Do not retry blindly."
  const NOT_STARTED_TEXT := "The tool call was interrupted before the Harness recorded it as started. Retry it if it is still needed."

  /** A call an assistant message declared and no result has answered yet. */
  datatype PendingCall = PendingCall(step: int, startedAt: Option<int>)

  datatype Tail = Tail(
    openTurn: int,
    turnIsOpen: bool,
    openStep: int,
    stepIsOpen: bool,
    order: seq<CallId>,
    pending: map<CallId, PendingCall>
  )

  const NO_TAIL := Tail(0, false, 0, false, [], map[])

  function Without(order: seq<CallId>, id: CallId): seq<CallId> {
    if order == [] then [] else (if order[0] == id then [] else [order[0]]) + Without(order[1..], id)
  }

  function Declare(r: Tail, id: CallId, step: int): Tail {
    r.(order := if id in r.pending then r.order else r.order + [id],
       pending := r.pending[id := PendingCall(step, None)])
  }

  function DeclareAll(r: Tail, content: seq<Block>, step: int): Tail {
    if content == [] then r else
      var before := DeclareAll(r, content[..|content| - 1], step);
      var last := content[|content| - 1];
      if last.ToolCallBlock? then Declare(before, last.id, step) else before
  }

  function Answer(r: Tail, id: CallId): Tail {
    if id in r.pending then r.(order := Without(r.order, id), pending := r.pending - {id}) else r
  }

  function ScanEvent(r: Tail, event: Event): Result<Tail, LogError> {
    match event.kind
    case TurnStart =>
      if !event.data.TurnStartData? then Err(MalformedValue)
      else Ok(r.(openTurn := event.data.turn, turnIsOpen := true, stepIsOpen := false, order := [], pending := map[]))
    case TurnEnd => Ok(r.(turnIsOpen := false, stepIsOpen := false, order := [], pending := map[]))
    case StepStart =>
      if !event.data.StepData? then Err(MalformedValue)
      else Ok(r.(openStep := event.data.step, stepIsOpen := true))
    case StepEnd => Ok(r.(stepIsOpen := false, order := [], pending := map[]))
    case AssistantMessage =>
      if !event.data.AssistantData? then Err(MalformedValue)
      else Ok(DeclareAll(r, event.data.message.content, event.data.step))
    case ToolCall =>
      if !event.data.ToolCallData? then Err(MalformedValue)
      else
        var id := event.data.callId;
        Ok(if id in r.pending then r.(pending := r.pending[id := r.pending[id].(startedAt := Some(event.seqNo))]) else r)
    case ToolResult =>
      if !event.data.ToolResultData? || !event.data.message.source.ToolSource? then Err(MalformedValue)
      else Ok(Answer(r, event.data.message.source.callId))
    case _ => Ok(r)
  }

  function Scan(events: seq<Event>): Result<Tail, LogError> {
    if events == [] then Ok(NO_TAIL) else
      var before :- Scan(events[..|events| - 1]);
      ScanEvent(before, events[|events| - 1])
  }

  // ---- The closing events ----

  function ClosingResult(openTurn: int, id: CallId, call: PendingCall, seqNo: int, time: int): Event {
    var started := call.startedAt.Some?;
    var text := if started then OUTCOME_UNKNOWN_TEXT else NOT_STARTED_TEXT;
    var error := if started then ToolError("ToolOutcomeUnknownError", TOOL_OUTCOME_UNKNOWN)
                 else ToolError("ToolNotStartedError", TOOL_NOT_STARTED);
    var message := Message("interrupted-tool-result-" + id + "-" + Decimal(seqNo), UserRole, ToolSource(id),
                           [ToolResultBlock(id, [TextBlock(text)], true)]);
    Event(ToolResult, seqNo, time, ToolResultData(openTurn, call.step, message, Some(error), None), false, Some(AppendOp),
          if started then Some([call.startedAt.value]) else None)
  }

  function ClosingStep(openTurn: int, openStep: int, seqNo: int, time: int): Event {
    Event(StepEnd, seqNo, time, StepData(openTurn, openStep), false, None, None)
  }

  function ClosingTurn(openTurn: int, seqNo: int, time: int): Event {
    Event(TurnEnd, seqNo, time, TurnEndData(openTurn, InterruptedTurnEnd), false, None, None)
  }

  /** Each listed call is one that still pends. */
  predicate OrderPends(r: Tail) {
    forall id <- r.order :: id in r.pending
  }

  function ClosingResults(r: Tail, seqNo: int, time: int): seq<Event>
    requires OrderPends(r)
  {
    seq(|r.order|, i requires 0 <= i < |r.order| => ClosingResult(r.openTurn, r.order[i], r.pending[r.order[i]], seqNo + i, time))
  }

  /** Results first, then the open step, then the turn. */
  function Closers(r: Tail, seqNo: int, time: int): seq<Event>
    requires OrderPends(r)
  {
    var stepSeq := seqNo + |r.order|;
    ClosingResults(r, seqNo, time) +
    (if r.stepIsOpen then [ClosingStep(r.openTurn, r.openStep, stepSeq, time), ClosingTurn(r.openTurn, stepSeq + 1, time)]
     else [ClosingTurn(r.openTurn, stepSeq, time)])
  }

  /** The order list and the pending map hold the same calls, each once. */
  ghost predicate Tracked(r: Tail) {
    && (forall i, j :: 0 <= i < j < |r.order| ==> r.order[i] != r.order[j])
    && (forall id :: id in r.pending <==> id in r.order)
  }

  // ---- Bookkeeping of the scan ----

  lemma {:induction false} WithoutIs(order: seq<CallId>, id: CallId)
    ensures forall x :: x in Without(order, id) <==> x in order && x != id
    ensures (forall i, j :: 0 <= i < j < |order| ==> order[i] != order[j]) ==>
            (forall i, j :: 0 <= i < j < |Without(order, id)| ==> Without(order, id)[i] != Without(order, id)[j])
  {
    if order != [] {
      WithoutIs(order[1..], id);
      var rest := Without(order[1..], id);
      assert forall i :: 0 <= i < |rest| ==> rest[i] in rest;
      assert order == [order[0]] + order[1..];
    }
  }

  lemma AnswerTracked(r: Tail, id: CallId)
    requires Tracked(r)
    ensures Tracked(Answer(r, id))
  {
    WithoutIs(r.order, id);
    hide Without;
  }

  lemma {:induction false} DeclareAllTracked(r: Tail, content: seq<Block>, step: int)
    requires Tracked(r)
    ensures Tracked(DeclareAll(r, content, step))
  {
    if content != [] {
      DeclareAllTracked(r, content[..|content| - 1], step);
    }
  }

  lemma ScanEventTracked(r: Tail, event: Event)
    requires Tracked(r) && ScanEvent(r, event).Ok?
    ensures Tracked(ScanEvent(r, event).value)
  {
    hide Answer, DeclareAll;
    if event.kind.AssistantMessage? {
      DeclareAllTracked(r, event.data.message.content, event.data.step);
    } else if event.kind.ToolResult? {
      AnswerTracked(r, event.data.message.source.callId);
    }
  }

  lemma {:induction false} ScanTracked(events: seq<Event>)
    requires Scan(events).Ok?
    ensures Tracked(Scan(events).value) && OrderPends(Scan(events).value)
  {
    hide ScanEvent;
    if events != [] {
      ScanTracked(events[..|events| - 1]);
      ScanEventTracked(Scan(events[..|events| - 1]).value, events[|events| - 1]);
    }
  }

  function Interrupted(events: seq<Event>): Result<seq<Event>, LogError> {
    var r :- Scan(events);
    ScanTracked(events);
    if !r.turnIsOpen || events == [] then Ok([]) else
      var last := events[|events| - 1];
      Ok(Closers(r, last.seqNo + 1, last.time))
  }

  /** removeCallID: an in-place filter that keeps the order of the rest. */
  method RemoveCallId(order: seq<CallId>, target: CallId) returns (kept: seq<CallId>)
    ensures kept == Without(order, target)
  {
    kept := [];
    for i := 0 to |order|
      invariant kept + Without(order[i..], target) == Without(order, target)
    {
      if order[i] != target {
        kept := kept + [order[i]];
      }
      assert order[i..][1..] == order[i + 1..];
    }
  }

  lemma {:induction false} ScanFailurePersists(events: seq<Event>, n: nat)
    requires n <= |events| && Scan(events[..n]).Err?
    ensures Scan(events) == Scan(events[..n])
  {
    hide ScanEvent;
    if n < |events| {
      assert events[..|events| - 1][..n] == events[..n];
      ScanFailurePersists(events[..|events| - 1], n);
    } else {
      assert events[..n] == events;
    }
  }

  method InterruptedTurnClosers(events: seq<Event>) returns (r: Result<seq<Event>, LogError>)
    ensures r == Interrupted(events)
  {
    var openTurn, openStep := 0, 0;
    var turnIsOpen, stepIsOpen := false, false;
    var order: seq<CallId> := [];
    var pending: map<CallId, PendingCall> := map[];
    for n := 0 to |events|
      invariant Scan(events[..n]) == Ok(Tail(openTurn, turnIsOpen, openStep, stepIsOpen, order, pending))
    {
      ghost var before := Tail(openTurn, turnIsOpen, openStep, stepIsOpen, order, pending);
      var event := events[n];
      assert events[..n + 1] == events[..n] + [event];
      var malformed := false;
      match event.kind {
      case TurnStart =>
        if event.data.TurnStartData? {
          openTurn, turnIsOpen, stepIsOpen := event.data.turn, true, false;
          order, pending := [], map[];
        } else {
          malformed := true;
        }
      case TurnEnd =>
        turnIsOpen, stepIsOpen := false, false;
        order, pending := [], map[];
      case StepStart =>
        if event.data.StepData? {
          openStep, stepIsOpen := event.data.step, true;
        } else {
          malformed := true;
        }
      case StepEnd =>
        stepIsOpen := false;
        order, pending := [], map[];
      case AssistantMessage =>
        if event.data.AssistantData? {
          order, pending := DeclareBlocks(before, order, pending, event.data.message.content, event.data.step);
        } else {
          malformed := true;
        }
      case ToolCall =>
        if event.data.ToolCallData? {
          var id := event.data.callId;
          if id in pending {
            pending := pending[id := pending[id].(startedAt := Some(event.seqNo))];
          }
        } else {
          malformed := true;
        }
      case ToolResult =>
        if event.data.ToolResultData? && event.data.message.source.ToolSource? {
          var id := event.data.message.source.callId;
          if id in pending {
            pending := pending - {id};
            order := RemoveCallId(order, id);
          }
        } else {
          malformed := true;
        }
      case _ =>
      }
      assert if malformed then ScanEvent(before, event) == Err(MalformedValue)
             else ScanEvent(before, event) == Ok(Tail(openTurn, turnIsOpen, openStep, stepIsOpen, order, pending));
      if malformed {
        ScanFailurePersists(events, n + 1);
        return Err(MalformedValue);
      }
    }
    assert events[..|events|] == events;
    if !turnIsOpen || events == [] {
      return Ok([]);
    }
    ScanTracked(events);
    var closers := BuildClosers(Tail(openTurn, turnIsOpen, openStep, stepIsOpen, order, pending), events[|events| - 1]);
    return Ok(closers);
  }

  /** The second half: one result per pending call, then the boundaries, numbered on from the last event. */
  method BuildClosers(tail: Tail, last: Event) returns (closers: seq<Event>)
    requires OrderPends(tail)
    ensures closers == Closers(tail, last.seqNo + 1, last.time)
  {
    hide ClosingResult;
    var seqNo := last.seqNo + 1;
    closers := [];
    for i := 0 to |tail.order|
      invariant seqNo == last.seqNo + 1 + i
      invariant closers == ClosingResults(tail, last.seqNo + 1, last.time)[..i]
    {
      closers := closers + [ClosingResult(tail.openTurn, tail.order[i], tail.pending[tail.order[i]], seqNo, last.time)];
      seqNo := seqNo + 1;
    }
    if tail.stepIsOpen {
      closers := closers + [ClosingStep(tail.openTurn, tail.openStep, seqNo, last.time)];
      seqNo := seqNo + 1;
    }
    closers := closers + [ClosingTurn(tail.openTurn, seqNo, last.time)];
  }

  method DeclareBlocks(ghost r: Tail, order0: seq<CallId>, pending0: map<CallId, PendingCall>, content: seq<Block>, step: int)
    returns (order: seq<CallId>, pending: map<CallId, PendingCall>)
    requires r.order == order0 && r.pending == pending0
    ensures r.(order := order, pending := pending) == DeclareAll(r, content, step)
  {
    order, pending := order0, pending0;
    for i := 0 to |content|
      invariant r.(order := order, pending := pending) == DeclareAll(r, content[..i], step)
    {
      assert content[..i + 1][..i] == content[..i];
      if content[i].ToolCallBlock? {
        var id := content[i].id;
        if id !in pending {
          order := order + [id];
        }
        pending := pending[id := PendingCall(step, None)];
      }
    }
    assert content[..|content|] == content;
  }
}
