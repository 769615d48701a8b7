/**
  Repair against the validator and the surface: the log a crash leaves behind, closed, is one
  that both still accept, and it leaves no call without an answer.
*/
module RepairTheorems {
  import opened Outcomes
  import opened LlmContent
  import opened Decimals
  import opened SessionEvents
  import opened TurnTrace
  import opened Repair
  import opened Surface
  import opened SurfaceFolding

  // ---- The two ways of tracking calls agree ----

  /** Repair tracks declared calls, the validator recorded ones; this is what ties them together. */
  ghost predicate Agree(t: TraceState, r: Tail) {
    && t.turnIsOpen == r.turnIsOpen && (t.turnIsOpen ==> t.openTurn == r.openTurn)
    && t.stepIsOpen == r.stepIsOpen && (t.stepIsOpen ==> t.openStep == r.openStep)
    && Tracked(r)
    && (forall id :: id in r.pending ==> CallAgrees(t, id, r.pending[id]))
  }

  ghost predicate CallAgrees(t: TraceState, id: CallId, call: PendingCall) {
    && t.stepIsOpen && call.step == t.openStep
    && (call.startedAt.Some? ==> id in t.pendingCalls && 0 <= call.startedAt.value <= t.lastSeq)
  }

  lemma {:induction false} DeclareAllAgrees(t: TraceState, r: Tail, content: seq<Block>, step: int)
    requires Agree(t, r) && t.stepIsOpen && step == t.openStep
    ensures Agree(t, DeclareAll(r, content, step))
  {
    if content != [] {
      DeclareAllAgrees(t, r, content[..|content| - 1], step);
    }
  }

  lemma StepAgrees(t: TraceState, r: Tail, event: Event)
    requires Agree(t, r) && WellNested(t) && Step(t, event).Ok? && ScanEvent(r, event).Ok?
    ensures Agree(Step(t, event).value, ScanEvent(r, event).value)
  {
    hide DeclareAll, SyntheticNotStarted, Tracked;
    if event.kind.AssistantMessage? {
      DeclareAllAgrees(t, r, event.data.message.content, event.data.step);
    } else if event.kind.ToolCall? || event.kind.ToolResult? {
      CallEventAgrees(t, r, event);
    } else {
      BoundaryAgrees(t, r, event);
    }
  }

  lemma CallEventAgrees(t: TraceState, r: Tail, event: Event)
    requires Agree(t, r) && WellNested(t) && Step(t, event).Ok? && ScanEvent(r, event).Ok?
    requires event.kind.ToolCall? || event.kind.ToolResult?
    ensures Agree(Step(t, event).value, ScanEvent(r, event).value)
  {
    hide Tracked, SyntheticNotStarted;
    ScanEventTracked(r, event);
  }

  lemma BoundaryAgrees(t: TraceState, r: Tail, event: Event)
    requires Agree(t, r) && WellNested(t) && Step(t, event).Ok? && ScanEvent(r, event).Ok?
    requires !event.kind.AssistantMessage? && !event.kind.ToolCall? && !event.kind.ToolResult?
    ensures Agree(Step(t, event).value, ScanEvent(r, event).value)
  {
    hide Tracked, SyntheticNotStarted;
    ScanEventTracked(r, event);
  }

  lemma {:induction false} ScanAgrees(events: seq<Event>)
    requires Replay(events).Ok? && Scan(events).Ok?
    ensures Agree(Replay(events).value, Scan(events).value)
  {
    hide Step, ScanEvent;
    if events != [] {
      var before := events[..|events| - 1];
      ScanAgrees(before);
      ReplayWellNested(before);
      StepAgrees(Replay(before).value, Scan(before).value, events[|events| - 1]);
    }
  }

  // ---- One closing event at a time ----

  lemma WithoutFirst(order: seq<CallId>)
    requires order != [] && forall i, j :: 0 <= i < j < |order| ==> order[i] != order[j]
    ensures Without(order, order[0]) == order[1..]
  {
    WithoutAbsent(order[1..], order[0]);
  }

  lemma {:induction false} WithoutAbsent(order: seq<CallId>, id: CallId)
    requires forall i :: 0 <= i < |order| ==> order[i] != id
    ensures Without(order, id) == order
  {
    if order != [] {
      WithoutAbsent(order[1..], id);
    }
  }

  /** The result repair writes for the first pending call passes the validator and settles that call. */
  lemma ClosingResultAccepted(t: TraceState, r: Tail, time: int)
    requires Agree(t, r) && WellNested(t) && r.turnIsOpen && r.order != []
    ensures var id := r.order[0];
            var e := ClosingResult(r.openTurn, id, r.pending[id], t.lastSeq + 1, time);
            && Step(t, e) == Ok(t.(lastSeq := t.lastSeq + 1, pendingCalls := t.pendingCalls - {id}))
            && ScanEvent(r, e) == Ok(r.(order := r.order[1..], pending := r.pending - {id}))
  {
    var id := r.order[0];
    assert id in r.order && CallAgrees(t, id, r.pending[id]);
    WithoutFirst(r.order);
    hide Decimal;
  }

  lemma ClosingResultOnSurface(t: TraceState, r: Tail, time: int, nodes: seq<int>, log: seq<Event>, baseSeq: int)
    requires Agree(t, r) && WellNested(t) && r.order != []
    ensures var id := r.order[0];
            var e := ClosingResult(r.openTurn, id, r.pending[id], t.lastSeq + 1, time);
            PlanEvent(nodes, e, t.lastSeq + 1, log, baseSeq) == Ok(PlanAppend(t.lastSeq + 1))
  {
    var id := r.order[0];
    assert id in r.order && CallAgrees(t, id, r.pending[id]);
    hide Decimal;
  }

  lemma ClosingBoundariesAccepted(t: TraceState, r: Tail, time: int)
    requires Agree(t, r) && WellNested(t) && r.turnIsOpen && r.order == []
    ensures r.stepIsOpen ==>
              && var e := ClosingStep(r.openTurn, r.openStep, t.lastSeq + 1, time);
              && Step(t, e).Ok? && ScanEvent(r, e).Ok?
              && var (t', r') := (Step(t, e).value, ScanEvent(r, e).value);
              && Agree(t', r') && WellNested(t') && t'.lastSeq == t.lastSeq + 1
              && r'.turnIsOpen && !r'.stepIsOpen && r'.order == [] && r'.openTurn == r.openTurn
    ensures !r.stepIsOpen ==>
              && var e := ClosingTurn(r.openTurn, t.lastSeq + 1, time);
              && Step(t, e).Ok? && !Step(t, e).value.turnIsOpen && !Step(t, e).value.stepIsOpen
              && Step(t, e).value.pendingCalls == {}
              && ScanEvent(r, e).Ok? && !ScanEvent(r, e).value.turnIsOpen
  {
  }

  /** Both folds and the surface after one more event. */
  lemma OneMore(log: seq<Event>, event: Event, baseSeq: int)
    requires Replay(log).Ok? && Scan(log).Ok? && Fold(log, baseSeq).Ok?
    ensures Replay(log + [event]) == Step(Replay(log).value, event)
    ensures Scan(log + [event]) == ScanEvent(Scan(log).value, event)
  {
    hide Step, ScanEvent;
    assert (log + [event])[..|log|] == log;
  }

  predicate Balanced(t: TraceState) {
    !t.turnIsOpen && !t.stepIsOpen && t.pendingCalls == {}
  }

  function Seqs(from: int, count: nat): seq<int> {
    seq(count, i => from + i)
  }

  /** An event with no surface operation leaves the surface alone. */
  lemma BoundaryOnSurface(log: seq<Event>, e: Event, baseSeq: int)
    requires Fold(log, baseSeq).Ok? && e.seqNo == baseSeq + |log|
    requires (e.kind.StepEnd? || e.kind.TurnEnd?) && e.surfaceOp == None && e.sources == None
    ensures Fold(log + [e], baseSeq) == Fold(log, baseSeq)
  {
    FoldOneMore(log, e, baseSeq);
  }

  /** A log that both accept, ends balanced, and folds to f. */
  ghost predicate ClosedAs(log: seq<Event>, baseSeq: int, f: Folded) {
    && Replay(log).Ok? && Balanced(Replay(log).value)
    && Scan(log).Ok? && !Scan(log).value.turnIsOpen
    && Fold(log, baseSeq) == Ok(f)
  }

  lemma CloseFirst(log: seq<Event>, t: TraceState, r: Tail, f: Folded, baseSeq: int, time: int) returns (e: Event)
    requires log != [] && Replay(log) == Ok(t) && Scan(log) == Ok(r) && Fold(log, baseSeq) == Ok(f)
    requires r.turnIsOpen && Tracked(r) && r.order != [] && Agree(t, r) && WellNested(t)
    requires baseSeq + |log| == t.lastSeq + 1
    ensures r.order[0] in r.pending
    ensures e == ClosingResult(r.openTurn, r.order[0], r.pending[r.order[0]], t.lastSeq + 1, time)
    ensures Replay(log + [e]) == Ok(t.(lastSeq := t.lastSeq + 1, pendingCalls := t.pendingCalls - {r.order[0]}))
    ensures Scan(log + [e]) == Ok(r.(order := r.order[1..], pending := r.pending - {r.order[0]}))
    ensures Tracked(r.(order := r.order[1..], pending := r.pending - {r.order[0]}))
    ensures Fold(log + [e], baseSeq) == Ok(f.(nodes := f.nodes + [t.lastSeq + 1]))
  {
    hide Step, ScanEvent, Fold, Replay, Scan, PlanEvent, ClosingResult;
    assert r.order[0] in r.order;
    e := ClosingResult(r.openTurn, r.order[0], r.pending[r.order[0]], t.lastSeq + 1, time);
    ClosingResultAccepted(t, r, time);
    OneMore(log, e, baseSeq);
    ScanEventTracked(r, e);
    ClosingResultOnSurface(t, r, time, f.nodes, log, baseSeq);
    FoldOneMore(log, e, baseSeq);
  }

  lemma CloseBoundaries(log: seq<Event>, t: TraceState, r: Tail, f: Folded, baseSeq: int, time: int)
    requires log != [] && Replay(log) == Ok(t) && Scan(log) == Ok(r) && Fold(log, baseSeq) == Ok(f)
    requires r.turnIsOpen && Tracked(r) && r.order == [] && Agree(t, r) && WellNested(t)
    requires baseSeq + |log| == t.lastSeq + 1
    ensures OrderPends(r) && ClosedAs(log + Closers(r, t.lastSeq + 1, time), baseSeq, f)
  {
    hide Step, ScanEvent, Fold, Replay, Scan, PlanEvent, Closers, ClosedAs, Agree, WellNested;
    BoundaryClosers(r, t.lastSeq + 1, time);
    if r.stepIsOpen {
      var e := ClosingStep(r.openTurn, r.openStep, t.lastSeq + 1, time);
      ClosingBoundariesAccepted(t, r, time);
      OneMore(log, e, baseSeq);
      BoundaryOnSurface(log, e, baseSeq);
      var (t', r') := (Step(t, e).value, ScanEvent(r, e).value);
      CloseTurn(log + [e], t', r', f, baseSeq, time);
      assert log + Closers(r, t.lastSeq + 1, time) == log + [e] + [ClosingTurn(r.openTurn, t.lastSeq + 2, time)];
    } else {
      CloseTurn(log, t, r, f, baseSeq, time);
    }
  }

  lemma BoundaryClosers(r: Tail, seqNo: int, time: int)
    requires r.order == []
    ensures OrderPends(r)
    ensures Closers(r, seqNo, time) ==
      if r.stepIsOpen then [ClosingStep(r.openTurn, r.openStep, seqNo, time), ClosingTurn(r.openTurn, seqNo + 1, time)]
      else [ClosingTurn(r.openTurn, seqNo, time)]
  {
  }

  lemma CloseTurn(log: seq<Event>, t: TraceState, r: Tail, f: Folded, baseSeq: int, time: int)
    requires Replay(log) == Ok(t) && Scan(log) == Ok(r) && Fold(log, baseSeq) == Ok(f)
    requires r.turnIsOpen && !r.stepIsOpen && r.order == [] && Agree(t, r) && WellNested(t)
    requires baseSeq + |log| == t.lastSeq + 1
    ensures ClosedAs(log + [ClosingTurn(r.openTurn, t.lastSeq + 1, time)], baseSeq, f)
  {
    hide Step, ScanEvent, Fold, Replay, Scan, PlanEvent, Agree, WellNested;
    var e := ClosingTurn(r.openTurn, t.lastSeq + 1, time);
    ClosingBoundariesAccepted(t, r, time);
    OneMore(log, e, baseSeq);
    BoundaryOnSurface(log, e, baseSeq);
  }

  lemma TrackedPends(r: Tail)
    requires Tracked(r)
    ensures OrderPends(r)
  {
  }

  lemma SeqsSplit(nodes: seq<int>, from: int, count: nat)
    requires count > 0
    ensures nodes + Seqs(from, count) == nodes + [from] + Seqs(from + 1, count - 1)
  {
  }

  lemma {:induction false} ClosersAccepted(log: seq<Event>, t: TraceState, r: Tail, f: Folded, baseSeq: int, time: int)
    requires log != [] && Replay(log) == Ok(t) && Scan(log) == Ok(r) && Fold(log, baseSeq) == Ok(f)
    requires r.turnIsOpen && Tracked(r) && baseSeq + |log| == t.lastSeq + 1
    ensures OrderPends(r)
    ensures ClosedAs(log + Closers(r, t.lastSeq + 1, time), baseSeq,
                     Folded(f.nodes + Seqs(t.lastSeq + 1, |r.order|), f.replacements))
    decreases |r.order|
  {
    hide Step, ScanEvent, Fold, Replay, Scan, PlanEvent, Closers, ClosingResult, Agree, WellNested, Tracked, ClosedAs;
    ScanAgrees(log);
    ReplayWellNested(log);
    TrackedPends(r);
    if r.order != [] {
      var e := CloseFirst(log, t, r, f, baseSeq, time);
      var (t', r') := (Replay(log + [e]).value, Scan(log + [e]).value);
      ClosersAccepted(log + [e], t', r', Fold(log + [e], baseSeq).value, baseSeq, time);
      ClosersSplit(r, t.lastSeq + 1, time);
      assert log + Closers(r, t.lastSeq + 1, time) == log + [e] + Closers(r', t.lastSeq + 2, time);
      SeqsSplit(f.nodes, t.lastSeq + 1, |r.order|);
    } else {
      CloseBoundaries(log, t, r, f, baseSeq, time);
      assert f.nodes + Seqs(t.lastSeq + 1, 0) == f.nodes;
    }
  }

  lemma ClosersSplit(r: Tail, seqNo: int, time: int)
    requires OrderPends(r) && Tracked(r) && r.order != []
    ensures var rest := r.(order := r.order[1..], pending := r.pending - {r.order[0]});
            && OrderPends(rest)
            && Closers(r, seqNo, time) ==
               [ClosingResult(r.openTurn, r.order[0], r.pending[r.order[0]], seqNo, time)] + Closers(rest, seqNo + 1, time)
  {
    hide ClosingResult;
    var rest := r.(order := r.order[1..], pending := r.pending - {r.order[0]});
    assert ClosingResults(r, seqNo, time) ==
           [ClosingResult(r.openTurn, r.order[0], r.pending[r.order[0]], seqNo, time)] + ClosingResults(rest, seqNo + 1, time);
  }

  // ---- The theorem ----

  /**
    Repair closes every crash. For a log that the validator and the surface accept, and whose
    scan does not fail: the closed log is accepted by both, nothing stays open or pending, the
    surface gains one node for each unanswered call, and repairing again adds nothing.
  */
  lemma RepairClosesEveryCrash(events: seq<Event>, baseSeq: int)
    requires Replay(events).Ok? && Fold(events, baseSeq).Ok? && Interrupted(events).Ok?
    ensures var closed := events + Interrupted(events).value;
            && Replay(closed).Ok? && Balanced(Replay(closed).value)
            && Fold(closed, baseSeq).Ok?
            && Fold(events, baseSeq).value.nodes <= Fold(closed, baseSeq).value.nodes
            && Fold(closed, baseSeq).value.replacements == Fold(events, baseSeq).value.replacements
            && Interrupted(closed) == Ok([])
  {
    hide Step, ScanEvent, PlanEvent, Closers;
    ScanTracked(events);
    ScanAgrees(events);
    ReplayWellNested(events);
    var (t, r) := (Replay(events).value, Scan(events).value);
    if r.turnIsOpen && events != [] {
      FoldedLog(events, baseSeq, |events|);
      ClosersAccepted(events, t, r, Fold(events, baseSeq).value, baseSeq, events[|events| - 1].time);
    } else {
      assert events + [] == events;
    }
  }

  /** The scan of a validated log can only fail on a tool result with no tool behind it. */
  predicate ForeignResult(e: Event) {
    e.kind == ToolResult && e.data.ToolResultData? && !e.data.message.source.ToolSource?
  }

  ghost predicate HasForeignResult(events: seq<Event>) {
    exists i :: 0 <= i < |events| && ForeignResult(events[i])
  }

  lemma {:induction false} ScanFailsExactly(events: seq<Event>)
    requires Replay(events).Ok?
    ensures Scan(events).Err? <==> HasForeignResult(events)
  {
    hide Step, ScanEvent, HasForeignResult, ForeignResult;
    if events == [] {
      NoForeignResult();
    } else {
      var (before, last) := (events[..|events| - 1], events[|events| - 1]);
      ScanFailsExactly(before);
      if Scan(before).Ok? {
        ScanEventFailsExactly(Replay(before).value, Scan(before).value, last);
      }
      ForeignSplits(before, last);
      assert events == before + [last];
    }
  }

  lemma NoForeignResult()
    ensures !HasForeignResult([])
  {
  }

  lemma ForeignSplits(before: seq<Event>, last: Event)
    ensures HasForeignResult(before + [last]) <==> HasForeignResult(before) || ForeignResult(last)
  {
    hide ForeignResult;
    var events := before + [last];
    assert events[|before|] == last && forall i :: 0 <= i < |before| ==> events[i] == before[i];
  }

  lemma ScanEventFailsExactly(t: TraceState, r: Tail, event: Event)
    requires Step(t, event).Ok?
    ensures ScanEvent(r, event).Err? <==> ForeignResult(event)
  {
  }

  lemma {:induction false} ReplayShorter(events: seq<Event>, n: nat)
    requires n <= |events| && Replay(events).Ok?
    ensures Replay(events[..n]).Ok?
  {
    hide Step;
    if n < |events| {
      assert events[..|events| - 1][..n] == events[..n];
      ReplayShorter(events[..|events| - 1], n);
    } else {
      assert events[..n] == events;
    }
  }

  /** A tool result whose range is still on the surface has a tool behind it. */
  lemma LiveResultHasTool(t: TraceState, nodes: seq<int>, event: Event, expectedSeq: int, events: seq<Event>, baseSeq: int)
    requires Step(t, event).Ok? && PlanEvent(nodes, event, expectedSeq, events, baseSeq).Ok?
    requires Replaces(event) ==> event.surfaceOp.value.end >= baseSeq
    ensures !ForeignResult(event)
  {
    hide ProvenanceHolds, IndexOf, SyntheticNotStarted;
  }

  lemma LiveResultHasToolAt(events: seq<Event>, baseSeq: int, i: nat)
    requires i < |events| && Replay(events[..i + 1]).Ok? && FoldPrefix(events, baseSeq, i + 1).Ok?
    requires Replaces(events[i]) ==> events[i].surfaceOp.value.end >= baseSeq
    ensures !ForeignResult(events[i])
  {
    hide Step, PlanEvent, ForeignResult;
    assert events[..i + 1][..i] == events[..i];
    LiveResultHasTool(Replay(events[..i]).value, FoldPrefix(events, baseSeq, i).value.nodes, events[i],
                      baseSeq + i, events, baseSeq);
  }

  lemma LiveResultsHaveTools(events: seq<Event>, baseSeq: int)
    requires Replay(events).Ok? && FoldPrefix(events, baseSeq, |events|).Ok?
    requires forall i :: 0 <= i < |events| && Replaces(events[i]) ==> events[i].surfaceOp.value.end >= baseSeq
    ensures forall i :: 0 <= i < |events| ==> !ForeignResult(events[i])
  {
    hide Replay, FoldPrefix, ForeignResult;
    forall i | 0 <= i < |events| ensures !ForeignResult(events[i]) {
      ReplayShorter(events, i + 1);
      FoldPrefixShorter(events, baseSeq, i + 1, |events|);
      LiveResultHasToolAt(events, baseSeq, i);
    }
  }

  /**
    On a log the surface accepts, such a result is a replacement whose end has been trimmed away:
    with no such event, repair always succeeds.
  */
  lemma RepairSucceeds(events: seq<Event>, baseSeq: int)
    requires Replay(events).Ok? && Fold(events, baseSeq).Ok?
    requires forall i :: 0 <= i < |events| && Replaces(events[i]) ==> events[i].surfaceOp.value.end >= baseSeq
    ensures Interrupted(events).Ok?
  {
    hide Replay, FoldPrefix, Scan, Closers, ForeignResult;
    LiveResultsHaveTools(events, baseSeq);
    ScanFailsExactly(events);
  }

  // ---- Repair can fail on a log that both accept ----

  const DETACHED: Event := Event(ToolResult, 2, 0,
                                 ToolResultData(1, 1, Message("m", UserRole, NoSource, []), None, None),
                                 false, Some(ReplaceOp(0, 0)), Some([0]))

  const TURN_ONE: Event := Event(TurnStart, 1, 0, TurnStartData(1), false, None, None)

  /** An open turn, then a tool result without a tool that replaces a node trimmed from the head. */
  const UNREPAIRABLE: seq<Event> := [TURN_ONE, DETACHED]

  lemma UnrepairableReplays()
    ensures Replay([TURN_ONE]) == Ok(EMPTY_TRACE.(lastSeq := 1, openTurn := 1, turnIsOpen := true))
    ensures Step(EMPTY_TRACE.(lastSeq := 1, openTurn := 1, turnIsOpen := true), DETACHED).Ok?
    ensures Fold([TURN_ONE], 1) == Ok(Folded([], []))
    ensures PlanEvent([], DETACHED, 2, [TURN_ONE], 1) == Ok(PlanAppend(2))
  {
    assert [TURN_ONE][..0] == [] && Replay([]) == Ok(EMPTY_TRACE);
    assert ProvenanceHolds(DETACHED, []);
    assert FoldPrefix([TURN_ONE], 1, 0) == Ok(Folded([], []));
  }

  /** Validator and surface accept this log, and repair returns an error for it. */
  lemma RepairCanFail()
    ensures Replay(UNREPAIRABLE).Ok? && Fold(UNREPAIRABLE, 1).Ok? && Interrupted(UNREPAIRABLE).Err?
  {
    hide Step, PlanEvent, FoldPrefix, Closers;
    UnrepairableReplays();
    assert UNREPAIRABLE == [TURN_ONE] + [DETACHED] && UNREPAIRABLE[..1] == [TURN_ONE];
    FoldOneMore([TURN_ONE], DETACHED, 1);
    assert ForeignResult(UNREPAIRABLE[1]);
    ScanFailsExactly(UNREPAIRABLE);
  }
}
