/**
  What the surface of a session log accepts, told without the planner: positions on the surface,
  the events already in the log and what a message cites (sessionlog/surface.go).
*/
module SurfaceRules {
  import opened Outcomes
  import opened LlmContent
  import opened SessionEvents
  import opened Surface
  import opened SurfaceFolding

  // ---- The rules ----

  predicate ModelVisible(event: Event) {
    event.kind == UserMessage || event.kind == AssistantMessage || event.kind == ToolResult
  }

  function Elements(xs: seq<int>): set<int> {
    set x | x in xs
  }

  /** Earlier events, each cited once, the hidden ones among them; only an assistant message may cite nobody in particular. */
  predicate CitesProperly(event: Event, hidden: seq<int>) {
    match event.sources
    case None => hidden == []
    case Some(cited) =>
      && (|cited| == 0 ==> event.kind == AssistantMessage)
      && (forall c <- Elements(cited) :: 0 <= c < event.seqNo)
      && |Elements(cited)| == |cited|
      && Elements(hidden) <= Elements(cited)
  }

  /** A tool message as one is written: by the user role, from a tool, with one result block. */
  predicate SingleResult(data: Payload) {
    && data.ToolResultData? && data.message.role == UserRole && data.message.source.ToolSource?
    && |data.message.content| == 1 && data.message.content[0].ToolResultBlock?
  }

  /** The same tool result with other content in its block, and nothing else touched. */
  function Overwritten(data: Payload, content: seq<Block>): Payload
    requires SingleResult(data)
  {
    data.(message := data.message.(content := [data.message.content[0].(content := content)]))
  }

  ghost predicate RewritesOnlyContent(original: Event, event: Event) {
    && original.kind == ToolResult && SingleResult(original.data)
    && exists content :: event.data == Overwritten(original.data, content)
  }

  /** The stretch from the node start to the node end; from the front where start was trimmed away. */
  predicate Stretch(nodes: seq<int>, start: int, end: int, baseSeq: int, i: nat, j: nat) {
    && i <= j < |nodes| && nodes[j] == end
    && if start in nodes then nodes[i] == start else start < baseSeq && i == 0
  }

  /** A replacement of the nodes i to j by the event. */
  ghost predicate Replaced(f: Folded, event: Event, start: int, end: int, log: seq<Event>, baseSeq: int, i: nat, j: nat, g: Folded)
    requires i <= j < |f.nodes|
  {
    && CitesProperly(event, f.nodes[i..j + 1])
    && (event.kind == ToolResult ==>
          i == j && 0 <= f.nodes[i] - baseSeq < |log| && RewritesOnlyContent(log[f.nodes[i] - baseSeq], event))
    && g.nodes == f.nodes[..i] + [event.seqNo] + f.nodes[j + 1..]
    && g.replacements == f.replacements + [Replacement(event.seqNo, start, end, f.nodes[i..j + 1])]
  }

  ghost predicate AppendedTo(f: Folded, event: Event, g: Folded) {
    CitesProperly(event, []) && g.nodes == f.nodes + [event.seqNo] && g.replacements == f.replacements
  }

  /** The surface may go from f to g with this event as the next of the log. */
  ghost predicate Moves(f: Folded, event: Event, log: seq<Event>, baseSeq: int, g: Folded) {
    && event.seqNo == baseSeq + |log|
    && if !ModelVisible(event) then event.surfaceOp == None && event.sources == None && g == f
       else match event.surfaceOp
         case None => false
         case Some(AppendOp) => AppendedTo(f, event, g)
         case Some(ReplaceOp(start, end)) =>
           if end in f.nodes then
             exists i: nat, j: nat :: Stretch(f.nodes, start, end, baseSeq, i, j) && Replaced(f, event, start, end, log, baseSeq, i, j, g)
           else
             end < baseSeq && (start in f.nodes || start < baseSeq) && AppendedTo(f, event, g)
  }

  /** A rewrite of one live, cited tool result that cannot be compared: one of the two payloads does not decode. */
  ghost predicate CannotCompare(f: Folded, event: Event, log: seq<Event>, baseSeq: int) {
    && event.seqNo == baseSeq + |log| && event.kind == ToolResult
    && event.surfaceOp.Some? && event.surfaceOp.value.ReplaceOp?
    && var op := event.surfaceOp.value;
       exists i: nat ::
         && Stretch(f.nodes, op.start, op.end, baseSeq, i, i) && CitesProperly(event, [f.nodes[i]])
         && 0 <= f.nodes[i] - baseSeq < |log|
         && var original := log[f.nodes[i] - baseSeq];
            original.kind == ToolResult && !(original.data.ToolResultData? && event.data.ToolResultData?)
  }

  // ---- The planner follows exactly these rules ----

  lemma {:induction false} ElementsCount(xs: seq<int>)
    ensures |Elements(xs)| <= |xs|
    ensures |Elements(xs)| == |xs| <==> !HasDuplicate(xs)
  {
    if xs == [] {
      assert Elements(xs) == {};
    } else {
      var rest := xs[1..];
      ElementsCount(rest);
      assert Elements(xs) == Elements(rest) + {xs[0]};
      DuplicateSplits(xs);
    }
  }

  lemma DuplicateSplits(xs: seq<int>)
    requires xs != []
    ensures HasDuplicate(xs) <==> HasDuplicate(xs[1..]) || xs[0] in xs[1..]
  {
    var rest := xs[1..];
    if HasDuplicate(rest) {
      var i, j :| 0 <= i < j < |rest| && rest[i] == rest[j];
      assert xs[i + 1] == xs[j + 1];
    }
    if xs[0] in rest {
      var j :| 0 <= j < |rest| && rest[j] == xs[0];
      assert xs[0] == xs[j + 1];
    }
    if HasDuplicate(xs) {
      var i, j :| 0 <= i < j < |xs| && xs[i] == xs[j];
      assert rest[j - 1] == xs[j];
      assert i > 0 ==> rest[i - 1] == xs[i];
    }
  }

  lemma ElementsContained(a: seq<int>, b: seq<int>)
    ensures (forall x <- a :: x in b) <==> Elements(a) <= Elements(b)
    ensures b == [] ==> ((forall x <- a :: x in b) <==> a == [])
  {
    if Elements(a) <= Elements(b) {
      forall x | x in a ensures x in b {
        assert x in Elements(a);
      }
    }
    if forall x <- a :: x in b {
      forall x | x in Elements(a) ensures x in Elements(b) {
        assert x in a;
      }
    }
    if a != [] {
      assert a[0] in a;
    }
  }

  lemma ElementsBelow(a: seq<int>, limit: int)
    ensures (forall x <- a :: 0 <= x < limit) <==> (forall x <- Elements(a) :: 0 <= x < limit)
  {
    if forall x <- Elements(a) :: 0 <= x < limit {
      forall x | x in a ensures 0 <= x < limit {
        assert x in Elements(a);
      }
    }
  }

  lemma CitesExactly(event: Event, hidden: seq<int>)
    ensures ProvenanceHolds(event, hidden) <==> CitesProperly(event, hidden)
  {
    hide HasDuplicate, Elements;
    var cited := if event.sources.Some? then event.sources.value else [];
    ElementsContained(hidden, cited);
    ElementsBelow(cited, event.seqNo);
    ElementsCount(cited);
    if cited == [] {
      assert !HasDuplicate([]) by { NoDuplicate(); }
    }
  }

  lemma NoDuplicate()
    ensures !HasDuplicate([])
  {
  }

  /** Any content makes a well-formed tool result into one that may replace it. */
  lemma EveryContentIsAllowed(data: Payload, content: seq<Block>)
    requires SingleResult(data)
    ensures MatchExceptContent(data, Overwritten(data, content))
  {
  }

  /** Whatever may replace a tool result differs from it in content only. */
  lemma OnlyContentIsAllowed(data: Payload, other: Payload)
    requires data.ToolResultData? && other.ToolResultData? && MatchExceptContent(data, other)
    ensures SingleResult(data) && SingleResult(other) && other == Overwritten(data, other.message.content[0].content)
  {
  }

  lemma RewriteAllowedExactly(event: Event, x: int, log: seq<Event>, baseSeq: int)
    requires event.kind == ToolResult && 0 <= x - baseSeq < |log| && log[x - baseSeq].seqNo == x
    ensures RewriteError(event, [x], log, baseSeq).None? <==> RewritesOnlyContent(log[x - baseSeq], event)
    ensures RewriteError(event, [x], log, baseSeq) == Some(MalformedValue) <==>
            log[x - baseSeq].kind == ToolResult && !(log[x - baseSeq].data.ToolResultData? && event.data.ToolResultData?)
    ensures RewriteError(event, [x], log, baseSeq).Some? ==> RewriteError(event, [x], log, baseSeq).value != TraceViolation
  {
    hide MatchExceptContent;
    var original := log[x - baseSeq];
    if original.data.ToolResultData? && event.data.ToolResultData? && MatchExceptContent(original.data, event.data) {
      OnlyContentIsAllowed(original.data, event.data);
    }
    if original.kind == ToolResult && RewritesOnlyContent(original, event) {
      var content :| event.data == Overwritten(original.data, content);
      EveryContentIsAllowed(original.data, content);
    }
  }

  lemma RewriteNeedsOne(event: Event, hidden: seq<int>, log: seq<Event>, baseSeq: int)
    ensures event.kind != ToolResult ==> RewriteError(event, hidden, log, baseSeq).None?
    ensures event.kind == ToolResult && |hidden| != 1 ==> RewriteError(event, hidden, log, baseSeq) == Some(SurfaceViolation)
  {
  }

  /** Once each node occurs once, a range is the stretch between its ends. */
  lemma StretchExactly(nodes: seq<int>, start: int, end: int, baseSeq: int)
    requires forall i, j :: 0 <= i < j < |nodes| ==> nodes[i] != nodes[j]
    ensures var range := ReplacementRange(nodes, start, end, baseSeq);
            && (range.Err? ==> range.error == SurfaceViolation)
            && (range.Ok? && range.value.Gone? <==> end !in nodes && end < baseSeq && (start in nodes || start < baseSeq))
            && (forall i: nat, j: nat :: Stretch(nodes, start, end, baseSeq, i, j) <==> range == Ok(Spans(i, j)))
  {
    hide IndexOf;
    var (i, j) := (IndexOf(nodes, start), IndexOf(nodes, end));
    assert start in nodes <==> i >= 0;
    assert end in nodes <==> j >= 0;
    forall a: nat, b: nat ensures Stretch(nodes, start, end, baseSeq, a, b) <==> ReplacementRange(nodes, start, end, baseSeq) == Ok(Spans(a, b))
    {
      assert Stretch(nodes, start, end, baseSeq, a, b) ==> b == j && a == if i >= 0 then i else 0;
    }
  }

  lemma NodesOnce(log: seq<Event>, baseSeq: int)
    requires Fold(log, baseSeq).Ok?
    ensures var nodes := Fold(log, baseSeq).value.nodes;
            forall i, j :: 0 <= i < j < |nodes| ==> nodes[i] != nodes[j]
  {
    hide FoldPrefix;
    var nodes := Fold(log, baseSeq).value.nodes;
    forall i, j | 0 <= i < j < |nodes| ensures nodes[i] != nodes[j] {
      EachSurfaceEventOnce(log, baseSeq, nodes[i]);
      if nodes[i] == nodes[j] {
        TwiceInside(nodes, i, j);
      }
    }
  }

  lemma TwiceInside(nodes: seq<int>, i: nat, j: nat)
    requires i < j < |nodes| && nodes[i] == nodes[j]
    ensures multiset(nodes)[nodes[i]] >= 2
  {
    assert nodes == nodes[..j] + nodes[j..];
    assert nodes[..j][i] == nodes[i] && nodes[j..][0] == nodes[i];
    assert nodes[i] in multiset(nodes[..j]) && nodes[i] in multiset(nodes[j..]);
  }

  /** What a surface state promises about the log it was folded from. */
  ghost predicate Sits(f: Folded, log: seq<Event>, baseSeq: int) {
    && (forall i, j :: 0 <= i < j < |f.nodes| ==> f.nodes[i] != f.nodes[j])
    && (forall i :: 0 <= i < |f.nodes| ==> 0 <= f.nodes[i] - baseSeq < |log| && log[f.nodes[i] - baseSeq].seqNo == f.nodes[i])
  }

  lemma FoldSits(log: seq<Event>, baseSeq: int)
    requires Fold(log, baseSeq).Ok?
    ensures Sits(Fold(log, baseSeq).value, log, baseSeq)
  {
    hide FoldPrefix;
    NodesOnce(log, baseSeq);
    FoldedLog(log, baseSeq, |log|);
    var nodes := Fold(log, baseSeq).value.nodes;
    forall i | 0 <= i < |nodes| ensures 0 <= nodes[i] - baseSeq < |log| && log[nodes[i] - baseSeq].seqNo == nodes[i] {
      assert nodes[i] in nodes;
    }
  }

  /** The state after an accepted plan. */
  function Planned(f: Folded, event: Event, log: seq<Event>, baseSeq: int): Result<Folded, LogError> {
    var plan :- PlanEvent(f.nodes, event, baseSeq + |log|, log, baseSeq);
    Ok(ApplyPlan(f, plan))
  }

  lemma SpanMoves(f: Folded, event: Event, start: int, end: int, log: seq<Event>, baseSeq: int, i: nat, j: nat)
    requires Sits(f, log, baseSeq) && i <= j < |f.nodes|
    requires ReplacementRange(f.nodes, start, end, baseSeq) == Ok(Spans(i, j))
    requires event.seqNo == baseSeq + |log| && ModelVisible(event) && event.surfaceOp == Some(ReplaceOp(start, end))
    ensures forall g :: Replaced(f, event, start, end, log, baseSeq, i, j, g) <==> Planned(f, event, log, baseSeq) == Ok(g)
    ensures Planned(f, event, log, baseSeq).Err? ==>
              Planned(f, event, log, baseSeq).error == if CannotCompare(f, event, log, baseSeq) then MalformedValue else SurfaceViolation
  {
    hide ReplacementRange, ProvenanceHolds, RewriteError, CitesProperly, RewritesOnlyContent, HasDuplicate, Stretch;
    var hidden := f.nodes[i..j + 1];
    StretchExactly(f.nodes, start, end, baseSeq);
    CitesExactly(event, hidden);
    RewriteNeedsOne(event, hidden, log, baseSeq);
    if i == j && event.kind == ToolResult {
      assert hidden == [f.nodes[i]];
      RewriteAllowedExactly(event, f.nodes[i], log, baseSeq);
    }
  }

  lemma AppendMoves(f: Folded, event: Event, log: seq<Event>, baseSeq: int)
    requires event.seqNo == baseSeq + |log| && ModelVisible(event) && event.surfaceOp.Some?
    requires event.surfaceOp.value.ReplaceOp? ==>
      var op := event.surfaceOp.value; ReplacementRange(f.nodes, op.start, op.end, baseSeq) == Ok(Gone)
    ensures forall g :: AppendedTo(f, event, g) <==> Planned(f, event, log, baseSeq) == Ok(g)
    ensures Planned(f, event, log, baseSeq).Err? ==> Planned(f, event, log, baseSeq).error == SurfaceViolation
  {
    hide ReplacementRange, ProvenanceHolds, RewriteError, CitesProperly;
    CitesExactly(event, []);
  }

  lemma PlanMoves(f: Folded, event: Event, log: seq<Event>, baseSeq: int)
    requires Sits(f, log, baseSeq)
    ensures forall g :: Moves(f, event, log, baseSeq, g) <==> Planned(f, event, log, baseSeq) == Ok(g)
    ensures Planned(f, event, log, baseSeq).Err? ==>
              Planned(f, event, log, baseSeq).error == if CannotCompare(f, event, log, baseSeq) then MalformedValue else SurfaceViolation
  {
    hide ReplacementRange, ProvenanceHolds, RewriteError, CitesProperly, Stretch, Replaced, AppendedTo;
    if event.seqNo == baseSeq + |log| && ModelVisible(event) && event.surfaceOp.Some? {
      match event.surfaceOp.value {
        case AppendOp =>
          AppendMoves(f, event, log, baseSeq);
        case ReplaceOp(start, end) =>
          StretchExactly(f.nodes, start, end, baseSeq);
          ReplaceMoves(f, event, start, end, log, baseSeq);
      }
    }
  }

  lemma ReplaceMoves(f: Folded, event: Event, start: int, end: int, log: seq<Event>, baseSeq: int)
    requires Sits(f, log, baseSeq)
    requires event.seqNo == baseSeq + |log| && ModelVisible(event) && event.surfaceOp == Some(ReplaceOp(start, end))
    ensures forall g :: Moves(f, event, log, baseSeq, g) <==> Planned(f, event, log, baseSeq) == Ok(g)
    ensures Planned(f, event, log, baseSeq).Err? ==>
              Planned(f, event, log, baseSeq).error == if CannotCompare(f, event, log, baseSeq) then MalformedValue else SurfaceViolation
  {
    hide ReplacementRange, ProvenanceHolds, RewriteError, CitesProperly, Stretch, Replaced, AppendedTo;
    StretchExactly(f.nodes, start, end, baseSeq);
    EndOnSurface(f.nodes, start, end, baseSeq);
    var range := ReplacementRange(f.nodes, start, end, baseSeq);
    if range.Ok? {
      match range.value {
        case Gone =>
          AppendMoves(f, event, log, baseSeq);
        case Spans(i, j) =>
          SpanMoves(f, event, start, end, log, baseSeq, i, j);
          assert Stretch(f.nodes, start, end, baseSeq, i, j);
      }
    }
  }

  lemma EndOnSurface(nodes: seq<int>, start: int, end: int, baseSeq: int)
    requires forall i, j :: 0 <= i < j < |nodes| ==> nodes[i] != nodes[j]
    ensures var range := ReplacementRange(nodes, start, end, baseSeq);
            && (range.Ok? && range.value.Spans? ==> end in nodes)
            && (range.Err? && end !in nodes ==> !(end < baseSeq && (start in nodes || start < baseSeq)))
  {
    hide IndexOf;
    var (i, j) := (IndexOf(nodes, start), IndexOf(nodes, end));
    assert start in nodes <==> i >= 0;
    assert end in nodes <==> j >= 0;
  }

  /**
    What the surface accepts, exactly. After a log that folds, the next event moves the surface as the
    rules say or the log fails, and it fails as malformed only where a payload to compare does not decode.
  */
  lemma NextEventMovesExactly(log: seq<Event>, event: Event, baseSeq: int)
    requires Fold(log, baseSeq).Ok?
    ensures var f, next := Fold(log, baseSeq).value, Fold(log + [event], baseSeq);
            && (forall g :: Moves(f, event, log, baseSeq, g) <==> next == Ok(g))
            && (next.Err? ==> next.error == if CannotCompare(f, event, log, baseSeq) then MalformedValue else SurfaceViolation)
  {
    hide FoldPrefix, PlanEvent, Moves, CannotCompare, Sits;
    FoldSits(log, baseSeq);
    FoldOneMore(log, event, baseSeq);
    PlanMoves(Fold(log, baseSeq).value, event, log, baseSeq);
  }
}
