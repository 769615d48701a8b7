/**
  The ordered, model-visible surface of a session log (sessionlog/surface.go): which events
  are on it, which nodes a replacement hides, and what happens once the head of the log is gone.
*/
module Surface {
  import opened Outcomes
  import opened LlmContent
  import opened SessionEvents

  /** A checked surface transition that has not been applied yet. */
  datatype Plan =
    | NoPlan
    | PlanAppend(seqNo: int)
    | PlanReplace(seqNo: int, start: int, end: int, startIndex: nat, endIndex: nat, shadowed: seq<int>)

  datatype Replacement = Replacement(seqNo: int, start: int, end: int, shadowed: seq<int>)

  datatype Folded = Folded(nodes: seq<int>, replacements: seq<Replacement>)

  /** Where a replacement lands: a live range, or nowhere because its end was trimmed away. */
  datatype Range = Spans(startIndex: nat, endIndex: nat) | Gone

  function IndexOf(nodes: seq<int>, x: int): (i: int)
    ensures -1 <= i < |nodes|
    ensures i >= 0 ==> nodes[i] == x
    ensures forall j :: 0 <= j < (if i == -1 then |nodes| else i) ==> nodes[j] != x
  {
    if nodes == [] then -1
    else if nodes[0] == x then 0
    else
      var rest := IndexOf(nodes[1..], x);
      if rest == -1 then -1 else rest + 1
  }

  function SurfaceOpOf(event: Event): Result<Option<SurfaceOp>, LogError> {
    if !SurfaceEligible(event.kind) then
      if event.surfaceOp.Some? || event.sources.Some? then Err(SurfaceViolation) else Ok(None)
    else if event.surfaceOp.None? then Err(SurfaceViolation)
    else Ok(event.surfaceOp)
  }

  predicate HasDuplicate(xs: seq<int>) {
    exists i, j :: 0 <= i < j < |xs| && xs[i] == xs[j]
  }

  /** assertProvenance: the cited events are earlier ones and include every hidden node. */
  predicate ProvenanceHolds(event: Event, shadowed: seq<int>) {
    var cited := if event.sources.Some? then event.sources.value else [];
    && (event.sources.Some? && cited == [] ==> event.kind.AssistantMessage?)
    && (forall s <- cited :: 0 <= s < event.seqNo)
    && !HasDuplicate(cited)
    && (forall s <- shadowed :: s in cited)
  }

  function ReplacementRange(nodes: seq<int>, start: int, end: int, baseSeq: int)
    : (r: Result<Range, LogError>)
    ensures r.Ok? && r.value.Spans? ==> r.value.startIndex <= r.value.endIndex < |nodes|
  {
    var startAt := IndexOf(nodes, start);
    if startAt == -1 && start >= baseSeq then Err(SurfaceViolation) else
      var startIndex := if startAt == -1 then 0 else startAt;
      var endIndex := IndexOf(nodes, end);
      if endIndex == -1 then
        if end >= baseSeq then Err(SurfaceViolation) else Ok(Gone)
      else if startIndex > endIndex then Err(SurfaceViolation)
      else Ok(Spans(startIndex, endIndex))
  }

  /** Two tool results that agree on everything except the content of the result block. */
  predicate MatchExceptContent(a: Payload, b: Payload)
    requires a.ToolResultData? && b.ToolResultData?
  {
    && a.turn == b.turn && a.step == b.step
    && a.error == b.error && a.meta == b.meta
    && a.message.id == b.message.id && a.message.role == b.message.role
    && a.message.source == b.message.source
    && a.message.ToolResult().Some? && b.message.ToolResult().Some?
    && a.message.content[0].toolCallId == b.message.content[0].toolCallId
    && a.message.content[0].isError == b.message.content[0].isError
  }

  /** assertToolResultRewrite; None means the rewrite is allowed. */
  function RewriteError(event: Event, shadowed: seq<int>, events: seq<Event>, baseSeq: int): Option<LogError> {
    if !event.kind.ToolResult? then None
    else if |shadowed| != 1 then Some(SurfaceViolation)
    else
      var index := shadowed[0] - baseSeq;
      if !(0 <= index < |events|) || events[index].seqNo != shadowed[0] || !events[index].kind.ToolResult? then
        Some(SurfaceViolation)
      else if !events[index].data.ToolResultData? || !event.data.ToolResultData? then Some(MalformedValue)
      else if !MatchExceptContent(events[index].data, event.data) then Some(SurfaceViolation)
      else None
  }

  function PlanAppending(event: Event): Result<Plan, LogError> {
    if ProvenanceHolds(event, []) then Ok(PlanAppend(event.seqNo)) else Err(SurfaceViolation)
  }

  function PlanReplacing(nodes: seq<int>, event: Event, start: int, end: int, events: seq<Event>, baseSeq: int)
    : (r: Result<Plan, LogError>)
    ensures r.Ok? ==> PlanFits(nodes, r.value)
    ensures r.Ok? ==> r.value == PlanAppend(event.seqNo) ||
                      (r.value.PlanReplace? && r.value.seqNo == event.seqNo && r.value.start == start && r.value.end == end)
  {
    var range :- ReplacementRange(nodes, start, end, baseSeq);
    match range
    case Gone => PlanAppending(event)
    case Spans(startIndex, endIndex) =>
      var shadowed := nodes[startIndex..endIndex + 1];
      if !ProvenanceHolds(event, shadowed) then Err(SurfaceViolation) else
        var rewrite := RewriteError(event, shadowed, events, baseSeq);
        if rewrite.Some? then Err(rewrite.value)
        else Ok(PlanReplace(event.seqNo, start, end, startIndex, endIndex, shadowed))
  }

  function PlanEvent(nodes: seq<int>, event: Event, expectedSeq: int, events: seq<Event>, baseSeq: int)
    : (r: Result<Plan, LogError>)
    ensures r.Ok? ==> PlanFits(nodes, r.value)
  {
    if event.seqNo != expectedSeq then Err(SurfaceViolation) else
      var operation :- SurfaceOpOf(event);
      match operation
      case None => Ok(NoPlan)
      case Some(AppendOp) => PlanAppending(event)
      case Some(ReplaceOp(start, end)) => PlanReplacing(nodes, event, start, end, events, baseSeq)
  }

  /** The plan fits the surface it was made for. */
  predicate PlanFits(nodes: seq<int>, plan: Plan) {
    plan.PlanReplace? ==>
      && plan.startIndex <= plan.endIndex < |nodes|
      && plan.shadowed == nodes[plan.startIndex..plan.endIndex + 1]
  }

  function ApplyPlan(f: Folded, plan: Plan): Folded
    requires PlanFits(f.nodes, plan)
  {
    match plan
    case NoPlan => f
    case PlanAppend(s) => f.(nodes := f.nodes + [s])
    case PlanReplace(s, start, end, startIndex, endIndex, shadowed) =>
      Folded(f.nodes[..startIndex] + [s] + f.nodes[endIndex + 1..],
             f.replacements + [Replacement(s, start, end, shadowed)])
  }

  /** What FoldSurface holds after its first n events; the whole log stays in reach of the planner. */
  function FoldPrefix(events: seq<Event>, baseSeq: int, n: nat): Result<Folded, LogError>
    requires n <= |events|
  {
    if n == 0 then Ok(Folded([], [])) else
      var before :- FoldPrefix(events, baseSeq, n - 1);
      var plan :- PlanEvent(before.nodes, events[n - 1], baseSeq + n - 1, events, baseSeq);
      Ok(ApplyPlan(before, plan))
  }

  function Fold(events: seq<Event>, baseSeq: int): Result<Folded, LogError> {
    FoldPrefix(events, baseSeq, |events|)
  }

  // ---- What a successful fold says about the log ----

  /** The shape of an accepted plan, without the conditions that were checked for it. */
  lemma PlanShape(nodes: seq<int>, event: Event, expectedSeq: int, events: seq<Event>, baseSeq: int)
    requires PlanEvent(nodes, event, expectedSeq, events, baseSeq).Ok?
    ensures var plan := PlanEvent(nodes, event, expectedSeq, events, baseSeq).value;
            && event.seqNo == expectedSeq
            && (plan == NoPlan <==> !OnSurface(event))
            && (plan != NoPlan ==> plan.seqNo == expectedSeq)
            && (plan.PlanReplace? ==> Replaces(event))
  {
    hide ProvenanceHolds, RewriteError, ReplacementRange;
  }

  lemma {:induction false} FoldPrefixShorter(events: seq<Event>, baseSeq: int, m: nat, n: nat)
    requires m <= n <= |events|
    requires FoldPrefix(events, baseSeq, n).Ok?
    ensures FoldPrefix(events, baseSeq, m).Ok?
  {
    hide PlanEvent;
    if m < n {
      FoldPrefixShorter(events, baseSeq, m, n - 1);
    }
  }

  /** Every node is the seq of a surface event already folded. */
  ghost predicate NodesKnown(nodes: seq<int>, events: seq<Event>, baseSeq: int, n: nat)
    requires n <= |events|
  {
    forall x <- nodes :: baseSeq <= x < baseSeq + n && events[x - baseSeq].seqNo == x && OnSurface(events[x - baseSeq])
  }

  lemma {:induction false} FoldedLog(events: seq<Event>, baseSeq: int, n: nat)
    requires n <= |events|
    requires FoldPrefix(events, baseSeq, n).Ok?
    ensures forall i :: 0 <= i < n ==> events[i].seqNo == baseSeq + i
    ensures NodesKnown(FoldPrefix(events, baseSeq, n).value.nodes, events, baseSeq, n)
  {
    hide PlanEvent, ApplyPlan, NodesKnown;
    if n == 0 {
      NothingKnown(events, baseSeq);
    } else {
      FoldedLog(events, baseSeq, n - 1);
      var before := FoldPrefix(events, baseSeq, n - 1).value;
      PlanShape(before.nodes, events[n - 1], baseSeq + n - 1, events, baseSeq);
      AppliedIsKnown(before, PlanEvent(before.nodes, events[n - 1], baseSeq + n - 1, events, baseSeq).value, events, baseSeq, n - 1);
    }
  }

  lemma NothingKnown(events: seq<Event>, baseSeq: int)
    ensures NodesKnown([], events, baseSeq, 0)
  {
  }

  lemma AppliedIsKnown(f: Folded, plan: Plan, events: seq<Event>, baseSeq: int, n: nat)
    requires n < |events| && NodesKnown(f.nodes, events, baseSeq, n) && PlanFits(f.nodes, plan)
    requires events[n].seqNo == baseSeq + n && (plan != NoPlan ==> plan.seqNo == baseSeq + n && OnSurface(events[n]))
    ensures NodesKnown(ApplyPlan(f, plan).nodes, events, baseSeq, n + 1)
  {
    forall x | x in ApplyPlan(f, plan).nodes
      ensures baseSeq <= x < baseSeq + n + 1 && events[x - baseSeq].seqNo == x && OnSurface(events[x - baseSeq])
    {
      assert x in f.nodes || (plan != NoPlan && x == plan.seqNo);
    }
  }

  // ---- Planning with the whole log agrees with planning with the prefix ----

  /** The planner never looks past the events that are already folded. */
  lemma PlanReadsOnlyPast(nodes: seq<int>, events: seq<Event>, baseSeq: int, n: nat)
    requires n < |events|
    requires NodesKnown(nodes, events, baseSeq, n)
    ensures PlanEvent(nodes, events[n], baseSeq + n, events, baseSeq)
         == PlanEvent(nodes, events[n], baseSeq + n, events[..n], baseSeq)
  {
    hide ReplacementRange, ProvenanceHolds, RewriteError, NodesKnown;
    var op := events[n].surfaceOp;
    if op.Some? && op.value.ReplaceOp? {
      var range := ReplacementRange(nodes, op.value.start, op.value.end, baseSeq);
      if range.Ok? && range.value.Spans? {
        RewriteReadsOnlyPast(nodes, events[n], range.value.startIndex, range.value.endIndex, events, baseSeq, n);
      }
    }
  }

  lemma RewriteReadsOnlyPast(nodes: seq<int>, event: Event, i: nat, j: nat, events: seq<Event>, baseSeq: int, n: nat)
    requires i <= j < |nodes| && n <= |events| && NodesKnown(nodes, events, baseSeq, n)
    ensures RewriteError(event, nodes[i..j + 1], events, baseSeq) == RewriteError(event, nodes[i..j + 1], events[..n], baseSeq)
  {
    assert nodes[i..j + 1][0] in nodes;
  }

  /**
    The incremental form refines the batch form: folding the first n events with the whole
    log at hand equals folding the log that ends there, failure included.
  */
  lemma {:induction false} BatchEqualsIncremental(events: seq<Event>, baseSeq: int, n: nat)
    requires n <= |events|
    ensures FoldPrefix(events, baseSeq, n) == Fold(events[..n], baseSeq)
    decreases n
  {
    hide PlanEvent;
    if n > 0 {
      BatchEqualsIncremental(events, baseSeq, n - 1);
      BatchEqualsIncremental(events[..n], baseSeq, n - 1);
      assert events[..n][..n - 1] == events[..n - 1];
      var before := FoldPrefix(events, baseSeq, n - 1);
      if before.Ok? {
        FoldedLog(events, baseSeq, n - 1);
        FoldedLog(events[..n], baseSeq, n - 1);
        PlanReadsOnlyPast(before.value.nodes, events, baseSeq, n - 1);
        PlanReadsOnlyPast(before.value.nodes, events[..n], baseSeq, n - 1);
      }
    }
  }

  // ---- Conservation ----

  function SurfaceSeqs(events: seq<Event>): seq<int> {
    if events == [] then [] else
      var last := events[|events| - 1];
      SurfaceSeqs(events[..|events| - 1]) + (if OnSurface(last) then [last.seqNo] else [])
  }

  function ShadowedIn(replacements: seq<Replacement>): seq<int> {
    if replacements == [] then [] else
      ShadowedIn(replacements[..|replacements| - 1]) + replacements[|replacements| - 1].shadowed
  }

  /** A splice moves the replaced stretch from the nodes to the hidden ones. */
  lemma SpliceConserves(nodes: seq<int>, s: int, i: nat, j: nat)
    requires i <= j < |nodes|
    ensures multiset(nodes[..i] + [s] + nodes[j + 1..]) + multiset(nodes[i..j + 1]) == multiset(nodes) + multiset{s}
  {
    assert nodes == nodes[..i] + nodes[i..j + 1] + nodes[j + 1..];
  }

  ghost function Accounted(f: Folded): multiset<int> {
    multiset(f.nodes) + multiset(ShadowedIn(f.replacements))
  }

  lemma Regroup(a: multiset<int>, b: multiset<int>, c: multiset<int>, d: multiset<int>, e: multiset<int>)
    requires a + c == d + e
    ensures a + (b + c) == d + b + e
  {
    assert a + (b + c) == (a + c) + b;
  }

  lemma ReplaceConserves(nodes: seq<int>, replacements: seq<Replacement>, r: Replacement, i: nat, j: nat)
    requires i <= j < |nodes| && r.shadowed == nodes[i..j + 1]
    ensures Accounted(Folded(nodes[..i] + [r.seqNo] + nodes[j + 1..], replacements + [r])) ==
            Accounted(Folded(nodes, replacements)) + multiset{r.seqNo}
  {
    SpliceConserves(nodes, r.seqNo, i, j);
    hide ShadowedIn;
    Regroup(multiset(nodes[..i] + [r.seqNo] + nodes[j + 1..]), multiset(ShadowedIn(replacements)),
            multiset(r.shadowed), multiset(nodes), multiset{r.seqNo});
  }

  lemma AppendConserves(f: Folded, s: int)
    ensures Accounted(f.(nodes := f.nodes + [s])) == Accounted(f) + multiset{s}
  {
    var hidden := multiset(ShadowedIn(f.replacements));
    assert multiset(f.nodes + [s]) + hidden == multiset(f.nodes) + hidden + multiset{s};
  }

  lemma ApplyConserves(before: Folded, plan: Plan)
    requires PlanFits(before.nodes, plan)
    ensures Accounted(ApplyPlan(before, plan)) ==
            Accounted(before) + (if plan == NoPlan then multiset{} else multiset{plan.seqNo})
  {
    hide Accounted;
    match plan
    case NoPlan =>
    case PlanAppend(s) =>
      AppendConserves(before, s);
    case PlanReplace(s, start, end, i, j, shadowed) =>
      ReplaceConserves(before.nodes, before.replacements, Replacement(s, start, end, shadowed), i, j);
  }

  /** Nothing is lost and nothing is invented: the surface and the hidden nodes make up the log. */
  lemma {:induction false} Conservation(events: seq<Event>, baseSeq: int, n: nat)
    requires n <= |events|
    requires FoldPrefix(events, baseSeq, n).Ok?
    ensures Accounted(FoldPrefix(events, baseSeq, n).value) == multiset(SurfaceSeqs(events[..n]))
  {
    hide PlanEvent, ApplyPlan, Accounted, SurfaceSeqs;
    if n == 0 {
      NothingAccounted(events);
    } else {
      Conservation(events, baseSeq, n - 1);
      var before := FoldPrefix(events, baseSeq, n - 1).value;
      PlanShape(before.nodes, events[n - 1], baseSeq + n - 1, events, baseSeq);
      ApplyConserves(before, PlanEvent(before.nodes, events[n - 1], baseSeq + n - 1, events, baseSeq).value);
      OneMoreSurfaceSeq(events, n);
    }
  }

  lemma NothingAccounted(events: seq<Event>)
    ensures Accounted(Folded([], [])) == multiset(SurfaceSeqs(events[..0])) == multiset{}
  {
  }

  lemma OneMoreSurfaceSeq(events: seq<Event>, n: nat)
    requires 0 < n <= |events|
    ensures multiset(SurfaceSeqs(events[..n]))
         == multiset(SurfaceSeqs(events[..n - 1])) + if OnSurface(events[n - 1]) then multiset{events[n - 1].seqNo} else multiset{}
  {
    assert events[..n][..n - 1] == events[..n - 1];
  }

  lemma {:induction false} SurfaceSeqsOnce(events: seq<Event>, baseSeq: int)
    requires forall i :: 0 <= i < |events| ==> events[i].seqNo == baseSeq + i
    ensures forall x :: multiset(SurfaceSeqs(events))[x] ==
                        if baseSeq <= x < baseSeq + |events| && OnSurface(events[x - baseSeq]) then 1 else 0
  {
    if events != [] {
      SurfaceSeqsOnce(events[..|events| - 1], baseSeq);
    }
  }

  /**
    After any accepted log, the seq of each surface event occurs exactly once among the nodes
    and the hidden nodes together, and no other number occurs there.
  */
  lemma EachSurfaceEventOnce(events: seq<Event>, baseSeq: int, x: int)
    requires Fold(events, baseSeq).Ok?
    ensures var f := Fold(events, baseSeq).value;
            multiset(f.nodes)[x] + multiset(ShadowedIn(f.replacements))[x] ==
            if baseSeq <= x < baseSeq + |events| && OnSurface(events[x - baseSeq]) then 1 else 0
  {
    FoldedLog(events, baseSeq, |events|);
    Conservation(events, baseSeq, |events|);
    assert events[..|events|] == events;
    SurfaceSeqsOnce(events, baseSeq);
    var f := Fold(events, baseSeq).value;
    assert Accounted(f)[x] == multiset(SurfaceSeqs(events))[x];
  }
}
