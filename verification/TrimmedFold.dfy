/**
  When the log that is left after trimming still folds (sessionlog/surface.go, the baseSeq
  argument): which of the events the whole log accepts the trimmed surface refuses, and why.
*/
module TrimmedFold {
  import opened Outcomes
  import opened LlmContent
  import opened SessionEvents
  import opened Surface
  import opened SurfaceTrim

  predicate Cites(event: Event, x: int) {
    event.sources.Some? && x in event.sources.value
  }

  /** The first place of a node that is there. */
  function At(nodes: seq<int>, x: int): nat
    requires x in nodes
  {
    IndexOf(nodes, x)
  }

  /** What a live range has to meet: the right order, every hidden node cited, one node for a tool result. */
  predicate LiveRangeFits(nodes: seq<int>, event: Event, i: nat, j: nat) {
    && i <= j < |nodes|
    && (forall x <- nodes[i..j + 1] :: Cites(event, x))
    && (event.kind.ToolResult? ==> i == j)
  }

  /**
    An accepted event still fits a trimmed surface: the ends that were not trimmed are on it, and
    from the start, or from the front once that is gone, to the end the range is in order, hides
    only cited nodes and, for a tool result, a single one.
  */
  predicate FitsTrimmed(nodes: seq<int>, event: Event, cut: int) {
    Replaces(event) ==>
      var op := event.surfaceOp.value;
      && (op.start >= cut ==> op.start in nodes)
      && (op.end >= cut ==>
            op.end in nodes &&
            LiveRangeFits(nodes, event, if op.start < cut then 0 else At(nodes, op.start), At(nodes, op.end)))
  }

  // ---- One event ----

  /** The range on a surface that holds nothing below the cut. */
  lemma TrimmedRange(nodes: seq<int>, start: int, end: int, cut: int)
    requires forall x <- nodes :: x >= cut
    ensures start >= cut && start !in nodes ==> ReplacementRange(nodes, start, end, cut).Err?
    ensures (start >= cut ==> start in nodes) && end < cut ==> ReplacementRange(nodes, start, end, cut) == Ok(Gone)
    ensures (start >= cut ==> start in nodes) && end >= cut && end !in nodes ==> ReplacementRange(nodes, start, end, cut).Err?
    ensures (start >= cut ==> start in nodes) && end >= cut && end in nodes ==>
              var (i, j) := (if start < cut then 0 else At(nodes, start), At(nodes, end));
              ReplacementRange(nodes, start, end, cut) == if i <= j then Ok(Spans(i, j)) else Err(SurfaceViolation)
  {
    hide IndexOf;
    Found(nodes, start);
    Found(nodes, end);
  }

  lemma Found(nodes: seq<int>, x: int)
    ensures IndexOf(nodes, x) >= 0 <==> x in nodes
  {
  }

  lemma ProvenanceFits(event: Event, accepted: seq<int>, shadowed: seq<int>)
    requires ProvenanceHolds(event, accepted)
    ensures ProvenanceHolds(event, shadowed) <==> forall x <- shadowed :: Cites(event, x)
    ensures ProvenanceHolds(event, [])
  {
  }

  /** A tool result that replaced one node may replace that node again, found from the new base, and nothing wider. */
  lemma RewriteFits(event: Event, accepted: seq<int>, shadowed: seq<int>, events: seq<Event>, baseSeq: int, k: nat)
    requires k <= |events| && shadowed != [] && accepted != [] && RewriteError(event, accepted, events, baseSeq).None?
    requires shadowed[|shadowed| - 1] == accepted[|accepted| - 1] >= baseSeq + k
    ensures RewriteError(event, shadowed, events[k..], baseSeq + k).None? <==> (event.kind.ToolResult? ==> |shadowed| == 1)
  {
  }

  lemma LiveFits(nodes: seq<int>, trimmed: seq<int>, event: Event, start: int, end: int, events: seq<Event>, baseSeq: int, k: nat, i: nat, j: nat)
    requires k <= |events| && end >= baseSeq + k && i <= j < |trimmed| && trimmed[j] == end
    requires PlanReplacing(nodes, event, start, end, events, baseSeq).Ok?
    requires ReplacementRange(trimmed, start, end, baseSeq + k) == Ok(Spans(i, j))
    ensures PlanReplacing(trimmed, event, start, end, events[k..], baseSeq + k).Ok? <==> LiveRangeFits(trimmed, event, i, j)
  {
    hide ReplacementRange, RewriteError, ProvenanceHolds, PlanReplacing, Cites;
    ReplacingNeedsRange(nodes, event, start, end, events, baseSeq);
    RangeAfterTrim(nodes, start, end, baseSeq, baseSeq + k);
    var Spans(a, c) := ReplacementRange(nodes, start, end, baseSeq).value;
    ReplacingLiveRange(nodes, event, start, end, events, baseSeq, a, c);
    ReplacingLiveRange(trimmed, event, start, end, events[k..], baseSeq + k, i, j);
    ProvenanceFits(event, nodes[a..c + 1], trimmed[i..j + 1]);
    RewriteFits(event, nodes[a..c + 1], trimmed[i..j + 1], events, baseSeq, k);
  }

  lemma RangeIsNeeded(nodes: seq<int>, event: Event, start: int, end: int, events: seq<Event>, baseSeq: int)
    requires ReplacementRange(nodes, start, end, baseSeq).Err?
    ensures PlanReplacing(nodes, event, start, end, events, baseSeq).Err?
  {
  }

  lemma ReplacingHoldsAlone(nodes: seq<int>, event: Event, start: int, end: int, events: seq<Event>, baseSeq: int)
    requires PlanReplacing(nodes, event, start, end, events, baseSeq).Ok?
    ensures PlanAppending(event).Ok?
  {
    hide ReplacementRange, RewriteError, ProvenanceHolds;
    ReplacingNeedsRange(nodes, event, start, end, events, baseSeq);
    var range := ReplacementRange(nodes, start, end, baseSeq).value;
    if range.Spans? {
      ProvenanceFits(event, nodes[range.startIndex..range.endIndex + 1], []);
    }
  }

  /** A replacement the whole log accepts is accepted on a trimmed surface exactly when it fits it. */
  lemma ReplacementFits(nodes: seq<int>, trimmed: seq<int>, event: Event, events: seq<Event>, baseSeq: int, k: nat)
    requires k <= |events| && Replaces(event) && forall x <- trimmed :: x >= baseSeq + k
    requires var op := event.surfaceOp.value; PlanReplacing(nodes, event, op.start, op.end, events, baseSeq).Ok?
    ensures var op := event.surfaceOp.value;
            PlanReplacing(trimmed, event, op.start, op.end, events[k..], baseSeq + k).Ok? <==>
            FitsTrimmed(trimmed, event, baseSeq + k)
  {
    hide ReplacementRange, RewriteError, ProvenanceHolds, PlanReplacing, Cites;
    var (op, cut) := (event.surfaceOp.value, baseSeq + k);
    TrimmedRange(trimmed, op.start, op.end, cut);
    var range := ReplacementRange(trimmed, op.start, op.end, cut);
    if range.Err? {
      RangeIsNeeded(trimmed, event, op.start, op.end, events[k..], cut);
    } else if range.value.Gone? {
      ReplacingGoneRange(trimmed, event, op.start, op.end, events[k..], cut);
      ReplacingHoldsAlone(nodes, event, op.start, op.end, events, baseSeq);
    } else {
      LiveFits(nodes, trimmed, event, op.start, op.end, events, baseSeq, k, range.value.startIndex, range.value.endIndex);
    }
  }

  /** Of the events the whole log accepts, the trimmed surface refuses only replacements, and exactly those that do not fit it. */
  lemma PlanFitsTrimmed(nodes: seq<int>, trimmed: seq<int>, event: Event, expectedSeq: int, events: seq<Event>, baseSeq: int, k: nat)
    requires k <= |events| && forall x <- trimmed :: x >= baseSeq + k
    requires PlanEvent(nodes, event, expectedSeq, events, baseSeq).Ok?
    ensures PlanEvent(trimmed, event, expectedSeq, events[k..], baseSeq + k).Ok? <==> FitsTrimmed(trimmed, event, baseSeq + k)
  {
    hide PlanReplacing, PlanAppending;
    if Replaces(event) {
      hide FitsTrimmed;
      ReplacementFits(nodes, trimmed, event, events, baseSeq, k);
    }
  }

  // ---- The whole log ----

  /** Every event after the cut fits the surface the trimmed log has built when it comes. */
  ghost predicate RestFits(events: seq<Event>, baseSeq: int, k: nat, n: nat)
    requires k <= n <= |events|
  {
    forall m :: k <= m < n ==> FitsNext(events, baseSeq, k, m)
  }

  ghost predicate FitsNext(events: seq<Event>, baseSeq: int, k: nat, m: nat)
    requires k <= m < |events|
  {
    var before := FoldPrefix(events[k..], baseSeq + k, m - k);
    before.Ok? ==> FitsTrimmed(before.value.nodes, events[m], baseSeq + k)
  }

  lemma NextFolds(events: seq<Event>, baseSeq: int, k: nat, m: nat)
    requires k <= m < |events| && FoldPrefix(events, baseSeq, m + 1).Ok? && FoldPrefix(events[k..], baseSeq + k, m - k).Ok?
    ensures FoldPrefix(events[k..], baseSeq + k, m + 1 - k).Ok? <==> FitsNext(events, baseSeq, k, m)
  {
    hide PlanEvent, FitsTrimmed, ApplyPlan;
    assert events[k..][m - k] == events[m];
    var trimmed := FoldPrefix(events[k..], baseSeq + k, m - k).value.nodes;
    FoldedBetween(events[k..], baseSeq + k, m - k);
    PlanFitsTrimmed(FoldPrefix(events, baseSeq, m).value.nodes, trimmed, events[m], baseSeq + m, events, baseSeq, k);
  }

  /** The rest of a log that folds, folds exactly when each of its replacements fits the surface it meets. */
  lemma {:induction false} TrimmedLogFoldsExactly(events: seq<Event>, baseSeq: int, k: nat, n: nat)
    requires k <= n <= |events| && Fold(events, baseSeq).Ok?
    ensures FoldPrefix(events[k..], baseSeq + k, n - k).Ok? <==> RestFits(events, baseSeq, k, n)
  {
    hide PlanEvent, FitsNext, ApplyPlan;
    if n > k {
      TrimmedLogFoldsExactly(events, baseSeq, k, n - 1);
      FoldPrefixShorter(events, baseSeq, n, |events|);
      if FoldPrefix(events[k..], baseSeq + k, n - 1 - k).Ok? {
        NextFolds(events, baseSeq, k, n - 1);
      } else {
        assert FoldPrefix(events[k..], baseSeq + k, n - k).Err?;
      }
    }
  }

  /**
    The first event the trimmed log refuses is a replacement with an end that was not trimmed,
    and it or an event after the cut before it was not trim-safe.
  */
  lemma RefusalHasACause(events: seq<Event>, baseSeq: int, k: nat, m: nat)
    requires k <= m < |events| && forall n :: 0 <= n <= |events| ==> FoldPrefix(events, baseSeq, n).Ok?
    requires FoldPrefix(events[k..], baseSeq + k, m - k).Ok? && FoldPrefix(events[k..], baseSeq + k, m + 1 - k).Err?
    ensures Replaces(events[m])
    ensures events[m].surfaceOp.value.start >= baseSeq + k || events[m].surfaceOp.value.end >= baseSeq + k
    ensures exists u :: k <= u <= m && !TrimSafe(events, baseSeq, k, u)
  {
    hide PlanEvent, TrimSafe, LiveRangeFits, ApplyPlan;
    assert FoldPrefix(events, baseSeq, m + 1).Ok?;
    NextFolds(events, baseSeq, k, m);
    if forall u :: k <= u <= m ==> TrimSafe(events, baseSeq, k, u) {
      SafeNeverRefuses(events, baseSeq, k, m);
    }
  }

  lemma SafeNeverRefuses(events: seq<Event>, baseSeq: int, k: nat, m: nat)
    requires k <= m < |events| && forall n :: 0 <= n <= |events| ==> FoldPrefix(events, baseSeq, n).Ok?
    requires forall u :: k <= u <= m ==> TrimSafe(events, baseSeq, k, u)
    ensures FoldPrefix(events[k..], baseSeq + k, m + 1 - k).Ok?
  {
    hide PlanEvent, TrimSafe, ApplyPlan;
    SafeAgreesUpTo(events, baseSeq, k, m + 1);
    assert TrimAgrees(events, baseSeq, k, m + 1);
  }

  /** A log that folds, trimmed: the rest folds if and only if every later event fits the surface it meets. */
  lemma RestFoldsExactly(events: seq<Event>, baseSeq: int, k: nat)
    requires k <= |events| && Fold(events, baseSeq).Ok?
    ensures Fold(events[k..], baseSeq + k).Ok? <==> RestFits(events, baseSeq, k, |events|)
  {
    hide RestFits, PlanEvent, ApplyPlan;
    TrimmedLogFoldsExactly(events, baseSeq, k, |events|);
  }
}
