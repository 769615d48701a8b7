/**
  What folding says once the oldest events of a log have been trimmed away
  (sessionlog/surface.go, the baseSeq argument of replacementRange and FoldSurface).
*/
module SurfaceTrim {
  import opened Outcomes
  import opened LlmContent
  import opened SessionEvents
  import opened Surface

  /** The nodes that are still in the log once everything below cut is gone, in surface order. */
  function Survivors(nodes: seq<int>, cut: int): seq<int> {
    if nodes == [] then [] else (if nodes[0] >= cut then [nodes[0]] else []) + Survivors(nodes[1..], cut)
  }

  /**
    A replacement whose range begins at node i loses nothing by trimming: if its end was trimmed
    away, no surviving node lies in the range or after it; if only its start was, none lies before it.
  */
  predicate RangeSafe(nodes: seq<int>, i: nat, start: int, end: int, cut: int)
    requires i <= |nodes|
  {
    if end < cut then Survivors(nodes[i..], cut) == []
    else start < cut ==> Survivors(nodes[..i], cut) == []
  }

  predicate TrimSafe(events: seq<Event>, baseSeq: int, k: nat, m: nat)
    requires k <= m < |events| && FoldPrefix(events, baseSeq, m).Ok?
  {
    Replaces(events[m]) ==>
      var nodes := FoldPrefix(events, baseSeq, m).value.nodes;
      var op := events[m].surfaceOp.value;
      var range := ReplacementRange(nodes, op.start, op.end, baseSeq);
      range.Ok? && range.value.Spans? ==> RangeSafe(nodes, range.value.startIndex, op.start, op.end, baseSeq + k)
  }

  /** After m events, the trimmed log folds, and to exactly the surviving nodes. */
  predicate TrimAgrees(events: seq<Event>, baseSeq: int, k: nat, m: nat)
    requires k <= m <= |events| && FoldPrefix(events, baseSeq, m).Ok?
  {
    var trimmed := FoldPrefix(events[k..], baseSeq + k, m - k);
    trimmed.Ok? && trimmed.value.nodes == Survivors(FoldPrefix(events, baseSeq, m).value.nodes, baseSeq + k)
  }

  // ---- Survivors ----

  lemma {:induction false} SurvivorsConcat(a: seq<int>, b: seq<int>, cut: int)
    ensures Survivors(a + b, cut) == Survivors(a, cut) + Survivors(b, cut)
  {
    if a == [] {
      assert a + b == b;
    } else {
      assert (a + b)[1..] == a[1..] + b;
      SurvivorsConcat(a[1..], b, cut);
      var head := if a[0] >= cut then [a[0]] else [];
      assert Survivors(a, cut) == head + Survivors(a[1..], cut);
      assert head + (Survivors(a[1..], cut) + Survivors(b, cut)) == head + Survivors(a[1..], cut) + Survivors(b, cut);
    }
  }

  lemma {:induction false} SurvivorsAre(nodes: seq<int>, cut: int)
    ensures forall x :: x in Survivors(nodes, cut) <==> x in nodes && x >= cut
    ensures |Survivors(nodes, cut)| <= |nodes|
  {
    if nodes != [] {
      SurvivorsAre(nodes[1..], cut);
    }
  }

  /** A surviving node splits the survivors where it splits the nodes. */
  lemma SurvivorsAround(nodes: seq<int>, at: nat, cut: int)
    requires at < |nodes| && nodes[at] >= cut
    ensures Survivors(nodes, cut) == Survivors(nodes[..at], cut) + [nodes[at]] + Survivors(nodes[at + 1..], cut)
    ensures Survivors(nodes[..at + 1], cut) == Survivors(nodes[..at], cut) + [nodes[at]]
  {
    SurvivorsConcat(nodes[..at], [nodes[at]], cut);
    assert nodes[..at + 1] == nodes[..at] + [nodes[at]];
    SurvivorsConcat(nodes[..at + 1], nodes[at + 1..], cut);
    assert nodes == nodes[..at + 1] + nodes[at + 1..];
  }

  lemma IndexInSurvivors(nodes: seq<int>, x: int, cut: int)
    ensures x < cut || x !in nodes ==> IndexOf(Survivors(nodes, cut), x) == -1
    ensures x >= cut && x in nodes ==>
              var at := IndexOf(nodes, x);
              at >= 0 && IndexOf(Survivors(nodes, cut), x) == |Survivors(nodes[..at], cut)|
  {
    hide IndexOf;
    SurvivorsAre(nodes, cut);
    var (at, found) := (IndexOf(nodes, x), IndexOf(Survivors(nodes, cut), x));
    assert found >= 0 ==> x in Survivors(nodes, cut);
    if x >= cut && x in nodes {
      SurvivorsAround(nodes, at, cut);
      SurvivorsAre(nodes[..at], cut);
      hide Survivors;
      var before := Survivors(nodes[..at], cut);
      forall t | 0 <= t < |before| ensures before[t] != x {
        assert before[t] in before;
      }
      assert Survivors(nodes, cut)[|before|] == x;
    }
  }

  // ---- Planning ----

  /** Where a range of the full surface lies on the trimmed one. */
  lemma RangeAfterTrim(nodes: seq<int>, start: int, end: int, baseSeq: int, cut: int)
    requires baseSeq <= cut && ReplacementRange(nodes, start, end, baseSeq).Ok?
    ensures var range := ReplacementRange(nodes, start, end, baseSeq).value;
            range.Spans? ==> nodes[range.endIndex] == end
    ensures end < cut ==> ReplacementRange(Survivors(nodes, cut), start, end, cut) == Ok(Gone)
    ensures end >= cut ==>
              var range := ReplacementRange(nodes, start, end, baseSeq).value;
              && range.Spans?
              && ReplacementRange(Survivors(nodes, cut), start, end, cut) ==
                 Ok(Spans(if start < cut then 0 else |Survivors(nodes[..range.startIndex], cut)|,
                          |Survivors(nodes[..range.endIndex], cut)|))
  {
    hide IndexOf, Survivors;
    IndexInSurvivors(nodes, start, cut);
    IndexInSurvivors(nodes, end, cut);
    SurvivorsAre(nodes, cut);
    if start >= cut && end >= cut {
      var (i, j) := (IndexOf(nodes, start), IndexOf(nodes, end));
      if i <= j {
        assert nodes[..j] == nodes[..i] + nodes[i..j];
        SurvivorsConcat(nodes[..i], nodes[i..j], cut);
      }
    }
  }

  lemma ReplacingNeedsRange(nodes: seq<int>, event: Event, start: int, end: int, events: seq<Event>, baseSeq: int)
    requires PlanReplacing(nodes, event, start, end, events, baseSeq).Ok?
    ensures ReplacementRange(nodes, start, end, baseSeq).Ok?
  {
  }

  /** PlanReplacing on a live range, written as one condition. */
  lemma ReplacingLiveRange(nodes: seq<int>, event: Event, start: int, end: int, events: seq<Event>, baseSeq: int, i: nat, j: nat)
    requires i <= j < |nodes| && ReplacementRange(nodes, start, end, baseSeq) == Ok(Spans(i, j))
    ensures PlanReplacing(nodes, event, start, end, events, baseSeq).Ok? <==>
              ProvenanceHolds(event, nodes[i..j + 1]) && RewriteError(event, nodes[i..j + 1], events, baseSeq).None?
    ensures PlanReplacing(nodes, event, start, end, events, baseSeq).Ok? ==>
              PlanReplacing(nodes, event, start, end, events, baseSeq).value ==
              PlanReplace(event.seqNo, start, end, i, j, nodes[i..j + 1])
  {
    hide ReplacementRange, ProvenanceHolds, RewriteError;
  }

  lemma ReplacingGoneRange(nodes: seq<int>, event: Event, start: int, end: int, events: seq<Event>, baseSeq: int)
    requires ReplacementRange(nodes, start, end, baseSeq) == Ok(Gone)
    ensures PlanReplacing(nodes, event, start, end, events, baseSeq) == PlanAppending(event)
  {
    hide ReplacementRange, ProvenanceHolds, RewriteError;
  }

  /** Provenance asks less when fewer nodes are hidden. */
  lemma ProvenanceOfFewer(event: Event, more: seq<int>, fewer: seq<int>)
    requires ProvenanceHolds(event, more) && forall x :: x in fewer ==> x in more
    ensures ProvenanceHolds(event, fewer)
  {
  }

  /** The rewrite check looks at the same original event, found from the new base. */
  lemma RewriteAfterTrim(event: Event, more: seq<int>, fewer: seq<int>, events: seq<Event>, baseSeq: int, k: nat)
    requires k <= |events| && RewriteError(event, more, events, baseSeq).None?
    requires |more| == 1 ==> fewer == more && more[0] >= baseSeq + k
    ensures RewriteError(event, fewer, events[k..], baseSeq + k).None?
  {
  }

  /** Once the end of its range is trimmed, a replacement is only an append. */
  lemma DegradedReplacement(nodes: seq<int>, event: Event, start: int, end: int, events: seq<Event>, baseSeq: int, k: nat)
    requires k <= |events| && end < baseSeq + k
    requires PlanReplacing(nodes, event, start, end, events, baseSeq).Ok?
    ensures PlanReplacing(Survivors(nodes, baseSeq + k), event, start, end, events[k..], baseSeq + k)
         == Ok(PlanAppend(event.seqNo))
  {
    hide ReplacementRange, RewriteError, ProvenanceHolds, Survivors;
    RangeAfterTrim(nodes, start, end, baseSeq, baseSeq + k);
    ReplacingGoneRange(Survivors(nodes, baseSeq + k), event, start, end, events[k..], baseSeq + k);
    var range := ReplacementRange(nodes, start, end, baseSeq).value;
    if range.Spans? {
      ProvenanceOfFewer(event, nodes[range.startIndex..range.endIndex + 1], []);
    }
  }

  /** The nodes of a range that survive, seen from the surviving surface. */
  lemma SurvivorsSlice(nodes: seq<int>, i: nat, j: nat, cut: int)
    requires i <= j <= |nodes|
    ensures |Survivors(nodes[..i], cut)| <= |Survivors(nodes[..j], cut)| <= |Survivors(nodes, cut)|
    ensures Survivors(nodes, cut)[|Survivors(nodes[..i], cut)|..|Survivors(nodes[..j], cut)|] == Survivors(nodes[i..j], cut)
  {
    hide Survivors;
    SurvivorsConcat(nodes[..i], nodes[i..j], cut);
    assert nodes[..j] == nodes[..i] + nodes[i..j];
    SurvivorsConcat(nodes[..j], nodes[j..], cut);
    assert nodes == nodes[..j] + nodes[j..];
  }

  /** A replacement whose end survives and whose lost start hides nothing from the front keeps its range. */
  lemma LiveReplacement(nodes: seq<int>, event: Event, start: int, end: int, events: seq<Event>, baseSeq: int, k: nat)
    requires k <= |events| && end >= baseSeq + k
    requires PlanReplacing(nodes, event, start, end, events, baseSeq).Ok?
    requires var range := ReplacementRange(nodes, start, end, baseSeq);
             range.Ok? && range.value.Spans? ==> RangeSafe(nodes, range.value.startIndex, start, end, baseSeq + k)
    ensures var cut := baseSeq + k;
            var range := ReplacementRange(nodes, start, end, baseSeq);
            && range.Ok? && range.value.Spans?
            && var (i, j) := (range.value.startIndex, range.value.endIndex);
            PlanReplacing(Survivors(nodes, cut), event, start, end, events[k..], cut) ==
            Ok(PlanReplace(event.seqNo, start, end, |Survivors(nodes[..i], cut)|, |Survivors(nodes[..j], cut)|,
                           Survivors(nodes[i..j + 1], cut)))
  {
    hide ReplacementRange, PlanReplacing, RewriteError, ProvenanceHolds, Survivors;
    var cut := baseSeq + k;
    ReplacingNeedsRange(nodes, event, start, end, events, baseSeq);
    RangeAfterTrim(nodes, start, end, baseSeq, cut);
    var Spans(i, j) := ReplacementRange(nodes, start, end, baseSeq).value;
    var (a, c) := (|Survivors(nodes[..i], cut)|, |Survivors(nodes[..j], cut)|);
    SurvivorsAround(nodes, j, cut);
    SurvivorsSlice(nodes, i, j + 1, cut);
    SurvivorsSlice(nodes, i, j, cut);
    ReplacingLiveRange(nodes, event, start, end, events, baseSeq, i, j);
    ReplacingLiveRange(Survivors(nodes, cut), event, start, end, events[k..], cut, a, c);
    SurvivorsAre(nodes[i..j + 1], cut);
    ProvenanceOfFewer(event, nodes[i..j + 1], Survivors(nodes[i..j + 1], cut));
    SingletonSurvives(nodes, i, j, cut);
    RewriteAfterTrim(event, nodes[i..j + 1], Survivors(nodes[i..j + 1], cut), events, baseSeq, k);
  }

  lemma SingletonSurvives(nodes: seq<int>, i: nat, j: nat, cut: int)
    requires i <= j < |nodes| && nodes[j] >= cut
    ensures i == j ==> Survivors(nodes[i..j + 1], cut) == nodes[i..j + 1] == [nodes[j]]
  {
  }

  // ---- One step of both folds ----

  function Spliced(nodes: seq<int>, i: nat, j: nat, s: int): seq<int>
    requires i <= j < |nodes|
  {
    nodes[..i] + [s] + nodes[j + 1..]
  }

  lemma SurvivorsOfSplice(nodes: seq<int>, i: nat, j: nat, s: int, cut: int)
    requires i <= j < |nodes| && s >= cut
    ensures Survivors(Spliced(nodes, i, j, s), cut) ==
            Survivors(nodes[..i], cut) + [s] + Survivors(nodes[j + 1..], cut)
  {
    SurvivorsConcat(nodes[..i], [s], cut);
    SurvivorsConcat(nodes[..i] + [s], nodes[j + 1..], cut);
  }

  lemma SpliceOfSurvivors(nodes: seq<int>, i: nat, j: nat, s: int, cut: int)
    requires i <= j < |nodes| && nodes[j] >= cut
    ensures var (a, c) := (|Survivors(nodes[..i], cut)|, |Survivors(nodes[..j], cut)|);
            && a <= c < |Survivors(nodes, cut)|
            && Spliced(Survivors(nodes, cut), a, c, s) == Survivors(nodes[..i], cut) + [s] + Survivors(nodes[j + 1..], cut)
  {
    hide Survivors;
    SurvivorsAround(nodes, j, cut);
    SurvivorsSlice(nodes, 0, i, cut);
    SurvivorsSlice(nodes, i, j, cut);
    assert nodes[..i] == nodes[0..i] && nodes[..0] == [];
    SurvivorsEmpty(cut);
  }

  lemma SurvivorsEmpty(cut: int)
    ensures Survivors([], cut) == []
  {
  }

  /** A lost start with survivors in front of the range: the trimmed range reaches too far left. */
  lemma LostStartDisagrees(nodes: seq<int>, i: nat, j: nat, s: int, cut: int, c: nat)
    requires i <= j < |nodes| && s >= cut && Survivors(nodes[..i], cut) != []
    requires c < |Survivors(nodes, cut)| && forall x :: x in nodes ==> x < s
    ensures Spliced(Survivors(nodes, cut), 0, c, s) != Survivors(Spliced(nodes, i, j, s), cut)
  {
    hide Survivors;
    SurvivorsOfSplice(nodes, i, j, s, cut);
    SurvivorsAre(nodes[..i], cut);
    var front := Survivors(nodes[..i], cut);
    assert front[0] in nodes[..i] && front[0] in nodes;
    assert (front + [s] + Survivors(nodes[j + 1..], cut))[0] == front[0];
    assert Spliced(Survivors(nodes, cut), 0, c, s)[0] == s;
  }

  /** A lost end: the degraded append agrees exactly when no survivor lies in the range or after it. */
  lemma LostEndAgrees(nodes: seq<int>, i: nat, j: nat, s: int, cut: int)
    requires i <= j < |nodes| && s >= cut && nodes[j] < cut && forall x :: x in nodes ==> x < s
    ensures Survivors(nodes, cut) + [s] == Survivors(Spliced(nodes, i, j, s), cut) <==> Survivors(nodes[i..], cut) == []
  {
    hide Survivors;
    SurvivorsOfSplice(nodes, i, j, s, cut);
    SurvivorsConcat(nodes[..i], nodes[i..], cut);
    assert nodes == nodes[..i] + nodes[i..];
    SurvivorsConcat(nodes[i..j + 1], nodes[j + 1..], cut);
    assert nodes[i..] == nodes[i..j + 1] + nodes[j + 1..];
    SurvivorsAre(nodes[j + 1..], cut);
    var (front, tail) := (Survivors(nodes[..i], cut), Survivors(nodes[j + 1..], cut));
    if tail != [] {
      assert (front + [s] + tail)[|front| + |tail|] == tail[|tail| - 1];
      assert tail[|tail| - 1] in nodes[j + 1..] && tail[|tail| - 1] in nodes;
      assert (Survivors(nodes, cut) + [s])[|Survivors(nodes, cut)|] == s;
    }
  }

  /** What both planners do with a replacement, and when the outcomes agree. */
  lemma ReplacementAgreesExactly(f: Folded, event: Event, start: int, end: int, events: seq<Event>, baseSeq: int, k: nat, trimmed: Folded)
    requires k <= |events| && event.seqNo >= baseSeq + k && forall x :: x in f.nodes ==> x < event.seqNo
    requires trimmed.nodes == Survivors(f.nodes, baseSeq + k)
    requires PlanReplacing(f.nodes, event, start, end, events, baseSeq).Ok?
    ensures var range := ReplacementRange(f.nodes, start, end, baseSeq);
            var safe := range.Ok? && (range.value.Spans? ==> RangeSafe(f.nodes, range.value.startIndex, start, end, baseSeq + k));
            var other := PlanReplacing(trimmed.nodes, event, start, end, events[k..], baseSeq + k);
            var full := ApplyPlan(f, PlanReplacing(f.nodes, event, start, end, events, baseSeq).value);
            safe <==> other.Ok? && ApplyPlan(trimmed, other.value).nodes == Survivors(full.nodes, baseSeq + k)
  {
    hide ReplacementRange, PlanReplacing, RewriteError, ProvenanceHolds, Survivors;
    var (cut, s) := (baseSeq + k, event.seqNo);
    ReplacingNeedsRange(f.nodes, event, start, end, events, baseSeq);
    RangeAfterTrim(f.nodes, start, end, baseSeq, cut);
    match ReplacementRange(f.nodes, start, end, baseSeq).value
    case Gone =>
      ReplacingGoneRange(f.nodes, event, start, end, events, baseSeq);
      DegradedReplacement(f.nodes, event, start, end, events, baseSeq, k);
      SurvivorsAround(f.nodes + [s], |f.nodes|, cut);
      assert (f.nodes + [s])[..|f.nodes|] == f.nodes && (f.nodes + [s])[|f.nodes| + 1..] == [];
      SurvivorsEmpty(cut);
    case Spans(i, j) =>
      ReplacingLiveRange(f.nodes, event, start, end, events, baseSeq, i, j);
      if end < cut {
        DegradedReplacement(f.nodes, event, start, end, events, baseSeq, k);
        LostEndAgrees(f.nodes, i, j, s, cut);
      } else if RangeSafe(f.nodes, i, start, end, cut) {
        LiveReplacement(f.nodes, event, start, end, events, baseSeq, k);
        SpliceOfSurvivors(f.nodes, i, j, s, cut);
        SurvivorsOfSplice(f.nodes, i, j, s, cut);
      } else {
        SurvivorsSlice(f.nodes, 0, j, cut);
        SurvivorsAround(f.nodes, j, cut);
        var c := |Survivors(f.nodes[..j], cut)|;
        ReplacingLiveRange(trimmed.nodes, event, start, end, events[k..], cut, 0, c);
        LostStartDisagrees(f.nodes, i, j, s, cut, c);
      }
  }

  // ---- Whole logs ----

  lemma {:induction false} FoldedBetween(events: seq<Event>, baseSeq: int, n: nat)
    requires n <= |events| && FoldPrefix(events, baseSeq, n).Ok?
    ensures forall x :: x in FoldPrefix(events, baseSeq, n).value.nodes ==> baseSeq <= x < baseSeq + n
  {
    hide PlanEvent;
    FoldedLog(events, baseSeq, n);
  }

  lemma SurvivorsAppend(nodes: seq<int>, s: int, cut: int)
    requires s >= cut
    ensures Survivors(nodes + [s], cut) == Survivors(nodes, cut) + [s]
  {
    SurvivorsConcat(nodes, [s], cut);
  }

  /** If both folds agree after m events, they agree after m + 1 exactly when event m is safe. */
  lemma StepAgreesExactly(events: seq<Event>, baseSeq: int, k: nat, m: nat)
    requires k <= m < |events| && FoldPrefix(events, baseSeq, m + 1).Ok? && FoldPrefix(events, baseSeq, m).Ok?
    requires TrimAgrees(events, baseSeq, k, m)
    ensures TrimAgrees(events, baseSeq, k, m + 1) <==> TrimSafe(events, baseSeq, k, m)
  {
    hide PlanReplacing, ReplacementRange, RewriteError, ProvenanceHolds, Survivors, RangeSafe;
    var (f, trimmed) := (FoldPrefix(events, baseSeq, m).value, FoldPrefix(events[k..], baseSeq + k, m - k).value);
    FoldedBetween(events, baseSeq, m);
    assert events[k..][m - k] == events[m];
    if Replaces(events[m]) {
      var op := events[m].surfaceOp.value;
      ReplacingNeedsRange(f.nodes, events[m], op.start, op.end, events, baseSeq);
      ReplacementAgreesExactly(f, events[m], op.start, op.end, events, baseSeq, k, trimmed);
    } else {
      SurvivorsAppend(f.nodes, events[m].seqNo, baseSeq + k);
    }
  }

  /**
    Trimming commutes with folding, exactly: the log without its first k events folds to the
    surviving nodes at every later point if and only if every later replacement is safe.
  */
  lemma TrimCommutesExactly(events: seq<Event>, baseSeq: int, k: nat)
    requires k <= |events| && forall m :: 0 <= m <= |events| ==> FoldPrefix(events, baseSeq, m).Ok?
    ensures (forall m :: k <= m <= |events| ==> TrimAgrees(events, baseSeq, k, m)) <==>
            (forall m :: k <= m < |events| ==> TrimSafe(events, baseSeq, k, m))
  {
    hide PlanEvent, TrimAgrees, TrimSafe;
    TrimAgreesAtCut(events, baseSeq, k);
    if forall m :: k <= m < |events| ==> TrimSafe(events, baseSeq, k, m) {
      SafeAgreesUpTo(events, baseSeq, k, |events|);
    }
    if forall m :: k <= m <= |events| ==> TrimAgrees(events, baseSeq, k, m) {
      forall m | k <= m < |events| ensures TrimSafe(events, baseSeq, k, m) {
        assert TrimAgrees(events, baseSeq, k, m) && TrimAgrees(events, baseSeq, k, m + 1);
        StepAgreesExactly(events, baseSeq, k, m);
      }
    }
  }

  lemma TrimAgreesAtCut(events: seq<Event>, baseSeq: int, k: nat)
    requires k <= |events| && FoldPrefix(events, baseSeq, k).Ok?
    ensures TrimAgrees(events, baseSeq, k, k)
  {
    hide PlanEvent;
    FoldedBetween(events, baseSeq, k);
    NoneSurvive(FoldPrefix(events, baseSeq, k).value.nodes, baseSeq + k);
  }

  lemma {:induction false} NoneSurvive(nodes: seq<int>, cut: int)
    requires forall x :: x in nodes ==> x < cut
    ensures Survivors(nodes, cut) == []
  {
    if nodes != [] {
      assert nodes[0] in nodes && forall x :: x in nodes[1..] ==> x in nodes;
      NoneSurvive(nodes[1..], cut);
    }
  }

  lemma {:induction false} SafeAgreesUpTo(events: seq<Event>, baseSeq: int, k: nat, n: nat)
    requires k <= n <= |events|
    requires forall m :: 0 <= m <= |events| ==> FoldPrefix(events, baseSeq, m).Ok?
    requires forall m :: k <= m < n ==> TrimSafe(events, baseSeq, k, m)
    ensures forall m :: k <= m <= n ==> TrimAgrees(events, baseSeq, k, m)
  {
    hide PlanEvent, TrimAgrees, TrimSafe;
    if n == k {
      TrimAgreesAtCut(events, baseSeq, k);
    } else {
      SafeAgreesUpTo(events, baseSeq, k, n - 1);
      StepAgreesExactly(events, baseSeq, k, n - 1);
    }
  }

  lemma {:induction false} AllPrefixesFold(events: seq<Event>, baseSeq: int)
    requires Fold(events, baseSeq).Ok?
    ensures forall m :: 0 <= m <= |events| ==> FoldPrefix(events, baseSeq, m).Ok?
  {
    hide PlanEvent;
    forall m | 0 <= m <= |events| ensures FoldPrefix(events, baseSeq, m).Ok? {
      FoldPrefixShorter(events, baseSeq, m, |events|);
    }
  }

  // ---- The guard a caller can read off the log ----

  /** No later replacement names an end that has been trimmed away. */
  predicate EndsSurvive(events: seq<Event>, baseSeq: int, k: nat) {
    forall m :: k <= m < |events| && Replaces(events[m]) ==> events[m].surfaceOp.value.end >= baseSeq + k
  }

  /** Once a node survives, every node after it does. */
  ghost predicate FrontTrimmed(nodes: seq<int>, cut: int) {
    forall i, j :: 0 <= i < j < |nodes| && nodes[i] >= cut ==> nodes[j] >= cut
  }

  lemma ReplacingSplices(nodes: seq<int>, event: Event, start: int, end: int, events: seq<Event>, baseSeq: int, cut: int)
    requires PlanReplacing(nodes, event, start, end, events, baseSeq).Ok?
    requires FrontTrimmed(nodes, cut) && end >= cut >= baseSeq && event.seqNo >= cut
    ensures FrontTrimmed(ApplyPlan(Folded(nodes, []), PlanReplacing(nodes, event, start, end, events, baseSeq).value).nodes, cut)
  {
    hide PlanReplacing, ReplacementRange, RewriteError, ProvenanceHolds, IndexOf;
    ReplacingNeedsRange(nodes, event, start, end, events, baseSeq);
    RangeAfterTrim(nodes, start, end, baseSeq, cut);
    var Spans(i, j) := ReplacementRange(nodes, start, end, baseSeq).value;
    ReplacingLiveRange(nodes, event, start, end, events, baseSeq, i, j);
  }

  lemma {:induction false} TrimmedNodesFormPrefix(events: seq<Event>, baseSeq: int, k: nat, m: nat)
    requires k <= m <= |events| && EndsSurvive(events, baseSeq, k)
    requires forall n :: 0 <= n <= |events| ==> FoldPrefix(events, baseSeq, n).Ok?
    ensures FrontTrimmed(FoldPrefix(events, baseSeq, m).value.nodes, baseSeq + k)
  {
    hide PlanEvent, FrontTrimmed, ApplyPlan;
    if m == k {
      FoldedBetween(events, baseSeq, k);
      NothingSurvivesYet(FoldPrefix(events, baseSeq, k).value.nodes, baseSeq + k);
    } else {
      TrimmedNodesFormPrefix(events, baseSeq, k, m - 1);
      assert FoldPrefix(events, baseSeq, m).Ok?;
      FrontStep(FoldPrefix(events, baseSeq, m - 1).value, events, baseSeq, m - 1, baseSeq + k);
    }
  }

  lemma NothingSurvivesYet(nodes: seq<int>, cut: int)
    requires forall x :: x in nodes ==> x < cut
    ensures FrontTrimmed(nodes, cut)
  {
    assert forall i :: 0 <= i < |nodes| ==> nodes[i] in nodes;
  }

  /** One event keeps the survivors at the back. */
  lemma FrontStep(f: Folded, events: seq<Event>, baseSeq: int, n: nat, cut: int)
    requires n < |events| && PlanEvent(f.nodes, events[n], baseSeq + n, events, baseSeq).Ok?
    requires FrontTrimmed(f.nodes, cut) && baseSeq <= cut <= baseSeq + n
    requires Replaces(events[n]) ==> events[n].surfaceOp.value.end >= cut
    ensures FrontTrimmed(ApplyPlan(f, PlanEvent(f.nodes, events[n], baseSeq + n, events, baseSeq).value).nodes, cut)
  {
    hide PlanReplacing, ProvenanceHolds;
    if Replaces(events[n]) {
      var op := events[n].surfaceOp.value;
      ReplacingSplices(f.nodes, events[n], op.start, op.end, events, baseSeq, cut);
    }
  }

  lemma FrontRangeSafe(nodes: seq<int>, start: int, end: int, baseSeq: int, cut: int)
    requires FrontTrimmed(nodes, cut) && end >= cut >= baseSeq
    requires ReplacementRange(nodes, start, end, baseSeq).Ok? && ReplacementRange(nodes, start, end, baseSeq).value.Spans?
    ensures RangeSafe(nodes, ReplacementRange(nodes, start, end, baseSeq).value.startIndex, start, end, cut)
  {
    var i := ReplacementRange(nodes, start, end, baseSeq).value.startIndex;
    if start < cut {
      assert i > 0 ==> nodes[i] == start;
      NoneSurvive(nodes[..i], cut);
    }
  }

  /**
    Trimming the first k events commutes with folding whenever no later replacement names a
    trimmed end: the shorter log folds, to the surviving nodes in the same order.
  */
  lemma TrimCommutes(events: seq<Event>, baseSeq: int, k: nat)
    requires k <= |events| && Fold(events, baseSeq).Ok? && EndsSurvive(events, baseSeq, k)
    ensures Fold(events[k..], baseSeq + k).Ok?
    ensures Fold(events[k..], baseSeq + k).value.nodes == Survivors(Fold(events, baseSeq).value.nodes, baseSeq + k)
  {
    hide PlanEvent, ReplacementRange, RangeSafe;
    AllPrefixesFold(events, baseSeq);
    forall m | k <= m < |events| ensures TrimSafe(events, baseSeq, k, m) {
      TrimmedNodesFormPrefix(events, baseSeq, k, m);
      var nodes := FoldPrefix(events, baseSeq, m).value.nodes;
      if Replaces(events[m]) {
        var op := events[m].surfaceOp.value;
        var range := ReplacementRange(nodes, op.start, op.end, baseSeq);
        if range.Ok? && range.value.Spans? {
          FrontRangeSafe(nodes, op.start, op.end, baseSeq, baseSeq + k);
        }
      }
    }
    SafeAgreesUpTo(events, baseSeq, k, |events|);
    assert TrimAgrees(events, baseSeq, k, |events|);
  }

  // ---- The guard cannot be dropped ----

  const NOTHING: Payload := RawData("")

  function Appended(s: int): Event {
    Event(UserMessage, s, 0, NOTHING, false, Some(AppendOp), None)
  }

  function Replacing(s: int, start: int, end: int, sources: seq<int>): Event {
    Event(UserMessage, s, 0, NOTHING, false, Some(ReplaceOp(start, end)), Some(sources))
  }

  lemma AppendStep(events: seq<Event>, baseSeq: int, n: nat, f: Folded, g: Folded)
    requires n < |events| && events[n] == Appended(baseSeq + n) && FoldPrefix(events, baseSeq, n) == Ok(f)
    requires g.nodes == f.nodes + [baseSeq + n] && g.replacements == f.replacements
    ensures FoldPrefix(events, baseSeq, n + 1) == Ok(g)
  {
  }

  lemma ReplaceStep(events: seq<Event>, baseSeq: int, n: nat, f: Folded, start: int, end: int, i: nat, j: nat, g: Folded)
    requires n < |events| && FoldPrefix(events, baseSeq, n) == Ok(f) && i <= j < |f.nodes|
    requires ReplacementRange(f.nodes, start, end, baseSeq) == Ok(Spans(i, j))
    requires events[n].seqNo == baseSeq + n && events[n].kind == UserMessage
    requires events[n].surfaceOp == Some(ReplaceOp(start, end)) && ProvenanceHolds(events[n], f.nodes[i..j + 1])
    requires g.nodes == Spliced(f.nodes, i, j, baseSeq + n)
    requires g.replacements == f.replacements + [Replacement(baseSeq + n, start, end, f.nodes[i..j + 1])]
    ensures FoldPrefix(events, baseSeq, n + 1) == Ok(g)
  {
    hide ReplacementRange, ProvenanceHolds;
  }

  const CRACKED: seq<Event> := [Appended(0), Appended(1), Replacing(2, 0, 0, [0]), Replacing(3, 2, 1, [2, 1])]

  lemma CrackedPieces()
    ensures ReplacementRange([0, 1], 0, 0, 0) == Ok(Spans(0, 0)) && ReplacementRange([2, 1], 2, 1, 0) == Ok(Spans(0, 1))
    ensures ProvenanceHolds(CRACKED[2], [0]) && ProvenanceHolds(CRACKED[3], [2, 1])
  {
  }

  lemma CrackedSplices()
    ensures [0, 1][0..1] == [0] && [2, 1][0..2] == [2, 1]
    ensures Spliced([0, 1], 0, 0, 2) == [2, 1] && Spliced([2, 1], 0, 1, 3) == [3]
    ensures FoldPrefix(CRACKED, 0, 0) == Ok(Folded([], []))
  {
  }

  lemma CrackedLogFolds()
    ensures Fold(CRACKED, 0) == Ok(Folded([3], [Replacement(2, 0, 0, [0]), Replacement(3, 2, 1, [2, 1])]))
  {
    hide PlanEvent, ReplacementRange, ProvenanceHolds, FoldPrefix, Spliced;
    CrackedPieces();
    CrackedSplices();
    var (r2, r3) := (Replacement(2, 0, 0, [0]), Replacement(3, 2, 1, [2, 1]));
    AppendStep(CRACKED, 0, 0, Folded([], []), Folded([0], []));
    AppendStep(CRACKED, 0, 1, Folded([0], []), Folded([0, 1], []));
    ReplaceStep(CRACKED, 0, 2, Folded([0, 1], []), 0, 0, 0, 0, Folded([2, 1], [r2]));
    ReplaceStep(CRACKED, 0, 3, Folded([2, 1], [r2]), 2, 1, 0, 1, Folded([3], [r2, r3]));
  }

  lemma FailingStep(events: seq<Event>, baseSeq: int, n: nat, f: Folded)
    requires n < |events| && FoldPrefix(events, baseSeq, n) == Ok(f)
    requires PlanEvent(f.nodes, events[n], baseSeq + n, events, baseSeq) == Err(SurfaceViolation)
    ensures FoldPrefix(events, baseSeq, n + 1) == Err(SurfaceViolation)
  {
    hide PlanEvent;
  }

  /** A log that folds (CrackedLogFolds), while the same log without its first event does not fold at all. */
  lemma TrimCanBreakTheFold()
    ensures Fold(CRACKED, 0).Ok? && Fold(CRACKED[1..], 1) == Err(SurfaceViolation)
  {
    CrackedLogFolds();
    var rest := CRACKED[1..];
    AppendStep(rest, 1, 0, Folded([], []), Folded([1], []));
    DegradedStep(rest, 1, 1, Folded([1], []), Folded([1, 2], []));
    assert rest[2] == Replacing(3, 2, 1, [2, 1]);
    assert ReplacementRange([1, 2], 2, 1, 1) == Err(SurfaceViolation);
    FailingStep(rest, 1, 2, Folded([1, 2], []));
  }

  lemma DegradedStep(events: seq<Event>, baseSeq: int, n: nat, f: Folded, g: Folded)
    requires n < |events| && FoldPrefix(events, baseSeq, n) == Ok(f)
    requires events[n] == Replacing(baseSeq + n, 0, 0, [0]) && 0 < baseSeq && 0 !in f.nodes
    requires g.nodes == f.nodes + [baseSeq + n] && g.replacements == f.replacements
    ensures FoldPrefix(events, baseSeq, n + 1) == Ok(g)
  {
  }
}
