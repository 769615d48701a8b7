/** The grammar a provider's chunk stream must follow (llm/invariant.go, llm/stream.go). */
module StreamGrammar {
  import opened Outcomes
  import opened LlmContent

  datatype FinishKind = StopFinish | ToolCallsFinish | MaxTokensFinish | AbortedFinish | ErrorFinish | OtherFinish(name: string)

  /** Adapter-private replay metadata: one part for the response, one entry per block if it has any. */
  datatype ReplayEnvelope = ReplayEnvelope(response: string, blocks: Option<seq<string>>)

  /** A chunk; block is None where the source carries a nil interface. */
  datatype StreamChunk =
    | BlockStart(index: int, blockType: BlockType)
    | TextDelta(index: int, text: string)
    | ReasoningDelta(index: int, text: string)
    | ToolCallDelta(index: int, id: CallId, name: Option<string>, argumentsDelta: string)
    | BlockEnd(index: int, block: Option<Block>)
    | UsageChunk(usage: int)
    | Finish(reason: Option<FinishKind>, replay: Option<ReplayEnvelope>)
  {
    predicate HasIndex() {
      !UsageChunk? && !Finish?
    }
  }

  function KindOf(reason: Option<FinishKind>): FinishKind {
    if reason.None? then StopFinish else reason.value
  }

  /** The checker's state across the loop. */
  datatype Grammar = Grammar(open: map<int, BlockType>, usageSeen: bool, finished: bool)

  const GRAMMAR_START := Grammar(map[], false, false)

  predicate DeltaFits(open: map<int, BlockType>, index: int, expected: BlockType) {
    index >= 0 && index in open && open[index] == expected
  }

  /** One chunk; None is a violation. */
  function Check(g: Grammar, chunk: StreamChunk): Option<Grammar> {
    if g.finished then None
    else
      match chunk
      case BlockStart(index, blockType) =>
        if index < 0 || index in g.open then None else Some(g.(open := g.open[index := blockType]))
      case TextDelta(index, _) => if DeltaFits(g.open, index, TEXT_TYPE) then Some(g) else None
      case ReasoningDelta(index, _) => if DeltaFits(g.open, index, REASONING_TYPE) then Some(g) else None
      case ToolCallDelta(index, _, _, _) => if DeltaFits(g.open, index, TOOL_CALL_TYPE) then Some(g) else None
      case BlockEnd(index, block) =>
        if index < 0 || index !in g.open || block.None? || block.value.Type() != g.open[index] then None
        else Some(g.(open := g.open - {index}))
      case UsageChunk(_) => if g.usageSeen then None else Some(g.(usageSeen := true))
      case Finish(reason, _) =>
        var kind := KindOf(reason);
        if g.open != map[] && !kind.ErrorFinish? && !kind.AbortedFinish? then None
        else Some(g.(finished := true))
  }

  function CheckAll(chunks: seq<StreamChunk>): Option<Grammar> {
    if chunks == [] then Some(GRAMMAR_START)
    else
      var before := CheckAll(chunks[..|chunks| - 1]);
      if before.None? then None else Check(before.value, chunks[|chunks| - 1])
  }

  /** Accepted to its end. */
  predicate Accepts(chunks: seq<StreamChunk>) {
    var end := CheckAll(chunks);
    end.Some? && end.value.finished
  }

  /** What the source yields: a chunk, or an error that ends it. */
  datatype Item = Chunk(chunk: StreamChunk) | SourceError(message: string)

  datatype Verdict = Complete | EndedInError | ConsumerStopped | Violation

  function ChunksOf(items: seq<Item>): seq<StreamChunk> {
    if items == [] || items[0].SourceError? then [] else [items[0].chunk] + ChunksOf(items[1..])
  }

  lemma {:induction false} CheckAllPrefix(chunks: seq<StreamChunk>, n: nat)
    requires n <= |chunks| && CheckAll(chunks).Some?
    ensures CheckAll(chunks[..n]).Some?
    decreases |chunks| - n
  {
    if n == |chunks| {
      assert chunks[..n] == chunks;
    } else {
      CheckAllPrefix(chunks, n + 1);
      assert chunks[..n + 1][..n] == chunks[..n];
    }
  }

  predicate AllChunks(items: seq<Item>) {
    forall i :: 0 <= i < |items| ==> items[i].Chunk?
  }

  /** The consumer is handed item number takes, counted from zero, with a chunk and refuses any more. */
  predicate StopsAt(items: seq<Item>, takes: Option<nat>) {
    && takes.Some? && takes.value < |items| && AllChunks(items[..takes.value + 1])
    && CheckAll(ChunksOf(items[..takes.value + 1])).Some?
  }

  /** An error of the source after n grammatical chunks, none of which the consumer refused. */
  predicate FailsAt(items: seq<Item>, takes: Option<nat>, n: nat) {
    && n < |items| && items[n].SourceError? && AllChunks(items[..n])
    && CheckAll(ChunksOf(items[..n])).Some? && (takes.Some? ==> n <= takes.value)
  }

  /** validateStream: what reaches a consumer that may stop, and how the stream ends for it. */
  method ValidateStream(items: seq<Item>, takes: Option<nat>) returns (delivered: seq<Item>, verdict: Verdict)
    ensures delivered <= items
    // A chunk is delivered only together with everything before it, and only if all of that is grammatical.
    ensures CheckAll(ChunksOf(delivered)).Some?
    ensures verdict.Complete? <==> !StopsAt(items, takes) && AllChunks(items) && Accepts(ChunksOf(items))
    ensures verdict.EndedInError? <==> exists n: nat :: FailsAt(items, takes, n)
    ensures verdict.ConsumerStopped? <==> StopsAt(items, takes)
    ensures verdict.ConsumerStopped? ==> delivered == items[..takes.value + 1]
    ensures verdict.Complete? || verdict.EndedInError? ==> ChunksOf(delivered) == ChunksOf(items)
  {
    hide CheckAll, ChunksOf;
    delivered := [];
    var g := GRAMMAR_START;
    NothingYet();
    for i := 0 to |items|
      invariant delivered == items[..i] && AllChunks(items[..i])
      invariant takes.Some? ==> i <= takes.value
      invariant CheckAll(ChunksOf(items[..i])) == Some(g)
    {
      if items[i].SourceError? {
        ErrorEnds(items, takes, i);
        return items[..i + 1], EndedInError;
      }
      OneMoreChunk(items, i);
      var next := Check(g, items[i].chunk);
      if next.None? {
        ViolationEnds(items, i);
        NeitherStopsNorFails(items, takes, i);
        return delivered, Violation;
      }
      g := next.value;
      delivered := delivered + [items[i]];
      assert delivered == items[..i + 1];
      if takes.Some? && takes.value == i {
        StopEnds(items, takes);
        return delivered, ConsumerStopped;
      }
    }
    assert items[..|items|] == items;
    return delivered, if g.finished then Complete else Violation;
  }

  lemma NothingYet()
    ensures CheckAll(ChunksOf([])) == Some(GRAMMAR_START)
  {
  }

  lemma ErrorEnds(items: seq<Item>, takes: Option<nat>, n: nat)
    requires FailsAt(items, takes, n)
    ensures !StopsAt(items, takes) && !AllChunks(items)
    ensures ChunksOf(items[..n + 1]) == ChunksOf(items) && CheckAll(ChunksOf(items[..n + 1])).Some?
  {
    hide CheckAll, ChunksOf;
    ChunksUpTo(items, n);
    ChunksUpTo(items[..n + 1], n);
    assert items[..n + 1][..n] == items[..n];
  }

  lemma NeitherStopsNorFails(items: seq<Item>, takes: Option<nat>, i: nat)
    requires i < |items| && AllChunks(items[..i + 1]) && (takes.Some? ==> i <= takes.value)
    requires forall m :: i < m <= |items| && AllChunks(items[..m]) ==> CheckAll(ChunksOf(items[..m])).None?
    ensures !StopsAt(items, takes) && forall n: nat :: !FailsAt(items, takes, n)
  {
    hide CheckAll, ChunksOf;
    forall n: nat ensures !FailsAt(items, takes, n) {
      if n <= i {
        assert items[..i + 1][n].Chunk?;
      }
    }
  }

  lemma StopEnds(items: seq<Item>, takes: Option<nat>)
    requires StopsAt(items, takes)
    ensures forall n: nat :: !FailsAt(items, takes, n)
  {
    hide CheckAll, ChunksOf;
    forall n: nat ensures !FailsAt(items, takes, n) {
      if n <= takes.value {
        assert items[..takes.value + 1][n].Chunk?;
      }
    }
  }

  lemma {:induction false} ChunksUpTo(items: seq<Item>, n: nat)
    requires n <= |items| && forall i :: 0 <= i < n ==> items[i].Chunk?
    ensures |ChunksOf(items[..n])| == n && ChunksOf(items[..n]) <= ChunksOf(items)
    ensures n < |items| && items[n].SourceError? ==> ChunksOf(items) == ChunksOf(items[..n])
    decreases n
  {
    if n > 0 {
      assert items[..n][1..] == items[1..][..n - 1];
      ChunksUpTo(items[1..], n - 1);
    }
  }

  lemma {:induction false} OneMoreChunk(items: seq<Item>, n: nat)
    requires n < |items| && forall i :: 0 <= i <= n ==> items[i].Chunk?
    ensures ChunksOf(items[..n + 1]) == ChunksOf(items[..n]) + [items[n].chunk]
    ensures CheckAll(ChunksOf(items[..n + 1])) ==
      var before := CheckAll(ChunksOf(items[..n]));
      if before.None? then None else Check(before.value, items[n].chunk)
    decreases n
  {
    if n > 0 {
      assert items[..n][1..] == items[1..][..n - 1] && items[..n + 1][1..] == items[1..][..n];
      OneMoreChunk(items[1..], n - 1);
    }
    var chunks := ChunksOf(items[..n]) + [items[n].chunk];
    assert chunks[..|chunks| - 1] == ChunksOf(items[..n]);
  }

  lemma ViolationEnds(items: seq<Item>, n: nat)
    requires n < |items| && forall i :: 0 <= i <= n ==> items[i].Chunk?
    requires CheckAll(ChunksOf(items[..n + 1])).None?
    ensures !Accepts(ChunksOf(items))
    ensures forall m :: n < m <= |items| && AllChunks(items[..m]) ==> CheckAll(ChunksOf(items[..m])).None?
  {
    hide CheckAll, ChunksOf;
    ChunksUpTo(items, n + 1);
    PrefixCondemns(ChunksOf(items[..n + 1]), ChunksOf(items));
    forall m | n < m <= |items| && AllChunks(items[..m])
      ensures CheckAll(ChunksOf(items[..m])).None?
    {
      assert items[..m][..n + 1] == items[..n + 1];
      ChunksUpTo(items[..m], n + 1);
      PrefixCondemns(ChunksOf(items[..n + 1]), ChunksOf(items[..m]));
    }
  }

  lemma PrefixCondemns(prefix: seq<StreamChunk>, chunks: seq<StreamChunk>)
    requires prefix <= chunks && CheckAll(prefix).None?
    ensures CheckAll(chunks).None?
  {
    assert chunks[..|prefix|] == prefix;
    if CheckAll(chunks).Some? {
      CheckAllPrefix(chunks, |prefix|);
    }
  }
}
