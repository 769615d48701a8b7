/**
  What a stream decides about its blocks, by position: the first chunk of an index decides what is
  built, the last word on usage and finish stands (llm/assembler.go).
*/
module AssemblyRules {
  import opened Outcomes
  import opened Decimals
  import opened LlmContent
  import opened StreamGrammar
  import opened Assembling

  /** The first chunk that carries this index. */
  predicate FirstAt(chunks: seq<StreamChunk>, index: int, k: nat) {
    && k < |chunks| && chunks[k].HasIndex() && chunks[k].index == index
    && forall m :: 0 <= m < k ==> !(chunks[m].HasIndex() && chunks[m].index == index)
  }

  /** What is built of an index that never ended, by its first chunk; None is a failure. */
  function Built(chunks: seq<StreamChunk>, index: int, first: StreamChunk): Option<Block> {
    var text := Some(TextBlock(TextSoFar(chunks, index)));
    var reasoning := Some(ReasoningBlock(TextSoFar(chunks, index)));
    var id := if LastCallId(chunks, index) == "" then "call-" + Decimal(index) else LastCallId(chunks, index);
    var call := Some(ToolCallBlock(id, LastCallName(chunks, index), ArgumentsSoFar(chunks, index)));
    match first
    case TextDelta(_, _) => text
    case ReasoningDelta(_, _) => reasoning
    case ToolCallDelta(_, _, _, _) => call
    case BlockStart(_, blockType) =>
      if blockType == "text" then text
      else if blockType == "reasoning" then reasoning
      else if blockType == "tool-call" then call
      else None
    case _ => None
  }

  lemma {:induction false} SeenExactly(chunks: seq<StreamChunk>, index: int)
    ensures index in Appearances(chunks) <==> exists m :: 0 <= m < |chunks| && chunks[m].HasIndex() && chunks[m].index == index
  {
    if chunks != [] {
      var (before, last) := (chunks[..|chunks| - 1], chunks[|chunks| - 1]);
      SeenExactly(before, index);
      assert forall m :: 0 <= m < |before| ==> chunks[m] == before[m];
    }
  }

  lemma {:induction false} FirstChunkDecides(chunks: seq<StreamChunk>, index: int, k: nat)
    requires FirstAt(chunks, index, k)
    ensures index in Appearances(chunks) && FirstType(chunks, index) == TypeOpened(chunks[k])
  {
    var before := chunks[..|chunks| - 1];
    SeenExactly(before, index);
    if k < |before| {
      assert FirstAt(before, index, k);
      FirstChunkDecides(before, index, k);
    }
  }

  /** A block that never ended is built as its first chunk says, from all its deltas; the others are the first ends. */
  lemma BuiltAsBegun(chunks: seq<StreamChunk>, index: int, k: nat)
    requires BlocksGiven(chunks) && FirstAt(chunks, index, k)
    ensures index in Assembled(chunks).partials
    ensures AssembleBlock(Assembled(chunks).partials[index], index) ==
            if FirstEnd(chunks, index).Some? then FirstEnd(chunks, index) else Built(chunks, index, chunks[k])
  {
    hide Assembled, TextSoFar, ArgumentsSoFar, LastCallId, LastCallName, Appearances, FirstType, Decimal;
    AssemblerProjects(chunks);
    FirstChunkDecides(chunks, index, k);
    assert IsProjection(Assembled(chunks).partials[index], chunks, index);
    if chunks[k].BlockEnd? {
      EndedAt(chunks, index, k);
    }
  }

  lemma {:induction false} EndedAt(chunks: seq<StreamChunk>, index: int, k: nat)
    requires k < |chunks| && chunks[k].BlockEnd? && chunks[k].index == index && chunks[k].block.Some?
    ensures FirstEnd(chunks, index).Some?
  {
    if k < |chunks| - 1 {
      EndedAt(chunks[..|chunks| - 1], index, k);
    }
  }

  /** The first end of an index, by position: the authoritative block. */
  lemma {:induction false} FirstEndExactly(chunks: seq<StreamChunk>, index: int, k: nat)
    requires BlocksGiven(chunks) && k < |chunks| && chunks[k].BlockEnd? && chunks[k].index == index
    requires forall m :: 0 <= m < k ==> !(chunks[m].BlockEnd? && chunks[m].index == index)
    ensures FirstEnd(chunks, index) == chunks[k].block
  {
    var before := chunks[..|chunks| - 1];
    if k < |before| {
      assert BlocksGiven(before);
      FirstEndExactly(before, index, k);
    } else {
      NeverEnded(before, index);
    }
  }

  lemma {:induction false} NeverEnded(chunks: seq<StreamChunk>, index: int)
    requires forall m :: 0 <= m < |chunks| ==> !(chunks[m].BlockEnd? && chunks[m].index == index)
    ensures FirstEnd(chunks, index) == None
  {
    if chunks != [] {
      NeverEnded(chunks[..|chunks| - 1], index);
    }
  }

  // ---- The last word ----

  predicate LastUsageAt(chunks: seq<StreamChunk>, k: nat) {
    k < |chunks| && chunks[k].UsageChunk? && forall m :: k < m < |chunks| ==> !chunks[m].UsageChunk?
  }

  predicate LastFinishAt(chunks: seq<StreamChunk>, k: nat) {
    k < |chunks| && chunks[k].Finish? && forall m :: k < m < |chunks| ==> !chunks[m].Finish?
  }

  lemma PushWords(a: Assembly, chunk: StreamChunk)
    ensures PushOf(a, chunk).usage == if chunk.UsageChunk? then Some(chunk.usage) else a.usage
    ensures PushOf(a, chunk).finish == if chunk.Finish? then chunk.reason else a.finish
    ensures PushOf(a, chunk).replay == if chunk.Finish? then chunk.replay else a.replay
  {
    hide Extend, TypeOpened;
  }

  lemma AssembledStep(before: seq<StreamChunk>, chunk: StreamChunk)
    ensures Assembled(before + [chunk]) == PushOf(Assembled(before), chunk)
  {
    assert (before + [chunk])[..|before|] == before;
    hide PushOf;
  }

  /** Usage is that of the last chunk that carries it. */
  lemma {:induction false} LastUsageStands(chunks: seq<StreamChunk>, k: nat)
    requires LastUsageAt(chunks, k)
    ensures Assembled(chunks).usage == Some(chunks[k].usage)
  {
    hide PushOf, Assembled;
    var (before, last) := (chunks[..|chunks| - 1], chunks[|chunks| - 1]);
    assert chunks == before + [last];
    AssembledStep(before, last);
    PushWords(Assembled(before), last);
    if k < |before| {
      LastUsageStands(before, k);
    }
  }

  /** Finish and replay metadata are those of the last finish. */
  lemma {:induction false} LastFinishStands(chunks: seq<StreamChunk>, k: nat)
    requires LastFinishAt(chunks, k)
    ensures Assembled(chunks).finish == chunks[k].reason && Assembled(chunks).replay == chunks[k].replay
  {
    hide PushOf, Assembled;
    var (before, last) := (chunks[..|chunks| - 1], chunks[|chunks| - 1]);
    assert chunks == before + [last];
    AssembledStep(before, last);
    PushWords(Assembled(before), last);
    if k < |before| {
      LastFinishStands(before, k);
    }
  }

  /** Without such a chunk there is no usage, no finish and no metadata. */
  lemma {:induction false} NothingSaid(chunks: seq<StreamChunk>)
    ensures (forall m :: 0 <= m < |chunks| ==> !chunks[m].UsageChunk?) ==> Assembled(chunks).usage == None
    ensures (forall m :: 0 <= m < |chunks| ==> !chunks[m].Finish?) ==>
              Assembled(chunks).finish == None && Assembled(chunks).replay == None
  {
    if chunks == [] {
      assert Assembled(chunks) == EMPTY;
    } else {
      hide PushOf, Assembled;
      var (before, last) := (chunks[..|chunks| - 1], chunks[|chunks| - 1]);
      assert chunks == before + [last];
      NothingSaid(before);
      AssembledStep(before, last);
      PushWords(Assembled(before), last);
    }
  }
}
