/**
  Which chunk streams are grammatical, told without the checker: by where each block starts and
  ends in the stream (llm/invariant.go, llm/stream.go).
*/
module GrammarRules {
  import opened Outcomes
  import opened LlmContent
  import opened StreamGrammar

  /** The block of this index that started at s has not ended. */
  predicate OpenSince(chunks: seq<StreamChunk>, index: int, s: nat) {
    && s < |chunks| && chunks[s].BlockStart? && chunks[s].index == index
    && forall m :: s < m < |chunks| ==> !(chunks[m].BlockEnd? && chunks[m].index == index)
  }

  ghost predicate OpenAs(chunks: seq<StreamChunk>, index: int, blockType: BlockType) {
    exists s: nat :: OpenSince(chunks, index, s) && chunks[s].blockType == blockType
  }

  ghost predicate IsOpen(chunks: seq<StreamChunk>, index: int) {
    exists s: nat :: OpenSince(chunks, index, s)
  }

  /** The tag every finished block carries; blocks of other kinds carry their own. */
  predicate CarriesTag(block: Block, blockType: BlockType) {
    match block
    case TextBlock(_) => blockType == "text"
    case ReasoningBlock(_) => blockType == "reasoning"
    case ImageBlock(_) => blockType == "image"
    case ToolCallBlock(_, _, _) => blockType == "tool-call"
    case ToolResultBlock(_, _, _) => blockType == "tool-result"
    case UnknownBlock(kind, _) => blockType == kind
  }

  /** What may come after the chunks so far. */
  ghost predicate MayCome(before: seq<StreamChunk>, chunk: StreamChunk) {
    && (forall m :: 0 <= m < |before| ==> !before[m].Finish?)
    && (chunk.HasIndex() ==> chunk.index >= 0)
    && match chunk
       case BlockStart(index, _) => !IsOpen(before, index)
       case TextDelta(index, _) => OpenAs(before, index, "text")
       case ReasoningDelta(index, _) => OpenAs(before, index, "reasoning")
       case ToolCallDelta(index, _, _, _) => OpenAs(before, index, "tool-call")
       case BlockEnd(index, block) =>
         block.Some? && exists t :: OpenAs(before, index, t) && CarriesTag(block.value, t)
       case UsageChunk(_) => forall m :: 0 <= m < |before| ==> !before[m].UsageChunk?
       case Finish(reason, _) =>
         (reason.Some? && (reason.value.ErrorFinish? || reason.value.AbortedFinish?)) || forall index :: !IsOpen(before, index)
  }

  ghost predicate Grammatical(chunks: seq<StreamChunk>) {
    forall n :: 0 <= n < |chunks| ==> MayCome(chunks[..n], chunks[n])
  }

  // ---- The checker follows exactly these rules ----

  ghost predicate Tells(g: Grammar, chunks: seq<StreamChunk>) {
    && (forall index :: index in g.open <==> IsOpen(chunks, index))
    && (forall index, t :: OpenAs(chunks, index, t) <==> index in g.open && g.open[index] == t)
    && (g.usageSeen <==> exists m :: 0 <= m < |chunks| && chunks[m].UsageChunk?)
    && (g.finished <==> exists m :: 0 <= m < |chunks| && chunks[m].Finish?)
  }

  lemma OpenStep(before: seq<StreamChunk>, c: StreamChunk, index: int, s: nat)
    ensures OpenSince(before + [c], index, s) <==>
            if s == |before| then c.BlockStart? && c.index == index
            else OpenSince(before, index, s) && !(c.BlockEnd? && c.index == index)
  {
    var chunks := before + [c];
    assert chunks[|before|] == c && forall m :: 0 <= m < |before| ==> chunks[m] == before[m];
  }

  lemma OpenInside(chunks: seq<StreamChunk>, index: int, s: nat)
    ensures OpenSince(chunks, index, s) ==> s < |chunks| && chunks[s].BlockStart?
  {
  }

  lemma OpenAsStep(before: seq<StreamChunk>, c: StreamChunk, index: int)
    ensures IsOpen(before + [c], index) <==>
            (c.BlockStart? && c.index == index) || (IsOpen(before, index) && !(c.BlockEnd? && c.index == index))
    ensures forall t :: OpenAs(before + [c], index, t) <==>
            (c.BlockStart? && c.index == index && c.blockType == t)
            || (OpenAs(before, index, t) && !(c.BlockEnd? && c.index == index))
  {
    hide OpenSince;
    var chunks := before + [c];
    forall s: nat
      ensures OpenSince(chunks, index, s) <==>
              if s == |before| then c.BlockStart? && c.index == index
              else OpenSince(before, index, s) && !(c.BlockEnd? && c.index == index)
      ensures OpenSince(before, index, s) ==> s < |before| && chunks[s] == before[s]
    {
      OpenStep(before, c, index, s);
      OpenInside(before, index, s);
    }
    assert chunks[|before|] == c;
    assert OpenSince(chunks, index, |before|) <==> c.BlockStart? && c.index == index;
  }

  lemma TagsAreTypes(block: Block, blockType: BlockType)
    ensures CarriesTag(block, blockType) <==> block.Type() == blockType
  {
  }

  lemma NoKeys(open: map<int, BlockType>)
    requires forall index :: index !in open
    ensures open == map[]
  {
    var none: map<int, BlockType> := map[];
    assert forall index :: index in open <==> index in none;
  }

  lemma NextDecides(g: Grammar, chunks: seq<StreamChunk>, c: StreamChunk)
    requires Tells(g, chunks)
    ensures Check(g, c).Some? <==> MayCome(chunks, c)
  {
    hide IsOpen, OpenAs, CarriesTag;
    if c.BlockEnd? && c.block.Some? {
      forall t ensures CarriesTag(c.block.value, t) <==> c.block.value.Type() == t {
        TagsAreTypes(c.block.value, t);
      }
      assert OpenAs(chunks, c.index, c.block.value.Type()) <==> c.index in g.open && g.open[c.index] == c.block.value.Type();
    }
    if c.Finish? {
      if forall index :: index !in g.open {
        NoKeys(g.open);
      }
    }
  }

  lemma NextTells(g: Grammar, chunks: seq<StreamChunk>, c: StreamChunk)
    requires Tells(g, chunks) && Check(g, c).Some?
    ensures Tells(Check(g, c).value, chunks + [c])
  {
    hide IsOpen, OpenAs;
    var all := chunks + [c];
    assert all[|chunks|] == c && forall m :: 0 <= m < |chunks| ==> all[m] == chunks[m];
    forall index: int
      ensures IsOpen(all, index) <==>
              (c.BlockStart? && c.index == index) || (IsOpen(chunks, index) && !(c.BlockEnd? && c.index == index))
      ensures forall t :: OpenAs(all, index, t) <==>
              (c.BlockStart? && c.index == index && c.blockType == t)
              || (OpenAs(chunks, index, t) && !(c.BlockEnd? && c.index == index))
    {
      OpenAsStep(chunks, c, index);
    }
  }

  lemma GrammaticalStep(before: seq<StreamChunk>, c: StreamChunk)
    ensures Grammatical(before + [c]) <==> Grammatical(before) && MayCome(before, c)
  {
    hide MayCome;
    var chunks := before + [c];
    assert forall n :: 0 <= n <= |before| ==> chunks[..n] == before[..n];
    assert forall n :: 0 <= n < |before| ==> chunks[n] == before[n];
    assert before[..|before|] == before && chunks[|before|] == c;
  }

  lemma NothingTold()
    ensures Tells(GRAMMAR_START, []) && Grammatical([])
  {
  }

  /** The checker accepts the chunks so far exactly when each may come after those before it. */
  lemma {:induction false} ChecksExactly(chunks: seq<StreamChunk>)
    ensures CheckAll(chunks).Some? <==> Grammatical(chunks)
    ensures CheckAll(chunks).Some? ==> Tells(CheckAll(chunks).value, chunks)
  {
    hide Check, Grammatical, MayCome, Tells;
    if chunks == [] {
      NothingTold();
    } else {
      var (before, c) := (chunks[..|chunks| - 1], chunks[|chunks| - 1]);
      assert chunks == before + [c];
      ChecksExactly(before);
      GrammaticalStep(before, c);
      if CheckAll(before).Some? {
        NextDecides(CheckAll(before).value, before, c);
        if Check(CheckAll(before).value, c).Some? {
          NextTells(CheckAll(before).value, before, c);
        }
      }
    }
  }

  /** A stream is accepted to its end exactly when it is grammatical and its last chunk is the finish. */
  lemma AcceptsExactly(chunks: seq<StreamChunk>)
    ensures Accepts(chunks) <==> Grammatical(chunks) && chunks != [] && chunks[|chunks| - 1].Finish?
  {
    hide CheckAll, MayCome;
    ChecksExactly(chunks);
    if Grammatical(chunks) && CheckAll(chunks).value.finished {
      var m :| 0 <= m < |chunks| && chunks[m].Finish?;
      NothingFollowsFinish(chunks, m);
    }
  }

  lemma NothingFollowsFinish(chunks: seq<StreamChunk>, m: nat)
    requires Grammatical(chunks) && m < |chunks| && chunks[m].Finish?
    ensures m == |chunks| - 1
  {
    if m + 1 < |chunks| {
      FinishIsLast(chunks, m);
    }
  }

  lemma FinishIsLast(chunks: seq<StreamChunk>, m: nat)
    requires m + 1 < |chunks| && chunks[m].Finish?
    ensures !MayCome(chunks[..m + 1], chunks[m + 1])
  {
    assert chunks[..m + 1][m] == chunks[m];
  }
}
