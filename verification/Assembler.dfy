/**
  Assembling content blocks from a chunk stream (llm/assembler.go), and its agreement with the
  stream grammar: whatever the grammar accepts is assembled from the block ends alone.
*/
module Assembling {
  import opened Outcomes
  import opened Decimals
  import opened LlmContent
  import opened StreamGrammar

  datatype AssemblyError = MalformedBlock(blockType: BlockType)

  /** One block being collected; closed holds the block its first block-end carried. */
  datatype Partial = Partial(blockType: BlockType, text: string, toolCallId: CallId, toolCallName: string,
                             toolCallArguments: string, closed: Option<Block>)

  function Opened(blockType: BlockType): Partial {
    Partial(blockType, "", "", "", "", None)
  }

  // ---------------------------------------------------------------------------------------------
  // What a stream says about one index, read off the stream itself

  /** Indices in order of first appearance. */
  function Appearances(chunks: seq<StreamChunk>): seq<int> {
    if chunks == [] then []
    else
      var before := Appearances(chunks[..|chunks| - 1]);
      var last := chunks[|chunks| - 1];
      if last.HasIndex() && last.index !in before then before + [last.index] else before
  }

  function TypeOpened(chunk: StreamChunk): BlockType {
    match chunk
    case BlockStart(_, blockType) => blockType
    case TextDelta(_, _) => TEXT_TYPE
    case ReasoningDelta(_, _) => REASONING_TYPE
    case ToolCallDelta(_, _, _, _) => TOOL_CALL_TYPE
    case BlockEnd(_, block) => if block.Some? then block.value.Type() else ""
    case _ => ""
  }

  /** The type the first chunk of an index gives it. */
  function FirstType(chunks: seq<StreamChunk>, index: int): BlockType {
    if chunks == [] then ""
    else if index in Appearances(chunks[..|chunks| - 1]) then FirstType(chunks[..|chunks| - 1], index)
    else TypeOpened(chunks[|chunks| - 1])
  }

  /** The block of the first block-end of an index. */
  function FirstEnd(chunks: seq<StreamChunk>, index: int): Option<Block> {
    if chunks == [] then None
    else
      var before := FirstEnd(chunks[..|chunks| - 1], index);
      var last := chunks[|chunks| - 1];
      if before.Some? then before
      else if last.BlockEnd? && last.index == index then last.block
      else None
  }

  function TextSoFar(chunks: seq<StreamChunk>, index: int): string {
    if chunks == [] then ""
    else
      var last := chunks[|chunks| - 1];
      TextSoFar(chunks[..|chunks| - 1], index)
      + if (last.TextDelta? || last.ReasoningDelta?) && last.index == index then last.text else ""
  }

  function ArgumentsSoFar(chunks: seq<StreamChunk>, index: int): string {
    if chunks == [] then ""
    else
      var last := chunks[|chunks| - 1];
      ArgumentsSoFar(chunks[..|chunks| - 1], index)
      + if last.ToolCallDelta? && last.index == index then last.argumentsDelta else ""
  }

  function LastCallId(chunks: seq<StreamChunk>, index: int): CallId {
    if chunks == [] then ""
    else
      var last := chunks[|chunks| - 1];
      if last.ToolCallDelta? && last.index == index then last.id
      else LastCallId(chunks[..|chunks| - 1], index)
  }

  function LastCallName(chunks: seq<StreamChunk>, index: int): string {
    if chunks == [] then ""
    else
      var last := chunks[|chunks| - 1];
      if last.ToolCallDelta? && last.index == index && last.name.Some? && last.name.value != "" then last.name.value
      else LastCallName(chunks[..|chunks| - 1], index)
  }

  // ---------------------------------------------------------------------------------------------
  // The assembler

  datatype Assembly = Assembly(partials: map<int, Partial>, order: seq<int>, usage: Option<int>,
                               finish: Option<FinishKind>, replay: Option<ReplayEnvelope>)

  const EMPTY := Assembly(map[], [], None, None, None)

  function Ensure(a: Assembly, index: int, blockType: BlockType): (b: Assembly)
    ensures index in b.partials
    ensures index in a.partials ==> b == a
  {
    if index in a.partials then a
    else a.(partials := a.partials[index := Opened(blockType)], order := a.order + [index])
  }

  function Extend(partial: Partial, chunk: StreamChunk): Partial {
    if partial.closed.Some? then partial
    else
      match chunk
      case TextDelta(_, text) => partial.(text := partial.text + text)
      case ReasoningDelta(_, text) => partial.(text := partial.text + text)
      case ToolCallDelta(_, id, name, argumentsDelta) =>
        partial.(toolCallId := id,
                 toolCallName := if name.Some? && name.value != "" then name.value else partial.toolCallName,
                 toolCallArguments := partial.toolCallArguments + argumentsDelta)
      case BlockEnd(_, block) => partial.(closed := block)
      case _ => partial
  }

  function PushOf(a: Assembly, chunk: StreamChunk): Assembly {
    match chunk
    case UsageChunk(usage) => a.(usage := Some(usage))
    case Finish(reason, replay) => a.(finish := reason, replay := replay)
    case _ =>
      var ensured := Ensure(a, chunk.index, TypeOpened(chunk));
      ensured.(partials := ensured.partials[chunk.index := Extend(ensured.partials[chunk.index], chunk)])
  }

  function Assembled(chunks: seq<StreamChunk>): Assembly {
    if chunks == [] then EMPTY
    else PushOf(Assembled(chunks[..|chunks| - 1]), chunks[|chunks| - 1])
  }

  /** assembleBlock; None when the type cannot be built from deltas. */
  function AssembleBlock(partial: Partial, index: int): Option<Block> {
    if partial.closed.Some? then partial.closed
    else if partial.blockType == TEXT_TYPE then Some(TextBlock(partial.text))
    else if partial.blockType == REASONING_TYPE then Some(ReasoningBlock(partial.text))
    else if partial.blockType == TOOL_CALL_TYPE then
      var id := if partial.toolCallId == "" then "call-" + Decimal(index) else partial.toolCallId;
      Some(ToolCallBlock(id, partial.toolCallName, partial.toolCallArguments))
    else None
  }

  /** Every seen block, in order; the first that cannot be built is the error. */
  function AssembleAll(a: Assembly, order: seq<int>): Result<seq<Block>, AssemblyError>
    requires forall i :: 0 <= i < |order| ==> order[i] in a.partials
  {
    if order == [] then Ok([])
    else
      var block := AssembleBlock(a.partials[order[0]], order[0]);
      if block.None? then Err(MalformedBlock(a.partials[order[0]].blockType))
      else
        var rest :- AssembleAll(a, order[1..]);
        Ok([block.value] + rest)
  }

  /** The entries at positions whose block is kept. */
  function Keep<T>(blocks: seq<Block>, entries: seq<T>): seq<T>
    requires |blocks| == |entries|
  {
    if blocks == [] then []
    else (if blocks[0].Type() == TOOL_CALL_TYPE then [] else [entries[0]]) + Keep(blocks[1..], entries[1..])
  }

  predicate Truncated(a: Assembly) {
    KindOf(a.finish).MaxTokensFinish?
  }

  function KeptBlocks(a: Assembly, all: seq<Block>): seq<Block> {
    if Truncated(a) then Keep(all, all) else all
  }

  function KeptReplay(a: Assembly, all: seq<Block>): Option<ReplayEnvelope> {
    if a.replay.None? || a.replay.value.blocks.None? then a.replay
    else
      var entries := a.replay.value.blocks.value;
      if |entries| != |all| then None
      else if !Truncated(a) || |Keep(all, all)| == |all| then a.replay
      else Some(ReplayEnvelope(a.replay.value.response, Some(Keep(all, entries))))
  }

  /** The list holds exactly the keys, each once. */
  ghost predicate Lists(order: seq<int>, keys: set<int>) {
    && (forall i :: 0 <= i < |order| ==> order[i] in keys)
    && (forall index <- keys :: index in order)
    && (forall i, j :: 0 <= i < j < |order| ==> order[i] != order[j])
  }

  ghost predicate Indexed(a: Assembly) {
    Lists(a.order, a.partials.Keys)
  }

  function Blocks(a: Assembly): Result<seq<Block>, AssemblyError>
    requires Indexed(a)
  {
    var all :- AssembleAll(a, a.order);
    Ok(KeptBlocks(a, all))
  }

  // ---------------------------------------------------------------------------------------------
  // The assembler's state is the stream's own projection

  /** No block-end carries a nil block; pushing one would be a nil dereference. */
  ghost predicate BlocksGiven(chunks: seq<StreamChunk>) {
    forall i :: 0 <= i < |chunks| ==> chunks[i].BlockEnd? ==> chunks[i].block.Some?
  }

  ghost predicate IsProjection(p: Partial, chunks: seq<StreamChunk>, index: int) {
    && p.blockType == FirstType(chunks, index)
    && p.closed == FirstEnd(chunks, index)
    && (p.closed.None? ==>
          && p.text == TextSoFar(chunks, index)
          && p.toolCallArguments == ArgumentsSoFar(chunks, index)
          && p.toolCallId == LastCallId(chunks, index)
          && p.toolCallName == LastCallName(chunks, index))
  }

  ghost predicate Projects(a: Assembly, chunks: seq<StreamChunk>) {
    && Indexed(a)
    && a.order == Appearances(chunks)
    && forall index <- a.partials :: IsProjection(a.partials[index], chunks, index)
  }

  lemma {:induction false} UnseenIsEmpty(chunks: seq<StreamChunk>, index: int)
    requires index !in Appearances(chunks)
    ensures FirstEnd(chunks, index) == None
    ensures TextSoFar(chunks, index) == "" && ArgumentsSoFar(chunks, index) == ""
    ensures LastCallId(chunks, index) == "" && LastCallName(chunks, index) == ""
  {
    if chunks != [] {
      UnseenIsEmpty(chunks[..|chunks| - 1], index);
    }
  }

  /** Pushing the last chunk extends the projection of its own index. */
  lemma OwnIndex(p: Partial, chunks: seq<StreamChunk>)
    requires chunks != [] && chunks[|chunks| - 1].HasIndex()
    requires var index := chunks[|chunks| - 1].index;
             var before := chunks[..|chunks| - 1];
             if index in Appearances(before) then IsProjection(p, before, index)
             else p == Opened(TypeOpened(chunks[|chunks| - 1]))
    ensures IsProjection(Extend(p, chunks[|chunks| - 1]), chunks, chunks[|chunks| - 1].index)
  {
    var index := chunks[|chunks| - 1].index;
    if index !in Appearances(chunks[..|chunks| - 1]) {
      UnseenIsEmpty(chunks[..|chunks| - 1], index);
    }
  }

  /** After any stream, grammatical or not, the assembler holds exactly what the stream says of each index. */
  lemma {:induction false} AssemblerProjects(chunks: seq<StreamChunk>)
    requires BlocksGiven(chunks)
    ensures Projects(Assembled(chunks), chunks)
  {
    if chunks != [] {
      var before := chunks[..|chunks| - 1];
      var last := chunks[|chunks| - 1];
      assert BlocksGiven(before);
      AssemblerProjects(before);
      PushProjects(Assembled(before), chunks);
    }
  }

  lemma PushProjects(a: Assembly, chunks: seq<StreamChunk>)
    requires chunks != [] && Projects(a, chunks[..|chunks| - 1])
    ensures Projects(PushOf(a, chunks[|chunks| - 1]), chunks)
  {
    hide IsProjection, Extend, FirstType, FirstEnd, TypeOpened;
    var before := chunks[..|chunks| - 1];
    var last := chunks[|chunks| - 1];
    var b := PushOf(a, last);
    PushIndexes(a, chunks);
    forall index <- b.partials ensures IsProjection(b.partials[index], chunks, index) {
      if last.HasIndex() && last.index == index {
        OwnIndex(Ensure(a, index, TypeOpened(last)).partials[index], chunks);
      } else {
        assert index in a.partials && b.partials[index] == a.partials[index];
        OtherProjection(a.partials[index], chunks, index);
      }
    }
  }

  lemma PushIndexes(a: Assembly, chunks: seq<StreamChunk>)
    requires chunks != [] && Indexed(a) && a.order == Appearances(chunks[..|chunks| - 1])
    ensures Indexed(PushOf(a, chunks[|chunks| - 1])) && PushOf(a, chunks[|chunks| - 1]).order == Appearances(chunks)
  {
    hide PushOf, Appearances, Lists;
    var last := chunks[|chunks| - 1];
    AppearanceStep(chunks);
    PushShape(a, last);
    if last.HasIndex() {
      ListedIffKey(a.order, a.partials.Keys, last.index);
      if last.index !in a.partials {
        FreshIndex(a.order, a.partials.Keys, last.index);
      }
    }
  }

  lemma ListedIffKey(order: seq<int>, keys: set<int>, index: int)
    requires Lists(order, keys)
    ensures index in order <==> index in keys
  {
  }

  /** Which indices are known after a push, and in what order. */
  lemma PushShape(a: Assembly, chunk: StreamChunk)
    requires Indexed(a)
    ensures var b := PushOf(a, chunk);
            var isNew := chunk.HasIndex() && chunk.index !in a.partials;
            && b.order == (if isNew then a.order + [chunk.index] else a.order)
            && b.partials.Keys == (if isNew then a.partials.Keys + {chunk.index} else a.partials.Keys)
  {
    hide Extend, TypeOpened, Indexed;
  }

  lemma AppearanceStep(chunks: seq<StreamChunk>)
    requires chunks != []
    ensures var before := Appearances(chunks[..|chunks| - 1]);
            var last := chunks[|chunks| - 1];
            Appearances(chunks) == if last.HasIndex() && last.index !in before then before + [last.index] else before
  {
  }

  lemma FreshIndex(order: seq<int>, keys: set<int>, index: int)
    requires Lists(order, keys) && index !in keys
    ensures Lists(order + [index], keys + {index})
  {
    assert (order + [index])[|order|] == index;
    forall i | 0 <= i < |order + [index]| ensures (order + [index])[i] in keys + {index} {
      assert i < |order| ==> (order + [index])[i] == order[i];
    }
  }

  lemma OtherProjection(p: Partial, chunks: seq<StreamChunk>, index: int)
    requires chunks != [] && index in Appearances(chunks[..|chunks| - 1])
    requires IsProjection(p, chunks[..|chunks| - 1], index)
    requires !chunks[|chunks| - 1].HasIndex() || chunks[|chunks| - 1].index != index
    ensures IsProjection(p, chunks, index)
  {
  }

  // ---------------------------------------------------------------------------------------------
  // Agreement with the grammar

  /** Along a grammatical stream every index seen so far is open or has ended, and what is open was seen. */
  lemma {:induction false} SeenIsOpenOrEnded(chunks: seq<StreamChunk>)
    requires CheckAll(chunks).Some?
    ensures BlocksGiven(chunks)
    ensures forall index <- CheckAll(chunks).value.open :: index in Appearances(chunks)
    ensures forall index <- Appearances(chunks) :: index in CheckAll(chunks).value.open || FirstEnd(chunks, index).Some?
  {
    if chunks != [] {
      var before := chunks[..|chunks| - 1];
      SeenIsOpenOrEnded(before);
      forall index <- Appearances(chunks)
        ensures index in CheckAll(chunks).value.open || FirstEnd(chunks, index).Some?
      {
      }
    }
  }

  /** The kind of finish a stream that ends in one ends with. */
  function LastFinish(chunks: seq<StreamChunk>): FinishKind {
    if chunks != [] && chunks[|chunks| - 1].Finish? then KindOf(chunks[|chunks| - 1].reason) else StopFinish
  }

  lemma {:induction false} FinishedMeansLast(chunks: seq<StreamChunk>)
    requires Accepts(chunks)
    ensures chunks != [] && chunks[|chunks| - 1].Finish?
    ensures KindOf(Assembled(chunks).finish) == LastFinish(chunks)
    ensures !LastFinish(chunks).ErrorFinish? && !LastFinish(chunks).AbortedFinish? ==> CheckAll(chunks).value.open == map[]
  {
    hide Appearances;
  }

  /** The blocks an accepted stream stands for: the first end of each index, in order of appearance. */
  function EndedBlocks(chunks: seq<StreamChunk>, order: seq<int>): seq<Block>
    requires forall i :: 0 <= i < |order| ==> FirstEnd(chunks, order[i]).Some?
  {
    if order == [] then [] else [FirstEnd(chunks, order[0]).value] + EndedBlocks(chunks, order[1..])
  }

  lemma {:induction false} AssembleEnded(a: Assembly, chunks: seq<StreamChunk>, order: seq<int>)
    requires Projects(a, chunks)
    requires forall i :: 0 <= i < |order| ==> order[i] in a.partials && FirstEnd(chunks, order[i]).Some?
    ensures AssembleAll(a, order) == Ok(EndedBlocks(chunks, order))
    decreases |order|
  {
    hide FirstEnd, FirstType, TextSoFar, ArgumentsSoFar, LastCallId, LastCallName, Appearances;
    if order != [] {
      assert IsProjection(a.partials[order[0]], chunks, order[0]);
      AssembleEnded(a, chunks, order[1..]);
    }
  }

  /**
    For every stream the grammar accepts to its end, with a finish other than error or aborted,
    assembly never fails: the blocks are the first block-end of each index in order of first
    appearance, minus the tool calls when the output limit cut the response off.
  */
  lemma AssemblerAgreesWithGrammar(chunks: seq<StreamChunk>)
    requires Accepts(chunks) && !LastFinish(chunks).ErrorFinish? && !LastFinish(chunks).AbortedFinish?
    ensures Indexed(Assembled(chunks))
    ensures forall i :: 0 <= i < |Appearances(chunks)| ==> FirstEnd(chunks, Appearances(chunks)[i]).Some?
    ensures var ended := EndedBlocks(chunks, Appearances(chunks));
            Blocks(Assembled(chunks)) == Ok(if LastFinish(chunks).MaxTokensFinish? then Keep(ended, ended) else ended)
  {
    hide FirstEnd, Appearances, CheckAll, Assembled;
    SeenIsOpenOrEnded(chunks);
    FinishedMeansLast(chunks);
    AssemblerProjects(chunks);
    var order := Appearances(chunks);
    forall i | 0 <= i < |order| ensures FirstEnd(chunks, order[i]).Some? {
      assert order[i] in order;
    }
    AssembleEnded(Assembled(chunks), chunks, order);
  }

  /** Assembly of any stream fails exactly when an index never ended and was opened as an unknown type. */
  lemma BlocksFailExactly(chunks: seq<StreamChunk>)
    requires BlocksGiven(chunks)
    ensures Indexed(Assembled(chunks))
    ensures Blocks(Assembled(chunks)).Err? <==>
      exists i :: 0 <= i < |Appearances(chunks)| && Hopeless(chunks, Appearances(chunks)[i])
  {
    hide Assembled, Appearances, Hopeless, FirstType, FirstEnd, IsProjection;
    AssemblerProjects(chunks);
    assert Assembled(chunks).order == Appearances(chunks);
    FailsExactly(Assembled(chunks), chunks, Appearances(chunks));
    assert Blocks(Assembled(chunks)).Err? <==> AssembleAll(Assembled(chunks), Appearances(chunks)).Err?;
  }

  predicate Hopeless(chunks: seq<StreamChunk>, index: int) {
    && FirstEnd(chunks, index).None?
    && FirstType(chunks, index) !in [TEXT_TYPE, REASONING_TYPE, TOOL_CALL_TYPE]
  }

  lemma {:induction false} FailsExactly(a: Assembly, chunks: seq<StreamChunk>, order: seq<int>)
    requires Projects(a, chunks) && forall i :: 0 <= i < |order| ==> order[i] in a.partials
    ensures AssembleAll(a, order).Err? <==> exists i :: 0 <= i < |order| && Hopeless(chunks, order[i])
    decreases |order|
  {
    hide FirstEnd, FirstType, TextSoFar, ArgumentsSoFar, LastCallId, LastCallName, Appearances;
    if order != [] {
      assert IsProjection(a.partials[order[0]], chunks, order[0]);
      FailsExactly(a, chunks, order[1..]);
      assert Hopeless(chunks, order[0]) <==> AssembleBlock(a.partials[order[0]], order[0]).None?;
      if exists i :: 0 <= i < |order[1..]| && Hopeless(chunks, order[1..][i]) {
        var i :| 0 <= i < |order[1..]| && Hopeless(chunks, order[1..][i]);
        assert Hopeless(chunks, order[i + 1]);
      }
      assert forall i :: 0 < i < |order| ==> order[i] == order[1..][i - 1];
    }
  }

  /** A block that never ended is built from its deltas alone. */
  lemma OpenBlocksComeFromDeltas(chunks: seq<StreamChunk>, index: int)
    requires BlocksGiven(chunks) && index in Appearances(chunks) && FirstEnd(chunks, index).None?
    ensures index in Assembled(chunks).partials
    ensures var block := AssembleBlock(Assembled(chunks).partials[index], index);
            var blockType := FirstType(chunks, index);
            && (blockType == TEXT_TYPE ==> block == Some(TextBlock(TextSoFar(chunks, index))))
            && (blockType == REASONING_TYPE ==> block == Some(ReasoningBlock(TextSoFar(chunks, index))))
            && (blockType == TOOL_CALL_TYPE ==>
                  var id := if LastCallId(chunks, index) == "" then "call-" + Decimal(index) else LastCallId(chunks, index);
                  block == Some(ToolCallBlock(id, LastCallName(chunks, index), ArgumentsSoFar(chunks, index))))
  {
    hide FirstEnd, FirstType, TextSoFar, ArgumentsSoFar, LastCallId, LastCallName, Appearances, Assembled;
    AssemblerProjects(chunks);
    assert IsProjection(Assembled(chunks).partials[index], chunks, index);
  }

  // ---------------------------------------------------------------------------------------------
  // Replay entries line up with blocks

  /** positions picks, in order, which of the seen blocks were kept. */
  ghost predicate Picks<T(!new)>(positions: seq<nat>, from: seq<T>, picked: seq<T>) {
    && |positions| == |picked|
    && (forall k :: 0 <= k < |positions| ==> positions[k] < |from| && picked[k] == from[positions[k]])
    && (forall j, k :: 0 <= j < k < |positions| ==> positions[j] < positions[k])
  }

  function KeptPositions(blocks: seq<Block>, offset: nat): seq<nat> {
    if blocks == [] then []
    else (if blocks[0].Type() == TOOL_CALL_TYPE then [] else [offset]) + KeptPositions(blocks[1..], offset + 1)
  }

  /** Filtering takes the same positions out of the blocks and out of anything aligned with them. */
  lemma {:induction false} KeepPicks<T(!new)>(blocks: seq<Block>, entries: seq<T>, offset: nat)
    requires |blocks| == |entries|
    ensures var positions := KeptPositions(blocks, offset);
            && |positions| == |Keep(blocks, entries)|
            && (forall k :: 0 <= k < |positions| ==>
                  offset <= positions[k] < offset + |blocks| && Keep(blocks, entries)[k] == entries[positions[k] - offset])
            && (forall j, k :: 0 <= j < k < |positions| ==> positions[j] < positions[k])
    decreases |blocks|
  {
    hide Keep, KeptPositions;
    KeepUnfolds(blocks, entries, offset);
    if blocks != [] {
      KeepPicks(blocks[1..], entries[1..], offset + 1);
      var rest := KeptPositions(blocks[1..], offset + 1);
      assert forall k :: 0 <= k < |rest| ==> entries[1..][rest[k] - (offset + 1)] == entries[rest[k] - offset];
    }
  }

  lemma KeepUnfolds<T>(blocks: seq<Block>, entries: seq<T>, offset: nat)
    requires |blocks| == |entries|
    ensures blocks == [] ==> Keep(blocks, entries) == [] && KeptPositions(blocks, offset) == []
    ensures blocks != [] ==>
              var drops := blocks[0].Type() == TOOL_CALL_TYPE;
              && Keep(blocks, entries) == (if drops then [] else [entries[0]]) + Keep(blocks[1..], entries[1..])
              && KeptPositions(blocks, offset) == (if drops then [] else [offset]) + KeptPositions(blocks[1..], offset + 1)
  {
  }

  /** Keeping everything changes nothing. */
  lemma {:induction false} KeepAll<T>(blocks: seq<Block>, entries: seq<T>)
    requires |blocks| == |entries|
    ensures |Keep(blocks, entries)| <= |blocks|
    ensures |Keep(blocks, entries)| == |blocks| ==> Keep(blocks, entries) == entries
  {
    if blocks != [] {
      KeepAll(blocks[1..], entries[1..]);
      assert entries == [entries[0]] + entries[1..];
    }
  }

  /** A cut-off response keeps every block that is not a tool call, as often as it occurs, and no tool call. */
  lemma {:induction false} KeepDropsToolCalls(blocks: seq<Block>, block: Block)
    ensures multiset(Keep(blocks, blocks))[block] == if block.Type() == TOOL_CALL_TYPE then 0 else multiset(blocks)[block]
  {
    hide Keep;
    if blocks == [] {
      KeepNothing();
    } else {
      KeepDropsToolCalls(blocks[1..], block);
      KeepHead(blocks);
      var head := if blocks[0].Type() == TOOL_CALL_TYPE then [] else [blocks[0]];
      assert blocks == [blocks[0]] + blocks[1..];
    }
  }

  lemma KeepNothing()
    ensures Keep<Block>([], []) == []
  {
  }

  lemma KeepHead(blocks: seq<Block>)
    requires blocks != []
    ensures Keep(blocks, blocks) == (if blocks[0].Type() == TOOL_CALL_TYPE then [] else [blocks[0]]) + Keep(blocks[1..], blocks[1..])
  {
  }

  /**
    Per-block replay entries that come out of an assembly line up one to one with the blocks that
    come out: the same positions were kept from both. Otherwise the envelope is dropped whole.
  */
  lemma ReplayLinesUp(a: Assembly, all: seq<Block>)
    ensures var replay := KeptReplay(a, all);
            && (replay.Some? && replay.value.blocks.Some? ==>
                  && a.replay.Some? && a.replay.value.blocks.Some? && |a.replay.value.blocks.value| == |all|
                  && replay.value.response == a.replay.value.response
                  && exists positions :: Picks(positions, all, KeptBlocks(a, all))
                       && Picks(positions, a.replay.value.blocks.value, replay.value.blocks.value))
            && (replay.None? <==>
                  (a.replay.None? || (a.replay.value.blocks.Some? && |a.replay.value.blocks.value| != |all|)))
  {
    var replay := KeptReplay(a, all);
    if replay.Some? && replay.value.blocks.Some? {
      var entries := a.replay.value.blocks.value;
      if Truncated(a) && |Keep(all, all)| != |all| {
        KeepPicks(all, all, 0);
        KeepPicks(all, entries, 0);
        var positions := KeptPositions(all, 0);
        assert Picks(positions, all, KeptBlocks(a, all)) && Picks(positions, entries, replay.value.blocks.value);
      } else {
        KeepAll(all, all);
        var positions := seq(|all|, i requires 0 <= i < |all| => i);
        assert Picks(positions, all, KeptBlocks(a, all)) && Picks(positions, entries, replay.value.blocks.value);
      }
    }
  }

  // ---------------------------------------------------------------------------------------------
  // The object

  function Appended(partial: Partial, text: string): Partial {
    if partial.closed.Some? then partial else partial.(text := partial.text + text)
  }

  lemma PushKeepsIndex(a: Assembly, chunk: StreamChunk)
    requires Indexed(a)
    ensures Indexed(PushOf(a, chunk))
  {
    hide PushOf, Lists;
    PushShape(a, chunk);
    if chunk.HasIndex() && chunk.index !in a.partials {
      FreshIndex(a.order, a.partials.Keys, chunk.index);
    }
  }

  class BlockAssembler {
    var partials: map<int, Partial>
    var order: seq<int>
    var usage: Option<int>
    var finish: Option<FinishKind>
    var replayState: Option<ReplayEnvelope>

    function View(): Assembly
      reads this
    {
      Assembly(partials, order, usage, finish, replayState)
    }

    constructor ()
      ensures View() == EMPTY && Indexed(View())
    {
      partials, order := map[], [];
      usage, finish, replayState := None, None, None;
    }

    /** ensure, and through it open. */
    method EnsureOpen(index: int, blockType: BlockType) returns (partial: Partial)
      modifies this
      ensures View() == Ensure(old(View()), index, blockType) && partial == partials[index]
    {
      if index !in partials {
        partials := partials[index := Opened(blockType)];
        order := order + [index];
      }
      return partials[index];
    }

    /** A text or reasoning delta; late ones, after the block has ended, are dropped. */
    method PushText(index: int, blockType: BlockType, text: string)
      requires Indexed(View())
      modifies this
      ensures var ensured := Ensure(old(View()), index, blockType);
              View() == ensured.(partials := ensured.partials[index := Appended(ensured.partials[index], text)])
    {
      var partial := EnsureOpen(index, blockType);
      if partial.closed.None? {
        partials := partials[index := partial.(text := partial.text + text)];
      } else {
        assert partials == partials[index := partial];
      }
    }

    method PushCall(index: int, id: CallId, name: Option<string>, argumentsDelta: string)
      requires Indexed(View())
      modifies this
      ensures var ensured := Ensure(old(View()), index, TOOL_CALL_TYPE);
              View() == ensured.(partials :=
                ensured.partials[index := Extend(ensured.partials[index], ToolCallDelta(index, id, name, argumentsDelta))])
    {
      var partial := EnsureOpen(index, TOOL_CALL_TYPE);
      if partial.closed.None? {
        var named := if name.Some? && name.value != "" then name.value else partial.toolCallName;
        partials := partials[index := partial.(toolCallId := id, toolCallName := named,
                                               toolCallArguments := partial.toolCallArguments + argumentsDelta)];
      } else {
        assert partials == partials[index := partial];
      }
    }

    /** A block-end: the first one of an index is authoritative. */
    method PushEnd(index: int, block: Block)
      requires Indexed(View())
      modifies this
      ensures var ensured := Ensure(old(View()), index, block.Type());
              View() == ensured.(partials :=
                ensured.partials[index := Extend(ensured.partials[index], BlockEnd(index, Some(block)))])
    {
      var partial := EnsureOpen(index, block.Type());
      if partial.closed.None? {
        partials := partials[index := partial.(closed := Some(block))];
      } else {
        assert partials == partials[index := partial];
      }
    }

    method Push(chunk: StreamChunk)
      requires Indexed(View()) && (chunk.BlockEnd? ==> chunk.block.Some?)
      modifies this
      ensures View() == PushOf(old(View()), chunk) && Indexed(View())
    {
      hide Ensure, Indexed;
      PushKeepsIndex(View(), chunk);
      match chunk {
        case BlockStart(index, blockType) =>
          var partial := EnsureOpen(index, blockType);
          assert partials == partials[index := partial];
        case TextDelta(index, text) =>
          PushText(index, TEXT_TYPE, text);
        case ReasoningDelta(index, text) =>
          PushText(index, REASONING_TYPE, text);
        case ToolCallDelta(index, id, name, argumentsDelta) =>
          PushCall(index, id, name, argumentsDelta);
        case BlockEnd(index, block) =>
          PushEnd(index, block.value);
        case UsageChunk(tokens) =>
          usage := Some(tokens);
        case Finish(reason, replay) =>
          finish := reason;
          replayState := replay;
      }
    }

    /** assembled: the one decision both Blocks and ReplayState come from. */
    method AssembleAndPrune() returns (r: Result<(seq<Block>, Option<ReplayEnvelope>), AssemblyError>)
      requires Indexed(View())
      ensures r.Err? <==> AssembleAll(View(), order).Err?
      ensures r.Err? ==> r.error == AssembleAll(View(), order).error
      ensures r.Ok? ==> Blocks(View()) == Ok(r.value.0)
      ensures r.Ok? ==> r.value.1 == KeptReplay(View(), AssembleAll(View(), order).value)
    {
      var all: seq<Block> := [];
      for i := 0 to |order|
        invariant AssembleAll(View(), order[..i]) == Ok(all) && |all| == i
      {
        AssembleOneMore(View(), order, i);
        var block := AssembleBlock(partials[order[i]], order[i]);
        if block.None? {
          AssembleStops(View(), order, i);
          return Err(MalformedBlock(partials[order[i]].blockType));
        }
        all := all + [block.value];
      }
      assert order[..|order|] == order;
      var blocks := all;
      if KindOf(finish).MaxTokensFinish? {
        blocks := Prune(all, all);
      }
      if replayState.None? || replayState.value.blocks.None? {
        return Ok((blocks, replayState));
      }
      var entries := replayState.value.blocks.value;
      if |entries| != |all| {
        return Ok((blocks, None));
      }
      if !KindOf(finish).MaxTokensFinish? || |blocks| == |all| {
        return Ok((blocks, replayState));
      }
      var pruned := Prune(all, entries);
      return Ok((blocks, Some(ReplayEnvelope(replayState.value.response, Some(pruned)))));
    }
  }

  /** The loop that drops the entries of tool calls. */
  method Prune<T>(blocks: seq<Block>, entries: seq<T>) returns (kept: seq<T>)
    requires |blocks| == |entries|
    ensures kept == Keep(blocks, entries)
  {
    hide Keep;
    kept := [];
    KeepEverythingLeft(blocks, entries);
    for i := 0 to |blocks|
      invariant kept + Keep(blocks[i..], entries[i..]) == Keep(blocks, entries)
    {
      KeepAt(blocks, entries, i);
      if blocks[i].Type() != TOOL_CALL_TYPE {
        kept := kept + [entries[i]];
      }
    }
  }

  lemma KeepEverythingLeft<T>(blocks: seq<Block>, entries: seq<T>)
    requires |blocks| == |entries|
    ensures [] + Keep(blocks[0..], entries[0..]) == Keep(blocks, entries)
    ensures Keep(blocks[|blocks|..], entries[|entries|..]) == []
  {
    assert blocks[0..] == blocks && entries[0..] == entries;
  }

  lemma KeepAt<T>(blocks: seq<Block>, entries: seq<T>, i: nat)
    requires |blocks| == |entries| && i < |blocks|
    ensures Keep(blocks[i..], entries[i..])
         == (if blocks[i].Type() == TOOL_CALL_TYPE then [] else [entries[i]]) + Keep(blocks[i + 1..], entries[i + 1..])
  {
    assert blocks[i..][1..] == blocks[i + 1..] && entries[i..][1..] == entries[i + 1..];
  }

  lemma {:induction false} AssembleOneMore(a: Assembly, order: seq<int>, n: nat)
    requires n < |order| && forall i :: 0 <= i < |order| ==> order[i] in a.partials
    requires AssembleAll(a, order[..n]).Ok?
    ensures var block := AssembleBlock(a.partials[order[n]], order[n]);
            AssembleAll(a, order[..n + 1]) ==
            if block.None? then Err(MalformedBlock(a.partials[order[n]].blockType))
            else Ok(AssembleAll(a, order[..n]).value + [block.value])
    decreases n
  {
    if n == 0 {
      assert order[..1][1..] == [] && order[..0] == [];
      var block := AssembleBlock(a.partials[order[0]], order[0]);
      if block.Some? {
        assert [block.value] + [] == [] + [block.value];
      }
    } else {
      assert order[..n + 1][1..] == order[1..][..n] && order[..n][1..] == order[1..][..n - 1];
      AssembleOneMore(a, order[1..], n - 1);
      var rest := AssembleAll(a, order[1..][..n - 1]);
      var block := AssembleBlock(a.partials[order[n]], order[n]);
      if rest.Ok? && block.Some? {
        var head := AssembleBlock(a.partials[order[0]], order[0]).value;
        assert [head] + (rest.value + [block.value]) == [head] + rest.value + [block.value];
      }
    }
  }

  lemma {:induction false} AssembleStops(a: Assembly, order: seq<int>, n: nat)
    requires n < |order| && forall i :: 0 <= i < |order| ==> order[i] in a.partials
    requires AssembleAll(a, order[..n]).Ok? && AssembleBlock(a.partials[order[n]], order[n]).None?
    ensures AssembleAll(a, order) == Err(MalformedBlock(a.partials[order[n]].blockType))
    decreases n
  {
    if n > 0 {
      assert order[..n][1..] == order[1..][..n - 1];
      AssembleStops(a, order[1..], n - 1);
    }
  }
}
