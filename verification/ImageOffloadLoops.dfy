/** The loops of llm/image.go. */
module ImageOffloadLoops {
  import opened Outcomes
  import opened LlmContent
  import opened ImageOffload
  import opened ImageReplacement
  import opened ImageBudget

  method CollectImageLengths(blocks: seq<Block>, lengths: seq<int>, policy: Policy) returns (all: seq<int>)
    ensures all == lengths + Lengths(Images(blocks), policy)
  {
    hide LengthOf, Images, Lengths;
    all := lengths;
    NoLengths(policy);
    assert blocks[..0] == [] && lengths + [] == lengths;
    for i := 0 to |blocks|
      invariant all == lengths + Lengths(Images(blocks[..i]), policy)
    {
      var block := blocks[i];
      ImagesStep(blocks, i, policy);
      Regroup(lengths, Lengths(Images(blocks[..i]), policy), HeadLengths(block, policy));
      if block.ImageBlock? {
        var bytes := if policy.byteLength.Some? then policy.byteLength.value(block.attachment) else block.attachment.bytes;
        if policy.representation.Base64? {
          bytes := CeilDiv(bytes, 3) * 4;
        }
        LengthUnfolds(block.attachment, policy);
        all := all + [bytes];
      } else if block.ToolResultBlock? {
        all := CollectImageLengths(block.content, all, policy);
      }
    }
    assert blocks[..|blocks|] == blocks;
  }

  lemma Regroup(a: seq<int>, b: seq<int>, c: seq<int>)
    ensures a + b + c == a + (b + c) && a + b + [] == a + b
  {
  }

  lemma NoLengths(policy: Policy)
    ensures Lengths(Images([]), policy) == []
  {
  }

  lemma LengthUnfolds(image: ImageRef, policy: Policy)
    ensures LengthOf(image, policy) ==
      var bytes := if policy.byteLength.Some? then policy.byteLength.value(image) else image.bytes;
      if policy.representation.Base64? then CeilDiv(bytes, 3) * 4 else bytes
  {
  }

  lemma ImagesStep(blocks: seq<Block>, i: nat, policy: Policy)
    requires i < |blocks|
    ensures Lengths(Images(blocks[..i + 1]), policy) == Lengths(Images(blocks[..i]), policy) + HeadLengths(blocks[i], policy)
  {
    assert blocks[..i + 1] == blocks[..i] + [blocks[i]];
    ImagesConcat(blocks[..i], [blocks[i]]);
    LengthsConcat(Images(blocks[..i]), Images([blocks[i]]), policy);
  }

  lemma {:induction false} ImagesConcat(a: seq<Block>, b: seq<Block>)
    ensures Images(a + b) == Images(a) + Images(b)
  {
    if a == [] {
      assert a + b == b;
    } else {
      assert (a + b)[1..] == a[1..] + b;
      ImagesConcat(a[1..], b);
    }
  }

  function HeadLengths(block: Block, policy: Policy): seq<int> {
    match block
    case ImageBlock(image) => [LengthOf(image, policy)]
    case ToolResultBlock(_, content, _) => Lengths(Images(content), policy)
    case _ => []
  }

  /** replaceOldestImages: copies only once something changes. */
  method ReplaceOldestImages(blocks: seq<Block>, remaining: nat) returns (content: seq<Block>, changed: bool, left: nat)
    ensures (content, left) == Replace(blocks, remaining)
    ensures changed <==> left < remaining
  {
    hide Replace, HeadReplaced, LeftAfter;
    var next: seq<Block> := [];
    changed := false;
    left := remaining;
    for i := 0 to |blocks|
      invariant left <= remaining && (changed <==> left < remaining)
      invariant Continues(blocks, remaining, if changed then next else blocks[..i], i, left)
    {
      var block := blocks[i];
      ReplaceOne(blocks, remaining, if changed then next else blocks[..i], i, left);
      HeadCases(block, left);
      assert blocks[..i + 1] == blocks[..i] + [block];
      if block.ImageBlock? && left > 0 {
        left := left - 1;
        if !changed {
          next := blocks[..i];
          changed := true;
        }
        next := next + [PLACEHOLDER];
        continue;
      }
      if block.ToolResultBlock? {
        var inner, nested, after := ReplaceOldestImages(block.content, left);
        ReplaceUnchanged(block.content, left);
        left := after;
        if nested {
          if !changed {
            next := blocks[..i];
            changed := true;
          }
          next := next + [ToolResultBlock(block.toolCallId, inner, block.isError)];
          continue;
        }
      }
      if changed {
        next := next + [block];
      }
    }
    FinishReplacing(blocks, remaining, if changed then next else blocks[..|blocks|], left);
    assert blocks[..|blocks|] == blocks;
    content := if changed then next else blocks;
  }

  /** The finished part and the replacement of the rest make up the replacement of the whole. */
  ghost predicate Continues(blocks: seq<Block>, n: nat, finished: seq<Block>, i: nat, left: nat)
    requires i <= |blocks|
  {
    && finished + Replace(blocks[i..], left).0 == Replace(blocks, n).0
    && Replace(blocks[i..], left).1 == Replace(blocks, n).1
  }

  lemma FinishReplacing(blocks: seq<Block>, n: nat, finished: seq<Block>, left: nat)
    requires Continues(blocks, n, finished, |blocks|, left)
    ensures Replace(blocks, n) == (finished, left)
  {
    assert blocks[|blocks|..] == [];
    assert Replace([], left) == ([], left);
    assert finished + [] == finished;
  }

  lemma ReplaceOne(blocks: seq<Block>, n: nat, finished: seq<Block>, i: nat, left: nat)
    requires i < |blocks| && Continues(blocks, n, finished, i, left)
    ensures Continues(blocks, n, finished + [HeadReplaced(blocks[i], left)], i + 1, LeftAfter(blocks[i], left))
  {
    assert blocks[i..][1..] == blocks[i + 1..];
    var m := LeftAfter(blocks[i], left);
    var rest := Replace(blocks[i + 1..], m);
    assert Replace(blocks[i..], left) == ([HeadReplaced(blocks[i], left)] + rest.0, rest.1);
    assert finished + ([HeadReplaced(blocks[i], left)] + rest.0) == finished + [HeadReplaced(blocks[i], left)] + rest.0;
  }

  lemma HeadCases(block: Block, n: nat)
    ensures block.ImageBlock? && n > 0 ==> HeadReplaced(block, n) == PLACEHOLDER && LeftAfter(block, n) == n - 1
    ensures block.ImageBlock? && n == 0 ==> HeadReplaced(block, n) == block && LeftAfter(block, n) == 0
    ensures block.ToolResultBlock? ==>
      var inner := Replace(block.content, n);
      HeadReplaced(block, n) == ToolResultBlock(block.toolCallId, inner.0, block.isError) && LeftAfter(block, n) == inner.1
    ensures !block.ImageBlock? && !block.ToolResultBlock? ==> HeadReplaced(block, n) == block && LeftAfter(block, n) == n
  {
  }

  /** The counting loop: stops at the first prefix that meets both targets. */
  method CountToRemove(lengths: seq<int>, policy: Policy, removeCount: int, removeBytes: int) returns (count: nat)
    requires removeCount == CountTarget(lengths, policy) && removeBytes == ByteTarget(lengths, policy)
    ensures count == Removed(lengths, policy, 0)
  {
    hide CountTarget, ByteTarget, Removed;
    var byteQuantum := Quantum(policy.byteQuantum);
    var removedBytes := 0;
    count := 0;
    while count < |lengths|
      invariant count <= |lengths| && removedBytes == Sum(lengths[..count])
      invariant forall j :: 0 <= j < count ==> !Met(lengths, policy, j)
    {
      var byteTargetMet := removeBytes == 0;
      if !byteTargetMet {
        if byteQuantum == 1 {
          byteTargetMet := removedBytes >= removeBytes;
        } else {
          byteTargetMet := removedBytes > removeBytes;
        }
      }
      if count >= removeCount && byteTargetMet {
        assert Met(lengths, policy, count);
        break;
      }
      assert lengths[..count + 1][..count] == lengths[..count];
      removedBytes := removedBytes + lengths[count];
      count := count + 1;
    }
  }

  /** The byte-limited projection over base64 lengths. */
  method OffloadRequestImages(messages: seq<Message>, maxRequestImageBytes: Option<int>) returns (projected: seq<Message>)
    ensures projected == Offload(messages, Base64Policy(maxRequestImageBytes))
    ensures Offload(projected, Base64Policy(maxRequestImageBytes)) == projected
    ensures maxRequestImageBytes.Some? && maxRequestImageBytes.value >= 0 ==>
      Sum(Lengths(AllImages(projected), Base64Policy(maxRequestImageBytes))) <= maxRequestImageBytes.value
    ensures maxRequestImageBytes.None? ==> projected == messages
  {
    hide Offload, Lengths, AllImages;
    Base64OffloadFits(messages, maxRequestImageBytes);
    if maxRequestImageBytes.None? {
      UnlimitedKeepsAll(messages);
    }
    projected := OffloadRequestImagesWithPolicy(messages, Base64Policy(maxRequestImageBytes));
  }

  lemma UnlimitedKeepsAll(messages: seq<Message>)
    ensures Offload(messages, Base64Policy(None)) == messages
  {
    FittingNeedsNothing(Lengths(AllImages(messages), Base64Policy(None)), Base64Policy(None));
    ReplaceAllNothing(messages);
  }

  method OffloadRequestImagesWithPolicy(messages: seq<Message>, policy: Policy) returns (projected: seq<Message>)
    ensures projected == Offload(messages, policy)
  {
    hide Images, Lengths, LengthOf, Replace, CountTarget, ByteTarget, Removed, CeilDiv;
    var lengths: seq<int> := [];
    for i := 0 to |messages|
      invariant lengths == Lengths(AllImages(messages[..i]), policy)
    {
      OneMoreMessage(messages, i, policy);
      lengths := CollectImageLengths(messages[i].content, lengths, policy);
    }
    assert messages[..|messages|] == messages;
    var total := 0;
    for i := 0 to |lengths|
      invariant total == Sum(lengths[..i])
    {
      assert lengths[..i + 1][..i] == lengths[..i];
      total := total + lengths[i];
    }
    assert lengths[..|lengths|] == lengths;
    var excessCount := Excess(|lengths|, policy.maxImages);
    var excessBytes := Excess(total, policy.maxBytes);
    if excessCount == 0 && excessBytes == 0 {
      FittingNeedsNothing(lengths, policy);
      ReplaceAllNothing(messages);
      return messages;
    }
    TargetsUnfold(lengths, policy);
    var count := CountToRemove(lengths, policy, RoundedUp(excessCount, Quantum(policy.countQuantum)),
                               RoundedUp(excessBytes, Quantum(policy.byteQuantum)));
    projected := Project(messages, count);
  }

  /** The projecting loop. */
  method Project(messages: seq<Message>, count: nat) returns (projected: seq<Message>)
    ensures projected == ReplaceAll(messages, count)
  {
    hide Replace;
    projected := [];
    var remaining := count;
    for i := 0 to |messages|
      invariant projected + ReplaceAll(messages[i..], remaining) == ReplaceAll(messages, count)
    {
      var message := messages[i];
      assert messages[i..][1..] == messages[i + 1..];
      var content, changed, left := ReplaceOldestImages(message.content, remaining);
      ReplaceUnchanged(message.content, remaining);
      if changed {
        message := message.(content := content);
      }
      projected := projected + [message];
      remaining := left;
    }
    assert messages[|messages|..] == [];
  }

  lemma OneMoreMessage(messages: seq<Message>, i: nat, policy: Policy)
    requires i < |messages|
    ensures Lengths(AllImages(messages[..i + 1]), policy)
         == Lengths(AllImages(messages[..i]), policy) + Lengths(Images(messages[i].content), policy)
  {
    hide Images, Lengths;
    assert messages[..i + 1] == messages[..i] + [messages[i]];
    AllImagesConcat(messages[..i], [messages[i]]);
    assert [messages[i]][1..] == [];
    assert AllImages([messages[i]]) == Images(messages[i].content) + [];
    assert Images(messages[i].content) + [] == Images(messages[i].content);
    LengthsConcat(AllImages(messages[..i]), Images(messages[i].content), policy);
  }

  lemma TargetsUnfold(lengths: seq<int>, policy: Policy)
    ensures CountTarget(lengths, policy) == RoundedUp(Excess(|lengths|, policy.maxImages), Quantum(policy.countQuantum))
    ensures ByteTarget(lengths, policy) == RoundedUp(Excess(Sum(lengths), policy.maxBytes), Quantum(policy.byteQuantum))
  {
  }
}
