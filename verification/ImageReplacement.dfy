/** What replacing the first images of nested content does, and what it leaves alone. */
module ImageReplacement {
  import opened Outcomes
  import opened LlmContent
  import opened ImageOffload

  lemma {:induction false} ImageCountConcat(a: seq<Token>, b: seq<Token>)
    ensures ImageCount(a + b) == ImageCount(a) + ImageCount(b)
    decreases |b|
  {
    if b == [] {
      assert a + b == a;
    } else {
      assert (a + b)[..|a + b| - 1] == a + b[..|b| - 1];
      ImageCountConcat(a, b[..|b| - 1]);
    }
  }

  /** Offloading a concatenation is offloading the front, then the back with what is left of n. */
  lemma OffloadsConcat(a: seq<Token>, a': seq<Token>, b: seq<Token>, b': seq<Token>, n: nat, m: nat)
    requires OffloadsFirst(a, a', n) && OffloadsFirst(b, b', m)
    requires m == if ImageCount(a) <= n then n - ImageCount(a) else 0
    ensures OffloadsFirst(a + b, a' + b', n)
  {
    forall p | 0 <= p < |a + b|
      ensures (a' + b')[p] == if (a + b)[p].Image? && ImageCount((a + b)[..p]) < n then Other(PLACEHOLDER) else (a + b)[p]
    {
      if p < |a| {
        assert (a + b)[..p] == a[..p];
      } else {
        assert (a + b)[..p] == a + b[..p - |a|];
        ImageCountConcat(a, b[..p - |a|]);
      }
    }
  }

  lemma OffloadsOne(token: Token, n: nat)
    ensures OffloadsFirst([token], [if token.Image? && n > 0 then Other(PLACEHOLDER) else token], n)
    ensures ImageCount([token]) == if token.Image? then 1 else 0
  {
    assert [token][..0] == [];
  }

  /** Replacing does to the tokens exactly what offloading the first n images means. */
  lemma {:induction false} ReplaceOffloads(blocks: seq<Block>, n: nat)
    ensures OffloadsFirst(Tokens(blocks), Tokens(Replace(blocks, n).0), n)
    ensures Replace(blocks, n).1 == Left(n, ImageCount(Tokens(blocks)))
  {
    hide OffloadsFirst, ImageCount;
    if blocks == [] {
      NothingOffloads(n);
    } else {
      var front, front' := HeadTokens(blocks[0]), HeadTokens(HeadReplaced(blocks[0], n));
      HeadOffloads(blocks[0], n);
      var m := Left(n, ImageCount(front));
      ReplaceOffloads(blocks[1..], m);
      OffloadsConcat(front, front', Tokens(blocks[1..]), Tokens(Replace(blocks[1..], m).0), n, m);
      ImageCountConcat(front, Tokens(blocks[1..]));
      ReplaceStep(blocks, n);
    }
  }

  lemma NothingOffloads(n: nat)
    ensures OffloadsFirst([], [], n) && ImageCount([]) == 0
  {
  }

  function HeadTokens(block: Block): seq<Token> {
    match block
    case ImageBlock(image) => [Image(image)]
    case ToolResultBlock(toolCallId, content, isError) => [Enter(toolCallId, isError)] + Tokens(content) + [Leave]
    case _ => [Other(block)]
  }

  function HeadReplaced(block: Block, n: nat): Block {
    match block
    case ImageBlock(_) => if n > 0 then PLACEHOLDER else block
    case ToolResultBlock(toolCallId, content, isError) => ToolResultBlock(toolCallId, Replace(content, n).0, isError)
    case _ => block
  }

  predicate CountsHead(block: Block) {
    ImageCount(HeadTokens(block)) ==
      if block.ImageBlock? then 1
      else if block.ToolResultBlock? then ImageCount(Tokens(block.content))
      else 0
  }

  lemma ReplaceStep(blocks: seq<Block>, n: nat)
    requires blocks != []
    requires blocks[0].ToolResultBlock? ==> Replace(blocks[0].content, n).1 == Left(n, ImageCount(Tokens(blocks[0].content)))
    requires CountsHead(blocks[0])
    ensures var m := Left(n, ImageCount(HeadTokens(blocks[0])));
            && Replace(blocks, n) == ([HeadReplaced(blocks[0], n)] + Replace(blocks[1..], m).0, Replace(blocks[1..], m).1)
            && Tokens(Replace(blocks, n).0) == HeadTokens(HeadReplaced(blocks[0], n)) + Tokens(Replace(blocks[1..], m).0)
            && Tokens(blocks) == HeadTokens(blocks[0]) + Tokens(blocks[1..])
  {
    hide ImageCount;
  }

  lemma {:induction false} HeadOffloads(block: Block, n: nat)
    ensures OffloadsFirst(HeadTokens(block), HeadTokens(HeadReplaced(block, n)), n)
    ensures CountsHead(block)
    ensures block.ToolResultBlock? ==> Replace(block.content, n).1 == Left(n, ImageCount(Tokens(block.content)))
  {
    hide OffloadsFirst, ImageCount;
    if block.ToolResultBlock? {
      ReplaceOffloads(block.content, n);
      var enter, inner, inner' := Enter(block.toolCallId, block.isError), Tokens(block.content), Tokens(Replace(block.content, n).0);
      OffloadsOne(enter, n);
      OffloadsOne(Leave, Left(n, ImageCount(inner)));
      OffloadsConcat([enter], [enter], inner, inner', n, n);
      ImageCountConcat([enter], inner);
      OffloadsConcat([enter] + inner, [enter] + inner', [Leave], [Leave], n, Left(n, ImageCount(inner)));
      ImageCountConcat([enter] + inner, [Leave]);
    } else if block.ImageBlock? {
      OffloadsOne(Image(block.attachment), n);
    } else {
      OffloadsOne(Other(block), n);
    }
  }

  lemma {:induction false} ImagesOfTokens(blocks: seq<Block>)
    ensures |Images(blocks)| == ImageCount(Tokens(blocks))
  {
    if blocks != [] {
      ImagesOfTokens(blocks[1..]);
      ImageCountConcat(HeadTokens(blocks[0]), Tokens(blocks[1..]));
      HeadOffloads(blocks[0], 0);
      if blocks[0].ToolResultBlock? {
        ImagesOfTokens(blocks[0].content);
      }
    }
  }

  lemma DropConcat<T>(a: seq<T>, b: seq<T>, n: nat)
    ensures Dropped(a + b, n) == Dropped(a, n) + Dropped(b, Left(n, |a|))
    ensures Left(n, |a + b|) == Left(Left(n, |a|), |b|)
  {
  }

  /** The images left are the original sequence without its first n. */
  lemma {:induction false} ReplaceKeepsTheRest(blocks: seq<Block>, n: nat)
    ensures Images(Replace(blocks, n).0) == Dropped(Images(blocks), n)
    ensures Replace(blocks, n).1 == Left(n, |Images(blocks)|)
  {
    if blocks != [] {
      hide Images, Replace, LeftAfter, HeadReplaced, HeadImages, Dropped, Left;
      var m := LeftAfter(blocks[0], n);
      if blocks[0].ToolResultBlock? {
        ReplaceKeepsTheRest(blocks[0].content, n);
      }
      HeadKeepsTheRest(blocks[0], n);
      ReplaceKeepsTheRest(blocks[1..], m);
      ReplaceHead(blocks, n);
      DropConcat(HeadImages(blocks[0]), Images(blocks[1..]), n);
      assert Replace(blocks, n).0[1..] == Replace(blocks[1..], m).0;
    }
  }

  lemma ReplaceHead(blocks: seq<Block>, n: nat)
    requires blocks != []
    ensures var m := LeftAfter(blocks[0], n);
            Replace(blocks, n) == ([HeadReplaced(blocks[0], n)] + Replace(blocks[1..], m).0, Replace(blocks[1..], m).1)
  {
  }

  function HeadImages(block: Block): seq<ImageRef> {
    match block
    case ImageBlock(image) => [image]
    case ToolResultBlock(_, content, _) => Images(content)
    case _ => []
  }

  lemma HeadKeepsTheRest(block: Block, n: nat)
    requires block.ToolResultBlock? ==>
      && Images(Replace(block.content, n).0) == Dropped(Images(block.content), n)
      && Replace(block.content, n).1 == Left(n, |Images(block.content)|)
    ensures LeftAfter(block, n) == Left(n, |HeadImages(block)|)
    ensures HeadImages(HeadReplaced(block, n)) == Dropped(HeadImages(block), n)
  {
    hide Images, Replace;
  }

  lemma {:induction false} ReplaceAllKeepsTheRest(messages: seq<Message>, n: nat)
    ensures AllImages(ReplaceAll(messages, n)) == Dropped(AllImages(messages), n)
  {
    hide Images, Replace;
    if messages != [] {
      DropConcat(Images(messages[0].content), AllImages(messages[1..]), n);
      ReplaceKeepsTheRest(messages[0].content, n);
      ReplaceAllKeepsTheRest(messages[1..], Left(n, |Images(messages[0].content)|));
    }
  }

  /** Nothing but the offloaded images changes, in any message. */
  lemma {:induction false} ReplaceAllOffloads(messages: seq<Message>, n: nat)
    ensures OffloadsFirst(AllTokens(messages), AllTokens(ReplaceAll(messages, n)), n)
    ensures forall i :: 0 <= i < |messages| ==>
      ReplaceAll(messages, n)[i] == messages[i].(content := ReplaceAll(messages, n)[i].content)
  {
    hide OffloadsFirst, ImageCount;
    if messages == [] {
      NothingOffloads(n);
    } else {
      var content := messages[0].content;
      var m := Left(n, ImageCount(Tokens(content)));
      ReplaceOffloads(content, n);
      ReplaceAllOffloads(messages[1..], m);
      OffloadsConcat(Tokens(content), Tokens(Replace(content, n).0), AllTokens(messages[1..]),
                     AllTokens(ReplaceAll(messages[1..], m)), n, m);
    }
  }

  lemma {:induction false} ReplaceNothing(blocks: seq<Block>)
    ensures Replace(blocks, 0) == (blocks, 0)
  {
    if blocks != [] {
      if blocks[0].ToolResultBlock? {
        ReplaceNothing(blocks[0].content);
      }
      ReplaceNothing(blocks[1..]);
      assert blocks == [blocks[0]] + blocks[1..];
    }
  }

  /** In each message, with the images of the messages before it counted: only those of the first n become the placeholder. */
  lemma {:induction false} EachMessageOffloads(messages: seq<Message>, n: nat, i: nat)
    requires i < |messages|
    ensures var after := ReplaceAll(messages, n)[i];
            && after == messages[i].(content := after.content)
            && OffloadsFirst(Tokens(messages[i].content), Tokens(after.content), Left(n, |AllImages(messages[..i])|))
  {
    hide OffloadsFirst, Tokens, ImageCount, Images, Replace;
    var content := messages[0].content;
    ReplaceOffloads(content, n);
    ImagesOfTokens(content);
    if i == 0 {
      assert messages[..0] == [];
    } else {
      var m := Replace(content, n).1;
      EachMessageOffloads(messages[1..], m, i - 1);
      assert messages[..i][1..] == messages[1..][..i - 1];
      assert |AllImages(messages[..i])| == |Images(content)| + |AllImages(messages[1..][..i - 1])|;
    }
  }

  lemma {:induction false} ReplaceAllNothing(messages: seq<Message>)
    ensures ReplaceAll(messages, 0) == messages
  {
    if messages != [] {
      ReplaceNothing(messages[0].content);
      ReplaceAllNothing(messages[1..]);
      assert messages == [messages[0]] + messages[1..];
    }
  }

  lemma {:induction false} AllImagesConcat(a: seq<Message>, b: seq<Message>)
    ensures AllImages(a + b) == AllImages(a) + AllImages(b)
  {
    if a == [] {
      assert a + b == b;
    } else {
      assert (a + b)[1..] == a[1..] + b;
      AllImagesConcat(a[1..], b);
    }
  }

  lemma {:induction false} ReplaceAllPrefix(a: seq<Message>, b: seq<Message>, n: nat)
    ensures ReplaceAll(a, n) <= ReplaceAll(a + b, n)
  {
    if a != [] {
      assert (a + b)[1..] == a[1..] + b;
      ReplaceAllPrefix(a[1..], b, Replace(a[0].content, n).1);
    }
  }

  function LeftAfter(block: Block, n: nat): nat {
    match block
    case ImageBlock(_) => Left(n, 1)
    case ToolResultBlock(_, content, _) => Replace(content, n).1
    case _ => n
  }

  lemma ReplaceUnchanged(blocks: seq<Block>, n: nat)
    ensures Replace(blocks, n).1 == n ==> Replace(blocks, n).0 == blocks
  {
    if n == 0 {
      ReplaceNothing(blocks);
    } else {
      ReplaceKeepsTheRest(blocks, n);
      if |Images(blocks)| == 0 {
        NoImagesNoChange(blocks, n);
      }
    }
  }

  lemma {:induction false} NoImagesNoChange(blocks: seq<Block>, n: nat)
    requires Images(blocks) == []
    ensures Replace(blocks, n) == (blocks, n)
  {
    if blocks != [] {
      if blocks[0].ToolResultBlock? {
        NoImagesNoChange(blocks[0].content, n);
      }
      NoImagesNoChange(blocks[1..], n);
      assert blocks == [blocks[0]] + blocks[1..];
    }
  }
}
