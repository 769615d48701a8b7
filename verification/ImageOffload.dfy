/**
  Fitting a request's images into a route's budget (llm/image.go): the oldest images, in traversal
  order through messages and nested tool results, give way to a placeholder in quantised steps.
*/
module ImageOffload {
  import opened Outcomes
  import opened LlmContent

  const OFFLOADED_TEXT := "[image omitted to keep the request within its image limit; older images are omitted first. If this image is still needed, read its file again when a path is available; otherwise ask the user to attach it again.]"

  const PLACEHOLDER := TextBlock(OFFLOADED_TEXT)

  datatype Representation = Raw | Base64

  datatype Policy = Policy(maxImages: Option<int>, maxBytes: Option<int>, countQuantum: int, byteQuantum: int,
                           representation: Representation, byteLength: Option<ImageRef -> int>)

  function CeilDiv(dividend: int, divisor: int): (r: int)
    requires divisor > 0
    ensures r >= 0
    ensures dividend > 0 ==> (r - 1) * divisor < dividend <= r * divisor
    ensures dividend <= 0 ==> r == 0
  {
    if dividend <= 0 then 0
    else
      var r := (dividend + divisor - 1) / divisor;
      assert r * divisor + (dividend + divisor - 1) % divisor == dividend + divisor - 1;
      assert (r - 1) * divisor == r * divisor - divisor;
      r
  }

  /** The least multiple of the quantum that covers the excess. */
  function RoundedUp(excess: int, quantum: int): (r: int)
    requires quantum > 0
    ensures r >= 0 && r >= excess && (excess > 0 ==> r < excess + quantum) && (excess <= 0 ==> r == 0)
  {
    var steps := CeilDiv(excess, quantum);
    assert (steps - 1) * quantum == steps * quantum - quantum;
    steps * quantum
  }

  function LengthOf(image: ImageRef, policy: Policy): int {
    var bytes := if policy.byteLength.Some? then policy.byteLength.value(image) else image.bytes;
    if policy.representation.Base64? then CeilDiv(bytes, 3) * 4 else bytes
  }

  /** Images in request order and nesting order. */
  function Images(blocks: seq<Block>): seq<ImageRef> {
    if blocks == [] then []
    else
      var head :=
        match blocks[0]
        case ImageBlock(image) => [image]
        case ToolResultBlock(_, content, _) => Images(content)
        case _ => [];
      head + Images(blocks[1..])
  }

  function Lengths(images: seq<ImageRef>, policy: Policy): (lengths: seq<int>)
    ensures |lengths| == |images| && forall i :: 0 <= i < |images| ==> lengths[i] == LengthOf(images[i], policy)
  {
    if images == [] then [] else [LengthOf(images[0], policy)] + Lengths(images[1..], policy)
  }

  function Sum(lengths: seq<int>): int {
    if lengths == [] then 0 else Sum(lengths[..|lengths| - 1]) + lengths[|lengths| - 1]
  }

  /** The content with its first n images replaced, and how many replacements are left over. */
  function Replace(blocks: seq<Block>, n: nat): (r: (seq<Block>, nat))
    ensures |r.0| == |blocks| && r.1 <= n
  {
    if blocks == [] then ([], n)
    else
      match blocks[0]
      case ImageBlock(_) =>
        if n > 0 then
          var rest := Replace(blocks[1..], n - 1);
          ([PLACEHOLDER] + rest.0, rest.1)
        else
          var rest := Replace(blocks[1..], n);
          ([blocks[0]] + rest.0, rest.1)
      case ToolResultBlock(toolCallId, content, isError) =>
        var inner := Replace(content, n);
        var rest := Replace(blocks[1..], inner.1);
        ([ToolResultBlock(toolCallId, inner.0, isError)] + rest.0, rest.1)
      case _ =>
        var rest := Replace(blocks[1..], n);
        ([blocks[0]] + rest.0, rest.1)
  }

  /** A content read left to right with its nesting marked. */
  datatype Token = Image(image: ImageRef) | Other(block: Block) | Enter(toolCallId: CallId, isError: bool) | Leave

  function Tokens(blocks: seq<Block>): seq<Token> {
    if blocks == [] then []
    else
      var head :=
        match blocks[0]
        case ImageBlock(image) => [Image(image)]
        case ToolResultBlock(toolCallId, content, isError) => [Enter(toolCallId, isError)] + Tokens(content) + [Leave]
        case _ => [Other(blocks[0])];
      head + Tokens(blocks[1..])
  }

  function ImageCount(tokens: seq<Token>): nat {
    if tokens == [] then 0 else ImageCount(tokens[..|tokens| - 1]) + if tokens[|tokens| - 1].Image? then 1 else 0
  }

  /** What the model reads in place of an image. */
  const OMITTED := "[image omitted to keep the request within its image limit; older images are omitted first. If this image is still needed, read its file again when a path is available; otherwise ask the user to attach it again.]"

  /** Exactly the images with fewer than n images before them became the placeholder; all else stands. */
  ghost predicate OffloadsFirst(before: seq<Token>, after: seq<Token>, n: nat) {
    && |after| == |before|
    && forall p :: 0 <= p < |before| ==>
         after[p] == if before[p].Image? && ImageCount(before[..p]) < n then Other(TextBlock(OMITTED)) else before[p]
  }

  function Left(n: nat, count: nat): nat {
    if count <= n then n - count else 0
  }

  /** A sequence without its first n elements, or without any when there are not that many. */
  function Dropped<T>(s: seq<T>, n: nat): seq<T> {
    if n <= |s| then s[n..] else []
  }

  function Quantum(q: int): (r: int)
    ensures r > 0
  {
    if q <= 0 then 1 else q
  }

  function Excess(have: int, limit: Option<int>): int {
    if limit.None? || have <= limit.value then 0 else have - limit.value
  }

  function CountTarget(lengths: seq<int>, policy: Policy): int {
    RoundedUp(Excess(|lengths|, policy.maxImages), Quantum(policy.countQuantum))
  }

  function ByteTarget(lengths: seq<int>, policy: Policy): int {
    RoundedUp(Excess(Sum(lengths), policy.maxBytes), Quantum(policy.byteQuantum))
  }

  /** A quantum of one stops at the target, a larger one only past it. */
  predicate BytesMet(removed: int, target: int, quantum: int) {
    target == 0 || (if quantum == 1 then removed >= target else removed > target)
  }

  /** Removing the first k images meets both quantised targets. */
  predicate Met(lengths: seq<int>, policy: Policy, k: nat)
    requires k <= |lengths|
  {
    k >= CountTarget(lengths, policy)
    && BytesMet(Sum(lengths[..k]), ByteTarget(lengths, policy), Quantum(policy.byteQuantum))
  }

  /** The shortest prefix that meets the targets, or every image when none does. */
  function Removed(lengths: seq<int>, policy: Policy, from: nat): (k: nat)
    requires from <= |lengths|
    ensures from <= k <= |lengths|
    ensures k < |lengths| ==> Met(lengths, policy, k)
    ensures forall j :: from <= j < k ==> !Met(lengths, policy, j)
    decreases |lengths| - from
  {
    if from == |lengths| || Met(lengths, policy, from) then from else Removed(lengths, policy, from + 1)
  }

  function AllImages(messages: seq<Message>): seq<ImageRef> {
    if messages == [] then [] else Images(messages[0].content) + AllImages(messages[1..])
  }

  function ReplaceAll(messages: seq<Message>, n: nat): (r: seq<Message>)
    ensures |r| == |messages|
  {
    if messages == [] then []
    else
      var replaced := Replace(messages[0].content, n);
      [messages[0].(content := replaced.0)] + ReplaceAll(messages[1..], replaced.1)
  }

  function RemovedFrom(messages: seq<Message>, policy: Policy): nat {
    Removed(Lengths(AllImages(messages), policy), policy, 0)
  }

  function Offload(messages: seq<Message>, policy: Policy): seq<Message> {
    ReplaceAll(messages, RemovedFrom(messages, policy))
  }

  function AllTokens(messages: seq<Message>): seq<Token> {
    if messages == [] then [] else Tokens(messages[0].content) + AllTokens(messages[1..])
  }

  predicate WithinBudget(lengths: seq<int>, policy: Policy) {
    && (policy.maxImages.Some? ==> |lengths| <= policy.maxImages.value)
    && (policy.maxBytes.Some? ==> Sum(lengths) <= policy.maxBytes.value)
  }

  predicate LimitsAreSane(policy: Policy) {
    && (policy.maxImages.Some? ==> policy.maxImages.value >= 0)
    && (policy.maxBytes.Some? ==> policy.maxBytes.value >= 0)
  }

  ghost predicate NonNegative(lengths: seq<int>) {
    forall i :: 0 <= i < |lengths| ==> lengths[i] >= 0
  }

  predicate SameTargets(a: seq<int>, b: seq<int>, policy: Policy) {
    CountTarget(a, policy) == CountTarget(b, policy) && ByteTarget(a, policy) == ByteTarget(b, policy)
  }
}
