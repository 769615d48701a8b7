/** The image budget is met minimally, the projection is idempotent, and it is stable as history grows. */
module ImageBudget {
  import opened Outcomes
  import opened LlmContent
  import opened ImageOffload
  import opened ImageReplacement

  lemma RoundedUpIsMonotone(a: int, b: int, quantum: int)
    requires quantum > 0 && a <= b
    ensures RoundedUp(a, quantum) <= RoundedUp(b, quantum)
  {
    var m, n := CeilDiv(a, quantum), CeilDiv(b, quantum);
    if a > 0 {
      MulOrder(m - 1, n, quantum);
    }
    assert m <= n;
    assert m * quantum <= n * quantum;
  }

  lemma MulOrder(x: int, y: int, q: int)
    requires q > 0 && x * q < y * q
    ensures x < y
  {
  }

  lemma {:induction false} SumSplit(lengths: seq<int>, k: nat)
    requires k <= |lengths|
    ensures Sum(lengths) == Sum(lengths[..k]) + Sum(lengths[k..])
    decreases |lengths|
  {
    if k == |lengths| {
      assert lengths[..k] == lengths;
    } else {
      SumSplit(lengths[..|lengths| - 1], k);
      assert lengths[..|lengths| - 1][..k] == lengths[..k];
      assert lengths[k..][..|lengths[k..]| - 1] == lengths[..|lengths| - 1][k..];
    }
  }

  lemma {:induction false} SumNonNegative(lengths: seq<int>)
    requires NonNegative(lengths)
    ensures Sum(lengths) >= 0
  {
    if lengths != [] {
      SumNonNegative(lengths[..|lengths| - 1]);
    }
  }

  /**
    How long an image counts. In base64 that is the least multiple of four characters, six bits each, that
    carries its bytes; raw, the bytes themselves. A route's own count replaces the recorded one.
  */
  lemma LengthExactly(image: ImageRef, policy: Policy)
    ensures var (bytes, length) := (if policy.byteLength.Some? then policy.byteLength.value(image) else image.bytes, LengthOf(image, policy));
            && (policy.representation.Raw? ==> length == bytes)
            && (policy.representation.Base64? && bytes <= 0 ==> length == 0)
            && (policy.representation.Base64? && bytes > 0 ==> length % 4 == 0 && (length - 4) * 6 < bytes * 8 <= length * 6)
  {
  }

  /** Lengths counted as base64 are never negative, whatever the route reports. */
  lemma Base64IsNonNegative(images: seq<ImageRef>, policy: Policy)
    requires policy.representation.Base64?
    ensures NonNegative(Lengths(images, policy))
  {
  }

  /**
    The one way to end over the byte limit: the bytes fit as they are, but the images that go for
    the count, of negative length together, take more room away with them than there was to spare.
  */
  predicate CountBreaksBytes(lengths: seq<int>, policy: Policy) {
    && policy.maxBytes.Some? && Sum(lengths) <= policy.maxBytes.value
    && 0 <= CountTarget(lengths, policy) < |lengths|
    && Sum(lengths[..CountTarget(lengths, policy)]) < Sum(lengths) - policy.maxBytes.value
  }

  lemma NonNegativeNeverBreaks(lengths: seq<int>, policy: Policy)
    requires NonNegative(lengths)
    ensures !CountBreaksBytes(lengths, policy)
  {
    var c := CountTarget(lengths, policy);
    if 0 <= c < |lengths| {
      SumNonNegative(lengths[..c]);
    }
  }

  /** Where the bytes already fit, only the count decides how many images go. */
  lemma CountDecides(lengths: seq<int>, policy: Policy)
    requires ByteTarget(lengths, policy) == 0
    ensures var c := CountTarget(lengths, policy);
            c >= 0 && Removed(lengths, policy, 0) == if c < |lengths| then c else |lengths|
  {
    hide Sum, ByteTarget;
    var c := CountTarget(lengths, policy);
    var k := Removed(lengths, policy, 0);
    TargetsAreNatural(lengths, policy);
    forall j: nat | j <= |lengths| ensures Met(lengths, policy, j) <==> j >= c {
    }
    if c < |lengths| {
      assert Met(lengths, policy, c);
    }
    if k < |lengths| {
      assert Met(lengths, policy, k);
    }
  }

  /** What is left fits the route exactly when the count does not break the byte limit, whatever the lengths. */
  lemma RestFitsExactly(lengths: seq<int>, policy: Policy)
    requires LimitsAreSane(policy)
    ensures WithinBudget(lengths[Removed(lengths, policy, 0)..], policy) <==> !CountBreaksBytes(lengths, policy)
  {
    hide Removed;
    var k := Removed(lengths, policy, 0);
    SumSplit(lengths, k);
    if ByteTarget(lengths, policy) == 0 {
      CountDecides(lengths, policy);
    }
    if k == |lengths| {
      assert lengths[k..] == [];
    }
  }

  lemma MetMeansFitting(lengths: seq<int>, policy: Policy, j: nat)
    requires NonNegative(lengths) && j <= |lengths| && policy.countQuantum <= 1 && policy.byteQuantum <= 1
    ensures Met(lengths, policy, j) <==> WithinBudget(lengths[j..], policy)
  {
    SumSplit(lengths, j);
    SumNonNegative(lengths[..j]);
    StepOfOne(Excess(|lengths|, policy.maxImages));
    StepOfOne(Excess(Sum(lengths), policy.maxBytes));
    hide RoundedUp, Sum;
  }

  lemma StepOfOne(excess: int)
    requires excess >= 0
    ensures RoundedUp(excess, 1) == excess
  {
  }

  /** Without steps, and for lengths that are not negative, no image goes that could have stayed. */
  lemma StepsOfOneAreMinimal(lengths: seq<int>, policy: Policy)
    requires NonNegative(lengths) && LimitsAreSane(policy) && policy.countQuantum <= 1 && policy.byteQuantum <= 1
    ensures var k := Removed(lengths, policy, 0);
            WithinBudget(lengths[k..], policy) && forall j :: 0 <= j < k ==> !WithinBudget(lengths[j..], policy)
  {
    hide Met, WithinBudget, CountBreaksBytes;
    var k := Removed(lengths, policy, 0);
    RestFitsExactly(lengths, policy);
    NonNegativeNeverBreaks(lengths, policy);
    forall j | 0 <= j < k ensures !WithinBudget(lengths[j..], policy) {
      MetMeansFitting(lengths, policy, j);
    }
  }

  lemma FittingNeedsNothing(lengths: seq<int>, policy: Policy)
    requires WithinBudget(lengths, policy)
    ensures Removed(lengths, policy, 0) == 0
  {
    assert Met(lengths, policy, 0);
  }

  /** A request that ends over budget loses at least one image more the next time. */
  lemma OverBudgetLosesMore(lengths: seq<int>, policy: Policy)
    requires !WithinBudget(lengths, policy) && lengths != []
    ensures Removed(lengths, policy, 0) > 0
  {
    assert lengths[..0] == [];
    assert !Met(lengths, policy, 0);
  }

  /**
    What is left is the image sequence minus a prefix, that prefix is the shortest that meets the
    quantised targets, or every image, and nothing else changes. It fits the route exactly when the
    images that go for the count do not break the byte limit.
  */
  lemma OffloadMeetsTheBudget(messages: seq<Message>, policy: Policy)
    requires LimitsAreSane(policy)
    ensures var lengths := Lengths(AllImages(messages), policy);
            var k := RemovedFrom(messages, policy);
            var after := Offload(messages, policy);
            && AllImages(after) == AllImages(messages)[k..]
            && (WithinBudget(Lengths(AllImages(after), policy), policy) <==> !CountBreaksBytes(lengths, policy))
            && OffloadsFirst(AllTokens(messages), AllTokens(after), k)
            && (k == |lengths| || Met(lengths, policy, k))
            && (forall j :: 0 <= j < k ==> !Met(lengths, policy, j))
            && (WithinBudget(lengths, policy) ==> k == 0)
            && (NonNegative(lengths) ==> !CountBreaksBytes(lengths, policy))
  {
    hide OffloadsFirst, Met, WithinBudget, Removed, AllImages, AllTokens, ReplaceAll, Lengths, NonNegative, CountBreaksBytes;
    var lengths := Lengths(AllImages(messages), policy);
    var k := RemovedFrom(messages, policy);
    ReplaceAllKeepsTheRest(messages, k);
    ReplaceAllOffloads(messages, k);
    RestFitsExactly(lengths, policy);
    LengthsDrop(AllImages(messages), k, policy);
    if WithinBudget(lengths, policy) {
      FittingNeedsNothing(lengths, policy);
    }
    if NonNegative(lengths) {
      NonNegativeNeverBreaks(lengths, policy);
    }
  }

  lemma LengthsDrop(images: seq<ImageRef>, k: nat, policy: Policy)
    requires k <= |images|
    ensures Lengths(images[k..], policy) == Lengths(images, policy)[k..]
  {
    hide LengthOf;
  }

  /** Applying the policy to its own result changes nothing, exactly when the result is within budget. */
  lemma OffloadIsIdempotent(messages: seq<Message>, policy: Policy)
    requires LimitsAreSane(policy)
    ensures Offload(Offload(messages, policy), policy) == Offload(messages, policy) <==>
            !CountBreaksBytes(Lengths(AllImages(messages), policy), policy)
  {
    hide OffloadsFirst, Met, Removed, ReplaceAll, CountBreaksBytes, AllImages, AllTokens, NonNegative, WithinBudget;
    var after := Offload(messages, policy);
    var left := Lengths(AllImages(after), policy);
    OffloadMeetsTheBudget(messages, policy);
    if WithinBudget(left, policy) {
      FittingNeedsNothing(left, policy);
      ReplaceAllNothing(after);
    } else {
      NothingFits(policy);
      OverBudgetLosesMore(left, policy);
      OffloadMeetsTheBudget(after, policy);
      assert |AllImages(Offload(after, policy))| < |AllImages(after)|;
    }
  }

  lemma NothingFits(policy: Policy)
    requires LimitsAreSane(policy)
    ensures WithinBudget([], policy)
  {
  }

  // ---------------------------------------------------------------------------------------------
  // The base64 projection, and a request that ends over budget

  /** OffloadRequestImages: base64 lengths, a byte limit, no count limit and no steps. */
  function Base64Policy(maxBytes: Option<int>): Policy {
    Policy(None, maxBytes, 0, 1, Base64, None)
  }

  /**
    The base64 projection needs no condition: it always changes nothing the second time, what is left
    fits every limit that is not negative, and a negative limit leaves no image at all.
  */
  lemma Base64OffloadFits(messages: seq<Message>, maxBytes: Option<int>)
    ensures var policy := Base64Policy(maxBytes);
            var after := Offload(messages, policy);
            && Offload(after, policy) == after
            && (WithinBudget(Lengths(AllImages(after), policy), policy) <==> maxBytes.None? || maxBytes.value >= 0)
            && (maxBytes.Some? && maxBytes.value < 0 ==> AllImages(after) == [])
  {
    hide Met, Removed, ReplaceAll, CountBreaksBytes, AllImages, NonNegative, LengthOf, OffloadsFirst, AllTokens;
    var policy := Base64Policy(maxBytes);
    var lengths := Lengths(AllImages(messages), policy);
    Base64IsNonNegative(AllImages(messages), policy);
    NonNegativeNeverBreaks(lengths, policy);
    if LimitsAreSane(policy) {
      OffloadMeetsTheBudget(messages, policy);
      OffloadIsIdempotent(messages, policy);
    } else {
      var k := RemovedFrom(messages, policy);
      NegativeLimitTakesAll(lengths, policy);
      ReplaceAllKeepsTheRest(messages, k);
      var after := Offload(messages, policy);
      assert AllImages(after) == [];
      NoImagesStay(after, policy);
    }
  }

  lemma NegativeLimitTakesAll(lengths: seq<int>, policy: Policy)
    requires NonNegative(lengths) && policy.maxBytes.Some? && policy.maxBytes.value < 0
    ensures Removed(lengths, policy, 0) == |lengths|
  {
    hide Removed;
    forall j: nat | j < |lengths| ensures !Met(lengths, policy, j) {
      SumSplit(lengths, j);
      SumNonNegative(lengths[j..]);
      SumNonNegative(lengths[..j]);
    }
  }

  lemma NoImagesStay(messages: seq<Message>, policy: Policy)
    requires AllImages(messages) == []
    ensures Offload(messages, policy) == messages
  {
    ReplaceAllNothing(messages);
  }

  /** A user message with one raw image of each length. */
  function Request(lengths: seq<int>): seq<Message> {
    [Message("m", UserRole, NoSource, RawImages(lengths))]
  }

  function RawImages(lengths: seq<int>): seq<Block> {
    if lengths == [] then [] else [ImageBlock(ImageRef("i", lengths[0]))] + RawImages(lengths[1..])
  }

  lemma {:induction false} RequestLengths(lengths: seq<int>, policy: Policy)
    requires policy.representation.Raw? && policy.byteLength.None?
    ensures Lengths(AllImages(Request(lengths)), policy) == lengths == Lengths(Images(RawImages(lengths)), policy)
  {
    assert Request(lengths)[1..] == [] && AllImages([]) == [];
    assert AllImages(Request(lengths)) == Images(RawImages(lengths)) + [];
    if lengths != [] {
      RequestLengths(lengths[1..], policy);
      assert RawImages(lengths)[1..] == RawImages(lengths[1..]);
      assert Images(RawImages(lengths)) == [ImageRef("i", lengths[0])] + Images(RawImages(lengths[1..]));
    }
  }

  const ODD_POLICY := Policy(Some(1), Some(5), 1, 1, Raw, None)

  /** Two images of -5 and 10 bytes fit five bytes together; once the count drops the first, the rest does not. */
  lemma NegativeLengthBreaksTheLimit()
    ensures var request := Request([-5, 10]);
            && Sum(Lengths(AllImages(request), ODD_POLICY)) <= ODD_POLICY.maxBytes.value
            && CountBreaksBytes(Lengths(AllImages(request), ODD_POLICY), ODD_POLICY)
            && RemovedFrom(request, ODD_POLICY) == 1
            && !WithinBudget(Lengths(AllImages(Offload(request, ODD_POLICY)), ODD_POLICY), ODD_POLICY)
  {
    hide Request;
    var lengths := [-5, 10];
    RequestLengths(lengths, ODD_POLICY);
    OddSums();
    assert CountTarget(lengths, ODD_POLICY) == 1;
    CountDecides(lengths, ODD_POLICY);
    OffloadMeetsTheBudget(Request(lengths), ODD_POLICY);
  }

  lemma OddSums()
    ensures Sum([-5, 10]) == 5 && Sum([-5, 10][..1]) == -5 && Sum([10]) == 10
  {
    assert [-5, 10][..1] == [-5] && [-5][..0] == [] && [10][..0] == [];
    assert Sum([-5]) == -5;
  }

  // ---------------------------------------------------------------------------------------------
  // As history grows

  /** The count target never shrinks as history grows; the byte target does not unless the newer bytes are negative. */
  lemma TargetsGrow(lengths: seq<int>, more: seq<int>, policy: Policy)
    ensures CountTarget(lengths, policy) <= CountTarget(lengths + more, policy)
    ensures Sum(more) >= 0 ==> ByteTarget(lengths, policy) <= ByteTarget(lengths + more, policy)
  {
    SumSplit(lengths + more, |lengths|);
    assert (lengths + more)[..|lengths|] == lengths && (lengths + more)[|lengths|..] == more;
    RoundedUpIsMonotone(Excess(|lengths|, policy.maxImages), Excess(|lengths + more|, policy.maxImages), Quantum(policy.countQuantum));
    if Sum(more) >= 0 {
      RoundedUpIsMonotone(Excess(Sum(lengths), policy.maxBytes), Excess(Sum(lengths + more), policy.maxBytes), Quantum(policy.byteQuantum));
    }
  }

  lemma MetShrinks(lengths: seq<int>, more: seq<int>, policy: Policy, j: nat)
    requires j <= |lengths|
    ensures ByteTarget(lengths, policy) <= ByteTarget(lengths + more, policy) ==>
              (Met(lengths + more, policy, j) ==> Met(lengths, policy, j))
    ensures SameTargets(lengths, lengths + more, policy) ==>
              (Met(lengths + more, policy, j) <==> Met(lengths, policy, j))
  {
    hide Sum, CountTarget, ByteTarget;
    TargetsGrow(lengths, more, policy);
    TargetsAreNatural(lengths, policy);
    assert (lengths + more)[..j] == lengths[..j];
  }

  lemma TargetsAreNatural(lengths: seq<int>, policy: Policy)
    ensures CountTarget(lengths, policy) >= 0 && ByteTarget(lengths, policy) >= 0
  {
  }

  /** The newer targets are already met before the images the shorter history gave up are gone. */
  ghost predicate StopsEarlier(lengths: seq<int>, all: seq<int>, policy: Policy) {
    exists j: nat :: j < Removed(lengths, policy, 0) && j >= CountTarget(all, policy)
      && BytesMet(Sum(lengths[..j]), ByteTarget(all, policy), Quantum(policy.byteQuantum))
  }

  /**
    More history brings a removed image back exactly when its own targets are met earlier, which
    takes a smaller byte target and so newer images of negative length together. While the targets
    stay the same, and the shorter history met them, the prefix is identical.
  */
  lemma RemovalIsStable(lengths: seq<int>, more: seq<int>, policy: Policy)
    ensures var k, k' := Removed(lengths, policy, 0), Removed(lengths + more, policy, 0);
            && (k <= k' <==> !StopsEarlier(lengths, lengths + more, policy))
            && (ByteTarget(lengths, policy) <= ByteTarget(lengths + more, policy) ==> k <= k')
            && (Sum(more) >= 0 ==> k <= k')
            && (SameTargets(lengths, lengths + more, policy) && Met(lengths, policy, k) ==> k' == k)
  {
    hide Met, CountTarget, ByteTarget, Removed;
    var k, k' := Removed(lengths, policy, 0), Removed(lengths + more, policy, 0);
    TargetsGrow(lengths, more, policy);
    forall j: nat | j <= k
      ensures ByteTarget(lengths, policy) <= ByteTarget(lengths + more, policy) && j < k ==> !Met(lengths + more, policy, j)
    {
      MetShrinks(lengths, more, policy, j);
    }
    MetShrinks(lengths, more, policy, k);
    forall j: nat | j < k && SameTargets(lengths, lengths + more, policy) ensures !Met(lengths + more, policy, j) {
      MetShrinks(lengths, more, policy, j);
    }
    StopsEarlierMeans(lengths, more, policy);
  }

  lemma StopsEarlierMeans(lengths: seq<int>, more: seq<int>, policy: Policy)
    ensures StopsEarlier(lengths, lengths + more, policy) <==>
            exists j: nat :: j < Removed(lengths, policy, 0) && Met(lengths + more, policy, j)
  {
    hide Sum, CountTarget, ByteTarget, Removed, BytesMet;
    forall j: nat | j < Removed(lengths, policy, 0)
      ensures Met(lengths + more, policy, j) <==>
                (j >= CountTarget(lengths + more, policy)
                 && BytesMet(Sum(lengths[..j]), ByteTarget(lengths + more, policy), Quantum(policy.byteQuantum)))
    {
      assert (lengths + more)[..j] == lengths[..j];
    }
  }

  /** The projection of the older history is a prefix of the newer one while the targets stay the same. */
  lemma OffloadIsStable(messages: seq<Message>, newer: seq<Message>, policy: Policy)
    ensures var lengths := Lengths(AllImages(messages), policy);
            var all := Lengths(AllImages(messages + newer), policy);
            && (RemovedFrom(messages, policy) <= RemovedFrom(messages + newer, policy) <==> !StopsEarlier(lengths, all, policy))
            && (Sum(Lengths(AllImages(newer), policy)) >= 0 ==> !StopsEarlier(lengths, all, policy))
            && (SameTargets(lengths, all, policy) && Met(lengths, policy, RemovedFrom(messages, policy)) ==>
                  Offload(messages, policy) <= Offload(messages + newer, policy))
  {
    hide Met, SameTargets, Removed, LengthOf, Lengths, AllImages, ReplaceAll, StopsEarlier, Sum;
    AllImagesConcat(messages, newer);
    var lengths, more := Lengths(AllImages(messages), policy), Lengths(AllImages(newer), policy);
    LengthsConcat(AllImages(messages), AllImages(newer), policy);
    RemovalIsStable(lengths, more, policy);
    ReplaceAllPrefix(messages, newer, RemovedFrom(messages, policy));
  }

  /** A newer image of negative length can bring an older one back. */
  lemma NegativeLengthBringsBack()
    ensures var policy := Policy(None, Some(5), 1, 1, Raw, None);
            RemovedFrom(Request([10]), policy) == 1 && RemovedFrom(Request([10]) + Request([-10]), policy) == 0
  {
    hide Request;
    var policy := Policy(None, Some(5), 1, 1, Raw, None);
    RequestLengths([10], policy);
    RequestLengths([-10], policy);
    AllImagesConcat(Request([10]), Request([-10]));
    LengthsConcat(AllImages(Request([10])), AllImages(Request([-10])), policy);
    assert [10][..0] == [] && [10, -10][..1] == [10] && [10] + [-10] == [10, -10];
    assert Sum([10]) == 10 && Sum([10, -10]) == 0;
    assert !Met([10], policy, 0) && Met([10, -10], policy, 0);
  }

  const MIB: int := 1024 * 1024

  function Megabytes(n: nat): seq<int> {
    seq(n, i => MIB)
  }

  lemma {:induction false} SumOfMegabytes(n: nat)
    ensures Sum(Megabytes(n)) == n * MIB
  {
    if n > 0 {
      assert Megabytes(n)[..n - 1] == Megabytes(n - 1);
      SumOfMegabytes(n - 1);
    }
  }

  /** One-megabyte images, a 128 MiB limit and a 64 MiB step: from 129 to 192 images the first 65 go. */
  lemma DocumentedExample(n: nat)
    requires 129 <= n <= 192
    ensures Removed(Megabytes(n), Policy(None, Some(128 * MIB), 0, 64 * MIB, Raw, None), 0) == 65
  {
    var policy := Policy(None, Some(128 * MIB), 0, 64 * MIB, Raw, None);
    var lengths := Megabytes(n);
    SumOfMegabytes(n);
    TargetOfExample(n, policy);
    forall k: nat | k <= n ensures Met(lengths, policy, k) <==> k > 64 {
      assert lengths[..k] == Megabytes(k);
      SumOfMegabytes(k);
    }
    assert Met(lengths, policy, 65);
  }

  lemma TargetOfExample(n: nat, policy: Policy)
    requires 129 <= n <= 192 && policy == Policy(None, Some(128 * MIB), 0, 64 * MIB, Raw, None)
    ensures ByteTarget(Megabytes(n), policy) == 64 * MIB && CountTarget(Megabytes(n), policy) == 0
  {
    SumOfMegabytes(n);
    var excess := Excess(Sum(Megabytes(n)), policy.maxBytes);
    assert 0 < excess <= 64 * MIB;
  }

  lemma LengthsConcat(a: seq<ImageRef>, b: seq<ImageRef>, policy: Policy)
    ensures Lengths(a + b, policy) == Lengths(a, policy) + Lengths(b, policy)
  {
    hide LengthOf;
  }
}
