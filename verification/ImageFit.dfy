/** How large a request image may be (attachment/request_projection.go): inside a pixel budget, keeping its shape. */
module ImageFit {

  /** The short side that goes with a long one, to the nearest integer, halves up, and at least 1. */
  function ShortSide(projected: int, long: int, short: int): (r: int)
    requires 1 <= projected <= long && 1 <= short <= long
    ensures 1 <= r <= short
    // The rounding error is at most half a pixel, halves going up, unless one pixel is already too much.
    ensures 2 * projected * short - long < 2 * long * r
    ensures r > 1 ==> 2 * long * r <= 2 * projected * short + long
  {
    var rounded := (2 * projected * short + long) / (2 * long);
    RoundedFits(projected, long, short, rounded);
    if rounded < 1 then 1 else rounded
  }

  lemma RoundedFits(projected: int, long: int, short: int, rounded: int)
    requires 1 <= projected <= long && 1 <= short <= long
    requires rounded * (2 * long) <= 2 * projected * short + long
    ensures rounded <= short
  {
    MulMonotone(projected, long, 2 * short);
    MulOrder(rounded, short + 1, 2 * long);
  }

  lemma MulOrder(a: int, b: int, c: int)
    requires c > 0 && a * c < b * c
    ensures a < b
  {
  }

  predicate Fits(projected: int, long: int, short: int, maxPixels: int)
    requires 1 <= projected <= long && 1 <= short <= long
  {
    projected * ShortSide(projected, long, short) <= maxPixels
  }

  /** The largest long side not above the start that fits the budget. */
  ghost predicate IsLargestFit(projected: int, start: int, long: int, short: int, maxPixels: int) {
    && 1 <= projected <= start <= long && 1 <= short <= long
    && Fits(projected, long, short, maxPixels)
    && forall p :: projected < p <= start ==> !Fits(p, long, short, maxPixels)
  }

  ghost predicate NoneAbove(projected: int, start: int, long: int, short: int, maxPixels: int)
    requires 1 <= projected && start <= long && 1 <= short <= long
  {
    forall p :: projected < p <= start ==> !Fits(p, long, short, maxPixels)
  }

  lemma Pixels(projected: int, other: int, long: int, short: int, maxPixels: int)
    requires 1 <= projected <= long && 1 <= short <= long && other == ShortSide(projected, long, short)
    ensures Fits(projected, long, short, maxPixels) <==> projected * other <= maxPixels
  {
    hide ShortSide;
  }

  lemma OnePixelWide(long: int, short: int)
    requires 1 <= short <= long
    ensures ShortSide(1, long, short) == 1
  {
    var r := ShortSide(1, long, short);
    if r > 1 {
      assert 2 * long * r >= 4 * long by {
        MulMonotone(2, r, 2 * long);
      }
    }
  }

  lemma MulMonotone(a: int, b: int, c: int)
    requires a <= b && c >= 0
    ensures c * a <= c * b
  {
  }

  // ---- Floating point ----

  const TWO_53 := 0x20000000000000
  const TWO_52 := 0x10000000000000

  /**
    What IEEE 754 says of rounding to the nearest double, and all that is used of it: whole and half
    numbers up to 2^53 halves are kept, rounded ones are, order is kept, and the relative error is at most
    2^-53. root is the square root of doubles, correct to that error, which keeps the side of 1 they are on.
  */
  ghost predicate IsDouble(fl: real -> real, root: real -> real) {
    && (forall n: int :: 0 <= n <= TWO_53 ==> fl(Half(n)) == Half(n))
    && (forall x :: 0.0 <= x ==> fl(fl(x)) == fl(x))
    && (forall x, y :: 0.0 <= x <= y ==> fl(x) <= fl(y))
    && (forall x :: 1.0 / TWO_52 as real <= x ==> x - x / TWO_53 as real <= fl(x) <= x + x / TWO_53 as real)
    && (forall x :: 0.0 <= x ==> 0.0 <= root(x))
    && (forall x :: 1.0 <= x ==> 1.0 <= root(x))
    && (forall x :: 0.0 <= x < 1.0 && fl(x) == x ==> root(x) < 1.0)
    && (forall x :: 0.0 <= x && fl(x) == x ==>
          x - 3.0 * x / TWO_53 as real <= Times(root(x), root(x)) <= x + 3.0 * x / TWO_53 as real)
  }

  function Half(n: int): real {
    n as real / 2.0
  }

  lemma DoubleInteger(fl: real -> real, root: real -> real, n: int)
    requires IsDouble(fl, root) && 0 <= n <= TWO_52
    ensures fl(n as real) == n as real
  {
    assert fl(Half(2 * n)) == Half(2 * n);
  }

  /** math.Round on what is not negative. */
  function Round(x: real): int {
    (x + 0.5).Floor
  }

  /** The short side as the code computes it. */
  function FloatSide(projected: int, long: int, short: int, fl: real -> real): int
    requires long >= 1
  {
    var rounded := Round(fl(fl(Times(fl(projected as real), fl(short as real))) / Positive(fl(long as real))));
    if rounded < 1 then 1 else rounded
  }

  /** The exact product, before it is rounded. */
  function Times(x: real, y: real): real {
    x * y
  }

  /** A divisor the code never divides zero by. */
  function Positive(x: real): (r: real)
    ensures r > 0.0
    ensures x > 0.0 ==> r == x
  {
    if x > 0.0 then x else 1.0
  }

  /** Rounding the double quotient is rounding the exact one: no error reaches across a half. */
  lemma FloatSideIsExact(projected: int, long: int, short: int, fl: real -> real, root: real -> real)
    requires IsDouble(fl, root) && 1 <= projected <= long <= TWO_52 && 1 <= short <= long
    requires projected * short < TWO_52
    ensures FloatSide(projected, long, short, fl) == ShortSide(projected, long, short)
  {
    hide IsDouble, Round, FloatSide, ShortSide, Times;
    var a := projected * short;
    DoubleInteger(fl, root, projected);
    DoubleInteger(fl, root, short);
    DoubleInteger(fl, root, long);
    ProductIsInteger(projected, short);
    DoubleInteger(fl, root, a);
    QuotientRounds(fl, root, a, long, (2 * a + long) / (2 * long));
    FloatSideIs(projected, long, short, a, fl);
    ShortSideIs(projected, long, short, a);
  }

  lemma FloatSideIs(projected: int, long: int, short: int, a: int, fl: real -> real)
    requires long >= 1 && Times(projected as real, short as real) == a as real
    requires fl(projected as real) == projected as real && fl(short as real) == short as real
    requires fl(long as real) == long as real && fl(a as real) == a as real
    ensures FloatSide(projected, long, short, fl) ==
            var rounded := Round(fl(a as real / long as real)); if rounded < 1 then 1 else rounded
  {
    hide Round, Times;
    assert Positive(fl(long as real)) == long as real;
  }

  lemma ShortSideIs(projected: int, long: int, short: int, a: int)
    requires 1 <= projected <= long && 1 <= short <= long && a == projected * short
    ensures ShortSide(projected, long, short) ==
            var rounded := (2 * a + long) / (2 * long); if rounded < 1 then 1 else rounded
  {
    assert 2 * a + long == 2 * projected * short + long;
  }

  lemma ProductIsInteger(m: int, n: int)
    requires m >= 1 && n >= 1
    ensures Times(m as real, n as real) == (m * n) as real && m * n >= 1
  {
  }

  lemma QuotientRounds(fl: real -> real, root: real -> real, a: int, b: int, k: int)
    requires IsDouble(fl, root) && 1 <= a < TWO_52 && 1 <= b <= TWO_52 && k == (2 * a + b) / (2 * b)
    ensures Round(fl(a as real / b as real)) == k
  {
    hide IsDouble;
    var x := a as real / b as real;
    var q := k as real;
    NearestHalf(a, b, k);
    BetweenHalves(a, b, k, x);
    Order(fl, root, x, k);
    Error(fl, root, x);
    assert q - 0.5 <= fl(x) < q + 0.5;
  }

  /** The exact quotient lies between the halves around its rounding, and stays away from the upper one. */
  lemma NearestHalf(a: int, b: int, k: int)
    requires a >= 1 && b >= 1 && k == (2 * a + b) / (2 * b)
    ensures 0 <= k <= a + 1
    ensures (2 * k - 1) * b <= 2 * a
    ensures 2 * a + 1 <= (2 * k + 1) * b
  {
    Division(2 * a + b, 2 * b, k);
    assert (2 * k - 1) * b == k * (2 * b) - b && (2 * k + 1) * b == k * (2 * b) + b;
    if k > a + 1 {
      MulMonotone(a + 2, k, 2 * b);
      MulMonotone(1, b, a);
    }
  }

  lemma Division(n: int, d: int, k: int)
    requires n >= 0 && d > 0 && k == n / d
    ensures k >= 0 && k * d <= n < k * d + d
  {
  }

  lemma BetweenHalves(a: int, b: int, k: int, x: real)
    requires 1 <= a < TWO_52 && 1 <= b <= TWO_52 && x == a as real / b as real
    requires (2 * k - 1) * b <= 2 * a && 2 * a + 1 <= (2 * k + 1) * b
    ensures x >= 1.0 / TWO_52 as real
    ensures Half(2 * k - 1) <= x && x + x / TWO_53 as real < k as real + 0.5
  {
    var p := b as real;
    Quotient(a as real, p, x);
    LowerHalf(a, b, k, x);
    UpperHalf(a, b, k, x);
    AtLeast(x, p, TWO_52 as real);
  }

  lemma AtLeast(x: real, p: real, c: real)
    requires 0.0 < p <= c && x * p >= 1.0
    ensures x >= 1.0 / c
  {
    RealBelow(0.0, x, p);
    RealBelow(p, c, x);
    Quotient(1.0, c, 1.0 / c);
    RealBelow(1.0 / c, x, c);
  }

  lemma Quotient(a: real, p: real, x: real)
    requires p > 0.0 && x == a / p
    ensures x * p == a
  {
  }

  lemma LowerHalf(a: int, b: int, k: int, x: real)
    requires 1 <= b && x * b as real == a as real && (2 * k - 1) * b <= 2 * a
    ensures Half(2 * k - 1) <= x
  {
    CastProduct(2 * k - 1, b);
    var (h, p) := ((2 * k - 1) as real, b as real);
    Scaled(h, p, h * p, 2.0);
    RealBelow(h / 2.0, x, p);
  }

  lemma UpperHalf(a: int, b: int, k: int, x: real)
    requires 1 <= b && 1 <= a < TWO_52 && x * b as real == a as real && 2 * a + 1 <= (2 * k + 1) * b
    ensures x + x / TWO_53 as real < k as real + 0.5
  {
    CastProduct(2 * k + 1, b);
    ErrorStaysBelow(x, b as real, (2 * k + 1) as real, a as real);
  }

  lemma ErrorStaysBelow(x: real, p: real, h: real, y: real)
    requires p >= 1.0 && 1.0 <= y < TWO_52 as real && x * p == y && 2.0 * y + 1.0 <= h * p
    ensures x + x / TWO_53 as real < h / 2.0
  {
    var c := TWO_53 as real;
    Scaled(h, p, h * p, 2.0);
    Scaled(x, p, y, c);
    Distribute(x, x / c, p);
    Smaller(y, c, h * p, h / 2.0 * p, (x + x / c) * p);
    RealBelow(x + x / c, h / 2.0, p);
  }

  lemma Smaller(y: real, c: real, hp: real, v: real, u: real)
    requires 0.0 <= y < c / 2.0 && 2.0 * y + 1.0 <= hp && v == hp / 2.0 && u == y + y / c
    ensures u < v
  {
    RealBelow(y / c, 0.5, c);
    Quotient(y, c, y / c);
  }

  lemma Scaled(x: real, p: real, y: real, c: real)
    requires c > 0.0 && x * p == y
    ensures x / c * p == y / c
  {
    var z := x / c;
    Regroup(z, p, c);
    Quotient(x, c, z);
    Unquotient(z * p, c, y);
  }

  lemma Regroup(z: real, p: real, c: real)
    ensures z * p * c == z * c * p
  {
  }

  lemma Unquotient(w: real, c: real, y: real)
    requires c > 0.0 && w * c == y
    ensures w == y / c
  {
  }

  lemma Distribute(x: real, y: real, p: real)
    ensures (x + y) * p == x * p + y * p
  {
  }

  lemma CastProduct(m: int, n: int)
    ensures (m * n) as real == m as real * n as real
  {
  }

  /** Comparing x and y is comparing their multiples. */
  lemma RealBelow(x: real, y: real, p: real)
    requires p > 0.0
    ensures x <= y <==> x * p <= y * p
    ensures x < y <==> x * p < y * p
  {
  }

  lemma Order(fl: real -> real, root: real -> real, x: real, k: int)
    requires IsDouble(fl, root) && 0.0 <= x && Half(2 * k - 1) <= x && 0 <= k <= TWO_52
    ensures k as real - 0.5 <= fl(x)
  {
    if k == 0 {
      assert fl(Half(0)) == Half(0);
    } else {
      assert fl(Half(2 * k - 1)) == Half(2 * k - 1);
    }
  }

  lemma Error(fl: real -> real, root: real -> real, x: real)
    requires IsDouble(fl, root) && x >= 1.0 / TWO_52 as real
    ensures x - x / TWO_53 as real <= fl(x) <= x + x / TWO_53 as real
  {
  }

  /** The scale of the code, from doubles. */
  function Scale(width: int, height: int, maxPixels: int, fl: real -> real, root: real -> real): real {
    var s := root(fl(fl(maxPixels as real) / Positive(fl(Times(fl(width as real), fl(height as real))))));
    if s < 1.0 then s else 1.0
  }

  /** An image within budget is not scaled, however inexact the square root. */
  lemma ScaleIsSane(width: int, height: int, maxPixels: int, fl: real -> real, root: real -> real)
    requires IsDouble(fl, root) && 1 <= width <= TWO_52 && 1 <= height <= TWO_52 && maxPixels >= 1
    ensures 0.0 <= Scale(width, height, maxPixels, fl, root) <= 1.0
    ensures width * height <= maxPixels ==> Scale(width, height, maxPixels, fl, root) == 1.0
  {
    hide IsDouble, Times;
    DoubleInteger(fl, root, width);
    DoubleInteger(fl, root, height);
    ProductIsInteger(width, height);
    var area := fl((width * height) as real);
    Orders(fl, root, 1.0, (width * height) as real);
    Orders(fl, root, 1.0, maxPixels as real);
    var ratio := fl(maxPixels as real) / area;
    QuotientPositive(fl(maxPixels as real), area);
    Orders(fl, root, 0.0, ratio);
    Roots(fl, root, fl(ratio));
    if width * height <= maxPixels {
      Orders(fl, root, (width * height) as real, maxPixels as real);
      QuotientAboveOne(fl(maxPixels as real), area);
      Orders(fl, root, 1.0, ratio);
    }
  }

  // ---- The scale is the square root of what the budget leaves ----

  /** The scale of an image over budget, by name: the quotient, its rounding, and the root of that. */
  lemma ScaleIs(width: int, height: int, maxPixels: int, fl: real -> real, root: real -> real)
    requires IsDouble(fl, root) && 1 <= width <= TWO_52 && 1 <= height <= TWO_52
    requires 1 <= maxPixels < width * height < TWO_52
    ensures var z := fl(maxPixels as real / (width * height) as real);
            Scale(width, height, maxPixels, fl, root) == if root(z) < 1.0 then root(z) else 1.0
  {
    hide IsDouble, Times;
    DoubleInteger(fl, root, width);
    DoubleInteger(fl, root, height);
    DoubleInteger(fl, root, maxPixels);
    ProductIsInteger(width, height);
    DoubleInteger(fl, root, width * height);
  }

  /** The rounded quotient, multiplied back, misses the dividend by one rounding at most. */
  lemma QuotientNear(m: int, n: int, fl: real -> real, root: real -> real)
    requires IsDouble(fl, root) && 1 <= m < n < TWO_52
    ensures var (q, z) := (m as real / n as real, fl(m as real / n as real));
            && q >= 1.0 / TWO_52 as real
            && m as real - m as real / TWO_53 as real <= z * n as real <= m as real + m as real / TWO_53 as real
  {
    hide IsDouble;
    var (q, p) := (m as real / n as real, n as real);
    Quotient(m as real, p, q);
    AtLeast(q, p, TWO_52 as real);
    Error(fl, root, q);
    NearTimes(fl(q), q, p, m as real);
  }

  lemma NearTimes(f: real, q: real, p: real, m: real)
    requires p > 0.0 && q * p == m && q - q / TWO_53 as real <= f <= q + q / TWO_53 as real
    ensures m - m / TWO_53 as real <= f * p <= m + m / TWO_53 as real
  {
    Scaled(q, p, m, TWO_53 as real);
    WithinTimes(f, q, q / TWO_53 as real, p);
  }

  lemma WithinTimes(f: real, q: real, t: real, p: real)
    requires p > 0.0 && q - t <= f <= q + t
    ensures q * p - t * p <= f * p <= q * p + t * p
  {
    Distribute(q, t, p);
    Distribute(q, -t, p);
    Negated(t, p);
    RealBelow(f, q + t, p);
    RealBelow(q - t, f, p);
  }

  /** The rounded quotient of two integers below 2^52 is below 1 when the integers are in that order. */
  lemma QuotientBelowOne(m: int, n: int, fl: real -> real, root: real -> real)
    requires IsDouble(fl, root) && 1 <= m < n < TWO_52
    ensures var z := fl(m as real / n as real); 0.0 <= z < 1.0 && fl(z) == z
  {
    hide IsDouble;
    var (q, p) := (m as real / n as real, n as real);
    QuotientNear(m, n, fl, root);
    PartBelow(m, n);
    StaysBelow(fl(q), p, m as real + m as real / TWO_53 as real);
    Orders(fl, root, 0.0, q);
    Twice(fl, root, q);
  }

  lemma StaysBelow(f: real, p: real, x: real)
    requires p > 0.0 && f * p <= x < p
    ensures f < 1.0
  {
    assert 1.0 * p == p;
    RealBelow(f, 1.0, p);
  }

  lemma PartBelow(m: int, n: int)
    requires 1 <= m < n < TWO_52
    ensures m as real + m as real / TWO_53 as real < n as real
  {
    assert m as real <= n as real - 1.0;
  }

  lemma Negated(x: real, p: real)
    ensures (-x) * p == -(x * p)
  {
  }

  lemma Twice(fl: real -> real, root: real -> real, x: real)
    requires IsDouble(fl, root) && x >= 0.0
    ensures fl(fl(x)) == fl(x)
  {
  }

  lemma RootOfDouble(fl: real -> real, root: real -> real, z: real)
    requires IsDouble(fl, root) && 0.0 <= z < 1.0 && fl(z) == z
    ensures 0.0 <= root(z) < 1.0
    ensures z - 3.0 * z / TWO_53 as real <= Times(root(z), root(z)) <= z + 3.0 * z / TWO_53 as real
  {
  }

  /** Over budget the image is scaled, by the square root of budget over area up to five roundings. */
  lemma ScaleIsTheRoot(width: int, height: int, maxPixels: int, fl: real -> real, root: real -> real)
    requires IsDouble(fl, root) && 1 <= width <= TWO_52 && 1 <= height <= TWO_52
    requires 1 <= maxPixels < width * height < TWO_52
    ensures var (s, area, m) := (Scale(width, height, maxPixels, fl, root), (width * height) as real, maxPixels as real);
            && 0.0 <= s < 1.0
            && m - 5.0 * m / TWO_53 as real <= Times(s, s) * area <= m + 5.0 * m / TWO_53 as real
  {
    hide IsDouble, Scale, Times;
    var (n, m, c) := (width * height, maxPixels, TWO_53 as real);
    ScaleIs(width, height, m, fl, root);
    QuotientNear(m, n, fl, root);
    QuotientBelowOne(m, n, fl, root);
    var z := fl(m as real / n as real);
    RootOfDouble(fl, root, z);
    Spread(z, Times(root(z), root(z)), n as real, m as real);
  }

  lemma Spread(z: real, square: real, p: real, m: real)
    requires p > 0.0 && m >= 0.0
    requires m - m / TWO_53 as real <= z * p <= m + m / TWO_53 as real
    requires z - 3.0 * z / TWO_53 as real <= square <= z + 3.0 * z / TWO_53 as real
    ensures m - 5.0 * m / TWO_53 as real <= square * p <= m + 5.0 * m / TWO_53 as real
  {
    Thirds(z, p, z * p);
    WithinTimes(square, z, 3.0 * z / TWO_53 as real, p);
    FiveParts(m, z * p, square * p);
  }

  lemma FiveParts(m: real, a: real, b: real)
    requires m >= 0.0 && m - m / TWO_53 as real <= a <= m + m / TWO_53 as real
    requires a - 3.0 * a / TWO_53 as real <= b <= a + 3.0 * a / TWO_53 as real
    ensures m - 5.0 * m / TWO_53 as real <= b <= m + 5.0 * m / TWO_53 as real
  {
  }

  lemma Thirds(z: real, p: real, a: real)
    requires z * p == a
    ensures 3.0 * z / TWO_53 as real * p == 3.0 * a / TWO_53 as real
  {
    Regroup(3.0, z, p);
    Scaled(3.0 * z, p, 3.0 * a, TWO_53 as real);
  }

  lemma QuotientPositive(x: real, y: real)
    requires x >= 1.0 && y >= 1.0
    ensures x / y >= 0.0
  {
  }

  lemma QuotientAboveOne(x: real, y: real)
    requires x >= y >= 1.0
    ensures x / y >= 1.0
  {
  }

  lemma Orders(fl: real -> real, root: real -> real, x: real, y: real)
    requires IsDouble(fl, root) && 0.0 <= x <= y
    ensures fl(x) <= fl(y) && fl(0.0) == 0.0 && fl(1.0) == 1.0
  {
    assert fl(Half(0)) == Half(0) && fl(Half(2)) == Half(2);
  }

  lemma Roots(fl: real -> real, root: real -> real, x: real)
    requires IsDouble(fl, root) && x >= 0.0
    ensures root(x) >= 0.0 && (x >= 1.0 ==> root(x) >= 1.0)
  {
  }

  /** The starting side of the search. */
  function StartSide(side: int, scale: real, fl: real -> real): (start: int) {
    var floor := fl(Times(fl(side as real), scale)).Floor;
    if floor < 1 then 1 else floor
  }

  lemma StartInside(side: int, scale: real, fl: real -> real, root: real -> real)
    requires IsDouble(fl, root) && 1 <= side <= TWO_52 && 0.0 <= scale <= 1.0
    ensures 1 <= StartSide(side, scale, fl) <= side
  {
    hide IsDouble, StartSide, Times;
    DoubleInteger(fl, root, side);
    ScaledBelow(side as real, scale);
    var y := Times(side as real, scale);
    Orders(fl, root, y, side as real);
    FloorBelow(fl(y), side);
    StartSideIs(side, scale, fl, y);
  }

  /** The search starts at the scaled side rounded down, up to one rounding, and not below 1. */
  lemma StartIsTheScaledSide(side: int, scale: real, fl: real -> real, root: real -> real)
    requires IsDouble(fl, root) && 1 <= side <= TWO_52 && 1.0 / TWO_52 as real <= Times(side as real, scale)
    ensures var (start, y) := (StartSide(side, scale, fl), Times(side as real, scale));
            && (start as real <= y + y / TWO_53 as real || start == 1)
            && y - y / TWO_53 as real < start as real + 1.0
  {
    hide IsDouble, StartSide, Times;
    DoubleInteger(fl, root, side);
    var y := Times(side as real, scale);
    Error(fl, root, y);
    StartSideIs(side, scale, fl, y);
  }

  lemma StartSideIs(side: int, scale: real, fl: real -> real, y: real)
    requires fl(side as real) == side as real && y == Times(side as real, scale)
    ensures StartSide(side, scale, fl) == if fl(y).Floor < 1 then 1 else fl(y).Floor
  {
    hide Times;
  }

  lemma FloorBelow(y: real, side: int)
    requires y <= side as real
    ensures y.Floor <= side
  {
  }

  lemma ScaledBelow(x: real, scale: real)
    requires x >= 1.0 && 0.0 <= scale <= 1.0
    ensures 0.0 <= Times(x, scale) <= x
  {
  }

  /** The answer is determined by the start: a larger start never gives a smaller image. */
  lemma LargerStartNeverHurts(projected: int, projected': int, start: int, start': int, long: int, short: int, maxPixels: int)
    requires IsLargestFit(projected, start, long, short, maxPixels)
    requires IsLargestFit(projected', start', long, short, maxPixels)
    requires start <= start'
    ensures projected <= projected'
    ensures start == start' ==> projected == projected'
  {
  }

  /** Shrinking further keeps fitting: the short side never grows as the long side gives way. */
  lemma FitIsDownwardClosed(p: int, q: int, long: int, short: int, maxPixels: int)
    requires 1 <= p <= q <= long && 1 <= short <= long && Fits(q, long, short, maxPixels)
    ensures ShortSide(p, long, short) <= ShortSide(q, long, short)
    ensures Fits(p, long, short, maxPixels)
  {
    hide ShortSide;
    ShortSideGrows(p, q, long, short);
    var a, b := ShortSide(p, long, short), ShortSide(q, long, short);
    MulMonotone(a, b, p);
    MulMonotone(p, q, b);
  }

  lemma ShortSideGrows(p: int, q: int, long: int, short: int)
    requires 1 <= p <= q <= long && 1 <= short <= long
    ensures ShortSide(p, long, short) <= ShortSide(q, long, short)
  {
    MulMonotone(p, q, 2 * short);
    DivMonotone(2 * p * short + long, 2 * q * short + long, 2 * long);
  }

  lemma DivMonotone(a: int, b: int, d: int)
    requires d > 0 && a <= b
    ensures a / d <= b / d
  {
    if a / d > b / d {
      MulMonotone(b / d + 1, a / d, d);
    }
  }

  /** Hence the result is the largest fit below the start however far the search had to go. */
  lemma AnyStartAboveFindsTheSame(projected: int, projected': int, start: int, start': int, long: int, short: int, maxPixels: int)
    requires IsLargestFit(projected, start, long, short, maxPixels)
    requires IsLargestFit(projected', start', long, short, maxPixels)
    requires projected < start && projected' <= start'
    requires start <= start'
    ensures projected == projected'
  {
    LargerStartNeverHurts(projected, projected', start, start', long, short, maxPixels);
    if projected' > projected {
      FitIsDownwardClosed(projected + 1, projected', long, short, maxPixels);
    }
  }

  // ---- The code itself ----

  lemma SmallerProduct(projected: int, long: int, short: int)
    requires 1 <= projected <= long && 1 <= short && long * short < TWO_52
    ensures projected * short < TWO_52 && long <= TWO_52 && short <= TWO_52
  {
    MulMonotone(projected, long, short);
    MulMonotone(1, short, long);
    MulMonotone(1, long, short);
  }

  lemma SideNow(projected: int, long: int, short: int, maxPixels: int, fl: real -> real, root: real -> real)
    requires IsDouble(fl, root) && 1 <= projected <= long && 1 <= short <= long && long * short < TWO_52
    ensures var other := FloatSide(projected, long, short, fl);
            && other == ShortSide(projected, long, short)
            && (Fits(projected, long, short, maxPixels) <==> projected * other <= maxPixels)
  {
    hide ShortSide, FloatSide, IsDouble, Fits;
    SmallerProduct(projected, long, short);
    FloatSideIsExact(projected, long, short, fl, root);
    Pixels(projected, ShortSide(projected, long, short), long, short, maxPixels);
  }

  /** The loop that gives up the long side pixel by pixel. A single pixel always fits. */
  method ShrinkLongSide(long: int, short: int, maxPixels: int, start: int, fl: real -> real, ghost root: real -> real)
    returns (projected: int, other: int)
    requires IsDouble(fl, root) && 1 <= short <= long && long * short < TWO_52 && maxPixels >= 1 && 1 <= start <= long
    ensures IsLargestFit(projected, start, long, short, maxPixels)
    ensures other == ShortSide(projected, long, short) && projected * other <= maxPixels
  {
    hide ShortSide, FloatSide, Fits, IsDouble;
    projected := start;
    other := FloatSide(projected, long, short, fl);
    SideNow(projected, long, short, maxPixels, fl, root);
    while projected * other > maxPixels && projected > 1
      invariant 1 <= projected <= start && other == ShortSide(projected, long, short)
      invariant Fits(projected, long, short, maxPixels) <==> projected * other <= maxPixels
      invariant NoneAbove(projected, start, long, short, maxPixels)
      decreases projected
    {
      projected := projected - 1;
      other := FloatSide(projected, long, short, fl);
      SideNow(projected, long, short, maxPixels, fl, root);
    }
    if projected == 1 {
      OnePixelWide(long, short);
    }
  }

  /** RequestImageDimensions, for any rounding of doubles and any square root. */
  method RequestImageDimensions(width: int, height: int, maxPixels: int, fl: real -> real, root: real -> real)
    returns (projectedWidth: int, projectedHeight: int)
    requires width >= 1 && height >= 1 && maxPixels >= 1 && width * height < TWO_52 && IsDouble(fl, root)
    ensures 1 <= projectedWidth <= width && 1 <= projectedHeight <= height
    // Within budget is unchanged; over budget the result is within it.
    ensures width * height <= maxPixels ==> projectedWidth == width && projectedHeight == height
    ensures projectedWidth * projectedHeight <= maxPixels
    // The long side is the largest that fits at or below where the search starts; the short side follows it.
    ensures var scale := Scale(width, height, maxPixels, fl, root);
            width * height > maxPixels && width >= height ==>
              IsLargestFit(projectedWidth, StartSide(width, scale, fl), width, height, maxPixels)
              && projectedHeight == ShortSide(projectedWidth, width, height)
    ensures var scale := Scale(width, height, maxPixels, fl, root);
            width * height > maxPixels && width < height ==>
              IsLargestFit(projectedHeight, StartSide(height, scale, fl), height, width, maxPixels)
              && projectedWidth == ShortSide(projectedHeight, height, width)
  {
    hide ShortSide, Scale, StartSide, IsDouble, Fits;
    SmallerProduct(1, width, height);
    ScaleIsSane(width, height, maxPixels, fl, root);
    if width * height > maxPixels {
      ScaleIsTheRoot(width, height, maxPixels, fl, root);
    }
    var scale := Scale(width, height, maxPixels, fl, root);
    if scale == 1.0 {
      return width, height;
    }
    if width >= height {
      StartInside(width, scale, fl, root);
      projectedWidth, projectedHeight := ShrinkLongSide(width, height, maxPixels, StartSide(width, scale, fl), fl, root);
      Commute(projectedWidth, projectedHeight);
    } else {
      StartInside(height, scale, fl, root);
      Commute(width, height);
      projectedHeight, projectedWidth := ShrinkLongSide(height, width, maxPixels, StartSide(height, scale, fl), fl, root);
      Commute(projectedWidth, projectedHeight);
    }
  }

  lemma Commute(m: int, n: int)
    ensures m * n == n * m
  {
  }
}
