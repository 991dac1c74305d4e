/**
 * The brightness reduction of autolight.c: a decoded frame of packed R, G, B
 * bytes is reduced to one score in [0, 1] with the BT.709 (STD) or BT.601
 * (OPT1) luma weights. The decimal weights are kept exact by scaling them to
 * integers: STD by 10000, OPT1 by 1000.
 */
module Brightness {
  import opened Common

  /** The value of the `-x` selector (enum BRIGHTNESS_ALGORITHM_OPTIONS). */
  datatype Algorithm = Std | Opt1 | Opt2

  /**
   * The denominator that turns the integer weights back into the decimal
   * ones: STD's weights have four decimals, OPT1's three.
   */
  function WeightScale(a: Algorithm): (s: nat)
    requires a != Opt2
    ensures s == 10000 || s == 1000
  {
    if a == Std then 10000 else 1000
  }

  /** One pixel's weighted luma, multiplied by WeightScale(a). */
  function Luma(a: Algorithm, r: uint8, g: uint8, b: uint8): (l: int)
    requires a != Opt2
    ensures 0 <= l <= 255 * WeightScale(a)
  {
    if a == Std then 2126 * r as int + 7152 * g as int + 722 * b as int
    else 299 * r as int + 587 * g as int + 114 * b as int
  }

  /**
   * The integer weights over the denominator are exactly the decimal weights of
   * STD_RGB_TO_BRIGHTNESS and OPT1_RGB_TO_BRIGHTNESS.
   */
  lemma LumaIsMacro(a: Algorithm, r: uint8, g: uint8, b: uint8)
    requires a != Opt2
    ensures Luma(a, r, g, b) as real / WeightScale(a) as real ==
      if a == Std then 0.2126 * r as real + 0.7152 * g as real + 0.0722 * b as real
      else 0.299 * r as real + 0.587 * g as real + 0.114 * b as real
  {
  }

  /** The scaled sum of the lumas of the first n pixels, each pixel being three consecutive bytes R, G, B. */
  function PixelSum(a: Algorithm, frame: seq<uint8>, n: nat): int
    requires a != Opt2 && 3 * n <= |frame|
  {
    if n == 0 then 0
    else PixelSum(a, frame, n - 1) + Luma(a, frame[3 * (n - 1)], frame[3 * (n - 1) + 1], frame[3 * (n - 1) + 2])
  }

  /** The value `image_brightness` returns: the mean luma over `n` pixels, divided by 255. */
  function Score(a: Algorithm, frame: seq<uint8>, n: nat): real
    requires a != Opt2 && 0 < n && 3 * n <= |frame|
  {
    (PixelSum(a, frame, n) as real / WeightScale(a) as real) / n as real / 255.0
  }

  /** The summed luma of n pixels lies between 0 and the sum of n white pixels. */
  lemma {:induction false} PixelSumBounds(a: Algorithm, frame: seq<uint8>, n: nat)
    requires a != Opt2 && 3 * n <= |frame|
    ensures 0 <= PixelSum(a, frame, n) <= WeightScale(a) * n * 255
  {
    if n > 0 {
      PixelSumBounds(a, frame, n - 1);
      var w := WeightScale(a);
      assert PixelSum(a, frame, n) <= w * (n - 1) * 255 + w * 255;
      assert w * (n - 1) * 255 + w * 255 == w * n * 255;
    }
  }

  /** Dividing both sides of x <= y by the same positive quantity keeps the order. */
  lemma DivideMonotone(x: real, y: real, d: real)
    requires x <= y && 0.0 < d
    ensures x / d <= y / d
  {
    assert y / d - x / d == (y - x) / d;
  }

  /** A common positive factor of numerator and denominator cancels. */
  lemma CancelFactor(x: real, y: real, k: real, d: real)
    requires 0.0 < d && x == k * d && y == d * 255.0
    ensures x / y == k / 255.0
  {
    assert (k * d) / (d * 255.0) == (k / 255.0) * (d / d);
  }

  /** Multiplication distributes over addition: k * x + k * y is k * (x + y). */
  lemma Distribute(k: int, x: int, y: int)
    ensures k * x + k * y == k * (x + y)
  {
  }

  lemma RealOfProduct(x: int, y: int)
    ensures (x * y) as real == x as real * y as real
  {
  }

  /** n pixels have a positive capacity in units of the weight denominator. */
  lemma ScaleOfPositive(a: Algorithm, n: nat)
    requires a != Opt2 && 0 < n
    ensures 0 < WeightScale(a) * n
  {
    MultiplyMonotone(1, n, WeightScale(a));
  }

  /** Dividing by s, then m, then 255 is dividing by their product. */
  lemma DivideInTurn(p: real, s: real, m: real)
    requires 0.0 < s && 0.0 < m
    ensures p / s / m / 255.0 == p / (s * m * 255.0)
  {
    assert p / s / m / 255.0 == p * (1.0 / s) * (1.0 / m) * (1.0 / 255.0);
  }

  /** A quotient of a non-negative value by a value at least as large lies in [0, 1]. */
  lemma UnitFraction(p: real, d: real)
    requires 0.0 <= p <= d && 0.0 < d
    ensures 0.0 <= p / d <= 1.0
  {
    DivideMonotone(0.0, p, d);
    DivideMonotone(p, d, d);
  }

  /** The score is the scaled pixel sum divided by the largest sum n pixels can reach. */
  lemma ScoreAsFraction(a: Algorithm, frame: seq<uint8>, n: nat)
    requires a != Opt2 && 0 < n && 3 * n <= |frame|
    ensures Score(a, frame, n) == PixelSum(a, frame, n) as real / (WeightScale(a) * n * 255) as real
  {
    var w := WeightScale(a);
    RealOfProduct(w, n);
    RealOfProduct(w * n, 255);
    DivideInTurn(PixelSum(a, frame, n) as real, w as real, n as real);
  }

  /** For channel bytes in 0..255 the score lies in [0, 1]. */
  lemma ScoreBounds(a: Algorithm, frame: seq<uint8>, n: nat)
    requires a != Opt2 && 0 < n && 3 * n <= |frame|
    ensures 0.0 <= Score(a, frame, n) <= 1.0
  {
    var m := WeightScale(a) * n * 255;
    MultiplyMonotone(1, WeightScale(a) * n, 255);
    MultiplyMonotone(1, n, WeightScale(a));
    PixelSumBounds(a, frame, n);
    ScoreAsFraction(a, frame, n);
    UnitFraction(PixelSum(a, frame, n) as real, m as real);
  }

  lemma {:induction false} PixelSumOfConstant(a: Algorithm, frame: seq<uint8>, n: nat, k: uint8)
    requires a != Opt2 && 3 * n <= |frame|
    requires forall i :: 0 <= i < 3 * n ==> frame[i] == k
    ensures PixelSum(a, frame, n) == k as int * (WeightScale(a) * n)
  {
    if n > 0 {
      PixelSumOfConstant(a, frame, n - 1, k);
      assert frame[3 * (n - 1)] == k && frame[3 * (n - 1) + 1] == k && frame[3 * (n - 1) + 2] == k;
      var w := WeightScale(a);
      assert Luma(a, k, k, k) == k as int * w;
      MultiplyByNext(n - 1, w);
      Distribute(k as int, w * (n - 1), w);
    }
  }

  /**
   * The STD and OPT1 weights each sum to exactly one, so a frame whose every
   * channel equals k scores k/255.
   */
  lemma ScoreOfConstant(a: Algorithm, frame: seq<uint8>, n: nat, k: uint8)
    requires a != Opt2 && 0 < n && 3 * n <= |frame|
    requires forall i :: 0 <= i < 3 * n ==> frame[i] == k
    ensures Score(a, frame, n) == k as real / 255.0
  {
    PixelSumOfConstant(a, frame, n, k);
    ScaleOfPositive(a, n);
    ScoreAsFraction(a, frame, n);
    FractionOfMultiple(PixelSum(a, frame, n), k as int, WeightScale(a) * n, Score(a, frame, n));
  }

  /** A sum of k units out of m, divided by m units of 255, is k / 255. */
  lemma FractionOfMultiple(p: int, k: int, m: int, score: real)
    requires 0 < m && p == k * m && score == p as real / (m * 255) as real
    ensures score == k as real / 255.0
  {
    RealOfProduct(k, m);
    RealOfProduct(m, 255);
    CancelFactor(p as real, (m * 255) as real, k as real, m as real);
  }

  lemma {:induction false} PixelSumMonotone(a: Algorithm, f: seq<uint8>, g: seq<uint8>, n: nat)
    requires a != Opt2 && 3 * n <= |f| && 3 * n <= |g|
    requires forall i :: 0 <= i < 3 * n ==> f[i] <= g[i]
    ensures PixelSum(a, f, n) <= PixelSum(a, g, n)
  {
    if n > 0 {
      PixelSumMonotone(a, f, g, n - 1);
      assert f[3 * (n - 1)] <= g[3 * (n - 1)];
      assert f[3 * (n - 1) + 1] <= g[3 * (n - 1) + 1];
      assert f[3 * (n - 1) + 2] <= g[3 * (n - 1) + 2];
    }
  }

  /** Raising any channel bytes of any pixels never lowers the score. */
  lemma ScoreMonotone(a: Algorithm, f: seq<uint8>, g: seq<uint8>, n: nat)
    requires a != Opt2 && 0 < n && 3 * n <= |f| && 3 * n <= |g|
    requires forall i :: 0 <= i < 3 * n ==> f[i] <= g[i]
    ensures Score(a, f, n) <= Score(a, g, n)
  {
    PixelSumMonotone(a, f, g, n);
    ScoreAsFraction(a, f, n);
    ScoreAsFraction(a, g, n);
    DivideMonotone(PixelSum(a, f, n) as real, PixelSum(a, g, n) as real, (WeightScale(a) * n * 255) as real);
  }

  /** The single-byte case: raising byte i of the frame to v never lowers the score. */
  lemma ScoreMonotoneInOneByte(a: Algorithm, f: seq<uint8>, n: nat, i: nat, v: uint8)
    requires a != Opt2 && 0 < n && 3 * n <= |f|
    requires i < |f| && f[i] <= v
    ensures Score(a, f, n) <= Score(a, f[i := v], n)
  {
    ScoreMonotone(a, f, f[i := v], n);
  }

  lemma {:induction false} PixelSumOnlyReadsPixels(a: Algorithm, f: seq<uint8>, g: seq<uint8>, n: nat)
    requires a != Opt2 && 3 * n <= |f| && 3 * n <= |g|
    requires f[..3 * n] == g[..3 * n]
    ensures PixelSum(a, f, n) == PixelSum(a, g, n)
  {
    if n > 0 {
      assert f[..3 * (n - 1)] == f[..3 * n][..3 * (n - 1)];
      assert g[..3 * (n - 1)] == g[..3 * n][..3 * (n - 1)];
      PixelSumOnlyReadsPixels(a, f, g, n - 1);
      assert f[3 * (n - 1)] == f[..3 * n][3 * (n - 1)];
      assert f[3 * (n - 1) + 1] == f[..3 * n][3 * (n - 1) + 1];
      assert f[3 * (n - 1) + 2] == f[..3 * n][3 * (n - 1) + 2];
    }
  }

  /** The score consumes exactly n triples: bytes past 3n never influence it. */
  lemma ScoreOnlyReadsPixels(a: Algorithm, f: seq<uint8>, g: seq<uint8>, n: nat)
    requires a != Opt2 && 0 < n && 3 * n <= |f| && 3 * n <= |g|
    requires f[..3 * n] == g[..3 * n]
    ensures Score(a, f, n) == Score(a, g, n)
  {
    PixelSumOnlyReadsPixels(a, f, g, n);
  }

  /**
   * The loop of `image_brightness`: walks the frame three bytes at a time,
   * accumulating each pixel's luma, then divides by the pixel count and 255.
   */
  method ImageBrightness(a: Algorithm, frame: seq<uint8>, pixels: nat) returns (score: real)
    requires a != Opt2 && 0 < pixels && |frame| == 3 * pixels
    ensures score == Score(a, frame, pixels)
    ensures 0.0 <= score <= 1.0
  {
    var delta := 0;
    var p := 0;
    var i := 0;
    while i < pixels
      invariant 0 <= i <= pixels && p == 3 * i
      invariant delta == PixelSum(a, frame, i)
    {
      var r := frame[p];
      var g := frame[p + 1];
      var b := frame[p + 2];
      p := p + 3;
      delta := delta + Luma(a, r, g, b);
      i := i + 1;
    }
    score := (delta as real / WeightScale(a) as real) / pixels as real / 255.0;
    ScoreBounds(a, frame, pixels);
  }
}
