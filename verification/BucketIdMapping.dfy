/**
 The LOG_UPPER mapping between positive values and bucket ids.  The id of v is the least integer i
 with v <= gamma^i, which is what ceil(log(v) / log(gamma)) computes in exact arithmetic.
 */
module BucketIdMapping {
  import opened Powers

  /** Bucket b of resolution g covers the half-open interval (g^(b-1), g^b]. */
  ghost predicate InBucket(g: real, v: real, b: int)
    requires g > 1.0
  {
    Pow(g, b - 1) < v <= Pow(g, b)
  }

  function SearchBucketId(g: real, v: real, i: int): (b: int)
    requires g > 1.0 && Pow(g, i - 1) < v
    ensures InBucket(g, v, b)
    decreases if Exceeding(g, v) > i then Exceeding(g, v) - i else 0
  {
    if v <= Pow(g, i) then
      i
    else
      assert i < Exceeding(g, v) by {
        if Exceeding(g, v) <= i {
          PowMonotone(g, Exceeding(g, v), i);
        }
      }
      SearchBucketId(g, v, i + 1)
  }

  lemma ReciprocalBelow(p: real, v: real)
    requires p > 0.0 && v > 0.0 && p > 1.0 / v
    ensures 1.0 / p < v
  {
    ScaleLess(v, 1.0 / v, p);
    assert v * (1.0 / v) == 1.0;
    ScaleLess(1.0 / p, 1.0, v * p);
    assert (1.0 / p) * (v * p) == v;
  }

  /** dds_get_bucket_id for LOG_UPPER. */
  function BucketId(g: real, v: real): (b: int)
    requires g > 1.0 && v > 0.0
    ensures InBucket(g, v, b)
  {
    var n := Exceeding(g, 1.0 / v) + 1;
    PowGrows(g, n - 1);
    ReciprocalBelow(PowN(g, n), v);
    SearchBucketId(g, v, 1 - n)
  }

  lemma BucketIdUnique(g: real, v: real, b: int, c: int)
    requires g > 1.0 && InBucket(g, v, b) && InBucket(g, v, c)
    ensures b == c
  {
    if b < c {
      PowMonotone(g, b, c - 1);
    } else if c < b {
      PowMonotone(g, c, b - 1);
    }
  }

  /** The id is the least exponent that reaches v. */
  lemma BucketIdAtMost(g: real, v: real, b: int)
    requires g > 1.0 && v > 0.0
    ensures BucketId(g, v) <= b <==> v <= Pow(g, b)
  {
    var i := BucketId(g, v);
    if i <= b {
      PowMonotone(g, i, b);
    } else {
      PowMonotone(g, b, i - 1);
    }
  }

  lemma BucketIdMonotone(g: real, v: real, w: real)
    requires g > 1.0 && 0.0 < v <= w
    ensures BucketId(g, v) <= BucketId(g, w)
  {
    BucketIdAtMost(g, v, BucketId(g, w));
  }

  /** (int)ceil((double)bid / 2.0), for negative ids too. */
  function CeilHalf(b: int): int {
    (b + 1) / 2
  }

  /** Ids taken at gamma and at gamma^2 meet: the collapse maps each id to the id at the new gamma. */
  lemma BucketIdOfSquare(g: real, v: real)
    requires g > 1.0 && v > 0.0
    ensures g * g > 1.0
    ensures BucketId(g * g, v) == CeilHalf(BucketId(g, v))
  {
    SquareAboveOne(g);
    var b := BucketId(g, v);
    var c := CeilHalf(b);
    PowOfSquare(g, c);
    PowOfSquare(g, c - 1);
    PowMonotone(g, b, 2 * c);
    PowMonotone(g, 2 * (c - 1), b - 1);
    assert InBucket(g * g, v, c);
    BucketIdUnique(g * g, v, BucketId(g * g, v), c);
  }

  /** The resolution after k updates with the square of gamma: gamma^(2^k). */
  function Squared(g: real, k: nat): (r: real)
    requires g > 1.0
    ensures r > 1.0
  {
    if k == 0 then
      g
    else
      SquareAboveOne(Squared(g, k - 1));
      Squared(g, k - 1) * Squared(g, k - 1)
  }

  function CeilHalfTimes(b: int, k: nat): int {
    if k == 0 then b else CeilHalf(CeilHalfTimes(b, k - 1))
  }

  lemma {:induction false} BucketIdAfterCollapses(g: real, v: real, k: nat)
    requires g > 1.0 && v > 0.0
    ensures BucketId(Squared(g, k), v) == CeilHalfTimes(BucketId(g, v), k)
  {
    if k > 0 {
      BucketIdAfterCollapses(g, v, k - 1);
      var h := Squared(g, k - 1);
      BucketIdOfSquare(h, v);
      assert Squared(g, k) == h * h;
    }
  }

  // ---------- the accuracy parameter alpha ----------

  /** alpha and gamma describe the same resolution: gamma = (1 + alpha) / (1 - alpha). */
  ghost predicate Matches(alpha: real, gamma: real) {
    && 0.0 < alpha < 1.0
    && gamma > 1.0
    && gamma * (1.0 - alpha) == 1.0 + alpha
  }

  function AlphaOf(gamma: real): (alpha: real)
    requires gamma > 1.0
    ensures Matches(alpha, gamma)
  {
    var alpha := (gamma - 1.0) / (gamma + 1.0);
    assert alpha * (gamma + 1.0) == gamma - 1.0;
    alpha
  }

  function GammaOf(alpha: real): (gamma: real)
    requires 0.0 < alpha < 1.0
    ensures Matches(alpha, gamma)
  {
    var gamma := (1.0 + alpha) / (1.0 - alpha);
    assert gamma * (1.0 - alpha) == 1.0 + alpha;
    gamma
  }

  lemma AlphaUnique(alpha: real, beta: real, gamma: real)
    requires Matches(alpha, gamma) && Matches(beta, gamma)
    ensures alpha == beta
  {
    assert alpha * (gamma + 1.0) == gamma - 1.0 == beta * (gamma + 1.0);
    assert (alpha - beta) * (gamma + 1.0) == 0.0;
  }

  /** One collapse worsens the guarantee from alpha to 2 alpha / (1 + alpha^2), the tanh doubling rule. */
  lemma AlphaOfSquare(alpha: real, gamma: real)
    requires Matches(alpha, gamma)
    ensures gamma * gamma > 1.0
    ensures AlphaOf(gamma * gamma) * (1.0 + alpha * alpha) == 2.0 * alpha
  {
    SquareAboveOne(gamma);
    var beta := AlphaOf(gamma * gamma);
    var s := gamma * gamma;
    assert beta * (s + 1.0) == s - 1.0;
    var d := 1.0 - alpha;
    calc {
      s * (d * d);
    ==
      (gamma * d) * (gamma * d);
    ==
      (1.0 + alpha) * (1.0 + alpha);
    }
    calc {
      beta * (2.0 * (1.0 + alpha * alpha));
    ==
      beta * ((1.0 + alpha) * (1.0 + alpha) + d * d);
    ==
      beta * (s * (d * d) + d * d);
    ==
      (beta * (s + 1.0)) * (d * d);
    ==
      (s - 1.0) * (d * d);
    ==
      s * (d * d) - d * d;
    ==
      4.0 * alpha;
    }
  }

  function BucketValue(alpha: real, gamma: real, b: int): real
    requires gamma > 1.0
  {
    Pow(gamma, b) * (1.0 - alpha)
  }

  function Abs(x: real): real {
    if x < 0.0 then -x else x
  }

  ghost predicate WithinRelativeError(estimate: real, truth: real, alpha: real) {
    Abs(estimate - truth) <= alpha * Abs(truth)
  }

  lemma Reassociate(a: real, b: real, c: real)
    ensures (a * b) * c == b * (a * c)
  {
  }

  lemma MidpointAccurate(alpha: real, gamma: real, lo: real, hi: real, v: real)
    requires Matches(alpha, gamma) && 0.0 < lo < v <= hi == gamma * lo
    ensures WithinRelativeError(hi * (1.0 - alpha), v, alpha)
  {
    var d := 1.0 - alpha;
    Reassociate(gamma, lo, d);
    ScaleLess(1.0 + alpha, lo, v);
    ScaleAtMost(d, v, hi);
  }

  /** Every value of a bucket is within relative error alpha of the bucket's representative. */
  lemma BucketValueAccurate(alpha: real, gamma: real, v: real, b: int)
    requires Matches(alpha, gamma) && v > 0.0 && InBucket(gamma, v, b)
    ensures WithinRelativeError(BucketValue(alpha, gamma, b), v, alpha)
  {
    PowStep(gamma, b - 1);
    MidpointAccurate(alpha, gamma, Pow(gamma, b - 1), Pow(gamma, b), v);
  }

  // ---------- the addressable range ----------

  const INT_MAX := 0x7fff_ffff
  const INT_MIN := -0x8000_0000

  /** dds_get_min_addressable_value; dblMin is the platform's least positive normal double. */
  function MinAddressable(gamma: real, dblMin: real): (v: real)
    requires gamma > 1.0
    ensures v >= Pow(gamma, INT_MIN)
  {
    if Pow(gamma, INT_MIN) > dblMin then Pow(gamma, INT_MIN) else dblMin
  }

  /** dds_get_max_addressable_value; dblMax is the platform's greatest finite double. */
  function MaxAddressable(alpha: real, gamma: real, dblMax: real): (v: real)
    requires Matches(alpha, gamma)
    ensures v <= Pow(gamma, INT_MAX)
  {
    if Pow(gamma, INT_MAX) < dblMax / (1.0 - alpha) then Pow(gamma, INT_MAX) else dblMax / (1.0 - alpha)
  }

  /** The two ends of the range: the larger of two bounds and the smaller of two. */
  lemma RangeEnds(alpha: real, gamma: real, dblMin: real, dblMax: real)
    requires Matches(alpha, gamma)
    ensures var v := MinAddressable(gamma, dblMin);
            v >= Pow(gamma, INT_MIN) && v >= dblMin && (v == Pow(gamma, INT_MIN) || v == dblMin)
    ensures var v := MaxAddressable(alpha, gamma, dblMax);
            && v <= Pow(gamma, INT_MAX) && v * (1.0 - alpha) <= dblMax
            && (v == Pow(gamma, INT_MAX) || v * (1.0 - alpha) == dblMax)
  {
    hide Pow;
    var d, top := 1.0 - alpha, dblMax / (1.0 - alpha);
    assert top * d == dblMax;
    if Pow(gamma, INT_MAX) < top {
      ScaleLess(d, Pow(gamma, INT_MAX), top);
    }
  }

  ghost predicate IsInt32(b: int) {
    INT_MIN <= b <= INT_MAX
  }

  /** The range is exactly what keeps every id taken at the initial gamma a 32-bit int. */
  lemma AddressableIdIsInt32(gamma: real, v: real)
    requires gamma > 1.0 && Pow(gamma, INT_MIN) <= v <= Pow(gamma, INT_MAX)
    ensures v > 0.0 && IsInt32(BucketId(gamma, v))
  {
    BucketIdAtMost(gamma, v, INT_MAX);
    var b := BucketId(gamma, v);
    if b < INT_MIN {
      PowIncreasing(gamma, b, INT_MIN);
    }
  }

  function TwoTo(k: nat): int {
    if k == 0 then 1 else 2 * TwoTo(k - 1)
  }

  lemma {:induction false} CeilHalfTimesRange(b: int, k: nat, top: nat)
    requires k <= top && -TwoTo(top) <= b <= TwoTo(top)
    ensures -TwoTo(top - k) <= CeilHalfTimes(b, k) <= TwoTo(top - k)
  {
    if k > 0 {
      CeilHalfTimesRange(b, k - 1, top);
      assert TwoTo(top - (k - 1)) == 2 * TwoTo(top - k);
    }
  }

  lemma {:induction false} TwoToSum(j: nat, k: nat)
    ensures TwoTo(j + k) == TwoTo(j) * TwoTo(k)
  {
    if j > 0 {
      TwoToSum(j - 1, k);
      assert TwoTo(j + k) == 2 * TwoTo(j - 1 + k);
    }
  }

  lemma TwoTo31()
    ensures TwoTo(31) == 0x8000_0000
  {
    TwoToSum(1, 2);
    TwoToSum(3, 4);
    TwoToSum(7, 8);
    TwoToSum(15, 16);
    TwoToSum(4, 4);
    TwoToSum(8, 8);
  }

  /** After 32 halvings a 32-bit id has become 0 or 1. */
  lemma HalvedOut(b: int, k: nat)
    requires IsInt32(b) && k >= 32
    ensures CeilHalfTimes(b, k) == 0 || CeilHalfTimes(b, k) == 1
    decreases k
  {
    if k == 32 {
      TwoTo31();
      CeilHalfTimesRange(b, 31, 31);
      assert CeilHalfTimes(b, 32) == CeilHalf(CeilHalfTimes(b, 31));
    } else {
      HalvedOut(b, k - 1);
    }
  }

  /** struct dds_bucket_id_mapping; log_gamma is the logarithm of gammaValue and is not stored. */
  class Mapping {
    var alpha: real
    var gammaValue: real

    ghost predicate Valid()
      reads this
    {
      Matches(alpha, gammaValue)
    }

    constructor (alpha: real)
      requires 0.0 < alpha < 1.0
      ensures Valid() && this.alpha == alpha && gammaValue == GammaOf(alpha)
    {
      this.alpha := alpha;
      gammaValue := GammaOf(alpha);
    }

    method Update(gamma: real)
      requires gamma > 1.0
      modifies this
      ensures Valid() && gammaValue == gamma && alpha == AlphaOf(gamma)
    {
      gammaValue := gamma;
      alpha := (gamma - 1.0) / (gamma + 1.0);
    }

    function GetBucketId(v: real): (b: int)
      requires Valid() && v > 0.0
      reads this
      ensures InBucket(gammaValue, v, b)
    {
      BucketId(gammaValue, v)
    }

    function GetBucketValue(b: int): real
      requires Valid()
      reads this
    {
      BucketValue(alpha, gammaValue, b)
    }
  }
}
