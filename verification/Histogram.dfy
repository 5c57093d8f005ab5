/**
 The ordered dictionary from bucket id to count that a store keeps, with the iterator operations the
 store performs on it, and the two kinds of folding that a collapse does.
 */
module Histogram {
  import opened BucketIdMapping
  import opened Collections

  type Buckets = map<int, int>

  /** A dictionary iterator: off the end, or standing at a key. */
  datatype Cursor = Invalid | At(key: int)

  lemma {:induction false} LeastExists(s: set<int>) returns (k: int)
    requires s != {}
    ensures k in s && forall x | x in s :: k <= x
  {
    k := Inhabited(s);
    if s != {k} {
      var y := k;
      assert s == {y} + (s - {y});
      k := LeastExists(s - {y});
      k := if y < k then y else k;
    }
  }

  lemma SomeLeast(s: set<int>)
    requires s != {}
    ensures exists k :: k in s && forall x | x in s :: k <= x
  {
    var k := LeastExists(s);
  }

  function Least(s: set<int>): (k: int)
    requires s != {}
    ensures k in s && forall x | x in s :: k <= x
  {
    SomeLeast(s);
    var k :| k in s && forall x | x in s :: k <= x;
    k
  }

  lemma {:induction false} GreatestExists(s: set<int>) returns (k: int)
    requires s != {}
    ensures k in s && forall x | x in s :: x <= k
  {
    k := Inhabited(s);
    if s != {k} {
      var y := k;
      assert s == {y} + (s - {y});
      k := GreatestExists(s - {y});
      k := if y > k then y else k;
    }
  }

  lemma SomeGreatest(s: set<int>)
    requires s != {}
    ensures exists k :: k in s && forall x | x in s :: x <= k
  {
    var k := GreatestExists(s);
  }

  function Greatest(s: set<int>): (k: int)
    requires s != {}
    ensures k in s && forall x | x in s :: x <= k
  {
    SomeGreatest(s);
    var k :| k in s && forall x | x in s :: x <= k;
    k
  }

  function First(m: Buckets): Cursor {
    if m.Keys == {} then Invalid else At(Least(m.Keys))
  }

  function Last(m: Buckets): Cursor {
    if m.Keys == {} then Invalid else At(Greatest(m.Keys))
  }

  function Next(m: Buckets, b: int): (c: Cursor)
    ensures c.Invalid? <==> forall k | k in m :: k <= b
    ensures c.At? ==> c.key in m && b < c.key && forall k | k in m && b < k :: c.key <= k
  {
    var above := set k | k in m.Keys && b < k;
    assert forall k | k in m && b < k :: k in above;
    if above == {} then Invalid else At(Least(above))
  }

  function Prev(m: Buckets, b: int): (c: Cursor)
    ensures c.Invalid? <==> forall k | k in m :: b <= k
    ensures c.At? ==> c.key in m && c.key < b && forall k | k in m && k < b :: k <= c.key
  {
    var below := set k | k in m.Keys && k < b;
    assert forall k | k in m && k < b :: k in below;
    if below == {} then Invalid else At(Greatest(below))
  }

  function Count(m: Buckets, b: int): int {
    if b in m then m[b] else 0
  }

  /** add_item: create the bucket or add to it. */
  function Add(m: Buckets, b: int, c: int): Buckets {
    m[b := Count(m, b) + c]
  }

  ghost predicate Positive(m: Buckets) {
    forall b | b in m :: m[b] > 0
  }

  // ---------- sums of counts ----------

  function Below(m: Buckets, b: int): Buckets {
    map k | k in m && k < b :: m[k]
  }

  function Sum(m: Buckets): int
    decreases |m|
  {
    if m.Keys == {} then
      0
    else
      var k := Greatest(m.Keys);
      RemoveShrinks(m, k);
      Sum(m - {k}) + m[k]
  }

  function SumBelow(m: Buckets, b: int): int {
    Sum(Below(m, b))
  }

  lemma RemoveShrinks(m: Buckets, k: int)
    requires k in m
    ensures |m - {k}| == |m| - 1
  {
    assert (m - {k}).Keys == m.Keys - {k};
    assert |m| == |m.Keys| && |m - {k}| == |(m - {k}).Keys|;
  }

  lemma SumBelowStep(m: Buckets, b: int)
    ensures SumBelow(m, b + 1) == SumBelow(m, b) + Count(m, b)
  {
    var up := Below(m, b + 1);
    if b in m {
      assert b in up;
      assert Greatest(up.Keys) == b;
      assert up - {b} == Below(m, b);
    } else {
      assert up == Below(m, b);
    }
  }

  lemma SumBelowEnds(m: Buckets, lo: int, hi: int)
    requires forall k | k in m :: lo <= k < hi
    ensures SumBelow(m, lo) == 0 && SumBelow(m, hi) == Sum(m)
  {
    assert Below(m, lo) == map[];
    assert Below(m, hi) == m;
  }

  /** Every key of m lies between these bounds. */
  lemma KeyRange(m: Buckets) returns (lo: int, hi: int)
    ensures lo < hi && forall k | k in m :: lo <= k < hi
  {
    if m.Keys == {} {
      lo, hi := 0, 1;
    } else {
      lo, hi := Least(m.Keys), Greatest(m.Keys) + 1;
    }
  }

  lemma {:induction false} SumBelowMonotone(m: Buckets, b: int, c: int)
    requires Positive(m) && b <= c
    ensures SumBelow(m, b) <= SumBelow(m, c)
    decreases c - b
  {
    if b < c {
      SumBelowMonotone(m, b, c - 1);
      SumBelowStep(m, c - 1);
    }
  }

  /** No bucket lies strictly between b and c, so the cumulative count does not move. */
  lemma {:induction false} SumBelowGap(m: Buckets, b: int, c: int)
    requires b <= c && forall k | k in m :: !(b <= k < c)
    ensures SumBelow(m, b) == SumBelow(m, c)
    decreases c - b
  {
    if b < c {
      SumBelowGap(m, b, c - 1);
      SumBelowStep(m, c - 1);
    }
  }

  /** Two histograms that agree bucket by bucket up to b have the same cumulative count. */
  lemma {:induction false} SumBelowDiffers(m: Buckets, n: Buckets, lo: int, b: int, at: int, c: int)
    requires lo <= b && SumBelow(m, lo) == SumBelow(n, lo)
    requires lo <= at
    requires forall k :: Count(n, k) == Count(m, k) + if k == at then c else 0
    ensures SumBelow(n, b) == SumBelow(m, b) + if at < b then c else 0
    decreases b - lo
  {
    if lo < b {
      SumBelowDiffers(m, n, lo, b - 1, at, c);
      SumBelowStep(m, b - 1);
      SumBelowStep(n, b - 1);
    }
  }

  /** Changing one bucket by c changes the sum by c. */
  lemma SumDiffers(m: Buckets, n: Buckets, at: int, c: int)
    requires forall k :: Count(n, k) == Count(m, k) + if k == at then c else 0
    ensures Sum(n) == Sum(m) + c
  {
    var lo, hi := KeyRange(m[at := 0] + n);
    assert forall k | k in m || k in n || k == at :: k in m[at := 0] + n;
    SumBelowEnds(m, lo, hi);
    SumBelowEnds(n, lo, hi);
    SumBelowDiffers(m, n, lo, hi, at, c);
  }

  lemma CountAtMostSum(m: Buckets, b: int)
    requires Positive(m)
    ensures Count(m, b) <= Sum(m)
  {
    var lo, hi := KeyRange(m[b := 1]);
    assert forall k | k in m || k == b :: k in m[b := 1];
    SumBelowEnds(m, lo, hi);
    SumBelowMonotone(m, lo, b);
    SumBelowStep(m, b);
    SumBelowMonotone(m, b + 1, hi);
  }

  // ---------- the uniform fold ----------

  /** Bucket b of the halved histogram receives buckets 2b - 1 and 2b. */
  function Halve(m: Buckets): Buckets {
    map b | b in (set k | k in m :: CeilHalf(k)) :: Count(m, 2 * b - 1) + Count(m, 2 * b)
  }

  lemma CountHalve(m: Buckets, b: int)
    ensures Count(Halve(m), b) == Count(m, 2 * b - 1) + Count(m, 2 * b)
  {
    assert CeilHalf(2 * b - 1) == b == CeilHalf(2 * b);
    if b in Halve(m) {
    } else {
      assert 2 * b - 1 !in m && 2 * b !in m;
    }
  }

  lemma HalvePositive(m: Buckets)
    requires Positive(m)
    ensures Positive(Halve(m))
  {
    forall b | b in Halve(m)
      ensures Halve(m)[b] > 0
    {
      var k :| k in m && CeilHalf(k) == b;
      assert k == 2 * b - 1 || k == 2 * b;
      CountHalve(m, b);
    }
  }

  lemma {:induction false} SumBelowHalve(m: Buckets, lo: int, b: int)
    requires lo <= b && forall k | k in m :: 2 * lo - 1 <= k
    ensures SumBelow(Halve(m), b) == SumBelow(m, 2 * b - 1)
    decreases b - lo
  {
    if lo == b {
      assert Below(m, 2 * b - 1) == map[];
      assert Below(Halve(m), b) == map[];
    } else {
      SumBelowHalve(m, lo, b - 1);
      CountHalve(m, b - 1);
      SumBelowStep(Halve(m), b - 1);
      SumBelowStep(m, 2 * b - 3);
      SumBelowStep(m, 2 * b - 2);
    }
  }

  /** A uniform collapse moves counts between buckets and loses none. */
  lemma SumHalve(m: Buckets)
    ensures Sum(Halve(m)) == Sum(m)
  {
    var lo, hi := KeyRange(m);
    var a, b := CeilHalf(lo), CeilHalf(hi) + 1;
    SumBelowHalve(m, a, b);
    SumBelowEnds(m, 2 * a - 1, 2 * b - 1);
    SumBelowEnds(Halve(m), a, b);
  }

  /** The fold can be done one bucket at a time, as collapse_impl does. */
  lemma HalveOneMore(m: Buckets, k: int, c: int)
    requires k !in m
    ensures Halve(m[k := c]) == Add(Halve(m), CeilHalf(k), c)
  {
    var n := m[k := c];
    var left, right := Halve(n), Add(Halve(m), CeilHalf(k), c);
    assert left.Keys == right.Keys by {
      forall b
        ensures b in left <==> b in right
      {
        if b in left {
          var j :| j in n && CeilHalf(j) == b;
          assert j == k || j in m;
        }
        if b in right {
          if b == CeilHalf(k) {
            assert k in n;
          } else {
            var j :| j in m && CeilHalf(j) == b;
            assert j in n;
          }
        }
      }
    }
    forall b | b in left
      ensures left[b] == right[b]
    {
      CountHalve(n, b);
      CountHalve(m, b);
      assert k == 2 * b - 1 || k == 2 * b <==> b == CeilHalf(k);
    }
  }

  /** Distance of an id from the fixed points 0 and 1 of the halving. */
  function Distance(b: int): nat {
    if b > 1 then b - 1 else if b < 0 then -b else 0
  }

  function Span(m: Buckets): nat {
    if m.Keys == {} then
      0
    else
      var a, b := Distance(Least(m.Keys)), Distance(Greatest(m.Keys));
      if a > b then a else b
  }

  lemma SpanBounds(m: Buckets, k: int)
    requires k in m
    ensures Distance(k) <= Span(m)
  {
  }

  lemma AtMostTwo(m: Buckets)
    requires forall k | k in m :: Distance(k) == 0
    ensures |m| <= 2
  {
    forall k | k in m.Keys
      ensures k in {0, 1}
    {
      assert Distance(k) == 0;
    }
    Subset(m.Keys, {0, 1});
    assert |m| == |m.Keys|;
  }

  lemma HalveSpan(m: Buckets)
    ensures Span(Halve(m)) <= Span(m)
    ensures Span(m) > 0 ==> Span(Halve(m)) < Span(m)
  {
    var h := Halve(m);
    if h.Keys != {} {
      var lo, hi := Least(h.Keys), Greatest(h.Keys);
      var a :| a in m && CeilHalf(a) == lo;
      var b :| b in m && CeilHalf(b) == hi;
      SpanBounds(m, a);
      SpanBounds(m, b);
    }
  }

  /** Why uniform collapsing ends: three buckets force an id away from {0, 1}, and that id moves closer. */
  lemma HalveReducesSpan(m: Buckets)
    requires |m| > 2
    ensures Span(Halve(m)) < Span(m)
  {
    if Span(m) == 0 {
      AtMostTwo(m);
    }
    HalveSpan(m);
  }
}
