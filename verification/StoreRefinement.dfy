/**
 A store is the histogram of the surviving items at the current resolution: exactly, or, while its low
 or high end is folded, with every id beyond the end seen in the end bucket.
 */
module StoreRefinement {
  import opened BucketIdMapping
  import opened Histogram
  import opened MapStore
  import opened Powers
  import opened Survivors
  import Collections

  function ClampOf(s: StoreState): Clamp {
    if !s.collapsed || s.buckets == map[] then
      Exact
    else
      match s.kind
      case CollapsingLow => LowAt(Least(s.buckets.Keys))
      case CollapsingHigh => HighAt(Greatest(s.buckets.Keys))
      case _ => Exact
  }

  ghost predicate Holds(m: multiset<real>, g: real, clamp: Clamp, buckets: Buckets)
    requires g > 1.0
  {
    forall b :: Count(buckets, b) == Cell(m, g, clamp, b)
  }

  ghost predicate Represents(m: multiset<real>, g: real, s: StoreState)
    requires g > 1.0
  {
    && WellFormed(s)
    && AllPositive(m)
    && Holds(m, g, ClampOf(s), s.buckets)
  }

  // ---------- cumulative counts ----------

  lemma {:induction false} CumulativeFrom(m: multiset<real>, g: real, clamp: Clamp, buckets: Buckets, lo: int, b: int)
    requires g > 1.0 && Holds(m, g, clamp, buckets) && lo <= b
    requires SumBelow(buckets, lo) == 0 && Upto(m, g, clamp, lo - 1) == 0
    ensures SumBelow(buckets, b) == Upto(m, g, clamp, b - 1)
    decreases b - lo
  {
    if lo < b {
      CumulativeFrom(m, g, clamp, buckets, lo, b - 1);
      SumBelowStep(buckets, b - 1);
      UptoStep(m, g, clamp, b - 1);
    }
  }

  /** Counts of the buckets below b add up to the number of items seen below b. */
  lemma Cumulative(m: multiset<real>, g: real, clamp: Clamp, buckets: Buckets, b: int)
    requires g > 1.0 && Holds(m, g, clamp, buckets)
    ensures SumBelow(buckets, b) == Upto(m, g, clamp, b - 1)
  {
    hide Upto, Cell, SumBelow;
    var lo, hi := KeyRange(buckets);
    var first, last := SeenRange(m, g, clamp);
    var start := if lo < first then lo else first;
    start := if start < b then start else b;
    SumBelowEnds(buckets, start, hi);
    UptoEnds(m, g, clamp, start - 1);
    CumulativeFrom(m, g, clamp, buckets, start, b);
  }

  /** The store holds as many counts as there are surviving items. */
  lemma TotalIsSize(m: multiset<real>, g: real, clamp: Clamp, buckets: Buckets)
    requires g > 1.0 && Holds(m, g, clamp, buckets)
    ensures Sum(buckets) == |m|
  {
    hide Upto, Cell, SumBelow, Sum;
    var lo, hi := KeyRange(buckets);
    var first, last := SeenRange(m, g, clamp);
    var end := if hi > last then hi else last + 1;
    SumBelowEnds(buckets, lo, end);
    UptoEnds(m, g, clamp, end - 1);
    Cumulative(m, g, clamp, buckets, end);
  }

  // ---------- folding keeps the refinement ----------

  lemma HalveHolds(m: multiset<real>, g: real, buckets: Buckets)
    requires g > 1.0 && AllPositive(m) && Holds(m, g, Exact, buckets)
    ensures g * g > 1.0 && Holds(m, g * g, Exact, Halve(buckets))
  {
    hide Cell, Count, Halve;
    SquareAboveOne(g);
    forall b
      ensures Count(Halve(buckets), b) == Cell(m, g * g, Exact, b)
    {
      CountHalve(buckets, b);
      CellOfSquare(m, g, b);
    }
  }

  lemma FoldLowHolds(m: multiset<real>, g: real, clamp: Clamp, buckets: Buckets, first: int, second: int)
    requires g > 1.0 && AllPositive(m) && Holds(m, g, clamp, buckets)
    requires clamp == Exact || clamp == LowAt(first)
    requires first in buckets && second in buckets && first < second
    requires forall k | k in buckets :: k == first || second <= k
    ensures Holds(m, g, LowAt(second), Fold(buckets, first, second))
  {
    hide Upto, Cell, SumBelow;
    var folded := Fold(buckets, first, second);
    forall b
      ensures Count(folded, b) == Cell(m, g, LowAt(second), b)
    {
      UptoStep(m, g, LowAt(second), b);
      UptoClamped(m, g, LowAt(second), b);
      UptoClamped(m, g, LowAt(second), b - 1);
      UptoClamped(m, g, clamp, b);
      UptoClamped(m, g, clamp, b - 1);
      UptoStep(m, g, clamp, b);
      if b == second {
        Cumulative(m, g, clamp, buckets, second + 1);
        SumBelowStep(buckets, second);
        SumBelowGap(buckets, first + 1, second);
        SumBelowStep(buckets, first);
        var lo, hi := KeyRange(buckets);
        SumBelowEnds(buckets, first, hi);
      }
    }
  }

  lemma FoldHighHolds(m: multiset<real>, g: real, clamp: Clamp, buckets: Buckets, last: int, second: int)
    requires g > 1.0 && AllPositive(m) && Holds(m, g, clamp, buckets)
    requires clamp == Exact || clamp == HighAt(last)
    requires last in buckets && second in buckets && second < last
    requires forall k | k in buckets :: k == last || k <= second
    ensures Holds(m, g, HighAt(second), Fold(buckets, last, second))
  {
    hide Upto, Cell, SumBelow, Sum;
    var folded := Fold(buckets, last, second);
    forall b
      ensures Count(folded, b) == Cell(m, g, HighAt(second), b)
    {
      UptoStep(m, g, HighAt(second), b);
      UptoClamped(m, g, HighAt(second), b);
      UptoClamped(m, g, HighAt(second), b - 1);
      UptoClamped(m, g, clamp, b);
      UptoClamped(m, g, clamp, b - 1);
      UptoStep(m, g, clamp, b);
      if b == second {
        Cumulative(m, g, clamp, buckets, second);
        TotalIsSize(m, g, clamp, buckets);
        SumBelowStep(buckets, second);
        SumBelowGap(buckets, second + 1, last);
        SumBelowStep(buckets, last);
        var lo, hi := KeyRange(buckets);
        SumBelowEnds(buckets, lo, last + 1);
      }
    }
  }

  /** The refinement without the bound: what the folding loop keeps from one round to the next. */
  ghost predicate Matching(m: multiset<real>, g: real, s: StoreState)
    requires g > 1.0
  {
    && AllPositive(m)
    && Positive(s.buckets)
    && Holds(m, g, ClampOf(s), s.buckets)
  }

  lemma CollapsedMatches(m: multiset<real>, g: real, s: StoreState)
    requires g > 1.0 && Matching(m, g, s) && !s.kind.UnboundedStore?
    requires |s.buckets| > if s.kind.CollapsingAll? then 2 else 1
    ensures g * g > 1.0
    ensures Matching(m, if s.kind.CollapsingAll? then g * g else g, Collapsed(s))
  {
    hide Holds, Sum, Halve, ClampOf;
    SquareAboveOne(g);
    CollapsedFacts(s);
    match s.kind
    case CollapsingAll =>
      assert ClampOf(s) == ClampOf(Collapsed(s)) == Exact by {
        AllIsExact(s);
        AllIsExact(Collapsed(s));
      }
      HalveHolds(m, g, s.buckets);
    case CollapsingLow => LowMatches(m, g, s);
    case CollapsingHigh => HighMatches(m, g, s);
  }

  lemma AllIsExact(s: StoreState)
    requires s.kind.CollapsingAll?
    ensures ClampOf(s) == Exact
  {
  }

  lemma LowMatches(m: multiset<real>, g: real, s: StoreState)
    requires g > 1.0 && Matching(m, g, s) && s.kind.CollapsingLow? && |s.buckets| > 1
    ensures Holds(m, g, ClampOf(Collapsed(s)), Collapsed(s).buckets)
  {
    hide Holds, Sum;
    FoldLowFacts(s.buckets);
    var first := First(s.buckets).key;
    var second := Next(s.buckets, first).key;
    FoldLowHolds(m, g, ClampOf(s), s.buckets, first, second);
    FoldFacts(s.buckets, first, second);
    assert second in Fold(s.buckets, first, second).Keys;
    assert ClampOf(Collapsed(s)) == LowAt(second);
  }

  lemma HighMatches(m: multiset<real>, g: real, s: StoreState)
    requires g > 1.0 && Matching(m, g, s) && s.kind.CollapsingHigh? && |s.buckets| > 1
    ensures Holds(m, g, ClampOf(Collapsed(s)), Collapsed(s).buckets)
  {
    hide Holds, Sum;
    FoldHighFacts(s.buckets);
    var last := Last(s.buckets).key;
    var second := Prev(s.buckets, last).key;
    FoldHighHolds(m, g, ClampOf(s), s.buckets, last, second);
    FoldFacts(s.buckets, last, second);
    assert second in Fold(s.buckets, last, second).Keys;
    assert ClampOf(Collapsed(s)) == HighAt(second);
  }

  lemma {:induction false} SquaredFirst(g: real, k: nat)
    requires g > 1.0
    ensures g * g > 1.0 && Squared(g * g, k) == Squared(g, k + 1)
  {
    SquareAboveOne(g);
    if k > 0 {
      SquaredFirst(g, k - 1);
      assert Squared(g * g, k) == Squared(g * g, k - 1) * Squared(g * g, k - 1);
    } else {
      assert Squared(g, 1) == Squared(g, 0) * Squared(g, 0);
    }
  }

  /** Any number of folds later the store is the histogram at the gamma the mapping has then. */
  lemma {:induction false} ShrunkMatches(m: multiset<real>, g: real, s: StoreState, bound: int)
    requires g > 1.0 && Matching(m, g, s) && Shrinkable(s.kind, bound)
    ensures Matching(m, GammaAfter(g, s, Shrunk(s, bound)), Shrunk(s, bound))
    decreases Measure(s)
  {
    hide Holds, Sum, Span, ClampOf;
    if |s.buckets| > bound {
      CollapsedFacts(s);
      CollapsedMatches(m, g, s);
      var t := Collapsed(s);
      ShrunkMatches(m, if s.kind.CollapsingAll? then g * g else g, t, bound);
      if s.kind.CollapsingAll? {
        SquaredFirst(g, Shrunk(t, bound).numCollapses - t.numCollapses);
      }
    }
  }

  // ---------- inserting and removing keep the refinement ----------

  lemma TargetIsSeen(m: multiset<real>, g: real, s: StoreState, v: real)
    requires g > 1.0 && v > 0.0 && WellFormed(s)
    ensures InsertTarget(s, BucketId(g, v)) == Seen(g, ClampOf(s), v)
    ensures s.buckets != map[] ==> RemoveTarget(s, BucketId(g, v)) == Seen(g, ClampOf(s), v)
  {
    hide BucketId, Sum;
  }

  lemma AddMatches(m: multiset<real>, g: real, s: StoreState, v: real, c: nat)
    requires g > 1.0 && Represents(m, g, s) && v > 0.0 && c > 0
    ensures Matching(Bump(m, v, c), g, s.(buckets := Add(s.buckets, InsertTarget(s, BucketId(g, v)), c)))
  {
    hide Cell, BucketId, Sum;
    var target, clamp := InsertTarget(s, BucketId(g, v)), ClampOf(s);
    TargetIsSeen(m, g, s, v);
    var t := s.(buckets := Add(s.buckets, target, c));
    AddKeepsClamp(s, v, g, c);
    forall b
      ensures Count(t.buckets, b) == Cell(Bump(m, v, c), g, clamp, b)
    {
      CellBump(m, g, clamp, b, v, c);
    }
  }

  lemma AddKeepsClamp(s: StoreState, v: real, g: real, c: nat)
    requires g > 1.0 && WellFormed(s) && v > 0.0
    ensures ClampOf(s.(buckets := Add(s.buckets, InsertTarget(s, BucketId(g, v)), c))) == ClampOf(s)
  {
    hide BucketId, Sum;
    var target := InsertTarget(s, BucketId(g, v));
    var added := Add(s.buckets, target, c);
    assert added.Keys == s.buckets.Keys + {target};
    assert added != map[];
    if s.collapsed && s.buckets != map[] && s.kind.CollapsingLow? {
      assert Least(s.buckets.Keys) <= target;
      assert Least(added.Keys) == Least(s.buckets.Keys);
    } else if s.collapsed && s.buckets != map[] && s.kind.CollapsingHigh? {
      assert target <= Greatest(s.buckets.Keys);
      assert Greatest(added.Keys) == Greatest(s.buckets.Keys);
    }
  }

  /** Inserting c copies of v, at whatever resolution the store has reached, keeps it the survivors' histogram. */
  lemma InsertRepresents(m: multiset<real>, g: real, s: StoreState, v: real, c: nat)
    requires g > 1.0 && Represents(m, g, s) && v > 0.0 && c > 0
    ensures var t := Inserted(s, BucketId(g, v), c);
            && t.numCollapses >= s.numCollapses
            && Represents(Bump(m, v, c), GammaAfter(g, s, t), t)
  {
    hide Holds, Sum, BucketId, Least, Greatest, Shrunk, Add, InsertTarget;
    var bid := BucketId(g, v);
    InsertConserves(s, bid, c);
    AddMatches(m, g, s, v, c);
    AddFacts(s.buckets, InsertTarget(s, bid), c);
    var added := s.(buckets := Add(s.buckets, InsertTarget(s, bid), c));
    if !(bid in s.buckets || s.resizable || s.kind.UnboundedStore?) {
      ShrunkMatches(Bump(m, v, c), g, added, s.maxBuckets);
      var t := Shrunk(added, s.maxBuckets);
      assert ClampOf(t) == ClampOf(t.(total := s.total + c));
    } else {
      assert ClampOf(added) == ClampOf(added.(total := s.total + c));
    }
  }

  lemma {:induction false} SeenBucketHolds(m: multiset<real>, g: real, clamp: Clamp, v: real)
    requires g > 1.0
    ensures Cell(m, g, clamp, Seen(g, clamp, v)) >= m[v]
    decreases |m|
  {
    if v in m {
      CellWithout(m, g, clamp, Seen(g, clamp, v), v);
      SeenBucketHolds(m - multiset{v}, g, clamp, v);
    }
  }

  /** Removing copies of a present item is never rejected and keeps the store the survivors' histogram. */
  lemma RemoveRepresents(m: multiset<real>, g: real, s: StoreState, v: real, c: int)
    requires g > 1.0 && Represents(m, g, s) && 0 < c <= m[v]
    ensures s.buckets != map[]
    ensures Removed(s, BucketId(g, v), -c).total == s.total - c
    ensures Represents(Drop(m, v, c), g, Removed(s, BucketId(g, v), -c))
  {
    hide Holds, Cell, BucketId, Sum, ClampOf, Subtract;
    var bid := BucketId(g, v);
    PresentIsStored(m, g, s, v, c);
    var target, t := RemoveTarget(s, bid), Removed(s, bid, -c);
    RemoveConserves(s, bid, -c);
    assert t.buckets == Subtract(s.buckets, target, c);
    SubtractHolds(m, g, s, v, c);
    assert AllPositive(Drop(m, v, c));
    RemovedClamp(Drop(m, v, c), g, s, bid, c);
  }

  lemma PresentIsStored(m: multiset<real>, g: real, s: StoreState, v: real, c: int)
    requires g > 1.0 && Represents(m, g, s) && 0 < c <= m[v]
    ensures s.buckets != map[] && v > 0.0
    ensures RemoveTarget(s, BucketId(g, v)) in s.buckets && s.buckets[RemoveTarget(s, BucketId(g, v))] >= c
  {
    hide Cell, BucketId, Sum, ClampOf;
    SeenBucketHolds(m, g, ClampOf(s), v);
    TargetIsSeen(m, g, s, v);
    assert Count(s.buckets, Seen(g, ClampOf(s), v)) >= c;
  }

  lemma SubtractHolds(m: multiset<real>, g: real, s: StoreState, v: real, c: int)
    requires g > 1.0 && Represents(m, g, s) && 0 < c <= m[v]
    requires s.buckets != map[] && v > 0.0
    requires RemoveTarget(s, BucketId(g, v)) in s.buckets && s.buckets[RemoveTarget(s, BucketId(g, v))] >= c
    ensures Holds(Drop(m, v, c), g, ClampOf(s), Subtract(s.buckets, RemoveTarget(s, BucketId(g, v)), c))
  {
    hide Cell, BucketId, Sum, ClampOf;
    var target := RemoveTarget(s, BucketId(g, v));
    TargetIsSeen(m, g, s, v);
    SubtractFacts(s.buckets, target, c);
    forall b
      ensures Count(Subtract(s.buckets, target, c), b) == Cell(Drop(m, v, c), g, ClampOf(s), b)
    {
      CellDrop(m, g, ClampOf(s), b, v, c);
    }
  }

  /** Draining the folded end bucket is what makes a folded store exact again. */
  lemma RemovedClamp(m: multiset<real>, g: real, s: StoreState, bid: int, c: int)
    requires g > 1.0 && WellFormed(s) && c > 0 && s.buckets != map[] && AllPositive(m)
    requires Count(s.buckets, RemoveTarget(s, bid)) >= c
    requires Holds(m, g, ClampOf(s), Removed(s, bid, -c).buckets)
    ensures Holds(m, g, ClampOf(Removed(s, bid, -c)), Removed(s, bid, -c).buckets)
    ensures ClampOf(Removed(s, bid, -c)) == if Drains(s, bid, c) then Exact else ClampOf(s)
  {
    hide Cell, Sum;
    RemovedFlags(s, bid, c);
    hide Drains;
    var t, clamp, target := Removed(s, bid, -c), ClampOf(s), RemoveTarget(s, bid);
    if clamp.LowAt? {
      if t.collapsed {
        assert clamp.first in t.buckets;
        assert Least(t.buckets.Keys) == clamp.first;
      } else {
        EmptyEndIsExact(m, g, clamp, t.buckets);
      }
    } else if clamp.HighAt? {
      if t.collapsed {
        assert clamp.last in t.buckets;
        assert Greatest(t.buckets.Keys) == clamp.last;
      } else {
        EmptyEndIsExact(m, g, clamp, t.buckets);
      }
    }
  }

  lemma EmptyEndIsExact(m: multiset<real>, g: real, clamp: Clamp, buckets: Buckets)
    requires g > 1.0 && AllPositive(m) && Holds(m, g, clamp, buckets)
    requires clamp.LowAt? ==> clamp.first !in buckets
    requires clamp.HighAt? ==> clamp.last !in buckets
    ensures Holds(m, g, Exact, buckets)
  {
    hide Cell;
    forall v | v in m
      ensures Seen(g, clamp, v) == Seen(g, Exact, v)
    {
      SeenBucketHolds(m, g, clamp, v);
      assert Count(buckets, Seen(g, clamp, v)) > 0;
    }
    forall b
      ensures Count(buckets, b) == Cell(m, g, Exact, b)
    {
      SameCells(m, g, clamp, Exact, b);
    }
  }

  lemma {:induction false} SameCells(m: multiset<real>, g: real, c: Clamp, d: Clamp, b: int)
    requires g > 1.0 && forall v | v in m :: Seen(g, c, v) == Seen(g, d, v)
    ensures Cell(m, g, c, b) == Cell(m, g, d, b)
    decreases |m|
  {
    if m != multiset{} {
      var v := Collections.InhabitedBag(m);
      CellWithout(m, g, c, b, v);
      CellWithout(m, g, d, b, v);
      SameCells(m - multiset{v}, g, c, d, b);
    }
  }
}
