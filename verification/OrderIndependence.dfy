/**
 Without removals the sketch depends only on which items arrived, not on their order: the uniform sketch
 stops at the first resolution that fits, the low one keeps the highest ids, the high one the lowest.
 */
module OrderIndependence {
  import opened Accuracy
  import opened BucketIdMapping
  import opened Histogram
  import opened MapStore
  import opened PSketch
  import opened StoreRefinement
  import opened Survivors
  import Collections

  /** The distinct ids of the items at resolution g. */
  ghost function Ids(m: multiset<real>, g: real): set<int>
    requires g > 1.0
  {
    set v | v in m && v > 0.0 :: BucketId(g, v)
  }

  lemma NoIds(g: real)
    requires g > 1.0
    ensures Ids(multiset{}, g) == {}
  {
  }

  predicate InsertOnly(ops: seq<Op>) {
    forall i | 0 <= i < |ops| :: ops[i].count >= 0
  }

  // ---------- the canonical store of a multiset ----------

  /** Uniform mode stops at the least number of collapses that leaves at most maxBuckets distinct ids. */
  ghost predicate LeastLevel(m: multiset<real>, gamma0: real, s: StoreState)
    requires gamma0 > 1.0
  {
    && s.numCollapses >= 0
    && (forall j: nat | j < s.numCollapses :: |Ids(m, Squared(gamma0, j))| > s.maxBuckets)
    && |Ids(m, Squared(gamma0, s.numCollapses))| <= s.maxBuckets
  }

  /**
   A store that folds one end has kept some of the ids, has folded exactly when it did not keep all of them,
   and has folded at most once for each id it gave up.
   */
  ghost predicate KeepsEnd(m: multiset<real>, g: real, s: StoreState)
    requires g > 1.0
  {
    && s.buckets.Keys <= Ids(m, g)
    && (s.collapsed <==> |s.buckets| < |Ids(m, g)|)
    && (s.collapsed ==> s.numCollapses <= |Ids(m, g)| - |s.buckets|)
  }

  /** Low and high mode keep maxBuckets of the ids, or all of them when there are no more. */
  ghost predicate KeepsIds(m: multiset<real>, g: real, s: StoreState)
    requires g > 1.0
  {
    && KeepsEnd(m, g, s)
    && |s.buckets| == if |Ids(m, g)| > s.maxBuckets then s.maxBuckets else |Ids(m, g)|
  }

  ghost predicate Canonical(l: Ledger, p: SketchState, gamma0: real)
    requires gamma0 > 1.0
  {
    && Tracks(l, p)
    && AtLevel(p, gamma0)
    && !p.store.resizable
    && match p.store.kind
       case UnboundedStore => true
       case CollapsingAll => LeastLevel(l.big, gamma0, p.store)
       case _ => KeepsIds(l.big, gamma0, p.store)
  }

  /** The kept ids are the highest (or lowest) ones. */
  lemma KeepsTheEnd(m: multiset<real>, g: real, s: StoreState)
    requires g > 1.0 && Represents(m, g, s)
    ensures s.kind.CollapsingLow? ==> forall i, k | i in Ids(m, g) - s.buckets.Keys && k in s.buckets :: i < k
    ensures s.kind.CollapsingHigh? ==> forall i, k | i in Ids(m, g) - s.buckets.Keys && k in s.buckets :: k < i
  {
    hide Represents, Ids;
    forall i, k | i in Ids(m, g) - s.buckets.Keys && k in s.buckets
      ensures s.kind.CollapsingLow? ==> i < k
      ensures s.kind.CollapsingHigh? ==> k < i
    {
      DroppedIsBeyond(m, g, s, i, k);
    }
  }

  lemma DroppedIsBeyond(m: multiset<real>, g: real, s: StoreState, i: int, k: int)
    requires g > 1.0 && Represents(m, g, s) && i in Ids(m, g) && i !in s.buckets && k in s.buckets
    ensures s.kind.CollapsingLow? ==> i < k
    ensures s.kind.CollapsingHigh? ==> k < i
  {
    hide Represents, Ids;
    IdIsStored(m, g, s, i);
  }

  lemma IdIsStored(m: multiset<real>, g: real, s: StoreState, i: int)
    requires g > 1.0 && Represents(m, g, s) && i in Ids(m, g)
    ensures Clamped(ClampOf(s), i) in s.buckets
  {
    hide Cell, Sum, BucketId, ClampOf;
    var v :| v in m && v > 0.0 && BucketId(g, v) == i;
    var b := Clamped(ClampOf(s), i);
    assert Seen(g, ClampOf(s), v) == b;
    CellOccupied(m, g, ClampOf(s), b);
    assert Count(s.buckets, b) > 0;
  }

  lemma ExactKeysAreIds(m: multiset<real>, g: real, buckets: Buckets)
    requires g > 1.0 && AllPositive(m) && Positive(buckets) && Holds(m, g, Exact, buckets)
    ensures buckets.Keys == Ids(m, g)
  {
    hide Cell, BucketId;
    forall b
      ensures b in buckets <==> b in Ids(m, g)
    {
      CellOccupied(m, g, Exact, b);
      assert b in buckets <==> Count(buckets, b) > 0;
      if b in Ids(m, g) {
        var v :| v in m && v > 0.0 && BucketId(g, v) == b;
        assert Seen(g, Exact, v) == b;
      }
    }
  }

  lemma SameHistogram(m: multiset<real>, g: real, clamp: Clamp, a: Buckets, b: Buckets)
    requires g > 1.0 && Positive(a) && Positive(b)
    requires Holds(m, g, clamp, a) && Holds(m, g, clamp, b)
    ensures a == b
  {
    hide Cell;
    forall k
      ensures k in a <==> k in b
      ensures k in a ==> a[k] == b[k]
    {
      assert Count(a, k) == Count(b, k);
    }
  }

  /** Of two stores that keep equally many ids at the same end, neither can keep any that the other does not. */
  lemma SameEnd(m: multiset<real>, g: real, s: StoreState, t: StoreState)
    requires g > 1.0 && Represents(m, g, s) && Represents(m, g, t)
    requires s.buckets.Keys <= Ids(m, g) && t.buckets.Keys <= Ids(m, g)
    requires s.kind == t.kind && FoldsOneEnd(s.kind) && |s.buckets| == |t.buckets|
    ensures s.buckets.Keys == t.buckets.Keys
  {
    hide Holds, Sum, Ids, ClampOf;
    KeepsTheEnd(m, g, s);
    KeepsTheEnd(m, g, t);
    var a, b, ids := s.buckets.Keys, t.buckets.Keys, Ids(m, g);
    assert |a| == |s.buckets| && |b| == |t.buckets|;
    if i :| i in a && i !in b {
      // everything t keeps is beyond i, so s keeps it too, and i besides
      forall k | k in b
        ensures k in a
      {
        assert i in ids - b;
        assert k in a || k in ids - a;
      }
      Collections.Subset(b, a);
    } else {
      assert forall k | k in a :: k in b;
      Collections.Subset(a, b);
    }
  }

  /** The store a multiset of insertions leads to. */
  lemma CanonicalIsUnique(l: Ledger, p: SketchState, q: SketchState, gamma0: real)
    requires gamma0 > 1.0 && Canonical(l, p, gamma0) && Canonical(l, q, gamma0)
    requires p.store.kind == q.store.kind && p.store.maxBuckets == q.store.maxBuckets
    ensures p.store.buckets == q.store.buckets && p.store.total == q.store.total
    ensures p.store.collapsed == q.store.collapsed
    ensures p.zero == q.zero && p.gamma == q.gamma
    ensures (FoldsOneEnd(p.store.kind) ==> |Ids(l.big, gamma0)| <= p.store.maxBuckets + 1) ==>
              p.store.numCollapses == q.store.numCollapses
  {
    hide Holds, Sum, Ids, Squared;
    var m, s, t := l.big, p.store, q.store;
    if s.kind.CollapsingAll? {
      assert s.numCollapses == t.numCollapses;
      SameHistogram(m, p.gamma, Exact, s.buckets, t.buckets);
    } else if s.kind.UnboundedStore? {
      SameHistogram(m, p.gamma, Exact, s.buckets, t.buckets);
    } else {
      SameEndState(m, p.gamma, s, t);
    }
  }

  /** Two stores that have kept as many ids of the same items are the same but for their counters. */
  lemma SameEndState(m: multiset<real>, g: real, s: StoreState, t: StoreState)
    requires g > 1.0 && Represents(m, g, s) && Represents(m, g, t) && KeepsEnd(m, g, s) && KeepsEnd(m, g, t)
    requires s.kind == t.kind && FoldsOneEnd(s.kind) && |s.buckets| == |t.buckets|
    ensures s.buckets == t.buckets && s.total == t.total && s.collapsed == t.collapsed
    ensures |Ids(m, g)| <= |s.buckets| + 1 ==> s.numCollapses == t.numCollapses
  {
    hide Holds, Sum, Ids;
    SameEnd(m, g, s, t);
    assert ClampOf(s) == ClampOf(t) by {
      assert s.buckets == map[] <==> s.buckets.Keys == {};
      assert t.buckets == map[] <==> t.buckets.Keys == {};
    }
    SameHistogram(m, g, ClampOf(s), s.buckets, t.buckets);
  }

  // ---------- insertions keep the store canonical ----------

  lemma IdsBump(m: multiset<real>, g: real, v: real, c: nat)
    requires g > 1.0 && v > 0.0 && c > 0
    ensures Ids(Bump(m, v, c), g) == Ids(m, g) + {BucketId(g, v)}
  {
    hide BucketId;
    var n := Bump(m, v, c);
    assert forall w :: w in n <==> w in m || w == v;
    forall i
      ensures i in Ids(n, g) <==> i in Ids(m, g) + {BucketId(g, v)}
    {
      if i in Ids(n, g) {
        var w :| w in n && w > 0.0 && BucketId(g, w) == i;
      }
      if i in Ids(m, g) {
        var w :| w in m && w > 0.0 && BucketId(g, w) == i;
        assert w in n;
      }
      assert v in n;
    }
  }

  lemma {:induction false} ShrinkFindsLevel(m: multiset<real>, gamma0: real, s: StoreState, bound: int)
    requires gamma0 > 1.0 && s.kind.CollapsingAll? && Shrinkable(s.kind, bound) && s.numCollapses >= 0
    requires Matching(m, Squared(gamma0, s.numCollapses), s)
    requires forall j: nat | j < s.numCollapses :: |Ids(m, Squared(gamma0, j))| > bound
    ensures forall j: nat | j < Shrunk(s, bound).numCollapses :: |Ids(m, Squared(gamma0, j))| > bound
    decreases Measure(s)
  {
    hide Holds, Sum, Span, Ids;
    if |s.buckets| > bound {
      CollapsedFacts(s);
      var g := Squared(gamma0, s.numCollapses);
      ExactKeysAreIds(m, g, s.buckets);
      assert |Ids(m, g)| == |s.buckets.Keys| == |s.buckets|;
      CollapsedMatches(m, g, s);
      assert Squared(gamma0, s.numCollapses + 1) == g * g;
      ShrinkFindsLevel(m, gamma0, Collapsed(s), bound);
    }
  }

  lemma GrowIds(ids: set<int>, i: int)
    ensures |ids| <= |ids + {i}| <= |ids| + 1
    ensures i !in ids ==> |ids + {i}| == |ids| + 1
    ensures i in ids ==> ids + {i} == ids
  {
    if i in ids {
      assert ids + {i} == ids;
    }
  }

  /** An id that was given up is put at the folded end again: only an id never seen opens a bucket. */
  lemma DroppedGoesToEnd(m: multiset<real>, g: real, s: StoreState, v: real)
    requires g > 1.0 && Represents(m, g, s) && v > 0.0 && BucketId(g, v) in Ids(m, g)
    ensures InsertTarget(s, BucketId(g, v)) in s.buckets
  {
    hide Holds, Sum, Ids, BucketId, InsertTarget, ClampOf;
    IdIsStored(m, g, s, BucketId(g, v));
    TargetIsSeen(m, g, s, v);
  }

  /** Where an item of value v and count c goes before the bound is looked at. */
  function Added(s: StoreState, g: real, v: real, c: int): StoreState
    requires g > 1.0 && v > 0.0
  {
    s.(buckets := Add(s.buckets, InsertTarget(s, BucketId(g, v)), c))
  }

  lemma AddKeepsEnd(m: multiset<real>, g: real, s: StoreState, v: real, c: nat)
    requires g > 1.0 && Represents(m, g, s) && KeepsEnd(m, g, s) && v > 0.0 && c > 0
    ensures KeepsEnd(Bump(m, v, c), g, Added(s, g, v, c)) && Positive(Added(s, g, v, c).buckets)
    ensures |s.buckets| <= |Added(s, g, v, c).buckets| <= |s.buckets| + 1
    ensures |Added(s, g, v, c).buckets| - |s.buckets| <= |Ids(Bump(m, v, c), g)| - |Ids(m, g)| <= 1
    ensures !s.collapsed ==> |Added(s, g, v, c).buckets| == |Ids(Bump(m, v, c), g)|
  {
    hide Holds, Sum, Ids, BucketId;
    var i, t := BucketId(g, v), Added(s, g, v, c);
    var target := InsertTarget(s, i);
    IdsBump(m, g, v, c);
    GrowIds(Ids(m, g), i);
    AddFacts(s.buckets, target, c);
    assert t.buckets.Keys == s.buckets.Keys + {target};
    GrowIds(s.buckets.Keys, target);
    assert |t.buckets| == |t.buckets.Keys| && |s.buckets| == |s.buckets.Keys|;
    if !s.collapsed {
      ExactKeysAreIds(m, g, s.buckets);
    } else if i in Ids(m, g) {
      DroppedGoesToEnd(m, g, s, v);
    }
  }

  /** Folding down to a bound keeps exactly that many ids. */
  lemma {:induction false} ShrunkKeepsEnd(m: multiset<real>, g: real, s: StoreState, bound: int)
    requires g > 1.0 && KeepsEnd(m, g, s) && Positive(s.buckets)
    requires FoldsOneEnd(s.kind) && Shrinkable(s.kind, bound)
    requires s.numCollapses >= 0 && (s.collapsed <==> s.numCollapses > 0)
    ensures KeepsEnd(m, g, Shrunk(s, bound))
    ensures |Shrunk(s, bound).buckets| == if |s.buckets| > bound then bound else |s.buckets|
    decreases |s.buckets|
  {
    hide Ids, Sum, Collapsed;
    if |s.buckets| > bound {
      CollapsedFacts(s);
      FoldsAway(s);
      Collections.Subset(s.buckets.Keys, Ids(m, g));
      assert |s.buckets| == |s.buckets.Keys|;
      ShrunkKeepsEnd(m, g, Collapsed(s), bound);
    }
  }

  /** A fold at one end gives up one id. */
  lemma FoldsAway(s: StoreState)
    requires FoldsOneEnd(s.kind) && Positive(s.buckets) && |s.buckets| > 1
    ensures |Collapsed(s).buckets| == |s.buckets| - 1 && Collapsed(s).buckets.Keys <= s.buckets.Keys
  {
    hide Sum, Least, Greatest, Next, Prev;
    if s.kind.CollapsingLow? {
      FoldLowFacts(s.buckets);
      var first := First(s.buckets).key;
      FoldFacts(s.buckets, first, Next(s.buckets, first).key);
    } else {
      FoldHighFacts(s.buckets);
      var last := Last(s.buckets).key;
      FoldFacts(s.buckets, last, Prev(s.buckets, last).key);
    }
  }

  lemma InsertKeepsIds(m: multiset<real>, g: real, s: StoreState, v: real, c: nat)
    requires g > 1.0 && Represents(m, g, s) && KeepsIds(m, g, s) && !s.resizable && v > 0.0 && c > 0
    requires FoldsOneEnd(s.kind)
    ensures KeepsIds(Bump(m, v, c), g, Inserted(s, BucketId(g, v), c))
  {
    hide Holds, Sum, Ids, BucketId, InsertTarget, Shrunk, Add;
    var t := Added(s, g, v, c);
    AddKeepsEnd(m, g, s, v, c);
    ShrunkKeepsEnd(Bump(m, v, c), g, t, s.maxBuckets);
    if BucketId(g, v) in s.buckets {
      SameKeys(s, g, v, c);
    }
  }

  lemma SameKeys(s: StoreState, g: real, v: real, c: int)
    requires g > 1.0 && v > 0.0 && c > 0 && Positive(s.buckets) && BucketId(g, v) in s.buckets
    ensures |Added(s, g, v, c).buckets| == |s.buckets|
  {
    hide BucketId;
    AddFacts(s.buckets, BucketId(g, v), c);
  }

  lemma InsertKeepsLeastLevel(m: multiset<real>, gamma0: real, s: StoreState, v: real, c: nat)
    requires gamma0 > 1.0 && s.kind.CollapsingAll? && !s.resizable && v > 0.0 && c > 0 && s.numCollapses >= 0
    requires Represents(m, Squared(gamma0, s.numCollapses), s) && LeastLevel(m, gamma0, s)
    ensures LeastLevel(Bump(m, v, c), gamma0, Inserted(s, BucketId(Squared(gamma0, s.numCollapses), v), c))
  {
    hide Holds, Sum, Ids, BucketId, Squared, InsertTarget;
    var g, n := Squared(gamma0, s.numCollapses), Bump(m, v, c);
    var bid := BucketId(g, v);
    var t := Inserted(s, bid, c);
    InsertRepresents(m, g, s, v, c);
    AddMatches(m, g, s, v, c);
    forall j: nat
      ensures |Ids(n, Squared(gamma0, j))| >= |Ids(m, Squared(gamma0, j))|
    {
      IdsBump(m, Squared(gamma0, j), v, c);
      GrowIds(Ids(m, Squared(gamma0, j)), BucketId(Squared(gamma0, j), v));
    }
    AddFacts(s.buckets, InsertTarget(s, bid), c);
    var added := s.(buckets := Add(s.buckets, InsertTarget(s, bid), c));
    if bid !in s.buckets {
      ShrinkFindsLevel(n, gamma0, added, s.maxBuckets);
    }
    SquaredSum(gamma0, s.numCollapses, t.numCollapses - s.numCollapses);
    ExactKeysAreIds(n, Squared(gamma0, t.numCollapses), t.buckets);
    InsertConserves(s, bid, c);
    assert |t.buckets| == |t.buckets.Keys|;
  }

  lemma InsertKeepsCanonical(l: Ledger, p: SketchState, gamma0: real, op: Op)
    requires gamma0 > 1.0 && Canonical(l, p, gamma0) && op.count >= 0
    ensures Honest(l, p, op) && CanUpdate(p, op)
    ensures Canonical(Entered(l, p, op), Updated(p, op), gamma0)
  {
    hide WellFormed, Represents, Inserted, Removed, LeastLevel, KeepsIds, BucketId, Squared;
    UpdateTracks(l, p, op);
    UpdateKeepsLevel(p, gamma0, op);
    UpdateKeepsRange(p, op);
    if Addressable(p, op.value) && op.value >= p.minAddressable {
      if op.count > 0 {
        assert Revised(l.big, op) == Bump(l.big, op.value, op.count);
        match p.store.kind
        case UnboundedStore =>
        case CollapsingAll => InsertKeepsLeastLevel(l.big, gamma0, p.store, op.value, op.count);
        case _ => InsertKeepsIds(l.big, gamma0, p.store, op.value, op.count);
      } else {
        NothingRemoved(p.store, BucketId(p.gamma, op.value));
        assert Revised(l.big, op) == l.big;
      }
    }
  }

  lemma {:induction false} RunKeepsCanonical(l: Ledger, p: SketchState, gamma0: real, ops: seq<Op>)
    requires gamma0 > 1.0 && Canonical(l, p, gamma0) && InsertOnly(ops)
    ensures HonestRun(l, p, ops) && CanRun(p, ops)
    ensures Canonical(LedgerAfter(l, p, ops), Run(p, ops), gamma0)
    ensures Run(p, ops).store.kind == p.store.kind && Run(p, ops).store.maxBuckets == p.store.maxBuckets
    ensures Run(p, ops).minAddressable == p.minAddressable && Run(p, ops).maxAddressable == p.maxAddressable
    decreases |ops|
  {
    hide Canonical, Updated, Entered, Honest;
    if ops != [] {
      InsertKeepsCanonical(l, p, gamma0, ops[0]);
      UpdateKeepsRange(p, ops[0]);
      SameRange(Entered(l, p, ops[0]), p, Updated(p, ops[0]), ops[1..]);
      RunKeepsCanonical(Entered(l, p, ops[0]), Updated(p, ops[0]), gamma0, ops[1..]);
    }
  }

  lemma NewIsCanonical(kind: StoreType, alpha: real, minValue: real, maxStoreSize: int, dblMin: real, dblMax: real)
    requires Constructible(kind, alpha, maxStoreSize)
    ensures Canonical(NOTHING, NewSketch(kind, alpha, minValue, maxStoreSize, dblMin, dblMax), GammaOf(alpha))
  {
    var start := NewSketch(kind, alpha, minValue, maxStoreSize, dblMin, dblMax);
    NewTracks(kind, alpha, minValue, maxStoreSize, dblMin, dblMax);
    NewAtLevel(kind, alpha, minValue, maxStoreSize, dblMin, dblMax);
    assert forall g | g > 1.0 :: Ids(multiset{}, g) == {};
  }

  // ---------- main results ----------

  /**
   Two insert-only runs that bring in the same items, in any order and any grouping, end with the same
   buckets, total, collapsed flag, zero bucket and gamma.  The sketches are equal altogether in unbounded and
   uniform mode, and in low and high mode when the items have at most one distinct id too many.
   */
  lemma OrderDoesNotMatter(kind: StoreType, alpha: real, minValue: real, maxStoreSize: int, dblMin: real,
                           dblMax: real, ops: seq<Op>, other: seq<Op>)
    requires Constructible(kind, alpha, maxStoreSize) && InsertOnly(ops) && InsertOnly(other)
    ensures var start := NewSketch(kind, alpha, minValue, maxStoreSize, dblMin, dblMax);
            && HonestRun(NOTHING, start, ops) && HonestRun(NOTHING, start, other)
            && CanRun(start, ops) && CanRun(start, other)
            && (LedgerAfter(NOTHING, start, ops) == LedgerAfter(NOTHING, start, other) ==>
                  var p, q := Run(start, ops), Run(start, other);
                  && p == q.(store := q.store.(numCollapses := p.store.numCollapses))
                  && ((FoldsOneEnd(kind) ==>
                        |Ids(LedgerAfter(NOTHING, start, ops).big, GammaOf(alpha))| <= maxStoreSize + 1) ==> p == q))
  {
    hide Canonical, Ids;
    var start := NewSketch(kind, alpha, minValue, maxStoreSize, dblMin, dblMax);
    NewIsCanonical(kind, alpha, minValue, maxStoreSize, dblMin, dblMax);
    RunKeepsCanonical(NOTHING, start, GammaOf(alpha), ops);
    RunKeepsCanonical(NOTHING, start, GammaOf(alpha), other);
    if LedgerAfter(NOTHING, start, ops) == LedgerAfter(NOTHING, start, other) {
      var p, q := Run(start, ops), Run(start, other);
      CanonicalIsUnique(LedgerAfter(NOTHING, start, ops), p, q, GammaOf(alpha));
      NeverResized(LedgerAfter(NOTHING, start, ops), p, GammaOf(alpha));
      NeverResized(LedgerAfter(NOTHING, start, ops), q, GammaOf(alpha));
    }
  }

  lemma NeverResized(l: Ledger, p: SketchState, gamma0: real)
    requires gamma0 > 1.0 && Canonical(l, p, gamma0)
    ensures !p.store.resizable
  {
  }

  /** What the final store is, in terms of the items alone. */
  lemma InsertOnlyStore(kind: StoreType, alpha: real, minValue: real, maxStoreSize: int, dblMin: real,
                        dblMax: real, ops: seq<Op>)
    requires Constructible(kind, alpha, maxStoreSize) && InsertOnly(ops)
    ensures var start := NewSketch(kind, alpha, minValue, maxStoreSize, dblMin, dblMax);
            && HonestRun(NOTHING, start, ops) && CanRun(start, ops)
            && var p, m := Run(start, ops), LedgerAfter(NOTHING, start, ops).big;
            && p.store.kind == kind && p.store.maxBuckets == maxStoreSize
            && (kind.CollapsingAll? ==> LeastLevel(m, GammaOf(alpha), p.store))
            && (kind.CollapsingLow? ==>
                  && KeepsIds(m, GammaOf(alpha), p.store)
                  && forall i, k | i in Ids(m, GammaOf(alpha)) - p.store.buckets.Keys && k in p.store.buckets :: i < k)
            && (kind.CollapsingHigh? ==>
                  && KeepsIds(m, GammaOf(alpha), p.store)
                  && forall i, k | i in Ids(m, GammaOf(alpha)) - p.store.buckets.Keys && k in p.store.buckets :: k < i)
  {
    hide Represents, WellFormedSketch, LeastLevel, KeepsIds, Ids;
    var start := NewSketch(kind, alpha, minValue, maxStoreSize, dblMin, dblMax);
    NewIsCanonical(kind, alpha, minValue, maxStoreSize, dblMin, dblMax);
    RunKeepsCanonical(NOTHING, start, GammaOf(alpha), ops);
    if kind.CollapsingLow? || kind.CollapsingHigh? {
      KeepsTheEnd(LedgerAfter(NOTHING, start, ops).big, GammaOf(alpha), Run(start, ops).store);
    }
  }
}
