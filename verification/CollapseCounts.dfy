/** How often a low or high sketch has folded: the one part of it that depends on the order of insertions. */
module CollapseCounts {
  import opened Accuracy
  import opened BucketIdMapping
  import opened Histogram
  import opened MapStore
  import opened OrderIndependence
  import opened PSketch
  import opened StoreRefinement
  import opened Survivors
  import Collections

  /** Every item of the ledger is one that an insertion puts where the ledger has it. */
  ghost predicate Enterable(l: Ledger, p: SketchState) {
    && (forall v | v in l.small :: 0.0 <= v <= p.maxAddressable && v < p.minAddressable)
    && (forall v | v in l.big :: 0.0 < v <= p.maxAddressable && v >= p.minAddressable)
  }

  lemma {:induction false} RunStaysEnterable(l: Ledger, p: SketchState, ops: seq<Op>)
    requires Enterable(l, p) && HonestRun(l, p, ops) && p.minAddressable > 0.0
    ensures Enterable(LedgerAfter(l, p, ops), p)
    decreases |ops|
  {
    if ops != [] {
      RunStaysEnterable(Entered(l, p, ops[0]), p, ops[1..]);
    }
  }

  /** One operation more at the end of a run; p is the sketch whose range decides what enters the ledger. */
  lemma {:induction false} RunExtends(l: Ledger, p: SketchState, q: SketchState, ops: seq<Op>, op: Op)
    requires HonestRun(l, p, ops) && CanRun(q, ops)
    requires Honest(LedgerAfter(l, p, ops), p, op) && CanUpdate(Run(q, ops), op)
    ensures HonestRun(l, p, ops + [op]) && CanRun(q, ops + [op])
    ensures LedgerAfter(l, p, ops + [op]) == Entered(LedgerAfter(l, p, ops), p, op)
    ensures Run(q, ops + [op]) == Updated(Run(q, ops), op)
    decreases |ops|
  {
    hide Honest, CanUpdate, Entered, Updated;
    if ops == [] {
      assert ops + [op] == [op];
    } else {
      assert (ops + [op])[0] == ops[0] && (ops + [op])[1..] == ops[1..] + [op];
      RunExtends(Entered(l, p, ops[0]), p, Updated(q, ops[0]), ops[1..], op);
    }
  }

  // ---------- folds are counted one by one ----------

  /** The folds a store has made and the buckets it has left: a fold turns one of these into one of those. */
  function Spent(s: StoreState): int {
    s.numCollapses + |s.buckets|
  }

  lemma {:induction false} ShrunkSpends(s: StoreState, bound: int)
    requires FoldsOneEnd(s.kind) && Shrinkable(s.kind, bound) && Positive(s.buckets)
    ensures Spent(Shrunk(s, bound)) == Spent(s)
    decreases |s.buckets|
  {
    hide Collapsed, Sum;
    if |s.buckets| > bound {
      CollapsedFacts(s);
      FoldsAway(s);
      ShrunkSpends(Collapsed(s), bound);
    }
  }

  /** In low and high mode an insertion raises the counter by exactly the buckets that its folds do away with. */
  lemma InsertCountsFolds(s: StoreState, bid: int, count: int)
    requires WellFormed(s) && FoldsOneEnd(s.kind) && count > 0
    ensures var more := if InsertTarget(s, bid) in s.buckets then 0 else 1;
            Inserted(s, bid, count).numCollapses - s.numCollapses ==
            |s.buckets| + more - |Inserted(s, bid, count).buckets|
  {
    hide Sum, Shrunk, InsertTarget;
    var target := InsertTarget(s, bid);
    var added := s.(buckets := Add(s.buckets, target, count));
    AddFacts(s.buckets, target, count);
    if target !in s.buckets {
      assert added.buckets - {target} == s.buckets;
      RemoveShrinks(added.buckets, target);
    }
    if !(bid in s.buckets || s.resizable) {
      ShrunkSpends(added, s.maxBuckets);
    }
  }

  // ---------- the folds that an arrangement needs ----------

  /**
   The folds for d distinct ids with room for bound of them: one when the end that is folded comes last, and one
   for each id too many when it comes first.
   */
  function FoldsNeeded(d: int, bound: int, endLast: bool): int {
    if d <= bound then 0 else if endLast then 1 else d - bound
  }

  /** An id that lies at or beyond all of these, towards the end that is folded or, if !folded, towards the other. */
  ghost predicate Outermost(kind: StoreType, folded: bool, i: int, ids: set<int>) {
    if kind.CollapsingLow? == folded then forall j | j in ids :: i <= j else forall j | j in ids :: j <= i
  }

  lemma OutermostItem(m: multiset<real>, g: real, kind: StoreType, folded: bool) returns (v: real)
    requires g > 1.0 && m != multiset{} && AllPositive(m)
    ensures v in m && Outermost(kind, folded, BucketId(g, v), Ids(m, g))
  {
    hide BucketId;
    var w := Collections.InhabitedBag(m);
    assert BucketId(g, w) in Ids(m, g);
    var i := if kind.CollapsingLow? == folded then Least(Ids(m, g)) else Greatest(Ids(m, g));
    v :| v in m && v > 0.0 && BucketId(g, v) == i;
  }

  lemma ShrunkOnce(s: StoreState, bound: int)
    requires FoldsOneEnd(s.kind) && Shrinkable(s.kind, bound) && Positive(s.buckets)
    requires |s.buckets| <= bound + 1
    ensures Shrunk(s, bound) == if |s.buckets| > bound then Collapsed(s) else s
    ensures Shrunk(s, bound).numCollapses == s.numCollapses + if |s.buckets| > bound then 1 else 0
  {
    hide Collapsed, Sum;
    if |s.buckets| > bound {
      CollapsedFacts(s);
      FoldsAway(s);
    }
  }

  /** Whether the store opens a bucket for an outermost item. */
  lemma OutermostTarget(m: multiset<real>, g: real, s: StoreState, v: real, folded: bool)
    requires g > 1.0 && Represents(m, g, s) && KeepsEnd(m, g, s) && FoldsOneEnd(s.kind) && v > 0.0
    requires Outermost(s.kind, folded, BucketId(g, v), Ids(m, g)) && s.collapsed
    ensures folded ==> InsertTarget(s, BucketId(g, v)) in s.buckets
    ensures !folded && BucketId(g, v) !in Ids(m, g) ==>
              InsertTarget(s, BucketId(g, v)) == BucketId(g, v) && BucketId(g, v) !in s.buckets
  {
    hide Holds, Sum, Ids, BucketId;
    assert s.buckets.Keys != {};
    assert forall k | k in s.buckets.Keys :: k in Ids(m, g);
    var ends := (Least(s.buckets.Keys), Greatest(s.buckets.Keys));
  }

  lemma OutermostAdded(m: multiset<real>, g: real, s: StoreState, v: real, folded: bool)
    requires g > 1.0 && Represents(m, g, s) && KeepsEnd(m, g, s) && FoldsOneEnd(s.kind) && v > 0.0
    requires Outermost(s.kind, folded, BucketId(g, v), Ids(m, g)) && s.collapsed
    ensures |Added(s, g, v, 1).buckets| ==
            |s.buckets| + if folded then 0 else |Ids(Bump(m, v, 1), g)| - |Ids(m, g)|
  {
    hide Holds, Sum, Ids, BucketId, InsertTarget, Outermost;
    var i, t := BucketId(g, v), Added(s, g, v, 1);
    OutermostTarget(m, g, s, v, folded);
    AddKeepsEnd(m, g, s, v, 1);
    IdsBump(m, g, v, 1);
    GrowIds(Ids(m, g), i);
    assert t.buckets.Keys == s.buckets.Keys + {InsertTarget(s, i)};
    GrowIds(s.buckets.Keys, InsertTarget(s, i));
    assert |t.buckets| == |t.buckets.Keys| && |s.buckets| == |s.buckets.Keys|;
  }

  lemma OutermostFolds(m: multiset<real>, g: real, s: StoreState, v: real, endLast: bool)
    requires g > 1.0 && Represents(m, g, s) && KeepsIds(m, g, s) && !s.resizable && FoldsOneEnd(s.kind) && v > 0.0
    requires Outermost(s.kind, endLast, BucketId(g, v), Ids(m, g))
    requires s.numCollapses == FoldsNeeded(|Ids(m, g)|, s.maxBuckets, endLast)
    ensures Inserted(s, BucketId(g, v), 1).numCollapses ==
            FoldsNeeded(|Ids(Bump(m, v, 1), g)|, s.maxBuckets, endLast)
  {
    hide Holds, Sum, Ids, BucketId, InsertTarget, Shrunk, Outermost, Add;
    var t := Added(s, g, v, 1);
    AddKeepsEnd(m, g, s, v, 1);
    if s.collapsed {
      OutermostAdded(m, g, s, v, endLast);
    }
    ShrunkOnce(t, s.maxBuckets);
    if BucketId(g, v) in s.buckets {
      SameKeys(s, g, v, 1);
    }
  }

  /** The items of a ledger in an order that brings the folded end last, or first, with the folds that this takes. */
  lemma {:induction false} Arranged(l: Ledger, start: SketchState, gamma0: real, endLast: bool) returns (ops: seq<Op>)
    requires gamma0 > 1.0 && Canonical(NOTHING, start, gamma0) && FoldsOneEnd(start.store.kind)
    requires start.store.numCollapses == 0 && Enterable(l, start)
    ensures InsertOnly(ops) && HonestRun(NOTHING, start, ops) && CanRun(start, ops)
    ensures LedgerAfter(NOTHING, start, ops) == l
    ensures Run(start, ops).store.numCollapses ==
            FoldsNeeded(|Ids(l.big, gamma0)|, start.store.maxBuckets, endLast)
    decreases |l.small| + |l.big|
  {
    hide Canonical, Ids;
    if l.small != multiset{} {
      var v := Collections.InhabitedBag(l.small);
      ops := Arranged(l.(small := l.small - multiset{v}), start, gamma0, endLast);
      SmallLast(l, start, gamma0, ops, v);
      ops := ops + [Op(v, 1)];
    } else if l.big != multiset{} {
      var v := OutermostItem(l.big, gamma0, start.store.kind, endLast);
      ops := Arranged(l.(big := l.big - multiset{v}), start, gamma0, endLast);
      OutermostLast(l, start, gamma0, ops, v, endLast);
      ops := ops + [Op(v, 1)];
    } else {
      ops := [];
      assert l == NOTHING;
      NoIds(gamma0);
      RoomForNone(start, gamma0);
    }
  }

  lemma RoomForNone(p: SketchState, gamma0: real)
    requires gamma0 > 1.0 && Canonical(NOTHING, p, gamma0) && FoldsOneEnd(p.store.kind)
    ensures p.store.maxBuckets > 0 && p.minAddressable > 0.0
  {
  }

  /** A run brought to the point before its last item, which is small. */
  lemma SmallLast(l: Ledger, start: SketchState, gamma0: real, ops: seq<Op>, v: real)
    requires gamma0 > 1.0 && Canonical(NOTHING, start, gamma0) && Enterable(l, start) && v in l.small
    requires InsertOnly(ops) && HonestRun(NOTHING, start, ops) && CanRun(start, ops)
    requires LedgerAfter(NOTHING, start, ops) == l.(small := l.small - multiset{v})
    ensures InsertOnly(ops + [Op(v, 1)])
    ensures HonestRun(NOTHING, start, ops + [Op(v, 1)]) && CanRun(start, ops + [Op(v, 1)])
    ensures LedgerAfter(NOTHING, start, ops + [Op(v, 1)]) == l
    ensures Run(start, ops + [Op(v, 1)]).store == Run(start, ops).store
  {
    hide Canonical;
    var op := Op(v, 1);
    var fewer, p := l.(small := l.small - multiset{v}), Run(start, ops);
    RunKeepsCanonical(NOTHING, start, gamma0, ops);
    InsertKeepsCanonical(fewer, p, gamma0, op);
    RunExtends(NOTHING, start, start, ops, op);
    assert Revised(fewer.small, op) == l.small;
  }

  /** The same when the last item is an outermost one. */
  lemma OutermostLast(l: Ledger, start: SketchState, gamma0: real, ops: seq<Op>, v: real, endLast: bool)
    requires gamma0 > 1.0 && Canonical(NOTHING, start, gamma0) && Enterable(l, start) && v in l.big
    requires FoldsOneEnd(start.store.kind)
    requires InsertOnly(ops) && HonestRun(NOTHING, start, ops) && CanRun(start, ops)
    requires LedgerAfter(NOTHING, start, ops) == l.(big := l.big - multiset{v})
    requires Outermost(start.store.kind, endLast, BucketId(gamma0, v), Ids(l.big, gamma0))
    requires Run(start, ops).store.numCollapses ==
             FoldsNeeded(|Ids(l.big - multiset{v}, gamma0)|, start.store.maxBuckets, endLast)
    ensures InsertOnly(ops + [Op(v, 1)])
    ensures HonestRun(NOTHING, start, ops + [Op(v, 1)]) && CanRun(start, ops + [Op(v, 1)])
    ensures LedgerAfter(NOTHING, start, ops + [Op(v, 1)]) == l
    ensures Run(start, ops + [Op(v, 1)]).store.numCollapses ==
            FoldsNeeded(|Ids(l.big, gamma0)|, start.store.maxBuckets, endLast)
  {
    hide FoldsNeeded, Canonical, KeepsIds, Represents, BucketId, Ids, Outermost, Inserted, Updated;
    hide Run, LedgerAfter, HonestRun, CanRun;
    var op, few := Op(v, 1), l.big - multiset{v};
    var fewer, p := l.(big := few), Run(start, ops);
    RunKeepsCanonical(NOTHING, start, gamma0, ops);
    InsertKeepsCanonical(fewer, p, gamma0, op);
    RunExtends(NOTHING, start, start, ops, op);
    assert Bump(few, v, 1) == l.big == Revised(few, op);
    IdsBump(few, gamma0, v, 1);
    OneEndParts(fewer, p, gamma0);
    BigInserted(p, v);
    FewerOutermost(start.store.kind, endLast, BucketId(gamma0, v), Ids(few, gamma0), Ids(l.big, gamma0));
    OutermostFolds(few, gamma0, p.store, v, endLast);
  }

  lemma FewerOutermost(kind: StoreType, folded: bool, i: int, few: set<int>, ids: set<int>)
    requires Outermost(kind, folded, i, ids) && few <= ids
    ensures Outermost(kind, folded, i, few)
  {
  }

  lemma OneEndParts(l: Ledger, p: SketchState, gamma0: real)
    requires gamma0 > 1.0 && Canonical(l, p, gamma0) && FoldsOneEnd(p.store.kind)
    ensures WellFormedSketch(p) && p.gamma == gamma0 && !p.store.resizable
    ensures Represents(l.big, gamma0, p.store) && KeepsIds(l.big, gamma0, p.store)
  {
    hide Represents, KeepsIds, WellFormedSketch;
  }

  lemma BigInserted(p: SketchState, v: real)
    requires WellFormedSketch(p) && 0.0 <= v <= p.maxAddressable && v >= p.minAddressable
    ensures Updated(p, Op(v, 1)).store == Inserted(p.store, BucketId(p.gamma, v), 1)
  {
    hide WellFormed, Inserted, BucketId;
  }

  // ---------- main results ----------

  /** An insert-only run folds exactly when there are too many ids, and at most once for each that is too many. */
  lemma CollapseCountRange(kind: StoreType, alpha: real, minValue: real, maxStoreSize: int, dblMin: real,
                           dblMax: real, ops: seq<Op>)
    requires Constructible(kind, alpha, maxStoreSize) && FoldsOneEnd(kind) && InsertOnly(ops)
    ensures var start := NewSketch(kind, alpha, minValue, maxStoreSize, dblMin, dblMax);
            && HonestRun(NOTHING, start, ops) && CanRun(start, ops)
            && var excess := |Ids(LedgerAfter(NOTHING, start, ops).big, GammaOf(alpha))| - maxStoreSize;
            && var folds := Run(start, ops).store.numCollapses;
            && (if excess <= 0 then folds == 0 else 1 <= folds <= excess)
  {
    hide Ids, Holds, Sum;
    var start := NewSketch(kind, alpha, minValue, maxStoreSize, dblMin, dblMax);
    NewIsCanonical(kind, alpha, minValue, maxStoreSize, dblMin, dblMax);
    RunKeepsCanonical(NOTHING, start, GammaOf(alpha), ops);
  }

  /** Both ends of that range are reached by the same items, in an order that brings the folded end last or first. */
  lemma CollapseCountExtremes(kind: StoreType, alpha: real, minValue: real, maxStoreSize: int, dblMin: real,
                              dblMax: real, ops: seq<Op>, endLast: bool) returns (other: seq<Op>)
    requires Constructible(kind, alpha, maxStoreSize) && FoldsOneEnd(kind) && InsertOnly(ops)
    ensures var start := NewSketch(kind, alpha, minValue, maxStoreSize, dblMin, dblMax);
            && HonestRun(NOTHING, start, ops) && SameItems(start, ops, other)
            && Run(start, other).store.numCollapses ==
               FoldsNeeded(|Ids(LedgerAfter(NOTHING, start, ops).big, GammaOf(alpha))|, maxStoreSize, endLast)
  {
    hide Ids, Canonical, FoldsNeeded, Enterable;
    var start := NewSketch(kind, alpha, minValue, maxStoreSize, dblMin, dblMax);
    NewIsCanonical(kind, alpha, minValue, maxStoreSize, dblMin, dblMax);
    RunKeepsCanonical(NOTHING, start, GammaOf(alpha), ops);
    RoomForNone(start, GammaOf(alpha));
    NothingEnterable(start);
    RunStaysEnterable(NOTHING, start, ops);
    other := Arranged(LedgerAfter(NOTHING, start, ops), start, GammaOf(alpha), endLast);
  }

  lemma NothingEnterable(p: SketchState)
    ensures Enterable(NOTHING, p)
  {
  }

  /** Another insert-only run with the items of ops, in any order and any grouping. */
  ghost predicate SameItems(start: SketchState, ops: seq<Op>, other: seq<Op>)
    requires HonestRun(NOTHING, start, ops)
  {
    && InsertOnly(other) && HonestRun(NOTHING, start, other) && CanRun(start, other)
    && LedgerAfter(NOTHING, start, other) == LedgerAfter(NOTHING, start, ops)
  }

  /** The counter does not depend on the order of the insertions if and only if at most one distinct id is too many. */
  lemma CollapseCountOrderIndependent(kind: StoreType, alpha: real, minValue: real, maxStoreSize: int, dblMin: real,
                                      dblMax: real, ops: seq<Op>)
    requires Constructible(kind, alpha, maxStoreSize) && FoldsOneEnd(kind) && InsertOnly(ops)
    ensures var start := NewSketch(kind, alpha, minValue, maxStoreSize, dblMin, dblMax);
            && HonestRun(NOTHING, start, ops) && CanRun(start, ops)
            && ((forall other | SameItems(start, ops, other) ::
                   Run(start, other).store.numCollapses == Run(start, ops).store.numCollapses)
                <==> |Ids(LedgerAfter(NOTHING, start, ops).big, GammaOf(alpha))| <= maxStoreSize + 1)
  {
    hide Ids;
    var start := NewSketch(kind, alpha, minValue, maxStoreSize, dblMin, dblMax);
    CollapseCountRange(kind, alpha, minValue, maxStoreSize, dblMin, dblMax, ops);
    forall other | SameItems(start, ops, other)
      ensures |Ids(LedgerAfter(NOTHING, start, ops).big, GammaOf(alpha))| <= maxStoreSize + 1 ==>
                Run(start, other).store.numCollapses == Run(start, ops).store.numCollapses
    {
      CollapseCountRange(kind, alpha, minValue, maxStoreSize, dblMin, dblMax, other);
    }
    var fewest := CollapseCountExtremes(kind, alpha, minValue, maxStoreSize, dblMin, dblMax, ops, true);
    var most := CollapseCountExtremes(kind, alpha, minValue, maxStoreSize, dblMin, dblMax, ops, false);
    assert SameItems(start, ops, fewest) && SameItems(start, ops, most);
  }

  // ---------- the smallest example ----------

  /**
   With one bucket, ids 1, 2, 3 fold twice, while 3, 2, 1 fold once, the last item going straight to the
   folded bucket.
   */
  lemma CollapseCountDependsOnOrder()
    ensures var s := Fresh(CollapsingLow, false, 1);
            && WellFormed(s)
            && var a := s.(buckets := map[3 := 3], total := 3, collapsed := true, numCollapses := 2);
            && After(After(After(s, 1), 2), 3) == a
            && After(After(After(s, 3), 2), 1) == a.(numCollapses := 1)
  {
    hide After, WellFormed;
    var s := Fresh(CollapsingLow, false, 1);
    FirstItem(s, 1);
    SecondItem(After(s, 1), 1, 2);
    var up := After(After(s, 1), 2);
    assert up.buckets == map[2 := 2];
    SecondItem(up, 2, 3);
    FirstItem(s, 3);
    SecondItem(After(s, 3), 3, 2);
    LastItem(After(After(s, 3), 2), 3, 1);
  }

  /** One more item of this id. */
  ghost function After(s: StoreState, bid: int): StoreState {
    if WellFormed(s) then Inserted(s, bid, 1) else s
  }

  lemma FirstItem(s: StoreState, b: int)
    requires s == Fresh(CollapsingLow, false, 1)
    ensures WellFormed(s) && WellFormed(After(s, b))
    ensures After(s, b) == s.(buckets := map[b := 1], total := 1)
  {
    InsertConserves(s, b, 1);
    assert Add(s.buckets, b, 1) == map[b := 1];
  }

  lemma SecondItem(s: StoreState, b: int, c: int)
    requires WellFormed(s) && s.kind.CollapsingLow? && !s.resizable && s.maxBuckets == 1
    requires s.buckets.Keys == {b} && b != c && (s.collapsed ==> b < c)
    ensures WellFormed(After(s, c))
    ensures var top := if b < c then c else b;
            After(s, c) == s.(buckets := map[top := s.buckets[b] + 1], total := s.total + 1, collapsed := true,
                              numCollapses := s.numCollapses + 1)
  {
    hide Sum, Least, Greatest, Next, Collapsed, Shrunk;
    InsertConserves(s, c, 1);
    AddFacts(s.buckets, c, 1);
    var m := s.buckets[c := 1];
    assert m == Add(s.buckets, c, 1);
    assert m.Keys == {b, c} && |m| == |m.Keys|;
    assert InsertTarget(s, c) == c by {
      OnlyKeyIsLeast(s.buckets, b);
    }
    var added := s.(buckets := m);
    ShrunkOnce(added, 1);
    if b < c {
      FoldTwo(added, b, c);
    } else {
      FoldTwo(added, c, b);
    }
  }

  lemma LastItem(s: StoreState, b: int, c: int)
    requires WellFormed(s) && s.kind.CollapsingLow? && s.collapsed && s.buckets.Keys == {b} && c < b
    ensures After(s, c) == s.(buckets := map[b := s.buckets[b] + 1], total := s.total + 1)
  {
    hide Sum, Least, Greatest, Shrunk;
    OnlyKeyIsLeast(s.buckets, b);
    assert InsertTarget(s, c) == b;
    assert Add(s.buckets, b, 1) == map[b := s.buckets[b] + 1];
    AddFacts(s.buckets, b, 1);
    if !s.resizable {
      NoFoldNeeded(s.(buckets := Add(s.buckets, b, 1)), s.maxBuckets);
    }
  }

  lemma NoFoldNeeded(s: StoreState, bound: int)
    requires Shrinkable(s.kind, bound) && Positive(s.buckets) && |s.buckets| <= bound
    ensures Shrunk(s, bound) == s
  {
  }

  lemma OnlyKeyIsLeast(m: Buckets, b: int)
    requires m.Keys == {b}
    ensures Least(m.Keys) == b
  {
  }

  lemma FoldTwo(s: StoreState, b: int, c: int)
    requires s.kind.CollapsingLow? && s.buckets.Keys == {b, c} && b < c
    ensures Collapsed(s) == Marked(s, map[c := s.buckets[b] + s.buckets[c]])
  {
    assert b in s.buckets && c in s.buckets;
    assert Least(s.buckets.Keys) == b;
    assert Next(s.buckets, b) == At(c);
    assert Fold(s.buckets, b, c) == map[c := s.buckets[b] + s.buckets[c]];
  }
}
