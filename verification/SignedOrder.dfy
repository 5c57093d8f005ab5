/** Without removals the signed sketch too depends only on which items arrived, not on their order. */
module SignedOrder {
  import opened Accuracy
  import opened BucketIdMapping
  import opened GSketch
  import opened Histogram
  import opened MapStore
  import opened OrderIndependence
  import opened PSketch
  import opened SignedAccuracy
  import opened SignedRounds
  import opened StoreRefinement
  import opened Survivors
  import Collections

  // ---------- the canonical stores of a ledger ----------

  ghost function IdsBoth(l: SignedLedger, g: real): nat
    requires g > 1.0
  {
    |Ids(l.neg, g)| + |Ids(l.pos, g)|
  }

  /** Uniform mode stops at the least number of rounds after which the ids of both signs together fit. */
  ghost predicate LeastRound(l: SignedLedger, gamma0: real, maxSize: int, k: nat)
    requires gamma0 > 1.0
  {
    && (forall j: nat | j < k :: IdsBoth(l, Squared(gamma0, j)) > maxSize)
    && IdsBoth(l, Squared(gamma0, k)) <= maxSize
  }

  /** With f ids on the far side and n on the near one: the far side gives way, down to one bucket. */
  function FarKept(f: int, n: int, maxSize: int): int {
    if f + n <= maxSize then f
    else if n < maxSize then maxSize - n
    else if f > 1 then 1 else f
  }

  function NearKept(f: int, n: int, maxSize: int): int {
    if f + n <= maxSize || n < maxSize then n else maxSize - if f > 1 then 1 else f
  }

  ghost predicate KeepsPair(far: multiset<real>, near: multiset<real>, g: real, s: StoreState, t: StoreState,
                            maxSize: int)
    requires g > 1.0
  {
    && KeepsEnd(far, g, s) && KeepsEnd(near, g, t)
    && |s.buckets| == FarKept(|Ids(far, g)|, |Ids(near, g)|, maxSize)
    && |t.buckets| == NearKept(|Ids(far, g)|, |Ids(near, g)|, maxSize)
  }

  ghost predicate CanonicalStores(l: SignedLedger, g: SignedState, gamma0: real, k: nat)
    requires gamma0 > 1.0 && g.gamma > 1.0
  {
    match g.kind
    case UnboundedStore => true
    case CollapsingAll => LeastRound(l, gamma0, g.maxSize, k)
    case CollapsingLow => KeepsPair(l.neg, l.pos, g.gamma, g.neg, g.pos, g.maxSize)
    case CollapsingHigh => KeepsPair(l.pos, l.neg, g.gamma, g.pos, g.neg, g.maxSize)
  }

  ghost predicate CanonicalSigned(l: SignedLedger, g: SignedState, gamma0: real, k: nat)
    requires gamma0 > 1.0
  {
    SignedTracks(l, g, gamma0, k) && CanonicalStores(l, g, gamma0, k)
  }

  /** What two sketches have in common that hold the same items, whatever folding has brought them there. */
  predicate SameSketch(p: SignedState, q: SignedState) {
    && p.gamma == q.gamma && p.zero == q.zero
    && p.neg.buckets == q.neg.buckets && p.neg.total == q.neg.total
    && p.pos.buckets == q.pos.buckets && p.pos.total == q.pos.total
    && (!p.kind.CollapsingAll? ==> p.neg.collapsed == q.neg.collapsed && p.pos.collapsed == q.pos.collapsed)
  }

  /** Neither store has given up more than one id. */
  ghost predicate AlmostAllKept(l: SignedLedger, g: SignedState)
    requires g.gamma > 1.0
  {
    |Ids(l.neg, g.gamma)| <= |g.neg.buckets| + 1 && |Ids(l.pos, g.gamma)| <= |g.pos.buckets| + 1
  }

  lemma CanonicalIsUniqueSigned(l: SignedLedger, p: SignedState, q: SignedState, gamma0: real, j: nat, k: nat)
    requires gamma0 > 1.0 && CanonicalSigned(l, p, gamma0, j) && CanonicalSigned(l, q, gamma0, k)
    requires p.kind == q.kind && p.maxSize == q.maxSize
    ensures SameSketch(p, q) && (p.kind.CollapsingAll? ==> j == k)
    ensures FoldsOneEnd(p.kind) && AlmostAllKept(l, p) ==> NumCollapses(p) == NumCollapses(q)
  {
    hide Holds, Sum, Ids, Squared;
    if FoldsOneEnd(p.kind) {
      SameEndState(l.neg, p.gamma, p.neg, q.neg);
      SameEndState(l.pos, p.gamma, p.pos, q.pos);
    } else {
      assert p.kind.CollapsingAll? ==> j == k;
      SameHistogram(l.neg, p.gamma, Exact, p.neg.buckets, q.neg.buckets);
      SameHistogram(l.pos, p.gamma, Exact, p.pos.buckets, q.pos.buckets);
    }
  }

  // ---------- low and high mode ----------

  /** From items m in store s to items n in store t: at most one bucket more, and none without an id more. */
  ghost predicate Grown(m: multiset<real>, s: StoreState, n: multiset<real>, t: StoreState, g: real)
    requires g > 1.0
  {
    && KeepsEnd(n, g, t)
    && |s.buckets| <= |t.buckets| <= |s.buckets| + 1
    && |t.buckets| - |s.buckets| <= |Ids(n, g)| - |Ids(m, g)| <= 1
    && (|s.buckets| == |Ids(m, g)| ==> |t.buckets| == |Ids(n, g)|)
  }

  lemma ChangedGrows(m: multiset<real>, g: real, s: StoreState, op: Op)
    requires g > 1.0 && Represents(m, g, s) && KeepsEnd(m, g, s) && s.resizable && op.value > 0.0 && op.count >= 0
    ensures Grown(m, s, Revised(m, op), Changed(s, BucketId(g, op.value), op.count), g)
  {
    hide Holds, Sum, Ids, BucketId, InsertTarget, Add;
    if op.count > 0 {
      AddKeepsEnd(m, g, s, op.value, op.count);
      assert Revised(m, op) == Bump(m, op.value, op.count);
    } else {
      NothingRemoved(s, BucketId(g, op.value));
      assert Revised(m, op) == m;
    }
  }

  /** The counts that the resizing of a pair leaves are those of the items, by cases. */
  lemma PairCounts(f: int, n: int, f1: int, n1: int, a: int, b: int, maxSize: int)
    requires maxSize >= 2 && f >= 0 && n >= 0
    requires (n1 == n && b == NearKept(f, n, maxSize)) || (f1 == f && a == FarKept(f, n, maxSize))
    requires var c := FarKept(f, n, maxSize);
             0 <= a - c <= f1 - f <= 1 && (c == f ==> a == f1)
    requires var d := NearKept(f, n, maxSize);
             0 <= b - d <= n1 - n <= 1 && (d == n ==> b == n1)
    ensures a + b <= maxSize ==> a == FarKept(f1, n1, maxSize) && b == NearKept(f1, n1, maxSize)
    ensures a + b > maxSize && b < maxSize ==>
              b == NearKept(f1, n1, maxSize) && FarKept(f1, n1, maxSize) == maxSize - b < a
    ensures a + b > maxSize && b >= maxSize ==>
              && FarKept(f1, n1, maxSize) == (if a > 1 then 1 else a)
              && NearKept(f1, n1, maxSize) == maxSize - FarKept(f1, n1, maxSize) <= b
  {
  }

  function FittedIfNeeded(far: StoreState, near: StoreState, maxSize: int): (StoreState, StoreState)
    requires WellFormed(far) && WellFormed(near) && far.resizable && near.resizable && maxSize >= 2
    requires Shrinkable(far.kind, 1) && Shrinkable(near.kind, 1)
  {
    if |far.buckets| + |near.buckets| <= maxSize then (far, near) else FittedPair(far, near, maxSize)
  }

  /** The resizing keeps of either side what it has room for. */
  lemma FittedKeepsEnds(far: multiset<real>, near: multiset<real>, g: real, s: StoreState, t: StoreState, maxSize: int)
    requires g > 1.0 && maxSize >= 2 && KeepsEnd(far, g, s) && KeepsEnd(near, g, t)
    requires WellFormed(s) && WellFormed(t) && s.resizable && t.resizable
    requires FoldsOneEnd(s.kind) && FoldsOneEnd(t.kind)
    ensures var r, a, b := FittedIfNeeded(s, t, maxSize), |s.buckets|, |t.buckets|;
            && KeepsEnd(far, g, r.0) && KeepsEnd(near, g, r.1)
            && (a + b <= maxSize ==> |r.0.buckets| == a && |r.1.buckets| == b)
            && (a + b > maxSize && b < maxSize ==>
                  |r.0.buckets| == (if a > maxSize - b then maxSize - b else a) && |r.1.buckets| == b)
            && (a + b > maxSize && b >= maxSize ==>
                  && |r.0.buckets| == (if a > 1 then 1 else a)
                  && |r.1.buckets| == if b > maxSize - |r.0.buckets| then maxSize - |r.0.buckets| else b)
  {
    hide Ids, Sum, Shrunk, KeepsEnd;
    if |s.buckets| + |t.buckets| > maxSize {
      if |t.buckets| < maxSize {
        ShrunkKeepsEnd(far, g, s, maxSize - |t.buckets|);
      } else {
        ShrunkKeepsEnd(far, g, s, 1);
        ShrunkKeepsEnd(near, g, t, maxSize - |Shrunk(s, 1).buckets|);
      }
    }
  }

  /** After one item has come in on one side, the resizing leaves the canonical pair again. */
  lemma PairStaysCanonical(far: multiset<real>, near: multiset<real>, g: real, s: StoreState, t: StoreState,
                           far1: multiset<real>, near1: multiset<real>, s1: StoreState, t1: StoreState, maxSize: int)
    requires g > 1.0 && maxSize >= 2 && KeepsPair(far, near, g, s, t, maxSize)
    requires Grown(far, s, far1, s1, g) && Grown(near, t, near1, t1, g)
    requires (near1 == near && t1.buckets == t.buckets) || (far1 == far && s1.buckets == s.buckets)
    requires WellFormed(s1) && WellFormed(t1) && s1.resizable && t1.resizable
    requires FoldsOneEnd(s1.kind) && FoldsOneEnd(t1.kind)
    ensures var r := FittedIfNeeded(s1, t1, maxSize); KeepsPair(far1, near1, g, r.0, r.1, maxSize)
  {
    hide Ids, FittedIfNeeded, FarKept, NearKept, KeepsEnd, WellFormed;
    PairCounts(|Ids(far, g)|, |Ids(near, g)|, |Ids(far1, g)|, |Ids(near1, g)|, |s1.buckets|, |t1.buckets|, maxSize);
    FittedKeepsEnds(far1, near1, g, s1, t1, maxSize);
  }

  /** One item in: one of the two stores takes it, the other stays as it is. */
  lemma PlacedGrows(l: SignedLedger, g: SignedState, gamma0: real, k: nat, op: Op)
    requires gamma0 > 1.0 && SignedTracks(l, g, gamma0, k) && op.count >= 0
    requires HonestSigned(l, g, op) && CanUpdateSigned(g, op)
    requires KeepsEnd(l.neg, g.gamma, g.neg) && KeepsEnd(l.pos, g.gamma, g.pos)
    ensures var n, h := EnteredSigned(l, g, op), Placed(g, op);
            && h.gamma == g.gamma && h.kind == g.kind && h.maxSize == g.maxSize
            && Grown(l.neg, g.neg, n.neg, h.neg, g.gamma) && Grown(l.pos, g.pos, n.pos, h.pos, g.gamma)
            && ((n.neg == l.neg && h.neg == g.neg) || (n.pos == l.pos && h.pos == g.pos))
  {
    hide Represents, WellFormed, Changed, BucketId, KeepsEnd, Squared, Ids;
    SameIsGrown(l.neg, g.neg, g.gamma);
    SameIsGrown(l.pos, g.pos, g.gamma);
    if SignedAddressable(g, op.value) && Abs(op.value) >= g.minAddressable {
      if op.value > 0.0 {
        ChangedGrows(l.pos, g.gamma, g.pos, op);
      } else {
        ChangedGrows(l.neg, g.gamma, g.neg, Op(-op.value, op.count));
      }
    }
  }

  lemma SameIsGrown(m: multiset<real>, s: StoreState, g: real)
    requires g > 1.0 && KeepsEnd(m, g, s)
    ensures Grown(m, s, m, s, g)
  {
    hide KeepsEnd, Ids;
  }

  lemma InsertKeepsPair(l: SignedLedger, g: SignedState, gamma0: real, k: nat, op: Op)
    requires gamma0 > 1.0 && CanonicalSigned(l, g, gamma0, k) && FoldsOneEnd(g.kind) && op.count >= 0
    requires HonestSigned(l, g, op) && CanUpdateSigned(g, op)
    ensures UpdatedSigned(g, op).gamma == g.gamma && UpdatedSigned(g, op).kind == g.kind
    ensures CanonicalStores(EnteredSigned(l, g, op), UpdatedSigned(g, op), gamma0, k)
  {
    hide Represents, WellFormed, Placed, EnteredSigned, KeepsEnd, Grown, FittedPair, FarKept, NearKept;
    hide HonestSigned, Ids, Squared;
    PairParts(l, g, gamma0, k);
    PlacedGrows(l, g, gamma0, k, op);
    PlacedConsistent(g, op);
    var n, h := EnteredSigned(l, g, op), Placed(g, op);
    if g.kind.CollapsingLow? {
      PairStaysCanonical(l.neg, l.pos, g.gamma, g.neg, g.pos, n.neg, n.pos, h.neg, h.pos, g.maxSize);
    } else {
      PairStaysCanonical(l.pos, l.neg, g.gamma, g.pos, g.neg, n.pos, n.neg, h.pos, h.neg, g.maxSize);
    }
  }

  lemma PairParts(l: SignedLedger, g: SignedState, gamma0: real, k: nat)
    requires gamma0 > 1.0 && CanonicalSigned(l, g, gamma0, k) && FoldsOneEnd(g.kind)
    ensures g.gamma > 1.0 && KeepsEnd(l.neg, g.gamma, g.neg) && KeepsEnd(l.pos, g.gamma, g.pos)
    ensures g.maxSize >= 2
  {
  }

  // ---------- uniform mode ----------

  /** Every round of the loop is made at a resolution at which the ids do not fit. */
  lemma {:induction false} FittedFindsRound(l: SignedLedger, g: SignedState, gamma0: real, k: nat)
    requires gamma0 > 1.0 && Consistent(g) && g.kind.CollapsingAll? && Mirrors(l, g) && AtRound(g, gamma0, k)
    requires forall j: nat | j < k :: IdsBoth(l, Squared(gamma0, j)) > g.maxSize
    ensures forall j: nat | j < k + Rounds(g) :: IdsBoth(l, Squared(gamma0, j)) > g.maxSize
    decreases SpanBoth(g)
  {
    hide WellFormed, Represents, CollapsedIfAny, Span, Squared, Ids;
    FoldedBothFacts(g);
    if Buckets2(g) > g.maxSize {
      BucketsAreIds(l, g);
      FoldedBothMirrors(l, g, gamma0, k);
      FittedFindsRound(l, FoldedBoth(g), gamma0, k + 1);
    }
  }

  lemma MoreItemsMoreIds(l: SignedLedger, range: SignedState, op: Op, g: real)
    requires g > 1.0 && op.count >= 0 && HonestSigned(l, range, op)
    ensures IdsBoth(EnteredSigned(l, range, op), g) >= IdsBoth(l, g)
  {
    hide BucketId;
    var n := EnteredSigned(l, range, op);
    assert forall v | v in l.neg :: v in n.neg;
    assert forall v | v in l.pos :: v in n.pos;
    Collections.Subset(Ids(l.neg, g), Ids(n.neg, g));
    Collections.Subset(Ids(l.pos, g), Ids(n.pos, g));
  }

  lemma InsertKeepsLeastRound(l: SignedLedger, g: SignedState, gamma0: real, k: nat, op: Op, r: nat)
    requires gamma0 > 1.0 && CanonicalSigned(l, g, gamma0, k) && g.kind.CollapsingAll? && op.count >= 0
    requires HonestSigned(l, g, op) && CanUpdateSigned(g, op)
    requires SignedTracks(EnteredSigned(l, g, op), UpdatedSigned(g, op), gamma0, r)
    requires UpdatedSigned(g, op).kind == g.kind && UpdatedSigned(g, op).maxSize == g.maxSize
    ensures r == k + UpdateRounds(g, op)
    ensures LeastRound(EnteredSigned(l, g, op), gamma0, g.maxSize, r)
  {
    hide Represents, WellFormed, Placed, EnteredSigned, HonestSigned, Ids, IdsBoth, Rounds, FittedAll, Squared, Span;
    var n, h, t := EnteredSigned(l, g, op), Placed(g, op), UpdatedSigned(g, op);
    PlacedMirrors(l, g, gamma0, k, op);
    PlacedConsistent(g, op);
    PlacedCounts(g, op, true);
    forall j: nat | j < k
      ensures IdsBoth(n, Squared(gamma0, j)) > g.maxSize
    {
      MoreItemsMoreIds(l, g, op, Squared(gamma0, j));
    }
    FittedFindsRound(n, h, gamma0, k);
    SameExponent(l, g, gamma0, k, op, r);
    FinalIdsFit(n, t, gamma0, r);
  }

  lemma SameExponent(l: SignedLedger, g: SignedState, gamma0: real, k: nat, op: Op, r: nat)
    requires gamma0 > 1.0 && SignedTracks(l, g, gamma0, k) && g.kind.CollapsingAll?
    requires HonestSigned(l, g, op) && CanUpdateSigned(g, op)
    requires UpdatedSigned(g, op).gamma == Squared(gamma0, r)
    ensures r == k + UpdateRounds(g, op)
  {
    hide Represents, WellFormed, UpdatedSigned, UpdateRounds, Squared, HonestSigned;
    UpdateCounts(l, g, gamma0, k, op, true);
    SquaredSum(gamma0, k, UpdateRounds(g, op));
    if r < k + UpdateRounds(g, op) {
      SquaredInjective(gamma0, r, k + UpdateRounds(g, op));
    } else if k + UpdateRounds(g, op) < r {
      SquaredInjective(gamma0, k + UpdateRounds(g, op), r);
    }
  }

  lemma FinalIdsFit(l: SignedLedger, g: SignedState, gamma0: real, k: nat)
    requires gamma0 > 1.0 && SignedTracks(l, g, gamma0, k) && g.kind.CollapsingAll?
    ensures IdsBoth(l, Squared(gamma0, k)) <= g.maxSize
  {
    hide Represents, WellFormed, Ids, Squared;
    BucketsAreIds(l, g);
  }

  // ---------- runs ----------

  lemma InsertKeepsCanonicalSigned(l: SignedLedger, g: SignedState, gamma0: real, k: nat, op: Op) returns (r: nat)
    requires gamma0 > 1.0 && CanonicalSigned(l, g, gamma0, k) && op.count >= 0
    ensures HonestSigned(l, g, op) && CanUpdateSigned(g, op)
    ensures CanonicalSigned(EnteredSigned(l, g, op), UpdatedSigned(g, op), gamma0, r)
    ensures g.kind.CollapsingAll? ==> r == k + UpdateRounds(g, op)
    ensures UpdatedSigned(g, op).minAddressable == g.minAddressable
    ensures UpdatedSigned(g, op).maxAddressable == g.maxAddressable
    ensures UpdatedSigned(g, op).kind == g.kind && UpdatedSigned(g, op).maxSize == g.maxSize
  {
    hide SignedTracks, UpdatedSigned, EnteredSigned, UpdateRounds, KeepsPair, LeastRound;
    r := SignedUpdateTracks(l, g, gamma0, k, op);
    var n, t := EnteredSigned(l, g, op), UpdatedSigned(g, op);
    TrackedGamma(l, g, gamma0, k);
    TrackedGamma(n, t, gamma0, r);
    if g.kind.CollapsingAll? {
      InsertKeepsLeastRound(l, g, gamma0, k, op, r);
    } else if FoldsOneEnd(g.kind) {
      InsertKeepsPair(l, g, gamma0, k, op);
    }
  }

  lemma {:induction false} RunKeepsCanonicalSigned(l: SignedLedger, range: SignedState, g: SignedState, gamma0: real,
                                                   k: nat, ops: seq<Op>) returns (r: nat)
    requires gamma0 > 1.0 && CanonicalSigned(l, g, gamma0, k) && InsertOnly(ops)
    requires range.minAddressable == g.minAddressable && range.maxAddressable == g.maxAddressable
    ensures HonestRunSigned(l, range, ops) && CanRunSigned(g, ops)
    ensures CanonicalSigned(SignedLedgerAfter(l, range, ops), RunSigned(g, ops), gamma0, r)
    ensures g.kind.CollapsingAll? ==> r == k + RunRounds(g, ops)
    ensures RunSigned(g, ops).kind == g.kind && RunSigned(g, ops).maxSize == g.maxSize
    decreases |ops|
  {
    hide CanonicalSigned, UpdatedSigned, EnteredSigned, HonestSigned, UpdateRounds;
    if ops == [] {
      r := k;
    } else {
      var j := InsertKeepsCanonicalSigned(l, g, gamma0, k, ops[0]);
      SameRangeHonest(l, range, g, ops[0]);
      r := RunKeepsCanonicalSigned(EnteredSigned(l, g, ops[0]), range, UpdatedSigned(g, ops[0]), gamma0, j, ops[1..]);
    }
  }

  lemma SameRangeHonest(l: SignedLedger, range: SignedState, g: SignedState, op: Op)
    requires range.minAddressable == g.minAddressable && range.maxAddressable == g.maxAddressable
    requires HonestSigned(l, g, op)
    ensures HonestSigned(l, range, op) && EnteredSigned(l, range, op) == EnteredSigned(l, g, op)
  {
  }

  lemma NewIsCanonicalSigned(kind: StoreType, alpha: real, minValue: real, maxSize: int, dblMin: real, dblMax: real)
    requires 0.0 < alpha < 1.0 && SignedBound(kind, maxSize)
    ensures CanonicalSigned(NO_ITEMS, NewSigned(kind, alpha, minValue, maxSize, dblMin, dblMax), GammaOf(alpha), 0)
  {
    hide SignedTracks, Ids;
    NewSignedTracks(kind, alpha, minValue, maxSize, dblMin, dblMax);
    NoIds(GammaOf(alpha));
  }

  lemma CanonicalGamma(l: SignedLedger, g: SignedState, gamma0: real, k: nat)
    requires gamma0 > 1.0 && CanonicalSigned(l, g, gamma0, k)
    ensures g.gamma > 1.0
  {
  }

  // ---------- main results ----------

  /**
   Two insert-only runs that bring in the same items, in any order and any grouping, end with the same buckets,
   totals, zero band and gamma, the same folded ends in low and high mode, and the same collapse counter in
   uniform mode, and in low and high mode as long as neither side gives up more than one id.
   */
  lemma SignedOrderDoesNotMatter(kind: StoreType, alpha: real, minValue: real, maxSize: int, dblMin: real,
                                 dblMax: real, ops: seq<Op>, other: seq<Op>)
    requires 0.0 < alpha < 1.0 && SignedBound(kind, maxSize) && InsertOnly(ops) && InsertOnly(other)
    ensures var start := NewSigned(kind, alpha, minValue, maxSize, dblMin, dblMax);
            && HonestRunSigned(NO_ITEMS, start, ops) && HonestRunSigned(NO_ITEMS, start, other)
            && CanRunSigned(start, ops) && CanRunSigned(start, other)
            && (SignedLedgerAfter(NO_ITEMS, start, ops) == SignedLedgerAfter(NO_ITEMS, start, other) ==>
                  var p, q := RunSigned(start, ops), RunSigned(start, other);
                  && p.gamma > 1.0 && SameSketch(p, q)
                  && (kind.CollapsingAll? ==> NumCollapses(p) == NumCollapses(q))
                  && (FoldsOneEnd(kind) && AlmostAllKept(SignedLedgerAfter(NO_ITEMS, start, ops), p) ==>
                        NumCollapses(p) == NumCollapses(q)))
  {
    hide CanonicalSigned, SameSketch, NumCollapses, AlmostAllKept;
    var start := NewSigned(kind, alpha, minValue, maxSize, dblMin, dblMax);
    NewIsCanonicalSigned(kind, alpha, minValue, maxSize, dblMin, dblMax);
    var j := RunKeepsCanonicalSigned(NO_ITEMS, start, start, GammaOf(alpha), 0, ops);
    var k := RunKeepsCanonicalSigned(NO_ITEMS, start, start, GammaOf(alpha), 0, other);
    if SignedLedgerAfter(NO_ITEMS, start, ops) == SignedLedgerAfter(NO_ITEMS, start, other) {
      CanonicalGamma(SignedLedgerAfter(NO_ITEMS, start, ops), RunSigned(start, ops), GammaOf(alpha), j);
      CanonicalIsUniqueSigned(SignedLedgerAfter(NO_ITEMS, start, ops), RunSigned(start, ops), RunSigned(start, other),
                              GammaOf(alpha), j, k);
      if kind.CollapsingAll? {
        InsertOnlyCounter(alpha, minValue, maxSize, dblMin, dblMax, ops);
        InsertOnlyCounter(alpha, minValue, maxSize, dblMin, dblMax, other);
      }
    }
  }

  /**
   What the final stores are, in terms of the items alone.  In uniform mode gamma has been squared as often as it
   takes for the ids of both signs to fit.  In low mode either store has dropped its lowest values, the negative
   one first and down to one bucket, and only then the positive one; high mode is the mirror image.
   */
  lemma InsertOnlyStores(kind: StoreType, alpha: real, minValue: real, maxSize: int, dblMin: real, dblMax: real,
                         ops: seq<Op>)
    requires 0.0 < alpha < 1.0 && SignedBound(kind, maxSize) && InsertOnly(ops)
    ensures var start := NewSigned(kind, alpha, minValue, maxSize, dblMin, dblMax);
            && HonestRunSigned(NO_ITEMS, start, ops) && CanRunSigned(start, ops)
            && var g, l, gamma := RunSigned(start, ops), SignedLedgerAfter(NO_ITEMS, start, ops), GammaOf(alpha);
            && (kind.CollapsingAll? ==> LeastRound(l, gamma, maxSize, RunRounds(start, ops)))
            && (kind.CollapsingLow? ==>
                  && KeepsPair(l.neg, l.pos, gamma, g.neg, g.pos, maxSize)
                  && (forall i, b | i in Ids(l.neg, gamma) - g.neg.buckets.Keys && b in g.neg.buckets :: b < i)
                  && (forall i, b | i in Ids(l.pos, gamma) - g.pos.buckets.Keys && b in g.pos.buckets :: i < b))
            && (kind.CollapsingHigh? ==>
                  && KeepsPair(l.pos, l.neg, gamma, g.pos, g.neg, maxSize)
                  && (forall i, b | i in Ids(l.neg, gamma) - g.neg.buckets.Keys && b in g.neg.buckets :: i < b)
                  && (forall i, b | i in Ids(l.pos, gamma) - g.pos.buckets.Keys && b in g.pos.buckets :: b < i))
  {
    hide LeastRound, KeepsPair, Ids, Represents, WellFormed, Squared;
    var start := NewSigned(kind, alpha, minValue, maxSize, dblMin, dblMax);
    NewIsCanonicalSigned(kind, alpha, minValue, maxSize, dblMin, dblMax);
    var k := RunKeepsCanonicalSigned(NO_ITEMS, start, start, GammaOf(alpha), 0, ops);
    var g, l := RunSigned(start, ops), SignedLedgerAfter(NO_ITEMS, start, ops);
    RoundKinds(g, GammaOf(alpha), k);
    KeepsTheEnd(l.neg, g.gamma, g.neg);
    KeepsTheEnd(l.pos, g.gamma, g.pos);
  }
}
