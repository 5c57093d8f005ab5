/** Whole runs of the sketch for non-negative values: what it stores and how accurate its answers are. */
module Accuracy {
  import opened BucketIdMapping
  import opened Histogram
  import opened MapStore
  import opened PSketch
  import opened StoreRefinement
  import opened Survivors
  import Collections
  import Powers

  /** The surviving items: those below the addressable minimum, which the sketch counts as 0, and the rest. */
  datatype Ledger = Ledger(small: multiset<real>, big: multiset<real>) {
    function Items(): multiset<real> {
      small + big
    }
  }

  const NOTHING := Ledger(multiset{}, multiset{})

  function Revised(m: multiset<real>, op: Op): multiset<real>
    requires -op.count <= m[op.value]
  {
    m[op.value := m[op.value] + op.count]
  }

  /** A removal takes out items that are still present; items outside the addressable range never enter. */
  ghost predicate Honest(l: Ledger, p: SketchState, op: Op) {
    0.0 <= op.value <= p.maxAddressable ==>
      -op.count <= if op.value < p.minAddressable then l.small[op.value] else l.big[op.value]
  }

  ghost function Entered(l: Ledger, p: SketchState, op: Op): Ledger
    requires Honest(l, p, op)
  {
    if op.value < 0.0 || op.value > p.maxAddressable then
      l
    else if op.value < p.minAddressable then
      l.(small := Revised(l.small, op))
    else
      l.(big := Revised(l.big, op))
  }

  // ---------- one update ----------

  ghost predicate Tracks(l: Ledger, p: SketchState) {
    && WellFormedSketch(p)
    && Represents(l.big, p.gamma, p.store)
    && p.zero == |l.small|
    && (forall v | v in l.small :: 0.0 <= v < p.minAddressable)
    && (forall v | v in l.big :: p.minAddressable <= v <= p.maxAddressable)
  }

  lemma RevisedSize(m: multiset<real>, op: Op)
    requires -op.count <= m[op.value]
    ensures |Revised(m, op)| == |m| + op.count
    ensures forall v :: v in Revised(m, op) ==> v in m || v == op.value
  {
  }

  lemma UpdateTracks(l: Ledger, p: SketchState, op: Op)
    requires Tracks(l, p) && Honest(l, p, op)
    ensures CanUpdate(p, op) && Tracks(Entered(l, p, op), Updated(p, op))
  {
    hide Represents, WellFormed, Inserted, Removed, BucketId;
    if Addressable(p, op.value) && op.value >= p.minAddressable {
      RevisedSize(l.big, op);
      if op.count > 0 {
        InsertRepresents(l.big, p.gamma, p.store, op.value, op.count);
        assert Revised(l.big, op) == Bump(l.big, op.value, op.count);
      } else if op.count < 0 {
        RemoveRepresents(l.big, p.gamma, p.store, op.value, -op.count);
        assert Revised(l.big, op) == Drop(l.big, op.value, -op.count);
      } else {
        NothingRemoved(p.store, BucketId(p.gamma, op.value));
        assert Revised(l.big, op) == l.big;
      }
      UpdateKeepsWellFormed(p, op);
    } else if Addressable(p, op.value) {
      RevisedSize(l.small, op);
    }
  }

  lemma NothingRemoved(s: StoreState, bid: int)
    ensures Removed(s, bid, 0) == s
  {
  }

  // ---------- runs ----------

  ghost predicate CanRun(p: SketchState, ops: seq<Op>)
    decreases |ops|
  {
    ops == [] || (CanUpdate(p, ops[0]) && CanRun(Updated(p, ops[0]), ops[1..]))
  }

  function Run(p: SketchState, ops: seq<Op>): SketchState
    requires CanRun(p, ops)
    decreases |ops|
  {
    if ops == [] then p else Run(Updated(p, ops[0]), ops[1..])
  }

  ghost predicate HonestRun(l: Ledger, p: SketchState, ops: seq<Op>)
    decreases |ops|
  {
    ops == [] || (Honest(l, p, ops[0]) && HonestRun(Entered(l, p, ops[0]), p, ops[1..]))
  }

  ghost function LedgerAfter(l: Ledger, p: SketchState, ops: seq<Op>): Ledger
    requires HonestRun(l, p, ops)
    decreases |ops|
  {
    if ops == [] then l else LedgerAfter(Entered(l, p, ops[0]), p, ops[1..])
  }

  /** Only the addressable range of a sketch decides what enters the ledger, and no update changes it. */
  lemma {:induction false} SameRange(l: Ledger, p: SketchState, q: SketchState, ops: seq<Op>)
    requires p.minAddressable == q.minAddressable && p.maxAddressable == q.maxAddressable
    ensures HonestRun(l, p, ops) <==> HonestRun(l, q, ops)
    ensures HonestRun(l, p, ops) ==> LedgerAfter(l, p, ops) == LedgerAfter(l, q, ops)
    decreases |ops|
  {
    if ops != [] && Honest(l, p, ops[0]) {
      SameRange(Entered(l, p, ops[0]), p, q, ops[1..]);
    }
  }

  lemma UpdateKeepsRange(p: SketchState, op: Op)
    requires CanUpdate(p, op)
    ensures Updated(p, op).minAddressable == p.minAddressable
    ensures Updated(p, op).maxAddressable == p.maxAddressable
    ensures Updated(p, op).store.kind == p.store.kind
    ensures Updated(p, op).store.resizable == p.store.resizable
    ensures Updated(p, op).store.maxBuckets == p.store.maxBuckets
  {
    hide Sum, Inserted;
    if Addressable(p, op.value) && op.value >= p.minAddressable {
      InsertKeepsShape(p.store, BucketId(p.gamma, op.value), op.count);
    }
  }

  /** Every honest run meets the source's own preconditions and keeps the store the survivors' histogram. */
  lemma {:induction false} RunTracks(l: Ledger, p: SketchState, ops: seq<Op>)
    requires Tracks(l, p) && HonestRun(l, p, ops)
    ensures CanRun(p, ops) && Tracks(LedgerAfter(l, p, ops), Run(p, ops))
    decreases |ops|
  {
    hide Tracks, Updated, Entered;
    if ops != [] {
      UpdateTracks(l, p, ops[0]);
      UpdateKeepsRange(p, ops[0]);
      var next := Updated(p, ops[0]);
      SameRange(Entered(l, p, ops[0]), p, next, ops[1..]);
      RunTracks(Entered(l, p, ops[0]), next, ops[1..]);
    }
  }

  predicate Constructible(kind: StoreType, alpha: real, maxStoreSize: int) {
    && 0.0 < alpha < 1.0
    && (!kind.UnboundedStore? ==> Shrinkable(kind, maxStoreSize))
  }

  lemma NewTracks(kind: StoreType, alpha: real, minValue: real, maxStoreSize: int, dblMin: real, dblMax: real)
    requires Constructible(kind, alpha, maxStoreSize)
    ensures Tracks(NOTHING, NewSketch(kind, alpha, minValue, maxStoreSize, dblMin, dblMax))
  {
  }

  // ---------- the error guarantee ----------

  /** The exact value a quantile query is measured against. */
  function Truth(p: SketchState, v: real): real {
    if v < p.minAddressable then 0.0 else v
  }

  /** A sorted listing of all items starts with the small ones. */
  lemma {:induction false} SmallFirst(s: seq<real>, small: multiset<real>, big: multiset<real>, lo: real)
    requires Sorted(s) && multiset(s) == small + big
    requires (forall v | v in small :: v < lo) && (forall v | v in big :: lo <= v)
    ensures |small| <= |s| && multiset(s[..|small|]) == small && multiset(s[|small|..]) == big
    decreases |s|
  {
    var k := |small|;
    assert |multiset(s)| == |s|;
    if big == multiset{} {
      assert s[..k] == s;
      assert s[k..] == [];
    } else {
      var front, x := s[..|s| - 1], s[|s| - 1];
      LastIsBig(s, small, big, lo);
      FrontAndLast(s);
      FrontSorted(s);
      hide Sorted;
      OneOfThem(small, big, x);
      SmallFirst(front, small, big - multiset{x}, lo);
      TakeAndDrop(s, k);
    }
  }

  lemma FrontSorted(s: seq<real>)
    requires Sorted(s) && s != []
    ensures Sorted(s[..|s| - 1])
  {
  }

  lemma OneOfThem(small: multiset<real>, big: multiset<real>, x: real)
    requires x in big
    ensures small + big - multiset{x} == small + (big - multiset{x})
    ensures (big - multiset{x}) + multiset{x} == big && forall v | v in big - multiset{x} :: v in big
  {
  }

  lemma TakeAndDrop(s: seq<real>, k: nat)
    requires k < |s|
    ensures var n := |s| - 1;
            s[..n][..k] == s[..k] && multiset(s[k..]) == multiset(s[..n][k..]) + multiset{s[n]}
  {
    var n := |s| - 1;
    assert s[k..] == s[..n][k..] + [s[n]];
  }

  lemma LastIsBig(s: seq<real>, small: multiset<real>, big: multiset<real>, lo: real)
    requires Sorted(s) && multiset(s) == small + big && big != multiset{}
    requires (forall v | v in small :: v < lo) && (forall v | v in big :: lo <= v)
    ensures s != [] && s[|s| - 1] in big
  {
    var y := Collections.InhabitedBag(big);
    assert y in multiset(s);
    var i :| 0 <= i < |s| && s[i] == y;
    assert s[i] <= s[|s| - 1];
    assert s[|s| - 1] in multiset(s);
  }

  /** The bucket whose cumulative range contains rank r is the one in which the store sees the r-th item. */
  lemma AtRankSees(m: multiset<real>, g: real, s: StoreState, listing: seq<real>, r: nat, b: int)
    requires g > 1.0 && Represents(m, g, s)
    requires Sorted(listing) && multiset(listing) == m && r < |listing|
    requires AtRank(s.buckets, r, b)
    ensures listing[r] in m && Seen(g, ClampOf(s), listing[r]) == b
  {
    hide Seen, Upto, SumBelow, Sum;
    assert listing[r] in multiset(listing);
    forall i | 0 <= i < |listing|
      ensures listing[i] > 0.0
    {
      assert listing[i] in multiset(listing);
    }
    Cumulative(m, g, ClampOf(s), s.buckets, b);
    Cumulative(m, g, ClampOf(s), s.buckets, b + 1);
    RankBelow(listing, g, ClampOf(s), b, r);
    RankBelow(listing, g, ClampOf(s), b - 1, r);
  }

  /** Away from the folded end, what the store sees is the item's own bucket. */
  lemma TrustedIsExact(s: StoreState, g: real, v: real, b: int)
    requires g > 1.0 && v > 0.0 && WellFormed(s) && b in s.buckets && Trusted(s, b)
    requires Seen(g, ClampOf(s), v) == b
    ensures BucketId(g, v) == b
  {
    hide Sum, BucketId;
  }

  /** The end of the store that its mode folds has swallowed this id. */
  ghost predicate FoldedAway(s: StoreState, id: int) {
    (s.kind.CollapsingLow? && AtLowEnd(s, id)) || (s.kind.CollapsingHigh? && AtHighEnd(s, id))
  }

  /**
   The answer for the item x: 0 below the addressable minimum, the representative of x's own bucket, flagged
   accurate, as long as that bucket exists, and else that of the end bucket, flagged inaccurate.
   */
  ghost predicate AnswersFor(p: SketchState, x: real, value: real, isAccurate: bool)
    requires p.gamma > 1.0 && p.minAddressable > 0.0
  {
    if x < p.minAddressable then
      value == 0.0 && isAccurate
    else if FoldedAway(p.store, BucketId(p.gamma, x)) then
      && !isAccurate
      && exists b :: b in p.store.buckets && FoldedAway(p.store, b) &&
                     value == BucketValue(AlphaOf(p.gamma), p.gamma, b)
    else
      isAccurate && value == BucketValue(AlphaOf(p.gamma), p.gamma, BucketId(p.gamma, x))
  }

  /** The bucket in which a store sees an item is trusted exactly when it is the item's own. */
  lemma TrustedMeans(s: StoreState, g: real, v: real, b: int)
    requires g > 1.0 && v > 0.0 && WellFormed(s) && b in s.buckets && Seen(g, ClampOf(s), v) == b
    ensures Trusted(s, b) <==> !FoldedAway(s, BucketId(g, v))
    ensures Trusted(s, b) ==> BucketId(g, v) == b
    ensures !Trusted(s, b) ==> FoldedAway(s, b)
  {
    hide Sum, BucketId;
    assert s.buckets.Keys != {};
    var lo, hi := Least(s.buckets.Keys), Greatest(s.buckets.Keys);
  }

  /**
   For the rank r, the whole part of q (n - 1): the answer is the one for the r-th item, and when it is flagged
   accurate it is within relative error alpha of that item, for the alpha of the sketch's present resolution.
   */
  lemma AnswerAccurate(l: Ledger, p: SketchState, s: seq<real>, q: real, was: bool, value: real, isAccurate: bool,
                       r: int)
    requires Tracks(l, p) && Sorted(s) && multiset(s) == l.Items() && s != []
    requires 0.0 <= q <= 1.0 && Answers(p, q, was, value, isAccurate)
    requires RankIs(q, |s|, r)
    ensures Total(p) == |s| && 0 <= r < |s| && AnswersFor(p, s[r], value, isAccurate)
    ensures isAccurate ==> WithinRelativeError(value, Truth(p, s[r]), AlphaOf(p.gamma))
    ensures !FoldsOneEnd(p.store.kind) ==> isAccurate
  {
    hide Holds, Sum, ClampOf;
    TotalIsSize(l.big, p.gamma, ClampOf(p.store), p.store.buckets);
    assert |multiset(s)| == |s|;
    RankUnique(q, |s|, r);
    RankInRange(q, |s|);
    SmallFirst(s, l.small, l.big, p.minAddressable);
    hide RankOf;
    if r < p.zero {
      assert s[r] == s[..p.zero][r];
      assert s[r] in multiset(s[..p.zero]);
    } else {
      BigAnswer(l, p, s, value, isAccurate, r);
    }
  }

  lemma BigAnswer(l: Ledger, p: SketchState, s: seq<real>, value: real, isAccurate: bool, r: int)
    requires Tracks(l, p) && Sorted(s) && p.zero <= r < |s| && multiset(s[p.zero..]) == l.big
    requires exists b :: AtRank(p.store.buckets, r - p.zero, b)
                         && value == BucketValue(AlphaOf(p.gamma), p.gamma, b) && isAccurate == Trusted(p.store, b)
    ensures AnswersFor(p, s[r], value, isAccurate)
    ensures isAccurate ==> WithinRelativeError(value, Truth(p, s[r]), AlphaOf(p.gamma))
    ensures !FoldsOneEnd(p.store.kind) ==> isAccurate
  {
    hide Holds, Sum, ClampOf, BucketId, SumBelow, BucketValue, AlphaOf, Trusted, FoldedAway;
    var b :| AtRank(p.store.buckets, r - p.zero, b)
             && value == BucketValue(AlphaOf(p.gamma), p.gamma, b) && isAccurate == Trusted(p.store, b);
    var tail := s[p.zero..];
    assert s[r] == tail[r - p.zero] && tail[r - p.zero] in multiset(tail);
    AtRankSees(l.big, p.gamma, p.store, tail, r - p.zero, b);
    TrustedMeans(p.store, p.gamma, s[r], b);
    OnlyEndsFold(p.store, BucketId(p.gamma, s[r]));
    if isAccurate {
      BucketValueAccurate(AlphaOf(p.gamma), p.gamma, s[r], b);
    }
  }

  lemma OnlyEndsFold(s: StoreState, id: int)
    ensures FoldedAway(s, id) ==> FoldsOneEnd(s.kind)
  {
  }

  // ---------- the resolution reached ----------

  ghost predicate AtLevel(p: SketchState, gamma0: real)
    requires gamma0 > 1.0
  {
    && p.store.numCollapses >= 0
    && p.gamma == if p.store.kind.CollapsingAll? then Squared(gamma0, p.store.numCollapses) else gamma0
  }

  lemma {:induction false} SquaredSum(g: real, j: nat, k: nat)
    requires g > 1.0
    ensures Squared(Squared(g, j), k) == Squared(g, j + k)
  {
    if k > 0 {
      SquaredSum(g, j, k - 1);
      var a, b := Squared(Squared(g, j), k - 1), Squared(g, j + k - 1);
      assert Squared(Squared(g, j), k) == a * a;
      assert Squared(g, j + k) == b * b;
    }
  }

  lemma UpdateKeepsLevel(p: SketchState, gamma0: real, op: Op)
    requires gamma0 > 1.0 && CanUpdate(p, op) && AtLevel(p, gamma0)
    ensures AtLevel(Updated(p, op), gamma0)
  {
    hide Sum, Squared, Shrunk, Least, Greatest;
    UpdateKeepsRange(p, op);
    if Addressable(p, op.value) && op.value >= p.minAddressable {
      var bid := BucketId(p.gamma, op.value);
      if op.count > 0 {
        InsertKeepsShape(p.store, bid, op.count);
        if p.store.kind.CollapsingAll? {
          var before, after := p.store.numCollapses, Inserted(p.store, bid, op.count).numCollapses;
          SquaredSum(gamma0, before, after - before);
        }
      }
    }
  }

  lemma {:induction false} RunKeepsLevel(p: SketchState, gamma0: real, ops: seq<Op>)
    requires gamma0 > 1.0 && CanRun(p, ops) && AtLevel(p, gamma0)
    ensures AtLevel(Run(p, ops), gamma0) && Run(p, ops).store.kind == p.store.kind
    ensures Run(p, ops).minAddressable == p.minAddressable
    decreases |ops|
  {
    hide AtLevel, Updated;
    if ops != [] {
      UpdateKeepsLevel(p, gamma0, ops[0]);
      UpdateKeepsRange(p, ops[0]);
      RunKeepsLevel(Updated(p, ops[0]), gamma0, ops[1..]);
    }
  }

  lemma NewAtLevel(kind: StoreType, alpha: real, minValue: real, maxStoreSize: int, dblMin: real, dblMax: real)
    requires 0.0 < alpha < 1.0
    ensures AtLevel(NewSketch(kind, alpha, minValue, maxStoreSize, dblMin, dblMax), GammaOf(alpha))
  {
  }

  lemma LevelGamma(p: SketchState, gamma0: real)
    requires gamma0 > 1.0 && AtLevel(p, gamma0)
    ensures p.store.numCollapses >= 0 && p.gamma > 1.0
    ensures p.gamma == if p.store.kind.CollapsingAll? then Squared(gamma0, p.store.numCollapses) else gamma0
  {
  }

  // ---------- main results ----------

  /**
   Every answer to a quantile q is the one for the item of the sorted listing at the whole part of q (n - 1), and
   within alpha of that item when it is flagged accurate.
   */
  ghost predicate MeetsGuarantee(p: SketchState, listing: seq<real>, alpha: real)
    requires p.gamma > 1.0 && p.minAddressable > 0.0
  {
    forall q, was, value, isAccurate, r: int | 0.0 <= q <= 1.0 && Answers(p, q, was, value, isAccurate) &&
        RankIs(q, |listing|, r) ::
      && 0 <= r < |listing|
      && AnswersFor(p, listing[r], value, isAccurate)
      && (isAccurate ==> WithinRelativeError(value, Truth(p, listing[r]), alpha))
  }

  ghost predicate AlwaysTrusted(p: SketchState)
    requires p.gamma > 1.0
  {
    forall q, was, value, isAccurate | 0.0 <= q <= 1.0 && Answers(p, q, was, value, isAccurate) :: isAccurate
  }

  lemma TrackedGuarantee(l: Ledger, p: SketchState, s: seq<real>)
    requires Tracks(l, p) && Sorted(s) && multiset(s) == l.Items() && s != []
    ensures p.gamma > 1.0 && p.minAddressable > 0.0 && MeetsGuarantee(p, s, AlphaOf(p.gamma))
  {
    TrackedRange(l, p);
    hide Tracks, Answers, AnswersFor, WithinRelativeError, AlphaOf, RankIs;
    forall q, was, value, isAccurate, r: int | 0.0 <= q <= 1.0 && Answers(p, q, was, value, isAccurate) &&
        RankIs(q, |s|, r)
      ensures 0 <= r < |s| && AnswersFor(p, s[r], value, isAccurate)
      ensures isAccurate ==> WithinRelativeError(value, Truth(p, s[r]), AlphaOf(p.gamma))
    {
      AnswerAccurate(l, p, s, q, was, value, isAccurate, r);
    }
  }

  lemma TrackedTrust(l: Ledger, p: SketchState, s: seq<real>)
    requires Tracks(l, p) && Sorted(s) && multiset(s) == l.Items() && s != [] && !FoldsOneEnd(p.store.kind)
    ensures p.gamma > 1.0 && AlwaysTrusted(p)
  {
    TrackedRange(l, p);
    hide Tracks, Answers, AnswersFor, WithinRelativeError, AlphaOf, RankIs;
    forall q, was, value, isAccurate | 0.0 <= q <= 1.0 && Answers(p, q, was, value, isAccurate)
      ensures isAccurate
    {
      AnswerAccurate(l, p, s, q, was, value, isAccurate, RankOf(q, |s|));
    }
  }

  /** Quantile 0 is the least item, quantile 1 the greatest. */
  lemma ExtremeQuantiles(p: SketchState, listing: seq<real>, alpha: real, was: bool, value: real, isAccurate: bool)
    requires p.gamma > 1.0 && p.minAddressable > 0.0 && listing != [] && MeetsGuarantee(p, listing, alpha)
    ensures Answers(p, 0.0, was, value, isAccurate) ==> AnswersFor(p, listing[0], value, isAccurate)
    ensures Answers(p, 1.0, was, value, isAccurate) ==> AnswersFor(p, listing[|listing| - 1], value, isAccurate)
  {
    hide Answers, AnswersFor, WithinRelativeError;
    var n := |listing| - 1;
    assert 0.0 * n as real == 0.0 && 1.0 * n as real == n as real;
    assert RankIs(0.0, |listing|, 0) && RankIs(1.0, |listing|, n);
  }

  /**
   The guarantee of the sketch over whole runs.  Any honest run meets the source's preconditions; after it,
   for any sorted listing s of the survivors, every answer is the one for the item asked for, exactly so, and
   within relative error alpha when it is flagged accurate.  In uniform mode alpha is that of gamma0^(2^k) after
   k collapses, at most 32 of them, and every answer is flagged accurate; otherwise alpha is the one asked for,
   and in unbounded mode every answer is flagged accurate.
   */
  lemma SketchGuarantee(kind: StoreType, alpha: real, minValue: real, maxStoreSize: int, dblMin: real, dblMax: real,
                        ops: seq<Op>, s: seq<real>)
    requires Constructible(kind, alpha, maxStoreSize)
    requires HonestRun(NOTHING, NewSketch(kind, alpha, minValue, maxStoreSize, dblMin, dblMax), ops)
    requires multiset(s) ==
             LedgerAfter(NOTHING, NewSketch(kind, alpha, minValue, maxStoreSize, dblMin, dblMax), ops).Items()
    requires Sorted(s) && s != []
    ensures CanRun(NewSketch(kind, alpha, minValue, maxStoreSize, dblMin, dblMax), ops)
    ensures var p := Run(NewSketch(kind, alpha, minValue, maxStoreSize, dblMin, dblMax), ops);
            && Total(p) == |s|
            && p.gamma > 1.0 && p.minAddressable > 0.0 && p.store.kind == kind
            && (!kind.UnboundedStore? ==> |p.store.buckets| <= maxStoreSize)
            && (kind.CollapsingAll? ==>
                  && 0 <= p.store.numCollapses <= 32
                  && p.gamma == Squared(GammaOf(alpha), p.store.numCollapses)
                  && MeetsGuarantee(p, s, AlphaOf(p.gamma)))
            && (!kind.CollapsingAll? ==> p.gamma == GammaOf(alpha) && MeetsGuarantee(p, s, alpha))
            && (kind.CollapsingAll? || kind.UnboundedStore? ==> AlwaysTrusted(p))
  {
    hide Tracks, AtLevel, Squared, Answers, MeetsGuarantee, AlwaysTrusted;
    var start := NewSketch(kind, alpha, minValue, maxStoreSize, dblMin, dblMax);
    NewTracks(kind, alpha, minValue, maxStoreSize, dblMin, dblMax);
    RunTracks(NOTHING, start, ops);
    NewAtLevel(kind, alpha, minValue, maxStoreSize, dblMin, dblMax);
    RunKeepsLevel(start, GammaOf(alpha), ops);
    RunKeepsBound(start, ops);
    var p := Run(start, ops);
    LevelGamma(p, GammaOf(alpha));
    AlphaUnique(alpha, AlphaOf(GammaOf(alpha)), GammaOf(alpha));
    TrackedGuarantee(LedgerAfter(NOTHING, start, ops), p, s);
    if !FoldsOneEnd(kind) {
      TrackedTrust(LedgerAfter(NOTHING, start, ops), p, s);
    }
    TrackedTotal(LedgerAfter(NOTHING, start, ops), p);
    TrackedRange(LedgerAfter(NOTHING, start, ops), p);
    assert |multiset(s)| == |s|;
    if kind.CollapsingAll? {
      NewIsBounded(alpha, minValue, maxStoreSize, dblMin, dblMax);
      RunCollapsesAtMost32(NOTHING, start, GammaOf(alpha), ops);
    }
  }

  lemma {:induction false} RunKeepsBound(p: SketchState, ops: seq<Op>)
    requires CanRun(p, ops)
    ensures var t := Run(p, ops).store;
            t.kind == p.store.kind && t.resizable == p.store.resizable && t.maxBuckets == p.store.maxBuckets
    decreases |ops|
  {
    hide Updated, CanUpdate;
    if ops != [] {
      UpdateKeepsRange(p, ops[0]);
      RunKeepsBound(Updated(p, ops[0]), ops[1..]);
    }
  }

  lemma TrackedRange(l: Ledger, p: SketchState)
    requires Tracks(l, p)
    ensures p.gamma > 1.0 && p.minAddressable > 0.0
    ensures !p.store.kind.UnboundedStore? && !p.store.resizable ==> |p.store.buckets| <= p.store.maxBuckets
  {
  }

  lemma TrackedTotal(l: Ledger, p: SketchState)
    requires Tracks(l, p)
    ensures Total(p) == |l.Items()|
  {
    hide Holds, Sum, ClampOf;
    TotalIsSize(l.big, p.gamma, ClampOf(p.store), p.store.buckets);
  }

  // ---------- a sketch over 32-bit ids collapses at most 32 times ----------

  ghost predicate Narrow(m: multiset<real>, gamma0: real)
    requires gamma0 > 1.0
  {
    forall v | v in m :: v > 0.0 && IsInt32(BucketId(gamma0, v))
  }

  /** After 32 collapses all ids are 0 or 1, so two buckets are enough for whatever survives. */
  lemma FewBuckets(m: multiset<real>, gamma0: real, k: nat, s: StoreState)
    requires gamma0 > 1.0 && Narrow(m, gamma0) && k >= 32
    requires Matching(m, Squared(gamma0, k), s) && s.kind.CollapsingAll?
    ensures |s.buckets| <= 2
  {
    hide Squared, CeilHalfTimes, BucketId;
    var g := Squared(gamma0, k);
    forall b | b in s.buckets
      ensures Distance(b) == 0
    {
      assert Count(s.buckets, b) > 0;
      CellOccupied(m, g, Exact, b);
      var v :| v in m && Seen(g, Exact, v) == b;
      BucketIdAfterCollapses(gamma0, v, k);
      HalvedOut(BucketId(gamma0, v), k);
    }
    AtMostTwo(s.buckets);
  }

  lemma {:induction false} ShrinkStaysWithin32(m: multiset<real>, gamma0: real, s: StoreState, bound: int)
    requires gamma0 > 1.0 && Narrow(m, gamma0) && s.kind.CollapsingAll? && Shrinkable(s.kind, bound)
    requires 0 <= s.numCollapses <= 32 && Matching(m, Squared(gamma0, s.numCollapses), s)
    ensures Shrunk(s, bound).numCollapses <= 32
    decreases Measure(s)
  {
    hide Holds, Sum, Span, ClampOf, Narrow;
    if |s.buckets| > bound {
      if s.numCollapses == 32 {
        FewBuckets(m, gamma0, 32, s);
      }
      CollapsedFacts(s);
      var g := Squared(gamma0, s.numCollapses);
      CollapsedMatches(m, g, s);
      assert Squared(gamma0, s.numCollapses + 1) == g * g;
      ShrinkStaysWithin32(m, gamma0, Collapsed(s), bound);
    }
  }

  ghost predicate Bounded(l: Ledger, p: SketchState, gamma0: real)
    requires gamma0 > 1.0
  {
    && Tracks(l, p)
    && AtLevel(p, gamma0)
    && p.store.kind.CollapsingAll?
    && p.store.numCollapses <= 32
    && Powers.Pow(gamma0, INT_MIN) <= p.minAddressable
    && p.maxAddressable <= Powers.Pow(gamma0, INT_MAX)
  }

  lemma NewIsBounded(alpha: real, minValue: real, maxStoreSize: int, dblMin: real, dblMax: real)
    requires Constructible(CollapsingAll, alpha, maxStoreSize)
    ensures Bounded(NOTHING, NewSketch(CollapsingAll, alpha, minValue, maxStoreSize, dblMin, dblMax), GammaOf(alpha))
  {
    NewTracks(CollapsingAll, alpha, minValue, maxStoreSize, dblMin, dblMax);
    NewAtLevel(CollapsingAll, alpha, minValue, maxStoreSize, dblMin, dblMax);
  }

  lemma BoundedIsNarrow(m: multiset<real>, p: SketchState, gamma0: real)
    requires gamma0 > 1.0 && forall v | v in m :: p.minAddressable <= v <= p.maxAddressable
    requires Powers.Pow(gamma0, INT_MIN) <= p.minAddressable && p.maxAddressable <= Powers.Pow(gamma0, INT_MAX)
    ensures Narrow(m, gamma0)
  {
    hide BucketId, IsInt32;
    forall v | v in m
      ensures v > 0.0 && IsInt32(BucketId(gamma0, v))
    {
      AddressableIdIsInt32(gamma0, v);
    }
  }

  lemma UpdateStaysWithin32(l: Ledger, p: SketchState, gamma0: real, op: Op)
    requires gamma0 > 1.0 && Bounded(l, p, gamma0) && Honest(l, p, op)
    ensures CanUpdate(p, op) && Bounded(Entered(l, p, op), Updated(p, op), gamma0)
  {
    hide WellFormedSketch, Represents, AtLevel;
    UpdateTracks(l, p, op);
    UpdateKeepsLevel(p, gamma0, op);
    UpdateKeepsRange(p, op);
    if Addressable(p, op.value) && op.value >= p.minAddressable && op.count > 0 {
      InsertStaysWithin32(l, p, gamma0, op);
    }
  }

  lemma InsertStaysWithin32(l: Ledger, p: SketchState, gamma0: real, op: Op)
    requires gamma0 > 1.0 && Bounded(l, p, gamma0)
    requires Addressable(p, op.value) && op.value >= p.minAddressable && op.count > 0
    ensures Inserted(p.store, BucketId(p.gamma, op.value), op.count).numCollapses <= 32
  {
    hide Holds, Sum, ClampOf, BucketId, Squared, Shrunk, InsertTarget;
    var bid, s := BucketId(p.gamma, op.value), p.store;
    var m := Bump(l.big, op.value, op.count);
    AddMatches(l.big, p.gamma, s, op.value, op.count);
    BoundedIsNarrow(m, p, gamma0);
    var added := s.(buckets := Add(s.buckets, InsertTarget(s, bid), op.count));
    if !(bid in s.buckets || s.resizable) {
      ShrinkStaysWithin32(m, gamma0, added, s.maxBuckets);
    }
  }

  lemma {:induction false} RunCollapsesAtMost32(l: Ledger, p: SketchState, gamma0: real, ops: seq<Op>)
    requires gamma0 > 1.0 && Bounded(l, p, gamma0) && HonestRun(l, p, ops)
    ensures CanRun(p, ops) && Run(p, ops).store.numCollapses <= 32
    decreases |ops|
  {
    hide Tracks, AtLevel, Updated, Entered;
    if ops != [] {
      UpdateStaysWithin32(l, p, gamma0, ops[0]);
      UpdateKeepsRange(p, ops[0]);
      SameRange(Entered(l, p, ops[0]), p, Updated(p, ops[0]), ops[1..]);
      RunCollapsesAtMost32(Entered(l, p, ops[0]), Updated(p, ops[0]), gamma0, ops[1..]);
    }
  }
}
