/** The sketch for values of either sign: two stores over one mapping that share one bound. */
module GSketch {
  import opened BucketIdMapping
  import opened Histogram
  import opened MapStore
  import opened PSketch
  import Powers

  /** neg holds the absolute values of the negative items. */
  datatype SignedState = SignedState(
    kind: StoreType,
    maxSize: int,
    neg: StoreState,
    pos: StoreState,
    gamma: real,
    zero: int,
    minAddressable: real,
    maxAddressable: real)

  /** Folding the low end of the whole line folds the low end of pos and the high end of neg. */
  function Mirror(kind: StoreType): StoreType {
    match kind
    case CollapsingHigh => CollapsingLow
    case CollapsingLow => CollapsingHigh
    case _ => kind
  }

  predicate SignedBound(kind: StoreType, maxSize: int) {
    match kind
    case UnboundedStore => true
    case CollapsingAll => maxSize >= 4
    case _ => maxSize >= 2
  }

  function Buckets2(g: SignedState): nat {
    |g.neg.buckets| + |g.pos.buckets|
  }

  ghost predicate Consistent(g: SignedState) {
    && WellFormed(g.neg) && WellFormed(g.pos)
    && g.pos.kind == g.kind && g.neg.kind == Mirror(g.kind)
    && g.neg.resizable && g.pos.resizable
    && SignedBound(g.kind, g.maxSize)
    && g.gamma > 1.0 && g.zero >= 0 && g.minAddressable > 0.0
  }

  /** What a client finds between calls: the two stores together respect the bound. */
  ghost predicate WellFormedSigned(g: SignedState) {
    Consistent(g) && (!g.kind.UnboundedStore? ==> Buckets2(g) <= g.maxSize)
  }

  predicate SignedAddressable(g: SignedState, value: real) {
    Abs(value) <= g.maxAddressable
  }

  ghost predicate CanUpdateSigned(g: SignedState, op: Op) {
    && WellFormedSigned(g)
    && (op.count < 0 && SignedAddressable(g, op.value) && Abs(op.value) >= g.minAddressable ==>
          (if op.value > 0.0 then g.pos else g.neg).buckets != map[])
  }

  // ---------- one update ----------

  /** The part of base_update_impl before the bound is looked at. */
  function Placed(g: SignedState, op: Op): SignedState
    requires CanUpdateSigned(g, op)
  {
    var v := Abs(op.value);
    if !SignedAddressable(g, op.value) then
      g
    else if v < g.minAddressable then
      if op.count < 0 && g.zero + op.count < 0 then g else g.(zero := g.zero + op.count)
    else if op.value > 0.0 then
      g.(pos := Changed(g.pos, BucketId(g.gamma, v), op.count))
    else
      g.(neg := Changed(g.neg, BucketId(g.gamma, v), op.count))
  }

  function Changed(s: StoreState, bid: int, count: int): StoreState
    requires WellFormed(s) && (count < 0 ==> s.buckets != map[])
  {
    if count > 0 then Inserted(s, bid, count) else Removed(s, bid, count)
  }

  function CollapsedIfAny(s: StoreState): StoreState {
    if |s.buckets| > 0 then Collapsed(s) else s
  }

  /** One round of the uniform loop: an empty store sits the round out, the mapping does not. */
  function FoldedBoth(g: SignedState): SignedState {
    g.(neg := CollapsedIfAny(g.neg), pos := CollapsedIfAny(g.pos), gamma := g.gamma * g.gamma)
  }

  function SpanBoth(g: SignedState): nat {
    Span(g.neg.buckets) + Span(g.pos.buckets)
  }

  lemma CollapsedIfAnyFacts(s: StoreState)
    requires WellFormed(s) && s.kind.CollapsingAll? && s.resizable
    ensures WellFormed(CollapsedIfAny(s))
    ensures CollapsedIfAny(s).kind == s.kind && CollapsedIfAny(s).resizable
    ensures CollapsedIfAny(s).total == s.total
    ensures Span(CollapsedIfAny(s).buckets) <= Span(s.buckets)
    ensures |s.buckets| > 2 ==> Span(CollapsedIfAny(s).buckets) < Span(s.buckets)
    ensures s.numCollapses <= CollapsedIfAny(s).numCollapses <= s.numCollapses + 1
  {
    hide Sum, Halve, Span, Positive;
    if |s.buckets| > 0 {
      HalveSpan(s.buckets);
      SumHalve(s.buckets);
      HalvePositive(s.buckets);
      if |s.buckets| > 2 {
        HalveReducesSpan(s.buckets);
      }
    }
  }

  /** More than four buckets leave one store with at least three, so the round makes progress. */
  lemma FoldedBothFacts(g: SignedState)
    requires Consistent(g) && g.kind.CollapsingAll?
    ensures g.gamma * g.gamma > 1.0 && Consistent(FoldedBoth(g))
    ensures Buckets2(g) > g.maxSize ==> SpanBoth(FoldedBoth(g)) < SpanBoth(g)
  {
    hide WellFormed, CollapsedIfAny, Span;
    Powers.SquareAboveOne(g.gamma);
    CollapsedIfAnyFacts(g.neg);
    CollapsedIfAnyFacts(g.pos);
  }

  /** The uniform loop of the two stores, run for k rounds. */
  function FoldedRounds(g: SignedState, k: nat): (h: SignedState)
    ensures h.kind == g.kind && h.maxSize == g.maxSize
  {
    if k == 0 then g else FoldedBoth(FoldedRounds(g, k - 1))
  }

  /** The sides of the gap on which there are ids, counted for both stores: at most four. */
  ghost function SidesBoth(g: SignedState): nat {
    Sides(g.neg.buckets) + Sides(g.pos.buckets)
  }

  /** Sitting a round out while empty leaves the same buckets as folding. */
  lemma {:induction false} RoundsFoldEach(g: SignedState, k: nat)
    requires g.neg.kind.CollapsingAll? && g.pos.kind.CollapsingAll?
    ensures FoldedRounds(g, k).neg.buckets == Folded(g.neg, k).buckets && FoldedRounds(g, k).neg.kind == g.neg.kind
    ensures FoldedRounds(g, k).pos.buckets == Folded(g.pos, k).buckets && FoldedRounds(g, k).pos.kind == g.pos.kind
  {
    hide CollapsedIfAny, Collapsed, Halve;
    if k > 0 {
      RoundsFoldEach(g, k - 1);
      FoldEither(FoldedRounds(g, k - 1).neg);
      FoldEither(FoldedRounds(g, k - 1).pos);
      FoldEither(Folded(g.neg, k - 1));
      FoldEither(Folded(g.pos, k - 1));
    }
  }

  lemma FoldEither(s: StoreState)
    requires s.kind.CollapsingAll?
    ensures CollapsedIfAny(s).buckets == Halve(s.buckets) == Collapsed(s).buckets
    ensures CollapsedIfAny(s).kind == s.kind
  {
    assert |s.buckets| == 0 ==> Halve(s.buckets) == s.buckets;
  }

  /**
   Whatever the bound, the uniform loop of the two stores ends exactly when the occupied sides fit into it:
   always for 4, and for less only while some of the four groups (either sign, up to 1 or above) are empty.
   */
  lemma SignedLoopEnds(g: SignedState, bound: int)
    requires g.neg.kind.CollapsingAll? && g.pos.kind.CollapsingAll?
    ensures (exists k: nat :: Buckets2(FoldedRounds(g, k)) <= bound) <==> SidesBoth(g) <= bound
  {
    hide Sides, Span, Folded, FoldedRounds;
    if k: nat :| Buckets2(FoldedRounds(g, k)) <= bound {
      RoundsFoldEach(g, k);
      FoldedSides(g.neg, k);
      FoldedSides(g.pos, k);
      SidesAreBuckets(Folded(g.neg, k).buckets);
      SidesAreBuckets(Folded(g.pos, k).buckets);
    }
    if SidesBoth(g) <= bound {
      var k := Span(g.neg.buckets) + Span(g.pos.buckets);
      RoundsFoldEach(g, k);
      FoldedSides(g.neg, k);
      FoldedSides(g.pos, k);
      SidesAreBuckets(Folded(g.neg, k).buckets);
      SidesAreBuckets(Folded(g.pos, k).buckets);
    }
  }

  /** The input that a uniform sketch with bound 1, 2 or 3 never finishes: the items 1, gamma, -1 and -gamma. */
  lemma BoundThreeNeverEnds(g: SignedState, maxSize: int, k: nat)
    requires g.kind.CollapsingAll? && g.neg.kind.CollapsingAll? && g.pos.kind.CollapsingAll?
    requires g.gamma > 1.0 && g.neg.buckets == OneEach(g.gamma) == g.pos.buckets && maxSize <= 3
    ensures Buckets2(FoldedRounds(g, k)) > maxSize
  {
    hide Sides, FoldedRounds, OneEach;
    OneEachIds(g.gamma);
    SignedLoopEnds(g, maxSize);
  }

  function FittedAll(g: SignedState): (h: SignedState)
    requires Consistent(g) && g.kind.CollapsingAll?
    ensures WellFormedSigned(h)
    decreases SpanBoth(g)
  {
    FoldedBothFacts(g);
    if Buckets2(g) <= g.maxSize then g else FittedAll(FoldedBoth(g))
  }

  /** The low or high case: the far store gives way first, down to one bucket, and then the near one. */
  function FittedPair(far: StoreState, near: StoreState, maxSize: int): (r: (StoreState, StoreState))
    requires WellFormed(far) && WellFormed(near) && far.resizable && near.resizable && maxSize >= 2
    requires Shrinkable(far.kind, 1) && Shrinkable(near.kind, 1)
    ensures |r.0.buckets| + |r.1.buckets| <= maxSize
  {
    if |near.buckets| < maxSize then
      (Shrunk(far, maxSize - |near.buckets|), near)
    else
      var f := Shrunk(far, 1);
      (f, Shrunk(near, maxSize - |f.buckets|))
  }

  lemma ShrunkWellFormed(s: StoreState, bound: int)
    requires WellFormed(s) && s.resizable && Shrinkable(s.kind, bound)
    ensures WellFormed(Shrunk(s, bound))
  {
  }

  /** The bound-enforcing part of base_update_impl. */
  function Fitted(g: SignedState): (h: SignedState)
    requires Consistent(g)
    ensures WellFormedSigned(h)
  {
    hide WellFormed, Shrunk;
    if Buckets2(g) <= g.maxSize then
      g
    else
      match g.kind
      case UnboundedStore => g
      case CollapsingAll => FittedAll(g)
      case CollapsingHigh =>
        var r := FittedPair(g.pos, g.neg, g.maxSize);
        FittedPairWellFormed(g.pos, g.neg, g.maxSize);
        g.(pos := r.0, neg := r.1)
      case CollapsingLow =>
        var r := FittedPair(g.neg, g.pos, g.maxSize);
        FittedPairWellFormed(g.neg, g.pos, g.maxSize);
        g.(neg := r.0, pos := r.1)
  }

  lemma FittedPairWellFormed(far: StoreState, near: StoreState, maxSize: int)
    requires WellFormed(far) && WellFormed(near) && far.resizable && near.resizable && maxSize >= 2
    requires Shrinkable(far.kind, 1) && Shrinkable(near.kind, 1)
    ensures var r := FittedPair(far, near, maxSize);
            && WellFormed(r.0) && WellFormed(r.1)
            && r.0.kind == far.kind && r.1.kind == near.kind && r.0.resizable && r.1.resizable
  {
    hide Sum, Shrunk;
    if |near.buckets| < maxSize {
      ShrunkWellFormed(far, maxSize - |near.buckets|);
    } else {
      ShrunkWellFormed(far, 1);
      ShrunkWellFormed(near, maxSize - |Shrunk(far, 1).buckets|);
    }
  }

  /** base_update_impl. */
  function UpdatedSigned(g: SignedState, op: Op): SignedState
    requires CanUpdateSigned(g, op)
  {
    PlacedConsistent(g, op);
    Fitted(Placed(g, op))
  }

  lemma PlacedConsistent(g: SignedState, op: Op)
    requires CanUpdateSigned(g, op)
    ensures Consistent(Placed(g, op))
  {
    hide WellFormed, Inserted, Removed, BucketId;
    if SignedAddressable(g, op.value) && Abs(op.value) >= g.minAddressable {
      ChangedWellFormed(if op.value > 0.0 then g.pos else g.neg, BucketId(g.gamma, Abs(op.value)), op.count);
    }
  }

  lemma ChangedWellFormed(s: StoreState, bid: int, count: int)
    requires WellFormed(s) && (count < 0 ==> s.buckets != map[])
    ensures WellFormed(Changed(s, bid, count))
    ensures Changed(s, bid, count).kind == s.kind && Changed(s, bid, count).resizable == s.resizable
  {
    hide Sum, InsertTarget, RemoveTarget, Subtract;
    InsertConserves(s, bid, count);
    InsertKeepsShape(s, bid, count);
    if count <= 0 {
      RemoveConserves(s, bid, count);
    }
  }

  function SignedTotal(g: SignedState): int {
    g.zero + g.pos.total + g.neg.total
  }

  /** A value outside the range changes nothing, and neither does a count of 0. */
  lemma NothingUpdatedSigned(g: SignedState, op: Op)
    requires CanUpdateSigned(g, op)
    requires Abs(op.value) > g.maxAddressable || op.count == 0
    ensures UpdatedSigned(g, op) == g
  {
    hide WellFormed, BucketId;
  }

  /** How many items a removal of v may take. */
  function RemovableSigned(g: SignedState, v: real): int
    requires g.gamma > 1.0 && g.minAddressable > 0.0
    requires Abs(v) >= g.minAddressable ==> (if v > 0.0 then g.pos else g.neg).buckets != map[]
  {
    var s := if v > 0.0 then g.pos else g.neg;
    if Abs(v) < g.minAddressable then g.zero
    else Count(s.buckets, RemoveTarget(s, BucketId(g.gamma, Abs(v))))
  }

  /** A removal of more than that changes nothing; any other takes exactly its count and touches one store at most. */
  lemma SignedRemovalIsExact(g: SignedState, op: Op)
    requires CanUpdateSigned(g, op) && op.count < 0 && Abs(op.value) <= g.maxAddressable
    ensures -op.count > RemovableSigned(g, op.value) ==> UpdatedSigned(g, op) == g
    ensures -op.count <= RemovableSigned(g, op.value) ==>
              var h := UpdatedSigned(g, op);
              && SignedTotal(h) == SignedTotal(g) + op.count
              && (Abs(op.value) < g.minAddressable ==> h == g.(zero := g.zero + op.count))
              && (Abs(op.value) >= g.minAddressable && op.value > 0.0 ==> h == g.(pos := h.pos))
              && (Abs(op.value) >= g.minAddressable && op.value <= 0.0 ==> h == g.(neg := h.neg))
  {
    hide WellFormed, BucketId, RemoveTarget, Subtract, AtClampedEnd;
    PlacedConsistent(g, op);
    if Abs(op.value) >= g.minAddressable {
      var s := if op.value > 0.0 then g.pos else g.neg;
      var bid := BucketId(g.gamma, Abs(op.value));
      RemoveConserves(s, bid, op.count);
      RemoveShrinksStore(s, bid, op.count);
    }
    assert Buckets2(Placed(g, op)) <= Buckets2(g);
  }

  lemma RemoveShrinksStore(s: StoreState, bid: int, count: int)
    requires WellFormed(s) && count < 0 && s.buckets != map[]
    ensures |Removed(s, bid, count).buckets| <= |s.buckets|
  {
    hide RemoveTarget, AtClampedEnd, Sum;
    var target := RemoveTarget(s, bid);
    if target in s.buckets && s.buckets[target] >= -count {
      SubtractFacts(s.buckets, target, -count);
    }
  }

  /** base_get_num_collapses_impl. */
  function NumCollapses(g: SignedState): int {
    if !g.kind.CollapsingAll? then g.neg.numCollapses + g.pos.numCollapses
    else if g.neg.numCollapses > g.pos.numCollapses then g.neg.numCollapses
    else g.pos.numCollapses
  }

  // ---------- quantile queries ----------

  /** The answer for the item of a given rank: mirrored among the negatives, 0 in the band, shifted in the positives. */
  ghost predicate SignedAnswersAt(g: SignedState, rank: int, value: real, isAccurate: bool)
    requires g.gamma > 1.0
  {
    if rank < g.neg.total then
      exists b ::
        && AtRank(g.neg.buckets, g.neg.total - rank - 1, b)
        && value == -BucketValue(AlphaOf(g.gamma), g.gamma, b)
        && isAccurate == Trusted(g.neg, b)
    else if rank < g.neg.total + g.zero then
      value == 0.0 && isAccurate
    else
      exists b ::
        && AtRank(g.pos.buckets, rank - g.neg.total - g.zero, b)
        && value == BucketValue(AlphaOf(g.gamma), g.gamma, b)
        && isAccurate == Trusted(g.pos, b)
  }

  /** What base_get_quantile_impl answers. */
  ghost predicate SignedAnswers(g: SignedState, quantile: real, wasAccurate: bool, value: real, isAccurate: bool)
    requires g.gamma > 1.0
  {
    if quantile < 0.0 || quantile > 1.0 then
      value == -1.0 && isAccurate == wasAccurate
    else
      SignedAnswersAt(g, RankOf(quantile, SignedTotal(g)), value, isAccurate)
  }

  /** rank_to_bid: from whichever end is nearer, the one bucket whose cumulative range holds the rank. */
  method RankToBid(store: MapStore, rank: int) returns (bid: int)
    requires store.Valid() && 0 <= rank < store.totalCounts
    ensures AtRank(store.buckets, rank, bid)
  {
    hide Least, Greatest, SumBelow, Next, Prev;
    var m := store.buckets;
    assert m != map[];
    var lastBid, firstBid := store.GetMaxBid(), store.GetMinBid();
    SumBelowEnds(m, firstBid, lastBid + 1);
    hide Sum;
    if rank as real / store.totalCounts as real <= 0.5 {
      bid := firstBid;
      var counts := store.GetBucketCount(firstBid);
      SumBelowStep(m, firstBid);
      while counts <= rank && bid < lastBid
        invariant bid in m && counts == SumBelow(m, bid + 1) && SumBelow(m, bid) <= rank
        decreases lastBid - bid
      {
        var next := store.GetNextBid(bid);
        SumBelowGap(m, bid + 1, next);
        SumBelowStep(m, next);
        bid := next;
        counts := counts + store.GetBucketCount(bid);
      }
    } else {
      bid := lastBid;
      var counts := store.totalCounts - store.GetBucketCount(lastBid);
      SumBelowStep(m, lastBid);
      while counts > rank && bid > firstBid
        invariant bid in m && counts == SumBelow(m, bid) && rank < SumBelow(m, bid + 1)
        decreases bid - firstBid
      {
        var prev := store.GetPrevBid(bid);
        SumBelowGap(m, prev + 1, bid);
        SumBelowStep(m, prev);
        bid := prev;
        counts := counts - store.GetBucketCount(bid);
      }
    }
  }

  /** dds_gsketch_init. */
  function NewSigned(kind: StoreType, alpha: real, minValue: real, maxSize: int, dblMin: real,
                     dblMax: real): SignedState
    requires 0.0 < alpha < 1.0
  {
    var gamma := GammaOf(alpha);
    var minMappable := MinAddressable(gamma, dblMin);
    SignedState(
      kind, maxSize, Fresh(Mirror(kind), true, 0), Fresh(kind, true, 0), gamma, 0,
      if minValue < minMappable then minMappable else minValue,
      MaxAddressable(alpha, gamma, dblMax))
  }

  /** The range of a new sketch, in absolute values. */
  lemma NewSignedRange(kind: StoreType, alpha: real, minValue: real, maxSize: int, dblMin: real, dblMax: real)
    requires 0.0 < alpha < 1.0
    ensures var g := NewSigned(kind, alpha, minValue, maxSize, dblMin, dblMax);
            var least, greatest := Powers.Pow(GammaOf(alpha), INT_MIN), Powers.Pow(GammaOf(alpha), INT_MAX);
            && g.minAddressable >= minValue && g.minAddressable >= least && g.minAddressable >= dblMin
            && (g.minAddressable == minValue || g.minAddressable == least || g.minAddressable == dblMin)
            && g.maxAddressable <= greatest && g.maxAddressable * (1.0 - alpha) <= dblMax
            && (g.maxAddressable == greatest || g.maxAddressable * (1.0 - alpha) == dblMax)
  {
    hide Powers.Pow;
    RangeEnds(alpha, GammaOf(alpha), dblMin, dblMax);
  }

  class GSketch {
    const idMap: Mapping
    const neStore: MapStore
    const poStore: MapStore
    const storeType: StoreType
    const maxSketchSize: int
    const minAddressable: real
    const maxAddressable: real
    var zeroBucket: int

    ghost const Repr: set<object>

    ghost predicate Shape()
      reads this
    {
      && Repr == {this, idMap, neStore, poStore}
      && neStore != poStore
      && neStore.idMapping == idMap && poStore.idMapping == idMap
      && neStore.maxNumBuckets == 0 == poStore.maxNumBuckets
    }

    ghost predicate Valid()
      reads this, Repr
    {
      Shape() && WellFormedSigned(State()) && idMap.Valid()
    }

    function State(): SignedState
      reads this, idMap, neStore, poStore
    {
      SignedState(storeType, maxSketchSize, neStore.State(), poStore.State(), idMap.gammaValue, zeroBucket,
                  minAddressable, maxAddressable)
    }

    constructor (kind: StoreType, alpha: real, minValue: real, maxSize: int, dblMin: real, dblMax: real)
      requires 0.0 < alpha < 1.0 && SignedBound(kind, maxSize)
      ensures Valid() && fresh(Repr)
      ensures State() == NewSigned(kind, alpha, minValue, maxSize, dblMin, dblMax)
    {
      var mapping := new Mapping(alpha);
      var n := new MapStore(Mirror(kind), true, 0, mapping);
      var p := new MapStore(kind, true, 0, mapping);
      idMap, neStore, poStore, storeType, maxSketchSize, zeroBucket := mapping, n, p, kind, maxSize, 0;
      var minMappable := MinAddressable(mapping.gammaValue, dblMin);
      minAddressable := if minValue < minMappable then minMappable else minValue;
      maxAddressable := MaxAddressable(alpha, mapping.gammaValue, dblMax);
      Repr := {this, mapping, n, p};
    }

    method Update(value: real, count: int)
      requires Valid() && CanUpdateSigned(State(), Op(value, count))
      modifies Repr
      ensures Valid() && State() == UpdatedSigned(old(State()), Op(value, count))
    {
      ghost var before := State();
      PlacedConsistent(before, Op(value, count));
      Place(value, count);
      Fit();
    }

    method Place(value: real, count: int)
      requires Valid() && CanUpdateSigned(State(), Op(value, count))
      modifies Repr
      ensures Shape() && idMap.Valid() && State() == Placed(old(State()), Op(value, count))
    {
      hide WellFormed, Inserted, RemoveTarget, Subtract, BucketId;
      ghost var before := State();
      var absValue := Abs(value);
      if absValue <= maxAddressable {
        if absValue < minAddressable {
          if count > 0 {
            zeroBucket := zeroBucket + count;
          } else if count < 0 && zeroBucket + count >= 0 {
            zeroBucket := zeroBucket + count;
          }
        } else {
          var bid := idMap.GetBucketId(absValue);
          if count > 0 {
            if value > 0.0 {
              StoreInsert(poStore, bid, count);
            } else {
              StoreInsert(neStore, bid, count);
            }
          } else if count < 0 {
            if value > 0.0 {
              poStore.Remove(bid, count);
            } else {
              neStore.Remove(bid, count);
            }
          }
        }
      }
    }

    /** Inserting into a resizable store never folds it, so the shared mapping stays as it is. */
    method StoreInsert(store: MapStore, bid: int, count: int)
      requires store.Valid() && store.idMapping == idMap && store.resizable && count > 0
      modifies store, idMap
      ensures store.Valid() && store.State() == Inserted(old(store.State()), bid, count)
      ensures idMap.gammaValue == old(idMap.gammaValue) && idMap.Valid()
    {
      store.Insert(bid, count);
      assert store.numCollapses == old(store.numCollapses);
    }

    method Fit()
      requires Shape() && idMap.Valid() && Consistent(State())
      modifies Repr
      ensures Valid() && State() == Fitted(old(State()))
    {
      hide WellFormed, Shrunk, Collapsed, FittedAll, FittedPair, Span;
      ghost var before := State();
      var numPBuckets, numNBuckets := |poStore.buckets|, |neStore.buckets|;
      var numBuckets := numPBuckets + numNBuckets;
      if numBuckets > maxSketchSize {
        match storeType {
          case CollapsingHigh =>
            FitPair(poStore, neStore);
            assert State() == Fitted(before);
          case CollapsingLow =>
            FitPair(neStore, poStore);
            assert State() == Fitted(before);
          case CollapsingAll =>
            FitAll();
          case UnboundedStore =>
        }
      }
    }

    /** The low and the high case of base_update_impl, which are the same but for the roles of the stores. */
    method FitPair(far: MapStore, near: MapStore)
      requires idMap.Valid() && far != near && far.idMapping == idMap == near.idMapping
      requires far.Valid() && near.Valid() && far.resizable && near.resizable && maxSketchSize >= 2
      requires FoldsOneEnd(far.storeType) && FoldsOneEnd(near.storeType)
      modifies far, near, idMap
      ensures idMap.Valid() && idMap.gammaValue == old(idMap.gammaValue)
      ensures far.State() == FittedPair(old(far.State()), old(near.State()), maxSketchSize).0
      ensures near.State() == FittedPair(old(far.State()), old(near.State()), maxSketchSize).1
    {
      hide Collapsed, Shrunk, Sum, Positive;
      var numFar, numNear := |far.buckets|, |near.buckets|;
      if numNear < maxSketchSize {
        var length := far.Resize(maxSketchSize - numNear);
      } else {
        numFar := far.Resize(1);
        var length := near.Resize(maxSketchSize - numFar);
      }
    }

    /** The uniform loop of base_update_impl. */
    method FitAll()
      requires Shape() && idMap.Valid() && Consistent(State()) && storeType.CollapsingAll?
      modifies neStore, poStore, idMap
      ensures idMap.Valid() && State() == FittedAll(old(State()))
    {
      hide WellFormed, Collapsed, Span;
      ghost var start := State();
      var numBuckets := |poStore.buckets| + |neStore.buckets|;
      while numBuckets > maxSketchSize
        invariant idMap.Valid() && Consistent(State()) && zeroBucket == start.zero
        invariant numBuckets == Buckets2(State())
        invariant FittedAll(State()) == FittedAll(start)
        decreases SpanBoth(State())
      {
        FoldedBothFacts(State());
        numBuckets := Round();
      }
    }

    /** One round of that loop, and the buckets it leaves. */
    method Round() returns (numBuckets: int)
      requires Shape() && idMap.Valid() && storeType.CollapsingAll? && idMap.gammaValue * idMap.gammaValue > 1.0
      modifies neStore, poStore, idMap
      ensures idMap.Valid() && State() == FoldedBoth(old(State())) && numBuckets == Buckets2(State())
    {
      hide Collapsed;
      numBuckets := 0;
      if |neStore.buckets| > 0 {
        neStore.Collapse();
        numBuckets := numBuckets + |neStore.buckets|;
      }
      if |poStore.buckets| > 0 {
        poStore.Collapse();
        numBuckets := numBuckets + |poStore.buckets|;
      }
      idMap.Update(idMap.gammaValue * idMap.gammaValue);
    }

    function GetTotalCount(): (n: int)
      reads this, idMap, neStore, poStore
      ensures n == SignedTotal(State())
    {
      zeroBucket + poStore.totalCounts + neStore.totalCounts
    }

    function GetNumCollapses(): (r: int)
      reads this, idMap, neStore, poStore
      ensures r == NumCollapses(State())
    {
      if storeType.CollapsingAll? then
        if neStore.numCollapses > poStore.numCollapses then neStore.numCollapses else poStore.numCollapses
      else
        neStore.numCollapses + poStore.numCollapses
    }

    /** The source reads the ends of an empty map when an empty sketch is asked for any quantile in range. */
    method GetQuantile(quantile: real, wasAccurate: bool) returns (value: real, isAccurate: bool)
      requires Valid() && (0.0 <= quantile <= 1.0 ==> GetTotalCount() > 0)
      ensures SignedAnswers(State(), quantile, wasAccurate, value, isAccurate)
      ensures quantile < 0.0 || quantile > 1.0 ==> value == -1.0 && isAccurate == wasAccurate
    {
      hide Least, Greatest, Sum, SumBelow;
      if quantile < 0.0 || quantile > 1.0 {
        return -1.0, wasAccurate;
      }
      isAccurate := true;
      var rank := (quantile * (GetTotalCount() - 1) as real).Floor;
      RankInRange(quantile, GetTotalCount());
      AlphaUnique(idMap.alpha, AlphaOf(idMap.gammaValue), idMap.gammaValue);
      var neTotal := neStore.totalCounts;
      if rank < neTotal {
        rank := neTotal - rank - 1;
        var bid := RankToBid(neStore, rank);
        var lastBid, firstBid := neStore.GetMaxBid(), neStore.GetMinBid();
        if neStore.numCollapses > 0 {
          if (storeType.CollapsingLow? && bid == lastBid) || (storeType.CollapsingHigh? && bid == firstBid) {
            isAccurate := false;
          }
        }
        value := -idMap.GetBucketValue(bid);
      } else if rank >= neTotal && rank < neTotal + zeroBucket {
        return 0.0, isAccurate;
      } else {
        rank := rank - neTotal - zeroBucket;
        var bid := RankToBid(poStore, rank);
        var lastBid, firstBid := poStore.GetMaxBid(), poStore.GetMinBid();
        if poStore.numCollapses > 0 {
          if (storeType.CollapsingLow? && bid == firstBid) || (storeType.CollapsingHigh? && bid == lastBid) {
            isAccurate := false;
          }
        }
        value := idMap.GetBucketValue(bid);
      }
    }
  }
}
