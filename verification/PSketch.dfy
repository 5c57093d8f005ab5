/** The sketch for non-negative values: a zero bucket, one store and the mapping they share. */
module PSketch {
  import opened BucketIdMapping
  import opened Histogram
  import opened MapStore
  import Powers

  datatype SketchState = SketchState(
    store: StoreState,
    gamma: real,
    zero: int,
    minAddressable: real,
    maxAddressable: real)

  /** One call of the update function: count copies of value arrive, or leave when count is negative. */
  datatype Op = Op(value: real, count: int)

  ghost predicate WellFormedSketch(p: SketchState) {
    && WellFormed(p.store)
    && p.gamma > 1.0
    && p.zero >= 0
    && p.minAddressable > 0.0
  }

  predicate Addressable(p: SketchState, value: real) {
    0.0 <= value <= p.maxAddressable
  }

  /** A removal that reaches the store finds it non-empty: base_remove_impl dereferences both end keys. */
  ghost predicate CanUpdate(p: SketchState, op: Op) {
    && WellFormedSketch(p)
    && (op.count < 0 && Addressable(p, op.value) && op.value >= p.minAddressable ==> p.store.buckets != map[])
  }

  function WithStore(p: SketchState, t: StoreState): SketchState
    requires p.gamma > 1.0 && t.numCollapses >= p.store.numCollapses
  {
    p.(store := t, gamma := GammaAfter(p.gamma, p.store, t))
  }

  /** base_update_impl. */
  function Updated(p: SketchState, op: Op): SketchState
    requires CanUpdate(p, op)
  {
    if !Addressable(p, op.value) then
      p
    else if op.value < p.minAddressable then
      if op.count < 0 && p.zero + op.count < 0 then p else p.(zero := p.zero + op.count)
    else
      var bid := BucketId(p.gamma, op.value);
      if op.count > 0 then
        InsertKeepsShape(p.store, bid, op.count);
        WithStore(p, Inserted(p.store, bid, op.count))
      else
        p.(store := Removed(p.store, bid, op.count))
  }

  lemma UpdateKeepsWellFormed(p: SketchState, op: Op)
    requires CanUpdate(p, op)
    ensures WellFormedSketch(Updated(p, op))
  {
    hide Sum;
    if Addressable(p, op.value) && op.value >= p.minAddressable {
      var bid := BucketId(p.gamma, op.value);
      InsertConserves(p.store, bid, op.count);
      RemoveConserves(p.store, bid, op.count);
    }
  }

  /** A value outside the range changes nothing, and neither does a count of 0. */
  lemma NothingUpdated(p: SketchState, op: Op)
    requires CanUpdate(p, op)
    requires op.value < 0.0 || op.value > p.maxAddressable || op.count == 0
    ensures Updated(p, op) == p
  {
  }

  /** How many items a removal of v may take: those of the zero bucket or of the bucket that stands for v's id. */
  function Removable(p: SketchState, v: real): int
    requires p.gamma > 1.0 && p.minAddressable > 0.0 && (v >= p.minAddressable ==> p.store.buckets != map[])
  {
    if v < p.minAddressable then p.zero else Count(p.store.buckets, RemoveTarget(p.store, BucketId(p.gamma, v)))
  }

  /** A removal of more than that changes nothing; any other takes exactly its count from there and no other place. */
  lemma RemovalIsExact(p: SketchState, op: Op)
    requires CanUpdate(p, op) && op.count < 0 && 0.0 <= op.value <= p.maxAddressable
    ensures -op.count > Removable(p, op.value) ==> Updated(p, op) == p
    ensures -op.count <= Removable(p, op.value) ==>
              var q := Updated(p, op);
              && Total(q) == Total(p) + op.count && q.gamma == p.gamma
              && (op.value < p.minAddressable ==> q == p.(zero := p.zero + op.count))
              && (op.value >= p.minAddressable ==>
                    && q == p.(store := q.store)
                    && forall b :: Count(q.store.buckets, b) == Count(p.store.buckets, b)
                         + if b == RemoveTarget(p.store, BucketId(p.gamma, op.value)) then op.count else 0)
  {
    hide Sum, BucketId, RemoveTarget, Least, Greatest;
    if op.value >= p.minAddressable {
      var bid := BucketId(p.gamma, op.value);
      RemoveConserves(p.store, bid, op.count);
      if -op.count <= Removable(p, op.value) {
        SubtractFacts(p.store.buckets, RemoveTarget(p.store, bid), -op.count);
      }
    }
  }

  function Total(p: SketchState): int {
    p.zero + p.store.total
  }

  // ---------- quantile queries ----------

  /** r is the whole part of q (n - 1). */
  ghost predicate RankIs(quantile: real, total: int, r: int) {
    r as real <= quantile * (total - 1) as real < r as real + 1.0
  }

  /** The rank asked for: floor(q * (n - 1)). */
  function RankOf(quantile: real, total: int): (r: int)
    ensures RankIs(quantile, total, r)
  {
    (quantile * (total - 1) as real).Floor
  }

  lemma RankUnique(quantile: real, total: int, r: int)
    requires RankIs(quantile, total, r)
    ensures r == RankOf(quantile, total)
  {
  }

  lemma RankInRange(quantile: real, total: int)
    requires 0.0 <= quantile <= 1.0 && total > 0
    ensures 0 <= RankOf(quantile, total) < total
  {
    var n := (total - 1) as real;
    assert n >= 0.0;
    Powers.ScaleAtMost(n, 0.0, quantile);
    Powers.ScaleAtMost(n, quantile, 1.0);
    assert 0.0 <= quantile * n <= n;
  }

  lemma RankOfEmpty(quantile: real)
    requires 0.0 < quantile <= 1.0
    ensures RankOf(quantile, 0) == -1
  {
    assert quantile * (0 - 1) as real == -quantile;
  }

  /** Bucket b's cumulative range contains rank r. */
  ghost predicate AtRank(m: Buckets, r: int, b: int) {
    b in m && SumBelow(m, b) <= r < SumBelow(m, b + 1)
  }

  lemma AtRankUnique(m: Buckets, r: int, b: int, c: int)
    requires Positive(m) && AtRank(m, r, b) && AtRank(m, r, c)
    ensures b == c
  {
    if b < c {
      SumBelowMonotone(m, b + 1, c);
    } else if c < b {
      SumBelowMonotone(m, c + 1, b);
    }
  }

  /** Whether an answer taken from bucket b is claimed to meet the error guarantee. */
  ghost predicate Trusted(s: StoreState, b: int)
    requires b in s.buckets
  {
    s.numCollapses > 0 ==>
      !(s.kind.CollapsingLow? && b == Least(s.buckets.Keys)) &&
      !(s.kind.CollapsingHigh? && b == Greatest(s.buckets.Keys))
  }

  /** What base_get_quantile_impl answers; wasAccurate is the caller's flag before the call. */
  ghost predicate Answers(p: SketchState, quantile: real, wasAccurate: bool, value: real, isAccurate: bool)
    requires p.gamma > 1.0
  {
    var rank := RankOf(quantile, Total(p));
    if quantile < 0.0 || quantile > 1.0 then
      value == -1.0 && isAccurate == wasAccurate
    else if rank < p.zero then
      value == 0.0 && isAccurate
    else
      exists b ::
        && AtRank(p.store.buckets, rank - p.zero, b)
        && value == BucketValue(AlphaOf(p.gamma), p.gamma, b)
        && isAccurate == Trusted(p.store, b)
  }

  /** An empty sketch may be asked for any quantile but 0, for which the source reads the least key of an empty map. */
  predicate CanAsk(quantile: real, total: int) {
    total > 0 || quantile != 0.0
  }

  class PSketch {
    const idMap: Mapping
    const store: MapStore
    const storeType: StoreType
    const minAddressable: real
    const maxAddressable: real
    var zeroBucket: int

    ghost const Repr: set<object>

    ghost predicate Valid()
      reads this, Repr
    {
      && Repr == {this, idMap, store}
      && store.idMapping == idMap
      && store.storeType == storeType
      && store.Valid()
      && zeroBucket >= 0
      && minAddressable > 0.0
    }

    function State(): SketchState
      reads this, store, idMap
    {
      SketchState(store.State(), idMap.gammaValue, zeroBucket, minAddressable, maxAddressable)
    }

    constructor (kind: StoreType, alpha: real, minValue: real, maxStoreSize: int, dblMin: real, dblMax: real)
      requires 0.0 < alpha < 1.0
      requires !kind.UnboundedStore? ==> Shrinkable(kind, maxStoreSize)
      ensures Valid() && fresh(Repr)
      ensures State() == NewSketch(kind, alpha, minValue, maxStoreSize, dblMin, dblMax)
    {
      var mapping := new Mapping(alpha);
      var s := new MapStore(kind, false, maxStoreSize, mapping);
      idMap, store, storeType, zeroBucket := mapping, s, kind, 0;
      var minMappable := MinAddressable(mapping.gammaValue, dblMin);
      minAddressable := if minValue < minMappable then minMappable else minValue;
      maxAddressable := MaxAddressable(alpha, mapping.gammaValue, dblMax);
      Repr := {this, mapping, s};
    }

    method Update(value: real, count: int)
      requires Valid() && CanUpdate(State(), Op(value, count))
      modifies Repr
      ensures Valid() && State() == Updated(old(State()), Op(value, count))
    {
      hide WellFormed, Inserted, BucketId, RemoveTarget, Subtract, GammaAfter, Matches;
      ghost var before := State();
      UpdateKeepsWellFormed(before, Op(value, count));
      if IsAddressable(value) {
        if value < minAddressable {
          if count > 0 {
            zeroBucket := zeroBucket + count;
          } else if count < 0 && zeroBucket + count >= 0 {
            zeroBucket := zeroBucket + count;
          }
        } else {
          var bid := idMap.GetBucketId(value);
          if count > 0 {
            store.Insert(bid, count);
          } else if count < 0 {
            store.Remove(bid, count);
          }
        }
      }
    }

    predicate IsAddressable(value: real)
      reads this
    {
      !(value < 0.0 || value > maxAddressable)
    }

    function GetTotalCount(): (n: int)
      reads this, store, idMap
      ensures n == Total(State())
    {
      zeroBucket + store.totalCounts
    }

    /** The loop of base_get_quantile_impl: cumulating from the lowest bucket up. */
    method BidAtRank(rank: int) returns (bid: int)
      requires store.Valid() && store.buckets != map[] && zeroBucket <= rank < zeroBucket + store.totalCounts
      ensures bid in store.buckets && AtRank(store.buckets, rank - zeroBucket, bid)
    {
      hide Least, Greatest, Sum, SumBelow, Next;
      var m := store.buckets;
      var lastBid, firstBid := store.GetMaxBid(), store.GetMinBid();
      SumBelowEnds(m, firstBid, lastBid + 1);
      bid := firstBid;
      var counts := zeroBucket + store.GetBucketCount(firstBid);
      SumBelowStep(m, firstBid);
      while counts <= rank && bid < lastBid
        invariant bid in m && counts == zeroBucket + SumBelow(m, bid + 1)
        invariant SumBelow(m, bid) <= rank - zeroBucket
        decreases lastBid - bid
      {
        var next := store.GetNextBid(bid);
        SumBelowGap(m, bid + 1, next);
        SumBelowStep(m, next);
        bid := next;
        counts := counts + store.GetBucketCount(bid);
      }
    }

    method GetQuantile(quantile: real, wasAccurate: bool) returns (value: real, isAccurate: bool)
      requires Valid() && CanAsk(quantile, GetTotalCount())
      ensures Answers(State(), quantile, wasAccurate, value, isAccurate)
      ensures quantile < 0.0 || quantile > 1.0 ==> value == -1.0 && isAccurate == wasAccurate
      ensures GetTotalCount() == 0 && 0.0 < quantile <= 1.0 ==> value == 0.0 && isAccurate
    {
      hide Least, Greatest, Sum, AtRank, Positive;
      if quantile < 0.0 || quantile > 1.0 {
        return -1.0, wasAccurate;
      }
      isAccurate := true;
      var rank := (quantile * (GetTotalCount() - 1) as real).Floor;
      if rank < zeroBucket {
        return 0.0, isAccurate;
      }
      NonEmptyAtRank(State(), quantile);
      assert GetTotalCount() != 0 by {
        if GetTotalCount() == 0 {
          RankOfEmpty(quantile);
        }
      }
      var lastBid, firstBid := store.GetMaxBid(), store.GetMinBid();
      var bid := BidAtRank(rank);
      if store.numCollapses > 0 {
        if (storeType.CollapsingLow? && bid == firstBid) || (storeType.CollapsingHigh? && bid == lastBid) {
          isAccurate := false;
        }
      }
      AlphaUnique(idMap.alpha, AlphaOf(idMap.gammaValue), idMap.gammaValue);
      value := idMap.GetBucketValue(bid);
      assert rank == RankOf(quantile, Total(State()));
      assert AtRank(State().store.buckets, rank - State().zero, bid);
      assert isAccurate == Trusted(State().store, bid);
      assert value == BucketValue(AlphaOf(State().gamma), State().gamma, bid);
    }
  }

  /** A rank beyond the zero bucket needs a non-empty store. */
  lemma NonEmptyAtRank(p: SketchState, quantile: real)
    requires WellFormedSketch(p) && 0.0 <= quantile <= 1.0 && CanAsk(quantile, Total(p))
    requires RankOf(quantile, Total(p)) >= p.zero
    ensures p.store.buckets != map[] && RankOf(quantile, Total(p)) < Total(p)
  {
    SumNonNegative(p.store.buckets);
    if Total(p) > 0 {
      RankInRange(quantile, Total(p));
    } else {
      RankOfEmpty(quantile);
    }
    assert Sum(map[]) == 0;
  }

  lemma SumNonNegative(m: Buckets)
    requires Positive(m)
    ensures Sum(m) >= 0
  {
    CountAtMostSum(m, 0);
  }

  /** dds_psketch_init. */
  function NewSketch(kind: StoreType, alpha: real, minValue: real, maxStoreSize: int, dblMin: real,
                     dblMax: real): SketchState
    requires 0.0 < alpha < 1.0
  {
    var gamma := GammaOf(alpha);
    var minMappable := MinAddressable(gamma, dblMin);
    SketchState(
      Fresh(kind, false, maxStoreSize), gamma, 0,
      if minValue < minMappable then minMappable else minValue,
      MaxAddressable(alpha, gamma, dblMax))
  }

  /** The range of a new sketch: from the larger of three bounds to the smaller of two. */
  lemma NewRange(kind: StoreType, alpha: real, minValue: real, maxStoreSize: int, dblMin: real, dblMax: real)
    requires 0.0 < alpha < 1.0
    ensures var p := NewSketch(kind, alpha, minValue, maxStoreSize, dblMin, dblMax);
            var least, greatest := Powers.Pow(GammaOf(alpha), INT_MIN), Powers.Pow(GammaOf(alpha), INT_MAX);
            && p.minAddressable >= minValue && p.minAddressable >= least && p.minAddressable >= dblMin
            && (p.minAddressable == minValue || p.minAddressable == least || p.minAddressable == dblMin)
            && p.maxAddressable <= greatest && p.maxAddressable * (1.0 - alpha) <= dblMax
            && (p.maxAddressable == greatest || p.maxAddressable * (1.0 - alpha) == dblMax)
  {
    hide Powers.Pow;
    RangeEnds(alpha, GammaOf(alpha), dblMin, dblMax);
  }
}
