/**
 The bucket store: a map from bucket id to count that folds buckets together when there are too many.
 StoreState and the functions over it say what each operation does; the class MapStore is the object
 the sketches share, proved against those functions.
 */
module MapStore {
  import opened BucketIdMapping
  import opened Histogram
  import Collections
  import Powers

  datatype StoreType = UnboundedStore | CollapsingHigh | CollapsingLow | CollapsingAll

  datatype StoreState = StoreState(
    kind: StoreType,
    resizable: bool,
    maxBuckets: int,
    buckets: Buckets,
    total: int,
    collapsed: bool,
    numCollapses: int)

  /** The bounds for which folding until the bound is met ends. */
  predicate Shrinkable(kind: StoreType, bound: int) {
    && !kind.UnboundedStore?
    && bound >= if kind.CollapsingAll? then 2 else 1
  }

  predicate FoldsOneEnd(kind: StoreType) {
    kind.CollapsingLow? || kind.CollapsingHigh?
  }

  /** What holds of every store a client can reach. */
  ghost predicate WellFormed(s: StoreState) {
    && Positive(s.buckets)
    && s.total == Sum(s.buckets)
    && s.numCollapses >= 0
    && (s.collapsed <==> s.numCollapses > 0)
    && (s.kind.UnboundedStore? ==> !s.collapsed)
    && (s.collapsed && !s.kind.CollapsingAll? ==> s.buckets != map[])
    && (!s.resizable && !s.kind.UnboundedStore? ==>
          Shrinkable(s.kind, s.maxBuckets) && |s.buckets| <= s.maxBuckets)
  }

  function Fresh(kind: StoreType, resizable: bool, maxBuckets: int): StoreState {
    StoreState(kind, resizable, maxBuckets, map[], 0, false, 0)
  }

  // ---------- folding ----------

  /** Move the count of bucket b into bucket c and drop b. */
  function Fold(m: Buckets, b: int, c: int): Buckets
    requires b in m && c in m
  {
    m[c := m[b] + m[c]] - {b}
  }

  /** collapse_impl. */
  function Collapsed(s: StoreState): StoreState {
    match s.kind
    case UnboundedStore => s
    case CollapsingLow =>
      (match First(s.buckets)
       case Invalid => s
       case At(first) =>
         match Next(s.buckets, first)
         case Invalid => s
         case At(second) => Marked(s, Fold(s.buckets, first, second)))
    case CollapsingHigh =>
      (match Last(s.buckets)
       case Invalid => s
       case At(last) =>
         match Prev(s.buckets, last)
         case Invalid => s
         case At(second) => Marked(s, Fold(s.buckets, last, second)))
    case CollapsingAll => Marked(s, Halve(s.buckets))
  }

  function Marked(s: StoreState, m: Buckets): StoreState {
    s.(buckets := m, collapsed := true, numCollapses := s.numCollapses + 1)
  }

  lemma FoldFacts(m: Buckets, b: int, c: int)
    requires b in m && c in m && b != c
    ensures Fold(m, b, c).Keys == m.Keys - {b}
    ensures |Fold(m, b, c)| == |m| - 1
    ensures Sum(Fold(m, b, c)) == Sum(m)
    ensures Positive(m) ==> Positive(Fold(m, b, c))
  {
    var n := m[c := m[b] + m[c]];
    var f := Fold(m, b, c);
    assert n.Keys == m.Keys;
    assert |n| == |n.Keys| == |m|;
    RemoveShrinks(n, b);
    SumDiffers(m, n, c, m[b]);
    SumDiffers(n, f, b, -m[b]);
  }

  function Measure(s: StoreState): nat {
    if s.kind.CollapsingAll? then Span(s.buckets) else |s.buckets|
  }

  /** Over the bound, a fold always makes progress, although a uniform fold may merge no two buckets. */
  lemma CollapsedFacts(s: StoreState)
    requires Positive(s.buckets)
    requires |s.buckets| > if s.kind.CollapsingAll? then 2 else 1
    requires !s.kind.UnboundedStore?
    ensures Positive(Collapsed(s).buckets) && Collapsed(s).buckets != map[]
    ensures Sum(Collapsed(s).buckets) == Sum(s.buckets)
    ensures Collapsed(s) == s.(buckets := Collapsed(s).buckets, collapsed := true, numCollapses := s.numCollapses + 1)
    ensures Measure(Collapsed(s)) < Measure(s)
  {
    hide Fold, Sum, Halve, Span, Least, Greatest, Next, Prev;
    match s.kind
    case CollapsingLow => FoldLowFacts(s.buckets);
    case CollapsingHigh => FoldHighFacts(s.buckets);
    case CollapsingAll => HalveFacts(s.buckets);
  }

  lemma HalveFacts(m: Buckets)
    requires Positive(m) && |m| > 2
    ensures Positive(Halve(m)) && Halve(m) != map[]
    ensures Sum(Halve(m)) == Sum(m)
    ensures Span(Halve(m)) < Span(m)
  {
    HalvePositive(m);
    SumHalve(m);
    HalveReducesSpan(m);
    assert |m| == |m.Keys|;
    var k := Least(m.Keys);
    assert CeilHalf(k) in Halve(m);
  }

  lemma FoldLowFacts(m: Buckets)
    requires Positive(m) && |m| > 1
    ensures First(m).At? && Next(m, First(m).key).At?
    ensures var f := Fold(m, First(m).key, Next(m, First(m).key).key);
            Positive(f) && f != map[] && Sum(f) == Sum(m) && |f| < |m|
  {
    assert |m| == |m.Keys|;
    var b := Least(m.Keys);
    var j := OtherKey(m, b);
    FoldFacts(m, b, Next(m, b).key);
  }

  lemma FoldHighFacts(m: Buckets)
    requires Positive(m) && |m| > 1
    ensures Last(m).At? && Prev(m, Last(m).key).At?
    ensures var f := Fold(m, Last(m).key, Prev(m, Last(m).key).key);
            Positive(f) && f != map[] && Sum(f) == Sum(m) && |f| < |m|
  {
    assert |m| == |m.Keys|;
    var b := Greatest(m.Keys);
    var j := OtherKey(m, b);
    FoldFacts(m, b, Prev(m, b).key);
  }

  lemma OtherKey(m: Buckets, k: int) returns (j: int)
    requires |m| > 1 && k in m
    ensures j in m && j != k
  {
    RemoveShrinks(m, k);
    assert |m - {k}| == |(m - {k}).Keys|;
    j := Collections.Inhabited((m - {k}).Keys);
  }

  /** The loop "while there are more than bound buckets, collapse". */
  function Shrunk(s: StoreState, bound: int): (t: StoreState)
    requires Shrinkable(s.kind, bound) && Positive(s.buckets)
    ensures |t.buckets| <= bound && Positive(t.buckets)
    ensures t == s.(buckets := t.buckets, collapsed := t.collapsed, numCollapses := t.numCollapses)
    ensures t.numCollapses >= s.numCollapses
    ensures t.collapsed == (s.collapsed || t.numCollapses > s.numCollapses)
    ensures Sum(t.buckets) == Sum(s.buckets)
    ensures s.buckets != map[] ==> t.buckets != map[]
    decreases Measure(s)
  {
    if |s.buckets| <= bound then
      s
    else
      CollapsedFacts(s);
      Shrunk(Collapsed(s), bound)
  }

  /** The loop of a uniform store, run for k rounds. */
  function Folded(s: StoreState, k: nat): (t: StoreState)
    ensures t.kind == s.kind
  {
    if k == 0 then s else Collapsed(Folded(s, k - 1))
  }

  lemma {:induction false} FoldedFirst(s: StoreState, k: nat)
    ensures Folded(Collapsed(s), k) == Folded(s, k + 1)
  {
    hide Collapsed;
    if k > 0 {
      FoldedFirst(s, k - 1);
    }
  }

  /** The loop stops at the first number of rounds that leaves no more than the bound. */
  lemma {:induction false} ShrunkIsLeast(s: StoreState, bound: int)
    requires Shrinkable(s.kind, bound) && Positive(s.buckets)
    ensures var k := Shrunk(s, bound).numCollapses - s.numCollapses;
            && Shrunk(s, bound) == Folded(s, k)
            && forall j: nat | j < k :: |Folded(s, j).buckets| > bound
    decreases Measure(s)
  {
    hide Collapsed, Sum, Span;
    if |s.buckets| > bound {
      CollapsedFacts(s);
      var t := Collapsed(s);
      ShrunkIsLeast(t, bound);
      var k := Shrunk(s, bound).numCollapses - s.numCollapses;
      FoldedFirst(s, k - 1);
      forall j: nat | j < k
        ensures |Folded(s, j).buckets| > bound
      {
        if j > 0 {
          FoldedFirst(s, j - 1);
        }
      }
    }
  }

  ghost predicate HasUpper(m: Buckets) {
    exists k :: k in m && k >= 1
  }

  ghost predicate HasLower(m: Buckets) {
    exists k :: k in m && k <= 0
  }

  /** The sides of the gap between 0 and 1 on which there are ids; no halving crosses that gap. */
  ghost function Sides(m: Buckets): nat {
    (if HasUpper(m) then 1 else 0) + if HasLower(m) then 1 else 0
  }

  lemma SidesStay(m: Buckets)
    ensures HasUpper(Halve(m)) <==> HasUpper(m)
    ensures HasLower(Halve(m)) <==> HasLower(m)
  {
    forall k | k in m
      ensures CeilHalf(k) in Halve(m) && (CeilHalf(k) >= 1 <==> k >= 1)
    {
    }
    if j :| j in Halve(m) && j >= 1 {
      var k :| k in m && CeilHalf(k) == j;
      assert k >= 1;
    }
    if j :| j in Halve(m) && j <= 0 {
      var k :| k in m && CeilHalf(k) == j;
      assert k <= 0;
    }
  }

  lemma {:induction false} FoldedSides(s: StoreState, k: nat)
    requires s.kind.CollapsingAll?
    ensures Sides(Folded(s, k).buckets) == Sides(s.buckets)
    ensures Span(Folded(s, k).buckets) <= if Span(s.buckets) > k then Span(s.buckets) - k else 0
  {
    if k > 0 {
      hide HasUpper, HasLower, Span;
      FoldedSides(s, k - 1);
      var m := Folded(s, k - 1).buckets;
      SidesStay(m);
      HalveSpan(m);
    }
  }

  /** There is a bucket for each occupied side, and no other once all ids are 0 or 1. */
  lemma SidesAreBuckets(m: Buckets)
    ensures Sides(m) <= |m|
    ensures Span(m) == 0 ==> Sides(m) == |m|
  {
    hide Span;
    assert |m| == |m.Keys|;
    if HasUpper(m) {
      var a :| a in m && a >= 1;
      if HasLower(m) {
        var b :| b in m && b <= 0;
        Collections.Subset({a, b}, m.Keys);
      } else {
        Collections.Subset({a}, m.Keys);
      }
    } else if HasLower(m) {
      var b :| b in m && b <= 0;
      Collections.Subset({b}, m.Keys);
    }
    if Span(m) == 0 {
      NearGap(m);
    }
  }

  lemma NearGap(m: Buckets)
    requires Span(m) == 0
    ensures |m| <= Sides(m)
  {
    hide Span;
    var ends := (if HasLower(m) then {0} else {}) + if HasUpper(m) then {1} else {};
    forall k | k in m
      ensures k in ends
    {
      SpanBounds(m, k);
    }
    Collections.Subset(m.Keys, ends);
    assert |m| == |m.Keys|;
  }

  /** Whatever the bound, the loop of a uniform store ends exactly when the occupied sides fit into it. */
  lemma UniformLoopEnds(s: StoreState, bound: int)
    requires s.kind.CollapsingAll?
    ensures (exists k: nat :: |Folded(s, k).buckets| <= bound) <==> Sides(s.buckets) <= bound
  {
    hide Sides, Span, Folded;
    if k: nat :| |Folded(s, k).buckets| <= bound {
      FoldedSides(s, k);
      SidesAreBuckets(Folded(s, k).buckets);
    }
    if Sides(s.buckets) <= bound {
      var k := Span(s.buckets);
      FoldedSides(s, k);
      SidesAreBuckets(Folded(s, k).buckets);
    }
  }

  /** All ids lie on the same side of the gap between 0 and 1. */
  ghost predicate OneSided(m: Buckets) {
    forall a, b | a in m && b in m :: a >= 1 <==> b >= 1
  }

  /** With bound 1 the loop of a uniform store ends exactly when all its ids lie on one side. */
  lemma UniformBoundOne(s: StoreState)
    requires s.kind.CollapsingAll?
    ensures (exists k: nat :: |Folded(s, k).buckets| <= 1) <==> OneSided(s.buckets)
  {
    UniformLoopEnds(s, 1);
  }

  /** One item of value 1 and one of value gamma: ids 0 and 1. */
  function OneEach(gamma: real): Buckets
    requires gamma > 1.0
  {
    map[BucketId(gamma, 1.0) := 1, BucketId(gamma, gamma) := 1]
  }

  lemma OneEachIds(gamma: real)
    requires gamma > 1.0
    ensures OneEach(gamma).Keys == {0, 1} && Sides(OneEach(gamma)) == 2
  {
    hide BucketId;
    Powers.PowStep(gamma, -1);
    Powers.PowStep(gamma, 0);
    Powers.PowIncreasing(gamma, -1, 0);
    assert InBucket(gamma, 1.0, 0) && InBucket(gamma, gamma, 1);
    BucketIdUnique(gamma, 1.0, BucketId(gamma, 1.0), 0);
    BucketIdUnique(gamma, gamma, BucketId(gamma, gamma), 1);
    assert 0 in OneEach(gamma) && 1 in OneEach(gamma);
  }

  /** The input that a uniform sketch with bound 1 never finishes, whatever its gamma: the items 1 and gamma. */
  lemma BoundOneNeverEnds(gamma: real, k: nat)
    requires gamma > 1.0
    ensures var s := Fresh(CollapsingAll, false, 1).(buckets := OneEach(gamma), total := 2);
            |Folded(s, k).buckets| > s.maxBuckets
  {
    hide OneEach, Sides, Folded;
    var s := Fresh(CollapsingAll, false, 1).(buckets := OneEach(gamma), total := 2);
    OneEachIds(gamma);
    UniformLoopEnds(s, 1);
  }

  // ---------- inserting and removing ----------

  /** Where base_insert_impl puts an item of id bid. */
  function InsertTarget(s: StoreState, bid: int): int {
    if bid in s.buckets || !s.collapsed || s.buckets == map[] then
      bid
    else if s.kind.CollapsingHigh? && bid > Greatest(s.buckets.Keys) then
      Greatest(s.buckets.Keys)
    else if s.kind.CollapsingLow? && bid < Least(s.buckets.Keys) then
      Least(s.buckets.Keys)
    else
      bid
  }

  /** base_insert_impl. */
  function Inserted(s: StoreState, bid: int, count: int): StoreState
    requires WellFormed(s)
  {
    if count <= 0 then
      s
    else
      var added := s.(buckets := Add(s.buckets, InsertTarget(s, bid), count));
      var fitted :=
        if bid in s.buckets || s.resizable || s.kind.UnboundedStore? then
          added
        else
          Shrunk(added, s.maxBuckets);
      fitted.(total := s.total + count)
  }

  /** The end bucket that stands for every id beyond it. */
  predicate AtClampedEnd(s: StoreState, bid: int)
    requires s.buckets != map[]
  {
    && s.collapsed
    && ((s.kind.CollapsingHigh? && bid >= Greatest(s.buckets.Keys)) ||
        (s.kind.CollapsingLow? && bid <= Least(s.buckets.Keys)))
  }

  function RemoveTarget(s: StoreState, bid: int): int
    requires s.buckets != map[]
  {
    if AtClampedEnd(s, bid) then
      if s.kind.CollapsingHigh? then Greatest(s.buckets.Keys) else Least(s.buckets.Keys)
    else
      bid
  }

  function Subtract(m: Buckets, b: int, c: int): Buckets
    requires b in m
  {
    if m[b] == c then m - {b} else m[b := m[b] - c]
  }

  /** base_remove_impl: count is negative for a removal; the source reads both ends of the map first. */
  function Removed(s: StoreState, bid: int, count: int): StoreState
    requires count < 0 ==> s.buckets != map[]
  {
    if count >= 0 then
      s
    else
      var c := -count;
      var target := RemoveTarget(s, bid);
      if target !in s.buckets || s.buckets[target] < c then
        s
      else
        var drained := AtClampedEnd(s, bid) && s.buckets[target] == c;
        s.(buckets := Subtract(s.buckets, target, c),
           total := s.total - c,
           collapsed := s.collapsed && !drained,
           numCollapses := if drained then 0 else s.numCollapses)
  }

  // ---------- conservation of counts ----------

  lemma AddFacts(m: Buckets, b: int, c: int)
    requires Positive(m) && c > 0
    ensures Positive(Add(m, b, c))
    ensures Sum(Add(m, b, c)) == Sum(m) + c
    ensures b in m ==> Add(m, b, c).Keys == m.Keys && |Add(m, b, c)| == |m|
  {
    SumDiffers(m, Add(m, b, c), b, c);
    if b in m {
      assert Add(m, b, c).Keys == m.Keys;
      assert |m| == |m.Keys| && |Add(m, b, c)| == |Add(m, b, c).Keys|;
    }
  }

  lemma SubtractFacts(m: Buckets, b: int, c: int)
    requires Positive(m) && b in m && 0 < c <= m[b]
    ensures Positive(Subtract(m, b, c))
    ensures Sum(Subtract(m, b, c)) == Sum(m) - c
    ensures |Subtract(m, b, c)| <= |m|
    ensures forall k :: Count(Subtract(m, b, c), k) == Count(m, k) - if k == b then c else 0
  {
    var n := Subtract(m, b, c);
    SumDiffers(m, n, b, -c);
    if m[b] == c {
      RemoveShrinks(m, b);
    } else {
      assert n.Keys == m.Keys;
      assert |m| == |m.Keys| && |n| == |n.Keys|;
    }
  }

  /** An insertion adds exactly its count, whatever folding it sets off, and keeps the store well formed. */
  lemma InsertConserves(s: StoreState, bid: int, count: int)
    requires WellFormed(s)
    ensures WellFormed(Inserted(s, bid, count))
    ensures Inserted(s, bid, count).total == s.total + if count > 0 then count else 0
    ensures count > 0 ==> Inserted(s, bid, count).buckets != map[]
    ensures count <= 0 ==> Inserted(s, bid, count) == s
  {
    if count > 0 {
      AddFacts(s.buckets, InsertTarget(s, bid), count);
      assert InsertTarget(s, bid) in Add(s.buckets, InsertTarget(s, bid), count);
    }
  }

  /** Inserting never lowers the number of collapses and never reconfigures the store. */
  lemma InsertKeepsShape(s: StoreState, bid: int, count: int)
    requires WellFormed(s)
    ensures var t := Inserted(s, bid, count);
            && t.numCollapses >= s.numCollapses
            && t.kind == s.kind && t.resizable == s.resizable && t.maxBuckets == s.maxBuckets
  {
    hide Sum;
    if count > 0 {
      AddFacts(s.buckets, InsertTarget(s, bid), count);
    }
  }

  /** A removal takes exactly its count or, when rejected, changes nothing at all. */
  lemma RemoveConserves(s: StoreState, bid: int, count: int)
    requires WellFormed(s)
    requires count < 0 ==> s.buckets != map[]
    ensures WellFormed(Removed(s, bid, count))
    ensures Removed(s, bid, count) == s || Removed(s, bid, count).total == s.total + count
    ensures Removed(s, bid, count) == s <==>
              count >= 0 || Count(s.buckets, RemoveTarget(s, bid)) < -count
  {
    if count < 0 {
      var target := RemoveTarget(s, bid);
      if target in s.buckets && -count <= s.buckets[target] {
        SubtractFacts(s.buckets, target, -count);
        var t := Removed(s, bid, count);
        if t.collapsed && !t.kind.CollapsingAll? {
          if s.buckets[target] == -count {
            var end := if s.kind.CollapsingHigh? then Greatest(s.buckets.Keys) else Least(s.buckets.Keys);
            assert end in t.buckets;
          }
        }
      }
    }
  }

  /** The store is folded and no stored id lies below this one: it is counted in the low end bucket. */
  ghost predicate AtLowEnd(s: StoreState, id: int) {
    s.collapsed && forall k | k in s.buckets :: id <= k
  }

  ghost predicate AtHighEnd(s: StoreState, id: int) {
    s.collapsed && forall k | k in s.buckets :: k <= id
  }

  /** A removal of c at or beyond the folded end takes exactly what the end bucket holds. */
  ghost predicate Drains(s: StoreState, bid: int, c: int) {
    exists e :: e in s.buckets && s.buckets[e] == c &&
                ((s.kind.CollapsingLow? && AtLowEnd(s, e) && bid <= e) ||
                 (s.kind.CollapsingHigh? && AtHighEnd(s, e) && bid >= e))
  }

  /** Draining the folded end resets both flags, and no other removal touches either. */
  lemma RemovedFlags(s: StoreState, bid: int, c: int)
    requires WellFormed(s) && c > 0 && s.buckets != map[]
    ensures var t := Removed(s, bid, -c);
            if Drains(s, bid, c) then !t.collapsed && t.numCollapses == 0
            else t.collapsed == s.collapsed && t.numCollapses == s.numCollapses
  {
    hide Sum;
    assert s.buckets.Keys != {};
    var lo, hi := Least(s.buckets.Keys), Greatest(s.buckets.Keys);
    if Drains(s, bid, c) {
      var e :| e in s.buckets && s.buckets[e] == c &&
               ((s.kind.CollapsingLow? && AtLowEnd(s, e) && bid <= e) ||
                (s.kind.CollapsingHigh? && AtHighEnd(s, e) && bid >= e));
      assert e == if s.kind.CollapsingLow? then lo else hi;
    } else {
      assert s.collapsed ==> AtLowEnd(s, lo) && AtHighEnd(s, hi);
    }
  }

  lemma RemoveKeepsWellFormed(s: StoreState, bid: int, count: int)
    requires WellFormed(s) && (count < 0 ==> s.buckets != map[])
    ensures WellFormed(Removed(s, bid, count))
  {
    RemoveConserves(s, bid, count);
  }

  // ---------- the store object ----------

  /** The resolution of the shared mapping after a store has folded from s to t. */
  function GammaAfter(gamma: real, s: StoreState, t: StoreState): real
    requires gamma > 1.0 && t.numCollapses >= s.numCollapses
  {
    if s.kind.CollapsingAll? then Squared(gamma, t.numCollapses - s.numCollapses) else gamma
  }

  class MapStore {
    var buckets: Buckets
    var totalCounts: int
    var isCollapsed: bool
    var numCollapses: int
    const storeType: StoreType
    const resizable: bool
    const maxNumBuckets: int
    const idMapping: Mapping

    function State(): StoreState
      reads this
    {
      StoreState(storeType, resizable, maxNumBuckets, buckets, totalCounts, isCollapsed, numCollapses)
    }

    ghost predicate Valid()
      reads this, idMapping
    {
      WellFormed(State()) && idMapping.Valid()
    }

    constructor (kind: StoreType, resizable: bool, maxNumBuckets: int, idMapping: Mapping)
      requires idMapping.Valid()
      requires !resizable && !kind.UnboundedStore? ==> Shrinkable(kind, maxNumBuckets)
      ensures Valid() && State() == Fresh(kind, resizable, maxNumBuckets) && this.idMapping == idMapping
    {
      buckets, totalCounts, isCollapsed, numCollapses := map[], 0, false, 0;
      storeType, this.resizable, this.maxNumBuckets, this.idMapping := kind, resizable, maxNumBuckets, idMapping;
    }

    method Collapse()
      modifies this
      ensures State() == Collapsed(old(State()))
    {
      hide Halve, Least, Greatest;
      match storeType {
        case UnboundedStore =>
          return;
        case CollapsingLow =>
          var itor := First(buckets);
          if itor.Invalid? {
            return;
          }
          var first := itor.key;
          itor := Next(buckets, first);
          if itor.Invalid? {
            return;
          }
          buckets := buckets[itor.key := buckets[first] + buckets[itor.key]];
          buckets := buckets - {first};
          assert buckets == Fold(old(buckets), first, itor.key);
        case CollapsingHigh =>
          var itor := Last(buckets);
          if itor.Invalid? {
            return;
          }
          var last := itor.key;
          itor := Prev(buckets, last);
          if itor.Invalid? {
            return;
          }
          buckets := buckets[itor.key := buckets[itor.key] + buckets[last]];
          buckets := buckets - {last};
          assert buckets == Fold(old(buckets), last, itor.key);
        case CollapsingAll =>
          buckets := HalvedCopy();
      }
      isCollapsed := true;
      numCollapses := numCollapses + 1;
    }

    /** The copying loop of the uniform collapse: one iterator pass over the old map. */
    method HalvedCopy() returns (copy: Buckets)
      ensures copy == Halve(buckets)
    {
      copy := map[];
      var itor := First(buckets);
      ghost var done: Buckets := map[];
      while itor.At?
        invariant itor.At? ==> itor.key in buckets && done == Below(buckets, itor.key)
        invariant itor.Invalid? ==> done == buckets
        invariant copy == Halve(done)
        decreases |buckets| - |done|, itor.At?
      {
        var bid, value := itor.key, buckets[itor.key];
        HalveOneMore(done, bid, value);
        copy := Add(copy, CeilHalf(bid), value);
        PassOne(buckets, bid);
        done := done[bid := value];
        itor := Next(buckets, bid);
      }
    }

    method Insert(bid: int, count: int)
      requires Valid()
      modifies this, idMapping
      ensures Valid() && State() == Inserted(old(State()), bid, count)
      ensures numCollapses >= old(numCollapses)
      ensures idMapping.gammaValue == GammaAfter(old(idMapping.gammaValue), old(State()), State())
    {
      hide Sum, Shrunk, Least, Greatest, Span;
      if count <= 0 {
        return;
      }
      ghost var before := State();
      InsertConserves(before, bid, count);
      AddFacts(buckets, InsertTarget(before, bid), count);
      if bid in buckets {
        buckets := buckets[bid := buckets[bid] + count];
      } else {
        PlaceNew(bid, count);
        if !resizable {
          if !storeType.UnboundedStore? {
            ShrinkTo(maxNumBuckets);
          }
        }
      }
      totalCounts := totalCounts + count;
      assert buckets == Inserted(before, bid, count).buckets;
      assert State() == Inserted(before, bid, count);
    }

    /** The part of base_insert_impl for an id that has no bucket. */
    method PlaceNew(bid: int, count: int)
      requires bid !in buckets && (isCollapsed && !storeType.CollapsingAll? ==> buckets != map[])
      modifies this`buckets
      ensures buckets == Add(old(buckets), InsertTarget(old(State()), bid), count)
    {
      if isCollapsed {
        if storeType.CollapsingHigh? {
          var last := Last(buckets).key;
          if bid > last {
            buckets := buckets[last := buckets[last] + count];
          } else {
            buckets := Add(buckets, bid, count);
          }
        } else if storeType.CollapsingLow? {
          var first := First(buckets).key;
          if bid < first {
            buckets := buckets[first := buckets[first] + count];
          } else {
            buckets := Add(buckets, bid, count);
          }
        } else {
          buckets := Add(buckets, bid, count);
        }
      } else {
        buckets := Add(buckets, bid, count);
      }
    }

    /** The bound-enforcing loop shared by base_insert_impl and resize_impl. */
    method ShrinkTo(bound: int)
      requires Shrinkable(storeType, bound) && Positive(buckets) && idMapping.Valid()
      modifies this, idMapping
      ensures State() == Shrunk(old(State()), bound)
      ensures idMapping.Valid()
      ensures idMapping.gammaValue == GammaAfter(old(idMapping.gammaValue), old(State()), State())
    {
      hide Sum, Collapsed, Span;
      ghost var start, gamma := State(), idMapping.gammaValue;
      while |buckets| > bound
        invariant Positive(buckets) && idMapping.Valid()
        invariant Shrunk(State(), bound) == Shrunk(start, bound)
        invariant numCollapses >= start.numCollapses
        invariant idMapping.gammaValue == GammaAfter(gamma, start, State())
        decreases Measure(State())
      {
        CollapsedFacts(State());
        Collapse();
        if storeType.CollapsingAll? {
          idMapping.Update(idMapping.gammaValue * idMapping.gammaValue);
        }
      }
    }

    method Resize(newLength: int) returns (length: int)
      requires Valid() && (resizable && !storeType.UnboundedStore? ==> Shrinkable(storeType, newLength))
      modifies this, idMapping
      ensures Valid()
      ensures State() ==
              if resizable && !storeType.UnboundedStore? then Shrunk(old(State()), newLength) else old(State())
      ensures numCollapses >= old(numCollapses)
      ensures idMapping.gammaValue == GammaAfter(old(idMapping.gammaValue), old(State()), State())
      ensures length == |buckets|
    {
      if !resizable || storeType.UnboundedStore? {
        return |buckets|;
      }
      ShrinkTo(newLength);
      length := |buckets|;
    }

    method Remove(bid: int, count: int)
      requires Valid() && (count < 0 ==> buckets != map[])
      modifies this
      ensures Valid() && State() == Removed(old(State()), bid, count)
      ensures count < 0 && Drains(old(State()), bid, -count) ==> !isCollapsed && numCollapses == 0
      ensures !(count < 0 && Drains(old(State()), bid, -count)) ==>
                isCollapsed == old(isCollapsed) && numCollapses == old(numCollapses)
    {
      hide Sum, Positive, Least, Greatest, WellFormed, AtClampedEnd, RemoveTarget, Drains;
      ghost var before := State();
      RemoveKeepsWellFormed(before, bid, count);
      if count >= 0 {
        return;
      }
      RemovedFlags(before, bid, -count);
      var c := -count;
      var found, target, key := Aim(bid, c);
      if !found || buckets[target] < c {
        return;
      }
      buckets := buckets[target := buckets[target] - c];
      if buckets[target] == 0 {
        buckets := buckets - {key};
      }
      totalCounts := totalCounts - c;
      assert buckets == Subtract(before.buckets, target, c);
    }

    /** The bucket to take from; draining the end bucket of a folded store resets its flags. */
    method Aim(bid: int, c: int) returns (found: bool, target: int, key: int)
      requires buckets != map[]
      modifies this`isCollapsed, this`numCollapses
      ensures found ==> target in buckets
      ensures var s := old(State());
              var drained := found && AtClampedEnd(s, bid) && buckets[target] == c;
              && (found <==> RemoveTarget(s, bid) in buckets)
              && (found ==> target == RemoveTarget(s, bid) && (buckets[target] == c ==> key == target))
              && isCollapsed == (s.collapsed && !drained)
              && numCollapses == if drained then 0 else s.numCollapses
    {
      hide Least, Greatest;
      var maxBid, minBid := Last(buckets).key, First(buckets).key;
      target, key := bid, bid;
      if isCollapsed {
        if storeType.CollapsingHigh? && bid >= maxBid {
          target := maxBid;
          if buckets[target] == c {
            isCollapsed, numCollapses := false, 0;
            key := maxBid;
          }
        } else if storeType.CollapsingLow? && bid <= minBid {
          target := minBid;
          if buckets[target] == c {
            isCollapsed, numCollapses := false, 0;
            key := minBid;
          }
        }
      }
      found := target in buckets;
    }

    function GetMinBid(): (b: int)
      requires buckets != map[]
      reads this
      ensures b in buckets && forall k | k in buckets :: b <= k
    {
      First(buckets).key
    }

    function GetMaxBid(): (b: int)
      requires buckets != map[]
      reads this
      ensures b in buckets && forall k | k in buckets :: k <= b
    {
      Last(buckets).key
    }

    /** The id before bid, or bid itself when there is none or bid is not stored. */
    function GetPrevBid(bid: int): (b: int)
      reads this
      ensures bid in buckets && (exists k | k in buckets :: k < bid) ==>
                b in buckets && b < bid && forall k | k in buckets && k < bid :: k <= b
      ensures !(bid in buckets && exists k | k in buckets :: k < bid) ==> b == bid
    {
      if bid !in buckets then bid else match Prev(buckets, bid) case Invalid => bid case At(k) => k
    }

    /** The id after bid, or bid itself when there is none or bid is not stored. */
    function GetNextBid(bid: int): (b: int)
      reads this
      ensures bid in buckets && (exists k | k in buckets :: bid < k) ==>
                b in buckets && bid < b && forall k | k in buckets && bid < k :: b <= k
      ensures !(bid in buckets && exists k | k in buckets :: bid < k) ==> b == bid
    {
      if bid !in buckets then bid else match Next(buckets, bid) case Invalid => bid case At(k) => k
    }

    function GetBucketCount(bid: int): int
      reads this
    {
      if bid !in buckets then -1 else buckets[bid]
    }
  }

  /** Stepping the iterator past b adds b, and nothing else, to the part already visited. */
  lemma PassOne(m: Buckets, b: int)
    requires b in m
    ensures |Below(m, b)| < |Below(m, b)[b := m[b]]| <= |m|
    ensures Next(m, b).At? ==> Below(m, b)[b := m[b]] == Below(m, Next(m, b).key)
    ensures Next(m, b).Invalid? ==> Below(m, b)[b := m[b]] == m
  {
    hide Next;
    var done := Below(m, b)[b := m[b]];
    assert done - {b} == Below(m, b);
    RemoveShrinks(done, b);
    KeysSubset(done, m);
  }

  lemma KeysSubset(m: Buckets, n: Buckets)
    requires m.Keys <= n.Keys
    ensures |m| <= |n|
  {
    Collections.Subset(m.Keys, n.Keys);
    assert |m| == |m.Keys| && |n| == |n.Keys|;
  }
}
