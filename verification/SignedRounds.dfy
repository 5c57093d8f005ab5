/** What the collapse counter of a uniform signed sketch counts, and when that is the number of rounds. */
module SignedRounds {
  import opened Accuracy
  import opened BucketIdMapping
  import opened GSketch
  import opened Histogram
  import opened MapStore
  import opened OrderIndependence
  import opened PSketch
  import opened SignedAccuracy
  import opened StoreRefinement
  import opened Survivors
  import Collections
  import Powers

  // ---------- the rounds of an update ----------

  /** How often the uniform loop goes round. */
  ghost function Rounds(g: SignedState): nat
    requires Consistent(g) && g.kind.CollapsingAll?
    decreases SpanBoth(g)
  {
    FoldedBothFacts(g);
    if Buckets2(g) <= g.maxSize then 0 else 1 + Rounds(FoldedBoth(g))
  }

  /** Over n rounds a store has folded in each, or, while it was empty, in none of them. */
  ghost predicate TookPart(s: StoreState, t: StoreState, n: int) {
    && t.numCollapses == s.numCollapses + (if s.buckets == map[] then 0 else n)
    && (t.buckets == map[] <==> s.buckets == map[])
  }

  lemma RoundTaken(s: StoreState)
    requires s.kind.CollapsingAll?
    ensures TookPart(s, CollapsedIfAny(s), 1)
  {
    if s.buckets != map[] {
      assert |s.buckets| == |s.buckets.Keys|;
      var k := Collections.Inhabited(s.buckets.Keys);
      assert CeilHalf(k) in Halve(s.buckets);
    }
  }

  lemma {:induction false} FittedRounds(g: SignedState)
    requires Consistent(g) && g.kind.CollapsingAll?
    ensures TookPart(g.neg, FittedAll(g).neg, Rounds(g)) && TookPart(g.pos, FittedAll(g).pos, Rounds(g))
    ensures FittedAll(g).gamma == Squared(g.gamma, Rounds(g))
    decreases SpanBoth(g)
  {
    hide WellFormed, CollapsedIfAny, Span, Squared;
    FoldedBothFacts(g);
    if Buckets2(g) > g.maxSize {
      RoundTaken(g.neg);
      RoundTaken(g.pos);
      FittedRounds(FoldedBoth(g));
      SquaredAgain(g.gamma, FoldedBoth(g).gamma, Rounds(FoldedBoth(g)));
    } else {
      SquaredNever(g.gamma);
    }
  }

  lemma SquaredAgain(g: real, h: real, n: nat)
    requires g > 1.0 && h == g * g
    ensures h > 1.0 && Squared(h, n) == Squared(g, n + 1)
  {
    SquaredFirst(g, n);
  }

  lemma SquaredNever(g: real)
    requires g > 1.0
    ensures Squared(g, 0) == g
  {
  }

  lemma {:induction false} RoundsFirst(g: SignedState, k: nat)
    ensures FoldedRounds(FoldedBoth(g), k) == FoldedRounds(g, k + 1)
  {
    hide FoldedBoth;
    if k > 0 {
      RoundsFirst(g, k - 1);
    }
  }

  /** The uniform loop stops at the first number of rounds after which the buckets of both stores fit. */
  lemma {:induction false} FittedIsLeast(g: SignedState)
    requires Consistent(g) && g.kind.CollapsingAll?
    ensures FittedAll(g) == FoldedRounds(g, Rounds(g))
    ensures forall j: nat | j < Rounds(g) :: Buckets2(FoldedRounds(g, j)) > g.maxSize
    decreases SpanBoth(g)
  {
    hide WellFormed, CollapsedIfAny, Span;
    FoldedBothFacts(g);
    if Buckets2(g) > g.maxSize {
      FittedIsLeast(FoldedBoth(g));
      hide FoldedBoth;
      RoundsFirst(g, Rounds(g) - 1);
      forall j: nat | j < Rounds(g)
        ensures Buckets2(FoldedRounds(g, j)) > g.maxSize
      {
        if j > 0 {
          RoundsFirst(g, j - 1);
        }
      }
    }
  }

  /** The update leaves more buckets than fit, so that at least one round is made. */
  predicate Overflows(g: SignedState, op: Op)
    requires CanUpdateSigned(g, op)
  {
    Buckets2(Placed(g, op)) > g.maxSize
  }

  ghost function UpdateRounds(g: SignedState, op: Op): (r: nat)
    requires CanUpdateSigned(g, op) && g.kind.CollapsingAll?
    ensures r > 0 <==> Overflows(g, op)
  {
    PlacedConsistent(g, op);
    Rounds(Placed(g, op))
  }

  ghost function RunRounds(g: SignedState, ops: seq<Op>): nat
    requires CanRunSigned(g, ops) && g.kind.CollapsingAll?
    decreases |ops|
  {
    if ops == [] then 0
    else
      UpdateKeepsKind(g, ops[0]);
      UpdateRounds(g, ops[0]) + RunRounds(UpdatedSigned(g, ops[0]), ops[1..])
  }

  lemma UpdateKeepsKind(g: SignedState, op: Op)
    requires CanUpdateSigned(g, op) && g.kind.CollapsingAll?
    ensures UpdatedSigned(g, op).kind.CollapsingAll?
  {
    hide WellFormed, Changed, FittedAll;
    PlacedConsistent(g, op);
    FittedAllKind(Placed(g, op));
  }

  lemma {:induction false} FittedAllKind(g: SignedState)
    requires Consistent(g) && g.kind.CollapsingAll?
    ensures FittedAll(g).kind == g.kind
    decreases SpanBoth(g)
  {
    hide WellFormed, CollapsedIfAny, Span;
    FoldedBothFacts(g);
    if Buckets2(g) > g.maxSize {
      FittedAllKind(FoldedBoth(g));
    }
  }

  // ---------- the rounds that a store takes part in ----------

  /** The number of buckets is the number of ids. */
  lemma BucketsAreIds(l: SignedLedger, g: SignedState)
    requires g.gamma > 1.0 && Mirrors(l, g) && g.neg.kind.CollapsingAll? && g.pos.kind.CollapsingAll?
    ensures Buckets2(g) == |Ids(l.neg, g.gamma)| + |Ids(l.pos, g.gamma)|
  {
    hide Holds, Ids;
    ExactKeysAreIds(l.neg, g.gamma, g.neg.buckets);
    ExactKeysAreIds(l.pos, g.gamma, g.pos.buckets);
    assert |g.neg.buckets| == |g.neg.buckets.Keys| && |g.pos.buckets| == |g.pos.buckets.Keys|;
  }

  function StoreOf(g: SignedState, negative: bool): StoreState {
    if negative then g.neg else g.pos
  }

  function ItemsOf(l: SignedLedger, negative: bool): multiset<real> {
    if negative then l.neg else l.pos
  }

  /** Whenever the run leaves more buckets than fit, there are items of this sign; range decides what enters. */
  ghost predicate PresentAtOverflows(l: SignedLedger, range: SignedState, g: SignedState, ops: seq<Op>, negative: bool)
    requires HonestRunSigned(l, range, ops) && CanRunSigned(g, ops)
    decreases |ops|
  {
    ops == [] ||
    (var next := EnteredSigned(l, range, ops[0]);
     && (Overflows(g, ops[0]) ==> ItemsOf(next, negative) != multiset{})
     && PresentAtOverflows(next, range, UpdatedSigned(g, ops[0]), ops[1..], negative))
  }

  lemma EmptyTogether(m: multiset<real>, g: real, s: StoreState)
    requires g > 1.0 && Represents(m, g, s)
    ensures s.buckets == map[] <==> m == multiset{}
  {
    hide Holds, Cell, ClampOf;
    TotalIsSize(m, g, ClampOf(s), s.buckets);
    if s.buckets != map[] {
      assert s.buckets.Keys != {};
      var k := Collections.Inhabited(s.buckets.Keys);
      CountAtMostSum(s.buckets, k);
    }
  }

  /** Placing an item never touches a uniform store's counter. */
  lemma PlacedCounts(g: SignedState, op: Op, negative: bool)
    requires CanUpdateSigned(g, op) && g.kind.CollapsingAll?
    ensures StoreOf(Placed(g, op), negative).numCollapses == StoreOf(g, negative).numCollapses
    ensures Placed(g, op).gamma == g.gamma && Placed(g, op).kind == g.kind && Placed(g, op).maxSize == g.maxSize
  {
    hide Sum, BucketId, InsertTarget, Subtract, Least, Greatest;
  }

  /** One update: the counter of a store keeps up with the rounds as long as the store is not empty. */
  lemma UpdateCounts(l: SignedLedger, g: SignedState, gamma0: real, k: nat, op: Op, negative: bool)
    requires gamma0 > 1.0 && SignedTracks(l, g, gamma0, k) && HonestSigned(l, g, op) && g.kind.CollapsingAll?
    ensures CanUpdateSigned(g, op)
    ensures UpdatedSigned(g, op).gamma == Squared(g.gamma, UpdateRounds(g, op))
    ensures StoreOf(UpdatedSigned(g, op), negative).numCollapses == StoreOf(g, negative).numCollapses
              + if ItemsOf(EnteredSigned(l, g, op), negative) == multiset{} then 0 else UpdateRounds(g, op)
  {
    hide Represents, WellFormed, Placed, Rounds, Squared, EnteredSigned, FittedAll, HonestSigned, Span;
    PlacedMirrors(l, g, gamma0, k, op);
    PlacedConsistent(g, op);
    PlacedCounts(g, op, negative);
    var h, next := Placed(g, op), EnteredSigned(l, g, op);
    EmptyTogether(ItemsOf(next, negative), h.gamma, StoreOf(h, negative));
    FittedRounds(h);
    if Buckets2(h) <= h.maxSize {
      FittedAlready(h);
    }
  }

  lemma FittedAlready(g: SignedState)
    requires Consistent(g) && g.kind.CollapsingAll? && Buckets2(g) <= g.maxSize
    ensures FittedAll(g) == g == Fitted(g) && Rounds(g) == 0
  {
  }

  /** Over a run, a store's counter ends at the number of rounds if and only if it started there and missed none. */
  lemma {:induction false} RunCounts(l: SignedLedger, range: SignedState, g: SignedState, gamma0: real, k: nat,
                                     ops: seq<Op>, negative: bool)
    requires gamma0 > 1.0 && SignedTracks(l, g, gamma0, k) && g.kind.CollapsingAll?
    requires range.minAddressable == g.minAddressable && range.maxAddressable == g.maxAddressable
    requires HonestRunSigned(l, range, ops)
    ensures CanRunSigned(g, ops)
    ensures RunSigned(g, ops).kind == g.kind
    ensures RunSigned(g, ops).gamma == Squared(g.gamma, RunRounds(g, ops))
    ensures var before, after := StoreOf(g, negative).numCollapses, StoreOf(RunSigned(g, ops), negative).numCollapses;
            && before <= after <= before + RunRounds(g, ops)
            && (after == before + RunRounds(g, ops) <==> PresentAtOverflows(l, range, g, ops, negative))
    decreases |ops|
  {
    hide SignedTracks, UpdatedSigned, EnteredSigned, HonestSigned, Overflows, UpdateRounds, Squared;
    TrackedGamma(l, g, gamma0, k);
    if ops == [] {
      SquaredNever(g.gamma);
    } else {
      SameHonest(l, range, g, ops[0]);
      UpdateCounts(l, g, gamma0, k, ops[0], negative);
      var j := SignedUpdateTracks(l, g, gamma0, k, ops[0]);
      var h, next := UpdatedSigned(g, ops[0]), EnteredSigned(l, g, ops[0]);
      RunCounts(next, range, h, gamma0, j, ops[1..], negative);
      SquaredSum(g.gamma, UpdateRounds(g, ops[0]), RunRounds(h, ops[1..]));
    }
  }

  lemma TrackedGamma(l: SignedLedger, g: SignedState, gamma0: real, k: nat)
    requires gamma0 > 1.0 && SignedTracks(l, g, gamma0, k)
    ensures g.gamma > 1.0
  {
  }

  lemma SameHonest(l: SignedLedger, range: SignedState, g: SignedState, op: Op)
    requires range.minAddressable == g.minAddressable && range.maxAddressable == g.maxAddressable
    requires HonestSigned(l, range, op)
    ensures HonestSigned(l, g, op) && EnteredSigned(l, g, op) == EnteredSigned(l, range, op)
  {
  }

  // ---------- main results ----------

  lemma SquareIsLarger(h: real, n: real)
    requires h > 1.0 && n == h * h
    ensures h < n
  {
    Powers.ScaleLess(h, 1.0, h);
  }

  lemma SquaredGrows(g: real, k: nat)
    requires g > 1.0
    ensures Squared(g, k) < Squared(g, k + 1)
  {
    SquareIsLarger(Squared(g, k), Squared(g, k + 1));
  }

  lemma {:induction false} SquaredInjective(g: real, j: nat, k: nat)
    requires g > 1.0 && j < k
    ensures Squared(g, j) < Squared(g, k)
    decreases k
  {
    hide Squared;
    SquaredGrows(g, k - 1);
    if j < k - 1 {
      SquaredInjective(g, j, k - 1);
    }
  }

  /**
   The collapse counter over whole honest runs of a uniform signed sketch.  The mapping has been squared k times,
   for one k only; the counter never exceeds k; and it is k if and only if there is a sign of which some item
   was present at every overflow.
   */
  lemma CounterIsRounds(alpha: real, minValue: real, maxSize: int, dblMin: real, dblMax: real, ops: seq<Op>)
    requires 0.0 < alpha < 1.0 && SignedBound(CollapsingAll, maxSize)
    requires HonestRunSigned(NO_ITEMS, NewSigned(CollapsingAll, alpha, minValue, maxSize, dblMin, dblMax), ops)
    ensures var start := NewSigned(CollapsingAll, alpha, minValue, maxSize, dblMin, dblMax);
            && CanRunSigned(start, ops)
            && var g, k := RunSigned(start, ops), RunRounds(start, ops);
            && (forall j: nat :: g.gamma == Squared(GammaOf(alpha), j) <==> j == k)
            && NumCollapses(g) <= k
            && (NumCollapses(g) == k <==>
                  || PresentAtOverflows(NO_ITEMS, start, start, ops, true)
                  || PresentAtOverflows(NO_ITEMS, start, start, ops, false))
  {
    hide SignedTracks, PresentAtOverflows, Squared, GammaOf;
    var start := NewSigned(CollapsingAll, alpha, minValue, maxSize, dblMin, dblMax);
    NewSignedTracks(CollapsingAll, alpha, minValue, maxSize, dblMin, dblMax);
    RunCounts(NO_ITEMS, start, start, GammaOf(alpha), 0, ops, true);
    RunCounts(NO_ITEMS, start, start, GammaOf(alpha), 0, ops, false);
    var k := RunRounds(start, ops);
    forall j: nat
      ensures Squared(GammaOf(alpha), k) == Squared(GammaOf(alpha), j) <==> j == k
    {
      if j < k {
        SquaredInjective(GammaOf(alpha), j, k);
      } else if k < j {
        SquaredInjective(GammaOf(alpha), k, j);
      }
    }
  }

  /** One operation more at the end of a run. */
  lemma {:induction false} SignedRunExtends(l: SignedLedger, range: SignedState, g: SignedState, ops: seq<Op>, op: Op)
    requires HonestRunSigned(l, range, ops) && CanRunSigned(g, ops)
    requires HonestSigned(SignedLedgerAfter(l, range, ops), range, op) && CanUpdateSigned(RunSigned(g, ops), op)
    ensures HonestRunSigned(l, range, ops + [op]) && CanRunSigned(g, ops + [op])
    ensures RunSigned(g, ops + [op]) == UpdatedSigned(RunSigned(g, ops), op)
    ensures var next := EnteredSigned(SignedLedgerAfter(l, range, ops), range, op);
            && SignedLedgerAfter(l, range, ops + [op]) == next
            && forall negative ::
                 PresentAtOverflows(l, range, g, ops + [op], negative) <==>
                   && PresentAtOverflows(l, range, g, ops, negative)
                   && (Overflows(RunSigned(g, ops), op) ==> ItemsOf(next, negative) != multiset{})
    decreases |ops|
  {
    hide HonestSigned, CanUpdateSigned, EnteredSigned, UpdatedSigned, Overflows, ItemsOf;
    var more := ops + [op];
    if ops == [] {
      assert more == [op] && more[1..] == [];
    } else {
      assert more[0] == ops[0] && more[1..] == ops[1..] + [op];
      SignedRunExtends(EnteredSigned(l, range, ops[0]), range, UpdatedSigned(g, ops[0]), ops[1..], op);
    }
  }

  /** An update that does not overflow leaves the resolution alone. */
  lemma QuietUpdate(g: SignedState, op: Op)
    requires CanUpdateSigned(g, op) && g.kind.CollapsingAll? && !Overflows(g, op)
    ensures UpdatedSigned(g, op).gamma == g.gamma
  {
    hide WellFormed, Placed;
    PlacedConsistent(g, op);
    PlacedCounts(g, op, true);
    FittedAlready(Placed(g, op));
  }

  lemma {:induction false} InsertsAreHonest(l: SignedLedger, range: SignedState, ops: seq<Op>)
    requires InsertOnly(ops)
    ensures HonestRunSigned(l, range, ops)
    decreases |ops|
  {
    if ops != [] {
      InsertsAreHonest(EnteredSigned(l, range, ops[0]), range, ops[1..]);
    }
  }

  /** An insertion takes no item away. */
  lemma InsertKeepsItems(l: SignedLedger, range: SignedState, op: Op, negative: bool)
    requires HonestSigned(l, range, op) && op.count >= 0 && ItemsOf(l, negative) != multiset{}
    ensures ItemsOf(EnteredSigned(l, range, op), negative) != multiset{}
  {
    var m := ItemsOf(l, negative);
    var v := Collections.InhabitedBag(m);
    assert v in ItemsOf(EnteredSigned(l, range, op), negative);
  }

  lemma {:induction false} PresentStaysPresent(l: SignedLedger, range: SignedState, g: SignedState, ops: seq<Op>,
                                               negative: bool)
    requires HonestRunSigned(l, range, ops) && CanRunSigned(g, ops)
    requires InsertOnly(ops) && ItemsOf(l, negative) != multiset{}
    ensures PresentAtOverflows(l, range, g, ops, negative)
    decreases |ops|
  {
    hide UpdatedSigned, EnteredSigned, HonestSigned, Overflows, CanUpdateSigned, ItemsOf;
    if ops != [] {
      InsertKeepsItems(l, range, ops[0], negative);
      PresentStaysPresent(EnteredSigned(l, range, ops[0]), range, UpdatedSigned(g, ops[0]), ops[1..], negative);
    }
  }

  /** Whatever overflows has items, of one sign at least, and without removals they are there from then on. */
  lemma {:induction false} OneSignPresent(l: SignedLedger, range: SignedState, g: SignedState, gamma0: real, k: nat,
                                          ops: seq<Op>)
    requires gamma0 > 1.0 && SignedTracks(l, g, gamma0, k) && g.kind.CollapsingAll?
    requires range.minAddressable == g.minAddressable && range.maxAddressable == g.maxAddressable
    requires HonestRunSigned(l, range, ops) && CanRunSigned(g, ops) && InsertOnly(ops)
    ensures PresentAtOverflows(l, range, g, ops, true) || PresentAtOverflows(l, range, g, ops, false)
    decreases |ops|
  {
    hide SignedTracks, UpdatedSigned, EnteredSigned, HonestSigned, Overflows;
    if ops != [] {
      SameHonest(l, range, g, ops[0]);
      var j := SignedUpdateTracks(l, g, gamma0, k, ops[0]);
      var h, next := UpdatedSigned(g, ops[0]), EnteredSigned(l, g, ops[0]);
      if Overflows(g, ops[0]) {
        OverflowHasItems(l, g, gamma0, k, ops[0]);
        var negative := next.neg != multiset{};
        PresentStaysPresent(next, range, h, ops[1..], negative);
      } else {
        OneSignPresent(next, range, h, gamma0, j, ops[1..]);
      }
    }
  }

  lemma OverflowHasItems(l: SignedLedger, g: SignedState, gamma0: real, k: nat, op: Op)
    requires gamma0 > 1.0 && SignedTracks(l, g, gamma0, k) && HonestSigned(l, g, op)
    requires CanUpdateSigned(g, op) && Overflows(g, op) && g.kind.CollapsingAll?
    ensures EnteredSigned(l, g, op).neg != multiset{} || EnteredSigned(l, g, op).pos != multiset{}
  {
    hide Represents, WellFormed, Placed, EnteredSigned;
    PlacedMirrors(l, g, gamma0, k, op);
    var h, next := Placed(g, op), EnteredSigned(l, g, op);
    TrackedGamma(l, g, gamma0, k);
    EmptyTogether(next.neg, h.gamma, h.neg);
    EmptyTogether(next.pos, h.gamma, h.pos);
    PlacedCounts(g, op, true);
    assert h.maxSize >= 0;
  }

  /** Without removals the counter is the number of rounds. */
  lemma InsertOnlyCounter(alpha: real, minValue: real, maxSize: int, dblMin: real, dblMax: real, ops: seq<Op>)
    requires 0.0 < alpha < 1.0 && SignedBound(CollapsingAll, maxSize) && InsertOnly(ops)
    ensures var start := NewSigned(CollapsingAll, alpha, minValue, maxSize, dblMin, dblMax);
            && CanRunSigned(start, ops)
            && var g := RunSigned(start, ops);
            && NumCollapses(g) == RunRounds(start, ops)
            && NumCollapses(g) >= 0 && g.gamma == Squared(GammaOf(alpha), NumCollapses(g))
  {
    hide SignedTracks, PresentAtOverflows, Squared, GammaOf;
    var start := NewSigned(CollapsingAll, alpha, minValue, maxSize, dblMin, dblMax);
    InsertsAreHonest(NO_ITEMS, start, ops);
    CounterIsRounds(alpha, minValue, maxSize, dblMin, dblMax, ops);
    NewSignedTracks(CollapsingAll, alpha, minValue, maxSize, dblMin, dblMax);
    OneSignPresent(NO_ITEMS, start, start, GammaOf(alpha), 0, ops);
  }
}
