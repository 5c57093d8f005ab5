/** Whole runs of the signed sketch: its two stores stay the survivors' histograms and its answers are accurate. */
module SignedAccuracy {
  import opened Accuracy
  import opened BucketIdMapping
  import opened GSketch
  import opened Histogram
  import opened MapStore
  import opened PSketch
  import opened StoreRefinement
  import opened Survivors
  import Collections
  import Powers

  /** The surviving items: absolute values of the negative ones, those counted as 0, and the positive ones. */
  datatype SignedLedger = SignedLedger(neg: multiset<real>, small: multiset<real>, pos: multiset<real>)

  const NO_ITEMS := SignedLedger(multiset{}, multiset{}, multiset{})

  ghost predicate HonestSigned(l: SignedLedger, g: SignedState, op: Op) {
    Abs(op.value) <= g.maxAddressable ==>
      -op.count <=
      if Abs(op.value) < g.minAddressable then l.small[op.value]
      else if op.value > 0.0 then l.pos[op.value]
      else l.neg[-op.value]
  }

  ghost function EnteredSigned(l: SignedLedger, g: SignedState, op: Op): SignedLedger
    requires HonestSigned(l, g, op)
  {
    if Abs(op.value) > g.maxAddressable then
      l
    else if Abs(op.value) < g.minAddressable then
      l.(small := Revised(l.small, op))
    else if op.value > 0.0 then
      l.(pos := Revised(l.pos, op))
    else
      l.(neg := Revised(l.neg, Op(-op.value, op.count)))
  }

  /** The mapping has been squared k times; a store has folded in at most that many of the rounds. */
  ghost predicate AtRound(g: SignedState, gamma0: real, k: nat)
    requires gamma0 > 1.0
  {
    && g.gamma == Squared(gamma0, k)
    && g.neg.kind == Mirror(g.kind) && g.pos.kind == g.kind
    && (g.kind.CollapsingAll? ==> g.neg.numCollapses <= k && g.pos.numCollapses <= k)
    && (!g.kind.CollapsingAll? ==> k == 0)
  }

  ghost predicate InRange(m: multiset<real>, g: SignedState) {
    forall v | v in m :: g.minAddressable <= v <= g.maxAddressable
  }

  /** Both stores are histograms at the gamma of the mapping they share. */
  ghost predicate Mirrors(l: SignedLedger, g: SignedState)
    requires g.gamma > 1.0
  {
    && Represents(l.neg, g.gamma, g.neg)
    && Represents(l.pos, g.gamma, g.pos)
    && g.zero == |l.small|
    && (forall v | v in l.small :: Abs(v) < g.minAddressable)
    && InRange(l.neg, g) && InRange(l.pos, g)
  }

  ghost predicate SignedTracks(l: SignedLedger, g: SignedState, gamma0: real, k: nat)
    requires gamma0 > 1.0
  {
    && WellFormedSigned(g)
    && Mirrors(l, g)
    && AtRound(g, gamma0, k) && k <= 32
    && Powers.Pow(gamma0, INT_MIN) <= g.minAddressable
    && g.maxAddressable <= Powers.Pow(gamma0, INT_MAX)
  }

  // ---------- placing an item ----------

  lemma NoFoldOnInsert(s: StoreState, bid: int, count: int)
    requires WellFormed(s) && s.resizable
    ensures Inserted(s, bid, count).numCollapses == s.numCollapses
  {
  }

  lemma ChangedRepresents(m: multiset<real>, g: real, s: StoreState, op: Op)
    requires g > 1.0 && Represents(m, g, s) && s.resizable && op.value > 0.0 && -op.count <= m[op.value]
    ensures op.count < 0 ==> s.buckets != map[]
    ensures var t := Changed(s, BucketId(g, op.value), op.count);
            Represents(Revised(m, op), g, t) && t.numCollapses <= s.numCollapses
  {
    hide Holds, BucketId, Sum, Inserted, Removed, ClampOf;
    var bid := BucketId(g, op.value);
    if op.count > 0 {
      InsertRepresents(m, g, s, op.value, op.count);
      NoFoldOnInsert(s, bid, op.count);
      assert Squared(g, 0) == g;
      assert Revised(m, op) == Bump(m, op.value, op.count);
    } else if op.count < 0 {
      RemoveRepresents(m, g, s, op.value, -op.count);
      RemoveNeverRaises(s, bid, op.count);
      assert Revised(m, op) == Drop(m, op.value, -op.count);
    } else {
      NothingRemoved(s, bid);
      assert Revised(m, op) == m;
    }
  }

  lemma RemoveNeverRaises(s: StoreState, bid: int, count: int)
    requires WellFormed(s) && (count < 0 ==> s.buckets != map[])
    ensures Removed(s, bid, count).numCollapses <= s.numCollapses
  {
  }

  lemma PlacedMirrors(l: SignedLedger, g: SignedState, gamma0: real, k: nat, op: Op)
    requires gamma0 > 1.0 && SignedTracks(l, g, gamma0, k) && HonestSigned(l, g, op)
    ensures CanUpdateSigned(g, op)
    ensures Mirrors(EnteredSigned(l, g, op), Placed(g, op)) && AtRound(Placed(g, op), gamma0, k)
  {
    hide Represents, WellFormed, Changed, BucketId, Squared;
    if SignedAddressable(g, op.value) {
      if Abs(op.value) < g.minAddressable {
        RevisedSize(l.small, op);
      } else if op.value > 0.0 {
        RevisedSize(l.pos, op);
        ChangedRepresents(l.pos, g.gamma, g.pos, op);
        ChangedKeepsKind(l.pos, g.gamma, g.pos, op);
      } else {
        var flipped := Op(-op.value, op.count);
        RevisedSize(l.neg, flipped);
        ChangedRepresents(l.neg, g.gamma, g.neg, flipped);
        ChangedKeepsKind(l.neg, g.gamma, g.neg, flipped);
      }
    }
  }

  lemma ChangedKeepsKind(m: multiset<real>, g: real, s: StoreState, op: Op)
    requires g > 1.0 && Represents(m, g, s) && op.value > 0.0 && (op.count < 0 ==> s.buckets != map[])
    ensures Changed(s, BucketId(g, op.value), op.count).kind == s.kind
  {
    hide Holds, BucketId, WellFormed;
    ChangedWellFormed(s, BucketId(g, op.value), op.count);
  }

  // ---------- enforcing the bound ----------

  lemma ShrunkRepresents(m: multiset<real>, g: real, s: StoreState, bound: int)
    requires g > 1.0 && Represents(m, g, s) && s.resizable && Shrinkable(s.kind, bound) && !s.kind.CollapsingAll?
    ensures Represents(m, g, Shrunk(s, bound))
  {
    hide Holds, Sum, ClampOf, Shrunk;
    ShrunkMatches(m, g, s, bound);
    ShrunkWellFormed(s, bound);
  }

  lemma PairMirrors(m: multiset<real>, n: multiset<real>, g: real, far: StoreState, near: StoreState, maxSize: int)
    requires g > 1.0 && Represents(m, g, far) && Represents(n, g, near)
    requires far.resizable && near.resizable && maxSize >= 2
    requires Shrinkable(far.kind, 1) && Shrinkable(near.kind, 1)
    requires !far.kind.CollapsingAll? && !near.kind.CollapsingAll?
    ensures Represents(m, g, FittedPair(far, near, maxSize).0)
    ensures Represents(n, g, FittedPair(far, near, maxSize).1)
  {
    hide Holds, Sum, Shrunk, ClampOf;
    if |near.buckets| < maxSize {
      ShrunkRepresents(m, g, far, maxSize - |near.buckets|);
    } else {
      ShrunkRepresents(m, g, far, 1);
      ShrunkRepresents(n, g, near, maxSize - |Shrunk(far, 1).buckets|);
    }
  }

  /** An empty store that sits a round out is still a histogram at the squared gamma. */
  lemma RoundRepresents(m: multiset<real>, g: real, h: real, s: StoreState)
    requires g > 1.0 && h == g * g && Represents(m, g, s) && s.kind.CollapsingAll? && s.resizable
    ensures h > 1.0 && Represents(m, h, CollapsedIfAny(s))
  {
    hide Halve, Sum, Cell;
    Powers.SquareAboveOne(g);
    CollapsedIfAnyFacts(s);
    if |s.buckets| > 0 {
      HalveHolds(m, g, s.buckets);
    } else {
      TotalIsSize(m, g, Exact, s.buckets);
      SumOfNone(s.buckets);
      assert m == multiset{};
      forall b
        ensures Count(s.buckets, b) == Cell(m, h, Exact, b)
      {
        CellOccupied(m, h, Exact, b);
      }
    }
  }

  lemma SumOfNone(m: Buckets)
    requires |m| == 0
    ensures Sum(m) == 0 && m == map[]
  {
  }

  lemma StillSmall(m: multiset<real>, gamma0: real, k: nat, s: StoreState, g: SignedState)
    requires gamma0 > 1.0 && k >= 32 && g.gamma == Squared(gamma0, k)
    requires Represents(m, g.gamma, s) && s.kind.CollapsingAll? && InRange(m, g)
    requires Powers.Pow(gamma0, INT_MIN) <= g.minAddressable && g.maxAddressable <= Powers.Pow(gamma0, INT_MAX)
    ensures |s.buckets| <= 2
  {
    hide Holds, Sum, Squared, BucketId, IsInt32, ClampOf;
    forall v | v in m
      ensures v > 0.0 && IsInt32(BucketId(gamma0, v))
    {
      AddressableIdIsInt32(gamma0, v);
    }
    FewBuckets(m, gamma0, k, s);
  }

  lemma FoldedBothMirrors(l: SignedLedger, g: SignedState, gamma0: real, k: nat)
    requires gamma0 > 1.0 && Consistent(g) && g.kind.CollapsingAll? && Mirrors(l, g) && AtRound(g, gamma0, k)
    ensures g.gamma * g.gamma > 1.0
    ensures Mirrors(l, FoldedBoth(g)) && AtRound(FoldedBoth(g), gamma0, k + 1)
  {
    hide WellFormed, Holds, AllPositive, CollapsedIfAny, ClampOf;
    RoundRepresents(l.neg, g.gamma, FoldedBoth(g).gamma, g.neg);
    RoundRepresents(l.pos, g.gamma, FoldedBoth(g).gamma, g.pos);
    CollapsedIfAnyFacts(g.neg);
    CollapsedIfAnyFacts(g.pos);
    SquaredStep(gamma0, k);
  }

  /** The uniform loop keeps both histograms at the shared gamma and never sees a thirty-third round. */
  lemma {:induction false} FittedAllMirrors(l: SignedLedger, g: SignedState, gamma0: real, k: nat) returns (rounds: nat)
    requires gamma0 > 1.0 && Consistent(g) && g.kind.CollapsingAll?
    requires Mirrors(l, g) && AtRound(g, gamma0, k) && k <= 32
    requires Powers.Pow(gamma0, INT_MIN) <= g.minAddressable && g.maxAddressable <= Powers.Pow(gamma0, INT_MAX)
    ensures k <= rounds <= 32
    ensures Mirrors(l, FittedAll(g)) && AtRound(FittedAll(g), gamma0, rounds)
    ensures FittedAll(g).minAddressable == g.minAddressable && FittedAll(g).maxAddressable == g.maxAddressable
    ensures FittedAll(g).kind == g.kind && FittedAll(g).maxSize == g.maxSize
    decreases SpanBoth(g)
  {
    hide WellFormed, Represents, CollapsedIfAny, Span, Squared;
    if Buckets2(g) <= g.maxSize {
      rounds := k;
    } else {
      if k == 32 {
        StillSmall(l.neg, gamma0, 32, g.neg, g);
        StillSmall(l.pos, gamma0, 32, g.pos, g);
      }
      FoldedBothFacts(g);
      FoldedBothMirrors(l, g, gamma0, k);
      rounds := FittedAllMirrors(l, FoldedBoth(g), gamma0, k + 1);
    }
  }

  lemma SquaredStep(g: real, k: nat)
    requires g > 1.0
    ensures Squared(g, k + 1) == Squared(g, k) * Squared(g, k)
  {
  }

  lemma FittedMirrors(l: SignedLedger, g: SignedState, gamma0: real, k: nat) returns (rounds: nat)
    requires gamma0 > 1.0 && Consistent(g)
    requires Mirrors(l, g) && AtRound(g, gamma0, k) && k <= 32
    requires Powers.Pow(gamma0, INT_MIN) <= g.minAddressable && g.maxAddressable <= Powers.Pow(gamma0, INT_MAX)
    ensures SignedTracks(l, Fitted(g), gamma0, rounds)
    ensures Fitted(g).minAddressable == g.minAddressable && Fitted(g).maxAddressable == g.maxAddressable
    ensures Fitted(g).kind == g.kind && Fitted(g).maxSize == g.maxSize
  {
    hide WellFormed, Represents, FittedAll, FittedPair, Squared;
    rounds := k;
    if Buckets2(g) > g.maxSize {
      match g.kind
      case UnboundedStore =>
      case CollapsingAll => rounds := FittedAllMirrors(l, g, gamma0, k);
      case CollapsingHigh =>
        PairMirrors(l.pos, l.neg, g.gamma, g.pos, g.neg, g.maxSize);
        FittedPairWellFormed(g.pos, g.neg, g.maxSize);
      case CollapsingLow =>
        PairMirrors(l.neg, l.pos, g.gamma, g.neg, g.pos, g.maxSize);
        FittedPairWellFormed(g.neg, g.pos, g.maxSize);
    }
  }

  // ---------- runs ----------

  lemma SignedUpdateTracks(l: SignedLedger, g: SignedState, gamma0: real, k: nat, op: Op) returns (rounds: nat)
    requires gamma0 > 1.0 && SignedTracks(l, g, gamma0, k) && HonestSigned(l, g, op)
    ensures CanUpdateSigned(g, op)
    ensures SignedTracks(EnteredSigned(l, g, op), UpdatedSigned(g, op), gamma0, rounds)
    ensures UpdatedSigned(g, op).minAddressable == g.minAddressable
    ensures UpdatedSigned(g, op).maxAddressable == g.maxAddressable
    ensures UpdatedSigned(g, op).kind == g.kind && UpdatedSigned(g, op).maxSize == g.maxSize
  {
    hide WellFormed, Mirrors, Fitted, AtRound, Changed;
    PlacedMirrors(l, g, gamma0, k, op);
    PlacedConsistent(g, op);
    rounds := FittedMirrors(EnteredSigned(l, g, op), Placed(g, op), gamma0, k);
  }

  ghost predicate CanRunSigned(g: SignedState, ops: seq<Op>)
    decreases |ops|
  {
    ops == [] || (CanUpdateSigned(g, ops[0]) && CanRunSigned(UpdatedSigned(g, ops[0]), ops[1..]))
  }

  function RunSigned(g: SignedState, ops: seq<Op>): SignedState
    requires CanRunSigned(g, ops)
    decreases |ops|
  {
    if ops == [] then g else RunSigned(UpdatedSigned(g, ops[0]), ops[1..])
  }

  ghost predicate HonestRunSigned(l: SignedLedger, g: SignedState, ops: seq<Op>)
    decreases |ops|
  {
    ops == [] || (HonestSigned(l, g, ops[0]) && HonestRunSigned(EnteredSigned(l, g, ops[0]), g, ops[1..]))
  }

  ghost function SignedLedgerAfter(l: SignedLedger, g: SignedState, ops: seq<Op>): SignedLedger
    requires HonestRunSigned(l, g, ops)
    decreases |ops|
  {
    if ops == [] then l else SignedLedgerAfter(EnteredSigned(l, g, ops[0]), g, ops[1..])
  }

  lemma {:induction false} SameSignedRange(l: SignedLedger, g: SignedState, h: SignedState, ops: seq<Op>)
    requires g.minAddressable == h.minAddressable && g.maxAddressable == h.maxAddressable
    ensures HonestRunSigned(l, g, ops) <==> HonestRunSigned(l, h, ops)
    ensures HonestRunSigned(l, g, ops) ==> SignedLedgerAfter(l, g, ops) == SignedLedgerAfter(l, h, ops)
    decreases |ops|
  {
    if ops != [] && HonestSigned(l, g, ops[0]) {
      SameSignedRange(EnteredSigned(l, g, ops[0]), g, h, ops[1..]);
    }
  }

  lemma {:induction false} SignedRunTracks(l: SignedLedger, g: SignedState, gamma0: real, k: nat, ops: seq<Op>)
    returns (rounds: nat)
    requires gamma0 > 1.0 && SignedTracks(l, g, gamma0, k) && HonestRunSigned(l, g, ops)
    ensures CanRunSigned(g, ops)
    ensures SignedTracks(SignedLedgerAfter(l, g, ops), RunSigned(g, ops), gamma0, rounds)
    ensures RunSigned(g, ops).minAddressable == g.minAddressable
    ensures RunSigned(g, ops).kind == g.kind && RunSigned(g, ops).maxSize == g.maxSize
    decreases |ops|
  {
    hide SignedTracks, UpdatedSigned, EnteredSigned, HonestSigned;
    if ops == [] {
      rounds := k;
    } else {
      var next := SignedUpdateTracks(l, g, gamma0, k, ops[0]);
      var h := UpdatedSigned(g, ops[0]);
      SameSignedRange(EnteredSigned(l, g, ops[0]), g, h, ops[1..]);
      rounds := SignedRunTracks(EnteredSigned(l, g, ops[0]), h, gamma0, next, ops[1..]);
    }
  }

  // ---------- answering ----------

  /** s lists every surviving item, negative ones with their sign. */
  ghost predicate Lists(s: seq<real>, l: SignedLedger) {
    Sorted(s) && forall v :: multiset(s)[v] == l.neg[-v] + l.small[v] + l.pos[v]
  }

  function Flipped(s: seq<real>): seq<real> {
    if s == [] then [] else Flipped(s[1..]) + [-s[0]]
  }

  lemma {:induction false} FlippedAt(s: seq<real>, i: nat)
    requires i < |s|
    ensures |Flipped(s)| == |s| && Flipped(s)[|s| - 1 - i] == -s[i]
  {
    if i > 0 {
      FlippedAt(s[1..], i - 1);
    } else if |s| > 1 {
      FlippedAt(s[1..], 0);
    }
  }

  lemma {:induction false} FlippedCounts(s: seq<real>, v: real)
    ensures multiset(Flipped(s))[v] == multiset(s)[-v]
  {
    if s != [] {
      FlippedCounts(s[1..], v);
      TailCount(s, -v);
      LastCount(Flipped(s[1..]), -s[0], v);
    }
  }

  lemma LastCount(s: seq<real>, x: real, v: real)
    ensures multiset(s + [x])[v] == multiset(s)[v] + if v == x then 1 else 0
  {
  }

  lemma FlippedSorted(s: seq<real>)
    requires Sorted(s)
    ensures |Flipped(s)| == |s| && Sorted(Flipped(s))
  {
    forall i: nat | i < |s|
      ensures |Flipped(s)| == |s| && Flipped(s)[i] == -s[|s| - 1 - i]
    {
      FlippedAt(s, |s| - 1 - i);
    }
  }

  /** Every value is listed as often as neg holds its opposite and rest holds it. */
  ghost predicate SplitInto(s: seq<real>, neg: multiset<real>, rest: multiset<real>) {
    forall v :: multiset(s)[v] == neg[-v] + rest[v]
  }

  /** A sorted listing starts with the negative items, absolute values descending. */
  lemma {:induction false} NegativesFirst(s: seq<real>, neg: multiset<real>, rest: multiset<real>, lo: real)
    requires Sorted(s) && SplitInto(s, neg, rest)
    requires (forall v | v in neg :: lo <= v) && (forall v | v in rest :: -lo < v)
    ensures |neg| <= |s| && multiset(Flipped(s[..|neg|])) == neg && multiset(s[|neg|..]) == rest
    decreases |s|
  {
    hide Flipped, SplitInto, Sorted;
    if neg == multiset{} {
      NoNegatives(s, rest);
    } else {
      FirstIsNegative(s, neg, rest, lo);
      TailCounts(s, neg, rest);
      TailSorted(s);
      TakenBag(neg, -s[0]);
      var fewer := neg - multiset{-s[0]};
      NegativesFirst(s[1..], fewer, rest, lo);
      PrependFlipped(s, |fewer|);
    }
  }

  lemma NoNegatives(s: seq<real>, rest: multiset<real>)
    requires SplitInto(s, multiset{}, rest)
    ensures multiset(Flipped(s[..0])) == multiset{} && multiset(s[0..]) == rest
  {
    assert s[0..] == s;
    var none: multiset<real> := multiset{};
    forall v: real
      ensures multiset(s)[v] == rest[v]
    {
      assert multiset(s)[v] == none[-v] + rest[v];
    }
    assert multiset(s) == rest;
  }

  lemma TakenBag(m: multiset<real>, x: real)
    requires x in m
    ensures |m| == |m - multiset{x}| + 1 && m == (m - multiset{x}) + multiset{x}
    ensures forall v | v in m - multiset{x} :: v in m
  {
  }

  lemma SuffixSorted(s: seq<real>, n: nat)
    requires Sorted(s) && n <= |s|
    ensures Sorted(s[n..])
  {
  }

  lemma TailSorted(s: seq<real>)
    requires Sorted(s) && s != []
    ensures Sorted(s[1..])
  {
  }

  lemma TailCounts(s: seq<real>, neg: multiset<real>, rest: multiset<real>)
    requires s != [] && -s[0] in neg && SplitInto(s, neg, rest)
    ensures SplitInto(s[1..], neg - multiset{-s[0]}, rest)
  {
    forall v
      ensures multiset(s[1..])[v] == (neg - multiset{-s[0]})[-v] + rest[v]
    {
      TailCount(s, v);
      OneFewer(neg, -s[0], -v);
    }
  }

  lemma TailCount(s: seq<real>, v: real)
    requires s != []
    ensures multiset(s)[v] == multiset(s[1..])[v] + if v == s[0] then 1 else 0
  {
    assert s == [s[0]] + s[1..];
  }

  lemma OneFewer(m: multiset<real>, x: real, v: real)
    requires x in m
    ensures (m - multiset{x})[v] == m[v] - if v == x then 1 else 0
  {
  }

  lemma PrependFlipped(s: seq<real>, k: nat)
    requires k < |s|
    ensures multiset(Flipped(s[..k + 1])) == multiset(Flipped(s[1..][..k])) + multiset{-s[0]}
    ensures s[k + 1..] == s[1..][k..]
  {
    assert s[..k + 1][1..] == s[1..][..k];
  }

  lemma FirstIsNegative(s: seq<real>, neg: multiset<real>, rest: multiset<real>, lo: real)
    requires Sorted(s) && neg != multiset{} && SplitInto(s, neg, rest)
    requires (forall v | v in neg :: lo <= v) && (forall v | v in rest :: -lo < v)
    ensures s != [] && -s[0] in neg
  {
    var a := Collections.InhabitedBag(neg);
    assert -(-a) == a;
    assert multiset(s)[-a] > 0;
    assert -a in s;
    assert s[0] <= -a;
    assert multiset(s)[s[0]] > 0;
  }

  function SignedTruth(g: SignedState, v: real): real {
    if Abs(v) < g.minAddressable then 0.0 else v
  }

  /**
   The answer for the item x: 0 in the zero band, and otherwise, with the sign of x, the representative of x's own
   bucket, flagged accurate, or, once its store has folded that bucket away, that of the end bucket, flagged
   inaccurate.
   */
  ghost predicate AnswersForSigned(g: SignedState, x: real, value: real, isAccurate: bool)
    requires g.gamma > 1.0 && g.minAddressable > 0.0
  {
    if Abs(x) < g.minAddressable then
      value == 0.0 && isAccurate
    else if x > 0.0 then
      StoreAnswersFor(g.pos, g.gamma, x, value, isAccurate)
    else
      StoreAnswersFor(g.neg, g.gamma, -x, -value, isAccurate)
  }

  ghost predicate StoreAnswersFor(s: StoreState, gamma: real, v: real, value: real, isAccurate: bool)
    requires gamma > 1.0 && v > 0.0
  {
    if FoldedAway(s, BucketId(gamma, v)) then
      && !isAccurate
      && exists b :: b in s.buckets && FoldedAway(s, b) && value == BucketValue(AlphaOf(gamma), gamma, b)
    else
      isAccurate && value == BucketValue(AlphaOf(gamma), gamma, BucketId(gamma, v))
  }

  /** What a store answers from the bucket that holds a rank, for the item of that rank among its own. */
  lemma StoreAnswer(m: multiset<real>, g: real, s: StoreState, listing: seq<real>, r: nat, b: int)
    requires g > 1.0 && Represents(m, g, s) && Sorted(listing) && multiset(listing) == m && r < |listing|
    requires AtRank(s.buckets, r, b)
    ensures listing[r] > 0.0 && b in s.buckets
    ensures StoreAnswersFor(s, g, listing[r], BucketValue(AlphaOf(g), g, b), Trusted(s, b))
    ensures Trusted(s, b) ==> WithinRelativeError(BucketValue(AlphaOf(g), g, b), listing[r], AlphaOf(g))
  {
    hide Holds, Sum, ClampOf, BucketId, SumBelow, FoldedAway, Trusted, BucketValue, AlphaOf;
    AtRankSees(m, g, s, listing, r, b);
    TrustedMeans(s, g, listing[r], b);
    if Trusted(s, b) {
      BucketValueAccurate(AlphaOf(g), g, listing[r], b);
    }
  }

  lemma MirrorsTotals(l: SignedLedger, g: SignedState)
    requires g.gamma > 1.0 && Mirrors(l, g)
    ensures g.neg.total == |l.neg| && g.pos.total == |l.pos|
  {
    hide Holds, Sum, ClampOf;
    TotalIsSize(l.neg, g.gamma, ClampOf(g.neg), g.neg.buckets);
    TotalIsSize(l.pos, g.gamma, ClampOf(g.pos), g.pos.buckets);
  }

  /** The three stretches of a sorted listing: negative items, the zero band, positive items. */
  lemma Stretches(s: seq<real>, l: SignedLedger, g: SignedState)
    requires g.gamma > 1.0 && g.minAddressable > 0.0 && Mirrors(l, g) && Lists(s, l)
    ensures var n, z := |l.neg|, |l.small|;
            && |s| == n + z + |l.pos|
            && multiset(Flipped(s[..n])) == l.neg
            && multiset(s[n..][..z]) == l.small
            && multiset(s[n..][z..]) == l.pos
  {
    hide Represents, Flipped;
    var n, z := |l.neg|, |l.small|;
    assert SplitInto(s, l.neg, l.small + l.pos);
    NegativesFirst(s, l.neg, l.small + l.pos, g.minAddressable);
    SuffixSorted(s, n);
    SmallFirst(s[n..], l.small, l.pos, g.minAddressable);
    assert |multiset(s[n..])| == |s| - n;
  }

  /** The answer for a rank is the one for the item of that rank. */
  lemma RankAccurate(l: SignedLedger, g: SignedState, s: seq<real>, rank: nat, value: real, isAccurate: bool)
    requires g.gamma > 1.0 && g.minAddressable > 0.0 && Mirrors(l, g) && Lists(s, l) && rank < |s|
    requires SignedAnswersAt(g, rank, value, isAccurate)
    ensures AnswersForSigned(g, s[rank], value, isAccurate)
    ensures isAccurate ==> WithinRelativeError(value, SignedTruth(g, s[rank]), AlphaOf(g.gamma))
  {
    hide Represents, Trusted, AlphaOf, BucketValue, AtRank, Flipped, SignedTruth, WithinRelativeError;
    MirrorsTotals(l, g);
    Stretches(s, l, g);
    ListsSorted(s, l);
    hide Lists, Mirrors, AnswersForSigned;
    ZeroCount(l, g);
    var n, z := |l.neg|, |l.small|;
    if rank < n {
      NegativeAnswer(l, g, s, n - rank - 1, value, isAccurate);
    } else if rank < n + z {
      ZeroBand(l, g, s, rank);
    } else {
      PositiveAnswer(l, g, s, rank - n - z, value, isAccurate);
    }
  }

  lemma ZeroCount(l: SignedLedger, g: SignedState)
    requires g.gamma > 1.0 && Mirrors(l, g)
    ensures g.zero == |l.small|
  {
  }

  lemma ListsSorted(s: seq<real>, l: SignedLedger)
    requires Lists(s, l)
    ensures Sorted(s)
  {
  }

  /**
   For the rank r, the whole part of q (n - 1): the answer is the one for the r-th of all signed items, and when it
   is flagged accurate it is within alpha of that item.
   */
  lemma SignedAnswerAccurate(l: SignedLedger, g: SignedState, s: seq<real>, q: real, was: bool, value: real,
                             isAccurate: bool, r: int)
    requires g.gamma > 1.0 && g.minAddressable > 0.0 && Mirrors(l, g) && Lists(s, l) && s != []
    requires 0.0 <= q <= 1.0 && SignedAnswers(g, q, was, value, isAccurate)
    requires RankIs(q, |s|, r)
    ensures SignedTotal(g) == |s| && 0 <= r < |s| && AnswersForSigned(g, s[r], value, isAccurate)
    ensures isAccurate ==> WithinRelativeError(value, SignedTruth(g, s[r]), AlphaOf(g.gamma))
    ensures !FoldsOneEnd(g.neg.kind) && !FoldsOneEnd(g.pos.kind) ==> isAccurate
  {
    hide Mirrors, Lists, Flipped, AlphaOf, WithinRelativeError, SignedTruth, AnswersForSigned, SignedAnswersAt;
    ListedTotal(l, g, s);
    RankUnique(q, |s|, r);
    RankInRange(q, |s|);
    hide RankOf;
    RankAccurate(l, g, s, r, value, isAccurate);
    OnlyEndsAreInaccurate(g, s[r], value, isAccurate);
  }

  lemma OnlyEndsAreInaccurate(g: SignedState, x: real, value: real, isAccurate: bool)
    requires g.gamma > 1.0 && g.minAddressable > 0.0 && AnswersForSigned(g, x, value, isAccurate)
    ensures !FoldsOneEnd(g.neg.kind) && !FoldsOneEnd(g.pos.kind) ==> isAccurate
  {
    hide BucketId, BucketValue, AlphaOf;
  }

  /** An item of the zero band counts as 0, which is what is answered for it. */
  lemma ZeroBand(l: SignedLedger, g: SignedState, s: seq<real>, rank: nat)
    requires g.gamma > 1.0 && g.minAddressable > 0.0 && Mirrors(l, g)
    requires |l.neg| <= rank < |l.neg| + |l.small| <= |s|
    requires multiset(s[|l.neg|..][..|l.small|]) == l.small
    ensures AnswersForSigned(g, s[rank], 0.0, true)
    ensures WithinRelativeError(0.0, SignedTruth(g, s[rank]), AlphaOf(g.gamma))
  {
    hide Represents, AlphaOf;
    var band := s[|l.neg|..][..|l.small|];
    assert s[rank] == band[rank - |l.neg|];
    assert s[rank] in multiset(band);
    assert SignedTruth(g, s[rank]) == 0.0;
    assert AlphaOf(g.gamma) * 0.0 == 0.0;
  }

  lemma PositiveAnswer(l: SignedLedger, g: SignedState, s: seq<real>, r: nat, value: real, isAccurate: bool)
    requires g.gamma > 1.0 && g.minAddressable > 0.0 && Mirrors(l, g) && Sorted(s)
    requires var n, z := |l.neg|, |l.small|; n + z + r < |s| && multiset(s[n..][z..]) == l.pos
    requires exists b :: AtRank(g.pos.buckets, r, b)
                         && value == BucketValue(AlphaOf(g.gamma), g.gamma, b) && isAccurate == Trusted(g.pos, b)
    ensures AnswersForSigned(g, s[|l.neg| + |l.small| + r], value, isAccurate)
    ensures isAccurate ==>
              WithinRelativeError(value, SignedTruth(g, s[|l.neg| + |l.small| + r]), AlphaOf(g.gamma))
  {
    hide Represents, BucketValue, WithinRelativeError, AlphaOf, StoreAnswersFor, Trusted;
    var b :| AtRank(g.pos.buckets, r, b)
             && value == BucketValue(AlphaOf(g.gamma), g.gamma, b) && isAccurate == Trusted(g.pos, b);
    var listing := s[|l.neg|..][|l.small|..];
    assert listing[r] == s[|l.neg| + |l.small| + r];
    StoreAnswer(l.pos, g.gamma, g.pos, listing, r, b);
    assert listing[r] in multiset(listing);
  }

  lemma NegativeAnswer(l: SignedLedger, g: SignedState, s: seq<real>, r: nat, value: real, isAccurate: bool)
    requires g.gamma > 1.0 && g.minAddressable > 0.0 && Mirrors(l, g) && Sorted(s)
    requires var n := |l.neg|; r < n <= |s| && multiset(Flipped(s[..n])) == l.neg
    requires exists b :: AtRank(g.neg.buckets, r, b)
                         && value == -BucketValue(AlphaOf(g.gamma), g.gamma, b) && isAccurate == Trusted(g.neg, b)
    ensures AnswersForSigned(g, s[|l.neg| - 1 - r], value, isAccurate)
    ensures isAccurate ==>
              WithinRelativeError(value, SignedTruth(g, s[|l.neg| - 1 - r]), AlphaOf(g.gamma))
  {
    hide Represents, BucketValue, AlphaOf, Flipped, StoreAnswersFor, Trusted, AnswersForSigned, WithinRelativeError;
    hide SignedTruth;
    var b :| AtRank(g.neg.buckets, r, b)
             && value == -BucketValue(AlphaOf(g.gamma), g.gamma, b) && isAccurate == Trusted(g.neg, b);
    var n := |l.neg|;
    var listing := Flipped(s[..n]);
    FlippedSorted(s[..n]);
    FlippedAt(s[..n], n - 1 - r);
    var x := s[n - 1 - r];
    assert listing[r] == -x;
    StoreAnswer(l.neg, g.gamma, g.neg, listing, r, b);
    assert listing[r] in multiset(listing);
    hide Mirrors, Sorted;
    Flip(g, x, value, isAccurate);
  }

  /** The answer for a negative item is that of its store for the opposite one, with the sign changed. */
  lemma Flip(g: SignedState, x: real, value: real, isAccurate: bool)
    requires g.gamma > 1.0 && g.minAddressable > 0.0 && -x >= g.minAddressable
    requires StoreAnswersFor(g.neg, g.gamma, -x, -value, isAccurate)
    ensures AnswersForSigned(g, x, value, isAccurate)
    ensures WithinRelativeError(-value, -x, AlphaOf(g.gamma)) ==>
              WithinRelativeError(value, SignedTruth(g, x), AlphaOf(g.gamma))
  {
    hide StoreAnswersFor, AlphaOf;
    assert Abs(-value + x) == Abs(value - x);
  }

  // ---------- main result ----------

  /**
   Every answer to a quantile q is the one for the item of the sorted listing at the whole part of q (n - 1), and
   within alpha of that item when it is flagged accurate.
   */
  ghost predicate MeetsSignedGuarantee(g: SignedState, listing: seq<real>, alpha: real)
    requires g.gamma > 1.0 && g.minAddressable > 0.0
  {
    forall q, was, value, isAccurate, r: int | 0.0 <= q <= 1.0 && SignedAnswers(g, q, was, value, isAccurate) &&
        RankIs(q, |listing|, r) ::
      && 0 <= r < |listing|
      && AnswersForSigned(g, listing[r], value, isAccurate)
      && (isAccurate ==> WithinRelativeError(value, SignedTruth(g, listing[r]), alpha))
  }

  ghost predicate AlwaysTrustedSigned(g: SignedState)
    requires g.gamma > 1.0
  {
    forall q, was, value, isAccurate | 0.0 <= q <= 1.0 && SignedAnswers(g, q, was, value, isAccurate) :: isAccurate
  }

  lemma MirroredGuarantee(l: SignedLedger, g: SignedState, s: seq<real>)
    requires g.gamma > 1.0 && g.minAddressable > 0.0 && Mirrors(l, g) && Lists(s, l) && s != []
    ensures SignedTotal(g) == |s| && MeetsSignedGuarantee(g, s, AlphaOf(g.gamma))
  {
    hide SignedAnswers, Mirrors, Lists, WithinRelativeError, AlphaOf, AnswersForSigned, RankIs;
    forall q, was, value, isAccurate, r: int | 0.0 <= q <= 1.0 && SignedAnswers(g, q, was, value, isAccurate) &&
        RankIs(q, |s|, r)
      ensures 0 <= r < |s| && AnswersForSigned(g, s[r], value, isAccurate)
      ensures isAccurate ==> WithinRelativeError(value, SignedTruth(g, s[r]), AlphaOf(g.gamma))
    {
      SignedAnswerAccurate(l, g, s, q, was, value, isAccurate, r);
    }
    ListedTotal(l, g, s);
  }

  lemma MirroredTrust(l: SignedLedger, g: SignedState, s: seq<real>)
    requires g.gamma > 1.0 && g.minAddressable > 0.0 && Mirrors(l, g) && Lists(s, l) && s != []
    requires !FoldsOneEnd(g.neg.kind) && !FoldsOneEnd(g.pos.kind)
    ensures AlwaysTrustedSigned(g)
  {
    hide SignedAnswers, Mirrors, Lists, WithinRelativeError, AlphaOf, AnswersForSigned, RankIs;
    forall q, was, value, isAccurate | 0.0 <= q <= 1.0 && SignedAnswers(g, q, was, value, isAccurate)
      ensures isAccurate
    {
      SignedAnswerAccurate(l, g, s, q, was, value, isAccurate, RankOf(q, |s|));
    }
  }

  /** Quantile 0 is the least item, quantile 1 the greatest. */
  lemma ExtremeSignedQuantiles(g: SignedState, listing: seq<real>, alpha: real, was: bool, value: real,
                               isAccurate: bool)
    requires g.gamma > 1.0 && g.minAddressable > 0.0 && listing != [] && MeetsSignedGuarantee(g, listing, alpha)
    ensures SignedAnswers(g, 0.0, was, value, isAccurate) ==> AnswersForSigned(g, listing[0], value, isAccurate)
    ensures SignedAnswers(g, 1.0, was, value, isAccurate) ==>
              AnswersForSigned(g, listing[|listing| - 1], value, isAccurate)
  {
    hide SignedAnswers, AnswersForSigned, WithinRelativeError;
    var n := |listing| - 1;
    assert 0.0 * n as real == 0.0 && 1.0 * n as real == n as real;
    assert RankIs(0.0, |listing|, 0) && RankIs(1.0, |listing|, n);
  }

  lemma ListedTotal(l: SignedLedger, g: SignedState, s: seq<real>)
    requires g.gamma > 1.0 && g.minAddressable > 0.0 && Mirrors(l, g) && Lists(s, l)
    ensures SignedTotal(g) == |s|
  {
    hide Represents, Flipped;
    MirrorsTotals(l, g);
    Stretches(s, l, g);
  }

  lemma NewSignedTracks(kind: StoreType, alpha: real, minValue: real, maxSize: int, dblMin: real, dblMax: real)
    requires 0.0 < alpha < 1.0 && SignedBound(kind, maxSize)
    ensures SignedTracks(NO_ITEMS, NewSigned(kind, alpha, minValue, maxSize, dblMin, dblMax), GammaOf(alpha), 0)
  {
  }

  /**
   The guarantee of the signed sketch over whole honest runs: the shared bound holds after every update, both
   stores are the survivors' histograms at the mapping's gamma, and for any sorted listing s of the survivors
   every answer is the one for the item asked for, within alpha when it is flagged accurate.  In uniform mode
   alpha is that of gamma0^(2^k) for at most 32 rounds k and every answer is flagged accurate; otherwise alpha
   is the one asked for, and in unbounded mode every answer is flagged accurate.
   */
  lemma SignedGuarantee(kind: StoreType, alpha: real, minValue: real, maxSize: int, dblMin: real, dblMax: real,
                        ops: seq<Op>)
    requires 0.0 < alpha < 1.0 && SignedBound(kind, maxSize)
    requires HonestRunSigned(NO_ITEMS, NewSigned(kind, alpha, minValue, maxSize, dblMin, dblMax), ops)
    ensures CanRunSigned(NewSigned(kind, alpha, minValue, maxSize, dblMin, dblMax), ops)
    ensures var start := NewSigned(kind, alpha, minValue, maxSize, dblMin, dblMax);
            var g, l := RunSigned(start, ops), SignedLedgerAfter(NO_ITEMS, start, ops);
            && g.gamma > 1.0 && g.minAddressable > 0.0 && g.kind == kind
            && g.pos.kind == kind
            && g.neg.kind == (if kind.CollapsingLow? then CollapsingHigh
                              else if kind.CollapsingHigh? then CollapsingLow else kind)
            && (!kind.UnboundedStore? ==> Buckets2(g) <= maxSize)
            && Represents(l.neg, g.gamma, g.neg) && Represents(l.pos, g.gamma, g.pos)
            && (exists k: nat | k <= 32 :: AtRound(g, GammaOf(alpha), k))
            && forall s | Lists(s, l) && s != [] ::
                 && SignedTotal(g) == |s|
                 && MeetsSignedGuarantee(g, s, if kind.CollapsingAll? then AlphaOf(g.gamma) else alpha)
                 && (kind.CollapsingAll? || kind.UnboundedStore? ==> AlwaysTrustedSigned(g))
  {
    hide AtRound, Lists, Represents, MeetsSignedGuarantee, AlwaysTrustedSigned, WellFormed, AlphaOf;
    var start := NewSigned(kind, alpha, minValue, maxSize, dblMin, dblMax);
    NewSignedTracks(kind, alpha, minValue, maxSize, dblMin, dblMax);
    var rounds := SignedRunTracks(NO_ITEMS, start, GammaOf(alpha), 0, ops);
    var g, l := RunSigned(start, ops), SignedLedgerAfter(NO_ITEMS, start, ops);
    RoundKinds(g, GammaOf(alpha), rounds);
    AlphaUnique(alpha, AlphaOf(GammaOf(alpha)), GammaOf(alpha));
    forall s | Lists(s, l) && s != []
      ensures SignedTotal(g) == |s|
      ensures MeetsSignedGuarantee(g, s, if kind.CollapsingAll? then AlphaOf(g.gamma) else alpha)
      ensures kind.CollapsingAll? || kind.UnboundedStore? ==> AlwaysTrustedSigned(g)
    {
      MirroredGuarantee(l, g, s);
      if kind.CollapsingAll? || kind.UnboundedStore? {
        MirroredTrust(l, g, s);
      }
    }
  }

  /** Outside uniform mode the resolution never changes, and which ends are folded is a matter of the mode. */
  lemma RoundKinds(g: SignedState, gamma0: real, k: nat)
    requires gamma0 > 1.0 && AtRound(g, gamma0, k)
    ensures !g.kind.CollapsingAll? ==> g.gamma == gamma0
    ensures FoldsOneEnd(g.neg.kind) == FoldsOneEnd(g.kind) == FoldsOneEnd(g.pos.kind)
    ensures g.neg.kind == Mirror(g.kind) && g.pos.kind == g.kind
  {
  }
}
