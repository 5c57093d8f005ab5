/** When the collapse counter of a low or high signed sketch depends on the order of insertions. */
module SignedCounts {
  import opened Accuracy
  import opened BucketIdMapping
  import opened CollapseCounts
  import opened GSketch
  import opened Histogram
  import opened MapStore
  import opened OrderIndependence
  import opened PSketch
  import opened SignedAccuracy
  import opened SignedOrder
  import opened SignedRounds
  import opened StoreRefinement
  import opened Survivors
  import Collections

  // ---------- runs put together item by item ----------

  function WithItems(l: SignedLedger, negative: bool, m: multiset<real>): SignedLedger {
    if negative then l.(neg := m) else l.(pos := m)
  }

  /** Every item of the ledger is one that an insertion puts where the ledger has it. */
  ghost predicate EnterableSigned(l: SignedLedger, g: SignedState) {
    && (forall v | v in l.small :: Abs(v) <= g.maxAddressable && Abs(v) < g.minAddressable)
    && (forall v | v in l.neg :: 0.0 < v && g.minAddressable <= v <= g.maxAddressable)
    && (forall v | v in l.pos :: 0.0 < v && g.minAddressable <= v <= g.maxAddressable)
  }

  lemma {:induction false} RunStaysEnterableSigned(l: SignedLedger, g: SignedState, ops: seq<Op>)
    requires EnterableSigned(l, g) && HonestRunSigned(l, g, ops) && g.minAddressable > 0.0
    ensures EnterableSigned(SignedLedgerAfter(l, g, ops), g)
    decreases |ops|
  {
    if ops != [] {
      RunStaysEnterableSigned(EnteredSigned(l, g, ops[0]), g, ops[1..]);
    }
  }

  function ItemOp(v: real, negative: bool): Op {
    Op(if negative then -v else v, 1)
  }

  lemma ItemEnters(l: SignedLedger, g: SignedState, v: real, negative: bool)
    requires 0.0 < v && g.minAddressable <= v <= g.maxAddressable
    ensures HonestSigned(l, g, ItemOp(v, negative))
    ensures EnteredSigned(l, g, ItemOp(v, negative)) == WithItems(l, negative, Bump(ItemsOf(l, negative), v, 1))
  {
    assert -(-v) == v;
  }

  /** The insert-only runs from a new sketch that end with the items of l. */
  ghost predicate Brings(start: SignedState, ops: seq<Op>, l: SignedLedger) {
    && InsertOnly(ops) && HonestRunSigned(NO_ITEMS, start, ops) && CanRunSigned(start, ops)
    && SignedLedgerAfter(NO_ITEMS, start, ops) == l
  }

  ghost function StateAfter(start: SignedState, ops: seq<Op>): SignedState {
    if CanRunSigned(start, ops) then RunSigned(start, ops) else start
  }

  ghost predicate New(start: SignedState, gamma0: real) {
    && gamma0 > 1.0 && CanonicalSigned(NO_ITEMS, start, gamma0, 0)
    && FoldsOneEnd(start.kind)
  }

  /** What a low or high sketch is after a run that brings in l. */
  lemma BroughtState(start: SignedState, gamma0: real, ops: seq<Op>, l: SignedLedger)
    requires New(start, gamma0) && Brings(start, ops, l)
    ensures CanonicalSigned(l, StateAfter(start, ops), gamma0, 0)
    ensures StateAfter(start, ops).kind == start.kind && StateAfter(start, ops).maxSize == start.maxSize
    ensures StateAfter(start, ops).minAddressable == start.minAddressable
    ensures StateAfter(start, ops).maxAddressable == start.maxAddressable
  {
    hide CanonicalStores, WellFormedSigned, Mirrors;
    var k := RunKeepsCanonicalSigned(NO_ITEMS, start, start, gamma0, 0, ops);
    RunKeepsRangeSigned(NO_ITEMS, start, start, gamma0, 0, ops);
    assert k == 0;
  }

  lemma {:induction false} RunKeepsRangeSigned(l: SignedLedger, range: SignedState, g: SignedState, gamma0: real,
                                               k: nat, ops: seq<Op>)
    requires gamma0 > 1.0 && SignedTracks(l, g, gamma0, k) && HonestRunSigned(l, range, ops) && CanRunSigned(g, ops)
    requires range.minAddressable == g.minAddressable && range.maxAddressable == g.maxAddressable
    ensures RunSigned(g, ops).minAddressable == g.minAddressable
    ensures RunSigned(g, ops).maxAddressable == g.maxAddressable
    decreases |ops|
  {
    hide SignedTracks, UpdatedSigned, EnteredSigned, HonestSigned, CanUpdateSigned;
    if ops != [] {
      SameHonest(l, range, g, ops[0]);
      var j := SignedUpdateTracks(l, g, gamma0, k, ops[0]);
      RunKeepsRangeSigned(EnteredSigned(l, g, ops[0]), range, UpdatedSigned(g, ops[0]), gamma0, j, ops[1..]);
    }
  }

  /** One insertion more. */
  lemma BringsMore(start: SignedState, gamma0: real, ops: seq<Op>, l: SignedLedger, op: Op)
    requires New(start, gamma0) && Brings(start, ops, l) && op.count >= 0
    ensures HonestSigned(l, start, op) && Brings(start, ops + [op], EnteredSigned(l, start, op))
    ensures HonestSigned(l, StateAfter(start, ops), op) && CanUpdateSigned(StateAfter(start, ops), op)
    ensures EnteredSigned(l, StateAfter(start, ops), op) == EnteredSigned(l, start, op)
    ensures StateAfter(start, ops + [op]) == UpdatedSigned(StateAfter(start, ops), op)
  {
    hide CanonicalSigned, EnteredSigned, HonestSigned, UpdatedSigned, CanUpdateSigned;
    BroughtState(start, gamma0, ops, l);
    var g := StateAfter(start, ops);
    var k := InsertKeepsCanonicalSigned(l, g, gamma0, 0, op);
    SameRangeHonest(l, start, g, op);
    SignedRunExtends(NO_ITEMS, start, start, ops, op);
  }

  lemma TakenOut(m: multiset<real>, v: real)
    requires v in m
    ensures Bump(m - multiset{v}, v, 1) == m && |m - multiset{v}| == |m| - 1
  {
  }

  /** One item more of a sign. */
  lemma ItemLast(start: SignedState, gamma0: real, ops: seq<Op>, l: SignedLedger, negative: bool, v: real)
    requires New(start, gamma0) && EnterableSigned(l, start) && v in ItemsOf(l, negative)
    requires Brings(start, ops, WithItems(l, negative, ItemsOf(l, negative) - multiset{v}))
    ensures Brings(start, ops + [ItemOp(v, negative)], l)
  {
    hide New, Brings, HonestSigned, EnteredSigned, UpdatedSigned, CanUpdateSigned, StateAfter, SignedLedgerAfter;
    var few := WithItems(l, negative, ItemsOf(l, negative) - multiset{v});
    BringsMore(start, gamma0, ops, few, ItemOp(v, negative));
    ItemEnters(few, start, v, negative);
    TakenOut(ItemsOf(l, negative), v);
  }

  lemma SmallLast(start: SignedState, gamma0: real, ops: seq<Op>, l: SignedLedger, v: real)
    requires New(start, gamma0) && EnterableSigned(l, start) && v in l.small
    requires Brings(start, ops, l.(small := l.small - multiset{v}))
    ensures Brings(start, ops + [Op(v, 1)], l)
  {
    hide New, Brings, UpdatedSigned, CanUpdateSigned, StateAfter, SignedLedgerAfter;
    var few := l.(small := l.small - multiset{v});
    BringsMore(start, gamma0, ops, few, Op(v, 1));
    TakenOut(l.small, v);
    assert EnteredSigned(few, start, Op(v, 1)) == few.(small := Bump(few.small, v, 1));
  }

  lemma FewerEnterable(l: SignedLedger, start: SignedState, few: SignedLedger)
    requires EnterableSigned(l, start) && few.small <= l.small && few.neg <= l.neg && few.pos <= l.pos
    ensures EnterableSigned(few, start)
  {
    forall v
      ensures (v in few.small ==> v in l.small) && (v in few.neg ==> v in l.neg) && (v in few.pos ==> v in l.pos)
    {
      assert few.small[v] <= l.small[v] && few.neg[v] <= l.neg[v] && few.pos[v] <= l.pos[v];
    }
  }

  /** Any items that can enter do so in some order. */
  lemma {:induction false} SomeRun(start: SignedState, gamma0: real, l: SignedLedger) returns (ops: seq<Op>)
    requires New(start, gamma0) && EnterableSigned(l, start)
    ensures Brings(start, ops, l)
    decreases |l.small| + |l.neg| + |l.pos|
  {
    hide New, Brings, EnterableSigned;
    if l.small != multiset{} {
      var v := Collections.InhabitedBag(l.small);
      TakenOut(l.small, v);
      FewerEnterable(l, start, l.(small := l.small - multiset{v}));
      ops := SomeRun(start, gamma0, l.(small := l.small - multiset{v}));
      SmallLast(start, gamma0, ops, l, v);
      ops := ops + [Op(v, 1)];
    } else if l.neg != multiset{} || l.pos != multiset{} {
      var negative := l.neg != multiset{};
      var v := Collections.InhabitedBag(ItemsOf(l, negative));
      var few := WithItems(l, negative, ItemsOf(l, negative) - multiset{v});
      TakenOut(ItemsOf(l, negative), v);
      FewerEnterable(l, start, few);
      ops := SomeRun(start, gamma0, few);
      ItemLast(start, gamma0, ops, l, negative, v);
      ops := ops + [ItemOp(v, negative)];
    } else {
      ops := [];
      BringsNothing(start);
      assert l == NO_ITEMS;
    }
  }

  lemma BringsNothing(start: SignedState)
    ensures Brings(start, [], NO_ITEMS)
  {
  }

  // ---------- what an insertion costs ----------

  /** The room that one side has when the other has a given number of ids. */
  function Room(kind: StoreType, negative: bool, others: int, maxSize: int): int {
    if kind.CollapsingLow? == negative then
      if maxSize - others > 1 then maxSize - others else 1
    else
      maxSize - if others > 1 then 1 else others
  }

  ghost function IdsOf(l: SignedLedger, negative: bool, g: real): set<int>
    requires g > 1.0
  {
    Ids(ItemsOf(l, negative), g)
  }

  function Smaller(a: int, b: int): int {
    if a > b then b else a
  }

  lemma SizesByRoom(l: SignedLedger, g: SignedState, gamma0: real, negative: bool)
    requires gamma0 > 1.0 && CanonicalSigned(l, g, gamma0, 0) && FoldsOneEnd(g.kind)
    ensures g.gamma == gamma0 && g.maxSize >= 2
    ensures var s, room := StoreOf(g, negative), Room(g.kind, negative, |IdsOf(l, !negative, gamma0)|, g.maxSize);
            && Represents(ItemsOf(l, negative), gamma0, s) && KeepsEnd(ItemsOf(l, negative), gamma0, s)
            && FoldsOneEnd(s.kind) && s.resizable && room >= 1
            && |s.buckets| == Smaller(|IdsOf(l, negative, gamma0)|, room)
  {
    hide Represents, WellFormed, KeepsEnd, Ids;
    assert Squared(gamma0, 0) == gamma0;
  }

  lemma PairSpends(far: StoreState, near: StoreState, maxSize: int)
    requires WellFormed(far) && WellFormed(near) && far.resizable && near.resizable && maxSize >= 2
    requires FoldsOneEnd(far.kind) && FoldsOneEnd(near.kind)
    ensures Spent(FittedPair(far, near, maxSize).0) == Spent(far)
    ensures Spent(FittedPair(far, near, maxSize).1) == Spent(near)
  {
    hide Shrunk, Sum;
    if |near.buckets| < maxSize {
      ShrunkSpends(far, maxSize - |near.buckets|);
    } else {
      ShrunkSpends(far, 1);
      ShrunkSpends(near, maxSize - |Shrunk(far, 1).buckets|);
    }
  }

  lemma FittedSpends(g: SignedState, negative: bool)
    requires Consistent(g) && !g.kind.CollapsingAll?
    ensures Spent(StoreOf(Fitted(g), negative)) == Spent(StoreOf(g, negative))
  {
    hide WellFormed, FittedPair;
    if Buckets2(g) > g.maxSize && FoldsOneEnd(g.kind) {
      if g.kind.CollapsingLow? {
        PairSpends(g.neg, g.pos, g.maxSize);
      } else {
        PairSpends(g.pos, g.neg, g.maxSize);
      }
    }
  }

  /** Before the bound is looked at, an item changes the buckets of its own store and no counter. */
  lemma PlacedItem(g: SignedState, v: real, negative: bool)
    requires CanUpdateSigned(g, ItemOp(v, negative)) && g.gamma > 1.0
    requires 0.0 < v && g.minAddressable <= v <= g.maxAddressable
    ensures var s, h := StoreOf(g, negative), Placed(g, ItemOp(v, negative));
            && StoreOf(h, negative).buckets == Added(s, g.gamma, v, 1).buckets
            && StoreOf(h, negative).numCollapses == s.numCollapses
            && StoreOf(h, !negative) == StoreOf(g, !negative) && h.kind == g.kind
  {
    hide WellFormed, BucketId, InsertTarget, Add;
    assert Abs(ItemOp(v, negative).value) == v;
  }

  // ---------- the counter is the number of folds ----------

  /** The folds that one update makes: each leaves one bucket fewer. */
  function UpdateFolds(g: SignedState, op: Op): int
    requires CanUpdateSigned(g, op)
  {
    Buckets2(Placed(g, op)) - Buckets2(UpdatedSigned(g, op))
  }

  /** Outside uniform mode an insertion raises the counter by exactly the folds that it makes. */
  lemma InsertionCounts(g: SignedState, op: Op)
    requires CanUpdateSigned(g, op) && !g.kind.CollapsingAll? && op.count >= 0
    ensures NumCollapses(UpdatedSigned(g, op)) == NumCollapses(g) + UpdateFolds(g, op)
    ensures UpdatedSigned(g, op).kind == g.kind && UpdateFolds(g, op) >= 0
  {
    hide WellFormed, FittedPair, BucketId;
    PlacedConsistent(g, op);
    FittedSpends(Placed(g, op), true);
    FittedSpends(Placed(g, op), false);
    PlacingCounts(g, op);
    FittedKeepsKind(Placed(g, op));
  }

  lemma PlacingCounts(g: SignedState, op: Op)
    requires CanUpdateSigned(g, op) && op.count >= 0
    ensures var h := Placed(g, op);
            && h.neg.numCollapses == g.neg.numCollapses && h.pos.numCollapses == g.pos.numCollapses
            && h.kind == g.kind
  {
    hide BucketId, InsertTarget, Sum;
  }

  lemma FittedKeepsKind(g: SignedState)
    requires Consistent(g) && !g.kind.CollapsingAll?
    ensures Fitted(g).kind == g.kind && Buckets2(Fitted(g)) <= Buckets2(g)
  {
    hide WellFormed, FittedPair;
  }

  ghost function FoldsMade(g: SignedState, ops: seq<Op>): int
    requires CanRunSigned(g, ops)
    decreases |ops|
  {
    if ops == [] then 0 else UpdateFolds(g, ops[0]) + FoldsMade(UpdatedSigned(g, ops[0]), ops[1..])
  }

  lemma {:induction false} RunCountsFolds(g: SignedState, ops: seq<Op>)
    requires CanRunSigned(g, ops) && InsertOnly(ops) && !g.kind.CollapsingAll?
    ensures NumCollapses(RunSigned(g, ops)) == NumCollapses(g) + FoldsMade(g, ops)
    decreases |ops|
  {
    hide UpdatedSigned, CanUpdateSigned, NumCollapses, UpdateFolds;
    if ops != [] {
      InsertionCounts(g, ops[0]);
      RunCountsFolds(UpdatedSigned(g, ops[0]), ops[1..]);
    }
  }

  /** What an outermost item does to the counters of both stores. */
  lemma ItemSpends(l: SignedLedger, g: SignedState, gamma0: real, v: real, negative: bool, endLast: bool)
    requires gamma0 > 1.0 && CanonicalSigned(l, g, gamma0, 0) && FoldsOneEnd(g.kind)
    requires 0.0 < v && g.minAddressable <= v <= g.maxAddressable && CanUpdateSigned(g, ItemOp(v, negative))
    requires Outermost(StoreOf(g, negative).kind, endLast, BucketId(gamma0, v), IdsOf(l, negative, gamma0))
    ensures var s, t := StoreOf(g, negative), UpdatedSigned(g, ItemOp(v, negative));
            var d, e := |IdsOf(l, negative, gamma0)|, |Ids(Bump(ItemsOf(l, negative), v, 1), gamma0)|;
            && d <= e <= d + 1 && (s.collapsed <==> |s.buckets| < d) && (s.collapsed <==> s.numCollapses > 0)
            && Spent(StoreOf(t, !negative)) == Spent(StoreOf(g, !negative))
            && Spent(StoreOf(t, negative)) ==
               s.numCollapses + if !s.collapsed then e else |s.buckets| + if endLast then 0 else e - d
  {
    hide Holds, Sum, Ids, BucketId, Outermost, Placed, Fitted, CanonicalSigned, CanUpdateSigned, ItemOp, Positive;
    SizesByRoom(l, g, gamma0, negative);
    var m, s := ItemsOf(l, negative), StoreOf(g, negative);
    PlacedConsistent(g, ItemOp(v, negative));
    PlacedItem(g, v, negative);
    FittedSpends(Placed(g, ItemOp(v, negative)), negative);
    FittedSpends(Placed(g, ItemOp(v, negative)), !negative);
    AddKeepsEnd(m, gamma0, s, v, 1);
    MoreIds(m, gamma0, v);
    if s.collapsed {
      OutermostAdded(m, gamma0, s, v, endLast);
    }
  }

  lemma MoreIds(m: multiset<real>, g: real, v: real)
    requires g > 1.0 && v > 0.0
    ensures |Ids(m, g)| <= |Ids(Bump(m, v, 1), g)| <= |Ids(m, g)| + 1
  {
    hide Ids;
    IdsBump(m, g, v, 1);
    GrowIds(Ids(m, g), BucketId(g, v));
  }

  // ---------- two arrangements of the same items ----------

  /** The counter of a store that its items, with the folded end last or first, lead to. */
  ghost predicate Folded(start: SignedState, gamma0: real, ops: seq<Op>, l: SignedLedger, negative: bool, endLast: bool)
    requires gamma0 > 1.0
  {
    && Brings(start, ops, l)
    && StoreOf(StateAfter(start, ops), negative).numCollapses ==
       FoldsNeeded(|IdsOf(l, negative, gamma0)|,
                   Room(start.kind, negative, |IdsOf(l, !negative, gamma0)|, start.maxSize), endLast)
  }

  /** The arithmetic of one outermost item: d ids and then e, room for so many, and the folds before and after. */
  lemma FoldsByOne(d: int, e: int, room: int, endLast: bool, folds: int, after: int)
    requires d <= e <= d + 1 && room >= 1 && folds == FoldsNeeded(d, room, endLast)
    requires after + Smaller(e, room) ==
             folds + if d <= room then e else Smaller(d, room) + if endLast then 0 else e - d
    ensures after == FoldsNeeded(e, room, endLast)
  {
  }

  lemma PhaseStep(start: SignedState, gamma0: real, ops: seq<Op>, l: SignedLedger, negative: bool, v: real,
                  endLast: bool)
    requires New(start, gamma0) && EnterableSigned(l, start) && v in ItemsOf(l, negative)
    requires Folded(start, gamma0, ops, WithItems(l, negative, ItemsOf(l, negative) - multiset{v}), negative, endLast)
    requires Outermost(StoreOf(start, negative).kind, endLast, BucketId(gamma0, v), IdsOf(l, negative, gamma0))
    ensures Folded(start, gamma0, ops + [ItemOp(v, negative)], l, negative, endLast)
    ensures Spent(StoreOf(StateAfter(start, ops + [ItemOp(v, negative)]), !negative)) ==
            Spent(StoreOf(StateAfter(start, ops), !negative))
  {
    hide New, Brings, CanonicalSigned, UpdatedSigned, CanUpdateSigned, HonestSigned, EnteredSigned, StateAfter;
    hide Ids, FoldsNeeded, Room, Outermost, BucketId, ItemOp, Represents, KeepsEnd;
    var few := WithItems(l, negative, ItemsOf(l, negative) - multiset{v});
    var op, g := ItemOp(v, negative), StateAfter(start, ops);
    NewKinds(start, gamma0);
    ItemOpInserts(v, negative);
    ItemLast(start, gamma0, ops, l, negative, v);
    BringsMore(start, gamma0, ops, few, op);
    BroughtState(start, gamma0, ops, few);
    BroughtState(start, gamma0, ops + [op], l);
    var t := StateAfter(start, ops + [op]);
    SizesByRoom(few, g, gamma0, negative);
    SizesByRoom(l, t, gamma0, negative);
    SameKinds(few, g, gamma0, start, negative);
    InRangeItem(l, start, negative, v);
    TakenOut(ItemsOf(l, negative), v);
    IdsBump(ItemsOf(few, negative), gamma0, v, 1);
    FewerOutermost(StoreOf(start, negative).kind, endLast, BucketId(gamma0, v), IdsOf(few, negative, gamma0),
                   IdsOf(l, negative, gamma0));
    ItemSpends(few, g, gamma0, v, negative, endLast);
    FoldsByOne(|IdsOf(few, negative, gamma0)|, |IdsOf(l, negative, gamma0)|,
               Room(start.kind, negative, |IdsOf(l, !negative, gamma0)|, start.maxSize), endLast,
               StoreOf(g, negative).numCollapses, StoreOf(t, negative).numCollapses);
  }

  lemma NewKinds(start: SignedState, gamma0: real)
    requires New(start, gamma0)
    ensures gamma0 > 1.0 && FoldsOneEnd(start.kind)
    ensures start.neg.kind == Mirror(start.kind) && start.pos.kind == start.kind
  {
  }

  lemma ItemOpInserts(v: real, negative: bool)
    ensures ItemOp(v, negative).count == 1
  {
  }

  lemma SameKinds(l: SignedLedger, g: SignedState, gamma0: real, start: SignedState, negative: bool)
    requires gamma0 > 1.0 && CanonicalSigned(l, g, gamma0, 0) && g.kind == start.kind
    requires start.neg.kind == Mirror(start.kind) && start.pos.kind == start.kind
    ensures StoreOf(g, negative).kind == StoreOf(start, negative).kind
  {
  }

  lemma InRangeItem(l: SignedLedger, start: SignedState, negative: bool, v: real)
    requires EnterableSigned(l, start) && v in ItemsOf(l, negative)
    ensures 0.0 < v && start.minAddressable <= v <= start.maxAddressable
  {
  }

  /** All items of one sign after all the others, arranged: the other store's expense does not depend on how. */
  lemma {:induction false} Phase(start: SignedState, gamma0: real, first: seq<Op>, l: SignedLedger, negative: bool,
                                 endLast: bool) returns (ops: seq<Op>)
    requires New(start, gamma0) && EnterableSigned(l, start)
    requires Brings(start, first, WithItems(l, negative, multiset{}))
    ensures Folded(start, gamma0, ops, l, negative, endLast)
    ensures Spent(StoreOf(StateAfter(start, ops), !negative)) == Spent(StoreOf(StateAfter(start, first), !negative))
    decreases |ItemsOf(l, negative)|
  {
    hide New, EnterableSigned, Folded, Brings, Outermost, BucketId, Ids, StateAfter, ItemOp;
    NewKinds(start, gamma0);
    var m := ItemsOf(l, negative);
    if m == multiset{} {
      ops := first;
      assert WithItems(l, negative, multiset{}) == l;
      FoldedNever(start, gamma0, ops, l, negative, endLast);
    } else {
      PositiveItems(l, start, negative);
      var v := OutermostItem(m, gamma0, StoreOf(start, negative).kind, endLast);
      var few := WithItems(l, negative, m - multiset{v});
      TakenOut(m, v);
      FewerEnterable(l, start, few);
      assert WithItems(few, negative, multiset{}) == WithItems(l, negative, multiset{});
      ops := Phase(start, gamma0, first, few, negative, endLast);
      PhaseStep(start, gamma0, ops, l, negative, v, endLast);
      ops := ops + [ItemOp(v, negative)];
    }
  }

  lemma PositiveItems(l: SignedLedger, start: SignedState, negative: bool)
    requires EnterableSigned(l, start)
    ensures AllPositive(ItemsOf(l, negative))
  {
  }

  lemma FoldedNever(start: SignedState, gamma0: real, ops: seq<Op>, l: SignedLedger, negative: bool, endLast: bool)
    requires New(start, gamma0) && Brings(start, ops, l) && ItemsOf(l, negative) == multiset{}
    ensures gamma0 > 1.0 && Folded(start, gamma0, ops, l, negative, endLast)
  {
    hide New, CanonicalSigned, Ids, Holds, Room;
    NewKinds(start, gamma0);
    BroughtState(start, gamma0, ops, l);
    SizesByRoom(l, StateAfter(start, ops), gamma0, negative);
    NoIds(gamma0);
  }

  // ---------- main results ----------

  /**
   Over any insert-only run outside uniform mode the counter starts at 0 and is the number of folds that were
   made: none when the ids of both signs fit, and else at least one and at most one for each id too many.
   */
  lemma SignedCountRange(kind: StoreType, alpha: real, minValue: real, maxSize: int, dblMin: real, dblMax: real,
                         ops: seq<Op>)
    requires 0.0 < alpha < 1.0 && SignedBound(kind, maxSize) && !kind.CollapsingAll? && InsertOnly(ops)
    ensures var start := NewSigned(kind, alpha, minValue, maxSize, dblMin, dblMax);
            && HonestRunSigned(NO_ITEMS, start, ops) && CanRunSigned(start, ops)
            && var g, l := RunSigned(start, ops), SignedLedgerAfter(NO_ITEMS, start, ops);
            && var excess := |IdsOf(l, true, GammaOf(alpha))| + |IdsOf(l, false, GammaOf(alpha))| - maxSize;
            && NumCollapses(start) == 0 && NumCollapses(g) == FoldsMade(start, ops)
            && (if kind.UnboundedStore? || excess <= 0 then NumCollapses(g) == 0 else 1 <= NumCollapses(g) <= excess)
  {
    hide CanonicalSigned, Ids, FoldsMade, GammaOf;
    var start := NewSigned(kind, alpha, minValue, maxSize, dblMin, dblMax);
    NewIsCanonicalSigned(kind, alpha, minValue, maxSize, dblMin, dblMax);
    var k := RunKeepsCanonicalSigned(NO_ITEMS, start, start, GammaOf(alpha), 0, ops);
    RunCountsFolds(start, ops);
    CanonicalCount(SignedLedgerAfter(NO_ITEMS, start, ops), RunSigned(start, ops), GammaOf(alpha), k);
  }

  lemma CanonicalCount(l: SignedLedger, g: SignedState, gamma0: real, k: nat)
    requires gamma0 > 1.0 && CanonicalSigned(l, g, gamma0, k) && !g.kind.CollapsingAll?
    ensures var excess := |IdsOf(l, true, gamma0)| + |IdsOf(l, false, gamma0)| - g.maxSize;
            if g.kind.UnboundedStore? || excess <= 0 then NumCollapses(g) == 0 else 1 <= NumCollapses(g) <= excess
  {
    hide Holds, Sum, Ids;
    assert Squared(gamma0, 0) == gamma0;
  }

  /** Another insert-only run with the items of ops, in any order and any grouping. */
  ghost predicate SameItemsSigned(start: SignedState, ops: seq<Op>, other: seq<Op>)
    requires HonestRunSigned(NO_ITEMS, start, ops)
  {
    Brings(start, other, SignedLedgerAfter(NO_ITEMS, start, ops))
  }

  /** One side has more than one id too many for the room that the other leaves it. */
  ghost predicate GivesUpTwo(l: SignedLedger, gamma0: real, kind: StoreType, maxSize: int, negative: bool)
    requires gamma0 > 1.0
  {
    |IdsOf(l, negative, gamma0)| > Room(kind, negative, |IdsOf(l, !negative, gamma0)|, maxSize) + 1
  }

  /** Then two orders of the same items give different counters. */
  lemma TwoCounts(start: SignedState, gamma0: real, l: SignedLedger, negative: bool)
    returns (few: seq<Op>, many: seq<Op>)
    requires New(start, gamma0) && EnterableSigned(l, start)
    requires gamma0 > 1.0 && GivesUpTwo(l, gamma0, start.kind, start.maxSize, negative)
    ensures Brings(start, few, l) && Brings(start, many, l)
    ensures NumCollapses(StateAfter(start, few)) < NumCollapses(StateAfter(start, many))
  {
    hide New, EnterableSigned, Brings, StateAfter, CanonicalSigned, Ids, Represents, KeepsEnd, Room;
    NewKinds(start, gamma0);
    var rest := WithItems(l, negative, multiset{});
    FewerEnterable(l, start, rest);
    var first := SomeRun(start, gamma0, rest);
    few := Phase(start, gamma0, first, l, negative, true);
    many := Phase(start, gamma0, first, l, negative, false);
    BroughtState(start, gamma0, few, l);
    BroughtState(start, gamma0, many, l);
    var p, q := StateAfter(start, few), StateAfter(start, many);
    SizesByRoom(l, p, gamma0, negative);
    SizesByRoom(l, p, gamma0, !negative);
    SizesByRoom(l, q, gamma0, !negative);
  }

  /**
   The counter of a low or high signed sketch does not depend on the order of the insertions if and only if
   neither side has more than one id too many for the room that the other leaves it.
   */
  lemma SignedCountOrderIndependent(kind: StoreType, alpha: real, minValue: real, maxSize: int, dblMin: real,
                                    dblMax: real, ops: seq<Op>)
    requires 0.0 < alpha < 1.0 && SignedBound(kind, maxSize) && FoldsOneEnd(kind) && InsertOnly(ops)
    ensures var start := NewSigned(kind, alpha, minValue, maxSize, dblMin, dblMax);
            && HonestRunSigned(NO_ITEMS, start, ops) && CanRunSigned(start, ops)
            && var l := SignedLedgerAfter(NO_ITEMS, start, ops);
            && ((forall other | SameItemsSigned(start, ops, other) ::
                   NumCollapses(RunSigned(start, other)) == NumCollapses(RunSigned(start, ops)))
                <==>
                && !GivesUpTwo(l, GammaOf(alpha), kind, maxSize, true)
                && !GivesUpTwo(l, GammaOf(alpha), kind, maxSize, false))
  {
    hide New, EnterableSigned, NumCollapses, GivesUpTwo, CanonicalSigned, GammaOf;
    var start, gamma0 := NewSigned(kind, alpha, minValue, maxSize, dblMin, dblMax), GammaOf(alpha);
    NewIsCanonicalSigned(kind, alpha, minValue, maxSize, dblMin, dblMax);
    NewIsNew(start, gamma0);
    var k := RunKeepsCanonicalSigned(NO_ITEMS, start, start, gamma0, 0, ops);
    var l := SignedLedgerAfter(NO_ITEMS, start, ops);
    RunStaysEnterableSigned(NO_ITEMS, start, ops);
    hide HonestRunSigned, SignedLedgerAfter, RunSigned, CanRunSigned;
    assert Brings(start, ops, l);
    if negative :| GivesUpTwo(l, gamma0, kind, maxSize, negative) {
      var few, many := TwoCounts(start, gamma0, l, negative);
      assert SameItemsSigned(start, ops, few) && SameItemsSigned(start, ops, many);
    } else {
      forall other | SameItemsSigned(start, ops, other)
        ensures NumCollapses(RunSigned(start, other)) == NumCollapses(RunSigned(start, ops))
      {
        OneCount(start, gamma0, l, ops, other);
      }
    }
  }

  lemma NewIsNew(start: SignedState, gamma0: real)
    requires gamma0 > 1.0 && CanonicalSigned(NO_ITEMS, start, gamma0, 0) && FoldsOneEnd(start.kind)
    ensures New(start, gamma0) && EnterableSigned(NO_ITEMS, start) && start.minAddressable > 0.0
  {
  }

  lemma OneCount(start: SignedState, gamma0: real, l: SignedLedger, ops: seq<Op>, other: seq<Op>)
    requires New(start, gamma0) && gamma0 > 1.0 && Brings(start, ops, l) && Brings(start, other, l)
    requires !GivesUpTwo(l, gamma0, start.kind, start.maxSize, true)
    requires !GivesUpTwo(l, gamma0, start.kind, start.maxSize, false)
    ensures NumCollapses(StateAfter(start, ops)) == NumCollapses(StateAfter(start, other))
  {
    hide New, Brings, StateAfter, CanonicalSigned, Ids, Room, Represents, NumCollapses, KeepsEnd;
    NewKinds(start, gamma0);
    BroughtState(start, gamma0, ops, l);
    BroughtState(start, gamma0, other, l);
    var p, q := StateAfter(start, ops), StateAfter(start, other);
    SizesByRoom(l, p, gamma0, true);
    SizesByRoom(l, p, gamma0, false);
    CanonicalIsUniqueSigned(l, p, q, gamma0, 0, 0);
    assert AlmostAllKept(l, p);
  }
}
