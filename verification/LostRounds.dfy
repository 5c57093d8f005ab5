/**
 A run after which the collapse counter of a uniform signed sketch is too low: the items -2, -4, -8, -16 and
 -32 overflow a bound of 4, all five are removed, and then 4, 16, 64, 256 and 1024 overflow it again.
 */
module LostRounds {
  import opened Accuracy
  import opened BucketIdMapping
  import opened GSketch
  import opened Histogram
  import opened MapStore
  import opened OrderIndependence
  import opened PSketch
  import opened Powers
  import opened SignedAccuracy
  import opened SignedRounds
  import opened StoreRefinement
  import opened Survivors
  import Collections

  /** alpha is 1/3, so that gamma starts at 2; the bound is 4. */
  function Start(): SignedState {
    NewSigned(CollapsingAll, 1.0 / 3.0, 1.0, 4, 0.5, Pow(2.0, 10))
  }

  function Step(i: nat): Op {
    if i <= 5 then Op(-Pow(2.0, i), 1)
    else if i <= 10 then Op(-Pow(2.0, 11 - i), -1)
    else Op(Pow(2.0, 2 * (i - 10)), 1)
  }

  /** The first i operations: five insertions, five removals, five insertions. */
  function Script(i: nat): seq<Op> {
    if i == 0 then [] else Script(i - 1) + [Step(i)]
  }

  /** The powers of two with exponents d, 2d, ..., nd. */
  function Spaced(d: nat, n: nat): multiset<real> {
    if n == 0 then multiset{} else Spaced(d, n - 1) + multiset{Pow(2.0, d * n)}
  }

  function LedgerAt(i: nat): SignedLedger
    requires i <= 15
  {
    SignedLedger(
      Spaced(1, if i <= 5 then i else if i <= 10 then 10 - i else 0),
      multiset{},
      Spaced(2, if i <= 10 then 0 else i - 10))
  }

  lemma StartRange()
    ensures Start().gamma == GammaOf(1.0 / 3.0) == 2.0 && Start().minAddressable == 1.0
    ensures Start().maxAddressable >= Pow(2.0, 10)
    ensures forall j | 1 <= j <= 10 :: 1.0 < Pow(2.0, j) <= Pow(2.0, 10)
  {
    PowIncreasing(2.0, INT_MIN, 0);
    PowIncreasing(2.0, 10, INT_MAX);
    forall j | 1 <= j <= 10
      ensures 1.0 < Pow(2.0, j) <= Pow(2.0, 10)
    {
      PowIncreasing(2.0, 0, j);
      PowMonotone(2.0, j, 10);
    }
  }

  lemma IdOfPower(j: int)
    ensures BucketId(2.0, Pow(2.0, j)) == j
    ensures BucketId(4.0, Pow(2.0, j)) == CeilHalf(j)
  {
    hide BucketId;
    PowIncreasing(2.0, j - 1, j);
    BucketIdUnique(2.0, Pow(2.0, j), BucketId(2.0, Pow(2.0, j)), j);
    BucketIdOfSquare(2.0, Pow(2.0, j));
    assert 2.0 * 2.0 == 4.0;
  }

  lemma {:induction false} SpacedMembers(d: nat, n: nat, v: real)
    ensures v in Spaced(d, n) <==> exists j: nat :: 1 <= j <= n && v == Pow(2.0, d * j)
  {
    hide Pow;
    if n > 0 {
      SpacedMembers(d, n - 1, v);
    }
  }

  lemma FiveIds(d: nat, g: real)
    requires (d == 1 && g == 2.0) || (d == 2 && (g == 2.0 || g == 4.0))
    ensures |Ids(Spaced(d, 5), g)| >= 5
  {
    hide BucketId, Spaced, Pow;
    var step := if g == 2.0 then d else 1;
    var five := {step, 2 * step, 3 * step, 4 * step, 5 * step};
    forall j: nat | 1 <= j <= 5
      ensures step * j in Ids(Spaced(d, 5), g)
    {
      SpacedMembers(d, 5, Pow(2.0, d * j));
      IdOfPower(d * j);
      assert CeilHalf(2 * j) == j;
      assert Pow(2.0, d * j) in Spaced(d, 5);
    }
    assert five <= Ids(Spaced(d, 5), g) by {
      assert five == {step * 1, step * 2, step * 3, step * 4, step * 5};
    }
    Collections.Subset(five, Ids(Spaced(d, 5), g));
  }

  /** At gamma 4 the five negative items need at most three buckets. */
  lemma ThreeIds(n: nat)
    requires n <= 5
    ensures |Ids(Spaced(1, n), 4.0)| <= 3
  {
    hide BucketId, Spaced, Pow;
    forall i | i in Ids(Spaced(1, n), 4.0)
      ensures i in {1, 2, 3}
    {
      var v :| v in Spaced(1, n) && v > 0.0 && BucketId(4.0, v) == i;
      SpacedMembers(1, n, v);
      var j: nat :| 1 <= j <= n && v == Pow(2.0, 1 * j);
      IdOfPower(j);
    }
    Collections.Subset(Ids(Spaced(1, n), 4.0), {1, 2, 3});
  }

  /** What is known of the sketch after i operations. */
  ghost predicate Known(i: nat, g: SignedState, k: nat)
    requires i <= 15
  {
    && SignedTracks(LedgerAt(i), g, 2.0, k)
    && g.kind.CollapsingAll? && g.maxSize == 4
    && g.minAddressable == Start().minAddressable && g.maxAddressable == Start().maxAddressable
  }

  /** Within the range an operation on one sign changes the multiset of that sign. */
  lemma Enters(l: SignedLedger, v: real, c: int)
    requires 1.0 < v <= Pow(2.0, 10)
    ensures l.neg[v] + c >= 0 ==>
              && HonestSigned(l, Start(), Op(-v, c))
              && EnteredSigned(l, Start(), Op(-v, c)) == l.(neg := l.neg[v := l.neg[v] + c])
    ensures l.pos[v] + c >= 0 ==>
              && HonestSigned(l, Start(), Op(v, c))
              && EnteredSigned(l, Start(), Op(v, c)) == l.(pos := l.pos[v := l.pos[v] + c])
  {
    hide Start, Pow;
    StartRange();
  }

  lemma OneMore(d: nat, n: nat)
    ensures var v := Pow(2.0, d * (n + 1)); var m := Spaced(d, n + 1);
            m[v] >= 1 && m == Spaced(d, n)[v := Spaced(d, n)[v] + 1] && Spaced(d, n) == m[v := m[v] - 1]
  {
    hide Pow;
    var v, few := Pow(2.0, d * (n + 1)), Spaced(d, n);
    assert Spaced(d, n + 1) == few + multiset{v};
  }

  /** Each operation brings in or takes out the item that the next ledger says. */
  lemma StepEnters(i: nat)
    requires i < 15
    ensures HonestSigned(LedgerAt(i), Start(), Step(i + 1))
    ensures EnteredSigned(LedgerAt(i), Start(), Step(i + 1)) == LedgerAt(i + 1)
  {
    hide Start, Pow, HonestSigned, EnteredSigned, Spaced;
    StartRange();
    if i < 5 {
      OneMore(1, i);
      Enters(LedgerAt(i), Pow(2.0, i + 1), 1);
    } else if i < 10 {
      OneMore(1, 9 - i);
      Enters(LedgerAt(i), Pow(2.0, 10 - i), -1);
    } else {
      OneMore(2, i - 10);
      Enters(LedgerAt(i), Pow(2.0, 2 * (i - 9)), 1);
    }
  }

  /** While the negative items come and go gamma is 2 or 4. */
  lemma AtMostOneRound(i: nat, g: SignedState, k: nat)
    requires i < 10 && Known(i, g, k) && (g.gamma == 2.0 || g.gamma == 4.0)
    requires HonestSigned(LedgerAt(i), g, Step(i + 1)) && CanUpdateSigned(g, Step(i + 1))
    requires EnteredSigned(LedgerAt(i), g, Step(i + 1)) == LedgerAt(i + 1)
    ensures var h := UpdatedSigned(g, Step(i + 1)); h.gamma == 2.0 || h.gamma == 4.0
  {
    hide Represents, WellFormed, Placed, Step, EnteredSigned, HonestSigned, Ids, Squared, Start, Spaced;
    hide CollapsedIfAny, Span;
    var op := Step(i + 1);
    PlacedMirrors(LedgerAt(i), g, 2.0, k, op);
    PlacedConsistent(g, op);
    PlacedCounts(g, op, true);
    var h := Placed(g, op);
    if Overflows(g, op) {
      if h.gamma == 4.0 {
        FitsAtFour(i + 1, h);
      } else {
        FoldedBothFacts(h);
        FoldedBothMirrors(LedgerAt(i + 1), h, 2.0, k);
        FitsAtFour(i + 1, FoldedBoth(h));
        assert FittedAll(h) == FoldedBoth(h);
      }
    } else {
      QuietUpdate(g, op);
    }
  }

  lemma NoneSpaced(d: nat)
    ensures Spaced(d, 0) == multiset{}
  {
  }

  lemma FitsAtFour(i: nat, g: SignedState)
    requires i <= 10 && g.gamma == 4.0 && Mirrors(LedgerAt(i), g)
    requires g.neg.kind.CollapsingAll? && g.pos.kind.CollapsingAll?
    ensures Buckets2(g) <= 3
  {
    hide Represents, Spaced, Ids;
    BucketsAreIds(LedgerAt(i), g);
    ThreeIds(if i <= 5 then i else 10 - i);
    NoneSpaced(2);
    NoIds(4.0);
  }

  /** With gamma as it was before the first insertion of a sign, the fifth leaves too many buckets. */
  lemma FiveDoNotFit(i: nat, g: SignedState, k: nat)
    requires (i == 5 || i == 15) && Known(i, g, k)
    ensures g.gamma != 2.0 && (i == 15 ==> g.gamma != 4.0)
  {
    hide Represents, Spaced, Ids, Start;
    BucketsAreIds(LedgerAt(i), g);
    if g.gamma == 2.0 {
      FiveIds(if i == 5 then 1 else 2, 2.0);
    } else if i == 15 && g.gamma == 4.0 {
      FiveIds(2, 4.0);
    }
  }

  ghost predicate AtTwoOrFour(g: SignedState) {
    g.gamma == 2.0 || g.gamma == 4.0
  }

  ghost function StateAt(i: nat): SignedState {
    if CanRunSigned(Start(), Script(i)) then RunSigned(Start(), Script(i)) else Start()
  }

  ghost predicate Reached(i: nat, k: nat)
    requires i <= 15
  {
    && HonestRunSigned(NO_ITEMS, Start(), Script(i)) && CanRunSigned(Start(), Script(i))
    && SignedLedgerAfter(NO_ITEMS, Start(), Script(i)) == LedgerAt(i)
    && Known(i, StateAt(i), k)
  }

  /** Items of this sign have been there at every overflow so far. */
  ghost predicate Present(i: nat, negative: bool) {
    && HonestRunSigned(NO_ITEMS, Start(), Script(i)) && CanRunSigned(Start(), Script(i))
    && PresentAtOverflows(NO_ITEMS, Start(), Start(), Script(i), negative)
  }

  /** One operation more, whose overflow, if it is one, finds the items of the next ledger. */
  lemma StepReached(i: nat, k: nat) returns (j: nat)
    requires i < 15 && Reached(i, k)
    ensures Reached(i + 1, j)
    ensures HonestSigned(LedgerAt(i), StateAt(i), Step(i + 1)) && CanUpdateSigned(StateAt(i), Step(i + 1))
    ensures EnteredSigned(LedgerAt(i), StateAt(i), Step(i + 1)) == LedgerAt(i + 1)
    ensures StateAt(i + 1) == UpdatedSigned(StateAt(i), Step(i + 1))
    ensures forall negative :: Present(i + 1, negative) ==>
              && Present(i, negative)
              && (Overflows(StateAt(i), Step(i + 1)) ==> ItemsOf(LedgerAt(i + 1), negative) != multiset{})
  {
    hide SignedTracks, Start, Step, LedgerAt, HonestSigned, EnteredSigned, UpdatedSigned, Overflows, CanUpdateSigned;
    hide Pow, PresentAtOverflows, HonestRunSigned, CanRunSigned, SignedLedgerAfter, RunSigned, ItemsOf;
    StartRange();
    var g, l, op := StateAt(i), LedgerAt(i), Step(i + 1);
    StepEnters(i);
    SameHonest(l, Start(), g, op);
    j := SignedUpdateTracks(l, g, 2.0, k, op);
    SignedRunExtends(NO_ITEMS, Start(), Start(), Script(i), op);
    assert Script(i + 1) == Script(i) + [op];
  }

  /** No positive item is there for the first overflow and no negative one for the last. */
  ghost predicate Told(i: nat) {
    && (i <= 10 || Present(i, true) ==> AtTwoOrFour(StateAt(i)))
    && (Present(i, false) ==> i < 5 && StateAt(i).gamma == 2.0)
    && (i == 15 ==> !Present(i, true))
  }

  lemma StepTold(i: nat, k: nat) returns (j: nat)
    requires i < 15 && Reached(i, k) && Told(i)
    ensures Reached(i + 1, j) && Told(i + 1)
  {
    hide Known, Start, Step, LedgerAt, HonestSigned, EnteredSigned, UpdatedSigned, Overflows, CanUpdateSigned;
    hide Present, StateAt, ItemsOf, Reached;
    j := StepReached(i, k);
    var g, h, op := StateAt(i), StateAt(i + 1), Step(i + 1);
    KnownReached(i, k);
    KnownReached(i + 1, j);
    MissingSigns(i + 1);
    if i < 10 {
      AtMostOneRound(i, g, k);
    }
    if !Overflows(g, op) {
      QuietUpdate(g, op);
    }
    if i == 4 || i == 14 {
      FiveDoNotFit(i + 1, h, j);
    }
    assert Present(i + 1, false) ==> i < 4 && h.gamma == 2.0 by {
      if Present(i + 1, false) {
        assert Present(i, false) && ItemsOf(LedgerAt(i + 1), false) == multiset{};
      }
    }
    assert i >= 10 && Present(i + 1, true) ==> AtTwoOrFour(h) by {
      if i >= 10 && Present(i + 1, true) {
        assert Present(i, true) && ItemsOf(LedgerAt(i + 1), true) == multiset{};
      }
    }
  }

  lemma KnownReached(i: nat, k: nat)
    requires i <= 15 && Reached(i, k)
    ensures Known(i, StateAt(i), k) && StateAt(i).kind.CollapsingAll?
  {
  }

  lemma ScriptStarts()
    ensures Reached(0, 0) && Told(0)
  {
    hide SignedTracks, Pow, GammaOf, MinAddressable, MaxAddressable, Present;
    StartRange();
    NewSignedTracks(CollapsingAll, 1.0 / 3.0, 1.0, 4, 0.5, Pow(2.0, 10));
  }

  lemma {:induction false} ScriptRuns(i: nat) returns (k: nat)
    requires i <= 15
    ensures Reached(i, k) && Told(i)
  {
    hide Reached, Told;
    if i == 0 {
      ScriptStarts();
      k := 0;
    } else {
      k := ScriptRuns(i - 1);
      k := StepTold(i - 1, k);
    }
  }

  lemma MissingSigns(i: nat)
    requires i <= 15
    ensures i <= 10 ==> ItemsOf(LedgerAt(i), false) == multiset{}
    ensures i >= 10 ==> ItemsOf(LedgerAt(i), true) == multiset{}
  {
    NoneSpaced(1);
    NoneSpaced(2);
  }

  /** After this run the counter is below the number of times that gamma has been squared. */
  lemma CounterLosesRounds()
    ensures HonestRunSigned(NO_ITEMS, Start(), Script(15)) && CanRunSigned(Start(), Script(15))
    ensures NumCollapses(RunSigned(Start(), Script(15))) < RunRounds(Start(), Script(15))
  {
    hide Script, PresentAtOverflows, HonestRunSigned, CanRunSigned, RunSigned, NumCollapses, Pow, LedgerAt, Known;
    var k := ScriptRuns(15);
    CounterIsRounds(1.0 / 3.0, 1.0, 4, 0.5, Pow(2.0, 10), Script(15));
  }
}
