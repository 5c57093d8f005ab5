/**
 The surviving items of a stream, as a multiset of positive values, counted by bucket id.  These counts
 are what a store of buckets must equal.
 */
module Survivors {
  import opened BucketIdMapping
  import opened Collections
  import Powers

  /** How a store that has folded its low or high end sees an id. */
  datatype Clamp = Exact | LowAt(first: int) | HighAt(last: int)

  function Clamped(clamp: Clamp, id: int): int {
    match clamp
    case Exact => id
    case LowAt(first) => if id < first then first else id
    case HighAt(last) => if id > last then last else id
  }

  /** The bucket of v at resolution g as the store sees it. */
  function Seen(g: real, clamp: Clamp, v: real): int
    requires g > 1.0
  {
    if v > 0.0 then Clamped(clamp, BucketId(g, v)) else 0
  }

  lemma SomeItem(m: multiset<real>)
    requires m != multiset{}
    ensures exists v :: v in m
  {
    var v := InhabitedBag(m);
  }

  /** How many items the store sees in bucket b. */
  ghost function Cell(m: multiset<real>, g: real, clamp: Clamp, b: int): nat
    requires g > 1.0
    decreases |m|
  {
    if m == multiset{} then
      0
    else
      SomeItem(m);
      var v :| v in m;
      Cell(m - multiset{v}, g, clamp, b) + if Seen(g, clamp, v) == b then 1 else 0
  }

  /** How many items the store sees in bucket b or lower. */
  ghost function Upto(m: multiset<real>, g: real, clamp: Clamp, b: int): nat
    requires g > 1.0
    decreases |m|
  {
    if m == multiset{} then
      0
    else
      SomeItem(m);
      var v :| v in m;
      Upto(m - multiset{v}, g, clamp, b) + if Seen(g, clamp, v) <= b then 1 else 0
  }

  lemma SwapRemovals(m: multiset<real>, v: real, w: real)
    requires v in m && w in m && v != w
    ensures w in m - multiset{v} && v in m - multiset{w}
    ensures m - multiset{v} - multiset{w} == m - multiset{w} - multiset{v}
  {
  }

  /** The counts do not depend on the order in which items are taken out. */
  lemma {:induction false} CellWithout(m: multiset<real>, g: real, clamp: Clamp, b: int, v: real)
    requires g > 1.0 && v in m
    ensures Cell(m, g, clamp, b) == Cell(m - multiset{v}, g, clamp, b) + if Seen(g, clamp, v) == b then 1 else 0
    decreases |m|
  {
    var w :| w in m && Cell(m, g, clamp, b)
                       == Cell(m - multiset{w}, g, clamp, b) + if Seen(g, clamp, w) == b then 1 else 0;
    if v != w {
      SwapRemovals(m, v, w);
      CellWithout(m - multiset{w}, g, clamp, b, v);
      CellWithout(m - multiset{v}, g, clamp, b, w);
    }
  }

  lemma {:induction false} UptoWithout(m: multiset<real>, g: real, clamp: Clamp, b: int, v: real)
    requires g > 1.0 && v in m
    ensures Upto(m, g, clamp, b) == Upto(m - multiset{v}, g, clamp, b) + if Seen(g, clamp, v) <= b then 1 else 0
    decreases |m|
  {
    var w :| w in m && Upto(m, g, clamp, b)
                       == Upto(m - multiset{w}, g, clamp, b) + if Seen(g, clamp, w) <= b then 1 else 0;
    if v != w {
      SwapRemovals(m, v, w);
      UptoWithout(m - multiset{w}, g, clamp, b, v);
      UptoWithout(m - multiset{v}, g, clamp, b, w);
    }
  }

  /** c more copies of v. */
  function Bump(m: multiset<real>, v: real, c: nat): multiset<real> {
    m[v := m[v] + c]
  }

  /** c fewer copies of v. */
  function Drop(m: multiset<real>, v: real, c: nat): multiset<real>
    requires c <= m[v]
  {
    m[v := m[v] - c]
  }

  lemma {:induction false} CellBump(m: multiset<real>, g: real, clamp: Clamp, b: int, v: real, c: nat)
    requires g > 1.0
    ensures Cell(Bump(m, v, c), g, clamp, b) == Cell(m, g, clamp, b) + if Seen(g, clamp, v) == b then c else 0
  {
    if c == 0 {
      assert Bump(m, v, c) == m;
    } else {
      CellBump(m, g, clamp, b, v, c - 1);
      assert Bump(m, v, c) - multiset{v} == Bump(m, v, c - 1);
      CellWithout(Bump(m, v, c), g, clamp, b, v);
    }
  }

  lemma DropThenBump(m: multiset<real>, v: real, c: nat)
    requires c <= m[v]
    ensures Bump(Drop(m, v, c), v, c) == m
    ensures |Drop(m, v, c)| == |m| - c
  {
    assert Bump(Drop(m, v, c), v, c) == m;
  }

  lemma CellDrop(m: multiset<real>, g: real, clamp: Clamp, b: int, v: real, c: nat)
    requires g > 1.0 && c <= m[v]
    ensures Cell(m, g, clamp, b) == Cell(Drop(m, v, c), g, clamp, b) + if Seen(g, clamp, v) == b then c else 0
  {
    CellBump(Drop(m, v, c), g, clamp, b, v, c);
    DropThenBump(m, v, c);
  }

  lemma {:induction false} UptoStep(m: multiset<real>, g: real, clamp: Clamp, b: int)
    requires g > 1.0
    ensures Upto(m, g, clamp, b) == Upto(m, g, clamp, b - 1) + Cell(m, g, clamp, b)
    decreases |m|
  {
    if m != multiset{} {
      var v := InhabitedBag(m);
      UptoWithout(m, g, clamp, b, v);
      UptoWithout(m, g, clamp, b - 1, v);
      CellWithout(m, g, clamp, b, v);
      UptoStep(m - multiset{v}, g, clamp, b);
    }
  }

  ghost predicate AllPositive(m: multiset<real>) {
    forall v | v in m :: v > 0.0
  }

  /** Squaring gamma merges cells 2b - 1 and 2b into cell b. */
  lemma {:induction false} CellOfSquare(m: multiset<real>, g: real, b: int)
    requires g > 1.0 && AllPositive(m)
    ensures g * g > 1.0
    ensures Cell(m, g * g, Exact, b) == Cell(m, g, Exact, 2 * b - 1) + Cell(m, g, Exact, 2 * b)
    decreases |m|
  {
    Powers.SquareAboveOne(g);
    if m != multiset{} {
      var v := InhabitedBag(m);
      CellWithout(m, g * g, Exact, b, v);
      CellWithout(m, g, Exact, 2 * b - 1, v);
      CellWithout(m, g, Exact, 2 * b, v);
      CellOfSquare(m - multiset{v}, g, b);
      BucketIdOfSquare(g, v);
    }
  }

  lemma {:induction false} UptoClamped(m: multiset<real>, g: real, clamp: Clamp, b: int)
    requires g > 1.0 && AllPositive(m)
    ensures Upto(m, g, clamp, b) ==
            match clamp
            case Exact => Upto(m, g, Exact, b)
            case LowAt(first) => if b < first then 0 else Upto(m, g, Exact, b)
            case HighAt(last) => if b >= last then |m| else Upto(m, g, Exact, b)
    decreases |m|
  {
    if m != multiset{} {
      var v := InhabitedBag(m);
      UptoWithout(m, g, clamp, b, v);
      UptoWithout(m, g, Exact, b, v);
      UptoClamped(m - multiset{v}, g, clamp, b);
    }
  }

  lemma {:induction false} UptoAtMostAll(m: multiset<real>, g: real, clamp: Clamp, b: int)
    requires g > 1.0
    ensures Upto(m, g, clamp, b) <= |m|
    decreases |m|
  {
    if m != multiset{} {
      var v := InhabitedBag(m);
      UptoWithout(m, g, clamp, b, v);
      UptoAtMostAll(m - multiset{v}, g, clamp, b);
    }
  }

  /** All items are seen between these buckets. */
  lemma {:induction false} SeenRange(m: multiset<real>, g: real, clamp: Clamp) returns (lo: int, hi: int)
    requires g > 1.0
    ensures lo <= hi
    ensures forall v | v in m :: lo <= Seen(g, clamp, v) <= hi
    decreases |m|
  {
    if m == multiset{} {
      lo, hi := 0, 0;
    } else {
      var v := InhabitedBag(m);
      lo, hi := SeenRange(m - multiset{v}, g, clamp);
      var b := Seen(g, clamp, v);
      lo, hi := if b < lo then b else lo, if b > hi then b else hi;
      forall w | w in m
        ensures lo <= Seen(g, clamp, w) <= hi
      {
        assert w == v || w in m - multiset{v};
      }
    }
  }

  lemma {:induction false} UptoEnds(m: multiset<real>, g: real, clamp: Clamp, b: int)
    requires g > 1.0
    ensures (forall v | v in m :: b < Seen(g, clamp, v)) ==> Upto(m, g, clamp, b) == 0
    ensures (forall v | v in m :: Seen(g, clamp, v) <= b) ==> Upto(m, g, clamp, b) == |m|
    decreases |m|
  {
    if m != multiset{} {
      var v := InhabitedBag(m);
      UptoWithout(m, g, clamp, b, v);
      UptoEnds(m - multiset{v}, g, clamp, b);
    }
  }

  /** An occupied cell has an occupant, and an item occupies its cell as often as it survives. */
  lemma {:induction false} CellOccupied(m: multiset<real>, g: real, clamp: Clamp, b: int)
    requires g > 1.0
    ensures Cell(m, g, clamp, b) > 0 <==> exists v :: v in m && Seen(g, clamp, v) == b
    decreases |m|
  {
    if m != multiset{} {
      var v := InhabitedBag(m);
      CellWithout(m, g, clamp, b, v);
      CellOccupied(m - multiset{v}, g, clamp, b);
      if w :| w in m && Seen(g, clamp, w) == b {
        assert w == v || w in m - multiset{v};
      }
    }
  }

  ghost predicate Sorted(s: seq<real>) {
    forall i, j | 0 <= i < j < |s| :: s[i] <= s[j]
  }

  /**
   In any sorted listing of the items, the first Upto(b) entries are exactly those seen at or below
   bucket b: the link between cumulative bucket counts and ranks.
   */
  lemma {:induction false} RankBelow(s: seq<real>, g: real, clamp: Clamp, b: int, r: nat)
    requires g > 1.0 && Sorted(s) && r < |s| && forall i | 0 <= i < |s| :: s[i] > 0.0
    ensures r < Upto(multiset(s), g, clamp, b) <==> Seen(g, clamp, s[r]) <= b
    decreases |s|
  {
    hide Upto, Seen;
    var n := |s| - 1;
    var front, x := s[..n], s[n];
    FrontAndLast(s);
    UptoWithout(multiset(s), g, clamp, b, x);
    UptoAtMostAll(multiset(front), g, clamp, b);
    SeenMonotone(g, clamp, s[r], x);
    if Seen(g, clamp, x) <= b {
      AllBelow(front, g, clamp, b, x);
    } else if r < n {
      RankBelow(front, g, clamp, b, r);
    }
  }

  lemma FrontAndLast(s: seq<real>)
    requires s != []
    ensures var n := |s| - 1; multiset(s) - multiset{s[n]} == multiset(s[..n]) && s[n] in multiset(s)
    ensures |multiset(s[..|s| - 1])| == |s| - 1
  {
    var n := |s| - 1;
    assert s == s[..n] + [s[n]];
  }

  lemma SeenMonotone(g: real, clamp: Clamp, v: real, w: real)
    requires g > 1.0 && 0.0 < v <= w
    ensures Seen(g, clamp, v) <= Seen(g, clamp, w)
  {
    BucketIdMonotone(g, v, w);
  }

  lemma AllBelow(s: seq<real>, g: real, clamp: Clamp, b: int, x: real)
    requires g > 1.0 && x > 0.0 && Seen(g, clamp, x) <= b
    requires forall i | 0 <= i < |s| :: 0.0 < s[i] <= x
    ensures Upto(multiset(s), g, clamp, b) == |s|
  {
    forall v | v in multiset(s)
      ensures Seen(g, clamp, v) <= b
    {
      SeenMonotone(g, clamp, v, x);
    }
    UptoEnds(multiset(s), g, clamp, b);
  }
}
