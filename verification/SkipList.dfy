/** The skip list: a sorted list with towers of forward links, for any choice of tower heights. */
module SkipList {
  import opened Dictionary

  const MAX_LINK := 32

  // ---------- levels ----------

  type Heights = seq<int>

  /** The first place after i whose tower reaches above level k, or the end. Place -1 is the head. */
  function Next(h: Heights, i: int, k: int): (j: int)
    requires -1 <= i < |h|
    ensures i < j <= |h| && (j < |h| ==> h[j] > k)
    ensures forall m | i < m < j :: h[m] <= k
    decreases |h| - i
  {
    if i + 1 == |h| || h[i + 1] > k then i + 1 else Next(h, i + 1, k)
  }

  /** A level goes at least as far in one step as the one below. */
  lemma NextMonotone(h: Heights, i: int, k: int, m: int)
    requires -1 <= i < |h| && k <= m
    ensures Next(h, i, k) <= Next(h, i, m)
  {
  }

  /** The places that following the links of level k from place i visits. */
  function Level(h: Heights, i: int, k: int): (s: seq<int>)
    requires -1 <= i < |h|
    ensures forall m | 0 <= m < |s| :: i < s[m] < |h|
    decreases |h| - i
  {
    var j := Next(h, i, k);
    if j == |h| then [] else [j] + Level(h, j, k)
  }

  /** A walk along level k visits, in order, exactly the towers that reach above k. */
  lemma {:induction false} LevelHolds(h: Heights, i: int, k: int)
    requires -1 <= i < |h|
    ensures forall m, n | 0 <= m < n < |Level(h, i, k)| :: Level(h, i, k)[m] < Level(h, i, k)[n]
    ensures forall j :: j in Level(h, i, k) <==> i < j < |h| && h[j] > k
    decreases |h| - i
  {
    hide Next;
    var j := Next(h, i, k);
    if j < |h| {
      LevelHolds(h, j, k);
    }
  }

  /** s can be got from t by leaving entries out. */
  ghost predicate Sublist(s: seq<int>, t: seq<int>) {
    if s == [] then true
    else t != [] && if s[0] == t[0] then Sublist(s[1..], t[1..]) else Sublist(s, t[1..])
  }

  /** Each level is a sublist of every level below it. */
  lemma {:induction false} LevelsNest(h: Heights, i: int, k: int, m: int)
    requires -1 <= i < |h| && k <= m
    ensures Sublist(Level(h, i, m), Level(h, i, k))
    decreases |h| - i
  {
    hide Next;
    var j := Next(h, i, k);
    NextMonotone(h, i, k, m);
    if j < |h| {
      LevelsNest(h, j, k, m);
      assert Level(h, i, k)[1..] == Level(h, j, k);
      if h[j] > m {
        NextIs(h, i, m, j);
        assert Level(h, i, m)[1..] == Level(h, j, m);
      } else {
        NextFurther(h, i, j, m);
        assert Level(h, i, m) == Level(h, j, m);
      }
    }
  }

  /** A tower that does not reach above level m does not matter to that level. */
  lemma NextFurther(h: Heights, i: int, j: int, m: int)
    requires -1 <= i < j < |h| && forall n | i < n <= j :: h[n] <= m
    ensures Next(h, i, m) == Next(h, j, m)
  {
    hide Next;
    NextIs(h, i, m, Next(h, j, m));
  }

  /** Places in the same gap of a level have the same next place. */
  lemma NextSame(h: Heights, i: int, j: int, k: int)
    requires -1 <= i < |h| && i <= j < Next(h, i, k) && j < |h|
    ensures Next(h, j, k) == Next(h, i, k)
  {
  }

  /** The last place before p whose tower reaches above level k, or the head. */
  function Prev(h: Heights, p: int, k: int): (i: int)
    requires 0 <= p <= |h|
    ensures -1 <= i < p && (i >= 0 ==> h[i] > k)
    ensures forall m | i < m < p :: h[m] <= k
    decreases p
  {
    if p == 0 || h[p - 1] > k then p - 1 else Prev(h, p - 1, k)
  }

  /** Prev and Next are two views of the same gap. */
  lemma PrevIsGap(h: Heights, p: int, i: int, k: int)
    requires -1 <= i < p <= |h| && (i >= 0 ==> h[i] > k)
    ensures i == Prev(h, p, k) <==> p <= Next(h, i, k)
  {
  }

  function WithTower(h: Heights, p: int, height: int): Heights
    requires 0 <= p <= |h|
  {
    Inserted(h, p, height)
  }

  /** A place after one more tower stands at p. */
  function Shifted(i: int, p: int): int {
    if i < p then i else i + 1
  }

  /** What a new tower at p does to the levels. */
  lemma {:induction false} NextAfterInsert(h: Heights, p: int, height: int, i: int, k: int)
    requires 0 <= p <= |h| && -1 <= i < |h|
    ensures Next(WithTower(h, p, height), Shifted(i, p), k) ==
            if i < p <= Next(h, i, k) && height > k then p else Shifted(Next(h, i, k), p)
  {
    hide Next;
    NextIs(WithTower(h, p, height), Shifted(i, p), k,
           if i < p <= Next(h, i, k) && height > k then p else Shifted(Next(h, i, k), p));
  }

  /** What Next promises determines it. */
  lemma NextIs(h: Heights, i: int, k: int, j: int)
    requires -1 <= i < j <= |h| && (j < |h| ==> h[j] > k)
    requires forall m | i < m < j :: h[m] <= k
    ensures Next(h, i, k) == j
  {
  }

  lemma NextFromInserted(h: Heights, p: int, height: int, i: int, k: int)
    requires -1 <= i < p <= |h| && p <= Next(h, i, k)
    ensures Next(WithTower(h, p, height), p, k) == Next(h, i, k) + 1
  {
    hide Next;
    NextIs(WithTower(h, p, height), p, k, Next(h, i, k) + 1);
  }

  /** top_link: the height of the tallest tower, 0 for none. */
  ghost predicate Tallest(h: Heights, top: int) {
    && top >= 0 && (forall i | 0 <= i < |h| :: h[i] <= top)
    && (top > 0 ==> exists i :: 0 <= i < |h| && h[i] == top)
  }

  // ---------- the heap ----------

  class SkipNode {
    var key: int
    var datum: int
    var prev: SkipNode?
    var link: seq<SkipNode?>

    /** node_new. */
    constructor (key: int, linkCount: int)
      requires linkCount >= 1
      ensures this.key == key && datum == 0 && prev == null
      ensures |link| == linkCount && forall k | 0 <= k < linkCount :: link[k] == null
    {
      this.key, datum, prev := key, 0, null;
      link := seq(linkCount, _ => null);
    }
  }

  ghost function At(s: seq<SkipNode>, i: int): SkipNode? {
    if 0 <= i < |s| then s[i] else null
  }

  ghost function Tower(head: SkipNode, s: seq<SkipNode>, i: int): SkipNode
    requires -1 <= i < |s|
  {
    if i < 0 then head else s[i]
  }

  ghost function Nodes(head: SkipNode, s: seq<SkipNode>): set<SkipNode> {
    {head} + set x | x in s
  }

  ghost predicate Apart(head: SkipNode, s: seq<SkipNode>) {
    head !in s && forall i, j | 0 <= i < j < |s| :: s[i] != s[j]
  }

  lemma TowersApart(head: SkipNode, s: seq<SkipNode>, i: int, j: int)
    requires Apart(head, s) && -1 <= i < |s| && -1 <= j < |s|
    ensures Tower(head, s, i) == Tower(head, s, j) <==> i == j
  {
  }

  ghost predicate Towers(head: SkipNode, s: seq<SkipNode>, h: Heights, max: int)
    reads Nodes(head, s)`link
  {
    && |head.link| == max && |h| == |s|
    && forall i | 0 <= i < |s| :: |s[i].link| == h[i] && 1 <= h[i] < max
  }

  /** Every link of level k leads to the next tower that reaches above k. */
  ghost predicate Linked(head: SkipNode, s: seq<SkipNode>, h: Heights)
    requires |h| == |s|
    reads Nodes(head, s)`link
  {
    forall i, k | -1 <= i < |s| && 0 <= k < |Tower(head, s, i).link| ::
      Tower(head, s, i).link[k] == At(s, Next(h, i, k))
  }

  ghost predicate Backward(s: seq<SkipNode>)
    reads (set x | x in s)`prev
  {
    forall i | 0 <= i < |s| :: s[i].prev == At(s, i - 1)
  }

  ghost function EntriesOf(s: seq<SkipNode>): (e: Entries)
    reads (set x | x in s)`key, (set x | x in s)`datum
    ensures |e| == |s| && forall i | 0 <= i < |s| :: e[i] == (s[i].key, s[i].datum)
  {
    if s == [] then [] else EntriesOf(s[..|s| - 1]) + [(s[|s| - 1].key, s[|s| - 1].datum)]
  }

  /** The node noted for level k is the one before place p there. */
  ghost predicate Noted(update: seq<SkipNode?>, head: SkipNode, s: seq<SkipNode>, h: Heights, k: int, p: int)
    requires |h| == |s| && 0 <= p <= |s|
  {
    0 <= k < |update| && update[k] == Tower(head, s, Prev(h, p, k))
  }

  /** The links of a tower being put in: below level k the new node is linked, above it not yet. */
  ghost predicate HalfLinked(head: SkipNode, s: seq<SkipNode>, h: Heights, x: SkipNode, k: int, p: int)
    requires |h| == |s| && 0 <= p <= |s|
    reads Nodes(head, s)`link, x`link
  {
    && (forall i, m | -1 <= i < |s| && 0 <= m < |Tower(head, s, i).link| ::
          Tower(head, s, i).link[m] == if m < k && i == Prev(h, p, m) then x else At(s, Next(h, i, m)))
    && (forall m | 0 <= m < k && m < |x.link| :: x.link[m] == At(s, Next(h, Prev(h, p, m), m)))
  }

  /** The links of the tower at p being taken out: below level k the tower before it is linked past it. */
  ghost predicate HalfUnlinked(head: SkipNode, s: seq<SkipNode>, h: Heights, k: int, p: int)
    requires |h| == |s| && 0 <= p < |s|
    reads Nodes(head, s)`link
  {
    forall i, m | -1 <= i < |s| && 0 <= m < |Tower(head, s, i).link| ::
      Tower(head, s, i).link[m] ==
      if m < k && i == Prev(h, p, m) then At(s, Next(h, p, m)) else At(s, Next(h, i, m))
  }

  /** The node at place p is no longer linked to, although the order still shows it. */
  ghost predicate Unhung(head: SkipNode, max: int, s: seq<SkipNode>, h: Heights, p: int)
    reads Nodes(head, s)`link, (set y | y in s)`prev
  {
    && |h| == |s| && 0 <= p < |s| && Apart(head, s) && Towers(head, s, h, max) && max <= MAX_LINK
    && HalfUnlinked(head, s, h, h[p], p)
    && forall i | 0 <= i < |s| :: s[i].prev == if i == p + 1 then At(s, p - 1) else At(s, i - 1)
  }

  /** Node x is linked in before place p, although the order does not show it yet. */
  ghost predicate Hung(head: SkipNode, max: int, s: seq<SkipNode>, h: Heights, x: SkipNode, p: int)
    reads Nodes(head, s)`link, (set y | y in s)`prev, x`link, x`prev
  {
    && |h| == |s| && 0 <= p <= |s| && Apart(head, s) && x !in Nodes(head, s)
    && Towers(head, s, h, max) && 1 <= |x.link| < max <= MAX_LINK
    && HalfLinked(head, s, h, x, |x.link|, p)
    && x.prev == At(s, p - 1)
    && forall i | 0 <= i < |s| :: s[i].prev == if i == p then x else At(s, i - 1)
  }

  class SkipList {
    var head: SkipNode
    var maxLink: int
    var topLink: int
    var count: int
    ghost var order: seq<SkipNode>
    ghost var heights: Heights

    ghost predicate Valid()
      reads this, Nodes(head, order)
    {
      && |heights| == |order| && Apart(head, order)
      && Towers(head, order, heights, maxLink)
      && Linked(head, order, heights)
      && Backward(order)
      && Tallest(heights, topLink) && 0 <= topLink < maxLink <= MAX_LINK
      && count == |order|
      && Ascending(EntriesOf(order))
    }

    ghost function Contents(): Entries
      reads this, set x | x in order
    {
      EntriesOf(order)
    }

    /** skiplist_new. */
    constructor (max: int)
      requires max > 0
      ensures Valid() && Contents() == [] && fresh(Nodes(head, order))
      ensures maxLink == if max > MAX_LINK then MAX_LINK else max
    {
      maxLink := if max > MAX_LINK then MAX_LINK else max;
      head := new SkipNode(0, if max > MAX_LINK then MAX_LINK else max);
      topLink, count, order, heights := 0, 0, [], [];
    }

    /** A search has come to x, at place i, with all levels from k up done: ret is where it would go on at level k. */
    ghost predicate Searching(key: int, x: SkipNode, ret: SkipNode?, i: int, k: int)
      reads this, Nodes(head, order)
    {
      && Valid() && -1 <= i < |order| && x == Tower(head, order, i) && 0 <= k <= |x.link|
      && var p, j := Rank(Contents(), key), Next(heights, i, k);
      && i < p <= j && ret == At(order, j)
    }

    lemma SearchStart(key: int)
      requires Valid()
      ensures Searching(key, head, null, -1, topLink + 1)
    {
    }

    lemma StepRight(key: int, x: SkipNode, ret: SkipNode?, i: int, k: int)
      requires Searching(key, x, ret, i, k + 1) && 0 <= k && x.link[k] != null && x.link[k].key < key
      ensures var j := Next(heights, i, k);
              j < |order| && Searching(key, x.link[k], ret, j, k + 1)
    {
      var j := Next(heights, i, k);
      assert x.link[k] == At(order, j);
      BelowRank(order, key, j);
      NextSame(heights, i, j, k + 1);
    }

    /** At the end of a level the same x serves the level below. */
    lemma StepDown(key: int, x: SkipNode, ret: SkipNode?, i: int, k: int)
      requires Searching(key, x, ret, i, k + 1) && 0 <= k && (x.link[k] == null || key <= x.link[k].key)
      ensures Searching(key, x, if x.link[k] == null then ret else x.link[k], i, k)
    {
      var j := Next(heights, i, k);
      assert x.link[k] == At(order, j);
      NextMonotone(heights, i, k, k + 1);
      if j < |order| {
        BelowRank(order, key, j);
      }
    }

    /** Levels with the same link need no second comparison. */
    lemma SkipLevel(key: int, x: SkipNode, ret: SkipNode?, i: int, k: int)
      requires Searching(key, x, ret, i, k) && 0 < k && ret != null && x.link[k - 1] == ret
      ensures Searching(key, x, ret, i, k - 1)
    {
      var j := Next(heights, i, k - 1);
      assert x.link[k - 1] == At(order, j);
      NextMonotone(heights, i, k - 1, k);
    }

    lemma LinkTo(key: int, x: SkipNode, ret: SkipNode?, i: int, k: int)
      requires Searching(key, x, ret, i, k + 1) && 0 <= k
      ensures -1 <= i < |heights| == |order| && Ascending(Contents())
      ensures k < |x.link| && x.link[k] == At(order, Next(heights, i, k))
    {
      hide Towers, Backward, Ascending, Apart, Tallest, Rank, Next, EntriesOf;
    }

    /** A node of this key stands at the key's rank. */
    lemma KeyAt(key: int, j: int)
      requires Ascending(Contents()) && 0 <= j < |order| && order[j].key == key
      ensures Rank(Contents(), key) == j && Rank(Contents(), key + 1) == j + 1 && HasKey(Contents(), key)
    {
      RankOfKey(EntriesOf(order), j);
    }

    lemma KeyFound(key: int, x: SkipNode, ret: SkipNode?, i: int, k: int)
      requires Searching(key, x, ret, i, k + 1) && 0 <= k && x.link[k] != null && x.link[k].key == key
      ensures var p := Rank(Contents(), key);
              && 0 <= p < |order| && x.link[k] == order[p] && x.link[k] in Nodes(head, order) && HasKey(Contents(), key)
              && Rank(Contents(), key + 1) == p + 1
    {
      hide Linked, Towers, Backward, Apart, Tallest, Ascending, Rank, HasKey, Next, EntriesOf, Searching, Valid;
      LinkTo(key, x, ret, i, k);
      KeyAt(key, Next(heights, i, k));
    }

    lemma KeyMissing(key: int, x: SkipNode, ret: SkipNode?, i: int)
      requires Searching(key, x, ret, i, 0) && (ret != null ==> key < ret.key)
      ensures var p := Rank(Contents(), key);
              && i == p - 1 && -1 <= i < |order| && x == Tower(head, order, i)
              && ret == At(order, p) && !HasKey(Contents(), key)
              && Rank(Contents(), key + 1) == p
    {
      hide EntriesOf, Ascending, HasKey;
      NothingBetween(order, key, Rank(Contents(), key));
    }

    /** Along one level as far as the keys stay below the given one. */
    method Advance(key: int, x0: SkipNode, k: int, ghost ret: SkipNode?, ghost i0: int)
      returns (x: SkipNode, y: SkipNode?, ghost i: int)
      requires Searching(key, x0, ret, i0, k + 1) && 0 <= k
      ensures Searching(key, x, ret, i, k + 1) && k < |x.link|
      ensures y == x.link[k] && (y == null || key <= y.key)
    {
      hide Linked, Towers, Backward, Ascending, Apart, Tallest, Rank, Next, EntriesOf;
      x, i := x0, i0;
      y := x.link[k];
      while y != null && y.key < key
        invariant Searching(key, x, ret, i, k + 1) && k < |x.link| && y == x.link[k]
        decreases |order| - i
      {
        StepRight(key, x, ret, i, k);
        i := Next(heights, i, k);
        x := y;
        y := x.link[k];
      }
    }

    /** Down past the levels whose link leads to the node y just compared. */
    method SkipLevels(key: int, x: SkipNode, y: SkipNode, k0: int, ghost i: int) returns (k: int)
      requires Searching(key, x, y, i, k0)
      ensures 0 <= k <= k0 && Searching(key, x, y, i, k)
      ensures k == 0 || (k <= |x.link| && x.link[k - 1] != y)
    {
      hide Linked, Towers, Backward, Ascending, Apart, Tallest, Rank, HasKey, Next, EntriesOf;
      k := k0;
      while k > 0 && x.link[k - 1] == y
        invariant 0 <= k <= k0 && Searching(key, x, y, i, k)
      {
        SkipLevel(key, x, y, i, k);
        k := k - 1;
      }
    }

    /** The loop that node_search and its four near variants share. */
    method Find(key: int) returns (hit: SkipNode?, x: SkipNode, ret: SkipNode?)
      requires Valid()
      ensures var p := Rank(Contents(), key);
              && (hit != null ==> p < |order| && hit == order[p] && hit.key == key)
              && (hit == null ==> x == Tower(head, order, p - 1) && ret == At(order, p))
              && (hit != null <==> HasKey(Contents(), key))
              && Rank(Contents(), key + 1) == if hit != null then p + 1 else p
    {
      hide Linked, Towers, Backward, Ascending, Apart, Tallest, Rank, HasKey, Next, EntriesOf, Searching;
      x, ret, hit := head, null, null;
      var k := topLink + 1;
      ghost var i := -1;
      SearchStart(key);
      while k > 0
        invariant 0 <= k && Searching(key, x, ret, i, k) && (ret != null ==> key < ret.key)
        decreases k
      {
        k := k - 1;
        var y;
        x, y, i := Advance(key, x, k, ret, i);
        if y != null && y.key == key {
          KeyFound(key, x, ret, i, k);
          hit := y;
          return;
        }
        StepDown(key, x, ret, i, k);
        if y != null {
          ret := y;
          k := SkipLevels(key, x, y, k, i);
        }
      }
      KeyMissing(key, x, ret, i);
    }

    /** node_search. */
    method Search(key: int) returns (node: SkipNode?)
      requires Valid()
      ensures node != null <==> HasKey(Contents(), key)
      ensures node != null ==> node == At(order, Rank(Contents(), key)) && node.key == key
    {
      var x, ret;
      node, x, ret := Find(key);
    }

    /** node_search_le: the last node whose key is not above the given one. */
    method SearchLe(key: int) returns (node: SkipNode?)
      requires Valid()
      ensures node == At(order, Rank(Contents(), key + 1) - 1)
    {
      var hit, x, ret := Find(key);
      node := if hit != null then hit else if x == head then null else x;
    }

    /** node_search_lt: the last node whose key is below the given one. */
    method SearchLt(key: int) returns (node: SkipNode?)
      requires Valid()
      ensures node == At(order, Rank(Contents(), key) - 1)
    {
      var hit, x, ret := Find(key);
      node := if hit != null then hit.prev else if x == head then null else x;
    }

    /** node_search_ge: the first node whose key is not below the given one. */
    method SearchGe(key: int) returns (node: SkipNode?)
      requires Valid()
      ensures node == At(order, Rank(Contents(), key))
    {
      var hit, x, ret := Find(key);
      node := if hit != null then hit else ret;
    }

    /** node_search_gt: the first node whose key is above the given one. */
    method SearchGt(key: int) returns (node: SkipNode?)
      requires Valid()
      ensures node == At(order, Rank(Contents(), key + 1))
    {
      var hit, x, ret := Find(key);
      if hit != null {
        ghost var p := Rank(Contents(), key);
        assert Tower(head, order, p).link[0] == At(order, Next(heights, p, 0));
        node := hit.link[0];
      } else {
        node := ret;
      }
    }

    lemma NoteLevel(key: int, x: SkipNode, ret: SkipNode?, i: int, k: int)
      requires Searching(key, x, ret, i, k) && k < |x.link|
      ensures x == Tower(head, order, Prev(heights, Rank(Contents(), key), k))
    {
      PrevIsGap(heights, Rank(Contents(), key), i, k);
    }

    /** node_insert, up to the links: levels above the tallest tower start at the head. */
    method Raise(update: array<SkipNode?>, height: int, ghost p: int)
      requires Valid() && update.Length == MAX_LINK && 1 <= height < maxLink
      requires AllNoted(update[..], p)
      modifies this`topLink, update
      ensures forall k | 0 <= k < height :: Noted(update[..], head, order, heights, k, p)
      ensures topLink == if old(topLink) < height then height else old(topLink)
    {
      if topLink < height {
        var k := topLink + 1;
        while k <= height
          invariant topLink < k <= height + 1 && topLink == old(topLink)
          invariant forall m | 0 <= m < k :: Noted(update[..], head, order, heights, m, p)
          invariant forall m | k <= m < MAX_LINK :: update[m] == null
        {
          assert update[k] == null;
          HeadAbove(p, k);
          ghost var was := update[..];
          update[k] := head;
          forall m | 0 <= m <= k
            ensures Noted(update[..], head, order, heights, m, p)
          {
            assert m < k ==> Noted(was, head, order, heights, m, p);
          }
          k := k + 1;
        }
        topLink := height;
      }
    }

    lemma HeadAbove(p: int, k: int)
      requires 0 <= p <= |heights| && Tallest(heights, topLink) && topLink <= k
      ensures Prev(heights, p, k) == -1
    {
    }

    /** One round of node_insert's loop. */
    method LinkLevel(x: SkipNode, u: SkipNode, k: int, ghost p: int)
      requires |heights| == |order| && 0 <= p <= |order| && 0 <= k < |x.link|
      requires Apart(head, order) && x !in Nodes(head, order)
      requires HalfLinked(head, order, heights, x, k, p)
      requires u == Tower(head, order, Prev(heights, p, k)) && |u.link| > k
      modifies x`link, u`link
      ensures |x.link| == old(|x.link|) && |u.link| == old(|u.link|)
      ensures HalfLinked(head, order, heights, x, k + 1, p)
    {
      hide Next, Prev, Apart, At;
      ghost var i := Prev(heights, p, k);
      assert u.link[k] == At(order, Next(heights, i, k));
      x.link := x.link[k := u.link[k]];
      u.link := u.link[k := x];
      forall i', m | -1 <= i' < |order| && 0 <= m < |Tower(head, order, i').link|
        ensures Tower(head, order, i').link[m] ==
                if m < k + 1 && i' == Prev(heights, p, m) then x else At(order, Next(heights, i', m))
      {
        TowersApart(head, order, i, i');
        var y := Tower(head, order, i');
        assert y in Nodes(head, order) && y != x;
        assert i' != i || m != k ==> y.link[m] == old(y.link[m]);
      }
    }

    method LinkIn(x: SkipNode, update: array<SkipNode?>, ghost p: int)
      requires |heights| == |order| && 0 <= p <= |order| && update.Length == MAX_LINK && |x.link| < maxLink <= MAX_LINK
      requires Apart(head, order) && Towers(head, order, heights, maxLink) && x !in Nodes(head, order)
      requires HalfLinked(head, order, heights, x, 0, p)
      requires forall k | 0 <= k < |x.link| :: Noted(update[..], head, order, heights, k, p)
      modifies x`link, Nodes(head, order)`link
      ensures Towers(head, order, heights, maxLink) && |x.link| == old(|x.link|)
      ensures HalfLinked(head, order, heights, x, |x.link|, p)
    {
      hide Next, Prev, HalfLinked;
      var k := 0;
      while k < |x.link|
        invariant 0 <= k <= |x.link| == old(|x.link|)
        invariant Towers(head, order, heights, maxLink) && HalfLinked(head, order, heights, x, k, p)
        decreases |x.link| - k
      {
        assert Noted(update[..], head, order, heights, k, p);
        TowerReaches(k, p);
        LinkLevel(x, update[k], k, p);
        k := k + 1;
      }
    }

    /** node_insert's assertion on the links it relinks. */
    lemma TowerReaches(k: int, p: int)
      requires Towers(head, order, heights, maxLink) && 0 <= p <= |order| && 0 <= k < maxLink
      ensures var u := Tower(head, order, Prev(heights, p, k)); u in Nodes(head, order) && |u.link| > k
    {
    }

    /** The descent of skiplist_insert: the node with the key, or the nodes to relink on every level. */
    method Trace(key: int) returns (found: SkipNode?, update: array<SkipNode?>)
      requires Valid()
      ensures fresh(update) && update.Length == MAX_LINK && Valid()
      ensures found != null <==> HasKey(Contents(), key)
      ensures found != null ==> found in Nodes(head, order) && found.key == key
      ensures found == null ==> AllNoted(update[..], Rank(Contents(), key))
    {
      hide Linked, Towers, Backward, Ascending, Apart, Tallest, Rank, HasKey, Next, Prev, EntriesOf, Noted, AllNoted,
           NotedFrom, Nodes, Tower;
      ghost var p := Rank(Contents(), key);
      NodesAllocated(head, order);
      update := new SkipNode?[MAX_LINK](_ => null);
      var x: SkipNode := head;
      found := null;
      var k := topLink + 1;
      ghost var i, ret := -1, null;
      SearchStart(key);
      NoneNoted(update[..], p);
      while k > 0
        invariant 0 <= k && Searching(key, x, ret, i, k) && (ret != null ==> key < ret.key)
        invariant NotedFrom(update[..], p, k)
        decreases k
      {
        k := k - 1;
        var y;
        x, y, i := Advance(key, x, k, ret, i);
        if y != null && y.key == key {
          KeyFound(key, x, ret, i, k);
          found := y;
          return;
        }
        k, ret := NoteLevels(key, x, y, k, update, ret, i);
      }
      KeyMissing(key, x, ret, i);
      NotedAll(update[..], p);
    }

    /** The notes for the levels from k up are made, and there are none above the tallest tower. */
    ghost predicate NotedFrom(update: seq<SkipNode?>, p: int, k: int)
      reads this
    {
      && |update| == MAX_LINK && |heights| == |order| && 0 <= p <= |order| && topLink < MAX_LINK
      && (forall m | k <= m <= topLink && 0 <= m :: Noted(update, head, order, heights, m, p))
      && (forall m | topLink < m < MAX_LINK && 0 <= m :: update[m] == null)
    }

    ghost predicate AllNoted(update: seq<SkipNode?>, p: int)
      reads this
    {
      NotedFrom(update, p, 0)
    }

    lemma NoneNoted(update: seq<SkipNode?>, p: int)
      requires |heights| == |order| && 0 <= p <= |order| && 0 <= topLink < MAX_LINK
      requires |update| == MAX_LINK && forall m | 0 <= m < MAX_LINK :: update[m] == null
      ensures NotedFrom(update, p, topLink + 1)
    {
    }

    lemma NotedAll(update: seq<SkipNode?>, p: int)
      requires NotedFrom(update, p, 0)
      ensures AllNoted(update, p)
    {
    }

    /** At the end of a level: "while (k > 0 && x->link[k - 1] == y) update[k--] = x", then "update[k] = x". */
    method NoteLevels(key: int, x: SkipNode, y: SkipNode?, k0: int, update: array<SkipNode?>,
                      ghost ret0: SkipNode?, ghost i: int)
      returns (k: int, ghost ret: SkipNode?)
      requires Searching(key, x, ret0, i, k0 + 1) && 0 <= k0 <= topLink && k0 < |x.link| && y == x.link[k0]
      requires y == null || key <= y.key
      requires NotedFrom(update[..], Rank(Contents(), key), k0 + 1)
      modifies update
      ensures 0 <= k <= k0 && Searching(key, x, ret, i, k) && ret == (if y == null then ret0 else y)
      ensures NotedFrom(update[..], Rank(Contents(), key), k)
    {
      hide Searching, Valid, Tower, Rank, Next, Prev, EntriesOf, Noted, NotedFrom;
      ghost var p := Rank(Contents(), key);
      k, ret := k0, if y == null then ret0 else y;
      NodesAllocated(head, order);
      StepDown(key, x, ret0, i, k);
      if y != null {
        while k > 0 && x.link[k - 1] == y
          invariant 0 <= k <= k0 < |x.link| && Searching(key, x, ret, i, k)
          invariant NotedFrom(update[..], p, k + 1)
          decreases k
        {
          NoteLevel(key, x, ret, i, k);
          Note(update, x, k, p);
          SkipLevel(key, x, ret, i, k);
          k := k - 1;
        }
      }
      NoteLevel(key, x, ret, i, k);
      Note(update, x, k, p);
    }

    /** "update[k] = x". */
    method Note(update: array<SkipNode?>, x: SkipNode, k: int, ghost p: int)
      requires 0 <= k <= topLink && NotedFrom(update[..], p, k + 1)
      requires x == Tower(head, order, Prev(heights, p, k))
      modifies update
      ensures NotedFrom(update[..], p, k)
    {
      ghost var was := update[..];
      update[k] := x;
      forall m | k <= m <= topLink
        ensures Noted(update[..], head, order, heights, m, p)
      {
        assert m > k ==> Noted(was, head, order, heights, m, p);
      }
    }

    /** The backward links of node_insert. */
    method LinkBack(x: SkipNode, before: SkipNode, ghost p: int)
      requires Apart(head, order) && |heights| == |order| && 0 <= p <= |order| && x !in Nodes(head, order)
      requires Towers(head, order, heights, maxLink) && Linked(head, order, heights) && maxLink > 1
      requires before == Tower(head, order, p - 1) && Backward(order)
      modifies x`prev, Nodes(head, order)`prev
      ensures Towers(head, order, heights, maxLink) && HalfLinked(head, order, heights, x, 0, p)
      ensures x.prev == At(order, p - 1)
      ensures forall i | 0 <= i < |order| :: order[i].prev == if i == p then x else At(order, i - 1)
    {
      hide Linked, Towers;
      LevelZero(p - 1);
      StartLinking(x, p);
      x.prev := if before == head then null else before;
      if before.link[0] != null {
        before.link[0].prev := x;
      }
    }

    lemma StartLinking(x: SkipNode, p: int)
      requires |heights| == |order| && Linked(head, order, heights) && 0 <= p <= |order|
      ensures HalfLinked(head, order, heights, x, 0, p)
    {
    }

    lemma FirstNoted(p: int)
      requires Towers(head, order, heights, maxLink) && 0 <= p <= |order|
      ensures Prev(heights, p, 0) == p - 1
    {
    }

    /** node_insert. */
    method NodeInsert(x: SkipNode, update: array<SkipNode?>, ghost p: int)
      requires Valid() && 0 <= p <= |order| && update.Length == MAX_LINK && 1 <= |x.link| < maxLink
      requires x !in Nodes(head, order)
      requires AllNoted(update[..], p)
      modifies this`topLink, this`count, update, x`prev, x`link, Nodes(head, order)`prev, Nodes(head, order)`link
      ensures Hung(head, maxLink, order, heights, x, p) && |x.link| == old(|x.link|)
      ensures topLink == if old(topLink) < |x.link| then |x.link| else old(topLink)
      ensures count == old(count) + 1
    {
      hide Next, Prev, HalfLinked, EntriesOf, Tallest;
      FirstNoted(p);
      Raise(update, |x.link|, p);
      assert Noted(update[..], head, order, heights, 0, p);
      LinkBack(x, update[0], p);
      LinkIn(x, update, p);
      count := count + 1;
    }

    /** Once a tower is linked in, the list is valid again and holds one more entry. */
    lemma InsertValid(s: seq<SkipNode>, h: Heights, x: SkipNode, top: int, p: int)
      requires Hung(head, maxLink, s, h, x, p)
      requires Tallest(h, top) && topLink == (if top < |x.link| then |x.link| else top) && 0 <= topLink < maxLink
      requires Ascending(EntriesOf(s)) && p == Rank(EntriesOf(s), x.key) && !HasKey(EntriesOf(s), x.key)
      requires order == Inserted(s, p, x) && heights == WithTower(h, p, |x.link|) && count == |s| + 1
      ensures Valid() && Contents() == WithEntry(EntriesOf(s), x.key, x.datum)
    {
      hide Linked, Towers, Backward, Ascending, Apart, Tallest, Rank, HasKey, WithEntry, HalfLinked, EntriesOf;
      InsertedTowers(head, s, h, maxLink, x, p);
      InsertedLinks(head, s, h, maxLink, x, p);
      InsertedBack(s, x, p);
      InsertedTop(h, top, p, |x.link|);
      InsertedEntries(s, x, p);
    }

    /** The second half of skiplist_insert: a new node goes where the descent ended. */
    method PutIn(key: int, height: int, update: array<SkipNode?>) returns (node: SkipNode)
      requires Valid() && 1 <= height < maxLink && update.Length == MAX_LINK
      requires !HasKey(Contents(), key) && AllNoted(update[..], Rank(Contents(), key))
      modifies this, Nodes(head, order), update
      ensures Valid() && head == old(head) && maxLink == old(maxLink)
      ensures Contents() == WithEntry(old(Contents()), key, 0)
      ensures node in order && fresh(node) && node.key == key
      ensures forall x | x in order && x != node :: x in old(order)
    {
      hide Linked, Towers, Backward, Ascending, Apart, Tallest, Rank, HasKey, Next, Prev, WithEntry, HalfLinked,
           Inserted,
           WithTower, EntriesOf, Noted, AllNoted, Hung, Nodes, Tower;
      ghost var e, p := Contents(), Rank(Contents(), key);
      ghost var s, h := order, heights;
      NodesAllocated(head, order);
      node := new SkipNode(key, height);
      assert Valid() && node !in Nodes(head, order);
      NodeInsert(node, update, p);
      assert EntriesOf(s) == e;
      order, heights := Inserted(s, p, node), WithTower(h, p, height);
      InsertValid(s, h, node, old(topLink), p);
    }

    /** skiplist_insert; height is what rand_link_count drew. */
    method Insert(key: int, height: int) returns (node: SkipNode, inserted: bool)
      requires Valid() && 1 <= height < maxLink
      modifies this, Nodes(head, order)
      ensures Valid() && head == old(head) && maxLink == old(maxLink)
      ensures inserted <==> !HasKey(old(Contents()), key)
      ensures Contents() == if inserted then WithEntry(old(Contents()), key, 0) else old(Contents())
      ensures node in Nodes(head, order) && node.key == key
      ensures fresh(Nodes(head, order) - old(Nodes(head, order)))
    {
      hide Linked, Towers, Backward, Ascending, Apart, Tallest, Rank, HasKey, WithEntry, EntriesOf, Noted, AllNoted;
      NodesAllocated(head, order);
      var found, update := Trace(key);
      if found != null {
        return found, false;
      }
      node := PutIn(key, height, update);
      inserted := true;
    }

    // ---------- removal ----------

    /** Among the nodes a search would go on at, the key's node stays once it has been met. */
    lemma FoundStays(key: int, x: SkipNode, ret: SkipNode?, i: int, k: int)
      requires Searching(key, x, ret, i, k + 1) && 0 <= k && (x.link[k] == null || key <= x.link[k].key)
      ensures ret != null && ret.key == key ==> x.link[k] == ret
    {
      var j, m := Next(heights, i, k), Next(heights, i, k + 1);
      assert x.link[k] == At(order, j);
      NextMonotone(heights, i, k, k + 1);
      if ret != null && ret.key == key {
        RankOfKey(EntriesOf(order), m);
        if j < m {
          BelowRank(order, key, j);
        }
      }
    }

    /** Every tower stands on level 0. */
    lemma LevelZero(i: int)
      requires |heights| == |order| && Towers(head, order, heights, maxLink) && Linked(head, order, heights)
      requires -1 <= i < |order| && maxLink > 0
      ensures Next(heights, i, 0) == i + 1
      ensures var x := Tower(head, order, i); x.link != [] && x.link[0] == At(order, i + 1)
    {
      assert |Tower(head, order, i).link| > 0;
      assert Tower(head, order, i).link[0] == At(order, Next(heights, i, 0));
    }

    /** What the descent of a removal has found when it is done. */
    lemma TraceEnds(key: int, x: SkipNode, ret: SkipNode?, i: int)
      requires Searching(key, x, ret, i, 0)
      ensures var p := Rank(Contents(), key);
              && i == p - 1 && ret == At(order, p)
              && (HasKey(Contents(), key) <==> ret != null && ret.key == key)
              && (ret != null && ret.key == key ==> x.link != [] && x.link[0] == ret)
    {
      hide Rank, EntriesOf, Ascending, Backward, Tallest, Apart;
      var p := Rank(Contents(), key);
      LevelZero(i);
      if ret != null && ret.key == key {
        EntryAt(order, p);
      } else {
        if ret != null {
          BelowRank(order, key, p);
        }
        KeyMissing(key, x, ret, i);
      }
    }

    /** The descent of skiplist_remove: it does not stop at the key but notes what precedes it on every level. */
    method TraceAll(key: int) returns (found: bool, x: SkipNode, update: array<SkipNode?>)
      requires Valid()
      ensures fresh(update) && update.Length == MAX_LINK && Valid()
      ensures found <==> HasKey(Contents(), key)
      ensures AllNoted(update[..], Rank(Contents(), key))
      ensures found ==> x.link != [] && x.link[0] != null && x.link[0].key == key
      ensures found ==> x.link[0] == At(order, Rank(Contents(), key))
    {
      hide Linked, Towers, Backward, Ascending, Apart, Tallest, Rank, HasKey, Next, Prev, EntriesOf, Noted, AllNoted,
           NotedFrom, Nodes, Tower, Searching;
      ghost var p := Rank(Contents(), key);
      NodesAllocated(head, order);
      update := new SkipNode?[MAX_LINK](_ => null);
      x := head;
      found := false;
      var k := topLink + 1;
      ghost var i, ret := -1, null;
      SearchStart(key);
      NoneNoted(update[..], p);
      while k > 0
        invariant 0 <= k && Searching(key, x, ret, i, k)
        invariant found <==> ret != null && ret.key == key
        invariant NotedFrom(update[..], p, k)
        decreases k
      {
        k := k - 1;
        var y;
        x, y, i := Advance(key, x, k, ret, i);
        FoundStays(key, x, ret, i, k);
        if y != null && y.key == key {
          found := true;
        }
        k, ret := NoteLevels(key, x, y, k, update, ret, i);
      }
      TraceEnds(key, x, ret, i);
      NotedAll(update[..], p);
    }

    /** One round of the unlinking; its assertions hold. */
    method UnlinkLevel(x: SkipNode, u: SkipNode, k: int, ghost p: int)
      requires |heights| == |order| && 0 <= p < |order| && x == order[p] && 0 <= k < |x.link|
      requires Apart(head, order) && HalfUnlinked(head, order, heights, k, p)
      requires u == Tower(head, order, Prev(heights, p, k)) && |u.link| > k
      modifies u`link
      ensures |u.link| == old(|u.link|)
      ensures HalfUnlinked(head, order, heights, k + 1, p)
    {
      hide Next, Prev, Apart, At;
      ghost var i := Prev(heights, p, k);
      assert x.link[k] == Tower(head, order, p).link[k] == At(order, Next(heights, p, k));
      u.link := u.link[k := x.link[k]];
      forall i', m | -1 <= i' < |order| && 0 <= m < |Tower(head, order, i').link|
        ensures Tower(head, order, i').link[m] ==
                if m < k + 1 && i' == Prev(heights, p, m) then At(order, Next(heights, p, m))
                else At(order, Next(heights, i', m))
      {
        TowersApart(head, order, i, i');
        var y := Tower(head, order, i');
        assert i' != i || m != k ==> y.link[m] == old(y.link[m]);
      }
    }

    lemma LinkToGoing(x: SkipNode, u: SkipNode, k: int, p: int)
      requires |heights| == |order| && 0 <= p < |order| && x == order[p] && 0 <= k < maxLink
      requires Apart(head, order) && Towers(head, order, heights, maxLink) && HalfUnlinked(head, order, heights, k, p)
      requires u == Tower(head, order, Prev(heights, p, k))
      ensures |u.link| > k && (u.link[k] == x <==> k < |x.link|)
    {
      var i := Prev(heights, p, k);
      PrevIsGap(heights, p, i, k);
      assert u.link[k] == At(order, Next(heights, i, k));
    }

    /** The unlinking loop of skiplist_remove. */
    method Unlink(x: SkipNode, update: array<SkipNode?>, ghost p: int)
      requires Valid() && 0 <= p < |order| && x == order[p] && update.Length == MAX_LINK && AllNoted(update[..], p)
      modifies Nodes(head, order)`link
      ensures Towers(head, order, heights, maxLink) && HalfUnlinked(head, order, heights, |x.link|, p)
    {
      hide Next, Prev, HalfUnlinked, Ascending, EntriesOf, Linked, Backward;
      ghost var top := topLink;
      StartUnlinking(p);
      var k := 0;
      while k <= topLink
        invariant 0 <= k <= |x.link| <= topLink == top < maxLink
        invariant Towers(head, order, heights, maxLink) && HalfUnlinked(head, order, heights, k, p)
        decreases topLink - k
      {
        assert Noted(update[..], head, order, heights, k, p);
        TowerReaches(k, p);
        LinkToGoing(x, update[k], k, p);
        assert update[k] != null && |update[k].link| > k;
        if update[k].link[k] != x {
          break;
        }
        UnlinkLevel(x, update[k], k, p);
        k := k + 1;
      }
    }

    lemma StartUnlinking(p: int)
      requires Valid() && 0 <= p < |order|
      ensures HalfUnlinked(head, order, heights, 0, p)
    {
    }

    /** "x->prev->link[0] = x->link[0]": that link is there already. */
    method PassForward(x: SkipNode, ghost p: int)
      requires |heights| == |order| && 0 <= p < |order| && x == order[p] && x.prev == At(order, p - 1)
      requires Towers(head, order, heights, maxLink) && HalfUnlinked(head, order, heights, |x.link|, p)
      modifies Nodes(head, order)`link
      ensures forall y | y in Nodes(head, order) :: y.link == old(y.link)
      ensures Towers(head, order, heights, maxLink) && HalfUnlinked(head, order, heights, |x.link|, p)
    {
      if x.prev != null {
        FirstNoted(p);
        HeightAt(head, order, heights, maxLink, p);
        TowerReaches(0, p);
        UnlinkedAt(head, order, heights, |x.link|, p, p, 0);
        UnlinkedAt(head, order, heights, |x.link|, p, p - 1, 0);
        assert x.prev.link[0 := x.link[0]] == x.prev.link;
        x.prev.link := x.prev.link[0 := x.link[0]];
      }
    }

    /** "x->link[0]->prev = x->prev". */
    method PassBack(x: SkipNode, ghost p: int)
      requires |heights| == |order| && 0 <= p < |order| && x == order[p] && Apart(head, order) && maxLink <= MAX_LINK
      requires Towers(head, order, heights, maxLink) && Backward(order)
      requires HalfUnlinked(head, order, heights, |x.link|, p)
      modifies Nodes(head, order)`prev
      ensures Unhung(head, maxLink, order, heights, p)
    {
      hide HalfUnlinked, Towers, Next, Prev, Unhung;
      HeightAt(head, order, heights, maxLink, p);
      UnlinkedAt(head, order, heights, |x.link|, p, p, 0);
      NextTower(p);
      BackAt(order, p);
      if x.link[0] != null {
        x.link[0].prev := x.prev;
      }
      MakeUnhung(head, maxLink, order, heights, p);
    }

    lemma MakeUnhung(head: SkipNode, max: int, s: seq<SkipNode>, h: Heights, p: int)
      requires |h| == |s| && 0 <= p < |s| && Apart(head, s) && Towers(head, s, h, max) && max <= MAX_LINK
      requires HalfUnlinked(head, s, h, |s[p].link|, p)
      requires forall i | 0 <= i < |s| :: s[i].prev == if i == p + 1 then At(s, p - 1) else At(s, i - 1)
      ensures Unhung(head, max, s, h, p)
    {
    }

    lemma NextTower(p: int)
      requires Towers(head, order, heights, maxLink) && 0 <= p < |order|
      ensures Next(heights, p, 0) == p + 1 && Prev(heights, p, 0) == p - 1
    {
    }

    /** top_link falls to the tallest tower that is left. */
    method Trim()
      requires |heights| == |order| && 0 <= topLink < maxLink == |head.link| && Linked(head, order, heights)
      requires forall i | 0 <= i < |heights| :: heights[i] <= topLink
      modifies this`topLink
      ensures 0 <= topLink <= old(topLink) && Tallest(heights, topLink)
    {
      while topLink > 0 && head.link[topLink - 1] == null
        invariant 0 <= topLink <= old(topLink)
        invariant forall i | 0 <= i < |heights| :: heights[i] <= topLink
        decreases topLink
      {
        assert Tower(head, order, -1).link[topLink - 1] == At(order, Next(heights, -1, topLink - 1));
        topLink := topLink - 1;
      }
      if topLink > 0 {
        assert Tower(head, order, -1).link[topLink - 1] == At(order, Next(heights, -1, topLink - 1));
      }
    }

    /** All the relinking of skiplist_remove. */
    method Unhang(x: SkipNode, update: array<SkipNode?>, ghost p: int)
      requires Valid() && 0 <= p < |order| && x == order[p] && update.Length == MAX_LINK && AllNoted(update[..], p)
      modifies Nodes(head, order)`link, Nodes(head, order)`prev
      ensures Unhung(head, maxLink, order, heights, p)
    {
      hide Towers, Backward, Apart, Linked, Ascending, EntriesOf, HalfUnlinked, Unhung, AllNoted, Tallest;
      NodesAllocated(head, order);
      BackAt(order, p);
      HeightAt(head, order, heights, maxLink, p);
      Unlink(x, update, p);
      PassForward(x, p);
      PassBack(x, p);
    }

    /** Once a node is unlinked, the list without it is valid again but for the height of the tallest tower. */
    lemma RemoveKeeps(s: seq<SkipNode>, h: Heights, p: int)
      requires Unhung(head, maxLink, s, h, p) && Tallest(h, topLink) && Ascending(EntriesOf(s))
      requires order == Without(s, p) && heights == Without(h, p)
      ensures |heights| == |order| && Apart(head, order) && Towers(head, order, heights, maxLink)
      ensures Linked(head, order, heights) && Backward(order) && |head.link| == maxLink
      ensures Contents() == Without(EntriesOf(s), p) && Ascending(Contents())
      ensures forall i | 0 <= i < |heights| :: heights[i] <= topLink
    {
      hide EntriesOf, Without, Ascending, HalfUnlinked, Linked;
      RemovedTowers(head, maxLink, s, h, p);
      RemovedLinks(head, maxLink, s, h, p);
      RemovedBack(s, p);
      RemovedEntries(s, p);
      RemovedBound(h, topLink, p);
    }

    /** The second half of skiplist_remove: x, at place p, goes. */
    method TakeOut(x: SkipNode, update: array<SkipNode?>, ghost p: int)
      requires Valid() && 0 <= p < |order| && x == order[p] && update.Length == MAX_LINK && AllNoted(update[..], p)
      modifies this, Nodes(head, order)`link, Nodes(head, order)`prev
      ensures Valid() && head == old(head) && maxLink == old(maxLink)
      ensures order == old(Without(order, p)) && Contents() == Without(old(Contents()), p)
    {
      hide Towers, Backward, Apart, Linked, Ascending, EntriesOf, HalfUnlinked, Unhung, AllNoted, Without, Tallest,
           Nodes;
      ghost var s, h := order, heights;
      NodesAllocated(head, order);
      Unhang(x, update, p);
      order, heights := Without(s, p), Without(h, p);
      RemoveKeeps(s, h, p);
      NodesAllocated(head, order);
      Trim();
      count := count - 1;
    }

    /** skiplist_remove. */
    method Remove(key: int) returns (result: MaybeEntry)
      requires Valid()
      modifies this, Nodes(head, order)
      ensures Valid() && head == old(head) && maxLink == old(maxLink)
      ensures result == Removing(old(Contents()), key)
      ensures Contents() == Remaining(old(Contents()), key)
      ensures Nodes(head, order) <= old(Nodes(head, order))
    {
      hide Towers, Backward, Apart, Linked, Ascending, EntriesOf, AllNoted, Without, Tallest, Rank, HasKey,
           WithoutEntry;
      NodesAllocated(head, order);
      var found, x, update := TraceAll(key);
      RemovingAt(order, key);
      if !found {
        return NoEntry;
      }
      ghost var s, p := order, Rank(Contents(), key);
      x := x.link[0];
      result := Entry(x.key, x.datum);
      WithoutInside(s, p);
      TakeOut(x, update, p);
    }
  }

  function Without<T>(s: seq<T>, p: int): (u: seq<T>)
    requires 0 <= p < |s|
    ensures |u| == |s| - 1
    ensures forall i | 0 <= i < |u| :: u[i] == s[Shifted(i, p)]
  {
    s[..p] + s[p + 1..]
  }

  lemma PutBack<T>(s: seq<T>, p: int)
    requires 0 <= p < |s|
    ensures Inserted(Without(s, p), p, s[p]) == s
  {
    assert Without(s, p)[..p] == s[..p];
    assert Without(s, p)[p..] == s[p + 1..];
    assert s == s[..p] + [s[p]] + s[p + 1..];
  }

  lemma WithoutInside(s: seq<SkipNode>, p: int)
    requires 0 <= p < |s|
    ensures forall x | x in Without(s, p) :: x in s
  {
    forall x | x in Without(s, p)
      ensures x in s
    {
      var i :| 0 <= i < |Without(s, p)| && Without(s, p)[i] == x;
      assert s[Shifted(i, p)] == x;
    }
  }

  lemma HeightAt(head: SkipNode, s: seq<SkipNode>, h: Heights, max: int, p: int)
    requires Towers(head, s, h, max) && 0 <= p < |s|
    ensures |s[p].link| == h[p] && 1 <= h[p]
  {
  }

  lemma BackAt(s: seq<SkipNode>, p: int)
    requires Backward(s) && 0 <= p < |s|
    ensures s[p].prev == At(s, p - 1)
  {
  }

  lemma RemovedTowers(head: SkipNode, max: int, s: seq<SkipNode>, h: Heights, p: int)
    requires Unhung(head, max, s, h, p)
    ensures Apart(head, Without(s, p)) && Towers(head, Without(s, p), Without(h, p), max)
  {
    hide Without;
    var u := Without(s, p);
    WithoutInside(s, p);
  }

  /** Taking a tower out links every level as the remaining heights ask. */
  lemma RemovedLinks(head: SkipNode, max: int, s: seq<SkipNode>, h: Heights, p: int)
    requires Unhung(head, max, s, h, p)
    ensures Linked(head, Without(s, p), Without(h, p))
  {
    hide Next, Prev, Unhung, Without, HalfUnlinked, Inserted;
    UnhungParts(head, max, s, h, p);
    var u, w, x := Without(s, p), Without(h, p), s[p];
    PutBack(s, p);
    PutBack(h, p);
    forall i, k | -1 <= i < |u| && 0 <= k < |Tower(head, u, i).link|
      ensures Tower(head, u, i).link[k] == At(u, Next(w, i, k))
    {
      var i' := Shifted(i, p);
      assert Tower(head, u, i) == Tower(head, s, i');
      assert Tower(head, s, i').link[k] ==
             if k < h[p] && i' == Prev(h, p, k) then At(s, Next(h, p, k)) else At(s, Next(h, i', k)) by {
        UnlinkedAt(head, s, h, h[p], p, i', k);
      }
      LinkPast(u, w, x, h[p], p, i, k, i < 0 || w[i] > k);
    }
  }

  lemma UnhungParts(head: SkipNode, max: int, s: seq<SkipNode>, h: Heights, p: int)
    requires Unhung(head, max, s, h, p)
    ensures |h| == |s| && 0 <= p < |s| && HalfUnlinked(head, s, h, h[p], p) && Towers(head, s, h, max)
  {
  }

  lemma UnlinkedAt(head: SkipNode, s: seq<SkipNode>, h: Heights, n: int, p: int, i: int, k: int)
    requires |h| == |s| && 0 <= p < |s| && HalfUnlinked(head, s, h, n, p)
    requires -1 <= i < |s| && 0 <= k < |Tower(head, s, i).link|
    ensures Tower(head, s, i).link[k] ==
            if k < n && i == Prev(h, p, k) then At(s, Next(h, p, k)) else At(s, Next(h, i, k))
  {
  }

  /** Where a link leads once it is turned past the tower at p. */
  lemma LinkPast(u: seq<SkipNode>, w: Heights, x: SkipNode, height: int, p: int, i: int, k: int, reaches: bool)
    requires |u| == |w| && 0 <= p <= |w| && -1 <= i < |w| && reaches && (i >= 0 ==> w[i] > k)
    ensures var s, h, i' := Inserted(u, p, x), WithTower(w, p, height), Shifted(i, p);
            At(u, Next(w, i, k)) ==
            if k < height && i' == Prev(h, p, k) then At(s, Next(h, p, k)) else At(s, Next(h, i', k))
  {
    hide Next, Prev, Inserted;
    var s, h, n := Inserted(u, p, x), WithTower(w, p, height), Next(w, i, k);
    NextAfterInsert(w, p, height, i, k);
    ShiftedAt(u, p, x, n);
    if i < p {
      PrevIsGap(h, p, i, k);
      if p <= n {
        NextFromInserted(w, p, height, i, k);
      }
    }
  }

  lemma RemovedBack(s: seq<SkipNode>, p: int)
    requires 0 <= p < |s|
    requires forall i | 0 <= i < |s| :: s[i].prev == if i == p + 1 then At(s, p - 1) else At(s, i - 1)
    ensures Backward(Without(s, p))
  {
    hide Without;
    var u := Without(s, p);
    forall i | 0 <= i < |u|
      ensures u[i].prev == At(u, i - 1)
    {
      assert u[i] == s[Shifted(i, p)];
      if i > 0 {
        assert u[i - 1] == s[Shifted(i - 1, p)];
      }
    }
  }

  lemma Thinned(a: Entries, e: Entries, p: int)
    requires 0 <= p < |e| && |a| == |e| - 1
    requires forall i | 0 <= i < |a| :: a[i] == e[Shifted(i, p)]
    ensures a == Without(e, p) && (Ascending(e) ==> Ascending(a))
  {
    hide Without;
  }

  lemma RemovedEntries(s: seq<SkipNode>, p: int)
    requires 0 <= p < |s| && Ascending(EntriesOf(s))
    ensures EntriesOf(Without(s, p)) == Without(EntriesOf(s), p) && Ascending(EntriesOf(Without(s, p)))
  {
    hide Without, EntriesOf, Ascending;
    var u := Without(s, p);
    forall i | 0 <= i < |u|
      ensures EntriesOf(u)[i] == EntriesOf(s)[Shifted(i, p)]
    {
      assert u[i] == s[Shifted(i, p)];
    }
    Thinned(EntriesOf(u), EntriesOf(s), p);
  }

  lemma RemovedBound(h: Heights, top: int, p: int)
    requires 0 <= p < |h| && Tallest(h, top)
    ensures forall i | 0 <= i < |Without(h, p)| :: Without(h, p)[i] <= top
  {
  }

  /** What removing does to the entries, place by place. */
  lemma RemovingAt(s: seq<SkipNode>, key: int)
    requires Ascending(EntriesOf(s))
    ensures var e, p := EntriesOf(s), Rank(EntriesOf(s), key);
            && (HasKey(e, key) ==>
                  p < |s| && Removing(e, key) == Entry(key, s[p].datum) && Remaining(e, key) == Without(e, p))
            && (!HasKey(e, key) ==> Removing(e, key) == NoEntry && Remaining(e, key) == e)
  {
    var e := EntriesOf(s);
    if HasKey(e, key) {
      var i :| 0 <= i < |e| && e[i].0 == key;
      RankOfKey(e, i);
    } else if Rank(e, key) < |e| {
      assert e[Rank(e, key)].0 != key;
    }
  }

  function Inserted<T>(s: seq<T>, p: int, x: T): (u: seq<T>)
    requires 0 <= p <= |s|
    ensures |u| == |s| + 1 && u[p] == x
    ensures forall i | 0 <= i < p :: u[i] == s[i]
    ensures forall i | p < i < |u| :: u[i] == s[i - 1]
  {
    s[..p] + [x] + s[p..]
  }

  lemma InsertedTowers(head: SkipNode, s: seq<SkipNode>, h: Heights, max: int, x: SkipNode, p: int)
    requires 0 <= p <= |s| && Apart(head, s) && Towers(head, s, h, max) && x !in Nodes(head, s) && 1 <= |x.link| < max
    ensures var u := Inserted(s, p, x);
            Apart(head, u) && Towers(head, u, WithTower(h, p, |x.link|), max)
  {
    var u, w := Inserted(s, p, x), WithTower(h, p, |x.link|);
    forall i | 0 <= i < |u|
      ensures i == p ==> u[i] == x && w[i] == |x.link|
      ensures i < p ==> u[i] == s[i] && w[i] == h[i]
      ensures i > p ==> u[i] == s[i - 1] && w[i] == h[i - 1]
    {
    }
  }

  /** Putting a tower in links every level as the new heights ask. */
  lemma InsertedLinks(head: SkipNode, s: seq<SkipNode>, h: Heights, max: int, x: SkipNode, p: int)
    requires 0 <= p <= |s| && Towers(head, s, h, max) && 1 <= |x.link| < max
    requires HalfLinked(head, s, h, x, |x.link|, p)
    ensures Linked(head, Inserted(s, p, x), WithTower(h, p, |x.link|))
  {
    hide Next, Prev, HalfLinked;
    var u, w := Inserted(s, p, x), WithTower(h, p, |x.link|);
    forall i, k | -1 <= i < |u| && 0 <= k < |Tower(head, u, i).link|
      ensures Tower(head, u, i).link[k] == At(u, Next(w, i, k))
    {
      if i == p {
        NewTowerLink(head, s, h, x, p, k);
      } else {
        OldTowerLink(head, s, h, max, x, p, if i < p then i else i - 1, k);
      }
    }
  }

  lemma NewTowerLink(head: SkipNode, s: seq<SkipNode>, h: Heights, x: SkipNode, p: int, k: int)
    requires |h| == |s| && 0 <= p <= |s| && 0 <= k < |x.link| && HalfLinked(head, s, h, x, |x.link|, p)
    ensures x.link[k] == At(Inserted(s, p, x), Next(WithTower(h, p, |x.link|), p, k))
  {
    var i := Prev(h, p, k);
    PrevIsGap(h, p, i, k);
    NextFromInserted(h, p, |x.link|, i, k);
    ShiftedAt(s, p, x, Next(h, i, k));
  }

  lemma OldTowerLink(head: SkipNode, s: seq<SkipNode>, h: Heights, max: int, x: SkipNode, p: int, i: int, k: int)
    requires 0 <= p <= |s| && Towers(head, s, h, max) && HalfLinked(head, s, h, x, |x.link|, p)
    requires -1 <= i < |s| && 0 <= k < |Tower(head, s, i).link|
    ensures Tower(head, s, i).link[k] == At(Inserted(s, p, x), Next(WithTower(h, p, |x.link|), Shifted(i, p), k))
  {
    NextAfterInsert(h, p, |x.link|, i, k);
    if i < p {
      PrevIsGap(h, p, i, k);
    }
    ShiftedAt(s, p, x, Next(h, i, k));
  }

  lemma ShiftedAt(s: seq<SkipNode>, p: int, x: SkipNode, j: int)
    requires 0 <= p <= |s| && 0 <= j
    ensures At(Inserted(s, p, x), Shifted(j, p)) == At(s, j) && At(Inserted(s, p, x), p) == x
  {
  }

  lemma InsertedBack(s: seq<SkipNode>, x: SkipNode, p: int)
    requires 0 <= p <= |s| && x.prev == At(s, p - 1)
    requires forall i | 0 <= i < |s| :: s[i].prev == if i == p then x else At(s, i - 1)
    ensures Backward(Inserted(s, p, x))
  {
  }

  lemma InsertedTop(h: Heights, top: int, p: int, height: int)
    requires 0 <= p <= |h| && Tallest(h, top) && height >= 1
    ensures Tallest(WithTower(h, p, height), if top < height then height else top)
  {
    var w := WithTower(h, p, height);
    assert w[p] == height;
    if top >= height {
      var i :| 0 <= i < |h| && h[i] == top;
      assert w[Shifted(i, p)] == top;
    }
    forall i | 0 <= i < |w|
      ensures w[i] == height || w[i] <= top
    {
      assert i < p ==> w[i] == h[i];
      assert i > p ==> w[i] == h[i - 1];
    }
  }

  lemma Around(a: Entries, e: Entries, p: int, x: (int, int))
    requires 0 <= p <= |e| && |a| == |e| + 1 && a[p] == x
    requires forall i | 0 <= i < p :: a[i] == e[i]
    requires forall i | p < i < |a| :: a[i] == e[i - 1]
    ensures a == e[..p] + [x] + e[p..]
  {
  }

  lemma EntriesAround(s: seq<SkipNode>, x: SkipNode, p: int)
    requires 0 <= p <= |s|
    ensures EntriesOf(Inserted(s, p, x)) == EntriesOf(s)[..p] + [(x.key, x.datum)] + EntriesOf(s)[p..]
  {
    hide EntriesOf, Inserted;
    var u := Inserted(s, p, x);
    Around(EntriesOf(u), EntriesOf(s), p, (x.key, x.datum));
  }

  lemma InsertedEntries(s: seq<SkipNode>, x: SkipNode, p: int)
    requires Ascending(EntriesOf(s)) && p == Rank(EntriesOf(s), x.key) && !HasKey(EntriesOf(s), x.key)
    ensures EntriesOf(Inserted(s, p, x)) == WithEntry(EntriesOf(s), x.key, x.datum)
    ensures Ascending(EntriesOf(Inserted(s, p, x)))
  {
    hide EntriesOf, Ascending, HasKey, Rank;
    var e := EntriesOf(s);
    RankBounds(e, x.key);
    assert e == e[..p] + e[p..];
    EntryInserted(e[..p], e[p..], x.key, x.datum);
    EntriesAround(s, x, p);
  }

  lemma NodesAllocated(head: SkipNode, s: seq<SkipNode>)
    ensures forall x | x in Nodes(head, s) :: allocated(x)
  {
  }

  lemma NothingBetween(s: seq<SkipNode>, key: int, p: int)
    requires Ascending(EntriesOf(s)) && p == Rank(EntriesOf(s), key) && (p < |s| ==> key < s[p].key)
    ensures !HasKey(EntriesOf(s), key) && Rank(EntriesOf(s), key + 1) == p
  {
    var e := EntriesOf(s);
    forall i | 0 <= i < |e|
      ensures e[i].0 != key && (e[i].0 < key + 1 <==> i < p)
    {
      RankMeaning(e, key, i);
      if p < i {
        assert e[p].0 < e[i].0;
      }
    }
    assert e == e[..p] + e[p..];
    RankSplits(e, e[..p], e[p..], key + 1);
  }

  lemma EntryAt(s: seq<SkipNode>, i: int)
    requires 0 <= i < |s|
    ensures EntriesOf(s)[i] == (s[i].key, s[i].datum) && HasKey(EntriesOf(s), s[i].key)
  {
    assert EntriesOf(s)[i].0 == s[i].key;
  }

  lemma BelowRank(s: seq<SkipNode>, key: int, j: int)
    requires 0 <= j < |s| && Ascending(EntriesOf(s))
    ensures s[j].key < key <==> j < Rank(EntriesOf(s), key)
  {
    RankMeaning(EntriesOf(s), key, j);
  }
}
