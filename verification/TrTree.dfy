/**
 Treaps: search trees that are max-heaps on a priority, kept in the extra field.

 The priorities come from a function of the key, which is how a fixed sequence of random draws is modelled.
 When that function is injective on the keys there is exactly one treap with those keys (TreapIsUnique), so
 the form of the tree says nothing about the order of the operations that built it, and removing a key that
 was just inserted gives back the tree there was before (RemoveUndoesInsert).

 Insertion hangs a leaf and rotates it up while its parent has a smaller priority.  During that loop the tree
 is a treap but for one edge: the path above the focus is in heap order once the focus is left out, and both
 children of the node that rises are below the parent it is compared with.  SiftStep keeps this through one
 rotation and SiftDone reads off a treap where the loop stops.  Removal goes the other way: the node sinks
 below its child of greater priority until it has at most one child and can be spliced out, and everything
 around it stays in heap order although the sinking node itself is not (SinkStep).

 The rotations are those of tree_common and keep the entries in order; the loops are proved to end because
 the path above the rising node gets shorter, and the shape below the sinking node smaller, in every round.
 */
module TrTree {
  import opened Dictionary
  import opened TreeCommon
  import opened TreeRemoval

  type Priority = int -> int

  predicate Below(t: Shape, e: int) {
    t.Fork? ==> t.extra <= e
  }

  /** Every node carries the priority of its key, and no child beats its parent. */
  ghost predicate Treap(t: Shape, f: Priority) {
    t.Fork? ==>
      && t.extra == f(t.key)
      && Below(t.left, t.extra) && Below(t.right, t.extra)
      && Treap(t.left, f) && Treap(t.right, f)
  }

  // ---------- the one treap of a set of keys ----------

  function Keys(t: Shape): seq<int> {
    if t.Leaf? then [] else Keys(t.left) + [t.key] + Keys(t.right)
  }

  lemma {:induction false} KeysOfEntries(t: Shape, i: nat)
    ensures |Keys(t)| == |InOrder(t)|
    ensures i < |Keys(t)| ==> Keys(t)[i] == InOrder(t)[i].0
  {
    if t.Fork? {
      var n := |Keys(t.left)|;
      KeysOfEntries(t.left, i);
      KeysOfEntries(t.right, if i > n then i - n - 1 else 0);
    }
  }

  ghost predicate Sorted(s: seq<int>) {
    forall i, j | 0 <= i < j < |s| :: s[i] < s[j]
  }

  /** The same tree but for which node objects are where and what data they hold. */
  ghost predicate SameForm(t: Shape, u: Shape) {
    if t.Leaf? || u.Leaf? then t.Leaf? && u.Leaf?
    else t.key == u.key && t.extra == u.extra && SameForm(t.left, u.left) && SameForm(t.right, u.right)
  }

  /** The root carries the highest priority. */
  lemma {:induction false} RootIsTop(t: Shape, f: Priority, k: int)
    requires Treap(t, f) && t.Fork? && k in Keys(t)
    ensures f(k) <= f(t.key)
  {
    if k in Keys(t.left) {
      RootIsTop(t.left, f, k);
    } else if k in Keys(t.right) {
      RootIsTop(t.right, f, k);
    }
  }

  ghost predicate OneToOne(f: Priority, s: seq<int>) {
    forall i, j | 0 <= i < |s| && 0 <= j < |s| && f(s[i]) == f(s[j]) :: s[i] == s[j]
  }

  lemma SortedParts(a: seq<int>, k: int, b: seq<int>, f: Priority)
    requires Sorted(a + [k] + b) && OneToOne(f, a + [k] + b)
    ensures Sorted(a) && Sorted(b) && OneToOne(f, a) && OneToOne(f, b)
  {
    var s := a + [k] + b;
    assert forall i | 0 <= i < |a| :: s[i] == a[i];
    assert forall i | 0 <= i < |b| :: s[|a| + 1 + i] == b[i];
  }

  lemma SplitAt(a: seq<int>, b: seq<int>, c: seq<int>, d: seq<int>, k: int)
    requires a + [k] + b == c + [k] + d && Sorted(a + [k] + b)
    ensures a == c && b == d
  {
    var s := a + [k] + b;
    assert s[|a|] == k && (c + [k] + d)[|c|] == k;
    assert |a| == |c|;
    assert a == s[..|a|] == (c + [k] + d)[..|c|] == c;
    assert b == s[|a| + 1..] == (c + [k] + d)[|c| + 1..] == d;
  }

  /** When no two keys share a priority there is only one treap on them. */
  lemma {:induction false} TreapIsUnique(t: Shape, u: Shape, f: Priority)
    requires Treap(t, f) && Treap(u, f) && Keys(t) == Keys(u) && Sorted(Keys(t)) && OneToOne(f, Keys(t))
    ensures SameForm(t, u)
  {
    if t.Fork? {
      assert Keys(t)[|Keys(t.left)|] == t.key;
      assert Keys(u)[|Keys(u.left)|] == u.key;
      RootIsTop(t, f, u.key);
      RootIsTop(u, f, t.key);
      SplitAt(Keys(t.left), Keys(t.right), Keys(u.left), Keys(u.right), t.key);
      SortedParts(Keys(t.left), t.key, Keys(t.right), f);
      TreapIsUnique(t.left, u.left, f);
      TreapIsUnique(t.right, u.right, f);
    }
  }

  /** A removal that takes back an insertion restores the tree: data, keys, priorities and form. */
  lemma RemoveUndoesInsert(before: Shape, within: Shape, after: Shape, key: int, f: Priority)
    requires Treap(before, f) && Treap(after, f) && Ascending(InOrder(before)) && OneToOne(f, Keys(before))
    requires !HasKey(InOrder(before), key) && InOrder(within) == WithEntry(InOrder(before), key, 0)
    requires InOrder(after) == Remaining(InOrder(within), key)
    ensures InOrder(after) == InOrder(before) && SameForm(before, after)
  {
    hide InOrder, WithEntry, WithoutEntry, Treap, Keys, Rank;
    EraseUndoesInsert(InOrder(before), key, 0);
    EntryThere(InOrder(before), key, 0);
    forall i | 0 <= i < |Keys(before)|
      ensures |Keys(after)| == |Keys(before)| == |InOrder(before)|
      ensures Keys(before)[i] == Keys(after)[i] == InOrder(before)[i].0
    {
      KeysOfEntries(before, i);
      KeysOfEntries(after, i);
    }
    KeysOfEntries(before, 0);
    KeysOfEntries(after, 0);
    TreapIsUnique(before, after, f);
  }

  lemma EntryThere(s: Entries, k: int, d: int)
    requires Rank(WithEntry(s, k, d), k) < |WithEntry(s, k, d)| && Ascending(s) && !HasKey(s, k)
    ensures Removing(WithEntry(s, k, d), k) == Entry(k, d)
  {
    var a, b := s[..Rank(s, k)], s[Rank(s, k)..];
    RankBounds(s, k);
    assert s == a + b;
    EntryInserted(a, b, k, d);
    EntryErased(a, b, k, d);
  }

  // ---------- inserting ----------

  /** Everything beside and above the hole is a treap. */
  ghost predicate PathTreap(c: Path, f: Priority) {
    c.Top? ||
    var side := if c.InLeft? then c.right else c.left;
    && c.extra == f(c.key) && Treap(side, f) && Below(side, c.extra)
    && (c.up.Top? || c.extra <= c.up.extra) && PathTreap(c.up, f)
  }

  /** t may hang in the hole. */
  predicate Under(c: Path, t: Shape) {
    c.Top? || Below(t, c.extra)
  }

  lemma {:induction false} Unplug(c: Path, t: Shape, f: Priority)
    requires Treap(Plug(c, t), f)
    ensures Treap(t, f) && PathTreap(c, f) && Under(c, t)
    decreases c
  {
    if !c.Top? {
      Unplug(c.up, PlugOne(c, t), f);
    }
  }

  lemma {:induction false} Replug(c: Path, t: Shape, f: Priority)
    requires Treap(t, f) && PathTreap(c, f) && Under(c, t)
    ensures Treap(Plug(c, t), f)
    decreases c
  {
    if !c.Top? {
      Replug(c.up, PlugOne(c, t), f);
    }
  }

  /** A node that beats its parent, its own subtrees being in place. */
  ghost predicate Sifting(c: Path, t: Shape, f: Priority) {
    t.Fork? && Treap(t, f) && PathTreap(c, f) && Under(c, t.left) && Under(c, t.right)
  }

  /** One rotation of the insertion. */
  function Sifted(c: Path, t: Shape): Shape
    requires !c.Top? && t.Fork?
  {
    if c.InLeft? then RightRotation(PlugOne(c, t), c.extra, t.extra) else LeftRotation(PlugOne(c, t), c.extra, t.extra)
  }

  lemma SiftStep(c: Path, t: Shape, f: Priority)
    requires Sifting(c, t, f) && !c.Top? && c.extra < t.extra
    ensures Sifting(c.up, Sifted(c, t), f)
  {
  }

  lemma SiftKeeps(c: Path, t: Shape)
    requires !c.Top? && t.Fork?
    ensures InOrder(Sifted(c, t)) == InOrder(PlugOne(c, t)) && Nodes(Sifted(c, t)) == Nodes(PlugOne(c, t))
    ensures Sifted(c, t).Fork? && Sifted(c, t).node == t.node
  {
    var u := PlugOne(c, t);
    if c.InLeft? {
      RightRotationOrder(u, c.extra, t.extra);
    } else {
      LeftRotationOrder(u, c.extra, t.extra);
    }
  }

  /** The rotations of an insertion. */
  method SiftUp(tree: Tree, node: Node, ghost path: Path, ghost below: Shape, ghost f: Priority)
    returns (ghost t: Shape)
    requires Focused(tree, path, below, node) && Sifting(path, below, f)
    modifies tree`root
    modifies (PathNodes(path) + Nodes(below))`parent
    modifies (PathNodes(path) + Nodes(below))`llink, (PathNodes(path) + Nodes(below))`rlink
    ensures Focused(tree, Top, t, tree.root) && Treap(t, f)
    ensures InOrder(t) == Before(path) + InOrder(below) + After(path)
    ensures Nodes(t) == PathNodes(path) + Nodes(below)
  {
    hide Treap, PathTreap, Nodes, PathNodes, Before, After, InOrder, Focused, OwnerSet, Plug, Sifted, Sifting;
    ghost var c := path;
    t := below;
    SiftingFork(c, t, f);
    DescendLeft(tree, c, t, node);
    var parent := node.parent;
    while parent != null && parent.extra < node.extra
      invariant Focused(tree, c, t, node) && parent == Owner(c) && t.Fork? && node == t.node && node.extra == t.extra
      invariant Sifting(c, t, f)
      invariant Before(c) + InOrder(t) + After(c) == Before(path) + InOrder(below) + After(path)
      invariant PathNodes(c) + Nodes(t) == PathNodes(path) + Nodes(below)
      decreases c
    {
      StepUp(tree, c, t, node);
      PathNodesUp(c);
      UpSide(tree, c, t, node);
      SiftStep(c, t, f);
      SiftKeeps(c, t);
      if parent.llink == node {
        RotRight(tree, parent, c.up, PlugOne(c, t));
        SiftedIs(c, t);
      } else {
        RotLeft(tree, parent, c.up, PlugOne(c, t));
        SiftedIs(c, t);
      }
      c, t := c.up, Sifted(c, t);
      DescendLeft(tree, c, t, node);
      parent := node.parent;
    }
    if !c.Top? {
      StepUp(tree, c, t, node);
    }
    Rise(tree, c, t, node);
    SiftDone(c, t, f);
    PlugInOrder(c, t);
    PlugNodes(c, t);
    t := Plug(c, t);
  }

  lemma SiftedIs(c: Path, t: Shape)
    requires !c.Top? && t.Fork?
    ensures c.InLeft? ==> PlugOne(c, t).Fork? && PlugOne(c, t).left == t
                          && Sifted(c, t) == RightRotation(PlugOne(c, t), PlugOne(c, t).extra, t.extra)
    ensures c.InRight? ==> PlugOne(c, t).Fork? && PlugOne(c, t).right == t
                           && Sifted(c, t) == LeftRotation(PlugOne(c, t), PlugOne(c, t).extra, t.extra)
  {
  }

  lemma SiftingFork(c: Path, t: Shape, f: Priority)
    requires Sifting(c, t, f)
    ensures t.Fork?
  {
  }

  lemma SiftDone(c: Path, t: Shape, f: Priority)
    requires Sifting(c, t, f) && (c.Top? || t.extra <= c.extra)
    ensures Treap(Plug(c, t), f)
  {
    Replug(c, t, f);
  }

  lemma SiftStart(c: Path, n: Node, key: int, prio: int, f: Priority)
    requires Treap(Plug(c, Leaf), f) && prio == f(key)
    ensures Sifting(c, Single(n, key, 0, prio), f)
    ensures InOrder(Single(n, key, 0, prio)) == [(key, 0)] && Nodes(Single(n, key, 0, prio)) == {n}
  {
    Unplug(c, Leaf, f);
  }

  /** tr_tree_insert; prio is what the priority function, or the random generator, gave the key. */
  method Insert(tree: Tree, key: int, prio: int, ghost f: Priority) returns (node: Node, inserted: bool)
    requires Valid(tree) && Treap(tree.shape, f)
    requires !HasKey(Contents(tree), key) ==> prio == f(key)
    modifies tree, Nodes(tree.shape)
    ensures Valid(tree) && Treap(tree.shape, f)
    ensures inserted <==> !HasKey(old(Contents(tree)), key)
    ensures Contents(tree) == if inserted then WithEntry(old(Contents(tree)), key, 0) else old(Contents(tree))
    ensures node in Nodes(tree.shape) && node.key == key
    ensures fresh(Nodes(tree.shape) - old(Nodes(tree.shape)))
  {
    hide Treap, InOrder, Before, After, Nodes, PathNodes, Focused, Ascending, PathTreap, Sifting;
    ghost var shape := tree.shape;
    var found, parent, left, c, t := Locate(tree, key);
    PlugNodes(c, t);
    if found != null {
      LocatedEntry(c, t);
      ChildNodes(t);
      return found, false;
    }
    LeafInserted(shape, c, key);
    NoNodes();
    PathAllocated(c);
    OwnerInSet(c);
    node := new Node(key, prio);
    Attach(tree, parent, left, node, c);
    SiftStart(c, node, key, prio, f);
    t := SiftUp(tree, node, c, Single(node, key, 0, prio), f);
    InOrderSize(shape);
    Finish(tree, 1, t);
    inserted := true;
  }

  // ---------- removing ----------

  /** A node about to go: its subtrees are in place whether or not it is there. */
  ghost predicate Sinking(c: Path, t: Shape, f: Priority) {
    t.Fork? && Treap(t.left, f) && Treap(t.right, f) && PathTreap(c, f) && Under(c, t.left) && Under(c, t.right)
  }

  predicate SinksRight(t: Shape)
    requires t.Fork? && t.left.Fork? && t.right.Fork?
  {
    t.left.extra > t.right.extra
  }

  /** One rotation of the removal, seen from the sinking node. */
  function SunkPath(c: Path, t: Shape): Path
    requires t.Fork? && t.left.Fork? && t.right.Fork?
  {
    if SinksRight(t) then DownRight(c, RightRotation(t, t.extra, t.left.extra))
    else DownLeft(c, LeftRotation(t, t.extra, t.right.extra))
  }

  function Sunk(t: Shape): Shape
    requires t.Fork? && t.left.Fork? && t.right.Fork?
  {
    if SinksRight(t) then RightRotation(t, t.extra, t.left.extra).right
    else LeftRotation(t, t.extra, t.right.extra).left
  }

  lemma SinkStep(c: Path, t: Shape, f: Priority)
    requires Sinking(c, t, f) && t.left.Fork? && t.right.Fork?
    ensures Sinking(SunkPath(c, t), Sunk(t), f) && Size(Sunk(t)) < Size(t)
    ensures Sunk(t).Fork? && Sunk(t).node == t.node
  {
  }

  function Around(c: Path, t: Shape): Entries
    requires t.Fork?
  {
    Before(c) + InOrder(t.left) + InOrder(t.right) + After(c)
  }

  lemma SinkKeeps(c: Path, t: Shape)
    requires t.Fork? && t.left.Fork? && t.right.Fork?
    ensures Sunk(t).Fork? && Around(SunkPath(c, t), Sunk(t)) == Around(c, t)
  {
    if SinksRight(t) {
      RightAround(Before(c), t.left, InOrder(t.right), After(c));
    } else {
      LeftAround(Before(c), InOrder(t.left), t.right, After(c));
    }
  }

  lemma RightAround(p: Entries, l: Shape, r: Entries, q: Entries)
    requires l.Fork?
    ensures (p + InOrder(l.left) + [(l.key, l.datum)]) + InOrder(l.right) + r + q == p + InOrder(l) + r + q
  {
  }

  lemma LeftAround(p: Entries, l: Entries, r: Shape, q: Entries)
    requires r.Fork?
    ensures p + l + InOrder(r.left) + ([(r.key, r.datum)] + InOrder(r.right) + q) == p + l + InOrder(r) + q
  {
  }

  lemma SinkNodes(c: Path, t: Shape)
    requires t.Fork? && t.left.Fork? && t.right.Fork?
    ensures PathNodes(SunkPath(c, t)) + Nodes(Sunk(t)) == PathNodes(c) + Nodes(t)
  {
  }

  /** The rotations of a removal: the node sinks until it has at most one child. */
  method SinkDown(tree: Tree, node: Node, ghost path: Path, ghost at: Shape, ghost f: Priority)
    returns (ghost c: Path, ghost t: Shape)
    requires Focused(tree, path, at, node) && Sinking(path, at, f)
    modifies tree`root
    modifies (PathNodes(path) + Nodes(at))`parent
    modifies (PathNodes(path) + Nodes(at))`llink, (PathNodes(path) + Nodes(at))`rlink
    ensures Focused(tree, c, t, node) && Sinking(c, t, f) && t.Fork? && (t.left == Leaf || t.right == Leaf)
    ensures at.Fork? && Around(c, t) == Around(path, at)
    ensures PathNodes(c) + Nodes(t) == PathNodes(path) + Nodes(at)
  {
    hide Treap, PathTreap, Nodes, PathNodes, Focused, OwnerSet, Sunk, SunkPath, Around, SinksRight;
    c, t := path, at;
    SinkingLinks(tree, c, t, node);
    while node.llink != null && node.rlink != null
      invariant Focused(tree, c, t, node) && Sinking(c, t, f)
      invariant node.llink == Root(t.left) && node.rlink == Root(t.right)
      invariant Around(c, t) == Around(path, at)
      invariant PathNodes(c) + Nodes(t) == PathNodes(path) + Nodes(at)
      decreases Size(t)
    {
      SinkStep(c, t, f);
      SinkKeeps(c, t);
      SinkNodes(c, t);
      OwnerInSet(c);
      SinkOrder(tree, c, t, node);
      if node.llink.extra > node.rlink.extra {
        RotRight(tree, node, c, t);
        SunkRight(tree, c, t);
      } else {
        RotLeft(tree, node, c, t);
        SunkLeft(tree, c, t);
      }
      c, t := SunkPath(c, t), Sunk(t);
      SinkingLinks(tree, c, t, node);
    }
  }

  lemma SinkingLinks(tree: Tree, c: Path, t: Shape, x: Node)
    requires Focused(tree, c, t, x) && t.Fork?
    ensures x.llink == Root(t.left) && x.rlink == Root(t.right)
  {
    DescendLeft(tree, c, t, x);
  }

  lemma SinkOrder(tree: Tree, c: Path, t: Shape, x: Node)
    requires Focused(tree, c, t, x) && t.Fork? && t.left.Fork? && t.right.Fork?
    ensures x == t.node && x.llink != null && x.rlink != null
    ensures x.llink.extra > x.rlink.extra <==> SinksRight(t)
  {
    hide Focused;
    DescendLeft(tree, c, t, x);
    DescendRight(tree, c, t, x);
    DescendLeft(tree, DownLeft(c, t), t.left, x.llink);
    DescendLeft(tree, DownRight(c, t), t.right, x.rlink);
  }

  lemma SunkRight(tree: Tree, c: Path, t: Shape)
    requires t.Fork? && t.left.Fork? && t.right.Fork? && SinksRight(t)
    requires Focused(tree, c, RightRotation(t, t.extra, t.left.extra), t.left.node)
    ensures Focused(tree, SunkPath(c, t), Sunk(t), t.node)
  {
    hide Focused;
    DescendRight(tree, c, RightRotation(t, t.extra, t.left.extra), t.left.node);
  }

  lemma SunkLeft(tree: Tree, c: Path, t: Shape)
    requires t.Fork? && t.left.Fork? && t.right.Fork? && !SinksRight(t)
    requires Focused(tree, c, LeftRotation(t, t.extra, t.right.extra), t.right.node)
    ensures Focused(tree, SunkPath(c, t), Sunk(t), t.node)
  {
    hide Focused;
    DescendLeft(tree, c, LeftRotation(t, t.extra, t.right.extra), t.right.node);
  }

  /** tr_tree_remove. */
  method Remove(tree: Tree, key: int, ghost f: Priority) returns (result: MaybeEntry)
    requires Valid(tree) && Treap(tree.shape, f)
    modifies tree, Nodes(tree.shape)
    ensures Valid(tree) && Treap(tree.shape, f)
    ensures result == Removing(old(Contents(tree)), key)
    ensures Contents(tree) == Remaining(old(Contents(tree)), key)
    ensures Nodes(tree.shape) <= old(Nodes(tree.shape))
  {
    hide Treap, InOrder, Before, After, Nodes, PathNodes, Focused, Ascending, Plug, Sinking, OwnerSet;
    ghost var shape := tree.shape;
    var node, _, _, c, t := Locate(tree, key);
    PlugNodes(c, t);
    if node == null {
      NothingTaken(shape, c, key);
      return NoEntry;
    }
    EntryTaken(shape, c, t);
    DescendLeft(tree, c, t, node);
    result := Entry(node.key, node.datum);
    SinkStart(shape, c, t, f);
    c, t := SinkDown(tree, node, c, t, f);
    OwnerInSet(c);
    var child, parent, _ := Splice(tree, node, c, t);
    SinkDone(c, t, f);
    Rise(tree, c, OnlyChild(t), child);
    PlugInOrder(c, OnlyChild(t));
    PlugNodes(c, OnlyChild(t));
    InOrderSize(shape);
    Finish(tree, -1, Plug(c, OnlyChild(t)));
  }

  lemma SinkStart(shape: Shape, c: Path, t: Shape, f: Priority)
    requires Treap(shape, f) && Plug(c, t) == shape && t.Fork?
    ensures Sinking(c, t, f) && Around(c, t) == Before(c) + InOrder(t.left) + InOrder(t.right) + After(c)
  {
    Unplug(c, t, f);
  }

  lemma SinkDone(c: Path, t: Shape, f: Priority)
    requires Sinking(c, t, f) && t.Fork? && (t.left == Leaf || t.right == Leaf)
    ensures Treap(Plug(c, OnlyChild(t)), f)
    ensures Before(c) + InOrder(OnlyChild(t)) + After(c) == Around(c, t)
  {
    Replug(c, OnlyChild(t), f);
  }
}
