/**
 Taking a node out of a tree of tree_common, as the remove_node of each tree does before it repairs anything.

 A node with at most one child gives way to that child (Splice).  A node with two children first trades its
 entry with its neighbour in key order (Trade): the last node of its left subtree, or the first node of its
 right subtree, which has no child on the inner side and can be spliced instead.  It is the entry that moves
 and not the node, so the node object that leaves the tree is the neighbour's, as in the C code.

 While the search for the neighbour walks down, the focus moves along a path that goes on from the path of
 the node itself: first one step to one side, then only steps to the other.  RightOf and LeftOf describe that
 continuation, and Spine is the set of nodes on a path without the subtrees beside it, which is where the
 node that is to lose its entry is found again.  Rekeyed is the path after the trade; everything but the key
 and datum of that one node is as before, and RekeyedCells says so for every field of every node.

 TakeOut puts the pieces together.  Its contract names the path and the shape that are left, so that each
 kind of tree can begin its repair there, and says that the entries in order have lost exactly the entry of
 the key, with everything else in its place.
 */
module TreeRemoval {
  import opened Dictionary
  import opened TreeCommon

  /** The nodes of a path that lead to the focus, without the subtrees beside it. */
  ghost function Spine(c: Path): set<Node> {
    if c.Top? then {} else Spine(c.up) + {c.node}
  }

  /** The path with another key and datum in spine node n. */
  function Rekeyed(c: Path, n: Node, k: int, d: int): Path {
    if c.Top? then c
    else if c.node == n then c.(key := k, datum := d)
    else
      match c
      case InLeft(up, m, mk, md, e, r) => InLeft(Rekeyed(up, n, k, d), m, mk, md, e, r)
      case InRight(up, l, m, mk, md, e) => InRight(Rekeyed(up, n, k, d), l, m, mk, md, e)
  }

  lemma {:induction false} RekeyedCells(c: Path, n: Node, k: int, d: int, x: Node?)
    requires PathDistinct(c) && n in Spine(c)
    ensures n in PathNodes(c)
    ensures PathNodes(Rekeyed(c, n, k, d)) == PathNodes(c) && PathDistinct(Rekeyed(c, n, k, d))
    ensures Owner(Rekeyed(c, n, k, d)) == Owner(c) && PathRoot(Rekeyed(c, n, k, d), x) == PathRoot(c, x)
    ensures forall m | m in PathNodes(c) ::
              PathCell(Rekeyed(c, n, k, d), x, m) ==
              if m == n then PathCell(c, x, m).(key := k, datum := d) else PathCell(c, x, m)
    decreases c
  {
    if c.node == n {
    } else {
      RekeyedCells(c.up, n, k, d, c.node);
    }
  }

  /** c continues base through right links only. */
  ghost predicate RightOf(c: Path, base: Path) {
    c == base || (c.InRight? && RightOf(c.up, base))
  }

  ghost predicate LeftOf(c: Path, base: Path) {
    c == base || (c.InLeft? && LeftOf(c.up, base))
  }

  lemma {:induction false} RightOfFacts(c: Path, base: Path, k: int, d: int)
    requires RightOf(c, base) && base.InLeft? && PathDistinct(c)
    ensures base.node in Spine(c)
    ensures After(c) == After(base)
    ensures Before(Rekeyed(c, base.node, k, d)) == Before(c)
    ensures After(Rekeyed(c, base.node, k, d)) == [(k, d)] + InOrder(base.right) + After(base.up)
    decreases c
  {
    if c != base {
      RightOfFacts(c.up, base, k, d);
      SpineInPath(c.up);
    }
  }

  lemma {:induction false} LeftOfFacts(c: Path, base: Path, k: int, d: int)
    requires LeftOf(c, base) && base.InRight? && PathDistinct(c)
    ensures base.node in Spine(c)
    ensures Before(c) == Before(base)
    ensures After(Rekeyed(c, base.node, k, d)) == After(c)
    ensures Before(Rekeyed(c, base.node, k, d)) == Before(base.up) + InOrder(base.left) + [(k, d)]
    decreases c
  {
    if c != base {
      LeftOfFacts(c.up, base, k, d);
      SpineInPath(c.up);
    }
  }

  lemma {:induction false} SpineInPath(c: Path)
    ensures Spine(c) <= PathNodes(c)
    decreases c
  {
    if !c.Top? {
      SpineInPath(c.up);
    }
  }

  lemma DownEntries(c: Path, t: Shape)
    requires t.Fork?
    ensures InOrder(t.left) + After(DownLeft(c, t)) == InOrder(t) + After(c)
    ensures Before(DownRight(c, t)) + InOrder(t.right) == Before(c) + InOrder(t)
  {
    BaseParts(c, t);
    var l, e, r := InOrder(t.left), [(t.key, t.datum)], InOrder(t.right);
    hide InOrder, Before, After;
    ForkEntries(t);
    Shift(l, e, r, After(c));
    Shift(Before(c), l, e, r);
  }

  lemma ForkEntries(t: Shape)
    requires t.Fork?
    ensures InOrder(t) == InOrder(t.left) + [(t.key, t.datum)] + InOrder(t.right)
  {
  }

  lemma Shift(p: Entries, l: Entries, e: Entries, r: Entries)
    ensures p + (l + e + r) == (p + l + e) + r == p + l + e + r && p + l + e + r == p + l + (e + r)
    ensures (p + l + e) + r == p + (l + e + r)
  {
  }

  /** tree_node_max, below a focused link. */
  method MaxBelow(tree: Tree, x: Node, ghost base: Path, ghost below: Shape)
    returns (m: Node, ghost c: Path, ghost t: Shape)
    requires Focused(tree, base, below, x)
    ensures Focused(tree, c, t, m) && t.Fork? && t.right == Leaf && RightOf(c, base)
    ensures Plug(c, t) == Plug(base, below)
    ensures Before(c) + InOrder(t) == Before(base) + InOrder(below)
    ensures PathNodes(c) + Nodes(t) == PathNodes(base) + Nodes(below)
  {
    hide Focused, Before, After, InOrder, PathNodes, Nodes, Plug;
    m, c, t := x, base, below;
    FocusRoot(tree, c, t, m);
    DescendRight(tree, c, t, m);
    while m.rlink != null
      invariant Focused(tree, c, t, m) && t.Fork? && m.rlink == Root(t.right) && RightOf(c, base)
      invariant Plug(c, t) == Plug(base, below)
      invariant Before(c) + InOrder(t) == Before(base) + InOrder(below)
      invariant PathNodes(c) + Nodes(t) == PathNodes(base) + Nodes(below)
      decreases t
    {
      DescendRight(tree, c, t, m);
      DownEntries(c, t);
      DownNodes(c, t);
      DownPlug(c, t);
      m, c, t := m.rlink, DownRight(c, t), t.right;
      DescendRight(tree, c, t, m);
    }
  }

  /** tree_node_min, below a focused link. */
  method MinBelow(tree: Tree, x: Node, ghost base: Path, ghost below: Shape)
    returns (m: Node, ghost c: Path, ghost t: Shape)
    requires Focused(tree, base, below, x)
    ensures Focused(tree, c, t, m) && t.Fork? && t.left == Leaf && LeftOf(c, base)
    ensures Plug(c, t) == Plug(base, below)
    ensures InOrder(t) + After(c) == InOrder(below) + After(base)
    ensures PathNodes(c) + Nodes(t) == PathNodes(base) + Nodes(below)
  {
    hide Focused, Before, After, InOrder, PathNodes, Nodes, Plug;
    m, c, t := x, base, below;
    FocusRoot(tree, c, t, m);
    DescendLeft(tree, c, t, m);
    while m.llink != null
      invariant Focused(tree, c, t, m) && t.Fork? && m.llink == Root(t.left) && LeftOf(c, base)
      invariant Plug(c, t) == Plug(base, below)
      invariant InOrder(t) + After(c) == InOrder(below) + After(base)
      invariant PathNodes(c) + Nodes(t) == PathNodes(base) + Nodes(below)
      decreases t
    {
      DescendLeft(tree, c, t, m);
      DownEntries(c, t);
      DownNodes(c, t);
      DownPlug(c, t);
      m, c, t := m.llink, DownLeft(c, t), t.left;
      DescendLeft(tree, c, t, m);
    }
  }

  /** The subtree left when a node with at most one child goes. */
  function OnlyChild(t: Shape): Shape
    requires t.Fork?
  {
    if t.left.Fork? then t.left else t.right
  }

  /** "Splice in the successor, if any": the focused node gives way to its only child. */
  method Splice(tree: Tree, node: Node, ghost c: Path, ghost t: Shape) returns (child: Node?, parent: Node?, left: bool)
    requires Focused(tree, c, t, node) && t.Fork? && (t.left == Leaf || t.right == Leaf)
    modifies tree`root, Nodes(t)`parent, OwnerSet(c)`llink, OwnerSet(c)`rlink
    ensures Focused(tree, c, OnlyChild(t), child) && parent == Owner(c) && (left <==> c.InLeft?)
    ensures Nodes(OnlyChild(t)) == Nodes(t) - {node}
  {
    hide PathCell, CellOf, PathRoot, PathDistinct;
    Open(t, node, Owner(c));
    ghost var only := OnlyChild(t);
    child := if node.llink != null then node.llink else node.rlink;
    parent := node.parent;
    if parent != null {
      UpSide(tree, c, t, node);
    }
    left := parent != null && parent.llink == node;
    assert Rep(only, child, node) && Distinct(only);
    RehangAll(only, node, parent);
    NodesAllocated(t);
    OwnerApart(c, t);
    if child != null {
      ChildNodes(t);
      child.parent := parent;
    }
    assert Rep(only, child, parent);
    ReplaceChild(tree, parent, node, child, c);
  }

  lemma RehangAll(t: Shape, p: Node?, q: Node?)
    ensures forall m | m in Nodes(t) ::
              CellOf(t, q, m) == if IsRoot(t, m) then CellOf(t, p, m).(parent := q) else CellOf(t, p, m)
  {
  }

  /** Swapping key and datum with a spine node above: the path keeps its nodes and links. */
  method SwapWithSpine(tree: Tree, node: Node, out: Node, ghost c: Path, ghost t: Shape)
    requires Focused(tree, c, t, out) && t.Fork? && node in Spine(c)
    modifies {node, out}`key, {node, out}`datum
    ensures Focused(tree, Rekeyed(c, node, t.key, t.datum), t.(key := old(node.key), datum := old(node.datum)), out)
    ensures PathNodes(Rekeyed(c, node, t.key, t.datum)) == PathNodes(c)
  {
    hide PathCell, CellOf;
    Open(t, out, Owner(c));
    SpineInPath(c);
    RekeyedCells(c, node, t.key, t.datum, out);
    KeyCells(t, node.key, node.datum, Owner(c));
    assert out in Nodes(t) && node in PathNodes(c);
    node.key, out.key := out.key, node.key;
    node.datum, out.datum := out.datum, node.datum;
  }

  lemma KeyCells(t: Shape, k: int, d: int, p: Node?)
    requires t.Fork? && Distinct(t)
    ensures Distinct(t.(key := k, datum := d)) && Nodes(t.(key := k, datum := d)) == Nodes(t)
    ensures forall m | m in Nodes(t) ::
              CellOf(t.(key := k, datum := d), p, m) ==
              if m == t.node then CellOf(t, p, m).(key := k, datum := d) else CellOf(t, p, m)
  {
  }

  /** c is from, except that it may carry the entry of out in the place of the one at node. */
  ghost predicate SameSkeleton(from: Path, c: Path, node: Node, out: Shape)
    requires out.Fork?
  {
    c == from || c == Rekeyed(from, node, out.key, out.datum)
  }

  lemma LeftNeighbourGone(c0: Path, t0: Shape, from: Path, out: Shape)
    requires t0.Fork? && RightOf(from, DownLeft(c0, t0)) && PathDistinct(from)
    requires out.Fork? && out.right == Leaf
    requires Before(from) + InOrder(out) == Before(c0) + InOrder(t0.left)
    ensures t0.node in Spine(from)
    ensures var c := Rekeyed(from, t0.node, out.key, out.datum);
            Before(c) + InOrder(OnlyChild(out)) + After(c)
            == Before(c0) + InOrder(t0.left) + InOrder(t0.right) + After(c0)
  {
    hide PathDistinct, RightOf, Before, After, Spine, Rekeyed;
    RightOfFacts(from, DownLeft(c0, t0), out.key, out.datum);
    BaseParts(c0, t0);
    var e := [(out.key, out.datum)];
    calc {
      Before(from) + InOrder(OnlyChild(out)) + (e + InOrder(t0.right) + After(c0));
      (Before(from) + (InOrder(out.left) + e + [])) + InOrder(t0.right) + After(c0);
      (Before(from) + InOrder(out)) + InOrder(t0.right) + After(c0);
    }
  }

  lemma RightNeighbourGone(c0: Path, t0: Shape, from: Path, out: Shape)
    requires t0.Fork? && LeftOf(from, DownRight(c0, t0)) && PathDistinct(from)
    requires out.Fork? && out.left == Leaf
    requires InOrder(out) + After(from) == InOrder(t0.right) + After(c0)
    ensures t0.node in Spine(from)
    ensures var c := Rekeyed(from, t0.node, out.key, out.datum);
            Before(c) + InOrder(OnlyChild(out)) + After(c)
            == Before(c0) + InOrder(t0.left) + InOrder(t0.right) + After(c0)
  {
    hide PathDistinct, LeftOf, Before, After, Spine, Rekeyed;
    LeftOfFacts(from, DownRight(c0, t0), out.key, out.datum);
    BaseParts(c0, t0);
    var e := [(out.key, out.datum)];
    calc {
      (Before(c0) + InOrder(t0.left) + e) + InOrder(OnlyChild(out)) + After(from);
      Before(c0) + InOrder(t0.left) + (([] + e + InOrder(out.right)) + After(from));
      Before(c0) + InOrder(t0.left) + (InOrder(out) + After(from));
    }
  }

  /** A node with two children trades entries with its in-order neighbour, from the left or from the right. */
  method Trade(tree: Tree, node: Node, fromLeft: bool, ghost c0: Path, ghost t0: Shape)
    returns (m: Node, ghost from: Path, ghost out: Shape, ghost c: Path, ghost now: Shape)
    requires Focused(tree, c0, t0, node) && t0.Fork? && t0.left.Fork? && t0.right.Fork?
    modifies (PathNodes(c0) + Nodes(t0))`key, (PathNodes(c0) + Nodes(t0))`datum
    ensures out.Fork? && (out.left == Leaf || out.right == Leaf)
    ensures Plug(from, out) == Plug(c0, t0) && SameSkeleton(from, c, node, out)
    ensures now.Fork? && now == out.(key := now.key, datum := now.datum) && Focused(tree, c, now, m)
    ensures Before(c) + InOrder(OnlyChild(out)) + After(c)
            == Before(c0) + InOrder(t0.left) + InOrder(t0.right) + After(c0)
    ensures PathNodes(c) + Nodes(now) == PathNodes(c0) + Nodes(t0)
  {
    hide Focused, Plug, PathNodes, Nodes, Before, After, InOrder, RightOf, LeftOf, Spine, Rekeyed, PathDistinct;
    DescendLeft(tree, c0, t0, node);
    DescendRight(tree, c0, t0, node);
    DownNodes(c0, t0);
    DownPlug(c0, t0);
    BaseParts(c0, t0);
    if fromLeft {
      m, from, out := MaxBelow(tree, node.llink, DownLeft(c0, t0), t0.left);
      PathDistinctAt(tree, from, out, m);
      LeftNeighbourGone(c0, t0, from, out);
    } else {
      m, from, out := MinBelow(tree, node.rlink, DownRight(c0, t0), t0.right);
      PathDistinctAt(tree, from, out, m);
      RightNeighbourGone(c0, t0, from, out);
    }
    DescendLeft(tree, from, out, m);
    SpineInPath(from);
    ChildNodes(out);
    c, now := Rekeyed(from, node, out.key, out.datum), out.(key := node.key, datum := node.datum);
    KeysOnly(out, node.key, node.datum);
    SwapWithSpine(tree, node, m, from, out);
  }

  lemma KeysOnly(t: Shape, k: int, d: int)
    requires t.Fork?
    ensures Nodes(t.(key := k, datum := d)) == Nodes(t)
  {
  }

  /**
   The first half of every removal: a node with two children trades entries with its in-order neighbour,
   and the node that is left with at most one child is spliced out.
   */
  method TakeOut(tree: Tree, node: Node, fromLeft: bool, ghost c0: Path, ghost t0: Shape)
    returns (child: Node?, parent: Node?, left: bool, extra: int, ghost from: Path, ghost out: Shape, ghost c: Path)
    requires Focused(tree, c0, t0, node) && t0.Fork?
    modifies tree`root
    modifies (PathNodes(c0) + Nodes(t0))`key, (PathNodes(c0) + Nodes(t0))`datum, (PathNodes(c0) + Nodes(t0))`parent
    modifies (PathNodes(c0) + Nodes(t0))`llink, (PathNodes(c0) + Nodes(t0))`rlink
    ensures out.Fork? && (out.left == Leaf || out.right == Leaf)
    ensures Plug(from, out) == Plug(c0, t0) && SameSkeleton(from, c, node, out)
    ensures Focused(tree, c, OnlyChild(out), child) && parent == Owner(c) && (left <==> c.InLeft?)
    ensures extra == out.extra
    ensures Before(c) + InOrder(OnlyChild(out)) + After(c)
            == Before(c0) + InOrder(t0.left) + InOrder(t0.right) + After(c0)
    ensures PathNodes(c) + Nodes(OnlyChild(out)) <= PathNodes(c0) + Nodes(t0)
  {
    hide Focused, Plug, PathNodes, Nodes, Before, After, InOrder, SameSkeleton, OwnerSet;
    DescendLeft(tree, c0, t0, node);
    var m := node;
    ghost var now := t0;
    if node.llink != null && node.rlink != null {
      m, from, out, c, now := Trade(tree, node, fromLeft, c0, t0);
    } else {
      from, out, c := c0, t0, c0;
      LoneChild(c0, t0, node);
    }
    OwnerInSet(c);
    DescendLeft(tree, c, now, m);
    extra := m.extra;
    child, parent, left := Splice(tree, m, c, now);
  }

  lemma LoneChild(c: Path, t: Shape, node: Node)
    requires t.Fork? && (t.left == Leaf || t.right == Leaf)
    ensures SameSkeleton(c, c, node, t)
    ensures Before(c) + InOrder(OnlyChild(t)) + After(c) == Before(c) + InOrder(t.left) + InOrder(t.right) + After(c)
  {
  }
}
