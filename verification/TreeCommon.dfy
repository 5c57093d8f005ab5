/**
 Parent-pointer binary search trees: the node and tree objects every tree of the library shares, the
 shape of the heap below a node, the path above it, and the link operations of tree_common.

 A Shape is the tree of nodes below a link as a value: which node stands where, and what its fields hold.
 A Path is the way from a link up to the root, with the subtrees that hang beside it.  Focused(tree, c, t, x)
 says that the heap is in the state these values describe: x is the link in the middle, t the shape below
 it, c the path above it, no node occurs twice, and every node of either has exactly the fields that its
 place demands, the parent link included.

 Two functions give those fields: CellOf for a node of a shape and PathCell for a node of a path.  They are
 stated for one node at a time and not by recursion over the heap, so that a write to one node is framed
 by the sets Nodes(t) and PathNodes(c) alone.  A loop that climbs or descends moves the focus by Ascend,
 DescendLeft and DescendRight, which change nothing on the heap; a method that rewrites links is stated as
 a function from shape to shape, under a path that stays as it is.  Since the path is arbitrary, what holds
 for the focus holds wherever in the tree it is.

 InOrder(t) lists the entries of a shape, Before(c) and After(c) the entries that a path puts around it, so
 that the contents of the whole tree are Before(c) + InOrder(t) + After(c) at every focus.
 */
module TreeCommon {
  import opened Dictionary

  /** The fields of a node as a value. */
  datatype Cell = Cell(key: int, datum: int, extra: int, parent: Node?, llink: Node?, rlink: Node?)

  /** A tree node; extra is the field each kind of tree adds: weight, balance, colour or priority. */
  class Node {
    var key: int
    var datum: int
    var parent: Node?
    var llink: Node?
    var rlink: Node?
    var extra: int

    constructor (key: int, extra: int)
      ensures this.key == key && datum == 0 && this.extra == extra
      ensures parent == null && llink == null && rlink == null
    {
      this.key, this.datum, this.extra := key, 0, extra;
      parent, llink, rlink := null, null, null;
    }

    ghost function Fields(): Cell
      reads this
    {
      Cell(key, datum, extra, parent, llink, rlink)
    }
  }

  /** What hangs below a link, field by field. */
  datatype Shape =
    | Leaf
    | Fork(left: Shape, node: Node, key: int, datum: int, extra: int, right: Shape)

  /** The way from a link up to the root. */
  datatype Path =
    | Top
    | InLeft(up: Path, node: Node, key: int, datum: int, extra: int, right: Shape)
    | InRight(up: Path, left: Shape, node: Node, key: int, datum: int, extra: int)

  class Tree {
    var root: Node?
    var count: int
    ghost var shape: Shape

    constructor ()
      ensures root == null && count == 0 && shape == Leaf
    {
      root, count, shape := null, 0, Leaf;
    }
  }

  ghost function Nodes(t: Shape): set<Node> {
    match t
    case Leaf => {}
    case Fork(l, n, _, _, _, r) => Nodes(l) + {n} + Nodes(r)
  }

  ghost function PathNodes(c: Path): set<Node> {
    match c
    case Top => {}
    case InLeft(up, n, _, _, _, r) => PathNodes(up) + {n} + Nodes(r)
    case InRight(up, l, n, _, _, _) => PathNodes(up) + {n} + Nodes(l)
  }

  ghost predicate Distinct(t: Shape) {
    match t
    case Leaf => true
    case Fork(l, n, _, _, _, r) =>
      Distinct(l) && Distinct(r) && n !in Nodes(l) && n !in Nodes(r) && Nodes(l) !! Nodes(r)
  }

  ghost predicate PathDistinct(c: Path) {
    match c
    case Top => true
    case InLeft(up, n, _, _, _, r) =>
      && PathDistinct(up) && Distinct(r)
      && n !in PathNodes(up) && n !in Nodes(r) && PathNodes(up) !! Nodes(r)
    case InRight(up, l, n, _, _, _) =>
      && PathDistinct(up) && Distinct(l)
      && n !in PathNodes(up) && n !in Nodes(l) && PathNodes(up) !! Nodes(l)
  }

  ghost function Root(t: Shape): Node? {
    if t.Leaf? then null else t.node
  }

  ghost function Owner(c: Path): Node? {
    if c.Top? then null else c.node
  }

  /** The fields node m must have when t hangs below p. */
  ghost function CellOf(t: Shape, p: Node?, m: Node): Cell
    requires m in Nodes(t)
  {
    var Fork(l, n, k, d, e, r) := t;
    if m == n then Cell(k, d, e, p, Root(l), Root(r))
    else if m in Nodes(l) then CellOf(l, n, m)
    else CellOf(r, n, m)
  }

  /** The fields node m must have when x hangs below the path c. */
  ghost function PathCell(c: Path, x: Node?, m: Node): Cell
    requires m in PathNodes(c)
  {
    match c
    case InLeft(up, n, k, d, e, r) =>
      if m == n then Cell(k, d, e, Owner(up), x, Root(r))
      else if m in Nodes(r) then CellOf(r, n, m)
      else PathCell(up, n, m)
    case InRight(up, l, n, k, d, e) =>
      if m == n then Cell(k, d, e, Owner(up), Root(l), x)
      else if m in Nodes(l) then CellOf(l, n, m)
      else PathCell(up, n, m)
  }

  /** The heap below link x, whose owner is p, is exactly t. */
  ghost predicate Rep(t: Shape, x: Node?, p: Node?)
    reads Nodes(t)
  {
    && x == Root(t)
    && forall m | m in Nodes(t) ::
         m.Fields() == CellOf(t, p, m)
  }

  /** The first node of a path, or x when there is none. */
  ghost function PathRoot(c: Path, x: Node?): Node? {
    if c.Top? then x else PathRoot(c.up, c.node)
  }

  /** The heap above the link that holds x is exactly c. */
  ghost predicate PathRep(c: Path, x: Node?, tree: Tree)
    reads PathNodes(c), tree`root
  {
    && tree.root == PathRoot(c, x)
    && forall m | m in PathNodes(c) ::
         m.Fields() == PathCell(c, x, m)
  }

  function Plug(c: Path, t: Shape): Shape {
    match c
    case Top => t
    case InLeft(up, n, k, d, e, r) => Plug(up, Fork(t, n, k, d, e, r))
    case InRight(up, l, n, k, d, e) => Plug(up, Fork(l, n, k, d, e, t))
  }

  /** The whole tree, seen as the part t below one link and the path c above it. */
  ghost predicate Focused(tree: Tree, c: Path, t: Shape, x: Node?)
    reads PathNodes(c), Nodes(t), tree`root
  {
    && Rep(t, x, Owner(c)) && Distinct(t)
    && PathRep(c, x, tree) && PathDistinct(c)
    && Nodes(t) !! PathNodes(c)
  }

  /** A fork opened into its root and its two subtrees. */
  lemma Open(t: Shape, x: Node?, p: Node?)
    requires Rep(t, x, p) && Distinct(t) && t.Fork?
    ensures x == t.node && t.node.Fields() == Cell(t.key, t.datum, t.extra, p, Root(t.left), Root(t.right))
    ensures Rep(t.left, x.llink, x) && Rep(t.right, x.rlink, x)
  {
  }

  /** Moving the focus one link up. */
  lemma Ascend(tree: Tree, c: Path, t: Shape, x: Node?)
    requires Focused(tree, c, t, x) && !c.Top?
    ensures Focused(tree, c.up, PlugOne(c, t), c.node)
  {
    var u := PlugOne(c, t);
    var side := if c.InLeft? then c.right else c.left;
    forall m | m in Nodes(u)
      ensures m.Fields() == CellOf(u, Owner(c.up), m)
    {
      if m != c.node && m !in Nodes(t) {
        assert m in Nodes(side);
      }
    }
    assert PathRoot(c, x) == PathRoot(c.up, c.node);
  }

  function PlugOne(c: Path, t: Shape): Shape
    requires !c.Top?
  {
    match c
    case InLeft(up, n, k, d, e, r) => Fork(t, n, k, d, e, r)
    case InRight(up, l, n, k, d, e) => Fork(l, n, k, d, e, t)
  }

  lemma {:induction false} PlugNodes(c: Path, t: Shape)
    ensures Nodes(Plug(c, t)) == PathNodes(c) + Nodes(t)
    decreases c
  {
    if !c.Top? {
      PlugNodes(c.up, PlugOne(c, t));
    }
  }

  lemma FocusedAtTop(tree: Tree, t: Shape, x: Node?)
    requires Focused(tree, Top, t, x)
    ensures x == tree.root
  {
  }

  // ---------- keys in order ----------

  function InOrder(t: Shape): Entries {
    match t
    case Leaf => []
    case Fork(l, _, k, d, _, r) => InOrder(l) + [(k, d)] + InOrder(r)
  }

  function Before(c: Path): Entries {
    match c
    case Top => []
    case InLeft(up, _, _, _, _, _) => Before(up)
    case InRight(up, l, _, k, d, _) => Before(up) + InOrder(l) + [(k, d)]
  }

  function After(c: Path): Entries {
    match c
    case Top => []
    case InLeft(up, _, k, d, _, r) => [(k, d)] + InOrder(r) + After(up)
    case InRight(up, _, _, _, _, _) => After(up)
  }

  /** One link up or down the entries are the same. */
  lemma UpEntries(c: Path, t: Shape)
    requires !c.Top?
    ensures Before(c.up) + InOrder(PlugOne(c, t)) + After(c.up) == Before(c) + InOrder(t) + After(c)
  {
    var p, e, q := Before(c.up), [(c.key, c.datum)], After(c.up);
    if c.InLeft? {
      Regroup(p, InOrder(t), e, InOrder(c.right), q);
    } else {
      Regroup(p, InOrder(c.left), e, InOrder(t), q);
    }
  }

  lemma {:induction false} PlugInOrder(c: Path, t: Shape)
    ensures InOrder(Plug(c, t)) == Before(c) + InOrder(t) + After(c)
    decreases c
  {
    if !c.Top? {
      hide Before, After, InOrder;
      PlugInOrder(c.up, PlugOne(c, t));
      UpEntries(c, t);
    } else {
      assert [] + InOrder(t) + [] == InOrder(t);
    }
  }

  function Size(t: Shape): nat {
    if t.Leaf? then 0 else Size(t.left) + 1 + Size(t.right)
  }

  lemma {:induction false} InOrderSize(t: Shape)
    ensures |InOrder(t)| == Size(t)
  {
    if t.Fork? {
      InOrderSize(t.left);
      InOrderSize(t.right);
    }
  }

  function Max(a: int, b: int): int {
    if a >= b then a else b
  }

  function Height(t: Shape): int {
    if t.Leaf? then 0 else 1 + Max(Height(t.left), Height(t.right))
  }

  lemma {:induction false} HeightNatural(t: Shape)
    ensures Height(t) >= 0 && (Height(t) == 0 <==> t == Leaf)
  {
    if t.Fork? {
      HeightNatural(t.left);
      HeightNatural(t.right);
    }
  }

  // ---------- the state of a tree object ----------

  /** The tree holds its shape, counts its nodes and keeps its keys in order. */
  ghost predicate Valid(tree: Tree)
    reads tree, Nodes(tree.shape)
  {
    && Focused(tree, Top, tree.shape, tree.root)
    && tree.count == Size(tree.shape)
    && Ascending(InOrder(tree.shape))
  }

  ghost function Contents(tree: Tree): Entries
    reads tree
  {
    InOrder(tree.shape)
  }

  // ---------- links ----------

  ghost function OwnerSet(c: Path): set<Node> {
    if c.Top? then {} else {c.node}
  }

  lemma {:induction false} NodesAllocated(t: Shape)
    ensures forall m | m in Nodes(t) :: allocated(m)
  {
    if t.Fork? {
      NodesAllocated(t.left);
      NodesAllocated(t.right);
    }
  }

  lemma {:induction false} PathAllocated(c: Path)
    ensures forall m | m in PathNodes(c) :: allocated(m)
    decreases c
  {
    match c
    case Top =>
    case InLeft(up, _, _, _, _, r) => PathAllocated(up); NodesAllocated(r);
    case InRight(up, l, _, _, _, _) => PathAllocated(up); NodesAllocated(l);
  }

  lemma OwnerApart(c: Path, t: Shape)
    requires Nodes(t) !! PathNodes(c)
    ensures forall m | m in Nodes(t) :: m !in OwnerSet(c)
  {
  }

  /** "*(p ? (p->llink == n ? &p->llink : &p->rlink) : &tree->root) = x". */
  method ReplaceChild(tree: Tree, p: Node?, n: Node, x: Node?, ghost c: Path)
    requires p == Owner(c) && PathRep(c, n, tree) && PathDistinct(c) && n !in PathNodes(c)
    modifies tree`root, OwnerSet(c)`llink, OwnerSet(c)`rlink
    ensures PathRep(c, x, tree)
  {
    if p == null {
      tree.root := x;
    } else if p.llink == n {
      p.llink := x;
    } else {
      p.rlink := x;
    }
  }

  /** n below its right child, the two nodes carrying extra fields e and f. */
  function LeftRotation(t: Shape, e: int, f: int): Shape
    requires t.Fork? && t.right.Fork?
  {
    var r := t.right;
    Fork(Fork(t.left, t.node, t.key, t.datum, e, r.left), r.node, r.key, r.datum, f, r.right)
  }

  function RightRotation(t: Shape, e: int, f: int): Shape
    requires t.Fork? && t.left.Fork?
  {
    var l := t.left;
    Fork(l.left, l.node, l.key, l.datum, f, Fork(l.right, t.node, t.key, t.datum, e, t.right))
  }

  /** The right child's left child takes the top: n carries e, the child f, the grandchild g. */
  function DoubleLeftRotation(t: Shape, e: int, f: int, g: int): Shape
    requires t.Fork? && t.right.Fork? && t.right.left.Fork?
  {
    var r, q := t.right, t.right.left;
    Fork(Fork(t.left, t.node, t.key, t.datum, e, q.left), q.node, q.key, q.datum, g,
         Fork(q.right, r.node, r.key, r.datum, f, r.right))
  }

  function DoubleRightRotation(t: Shape, e: int, f: int, g: int): Shape
    requires t.Fork? && t.left.Fork? && t.left.right.Fork?
  {
    var l, q := t.left, t.left.right;
    Fork(Fork(l.left, l.node, l.key, l.datum, f, q.left), q.node, q.key, q.datum, g,
         Fork(q.right, t.node, t.key, t.datum, e, t.right))
  }

  /** No rotation changes the order of the keys or the set of the nodes. */
  lemma LeftRotationOrder(t: Shape, e: int, f: int)
    requires t.Fork? && t.right.Fork?
    ensures InOrder(LeftRotation(t, e, f)) == InOrder(t) && Nodes(LeftRotation(t, e, f)) == Nodes(t)
  {
    assert InOrder(t.right) == InOrder(t.right.left) + [(t.right.key, t.right.datum)] + InOrder(t.right.right);
  }

  lemma RightRotationOrder(t: Shape, e: int, f: int)
    requires t.Fork? && t.left.Fork?
    ensures InOrder(RightRotation(t, e, f)) == InOrder(t) && Nodes(RightRotation(t, e, f)) == Nodes(t)
  {
    assert InOrder(t.left) == InOrder(t.left.left) + [(t.left.key, t.left.datum)] + InOrder(t.left.right);
  }

  lemma DoubleLeftOrder(t: Shape, e: int, f: int, g: int)
    requires t.Fork? && t.right.Fork? && t.right.left.Fork?
    ensures InOrder(DoubleLeftRotation(t, e, f, g)) == InOrder(t) && Nodes(DoubleLeftRotation(t, e, f, g)) == Nodes(t)
  {
    var mid := t.(right := RightRotation(t.right, f, g));
    RightRotationOrder(t.right, f, g);
    LeftRotationOrder(mid, e, g);
    assert LeftRotation(mid, e, g) == DoubleLeftRotation(t, e, f, g);
  }

  lemma DoubleRightOrder(t: Shape, e: int, f: int, g: int)
    requires t.Fork? && t.left.Fork? && t.left.right.Fork?
    ensures InOrder(DoubleRightRotation(t, e, f, g)) == InOrder(t) && Nodes(DoubleRightRotation(t, e, f, g)) == Nodes(t)
  {
    var mid := t.(left := LeftRotation(t.left, f, g));
    LeftRotationOrder(t.left, f, g);
    RightRotationOrder(mid, e, g);
    assert RightRotation(mid, e, g) == DoubleRightRotation(t, e, f, g);
  }

  ghost predicate IsRoot(t: Shape, m: Node) {
    t.Fork? && m == t.node
  }

  /** Hanging t below another owner changes its root's parent and nothing else. */
  lemma Rehang(t: Shape, p: Node?, q: Node?, m: Node)
    requires m in Nodes(t)
    ensures CellOf(t, q, m) == if IsRoot(t, m) then CellOf(t, p, m).(parent := q) else CellOf(t, p, m)
  {
  }

  /** The fields of the nodes of a fork with a right child, and of its left rotation. */
  lemma LeftRotationCells(t: Shape, e: int, f: int, p: Node?)
    requires Distinct(t) && t.Fork? && t.right.Fork?
    ensures Distinct(LeftRotation(t, e, f)) && Nodes(LeftRotation(t, e, f)) == Nodes(t)
    ensures forall m | m in Nodes(t) ::
              CellOf(LeftRotation(t, e, f), p, m) ==
              var was := CellOf(t, p, m);
              if m == t.node then was.(extra := e, parent := t.right.node, rlink := Root(t.right.left))
              else if m == t.right.node then was.(extra := f, parent := p, llink := t.node)
              else if IsRoot(t.right.left, m) then was.(parent := t.node)
              else was
  {
    var u, r := LeftRotation(t, e, f), t.right;
    forall m | m in Nodes(t)
      ensures CellOf(u, p, m) ==
              var was := CellOf(t, p, m);
              if m == t.node then was.(extra := e, parent := r.node, rlink := Root(r.left))
              else if m == r.node then was.(extra := f, parent := p, llink := t.node)
              else if IsRoot(r.left, m) then was.(parent := t.node)
              else was
    {
      if m in Nodes(r.left) {
        Rehang(r.left, r.node, t.node, m);
        assert CellOf(t, p, m) == CellOf(r, t.node, m) == CellOf(r.left, r.node, m);
        assert CellOf(u, p, m) == CellOf(u.left, r.node, m) == CellOf(r.left, t.node, m);
      } else if m in Nodes(t.left) {
        assert CellOf(u, p, m) == CellOf(u.left, r.node, m);
      } else if m in Nodes(r.right) {
        assert CellOf(t, p, m) == CellOf(r, t.node, m);
      }
    }
  }

  lemma RightRotationCells(t: Shape, e: int, f: int, p: Node?)
    requires Distinct(t) && t.Fork? && t.left.Fork?
    ensures Distinct(RightRotation(t, e, f)) && Nodes(RightRotation(t, e, f)) == Nodes(t)
    ensures forall m | m in Nodes(t) ::
              CellOf(RightRotation(t, e, f), p, m) ==
              var was := CellOf(t, p, m);
              if m == t.node then was.(extra := e, parent := t.left.node, llink := Root(t.left.right))
              else if m == t.left.node then was.(extra := f, parent := p, rlink := t.node)
              else if IsRoot(t.left.right, m) then was.(parent := t.node)
              else was
  {
    var u, l := RightRotation(t, e, f), t.left;
    forall m | m in Nodes(t)
      ensures CellOf(u, p, m) ==
              var was := CellOf(t, p, m);
              if m == t.node then was.(extra := e, parent := l.node, llink := Root(l.right))
              else if m == l.node then was.(extra := f, parent := p, rlink := t.node)
              else if IsRoot(l.right, m) then was.(parent := t.node)
              else was
    {
      if m in Nodes(l.right) {
        Rehang(l.right, l.node, t.node, m);
        assert CellOf(t, p, m) == CellOf(l, t.node, m) == CellOf(l.right, l.node, m);
        assert CellOf(u, p, m) == CellOf(u.right, l.node, m) == CellOf(l.right, t.node, m);
      } else if m in Nodes(t.right) {
        assert CellOf(u, p, m) == CellOf(u.right, l.node, m);
      } else if m in Nodes(l.left) {
        assert CellOf(t, p, m) == CellOf(l, t.node, m);
      }
    }
  }

  /** Replacing the right subtree by another over the same nodes changes only those nodes and one link. */
  lemma NewRightCells(t: Shape, r: Shape, p: Node?)
    requires Distinct(t) && t.Fork? && Distinct(r) && Nodes(r) == Nodes(t.right)
    ensures Distinct(t.(right := r)) && Nodes(t.(right := r)) == Nodes(t)
    ensures forall m | m in Nodes(t) ::
              CellOf(t.(right := r), p, m) ==
              if m == t.node then CellOf(t, p, m).(rlink := Root(r))
              else if m in Nodes(r) then CellOf(r, t.node, m)
              else CellOf(t, p, m)
  {
  }

  lemma NewLeftCells(t: Shape, l: Shape, p: Node?)
    requires Distinct(t) && t.Fork? && Distinct(l) && Nodes(l) == Nodes(t.left)
    ensures Distinct(t.(left := l)) && Nodes(t.(left := l)) == Nodes(t)
    ensures forall m | m in Nodes(t) ::
              CellOf(t.(left := l), p, m) ==
              if m == t.node then CellOf(t, p, m).(llink := Root(l))
              else if m in Nodes(l) then CellOf(l, t.node, m)
              else CellOf(t, p, m)
  {
  }

  /** A double rotation is a right rotation of the child followed by a left rotation of n. */
  lemma DoubleLeftCells(t: Shape, e: int, f: int, g: int, p: Node?)
    requires Distinct(t) && t.Fork? && t.right.Fork? && t.right.left.Fork?
    ensures Distinct(DoubleLeftRotation(t, e, f, g)) && Nodes(DoubleLeftRotation(t, e, f, g)) == Nodes(t)
    ensures t.node in Nodes(t) && t.right.node in Nodes(t) && t.right.left.node in Nodes(t)
    ensures forall m | m in Nodes(t) ::
              CellOf(DoubleLeftRotation(t, e, f, g), p, m) ==
              var was, q := CellOf(t, p, m), t.right.left;
              if m == t.node then was.(extra := e, parent := q.node, rlink := Root(q.left))
              else if m == t.right.node then was.(extra := f, parent := q.node, llink := Root(q.right))
              else if m == q.node then was.(extra := g, parent := p, llink := t.node, rlink := t.right.node)
              else if IsRoot(q.left, m) then was.(parent := t.node)
              else if IsRoot(q.right, m) then was.(parent := t.right.node)
              else was
    ensures Root(DoubleLeftRotation(t, e, f, g)) == t.right.left.node
  {
    hide CellOf;
    var r := RightRotation(t.right, f, g);
    var mid := t.(right := r);
    assert Distinct(t.right) && Distinct(t.right.left);
    RightRotationCells(t.right, f, g, t.node);
    NewRightCells(t, t.right, p);
    NewRightCells(t, r, p);
    LeftRotationCells(mid, e, g, p);
    assert LeftRotation(mid, e, g) == DoubleLeftRotation(t, e, f, g);
    DistinctGrandchild(t.right, t.right.left);
  }

  lemma DoubleRightCells(t: Shape, e: int, f: int, g: int, p: Node?)
    requires Distinct(t) && t.Fork? && t.left.Fork? && t.left.right.Fork?
    ensures Distinct(DoubleRightRotation(t, e, f, g)) && Nodes(DoubleRightRotation(t, e, f, g)) == Nodes(t)
    ensures t.node in Nodes(t) && t.left.node in Nodes(t) && t.left.right.node in Nodes(t)
    ensures forall m | m in Nodes(t) ::
              CellOf(DoubleRightRotation(t, e, f, g), p, m) ==
              var was, q := CellOf(t, p, m), t.left.right;
              if m == t.node then was.(extra := e, parent := q.node, llink := Root(q.right))
              else if m == t.left.node then was.(extra := f, parent := q.node, rlink := Root(q.left))
              else if m == q.node then was.(extra := g, parent := p, llink := t.left.node, rlink := t.node)
              else if IsRoot(q.left, m) then was.(parent := t.left.node)
              else if IsRoot(q.right, m) then was.(parent := t.node)
              else was
    ensures Root(DoubleRightRotation(t, e, f, g)) == t.left.right.node
  {
    hide CellOf;
    var l := LeftRotation(t.left, f, g);
    var mid := t.(left := l);
    assert Distinct(t.left) && Distinct(t.left.right);
    LeftRotationCells(t.left, f, g, t.node);
    NewLeftCells(t, t.left, p);
    NewLeftCells(t, l, p);
    RightRotationCells(mid, e, g, p);
    assert RightRotation(mid, e, g) == DoubleRightRotation(t, e, f, g);
    DistinctGrandchild(t.left, t.left.right);
  }

  lemma DistinctGrandchild(t: Shape, q: Shape)
    requires Distinct(t) && t.Fork? && q.Fork? && (q == t.left || q == t.right)
    ensures q.node != t.node && t.node !in Nodes(q)
    ensures q.left.Fork? ==> q.left.node in Nodes(q) && q.left.node in Nodes(t) && q.left.node != q.node
    ensures q.right.Fork? ==> q.right.node in Nodes(q) && q.right.node in Nodes(t) && q.right.node != q.node
    ensures q.left.Fork? && q.right.Fork? ==> q.left.node != q.right.node
  {
    assert Distinct(q);
  }

  /** The nodes a left rotation touches, found through the links. */
  lemma LeftLinks(t: Shape, x: Node?, p: Node?)
    requires Rep(t, x, p) && Distinct(t) && t.Fork? && t.right.Fork?
    ensures x == t.node && x.parent == p
    ensures var r := t.right;
            && x.extra == t.extra && r.node.extra == r.extra
            && x.rlink == r.node && r.node.llink == Root(r.left)
            && x in Nodes(t) && r.node in Nodes(t) && x != r.node
            && (r.left.Fork? ==> r.left.node in Nodes(t)) && !IsRoot(r.left, x) && !IsRoot(r.left, r.node)
  {
    Open(t, x, p);
    Open(t.right, x.rlink, x);
    DistinctGrandchild(t, t.right);
  }

  lemma RightLinks(t: Shape, x: Node?, p: Node?)
    requires Rep(t, x, p) && Distinct(t) && t.Fork? && t.left.Fork?
    ensures x == t.node && x.parent == p
    ensures var l := t.left;
            && x.extra == t.extra && l.node.extra == l.extra
            && x.llink == l.node && l.node.rlink == Root(l.right)
            && x in Nodes(t) && l.node in Nodes(t) && x != l.node
            && (l.right.Fork? ==> l.right.node in Nodes(t)) && !IsRoot(l.right, x) && !IsRoot(l.right, l.node)
  {
    Open(t, x, p);
    Open(t.left, x.llink, x);
    DistinctGrandchild(t, t.left);
  }

  /** tree_node_rot_left. */
  method RotLeft(tree: Tree, n: Node, ghost c: Path, ghost t: Shape)
    requires Focused(tree, c, t, n) && t.Fork? && t.right.Fork?
    modifies tree`root
    modifies Nodes(t)`parent, Nodes(t)`llink, Nodes(t)`rlink, OwnerSet(c)`llink, OwnerSet(c)`rlink
    ensures Focused(tree, c, LeftRotation(t, t.extra, t.right.extra), t.right.node)
  {
    hide PathCell, CellOf, Nodes, Distinct, LeftRotation, PathNodes, PathDistinct, PathRoot;
    ghost var u := LeftRotation(t, t.extra, t.right.extra);
    LeftLinks(t, n, Owner(c));
    LeftRotationCells(t, t.extra, t.right.extra, Owner(c));
    RotatedRoot(t);
    NodesAllocated(t);
    PathAllocated(c);
    OwnerApart(c, t);
    var nr := n.rlink;
    n.rlink := nr.llink;
    if n.rlink != null {
      n.rlink.parent := n;
    }
    nr.llink := n;
    var p := n.parent;
    n.parent := nr;
    nr.parent := p;
    assert Rep(u, nr, p);
    ReplaceChild(tree, p, n, nr, c);
    assert Rep(u, nr, p);
  }

  /** tree_node_rot_right. */
  method RotRight(tree: Tree, n: Node, ghost c: Path, ghost t: Shape)
    requires Focused(tree, c, t, n) && t.Fork? && t.left.Fork?
    modifies tree`root
    modifies Nodes(t)`parent, Nodes(t)`llink, Nodes(t)`rlink, OwnerSet(c)`llink, OwnerSet(c)`rlink
    ensures Focused(tree, c, RightRotation(t, t.extra, t.left.extra), t.left.node)
  {
    hide PathCell, CellOf, Nodes, Distinct, RightRotation, PathNodes, PathDistinct, PathRoot;
    ghost var u := RightRotation(t, t.extra, t.left.extra);
    RightLinks(t, n, Owner(c));
    RightRotationCells(t, t.extra, t.left.extra, Owner(c));
    RotatedRoot(t);
    NodesAllocated(t);
    PathAllocated(c);
    OwnerApart(c, t);
    var nl := n.llink;
    n.llink := nl.rlink;
    if n.llink != null {
      n.llink.parent := n;
    }
    nl.rlink := n;
    var p := n.parent;
    n.parent := nl;
    nl.parent := p;
    assert Rep(u, nl, p);
    ReplaceChild(tree, p, n, nl, c);
    assert Rep(u, nl, p);
  }

  lemma RotatedRoot(t: Shape)
    requires t.Fork?
    ensures t.right.Fork? ==> Root(LeftRotation(t, t.extra, t.right.extra)) == t.right.node
    ensures t.left.Fork? ==> Root(RightRotation(t, t.extra, t.left.extra)) == t.left.node
  {
  }

  /** The five nodes a right-left rotation touches, found through the links. */
  lemma RightLeftLinks(t: Shape, x: Node?, p: Node?)
    requires Rep(t, x, p) && Distinct(t) && t.Fork? && t.right.Fork? && t.right.left.Fork?
    ensures x == t.node && x.parent == p
    ensures var r, q := t.right.node, t.right.left;
            && x.extra == t.extra && r.extra == t.right.extra && q.node.extra == q.extra
            && x.rlink == r && r.llink == q.node && q.node.llink == Root(q.left) && q.node.rlink == Root(q.right)
            && x in Nodes(t) && r in Nodes(t) && q.node in Nodes(t)
            && (q.left.Fork? ==> q.left.node in Nodes(t)) && (q.right.Fork? ==> q.right.node in Nodes(t))
            && x != r && x != q.node && r != q.node
            && !IsRoot(q.left, x) && !IsRoot(q.left, r) && !IsRoot(q.left, q.node)
            && !IsRoot(q.right, x) && !IsRoot(q.right, r) && !IsRoot(q.right, q.node)
            && (q.left.Fork? ==> !IsRoot(q.right, q.left.node))
  {
    Open(t, x, p);
    Open(t.right, x.rlink, x);
    Open(t.right.left, x.rlink.llink, x.rlink);
    DistinctGrandchild(t.right, t.right.left);
  }

  lemma LeftRightLinks(t: Shape, x: Node?, p: Node?)
    requires Rep(t, x, p) && Distinct(t) && t.Fork? && t.left.Fork? && t.left.right.Fork?
    ensures x == t.node && x.parent == p
    ensures var l, q := t.left.node, t.left.right;
            && x.extra == t.extra && l.extra == t.left.extra && q.node.extra == q.extra
            && x.llink == l && l.rlink == q.node && q.node.llink == Root(q.left) && q.node.rlink == Root(q.right)
            && x in Nodes(t) && l in Nodes(t) && q.node in Nodes(t)
            && (q.left.Fork? ==> q.left.node in Nodes(t)) && (q.right.Fork? ==> q.right.node in Nodes(t))
            && x != l && x != q.node && l != q.node
            && !IsRoot(q.left, x) && !IsRoot(q.left, l) && !IsRoot(q.left, q.node)
            && !IsRoot(q.right, x) && !IsRoot(q.right, l) && !IsRoot(q.right, q.node)
            && (q.left.Fork? ==> !IsRoot(q.right, q.left.node))
  {
    Open(t, x, p);
    Open(t.left, x.llink, x);
    Open(t.left.right, x.llink.rlink, x.llink);
    DistinctGrandchild(t.left, t.left.right);
  }

  ghost function Children(q: Node): set<Node>
    reads q
  {
    (if q.llink == null then {} else {q.llink}) + (if q.rlink == null then {} else {q.rlink})
  }

  /** q takes lo and hi as its children and gives them its own: the links of both double rotations. */
  method Hoist(q: Node, lo: Node, hi: Node)
    requires q != lo && q != hi && lo != hi
    requires q.llink != q && q.llink != lo && q.llink != hi
    requires q.rlink != q && q.rlink != lo && q.rlink != hi
    requires q.llink != null ==> q.llink != q.rlink
    modifies {q, lo}`llink, {q, lo, hi}`rlink, {lo, hi}`parent, {hi}`llink
    modifies Children(q)`parent
    ensures lo.Fields() == old(lo.Fields()).(parent := q, rlink := old(q.llink))
    ensures hi.Fields() == old(hi.Fields()).(parent := q, llink := old(q.rlink))
    ensures q.Fields() == old(q.Fields()).(llink := lo, rlink := hi)
    ensures old(q.llink) != null ==> old(q.llink).Fields() == old(q.llink.Fields()).(parent := lo)
    ensures old(q.rlink) != null ==> old(q.rlink).Fields() == old(q.rlink.Fields()).(parent := hi)
  {
    var a := q.llink;
    q.llink := lo;
    lo.parent := q;
    lo.rlink := a;
    if a != null {
      a.parent := lo;
    }
    var b := q.rlink;
    q.rlink := hi;
    hi.parent := q;
    hi.llink := b;
    if b != null {
      b.parent := hi;
    }
  }

  /** The relinking that wb_tree, pr_tree and hb_tree write out for a right-left rotation. */
  method RotRightLeft(tree: Tree, n: Node, ghost c: Path, ghost t: Shape)
    requires Focused(tree, c, t, n) && t.Fork? && t.right.Fork? && t.right.left.Fork?
    modifies tree`root
    modifies Nodes(t)`parent, Nodes(t)`llink, Nodes(t)`rlink, OwnerSet(c)`llink, OwnerSet(c)`rlink
    ensures var r := t.right;
            Focused(tree, c, DoubleLeftRotation(t, t.extra, r.extra, r.left.extra), r.left.node)
  {
    hide PathCell, CellOf, Nodes, Distinct, DoubleLeftRotation, PathNodes, PathDistinct, PathRoot;
    ghost var u := DoubleLeftRotation(t, t.extra, t.right.extra, t.right.left.extra);
    RightLeftLinks(t, n, Owner(c));
    PathAllocated(c);
    DoubleLeftCells(t, t.extra, t.right.extra, t.right.left.extra, Owner(c));
    NodesAllocated(t);
    OwnerApart(c, t);
    var nr := n.rlink;
    var nrl := nr.llink;
    var p := n.parent;
    nrl.parent := p;
    ReplaceChild(tree, p, n, nrl, c);
    assert PathRep(c, nrl, tree) && Children(nrl) <= Nodes(t);
    Hoist(nrl, n, nr);
    assert PathRep(c, nrl, tree);
    assert Rep(u, nrl, p);
  }

  /** The mirror image, a left-right rotation. */
  method RotLeftRight(tree: Tree, n: Node, ghost c: Path, ghost t: Shape)
    requires Focused(tree, c, t, n) && t.Fork? && t.left.Fork? && t.left.right.Fork?
    modifies tree`root
    modifies Nodes(t)`parent, Nodes(t)`llink, Nodes(t)`rlink, OwnerSet(c)`llink, OwnerSet(c)`rlink
    ensures var l := t.left;
            Focused(tree, c, DoubleRightRotation(t, t.extra, l.extra, l.right.extra), l.right.node)
  {
    hide PathCell, CellOf, Nodes, Distinct, DoubleRightRotation, PathNodes, PathDistinct, PathRoot;
    ghost var u := DoubleRightRotation(t, t.extra, t.left.extra, t.left.right.extra);
    LeftRightLinks(t, n, Owner(c));
    PathAllocated(c);
    DoubleRightCells(t, t.extra, t.left.extra, t.left.right.extra, Owner(c));
    NodesAllocated(t);
    OwnerApart(c, t);
    var nl := n.llink;
    var nlr := nl.rlink;
    var p := n.parent;
    nlr.parent := p;
    ReplaceChild(tree, p, n, nlr, c);
    assert PathRep(c, nlr, tree) && Children(nlr) <= Nodes(t);
    Hoist(nlr, nl, n);
    assert PathRep(c, nlr, tree);
    assert Rep(u, nlr, p);
  }

  // ---------- moving down ----------

  function DownLeft(c: Path, t: Shape): Path
    requires t.Fork?
  {
    InLeft(c, t.node, t.key, t.datum, t.extra, t.right)
  }

  function DownRight(c: Path, t: Shape): Path
    requires t.Fork?
  {
    InRight(c, t.left, t.node, t.key, t.datum, t.extra)
  }

  lemma DescendLeft(tree: Tree, c: Path, t: Shape, x: Node?)
    requires Focused(tree, c, t, x) && t.Fork?
    ensures x == t.node && x.llink == Root(t.left) && x.rlink == Root(t.right) && x.parent == Owner(c)
    ensures x.key == t.key && x.datum == t.datum && x.extra == t.extra
    ensures Focused(tree, DownLeft(c, t), t.left, x.llink)
  {
    Open(t, x, Owner(c));
    var d := DownLeft(c, t);
    forall m | m in PathNodes(d)
      ensures m.Fields() == PathCell(d, x.llink, m)
    {
      if m == x {
      } else if m in Nodes(t.right) {
        assert m.Fields() == CellOf(t.right, x, m);
      } else {
        assert m in PathNodes(c);
      }
    }
  }

  lemma DescendRight(tree: Tree, c: Path, t: Shape, x: Node?)
    requires Focused(tree, c, t, x) && t.Fork?
    ensures x == t.node && x.llink == Root(t.left) && x.rlink == Root(t.right) && x.parent == Owner(c)
    ensures x.key == t.key && x.datum == t.datum && x.extra == t.extra
    ensures Focused(tree, DownRight(c, t), t.right, x.rlink)
  {
    Open(t, x, Owner(c));
    var d := DownRight(c, t);
    forall m | m in PathNodes(d)
      ensures m.Fields() == PathCell(d, x.rlink, m)
    {
      if m == x {
      } else if m in Nodes(t.left) {
        assert m.Fields() == CellOf(t.left, x, m);
      } else {
        assert m in PathNodes(c);
      }
    }
  }

  // ---------- key bounds along a path ----------

  /** Every key before the focus is below k and every key after it is above. */
  ghost predicate Between(c: Path, k: int) {
    KeysBelow(Before(c), k) && KeysAbove(After(c), k)
  }

  /** Comparing with the key at the focus tells which subtree lies between the same bounds. */
  lemma NarrowLeft(c: Path, t: Shape, k: int)
    requires t.Fork? && Between(c, k) && k < t.key
    requires Ascending(Before(c) + InOrder(t) + After(c))
    ensures Between(DownLeft(c, t), k)
  {
    hide InOrder, Before, Ascending;
    FocusKeys(c, t);
    BaseParts(c, t);
  }

  lemma NarrowRight(c: Path, t: Shape, k: int)
    requires t.Fork? && Between(c, k) && t.key < k
    requires Ascending(Before(c) + InOrder(t) + After(c))
    ensures Between(DownRight(c, t), k)
  {
    hide InOrder, After, Ascending;
    FocusKeys(c, t);
    BaseParts(c, t);
  }

  /** In a sorted tree the focused key lies between the keys on its two sides. */
  lemma FocusKeys(c: Path, t: Shape)
    requires t.Fork? && Ascending(Before(c) + InOrder(t) + After(c))
    ensures KeysBelow(Before(c) + InOrder(t.left) + [(t.key, t.datum)], t.key + 1)
    ensures KeysAbove([(t.key, t.datum)] + InOrder(t.right) + After(c), t.key - 1)
  {
    hide Before, After;
    SplitAtEntry(Before(c), InOrder(t.left), (t.key, t.datum), InOrder(t.right), After(c));
  }

  /** The descent every insertion and tree_search_node make, with the parent of the place reached. */
  method Locate(tree: Tree, key: int) returns (node: Node?, parent: Node?, left: bool, ghost c: Path, ghost t: Shape)
    requires Valid(tree)
    ensures Valid(tree)
    ensures Focused(tree, c, t, node) && Plug(c, t) == tree.shape && parent == Owner(c)
    ensures Between(c, key)
    ensures node != null ==> t.Fork? && node == t.node && node.key == key == t.key
    ensures node == null ==> t == Leaf
    ensures parent != null ==> (left <==> c.InLeft?)
  {
    hide Focused, Ascending, Between;
    node, parent, left, c, t := tree.root, null, false, Top, tree.shape;
    TopBetween(key);
    PlugInOrder(c, t);
    while node != null
      invariant Valid(tree)
      invariant Focused(tree, c, t, node) && Plug(c, t) == tree.shape && parent == Owner(c)
      invariant Between(c, key) && Ascending(Before(c) + InOrder(t) + After(c))
      invariant parent != null ==> (left <==> c.InLeft?)
      decreases t
    {
      FocusRoot(tree, c, t, node);
      DescendLeft(tree, c, t, node);
      DescendRight(tree, c, t, node);
      if key < node.key {
        NarrowLeft(c, t, key);
        parent, node, left := node, node.llink, true;
        c, t := DownLeft(c, t), t.left;
      } else if key > node.key {
        NarrowRight(c, t, key);
        parent, node, left := node, node.rlink, false;
        c, t := DownRight(c, t), t.right;
      } else {
        return;
      }
      PlugInOrder(c, t);
    }
    FocusRoot(tree, c, t, node);
  }

  lemma TopBetween(k: int)
    ensures Between(Top, k)
  {
  }

  lemma FocusRoot(tree: Tree, c: Path, t: Shape, x: Node?)
    requires Focused(tree, c, t, x)
    ensures x == Root(t) && (x == null <==> t == Leaf)
  {
  }

  // ---------- writing at the focus ----------

  lemma ExtraCells(t: Shape, e: int, p: Node?)
    requires t.Fork? && Distinct(t)
    ensures Distinct(t.(extra := e)) && Nodes(t.(extra := e)) == Nodes(t)
    ensures forall m | m in Nodes(t) ::
              CellOf(t.(extra := e), p, m) ==
              if m == t.node then CellOf(t, p, m).(extra := e) else CellOf(t, p, m)
  {
  }

  /** "n->extra = e", n being the node at the focus. */
  method SetExtra(tree: Tree, n: Node, e: int, ghost c: Path, ghost t: Shape)
    requires Focused(tree, c, t, n) && t.Fork?
    modifies n`extra
    ensures n.extra == e
    ensures Focused(tree, c, t.(extra := e), n)
  {
    ExtraCells(t, e, Owner(c));
    assert n in Nodes(t);
    n.extra := e;
  }

  function Single(n: Node, key: int, datum: int, extra: int): Shape {
    Fork(Leaf, n, key, datum, extra, Leaf)
  }

  /** Hanging a new node on the empty link that a descent reached. */
  method Attach(tree: Tree, parent: Node?, left: bool, add: Node, ghost c: Path)
    requires Focused(tree, c, Leaf, null) && parent == Owner(c) && (parent != null ==> (left <==> c.InLeft?))
    requires add !in PathNodes(c) && add.llink == null && add.rlink == null
    modifies tree`root, add`parent, OwnerSet(c)`llink, OwnerSet(c)`rlink
    ensures Focused(tree, c, Single(add, add.key, add.datum, add.extra), add)
    ensures add.key == old(add.key) && add.datum == old(add.datum) && add.extra == old(add.extra)
  {
    add.parent := parent;
    if parent == null {
      tree.root := add;
    } else if left {
      parent.llink := add;
    } else {
      parent.rlink := add;
    }
  }

  // ---------- writing the extra fields of rotated nodes ----------

  method MarkLeft(tree: Tree, n: Node, nr: Node, e: int, f: int, ghost c: Path, ghost t: Shape,
                  ghost a: int, ghost b: int)
    requires Distinct(t) && t.Fork? && t.right.Fork? && n == t.node && nr == t.right.node
    requires Focused(tree, c, LeftRotation(t, a, b), nr)
    modifies n`extra, nr`extra
    ensures Focused(tree, c, LeftRotation(t, e, f), nr)
  {
    hide CellOf, PathCell;
    LeftRotationCells(t, a, b, Owner(c));
    LeftRotationCells(t, e, f, Owner(c));
    DistinctGrandchild(t, t.right);
    n.extra := e;
    nr.extra := f;
  }

  method MarkRight(tree: Tree, n: Node, nl: Node, e: int, f: int, ghost c: Path, ghost t: Shape,
                   ghost a: int, ghost b: int)
    requires Distinct(t) && t.Fork? && t.left.Fork? && n == t.node && nl == t.left.node
    requires Focused(tree, c, RightRotation(t, a, b), nl)
    modifies n`extra, nl`extra
    ensures Focused(tree, c, RightRotation(t, e, f), nl)
  {
    hide CellOf, PathCell;
    RightRotationCells(t, a, b, Owner(c));
    RightRotationCells(t, e, f, Owner(c));
    DistinctGrandchild(t, t.left);
    n.extra := e;
    nl.extra := f;
  }

  lemma ChildNodes(t: Shape)
    requires t.Fork?
    ensures t.node in Nodes(t)
    ensures t.left.Fork? ==> t.left.node in Nodes(t)
    ensures t.right.Fork? ==> t.right.node in Nodes(t)
  {
  }

  lemma ThreeNodes(t: Shape, r: Shape, q: Shape)
    requires Distinct(t) && t.Fork? && r.Fork? && q.Fork?
    requires (r == t.right && q == r.left) || (r == t.left && q == r.right)
    ensures t.node in Nodes(t) && r.node in Nodes(t) && q.node in Nodes(t)
    ensures t.node != r.node && t.node != q.node && r.node != q.node
  {
    DistinctGrandchild(t, r);
    DistinctGrandchild(r, q);
  }

  method MarkDoubleLeft(tree: Tree, n: Node, nr: Node, q: Node, e: int, f: int, g: int, ghost c: Path, ghost t: Shape)
    requires Distinct(t) && t.Fork? && t.right.Fork? && t.right.left.Fork?
    requires n == t.node && nr == t.right.node && q == t.right.left.node
    requires Focused(tree, c, DoubleLeftRotation(t, t.extra, t.right.extra, t.right.left.extra), q)
    modifies n`extra, nr`extra, q`extra
    ensures Focused(tree, c, DoubleLeftRotation(t, e, f, g), q)
  {
    hide CellOf, PathCell, DoubleLeftRotation, Nodes, Distinct, PathRoot;
    DoubleLeftCells(t, t.extra, t.right.extra, t.right.left.extra, Owner(c));
    DoubleLeftCells(t, e, f, g, Owner(c));
    ThreeNodes(t, t.right, t.right.left);
    n.extra := e;
    nr.extra := f;
    q.extra := g;
  }

  method MarkDoubleRight(tree: Tree, n: Node, nl: Node, q: Node, e: int, f: int, g: int, ghost c: Path, ghost t: Shape)
    requires Distinct(t) && t.Fork? && t.left.Fork? && t.left.right.Fork?
    requires n == t.node && nl == t.left.node && q == t.left.right.node
    requires Focused(tree, c, DoubleRightRotation(t, t.extra, t.left.extra, t.left.right.extra), q)
    modifies n`extra, nl`extra, q`extra
    ensures Focused(tree, c, DoubleRightRotation(t, e, f, g), q)
  {
    hide CellOf, PathCell, DoubleRightRotation, Nodes, Distinct, PathRoot;
    DoubleRightCells(t, t.extra, t.left.extra, t.left.right.extra, Owner(c));
    DoubleRightCells(t, e, f, g, Owner(c));
    ThreeNodes(t, t.left, t.left.right);
    n.extra := e;
    nl.extra := f;
    q.extra := g;
  }

  // ---------- weights, for the trees whose extra field counts external nodes ----------

  /** "x ? x->weight : 1". */
  function WeightOf(x: Node?): int
    reads x
  {
    if x == null then 1 else x.extra
  }

  function Weight(t: Shape): int {
    if t.Leaf? then 1 else t.extra
  }

  /** The weights a node sees through its links are those of its subtrees. */
  lemma ChildWeights(t: Shape, x: Node?, p: Node?)
    requires Rep(t, x, p) && Distinct(t) && t.Fork?
    ensures x == t.node && x.extra == t.extra && x.llink == Root(t.left) && x.rlink == Root(t.right)
    ensures Rep(t.left, x.llink, x) && Rep(t.right, x.rlink, x) && Distinct(t.left) && Distinct(t.right)
    ensures WeightOf(x.llink) == Weight(t.left) && WeightOf(x.rlink) == Weight(t.right)
  {
    Open(t, x, p);
    if t.left.Fork? {
      Open(t.left, x.llink, x);
    }
    if t.right.Fork? {
      Open(t.right, x.rlink, x);
    }
  }

  // ---------- entering and leaving an update ----------

  /** A located key is one of the entries. */
  lemma LocatedEntry(c: Path, t: Shape)
    requires t.Fork?
    ensures HasKey(InOrder(Plug(c, t)), t.key)
  {
    PlugInOrder(c, t);
    var s := Before(c) + InOrder(t) + After(c);
    assert s[|Before(c)| + |InOrder(t.left)|] == (t.key, t.datum);
  }

  /** The entries once a new leaf hangs where a failed descent ended. */
  lemma LeafInserted(shape: Shape, c: Path, key: int)
    requires Plug(c, Leaf) == shape && Ascending(InOrder(shape)) && Between(c, key)
    ensures !HasKey(InOrder(shape), key)
    ensures Before(c) + [(key, 0)] + After(c) == WithEntry(InOrder(shape), key, 0)
    ensures Ascending(Before(c) + [(key, 0)] + After(c))
  {
    PlugInOrder(c, Leaf);
    assert Before(c) + [] + After(c) == Before(c) + After(c);
    EntryInserted(Before(c), After(c), key, 0);
  }

  /** The entries without the one found at the focus. */
  lemma EntryTaken(shape: Shape, c: Path, t: Shape)
    requires Plug(c, t) == shape && Ascending(InOrder(shape)) && t.Fork?
    ensures Removing(InOrder(shape), t.key) == Entry(t.key, t.datum)
    ensures Before(c) + InOrder(t.left) + InOrder(t.right) + After(c) == Remaining(InOrder(shape), t.key)
    ensures Ascending(Remaining(InOrder(shape), t.key)) && |Remaining(InOrder(shape), t.key)| + 1 == |InOrder(shape)|
  {
    hide Before, After, Plug, Ascending;
    PlugInOrder(c, t);
    EntryTakenFrom(Before(c), InOrder(t.left), t.key, t.datum, InOrder(t.right), After(c));
  }

  /** A failed descent leaves nothing to remove. */
  lemma NothingTaken(shape: Shape, c: Path, key: int)
    requires Plug(c, Leaf) == shape && Ascending(InOrder(shape)) && Between(c, key)
    ensures Removing(InOrder(shape), key) == NoEntry && Remaining(InOrder(shape), key) == InOrder(shape)
  {
    LeafInserted(shape, c, key);
  }

  /** Closing an update: with the focus back at the root, the count and the shape are recorded. */
  method Finish(tree: Tree, delta: int, ghost t: Shape)
    requires Focused(tree, Top, t, tree.root) && Ascending(InOrder(t)) && tree.count + delta == |InOrder(t)|
    modifies tree`count, tree`shape
    ensures Valid(tree) && tree.shape == t
  {
    InOrderSize(t);
    tree.count := tree.count + delta;
    tree.shape := t;
  }

  lemma StepUp(tree: Tree, c: Path, t: Shape, x: Node?)
    requires Focused(tree, c, t, x) && !c.Top?
    ensures var u := PlugOne(c, t);
            && u.Fork? && u.node == c.node && Focused(tree, c.up, u, c.node)
            && c.node.parent == Owner(c.up) && c.node.extra == c.extra == u.extra
            && Before(c.up) + InOrder(u) + After(c.up) == Before(c) + InOrder(t) + After(c)
            && PathNodes(c.up) + Nodes(u) == PathNodes(c) + Nodes(t)
  {
    hide Before, After, InOrder, PathRep, PathDistinct;
    Ascend(tree, c, t, x);
    UpEntries(c, t);
    Open(PlugOne(c, t), c.node, Owner(c.up));
  }

  lemma UpPlug(c: Path, t: Shape)
    requires !c.Top?
    ensures Plug(c.up, PlugOne(c, t)) == Plug(c, t) && PlugOne(c, t).Fork? && PlugOne(c, t).node == c.node
  {
  }

  /** The owner's links tell on which side of it the focus hangs. */
  lemma UpSide(tree: Tree, c: Path, t: Shape, x: Node)
    requires Focused(tree, c, t, x) && t.Fork? && !c.Top?
    ensures c.node.rlink == x <==> c.InRight?
    ensures c.node.llink == x <==> c.InLeft?
  {
    assert c.node.Fields() == PathCell(c, x, c.node);
    assert x in Nodes(t);
  }

  /** The focus taken back to the root at once. */
  lemma {:induction false} Rise(tree: Tree, c: Path, t: Shape, x: Node?)
    requires Focused(tree, c, t, x)
    ensures Focused(tree, Top, Plug(c, t), tree.root)
    decreases c
  {
    hide Focused;
    if c.Top? {
      FocusedAtTop(tree, t, x);
    } else {
      Ascend(tree, c, t, x);
      UpPlug(c, t);
      Rise(tree, c.up, PlugOne(c, t), c.node);
    }
  }

  /** The whole tree's entries, seen from a focus. */
  function Whole(c: Path, t: Shape): Entries {
    Before(c) + InOrder(t) + After(c)
  }

  /** The whole tree's nodes, seen from a focus. */
  ghost function All(c: Path, t: Shape): set<Node> {
    PathNodes(c) + Nodes(t)
  }

  /** Moving the focus up one link. */
  lemma GoUp(tree: Tree, c: Path, t: Shape, x: Node?)
    requires Focused(tree, c, t, x) && !c.Top?
    ensures var u := PlugOne(c, t);
            && u.Fork? && u.node == c.node && Focused(tree, c.up, u, c.node)
            && c.node.parent == Owner(c.up) && c.node.extra == c.extra == u.extra
            && Whole(c.up, u) == Whole(c, t) && All(c.up, u) == All(c, t)
  {
    hide Focused;
    StepUp(tree, c, t, x);
  }

  /** Moving the focus down one link. */
  lemma GoLeft(tree: Tree, c: Path, t: Shape, x: Node?)
    requires Focused(tree, c, t, x) && t.Fork?
    ensures x == t.node && x.llink == Root(t.left) && x.rlink == Root(t.right)
    ensures x.parent == Owner(c) && x.extra == t.extra
    ensures Focused(tree, DownLeft(c, t), t.left, x.llink)
    ensures Whole(DownLeft(c, t), t.left) == Whole(c, t) && All(DownLeft(c, t), t.left) == All(c, t)
  {
    hide Focused;
    DescendLeft(tree, c, t, x);
    assert Whole(DownLeft(c, t), t.left) == Whole(c, t);
  }

  lemma GoRight(tree: Tree, c: Path, t: Shape, x: Node?)
    requires Focused(tree, c, t, x) && t.Fork?
    ensures x == t.node && x.llink == Root(t.left) && x.rlink == Root(t.right)
    ensures x.parent == Owner(c) && x.extra == t.extra
    ensures Focused(tree, DownRight(c, t), t.right, x.rlink)
    ensures Whole(DownRight(c, t), t.right) == Whole(c, t) && All(DownRight(c, t), t.right) == All(c, t)
  {
    hide Focused;
    DescendRight(tree, c, t, x);
    assert Whole(DownRight(c, t), t.right) == Whole(c, t);
  }

  lemma {:induction false} PathRootInPath(c: Path, x: Node?)
    requires !c.Top?
    ensures PathRoot(c, x) != null && PathRoot(c, x) in PathNodes(c)
    decreases c
  {
    if !c.up.Top? {
      PathRootInPath(c.up, c.node);
    }
  }

  /** The focused node is the root exactly when there is no path above it. */
  lemma RootFocus(tree: Tree, c: Path, t: Shape, x: Node?)
    requires Focused(tree, c, t, x)
    ensures c.Top? ==> x == tree.root
    ensures x == tree.root && tree.root != null ==> c.Top?
    ensures tree.root == null ==> c.Top?
  {
    if !c.Top? {
      PathRootInPath(c, x);
    }
  }

  lemma PathNodesUp(c: Path)
    requires !c.Top?
    ensures PathNodes(c.up) <= PathNodes(c) && c.node in PathNodes(c)
    ensures OwnerSet(c.up) <= PathNodes(c.up)
  {
    OwnerInSet(c.up);
  }

  lemma OwnerInSet(c: Path)
    ensures OwnerSet(c) <= PathNodes(c)
  {
  }

  /** The extra field plays no part in the order of the keys or in which nodes there are. */
  lemma ExtraIrrelevant(t: Shape, e: int)
    requires t.Fork?
    ensures InOrder(t.(extra := e)) == InOrder(t) && Nodes(t.(extra := e)) == Nodes(t)
  {
  }

  lemma AtTop(c: Path, t: Shape)
    requires c.Top?
    ensures Before(c) + InOrder(t) + After(c) == InOrder(t) && PathNodes(c) + Nodes(t) == Nodes(t)
    ensures Before(c) == [] && After(c) == [] && Plug(c, t) == t
  {
  }

  lemma SomeEntry(t: Shape)
    requires |InOrder(t)| > 0
    ensures t.Fork?
  {
  }

  lemma NoNodes()
    ensures Nodes(Leaf) == {} && InOrder(Leaf) == []
  {
  }

  lemma DownPlug(c: Path, t: Shape)
    requires t.Fork?
    ensures Plug(DownLeft(c, t), t.left) == Plug(c, t) == Plug(DownRight(c, t), t.right)
  {
  }

  lemma DownNodes(c: Path, t: Shape)
    requires t.Fork?
    ensures PathNodes(c) + Nodes(t) == PathNodes(DownLeft(c, t)) + Nodes(t.left)
    ensures PathNodes(c) + Nodes(t) == PathNodes(DownRight(c, t)) + Nodes(t.right)
  {
  }

  lemma PathDistinctAt(tree: Tree, c: Path, t: Shape, x: Node?)
    requires Focused(tree, c, t, x)
    ensures PathDistinct(c)
  {
  }

  lemma BaseParts(c: Path, t: Shape)
    requires t.Fork?
    ensures Before(DownLeft(c, t)) == Before(c) && After(DownRight(c, t)) == After(c)
    ensures DownLeft(c, t).up == c == DownRight(c, t).up
    ensures After(DownLeft(c, t)) == [(t.key, t.datum)] + InOrder(t.right) + After(c)
    ensures Before(DownRight(c, t)) == Before(c) + InOrder(t.left) + [(t.key, t.datum)]
  {
  }
}
