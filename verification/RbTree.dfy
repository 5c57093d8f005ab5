/**
 Red-black trees; the extra field holds the colour.

 RedBlack is the invariant below any node: no red node has a red child, and every way down to a null link meets
 as many black nodes.  Its definition compares the two subtrees of a node, and EqualBlacks shows that it means
 all ways down and not only those that end below a leaf, which are the ones the C checker compares.  HeightBound
 follows from it.

 During insert_fixup the tree is red-black but for one edge: the node at the focus is red and its parent may be
 red too, while the path above expects a subtree of just that number of black nodes.  A red uncle is recoloured
 and moves the clash up by two levels (RecolourStep); with a black uncle an inner clash is turned to the outer
 side and an outer one ended by a rotation (InnerLeft, OuterLeft).

 During delete_fixup the subtree at the focus is one black node short.  A red sibling is rotated away first
 (RedSiblingRight); a black sibling with black children turns red and hands the shortage to the parent
 (SiblingTurnsRed); a red near child is rotated to the far side (NearToFarRight); and a red far child makes
 the missing black node good (FarRightSettles).

 The lemmas speak of shapes and paths alone.  The methods FixLeft, FixRight, MendLeft and MendRight carry out
 one round of either loop on the heap, and the two loops compose the rounds.
 */
module RbTree {
  import opened Dictionary
  import opened TreeCommon
  import opened TreeRemoval

  const RED := 0
  const BLACK := 1

  predicate IsRed(t: Shape) {
    t.Fork? && t.extra == RED
  }

  /** The number of black nodes on the leftmost way down to a null link. */
  function BlackHeight(t: Shape): int {
    if t.Leaf? then 0 else BlackHeight(t.left) + t.extra
  }

  /** No red node has a red child, and every way from a node down to a null link meets as many black nodes. */
  ghost predicate RedBlack(t: Shape) {
    t.Fork? ==>
      && (t.extra == RED || t.extra == BLACK)
      && (t.extra == RED ==> !IsRed(t.left) && !IsRed(t.right))
      && BlackHeight(t.left) == BlackHeight(t.right)
      && RedBlack(t.left) && RedBlack(t.right)
  }

  /** The invariant of a tree: red-black, with a black root. */
  ghost predicate Rooted(t: Shape) {
    RedBlack(t) && !IsRed(t)
  }

  // ---------- what the colours are for ----------

  /** Any way down, left and right turns as told, meets as many black nodes. */
  function BlacksOnWay(t: Shape, way: seq<bool>): int {
    if t.Leaf? || way == [] then 0
    else t.extra + BlacksOnWay(if way[0] then t.left else t.right, way[1..])
  }

  predicate EndsAtNull(t: Shape, way: seq<bool>) {
    if t.Leaf? then way == [] else way != [] && EndsAtNull(if way[0] then t.left else t.right, way[1..])
  }

  lemma {:induction false} EqualBlacks(t: Shape, way: seq<bool>)
    requires RedBlack(t) && EndsAtNull(t, way)
    ensures BlacksOnWay(t, way) == BlackHeight(t)
    decreases t
  {
    if t.Fork? {
      EqualBlacks(if way[0] then t.left else t.right, way[1..]);
    }
  }

  function Exp2(n: nat): nat {
    if n == 0 then 1 else 2 * Exp2(n - 1)
  }

  lemma {:induction false} BlackHeightSize(t: Shape)
    requires RedBlack(t)
    ensures BlackHeight(t) >= 0 && Size(t) + 1 >= Exp2(BlackHeight(t))
    ensures Height(t) <= 2 * BlackHeight(t) + (if IsRed(t) then 1 else 0)
  {
    if t.Fork? {
      BlackHeightSize(t.left);
      BlackHeightSize(t.right);
    }
  }

  lemma {:induction false} Exp2Doubles(n: nat)
    ensures Exp2(2 * n) == Exp2(n) * Exp2(n)
  {
    if n > 0 {
      Exp2Doubles(n - 1);
      var p := Exp2(n - 1);
      assert Exp2(2 * n) == 2 * (2 * Exp2(2 * (n - 1)));
      assert 2 * (2 * (p * p)) == (2 * p) * (2 * p);
    }
  }

  lemma {:induction false} Exp2Monotone(m: nat, n: nat)
    requires m <= n
    ensures Exp2(m) <= Exp2(n)
    decreases n - m
  {
    if m < n {
      Exp2Monotone(m + 1, n);
    }
  }

  lemma SquareMonotone(a: nat, b: nat)
    requires a <= b
    ensures a * a <= b * b
  {
    assert a * a <= a * b <= b * b;
  }

  /** The height is at most twice the binary logarithm of the number of nodes plus one. */
  lemma HeightBound(t: Shape)
    requires Rooted(t)
    ensures Height(t) >= 0 && Exp2(Height(t)) <= (Size(t) + 1) * (Size(t) + 1)
  {
    BlackHeightSize(t);
    HeightNatural(t);
    Exp2Monotone(Height(t), 2 * BlackHeight(t));
    Exp2Doubles(BlackHeight(t));
    SquareMonotone(Exp2(BlackHeight(t)), Size(t) + 1);
  }

  // ---------- the path above a repair ----------

  /** A red node needs a black parent. */
  predicate BlackAbove(c: Path) {
    !c.Top? && c.extra == BLACK
  }

  /** The path expects a subtree of black height h in its hole. */
  ghost predicate PathRedBlack(c: Path, h: int) {
    c.Top? ||
    var side := if c.InLeft? then c.right else c.left;
    && (c.extra == RED || c.extra == BLACK)
    && (c.extra == RED ==> !IsRed(side) && BlackAbove(c.up))
    && RedBlack(side) && BlackHeight(side) == h
    && PathRedBlack(c.up, h + c.extra)
  }

  /** t may hang in the hole without putting red below red; at the top it must be black. */
  predicate Fits(c: Path, t: Shape) {
    IsRed(t) ==> BlackAbove(c)
  }

  lemma {:induction false} Unplug(c: Path, t: Shape)
    requires Rooted(Plug(c, t))
    ensures RedBlack(t) && PathRedBlack(c, BlackHeight(t)) && Fits(c, t)
    decreases c
  {
    if !c.Top? {
      Unplug(c.up, PlugOne(c, t));
    }
  }

  lemma {:induction false} Replug(c: Path, t: Shape)
    requires RedBlack(t) && PathRedBlack(c, BlackHeight(t)) && Fits(c, t)
    ensures Rooted(Plug(c, t))
    decreases c
  {
    if !c.Top? {
      Replug(c.up, PlugOne(c, t));
    }
  }

  function Depth(c: Path): nat {
    if c.Top? then 0 else 1 + Depth(c.up)
  }

  // ---------- painting ----------

  /** Painting the left child of the focused node. */
  method PaintLeft(tree: Tree, x: Node, colour: int, ghost c: Path, ghost t: Shape)
    requires Focused(tree, c, t, x) && t.Fork? && t.left.Fork?
    modifies Nodes(t)`extra
    ensures Focused(tree, c, t.(left := t.left.(extra := colour)), x)
  {
    hide Focused;
    DescendLeft(tree, c, t, x);
    DescendLeft(tree, DownLeft(c, t), t.left, x.llink);
    ChildNodes(t);
    SetExtra(tree, x.llink, colour, DownLeft(c, t), t.left);
    StepUp(tree, DownLeft(c, t), t.left.(extra := colour), x.llink);
  }

  method PaintRight(tree: Tree, x: Node, colour: int, ghost c: Path, ghost t: Shape)
    requires Focused(tree, c, t, x) && t.Fork? && t.right.Fork?
    modifies Nodes(t)`extra
    ensures Focused(tree, c, t.(right := t.right.(extra := colour)), x)
  {
    hide Focused;
    DescendRight(tree, c, t, x);
    DescendLeft(tree, DownRight(c, t), t.right, x.rlink);
    ChildNodes(t);
    SetExtra(tree, x.rlink, colour, DownRight(c, t), t.right);
    StepUp(tree, DownRight(c, t), t.right.(extra := colour), x.rlink);
  }

  lemma PaintedNodes(t: Shape, e: int, l: int, r: int)
    requires t.Fork? && t.left.Fork? && t.right.Fork?
    ensures var u := t.(extra := e, left := t.left.(extra := l), right := t.right.(extra := r));
            Nodes(u) == Nodes(t) && InOrder(u) == InOrder(t)
  {
  }

  // ---------- insertion: the steps ----------

  /** A red node, all well but that its parent may be red too. */
  ghost predicate Clashing(c: Path, t: Shape) {
    IsRed(t) && RedBlack(t) && PathRedBlack(c, BlackHeight(t))
  }

  /** The grandparent's subtree. */
  function Grand(c: Path, t: Shape): Shape
    requires !c.Top? && !c.up.Top?
  {
    PlugOne(c.up, PlugOne(c, t))
  }

  function Recoloured(g: Shape): Shape
    requires g.Fork? && g.left.Fork? && g.right.Fork?
  {
    g.(extra := RED, left := g.left.(extra := BLACK), right := g.right.(extra := BLACK))
  }

  lemma ClashParts(c: Path, t: Shape)
    requires Clashing(c, t) && !c.Top? && c.extra == RED
    ensures !c.up.Top? && c.up.extra == BLACK
  {
  }

  lemma PaintedBlack(t: Shape)
    requires t.Fork? && t.extra == RED && RedBlack(t.left) && RedBlack(t.right)
    requires BlackHeight(t.left) == BlackHeight(t.right)
    ensures RedBlack(t.(extra := BLACK)) && BlackHeight(t.(extra := BLACK)) == BlackHeight(t.left) + 1
  {
  }

  /** A red uncle: the blackness of the grandparent moves down to parent and uncle. */
  lemma RecolourStep(c: Path, t: Shape)
    requires Clashing(c, t) && !c.Top? && c.extra == RED && !c.up.Top?
    requires IsRed(if c.up.InLeft? then c.up.right else c.up.left)
    ensures var g := Grand(c, t); g.Fork? && g.left.Fork? && g.right.Fork? && Clashing(c.up.up, Recoloured(g))
  {
    var p := PlugOne(c, t);
    PaintedBlack(p);
    var uncle := if c.up.InLeft? then c.up.right else c.up.left;
    assert PathRedBlack(c.up, BlackHeight(t)) && RedBlack(uncle);
    PaintedBlack(uncle);
  }

  /** A black uncle and a node on the inner side: one rotation brings the clash to the outer side. */
  lemma InnerLeft(c: Path, t: Shape)
    requires Clashing(c, t) && c.InRight? && c.extra == RED && c.up.InLeft?
    ensures var p := LeftRotation(PlugOne(c, t), RED, RED);
            p.left.Fork? && p.extra == RED && Clashing(DownLeft(c.up, p), p.left)
  {
  }

  lemma InnerRight(c: Path, t: Shape)
    requires Clashing(c, t) && c.InLeft? && c.extra == RED && c.up.InRight?
    ensures var p := RightRotation(PlugOne(c, t), RED, RED);
            p.right.Fork? && p.extra == RED && Clashing(DownRight(c.up, p), p.right)
  {
  }

  /** On the outer side one rotation ends the clash. */
  lemma OuterLeft(c: Path, t: Shape)
    requires Clashing(c, t) && c.InLeft? && c.extra == RED && c.up.InLeft? && !IsRed(c.up.right)
    ensures var g := RightRotation(Grand(c, t), RED, BLACK);
            g.left == t && Clashing(DownLeft(c.up.up, g), g.left) && DownLeft(c.up.up, g).extra == BLACK
  {
    var h := BlackHeight(t);
    var side := RightRotation(Grand(c, t), RED, BLACK).right;
    assert PathRedBlack(c.up, h) && PathRedBlack(c.up.up, h + BLACK);
    assert RedBlack(side) && BlackHeight(side) == h;
  }

  lemma OuterRight(c: Path, t: Shape)
    requires Clashing(c, t) && c.InRight? && c.extra == RED && c.up.InRight? && !IsRed(c.up.left)
    ensures var g := LeftRotation(Grand(c, t), RED, BLACK);
            g.right == t && Clashing(DownRight(c.up.up, g), g.right) && DownRight(c.up.up, g).extra == BLACK
  {
    var h := BlackHeight(t);
    var side := LeftRotation(Grand(c, t), RED, BLACK).left;
    assert PathRedBlack(c.up, h) && PathRedBlack(c.up.up, h + BLACK);
    assert RedBlack(side) && BlackHeight(side) == h;
  }

  // ---------- insertion on the heap ----------

  method Recolour(tree: Tree, g: Node, ghost c: Path, ghost t: Shape)
    requires Focused(tree, c, t, g) && t.Fork? && t.left.Fork? && t.right.Fork?
    modifies Nodes(t)`extra
    ensures Focused(tree, c, Recoloured(t), g) && Whole(c, Recoloured(t)) == Whole(c, t)
    ensures Nodes(Recoloured(t)) == Nodes(t)
  {
    hide Focused, Nodes;
    DescendLeft(tree, c, t, g);
    ChildNodes(t);
    PaintedNodes(t, RED, BLACK, BLACK);
    PaintedNodes(t, t.extra, t.left.extra, BLACK);
    PaintedNodes(t, t.extra, BLACK, BLACK);
    PaintRight(tree, g, BLACK, c, t);
    PaintLeft(tree, g, BLACK, c, t.(right := t.right.(extra := BLACK)));
    SetExtra(tree, g, RED, c, t.(left := t.left.(extra := BLACK), right := t.right.(extra := BLACK)));
  }

  /** The grandparent turns red and sinks below the parent, which turns black. */
  method SinkRight(tree: Tree, g: Node, ghost c: Path, ghost t: Shape)
    requires Focused(tree, c, t, g) && t.Fork? && t.left.Fork?
    modifies tree`root, Nodes(t)`extra
    modifies Nodes(t)`parent, Nodes(t)`llink, Nodes(t)`rlink, OwnerSet(c)`llink, OwnerSet(c)`rlink
    ensures Focused(tree, c, RightRotation(t, RED, BLACK), t.left.node)
    ensures Whole(c, RightRotation(t, RED, BLACK)) == Whole(c, t) && Nodes(RightRotation(t, RED, BLACK)) == Nodes(t)
  {
    hide Focused, Nodes, InOrder, Before, After, OwnerSet;
    DescendLeft(tree, c, t, g);
    ChildNodes(t);
    PaintedLeftNodes(t, RED, BLACK);
    PaintedLeftNodes(t, t.extra, BLACK);
    RightRotationOrder(t, RED, BLACK);
    PaintLeft(tree, g, BLACK, c, t);
    SetExtra(tree, g, RED, c, t.(left := t.left.(extra := BLACK)));
    RotRight(tree, g, c, t.(extra := RED, left := t.left.(extra := BLACK)));
  }

  method SinkLeft(tree: Tree, g: Node, ghost c: Path, ghost t: Shape)
    requires Focused(tree, c, t, g) && t.Fork? && t.right.Fork?
    modifies tree`root, Nodes(t)`extra
    modifies Nodes(t)`parent, Nodes(t)`llink, Nodes(t)`rlink, OwnerSet(c)`llink, OwnerSet(c)`rlink
    ensures Focused(tree, c, LeftRotation(t, RED, BLACK), t.right.node)
    ensures Whole(c, LeftRotation(t, RED, BLACK)) == Whole(c, t) && Nodes(LeftRotation(t, RED, BLACK)) == Nodes(t)
  {
    hide Focused, Nodes, InOrder, Before, After, OwnerSet;
    DescendRight(tree, c, t, g);
    ChildNodes(t);
    PaintedRightNodes(t, RED, BLACK);
    PaintedRightNodes(t, t.extra, BLACK);
    LeftRotationOrder(t, RED, BLACK);
    PaintRight(tree, g, BLACK, c, t);
    SetExtra(tree, g, RED, c, t.(right := t.right.(extra := BLACK)));
    RotLeft(tree, g, c, t.(extra := RED, right := t.right.(extra := BLACK)));
  }

  lemma PaintedLeftNodes(t: Shape, e: int, l: int)
    requires t.Fork? && t.left.Fork?
    ensures Nodes(t.(extra := e, left := t.left.(extra := l))) == Nodes(t)
    ensures InOrder(t.(extra := e, left := t.left.(extra := l))) == InOrder(t)
  {
  }

  lemma PaintedRightNodes(t: Shape, e: int, r: int)
    requires t.Fork? && t.right.Fork?
    ensures Nodes(t.(extra := e, right := t.right.(extra := r))) == Nodes(t)
    ensures InOrder(t.(extra := e, right := t.right.(extra := r))) == InOrder(t)
  {
  }

  /** The body of insert_fixup's loop when the parent is a left child. */
  method FixLeft(tree: Tree, node0: Node, p: Node, g: Node, ghost c0: Path, ghost t0: Shape)
    returns (node: Node, ghost c: Path, ghost t: Shape)
    requires Focused(tree, c0, t0, node0) && Clashing(c0, t0) && !c0.Top? && c0.extra == RED
    requires p == c0.node && c0.up.InLeft? && g == c0.up.node
    modifies tree`root
    modifies All(c0, t0)`extra, All(c0, t0)`parent, All(c0, t0)`llink, All(c0, t0)`rlink
    ensures Focused(tree, c, t, node) && Clashing(c, t) && Depth(c) < Depth(c0)
    ensures Whole(c, t) == Whole(c0, t0) && All(c, t) == All(c0, t0)
  {
    hide Focused, Nodes, InOrder, Before, After, OwnerSet, RedBlack, PathRedBlack, PathNodes;
    node, c, t := node0, c0, t0;
    GoUp(tree, c, t, node);
    GoUp(tree, c.up, PlugOne(c, t), p);
    FocusNodes(c.up.up, Grand(c, t));
    GoLeft(tree, c.up.up, Grand(c, t), g);
    GoRight(tree, c.up.up, Grand(c, t), g);
    SeenColour(tree, DownRight(c.up.up, Grand(c, t)), c.up.right, g.rlink);
    var uncle := g.rlink;
    if uncle != null && uncle.extra == RED {
      RecolourStep(c, t);
      Recolour(tree, g, c.up.up, Grand(c, t));
      node, c, t := g, c.up.up, Recoloured(Grand(c, t));
    } else {
      UpSide(tree, c, t, node);
      if node == p.rlink {
        InnerLeft(c, t);
        FocusNodes(c.up, PlugOne(c, t));
        LeftRotationOrder(PlugOne(c, t), RED, RED);
        node := p;
        RotLeft(tree, node, c.up, PlugOne(c, t));
        ghost var u := LeftRotation(PlugOne(c, t), RED, RED);
        GoLeft(tree, c.up, u, t.node);
        c, t := DownLeft(c.up, u), u.left;
      }
      GoUp(tree, c, t, node);
      GoUp(tree, c.up, PlugOne(c, t), c.node);
      FocusNodes(c.up.up, Grand(c, t));
      OuterLeft(c, t);
      FocusRoot(tree, c, t, node);
      ghost var u := RightRotation(Grand(c, t), RED, BLACK);
      SinkRight(tree, g, c.up.up, Grand(c, t));
      GoLeft(tree, c.up.up, u, u.node);
      c, t := DownLeft(c.up.up, u), u.left;
    }
  }

  /** The same when the parent is a right child. */
  method FixRight(tree: Tree, node0: Node, p: Node, g: Node, ghost c0: Path, ghost t0: Shape)
    returns (node: Node, ghost c: Path, ghost t: Shape)
    requires Focused(tree, c0, t0, node0) && Clashing(c0, t0) && !c0.Top? && c0.extra == RED
    requires p == c0.node && c0.up.InRight? && g == c0.up.node
    modifies tree`root
    modifies All(c0, t0)`extra, All(c0, t0)`parent, All(c0, t0)`llink, All(c0, t0)`rlink
    ensures Focused(tree, c, t, node) && Clashing(c, t) && Depth(c) < Depth(c0)
    ensures Whole(c, t) == Whole(c0, t0) && All(c, t) == All(c0, t0)
  {
    hide Focused, Nodes, InOrder, Before, After, OwnerSet, RedBlack, PathRedBlack, PathNodes;
    node, c, t := node0, c0, t0;
    GoUp(tree, c, t, node);
    GoUp(tree, c.up, PlugOne(c, t), p);
    FocusNodes(c.up.up, Grand(c, t));
    GoLeft(tree, c.up.up, Grand(c, t), g);
    GoRight(tree, c.up.up, Grand(c, t), g);
    SeenColour(tree, DownLeft(c.up.up, Grand(c, t)), c.up.left, g.llink);
    var uncle := g.llink;
    if uncle != null && uncle.extra == RED {
      RecolourStep(c, t);
      Recolour(tree, g, c.up.up, Grand(c, t));
      node, c, t := g, c.up.up, Recoloured(Grand(c, t));
    } else {
      UpSide(tree, c, t, node);
      if node == p.llink {
        InnerRight(c, t);
        FocusNodes(c.up, PlugOne(c, t));
        RightRotationOrder(PlugOne(c, t), RED, RED);
        node := p;
        RotRight(tree, node, c.up, PlugOne(c, t));
        ghost var u := RightRotation(PlugOne(c, t), RED, RED);
        GoRight(tree, c.up, u, t.node);
        c, t := DownRight(c.up, u), u.right;
      }
      GoUp(tree, c, t, node);
      GoUp(tree, c.up, PlugOne(c, t), c.node);
      FocusNodes(c.up.up, Grand(c, t));
      OuterRight(c, t);
      FocusRoot(tree, c, t, node);
      ghost var u := LeftRotation(Grand(c, t), RED, BLACK);
      SinkLeft(tree, g, c.up.up, Grand(c, t));
      GoRight(tree, c.up.up, u, u.node);
      c, t := DownRight(c.up.up, u), u.right;
    }
  }

  /** insert_fixup. */
  method InsertFixup(tree: Tree, start: Node, ghost path: Path, ghost below: Shape) returns (ghost t: Shape)
    requires Focused(tree, path, below, start) && Clashing(path, below)
    modifies tree`root
    modifies All(path, below)`extra, All(path, below)`parent, All(path, below)`llink, All(path, below)`rlink
    ensures Focused(tree, Top, t, tree.root) && Rooted(t)
    ensures InOrder(t) == Whole(path, below) && Nodes(t) == All(path, below)
  {
    hide Focused, Nodes, InOrder, Before, After, OwnerSet, RedBlack, PathRedBlack, PathNodes, Whole, All, Plug;
    var node := start;
    ghost var c := path;
    t := below;
    ClimbFacts(tree, c, t, node);
    while node != tree.root && node.parent.extra == RED
      invariant Focused(tree, c, t, node) && Clashing(c, t)
      invariant node != tree.root ==> node.parent != null && node.parent == Owner(c) && node.parent.extra == c.extra
      invariant Whole(c, t) == Whole(path, below) && All(c, t) == All(path, below)
      decreases Depth(c)
    {
      ClimbFacts(tree, c, t, node);
      ClashParts(c, t);
      var p := node.parent;
      GoUp(tree, c, t, node);
      ClimbFacts(tree, c.up, PlugOne(c, t), p);
      UpSide(tree, c.up, PlugOne(c, t), p);
      var g := p.parent;
      if p == g.llink {
        node, c, t := FixLeft(tree, node, p, g, c, t);
      } else {
        node, c, t := FixRight(tree, node, p, g, c, t);
      }
      ClimbFacts(tree, c, t, node);
    }
    ClimbFacts(tree, c, t, node);
    ClashEnds(c, t);
    Rise(tree, c, t, node);
    PlugWhole(c, t);
    t := Plug(c, t);
    RootNode(tree, t);
    ChildNodes(t);
    SetExtra(tree, tree.root, BLACK, Top, t);
    ExtraIrrelevant(t, BLACK);
    t := t.(extra := BLACK);
  }

  /** The nodes an operation at a focus may touch are nodes of the tree. */
  lemma FocusNodes(c: Path, t: Shape)
    ensures Nodes(t) <= All(c, t) && OwnerSet(c) <= All(c, t)
  {
  }

  lemma SeenColour(tree: Tree, c: Path, t: Shape, x: Node?)
    requires Focused(tree, c, t, x)
    ensures x != null && x.extra == RED <==> IsRed(t)
  {
    if t.Fork? {
      DescendLeft(tree, c, t, x);
    }
  }

  lemma ClimbFacts(tree: Tree, c: Path, t: Shape, x: Node)
    requires Focused(tree, c, t, x) && t.Fork?
    ensures x == tree.root <==> c.Top?
    ensures x.parent == Owner(c) && (!c.Top? ==> x.parent != null && x.parent.extra == c.extra)
  {
    RootFocus(tree, c, t, x);
    DescendLeft(tree, c, t, x);
    if !c.Top? {
      GoUp(tree, c, t, x);
    }
  }

  lemma PlugWhole(c: Path, t: Shape)
    ensures InOrder(Plug(c, t)) == Whole(c, t) && Nodes(Plug(c, t)) == All(c, t)
  {
    PlugInOrder(c, t);
    PlugNodes(c, t);
  }

  lemma RootNode(tree: Tree, t: Shape)
    requires Focused(tree, Top, t, tree.root) && t.Fork?
    ensures tree.root == t.node
  {
  }

  /** Once the parent is black, or there is none, blackening the root ends the repair. */
  lemma ClashEnds(c: Path, t: Shape)
    requires Clashing(c, t) && (c.Top? || c.extra != RED)
    ensures Plug(c, t).Fork? && Rooted(Plug(c, t).(extra := BLACK))
  {
    if c.Top? {
      PaintedBlack(t);
    } else {
      Replug(c, t);
      PlugForks(c, t);
    }
  }

  lemma {:induction false} PlugForks(c: Path, t: Shape)
    requires t.Fork?
    ensures Plug(c, t).Fork?
    decreases c
  {
    if !c.Top? {
      PlugForks(c.up, PlugOne(c, t));
    }
  }

  lemma SingleClashes(c: Path, n: Node, key: int)
    requires Rooted(Plug(c, Leaf))
    ensures Clashing(c, Single(n, key, 0, RED))
    ensures InOrder(Single(n, key, 0, RED)) == [(key, 0)] && Nodes(Single(n, key, 0, RED)) == {n}
  {
    Unplug(c, Leaf);
  }

  /** rb_tree_insert: the key's node, and whether it is new. */
  method Insert(tree: Tree, key: int) returns (node: Node, inserted: bool)
    requires Valid(tree) && Rooted(tree.shape)
    modifies tree, Nodes(tree.shape)
    ensures Valid(tree) && Rooted(tree.shape)
    ensures inserted <==> !HasKey(old(Contents(tree)), key)
    ensures Contents(tree) == if inserted then WithEntry(old(Contents(tree)), key, 0) else old(Contents(tree))
    ensures node in Nodes(tree.shape) && node.key == key
    ensures fresh(Nodes(tree.shape) - old(Nodes(tree.shape)))
  {
    hide RedBlack, InOrder, Before, After, Nodes, PathNodes, Focused, Ascending, PathRedBlack;
    ghost var shape := tree.shape;
    var found, parent, left, c, t := Locate(tree, key);
    PlugNodes(c, t);
    if found != null {
      LocatedEntry(c, t);
      ChildNodes(t);
      return found, false;
    }
    LeafInserted(shape, c, key);
    NoNodes();
    PathAllocated(c);
    OwnerInSet(c);
    node := new Node(key, RED);
    Attach(tree, parent, left, node, c);
    SingleClashes(c, node, key);
    t := Single(node, key, 0, RED);
    if parent == null {
      AtTop(c, t);
      FocusedAtTop(tree, t, node);
      ExtraIrrelevant(t, BLACK);
      SetExtra(tree, node, BLACK, c, t);
      t := t.(extra := BLACK);
      LoneBlack(node, key);
    } else {
      t := InsertFixup(tree, node, c, t);
    }
    InOrderSize(shape);
    Finish(tree, 1, t);
    inserted := true;
  }

  lemma LoneBlack(n: Node, key: int)
    ensures Rooted(Single(n, key, 0, BLACK))
  {
  }

  // ---------- removal: the steps ----------

  function Blackened(t: Shape): Shape {
    if t.Leaf? then t else t.(extra := BLACK)
  }

  /** A subtree one black node short, whose root may be red below a red node or above one. */
  ghost predicate Short(c: Path, t: Shape) {
    && RedBlack(Blackened(t)) && (t.Fork? ==> t.extra == RED || t.extra == BLACK)
    && PathRedBlack(c, BlackHeight(t) + 1)
  }

  /** The same with a black root, seen from its parent u: it is u's left or right subtree. */
  ghost predicate ShortAt(c: Path, u: Shape, left: bool) {
    && u.Fork? && (u.extra == RED || u.extra == BLACK)
    && var t, s := if left then u.left else u.right, if left then u.right else u.left;
    && RedBlack(t) && !IsRed(t) && RedBlack(s) && BlackHeight(s) == BlackHeight(t) + 1
    && (u.extra == RED ==> !IsRed(s) && BlackAbove(c))
    && PathRedBlack(c, BlackHeight(s) + u.extra)
  }

  ghost predicate Settled(c: Path, t: Shape) {
    RedBlack(t) && PathRedBlack(c, BlackHeight(t)) && Fits(c, t)
  }

  lemma ShortSeen(c: Path, t: Shape)
    requires Short(c, t) && !c.Top? && !IsRed(t)
    ensures ShortAt(c.up, PlugOne(c, t), c.InLeft?)
  {
  }

  /** The sibling of a short subtree is there. */
  lemma SiblingForks(c: Path, u: Shape, left: bool)
    requires ShortAt(c, u, left)
    ensures u.Fork? && (u.extra == RED || u.extra == BLACK)
    ensures left ==> u.right.Fork?
    ensures !left ==> u.left.Fork?
  {
    BlackHeightSize(if left then u.left else u.right);
  }

  /** A red sibling is rotated out of the way. */
  lemma RedSiblingRight(c: Path, u: Shape)
    requires ShortAt(c, u, true) && IsRed(u.right)
    ensures var v := LeftRotation(u, RED, BLACK);
            ShortAt(DownLeft(c, v), v.left, true) && !IsRed(v.left.right)
  {
  }

  lemma RedSiblingLeft(c: Path, u: Shape)
    requires ShortAt(c, u, false) && IsRed(u.left)
    ensures var v := RightRotation(u, RED, BLACK);
            ShortAt(DownRight(c, v), v.right, false) && !IsRed(v.right.left)
  {
  }

  /** A black sibling with black children turns red, and the parent's subtree is short. */
  lemma SiblingTurnsRed(c: Path, u: Shape, left: bool)
    requires ShortAt(c, u, left)
    requires var s := if left then u.right else u.left;
             s.Fork? && s.extra == BLACK && !IsRed(s.left) && !IsRed(s.right)
    ensures left ==> Short(c, u.(right := u.right.(extra := RED)))
    ensures !left ==> Short(c, u.(left := u.left.(extra := RED)))
  {
  }

  lemma TurnedSiblingRight(s: Shape)
    requires RedBlack(s) && s.Fork? && s.extra == BLACK && IsRed(s.left) && !IsRed(s.right)
    ensures var v := RightRotation(s, RED, BLACK);
            RedBlack(v) && BlackHeight(v) == BlackHeight(s) && IsRed(v.right)
  {
    var v, l := RightRotation(s, RED, BLACK), s.left;
    assert RedBlack(l) && RedBlack(l.left) && RedBlack(l.right);
    assert RedBlack(v.right) && BlackHeight(v.right) == BlackHeight(l.right);
  }

  lemma TurnedSiblingLeft(s: Shape)
    requires RedBlack(s) && s.Fork? && s.extra == BLACK && IsRed(s.right) && !IsRed(s.left)
    ensures var v := LeftRotation(s, RED, BLACK);
            RedBlack(v) && BlackHeight(v) == BlackHeight(s) && IsRed(v.left)
  {
    var v, r := LeftRotation(s, RED, BLACK), s.right;
    assert RedBlack(r) && RedBlack(r.left) && RedBlack(r.right);
    assert RedBlack(v.left) && BlackHeight(v.left) == BlackHeight(r.left);
  }

  /** A red child on the near side of the sibling is rotated to the far side. */
  lemma NearToFarRight(c: Path, u: Shape)
    requires ShortAt(c, u, true) && u.right.Fork? && u.right.extra == BLACK
    requires IsRed(u.right.left) && !IsRed(u.right.right)
    ensures var v := u.(right := RightRotation(u.right, RED, BLACK));
            ShortAt(c, v, true) && v.right.extra == BLACK && IsRed(v.right.right)
  {
    TurnedSiblingRight(u.right);
  }

  lemma NearToFarLeft(c: Path, u: Shape)
    requires ShortAt(c, u, false) && u.left.Fork? && u.left.extra == BLACK
    requires IsRed(u.left.right) && !IsRed(u.left.left)
    ensures var v := u.(left := LeftRotation(u.left, RED, BLACK));
            ShortAt(c, v, false) && v.left.extra == BLACK && IsRed(v.left.left)
  {
    TurnedSiblingLeft(u.left);
  }

  function FarRight(u: Shape): Shape
    requires u.Fork? && u.right.Fork? && u.right.right.Fork?
  {
    LeftRotation(u.(right := u.right.(right := u.right.right.(extra := BLACK))), BLACK, u.extra)
  }

  function FarLeft(u: Shape): Shape
    requires u.Fork? && u.left.Fork? && u.left.left.Fork?
  {
    RightRotation(u.(left := u.left.(left := u.left.left.(extra := BLACK))), BLACK, u.extra)
  }

  /** A red child on the far side makes good the missing black node. */
  lemma FarRightSettles(c: Path, u: Shape)
    requires ShortAt(c, u, true) && u.right.Fork? && u.right.extra == BLACK && IsRed(u.right.right)
    ensures Settled(c, FarRight(u))
  {
    var s := u.right;
    assert RedBlack(s.left) && RedBlack(s.right);
    PaintedBlack(s.right);
    var v := FarRight(u);
    assert RedBlack(v.left) && BlackHeight(v.left) == BlackHeight(s);
    assert RedBlack(v.right) && BlackHeight(v.right) == BlackHeight(s);
  }

  lemma FarLeftSettles(c: Path, u: Shape)
    requires ShortAt(c, u, false) && u.left.Fork? && u.left.extra == BLACK && IsRed(u.left.left)
    ensures Settled(c, FarLeft(u))
  {
    var s := u.left;
    assert RedBlack(s.left) && RedBlack(s.right);
    PaintedBlack(s.left);
    var v := FarLeft(u);
    assert RedBlack(v.left) && BlackHeight(v.left) == BlackHeight(s);
    assert RedBlack(v.right) && BlackHeight(v.right) == BlackHeight(s);
  }

  /** At the top, or at a red node, blackening ends the repair. */
  lemma ShortEnds(c: Path, t: Shape)
    requires Short(c, t) && (c.Top? || IsRed(t))
    ensures Settled(c, Blackened(t))
  {
  }

  // ---------- removal on the heap ----------

  /** The body of delete_fixup's loop when the short subtree is a left child. */
  method MendLeft(tree: Tree, parent: Node, ghost c0: Path, ghost u0: Shape)
    returns (stop: bool, ghost c: Path, ghost t: Shape)
    requires Focused(tree, c0, u0, parent) && ShortAt(c0, u0, true)
    modifies tree`root
    modifies All(c0, u0)`extra, All(c0, u0)`parent, All(c0, u0)`llink, All(c0, u0)`rlink
    ensures Focused(tree, c, t, Root(t)) && t.Fork?
    ensures stop ==> Settled(c, t)
    ensures !stop ==> Short(c, t) && Root(t) == parent && (IsRed(t) || c == c0)
    ensures Whole(c, t) == Whole(c0, u0) && All(c, t) == All(c0, u0)
  {
    hide Focused, Nodes, InOrder, Before, After, OwnerSet, RedBlack, PathRedBlack, PathNodes, ShortAt, Short, Settled;
    c, t := c0, u0;
    SiblingForks(c, t, true);
    FocusNodes(c, t);
    GoRight(tree, c, t, parent);
    SeenColour(tree, DownRight(c, t), t.right, parent.rlink);
    var w := parent.rlink;
    if w.extra == RED {
      RedSiblingRight(c, t);
      SinkLeft(tree, parent, c, t);
      ghost var v := LeftRotation(t, RED, BLACK);
      GoLeft(tree, c, v, w);
      c, t := DownLeft(c, v), v.left;
      SiblingForks(c, t, true);
      FocusNodes(c, t);
      GoRight(tree, c, t, parent);
      SeenColour(tree, DownRight(c, t), t.right, parent.rlink);
      w := parent.rlink;
    }
    ShortColours(c, t, true);
    SeenChildren(tree, DownRight(c, t), t.right, w);
    if (w.llink == null || w.llink.extra == BLACK) && (w.rlink == null || w.rlink.extra == BLACK) {
      SiblingTurnsRed(c, t, true);
      PaintedRightNodes(t, t.extra, RED);
      PaintRight(tree, parent, RED, c, t);
      t, stop := t.(right := t.right.(extra := RED)), false;
    } else {
      if w.rlink == null || w.rlink.extra == BLACK {
        NearToFarRight(c, t);
        FocusNodes(DownRight(c, t), t.right);
        SinkRight(tree, w, DownRight(c, t), t.right);
        ghost var s := RightRotation(t.right, RED, BLACK);
        GoUp(tree, DownRight(c, t), s, s.node);
        t := t.(right := s);
        GoRight(tree, c, t, parent);
        w := parent.rlink;
      }
      FarRightSettles(c, t);
      FocusNodes(c, t);
      TakeFarRight(tree, parent, w, c, t);
      t, stop := FarRight(t), true;
    }
  }

  /** The sibling is black, and which of its children are red. */
  lemma ShortColours(c: Path, u: Shape, left: bool)
    requires ShortAt(c, u, left) && u.Fork? && (if left then u.right else u.left).Fork?
    ensures var s := if left then u.right else u.left;
            && (s.extra == RED || s.extra == BLACK)
            && (s.left.Fork? ==> s.left.extra == RED || s.left.extra == BLACK)
            && (s.right.Fork? ==> s.right.extra == RED || s.right.extra == BLACK)
  {
    var s := if left then u.right else u.left;
    assert RedBlack(s) && RedBlack(s.left) && RedBlack(s.right);
  }

  lemma SeenChildren(tree: Tree, c: Path, t: Shape, x: Node)
    requires Focused(tree, c, t, x) && t.Fork?
    ensures x.extra == t.extra && x.llink == Root(t.left) && x.rlink == Root(t.right)
    ensures x.llink != null ==> t.left.Fork? && x.llink.extra == t.left.extra
    ensures x.rlink != null ==> t.right.Fork? && x.rlink.extra == t.right.extra
    ensures x.llink == null ==> t.left.Leaf?
    ensures x.rlink == null ==> t.right.Leaf?
  {
    hide Focused;
    DescendLeft(tree, c, t, x);
    DescendRight(tree, c, t, x);
    if t.left.Fork? {
      DescendLeft(tree, DownLeft(c, t), t.left, x.llink);
    }
    if t.right.Fork? {
      DescendLeft(tree, DownRight(c, t), t.right, x.rlink);
    }
  }

  /** The sibling takes the parent's colour and place; parent and far child turn black. */
  method TakeFarRight(tree: Tree, parent: Node, w: Node, ghost c: Path, ghost t: Shape)
    requires Focused(tree, c, t, parent) && t.Fork? && t.right.Fork? && t.right.right.Fork? && w == t.right.node
    requires t.extra == RED || t.extra == BLACK
    modifies tree`root, Nodes(t)`extra
    modifies Nodes(t)`parent, Nodes(t)`llink, Nodes(t)`rlink, OwnerSet(c)`llink, OwnerSet(c)`rlink
    ensures Focused(tree, c, FarRight(t), Root(FarRight(t)))
    ensures Whole(c, FarRight(t)) == Whole(c, t) && Nodes(FarRight(t)) == Nodes(t)
  {
    hide Focused, Nodes, InOrder, Before, After, OwnerSet, PathNodes;
    ChildNodes(t);
    RightNodesInside(t);
    GoRight(tree, c, t, parent);
    ghost var s := t.right.(right := t.right.right.(extra := BLACK));
    PaintedRightNodes(t.right, t.right.extra, BLACK);
    PaintRight(tree, w, BLACK, DownRight(c, t), t.right);
    ExtraIrrelevant(s, t.extra);
    GoUp(tree, DownRight(c, t), s, w);
    SetExtra(tree, w, if parent.extra == RED then RED else BLACK, DownRight(c, t), s);
    GoUp(tree, DownRight(c, t), s.(extra := t.extra), w);
    ghost var u := t.(right := s.(extra := t.extra));
    NewRightKeeps(t, s.(extra := t.extra));
    ExtraIrrelevant(u, BLACK);
    SetExtra(tree, parent, BLACK, c, u);
    LeftRotationOrder(u.(extra := BLACK), BLACK, t.extra);
    RotLeft(tree, parent, c, u.(extra := BLACK));
    assert FarRight(t) == LeftRotation(u.(extra := BLACK), BLACK, t.extra);
  }

  lemma RightNodesInside(t: Shape)
    requires t.Fork?
    ensures Nodes(t.right) <= Nodes(t) && Nodes(t.left) <= Nodes(t)
  {
  }

  lemma NewRightKeeps(t: Shape, s: Shape)
    requires t.Fork? && Nodes(s) == Nodes(t.right) && InOrder(s) == InOrder(t.right)
    ensures Nodes(t.(right := s)) == Nodes(t) && InOrder(t.(right := s)) == InOrder(t)
  {
  }

  lemma NewLeftKeeps(t: Shape, s: Shape)
    requires t.Fork? && Nodes(s) == Nodes(t.left) && InOrder(s) == InOrder(t.left)
    ensures Nodes(t.(left := s)) == Nodes(t) && InOrder(t.(left := s)) == InOrder(t)
  {
  }

  /** The body of delete_fixup's loop when the short subtree is a right child. */
  method MendRight(tree: Tree, parent: Node, ghost c0: Path, ghost u0: Shape)
    returns (stop: bool, ghost c: Path, ghost t: Shape)
    requires Focused(tree, c0, u0, parent) && ShortAt(c0, u0, false)
    modifies tree`root
    modifies All(c0, u0)`extra, All(c0, u0)`parent, All(c0, u0)`llink, All(c0, u0)`rlink
    ensures Focused(tree, c, t, Root(t)) && t.Fork?
    ensures stop ==> Settled(c, t)
    ensures !stop ==> Short(c, t) && Root(t) == parent && (IsRed(t) || c == c0)
    ensures Whole(c, t) == Whole(c0, u0) && All(c, t) == All(c0, u0)
  {
    hide Focused, Nodes, InOrder, Before, After, OwnerSet, RedBlack, PathRedBlack, PathNodes, ShortAt, Short, Settled;
    c, t := c0, u0;
    SiblingForks(c, t, false);
    FocusNodes(c, t);
    GoLeft(tree, c, t, parent);
    SeenColour(tree, DownLeft(c, t), t.left, parent.llink);
    var w := parent.llink;
    if w.extra == RED {
      RedSiblingLeft(c, t);
      SinkRight(tree, parent, c, t);
      ghost var v := RightRotation(t, RED, BLACK);
      GoRight(tree, c, v, w);
      c, t := DownRight(c, v), v.right;
      SiblingForks(c, t, false);
      FocusNodes(c, t);
      GoLeft(tree, c, t, parent);
      SeenColour(tree, DownLeft(c, t), t.left, parent.llink);
      w := parent.llink;
    }
    ShortColours(c, t, false);
    SeenChildren(tree, DownLeft(c, t), t.left, w);
    if (w.llink == null || w.llink.extra == BLACK) && (w.rlink == null || w.rlink.extra == BLACK) {
      SiblingTurnsRed(c, t, false);
      PaintedLeftNodes(t, t.extra, RED);
      PaintLeft(tree, parent, RED, c, t);
      t, stop := t.(left := t.left.(extra := RED)), false;
    } else {
      if w.llink == null || w.llink.extra == BLACK {
        NearToFarLeft(c, t);
        FocusNodes(DownLeft(c, t), t.left);
        SinkLeft(tree, w, DownLeft(c, t), t.left);
        ghost var s := LeftRotation(t.left, RED, BLACK);
        GoUp(tree, DownLeft(c, t), s, s.node);
        t := t.(left := s);
        GoLeft(tree, c, t, parent);
        w := parent.llink;
      }
      FarLeftSettles(c, t);
      FocusNodes(c, t);
      TakeFarLeft(tree, parent, w, c, t);
      t, stop := FarLeft(t), true;
    }
  }

  method TakeFarLeft(tree: Tree, parent: Node, w: Node, ghost c: Path, ghost t: Shape)
    requires Focused(tree, c, t, parent) && t.Fork? && t.left.Fork? && t.left.left.Fork? && w == t.left.node
    requires t.extra == RED || t.extra == BLACK
    modifies tree`root, Nodes(t)`extra
    modifies Nodes(t)`parent, Nodes(t)`llink, Nodes(t)`rlink, OwnerSet(c)`llink, OwnerSet(c)`rlink
    ensures Focused(tree, c, FarLeft(t), Root(FarLeft(t)))
    ensures Whole(c, FarLeft(t)) == Whole(c, t) && Nodes(FarLeft(t)) == Nodes(t)
  {
    hide Focused, Nodes, InOrder, Before, After, OwnerSet, PathNodes;
    ChildNodes(t);
    RightNodesInside(t);
    GoLeft(tree, c, t, parent);
    ghost var s := t.left.(left := t.left.left.(extra := BLACK));
    PaintedLeftNodes(t.left, t.left.extra, BLACK);
    PaintLeft(tree, w, BLACK, DownLeft(c, t), t.left);
    ExtraIrrelevant(s, t.extra);
    GoUp(tree, DownLeft(c, t), s, w);
    SetExtra(tree, w, if parent.extra == RED then RED else BLACK, DownLeft(c, t), s);
    GoUp(tree, DownLeft(c, t), s.(extra := t.extra), w);
    ghost var u := t.(left := s.(extra := t.extra));
    NewLeftKeeps(t, s.(extra := t.extra));
    ExtraIrrelevant(u, BLACK);
    SetExtra(tree, parent, BLACK, c, u);
    RightRotationOrder(u.(extra := BLACK), BLACK, t.extra);
    RotRight(tree, parent, c, u.(extra := BLACK));
    assert FarLeft(t) == RightRotation(u.(extra := BLACK), BLACK, t.extra);
  }

  function Rounds(stop: bool, c: Path, t: Shape): nat {
    if stop then 0 else if IsRed(t) then 1 else 2 + Depth(c)
  }

  /** delete_fixup. */
  method DeleteFixup(tree: Tree, start: Node?, startParent: Node?, startLeft: bool, ghost path: Path,
                     ghost below: Shape)
    returns (ghost t: Shape)
    requires Focused(tree, path, below, start) && Short(path, below)
    requires startParent == Owner(path) && (startLeft <==> path.InLeft?)
    modifies tree`root
    modifies All(path, below)`extra, All(path, below)`parent, All(path, below)`llink, All(path, below)`rlink
    ensures Focused(tree, Top, t, tree.root) && Rooted(t)
    ensures InOrder(t) == Whole(path, below) && Nodes(t) == All(path, below)
  {
    hide Focused, Nodes, InOrder, Before, After, OwnerSet, RedBlack, PathRedBlack, PathNodes, Whole, All, Plug;
    hide Short, ShortAt, Settled, IsRed;
    var node, parent, left, stop := start, startParent, startLeft, false;
    ghost var c, at := path, start;
    t := below;
    RootFocus(tree, c, t, node);
    SeenShort(tree, c, t, node);
    while !stop && node != tree.root && (node == null || node.extra == BLACK)
      invariant Focused(tree, c, t, at) && (stop ==> Settled(c, t))
      invariant !stop ==> at == node && Short(c, t) && parent == Owner(c) && (parent != null ==> (left <==> c.InLeft?))
      invariant !stop ==> (node != null && node.extra != BLACK <==> IsRed(t))
      invariant Whole(c, t) == Whole(path, below) && All(c, t) == All(path, below)
      decreases Rounds(stop, c, t)
    {
      RootFocus(tree, c, t, node);
      ShortSeen(c, t);
      GoUp(tree, c, t, node);
      if left {
        stop, c, t := MendLeft(tree, parent, c.up, PlugOne(c, t));
      } else {
        stop, c, t := MendRight(tree, parent, c.up, PlugOne(c, t));
      }
      at := Root(t);
      if !stop {
        node := parent;
        SeenChildren(tree, c, t, node);
        DescendLeft(tree, c, t, node);
        parent := parent.parent;
        if parent != null {
          UpSide(tree, c, t, node);
        }
        left := parent != null && parent.llink == node;
        RootFocus(tree, c, t, node);
        SeenShort(tree, c, t, node);
      }
    }
    if !stop {
      RootFocus(tree, c, t, node);
      ShortEnds(c, t);
      FocusRoot(tree, c, t, node);
      FocusNodes(c, t);
      BlackenedKeeps(c, t);
      if node != null {
        ChildNodes(t);
        SetExtra(tree, node, BLACK, c, t);
      }
      t := Blackened(t);
    }
    Rise(tree, c, t, at);
    SettledRoot(c, t);
    PlugWhole(c, t);
    t := Plug(c, t);
  }

  lemma SeenShort(tree: Tree, c: Path, t: Shape, x: Node?)
    requires Focused(tree, c, t, x) && Short(c, t)
    ensures x != null && x.extra != BLACK <==> IsRed(t)
    ensures x != null ==> t.Fork? && x.parent == Owner(c)
  {
    if t.Fork? {
      DescendLeft(tree, c, t, x);
    }
  }

  lemma BlackenedKeeps(c: Path, t: Shape)
    ensures Whole(c, Blackened(t)) == Whole(c, t) && All(c, Blackened(t)) == All(c, t)
  {
    if t.Fork? {
      ExtraIrrelevant(t, BLACK);
    }
  }

  lemma SettledRoot(c: Path, t: Shape)
    requires Settled(c, t)
    ensures Rooted(Plug(c, t))
  {
    Replug(c, t);
  }

  lemma {:induction false} RekeyedRedBlack(c: Path, n: Node, k: int, d: int, h: int)
    requires PathRedBlack(c, h)
    ensures PathRedBlack(Rekeyed(c, n, k, d), h)
    ensures BlackAbove(Rekeyed(c, n, k, d)) <==> BlackAbove(c)
    decreases c
  {
    if !c.Top? {
      RekeyedRedBlack(c.up, n, k, d, h + c.extra);
    }
  }

  /** What splicing out a node with at most one child leaves: a short subtree, or none if the node was red. */
  lemma SplicedShort(shape: Shape, from: Path, out: Shape, c: Path, node: Node)
    requires Rooted(shape) && Plug(from, out) == shape
    requires out.Fork? && (out.left == Leaf || out.right == Leaf) && SameSkeleton(from, c, node, out)
    ensures out.extra == RED || out.extra == BLACK
    ensures out.extra == BLACK ==> Short(c, OnlyChild(out))
    ensures out.extra == RED ==> Settled(c, OnlyChild(out))
  {
    Unplug(from, out);
    RekeyedRedBlack(from, node, out.key, out.datum, BlackHeight(out));
    BlackHeightSize(out.left);
    BlackHeightSize(out.right);
    if IsRed(OnlyChild(out)) {
      PaintedBlack(OnlyChild(out));
    }
  }

  /** rb_tree_remove. */
  method Remove(tree: Tree, key: int) returns (result: MaybeEntry)
    requires Valid(tree) && Rooted(tree.shape)
    modifies tree, Nodes(tree.shape)
    ensures Valid(tree) && Rooted(tree.shape)
    ensures result == Removing(old(Contents(tree)), key)
    ensures Contents(tree) == Remaining(old(Contents(tree)), key)
    ensures Nodes(tree.shape) <= old(Nodes(tree.shape))
  {
    hide RedBlack, InOrder, Before, After, Nodes, PathNodes, Focused, Ascending, Plug, SameSkeleton, Short, Settled;
    ghost var shape := tree.shape;
    var node, _, _, c, t := Locate(tree, key);
    PlugNodes(c, t);
    if node == null {
      NothingTaken(shape, c, key);
      return NoEntry;
    }
    EntryTaken(shape, c, t);
    DescendLeft(tree, c, t, node);
    result := Entry(node.key, node.datum);
    var x, xp, left, colour, from, out, up := TakeOut(tree, node, false, c, t);
    SplicedShort(shape, from, out, up, node);
    ghost var after;
    if colour == BLACK && tree.root != null {
      after := DeleteFixup(tree, x, xp, left, up, OnlyChild(out));
    } else {
      EmptyOrSettled(tree, colour, up, OnlyChild(out), x);
      Rise(tree, up, OnlyChild(out), x);
      SettledRoot(up, OnlyChild(out));
      PlugWhole(up, OnlyChild(out));
      after := Plug(up, OnlyChild(out));
    }
    InOrderSize(shape);
    Finish(tree, -1, after);
  }

  lemma EmptyOrSettled(tree: Tree, colour: int, c: Path, t: Shape, x: Node?)
    requires Focused(tree, c, t, x) && (colour == BLACK ==> Short(c, t) && tree.root == null)
    requires colour != BLACK ==> Settled(c, t)
    ensures Settled(c, t)
  {
    if colour == BLACK {
      RootFocus(tree, c, t, x);
      FocusRoot(tree, c, t, x);
    }
  }
}
