/**
 Height-balanced trees that store only the balance of each node, in the extra field.

 Avl is the invariant: the stored balance of every node is the height of its right subtree less that of its
 left one, and lies between -1 and 1.  No height is stored anywhere, so every statement about when a repair
 loop may stop has to be recovered from balances alone.

 Insertion goes down remembering q, the deepest node on the way whose balance is not 0.  Below q every
 balance is 0 and moves to the side of the new leaf; at q the balance returns to 0 or a rotation restores
 the height, so nothing above q changes.  Without such a node the whole tree grows by one level.  Deepest,
 GrownStep and DeepestUneven carry this through the loop.  Removal climbs from the spliced link,
 goes on exactly while the subtree below has lost a level, and stops at the first that keeps its height.

 LeftEased and RightEased are the shapes the rotations produce, with the balances the code assigns; the
 lemmas LeftEasedAvl and RightEasedAvl show that those balances are true and say which of the resulting
 shapes are lower than before.  The case of an even child arises on removal alone and leaves the height as
 it was, which is what lets the loop end there.  AvlSize bounds the height by the Fibonacci numbers.
 */
module HbTree {
  import opened Dictionary
  import opened TreeCommon
  import opened TreeRemoval

  /** Every stored balance is the true one and lies in {-1, 0, 1}. */
  ghost predicate Avl(t: Shape) {
    t.Fork? ==>
      && t.extra == Height(t.right) - Height(t.left)
      && -1 <= t.extra <= 1
      && Avl(t.left) && Avl(t.right)
  }

  function Fib(n: nat): nat {
    if n < 2 then n else Fib(n - 2) + Fib(n - 1)
  }

  lemma {:induction false} FibMonotone(m: nat, n: nat)
    requires m <= n
    ensures Fib(m) <= Fib(n)
    decreases n - m
  {
    if m < n {
      FibMonotone(m + 1, n);
    }
  }

  /** A tree of height h has at least Fib(h + 2) - 1 nodes. */
  lemma {:induction false} AvlSize(t: Shape)
    requires Avl(t)
    ensures Height(t) >= 0 && Size(t) + 1 >= Fib(Height(t) + 2)
  {
    if t.Fork? {
      AvlSize(t.left);
      AvlSize(t.right);
      var h := Height(t);
      assert Fib(h + 2) == Fib(h) + Fib(h + 1);
      if Height(t.left) == h - 1 {
        FibMonotone(h, Height(t.right) + 2);
      } else {
        FibMonotone(h, Height(t.left) + 2);
      }
    }
  }

  // ---------- one repair ----------

  /** The left subtree is one higher than the stored balance says: it grew, or the right one shrank. */
  ghost predicate LeftTall(t: Shape) {
    && t.Fork? && Avl(t.left) && Avl(t.right)
    && -1 <= t.extra <= 1 && t.extra == Height(t.right) - Height(t.left) + 1
  }

  ghost predicate RightTall(t: Shape) {
    && t.Fork? && Avl(t.left) && Avl(t.right)
    && -1 <= t.extra <= 1 && t.extra == Height(t.right) - Height(t.left) - 1
  }

  /** What rotate_lr asks of the child: "BAL_POS(ql)" makes its right child exist. */
  predicate CanTurnRight(t: Shape)
    requires t.Fork?
  {
    t.extra == -1 ==> t.left.Fork? && (t.left.extra == 1 ==> t.left.right.Fork?)
  }

  predicate CanTurnLeft(t: Shape)
    requires t.Fork?
  {
    t.extra == 1 ==> t.right.Fork? && (t.right.extra == -1 ==> t.right.left.Fork?)
  }

  /** rotate_r. */
  function TurnedRight(t: Shape): Shape
    requires t.Fork? && t.left.Fork?
  {
    var even := t.left.extra == 0;
    RightRotation(t, if even then -1 else 0, if even then 1 else 0)
  }

  /** rotate_l. */
  function TurnedLeft(t: Shape): Shape
    requires t.Fork? && t.right.Fork?
  {
    var even := t.right.extra == 0;
    LeftRotation(t, if even then 1 else 0, if even then -1 else 0)
  }

  /** rotate_lr. */
  function TurnedLeftRight(t: Shape): Shape
    requires t.Fork? && t.left.Fork? && t.left.right.Fork?
  {
    var b := t.left.right.extra;
    DoubleRightRotation(t, if b == -1 then 1 else 0, if b == 1 then -1 else 0, 0)
  }

  /** rotate_rl. */
  function TurnedRightLeft(t: Shape): Shape
    requires t.Fork? && t.right.Fork? && t.right.left.Fork?
  {
    var b := t.right.left.extra;
    DoubleLeftRotation(t, if b == 1 then -1 else 0, if b == -1 then 1 else 0, 0)
  }

  /** The repair of a node whose left subtree is too tall for its balance. */
  function LeftEased(t: Shape): Shape
    requires t.Fork? && CanTurnRight(t)
  {
    if t.extra == -1 then
      if t.left.extra == 1 then TurnedLeftRight(t) else TurnedRight(t)
    else
      t.(extra := t.extra - 1)
  }

  function RightEased(t: Shape): Shape
    requires t.Fork? && CanTurnLeft(t)
  {
    if t.extra == 1 then
      if t.right.extra == -1 then TurnedRightLeft(t) else TurnedLeft(t)
    else
      t.(extra := t.extra + 1)
  }

  /** A repair leaves the keys in order and the stored balances true; it tells how the height came out. */
  lemma LeftEasedAvl(t: Shape)
    requires LeftTall(t)
    ensures CanTurnRight(t)
    ensures Avl(LeftEased(t)) && InOrder(LeftEased(t)) == InOrder(t) && Nodes(LeftEased(t)) == Nodes(t)
    ensures Height(LeftEased(t)) == if t.extra == -1 && t.left.extra != 0 then Height(t.left) else Height(t.left) + 1
  {
    hide InOrder, Nodes;
    HeightNatural(t.right);
    HeightNatural(t.left);
    if t.extra == -1 {
      HeightNatural(t.left.left);
      HeightNatural(t.left.right);
      if t.left.extra == 1 {
        var b := t.left.right.extra;
        DoubleRightOrder(t, if b == -1 then 1 else 0, if b == 1 then -1 else 0, 0);
        LeftRightAvl(t);
      } else {
        var even := t.left.extra == 0;
        RightRotationOrder(t, if even then -1 else 0, if even then 1 else 0);
      }
    } else {
      ExtraIrrelevant(t, t.extra - 1);
    }
  }

  lemma LeftRightAvl(t: Shape)
    requires LeftTall(t) && t.extra == -1 && t.left.Fork? && t.left.extra == 1 && t.left.right.Fork?
    ensures Avl(TurnedLeftRight(t)) && Height(TurnedLeftRight(t)) == Height(t.left)
  {
    hide InOrder, Nodes;
    var l, q, u := t.left, t.left.right, TurnedLeftRight(t);
    assert Avl(q) && Height(q) == Height(l) - 1 == Height(t.right) + 1;
    assert Avl(u.left) && Height(u.left) == Height(l) - 1;
    assert Avl(u.right) && Height(u.right) == Height(l) - 1;
  }

  lemma RightEasedAvl(t: Shape)
    requires RightTall(t)
    ensures CanTurnLeft(t)
    ensures Avl(RightEased(t)) && InOrder(RightEased(t)) == InOrder(t) && Nodes(RightEased(t)) == Nodes(t)
    ensures Height(RightEased(t)) == if t.extra == 1 && t.right.extra != 0 then Height(t.right) else Height(t.right) + 1
  {
    hide InOrder, Nodes;
    HeightNatural(t.right);
    HeightNatural(t.left);
    if t.extra == 1 {
      HeightNatural(t.right.left);
      HeightNatural(t.right.right);
      if t.right.extra == -1 {
        RightLeftAvl(t);
        var b := t.right.left.extra;
        DoubleLeftOrder(t, if b == 1 then -1 else 0, if b == -1 then 1 else 0, 0);
      } else {
        var even := t.right.extra == 0;
        LeftRotationOrder(t, if even then 1 else 0, if even then -1 else 0);
      }
    } else {
      ExtraIrrelevant(t, t.extra + 1);
    }
  }

  lemma RightLeftAvl(t: Shape)
    requires RightTall(t) && t.extra == 1 && t.right.Fork? && t.right.extra == -1 && t.right.left.Fork?
    ensures Avl(TurnedRightLeft(t)) && Height(TurnedRightLeft(t)) == Height(t.right)
  {
    hide InOrder, Nodes;
    var r, q, u := t.right, t.right.left, TurnedRightLeft(t);
    assert Avl(q) && Height(q) == Height(r) - 1 == Height(t.left) + 1;
    assert Avl(u.left) && Height(u.left) == Height(r) - 1;
    assert Avl(u.right) && Height(u.right) == Height(r) - 1;
  }

  ghost predicate Tall(t: Shape, left: bool) {
    if left then LeftTall(t) else RightTall(t)
  }

  predicate CanTurn(t: Shape, left: bool)
    requires t.Fork?
  {
    if left then CanTurnRight(t) else CanTurnLeft(t)
  }

  function Eased(t: Shape, left: bool): Shape
    requires t.Fork? && CanTurn(t, left)
  {
    if left then LeftEased(t) else RightEased(t)
  }

  // ---------- the path above a repair ----------

  /** The path was balanced when its hole held a subtree of height h. */
  ghost predicate PathAvl(c: Path, h: int) {
    match c
    case Top => true
    case InLeft(up, _, _, _, e, r) =>
      Avl(r) && e == Height(r) - h && -1 <= e <= 1 && PathAvl(up, 1 + Max(h, Height(r)))
    case InRight(up, l, _, _, _, e) =>
      Avl(l) && e == h - Height(l) && -1 <= e <= 1 && PathAvl(up, 1 + Max(Height(l), h))
  }

  lemma {:induction false} Unplug(c: Path, t: Shape)
    requires Avl(Plug(c, t))
    ensures Avl(t) && PathAvl(c, Height(t))
    decreases c
  {
    if !c.Top? {
      Unplug(c.up, PlugOne(c, t));
    }
  }

  lemma {:induction false} Replug(c: Path, t: Shape)
    requires Avl(t) && PathAvl(c, Height(t))
    ensures Avl(Plug(c, t))
    decreases c
  {
    if !c.Top? {
      Replug(c.up, PlugOne(c, t));
    }
  }

  /** q is the owner of the lowest uneven node of the path, or null. */
  ghost predicate Deepest(c: Path, q: Node?) {
    if c.Top? then q == null else if c.extra != 0 then q == c.node else Deepest(c.up, q)
  }

  lemma {:induction false} DeepestInPath(c: Path, q: Node)
    requires Deepest(c, q)
    ensures q in PathNodes(c)
    decreases c
  {
    if c.extra == 0 {
      DeepestInPath(c.up, q);
    }
  }

  /** Below a node that grew by one: an even node passes the growth on, an uneven one absorbs it. */
  lemma GrownStep(c: Path, t: Shape)
    requires !c.Top? && Avl(t) && PathAvl(c, Height(t) - 1) && t.Fork? && (Height(t) == 1 || t.extra != 0)
    ensures PlugOne(c, t).Fork? && Tall(PlugOne(c, t), c.InLeft?) && CanTurn(PlugOne(c, t), c.InLeft?)
    ensures var u := PlugOne(c, t);
            var v := Eased(u, c.InLeft?);
            && Avl(v) && v.Fork? && InOrder(v) == InOrder(u) && Nodes(v) == Nodes(u)
            && (c.extra == 0 ==> PathAvl(c.up, Height(v) - 1) && v.extra != 0)
            && (c.extra != 0 ==> PathAvl(c.up, Height(v)))
    ensures c.extra == (if c.InLeft? then -1 else 1) ==> t.extra != 0
  {
    hide InOrder, Nodes, LeftEased, RightEased, CanTurnLeft, CanTurnRight;
    var u := PlugOne(c, t);
    var other := if c.InLeft? then c.right else c.left;
    HeightNatural(other);
    if c.InLeft? {
      LeftEasedAvl(u);
      HeightNatural(LeftEased(u));
      if c.extra == 0 { EasedEven(u, true); }
    } else {
      RightEasedAvl(u);
      HeightNatural(RightEased(u));
      if c.extra == 0 { EasedEven(u, false); }
    }
  }

  lemma EasedEven(u: Shape, left: bool)
    requires u.Fork? && u.extra == 0
    ensures CanTurn(u, left) && Eased(u, left) == u.(extra := if left then -1 else 1)
  {
  }

  /** The climb of a removal stops here. */
  predicate Stops(u: Shape, left: bool)
    requires u.Fork? && CanTurn(u, left)
  {
    || u.extra == 0
    || (left && u.extra == -1 && u.left.extra == 0)
    || (!left && u.extra == 1 && u.right.extra == 0)
  }

  /** Below a node that shrank by one: the climb stops exactly when the height came out unchanged. */
  lemma ShrunkStep(c: Path, t: Shape)
    requires !c.Top? && Avl(t) && PathAvl(c, Height(t) + 1)
    ensures PlugOne(c, t).Fork? && Tall(PlugOne(c, t), c.InRight?) && CanTurn(PlugOne(c, t), c.InRight?)
    ensures var u := PlugOne(c, t);
            var v := Eased(u, c.InRight?);
            && Avl(v) && v.Fork? && InOrder(v) == InOrder(u) && Nodes(v) == Nodes(u)
            && PathAvl(c.up, if Stops(u, c.InRight?) then Height(v) else Height(v) + 1)
  {
    hide Avl, PathAvl, InOrder, Nodes, LeftEased, RightEased, CanTurnLeft, CanTurnRight, LeftTall, RightTall, Height;
    hide Stops, Eased, Tall;
    if c.InRight? {
      ShrunkRight(c, t);
    } else {
      ShrunkLeft(c, t);
    }
  }

  lemma ShrunkRight(c: Path, t: Shape)
    requires c.InRight? && Avl(t) && PathAvl(c, Height(t) + 1)
    ensures PlugOne(c, t).Fork? && Tall(PlugOne(c, t), true) && CanTurn(PlugOne(c, t), true)
    ensures var u := PlugOne(c, t);
            var v := Eased(u, true);
            && Avl(v) && v.Fork? && InOrder(v) == InOrder(u) && Nodes(v) == Nodes(u)
            && PathAvl(c.up, if Stops(u, true) then Height(v) else Height(v) + 1)
  {
    hide InOrder, Nodes, LeftEased, CanTurnLeft, CanTurnRight;
    var u := PlugOne(c, t);
    HeightNatural(c.left);
    HeightNatural(t);
    LeftEasedAvl(u);
    HeightNatural(LeftEased(u));
  }

  lemma ShrunkLeft(c: Path, t: Shape)
    requires c.InLeft? && Avl(t) && PathAvl(c, Height(t) + 1)
    ensures PlugOne(c, t).Fork? && Tall(PlugOne(c, t), false) && CanTurn(PlugOne(c, t), false)
    ensures var u := PlugOne(c, t);
            var v := Eased(u, false);
            && Avl(v) && v.Fork? && InOrder(v) == InOrder(u) && Nodes(v) == Nodes(u)
            && PathAvl(c.up, if Stops(u, false) then Height(v) else Height(v) + 1)
  {
    hide InOrder, Nodes, RightEased, CanTurnLeft, CanTurnRight;
    var u := PlugOne(c, t);
    HeightNatural(c.right);
    HeightNatural(t);
    RightEasedAvl(u);
    HeightNatural(RightEased(u));
  }

  // ---------- rotations on the heap ----------

  method RotateR(tree: Tree, q: Node, ghost c: Path, ghost t: Shape) returns (even: bool)
    requires Focused(tree, c, t, q) && t.Fork? && t.left.Fork?
    modifies tree`root, Nodes(t)`extra
    modifies Nodes(t)`parent, Nodes(t)`llink, Nodes(t)`rlink, OwnerSet(c)`llink, OwnerSet(c)`rlink
    ensures Focused(tree, c, TurnedRight(t), Root(TurnedRight(t))) && even == (t.left.extra == 0)
    ensures q.parent == Root(TurnedRight(t))
  {
    hide Nodes, PathRep, PathDistinct, PathCell, CellOf, Rep;
    DescendLeft(tree, c, t, q);
    var ql := q.llink;
    DescendLeft(tree, DownLeft(c, t), t.left, ql);
    even := ql.extra == 0;
    ChildNodes(t);
    RotRight(tree, q, c, t);
    MarkRight(tree, q, ql, if even then -1 else 0, if even then 1 else 0, c, t, t.extra, t.left.extra);
    DescendRight(tree, c, TurnedRight(t), ql);
    DescendLeft(tree, DownRight(c, TurnedRight(t)), TurnedRight(t).right, q);
  }

  method RotateL(tree: Tree, q: Node, ghost c: Path, ghost t: Shape) returns (even: bool)
    requires Focused(tree, c, t, q) && t.Fork? && t.right.Fork?
    modifies tree`root, Nodes(t)`extra
    modifies Nodes(t)`parent, Nodes(t)`llink, Nodes(t)`rlink, OwnerSet(c)`llink, OwnerSet(c)`rlink
    ensures Focused(tree, c, TurnedLeft(t), Root(TurnedLeft(t))) && even == (t.right.extra == 0)
    ensures q.parent == Root(TurnedLeft(t))
  {
    hide Nodes, PathRep, PathDistinct, PathCell, CellOf, Rep;
    DescendRight(tree, c, t, q);
    var qr := q.rlink;
    DescendLeft(tree, DownRight(c, t), t.right, qr);
    even := qr.extra == 0;
    ChildNodes(t);
    RotLeft(tree, q, c, t);
    MarkLeft(tree, q, qr, if even then 1 else 0, if even then -1 else 0, c, t, t.extra, t.right.extra);
    DescendLeft(tree, c, TurnedLeft(t), qr);
    DescendLeft(tree, DownLeft(c, TurnedLeft(t)), TurnedLeft(t).left, q);
  }

  method RotateLR(tree: Tree, q: Node, ghost c: Path, ghost t: Shape)
    requires Focused(tree, c, t, q) && t.Fork? && t.left.Fork? && t.left.right.Fork?
    modifies tree`root, Nodes(t)`extra
    modifies Nodes(t)`parent, Nodes(t)`llink, Nodes(t)`rlink, OwnerSet(c)`llink, OwnerSet(c)`rlink
    ensures Focused(tree, c, TurnedLeftRight(t), Root(TurnedLeftRight(t)))
    ensures q.parent == Root(TurnedLeftRight(t))
  {
    hide Nodes, PathRep, PathDistinct, PathCell, CellOf, Rep;
    DescendLeft(tree, c, t, q);
    var ql := q.llink;
    DescendRight(tree, DownLeft(c, t), t.left, ql);
    var qlr := ql.rlink;
    DescendLeft(tree, DownRight(DownLeft(c, t), t.left), t.left.right, qlr);
    var b := qlr.extra;
    ThreeNodes(t, t.left, t.left.right);
    RotLeftRight(tree, q, c, t);
    MarkDoubleRight(tree, q, ql, qlr, if b == -1 then 1 else 0, if b == 1 then -1 else 0, 0, c, t);
    DescendRight(tree, c, TurnedLeftRight(t), qlr);
    DescendLeft(tree, DownRight(c, TurnedLeftRight(t)), TurnedLeftRight(t).right, q);
  }

  method RotateRL(tree: Tree, q: Node, ghost c: Path, ghost t: Shape)
    requires Focused(tree, c, t, q) && t.Fork? && t.right.Fork? && t.right.left.Fork?
    modifies tree`root, Nodes(t)`extra
    modifies Nodes(t)`parent, Nodes(t)`llink, Nodes(t)`rlink, OwnerSet(c)`llink, OwnerSet(c)`rlink
    ensures Focused(tree, c, TurnedRightLeft(t), Root(TurnedRightLeft(t)))
    ensures q.parent == Root(TurnedRightLeft(t))
  {
    hide Nodes, PathRep, PathDistinct, PathCell, CellOf, Rep;
    DescendRight(tree, c, t, q);
    var qr := q.rlink;
    DescendLeft(tree, DownRight(c, t), t.right, qr);
    var qrl := qr.llink;
    DescendLeft(tree, DownLeft(DownRight(c, t), t.right), t.right.left, qrl);
    var b := qrl.extra;
    ThreeNodes(t, t.right, t.right.left);
    RotRightLeft(tree, q, c, t);
    MarkDoubleLeft(tree, q, qr, qrl, if b == 1 then -1 else 0, if b == -1 then 1 else 0, 0, c, t);
    DescendLeft(tree, c, TurnedRightLeft(t), qrl);
    DescendLeft(tree, DownLeft(c, TurnedRightLeft(t)), TurnedRightLeft(t).left, q);
  }

  // ---------- inserting ----------

  /** The descent of hb_tree_insert, which remembers the lowest uneven ancestor. */
  method Descend(tree: Tree, key: int)
    returns (node: Node?, parent: Node?, q: Node?, left: bool, ghost c: Path, ghost t: Shape)
    requires Valid(tree)
    ensures Valid(tree)
    ensures Focused(tree, c, t, node) && Plug(c, t) == tree.shape && parent == Owner(c) && Between(c, key)
    ensures node != null ==> t.Fork? && node == t.node && node.key == key == t.key
    ensures node == null ==> t == Leaf && Deepest(c, q)
    ensures parent != null ==> (left <==> c.InLeft?)
  {
    hide Focused, Ascending, Between;
    node, parent, q, left, c, t := tree.root, null, null, false, Top, tree.shape;
    TopBetween(key);
    PlugInOrder(c, t);
    while node != null
      invariant Valid(tree)
      invariant Focused(tree, c, t, node) && Plug(c, t) == tree.shape && parent == Owner(c)
      invariant Between(c, key) && Ascending(Before(c) + InOrder(t) + After(c)) && Deepest(c, q)
      invariant parent != null ==> (left <==> c.InLeft?)
      decreases t
    {
      FocusRoot(tree, c, t, node);
      DescendLeft(tree, c, t, node);
      DescendRight(tree, c, t, node);
      if key < node.key {
        NarrowLeft(c, t, key);
        parent, node, left := node, node.llink, true;
        c, t := DownLeft(c, t), t.left;
      } else if key > node.key {
        NarrowRight(c, t, key);
        parent, node, left := node, node.rlink, false;
        c, t := DownRight(c, t), t.right;
      } else {
        return;
      }
      if parent.extra != 0 {
        q := parent;
      }
      PlugInOrder(c, t);
    }
    FocusRoot(tree, c, t, node);
  }

  /** The ancestors below q are even and pass the growth on; q absorbs it. */
  method Grow(tree: Tree, add: Node, start: Node?, q: Node?, ghost path: Path, ghost below: Shape)
    returns (ghost t: Shape)
    requires Focused(tree, path, below, add) && start == Owner(path) && Deepest(path, q)
    requires Avl(below) && Height(below) == 1 && PathAvl(path, 0)
    modifies tree`root
    modifies (PathNodes(path) + Nodes(below))`extra, (PathNodes(path) + Nodes(below))`parent
    modifies (PathNodes(path) + Nodes(below))`llink, (PathNodes(path) + Nodes(below))`rlink
    ensures Focused(tree, Top, t, tree.root) && Avl(t)
    ensures InOrder(t) == Before(path) + InOrder(below) + After(path)
    ensures Nodes(t) == PathNodes(path) + Nodes(below)
  {
    hide Avl, Nodes, PathNodes, Before, After, InOrder, Focused, OwnerSet, LeftEased, RightEased, Height, Plug;
    var node: Node, parent: Node? := add, start;
    ghost var c := path;
    t := below;
    HeightNatural(t);
    while parent != q
      invariant Focused(tree, c, t, node) && parent == Owner(c) && Deepest(c, q)
      invariant Avl(t) && PathAvl(c, Height(t) - 1) && t.Fork? && (Height(t) == 1 || t.extra != 0)
      invariant Before(c) + InOrder(t) + After(c) == Before(path) + InOrder(below) + After(path)
      invariant PathNodes(c) + Nodes(t) == PathNodes(path) + Nodes(below)
      decreases c
    {
      StepUp(tree, c, t, node);
      PathNodesUp(c);
      UpSide(tree, c, t, node);
      GrownStep(c, t);
      assert parent.extra == 0;
      ghost var u := PlugOne(c, t);
      EasedEven(u, c.InLeft?);
      SetExtra(tree, parent, if parent.llink == node then -1 else 1, c.up, u);
      c, t := c.up, Eased(u, c.InLeft?);
      node := parent;
      parent := parent.parent;
    }
    if q != null {
      StepUp(tree, c, t, node);
      PathNodesUp(c);
      UpSide(tree, c, t, node);
      GrownStep(c, t);
      PathDistinctAt(tree, c, t, node);
      DeepestUneven(c, q);
      ghost var v := Eased(PlugOne(c, t), c.InLeft?);
      Absorb(tree, q, node, c.up, PlugOne(c, t), c.InLeft?);
      c, t := c.up, v;
    } else {
      FocusRoot(tree, c, t, node);
    }
    Rise(tree, c, t, Root(t));
    Replug(c, t);
    PlugInOrder(c, t);
    PlugNodes(c, t);
    t := Plug(c, t);
  }

  lemma DeepestUneven(c: Path, q: Node)
    requires Deepest(c, q) && Owner(c) == q && PathDistinct(c)
    ensures c.extra != 0
  {
    if c.extra == 0 {
      DeepestInPath(c.up, q);
    }
  }

  /** The last step of an insertion: q evens out or is rotated. */
  method Absorb(tree: Tree, q: Node, node: Node, ghost c: Path, ghost t: Shape, ghost left: bool)
    requires Focused(tree, c, t, q) && t.Fork? && Tall(t, left) && t.extra != 0
    requires q.llink == node <==> left
    requires left && t.extra == -1 ==> t.left.Fork? && t.left.extra != 0
    requires !left && t.extra == 1 ==> t.right.Fork? && t.right.extra != 0
    modifies tree`root, Nodes(t)`extra
    modifies Nodes(t)`parent, Nodes(t)`llink, Nodes(t)`rlink, OwnerSet(c)`llink, OwnerSet(c)`rlink
    ensures CanTurn(t, left) && Focused(tree, c, Eased(t, left), Root(Eased(t, left)))
  {
    hide Nodes, PathRep, PathDistinct, PathCell, CellOf, Rep, Avl, Height, InOrder;
    hide TurnedLeft, TurnedRight, TurnedLeftRight, TurnedRightLeft;
    DescendLeft(tree, c, t, q);
    DescendRight(tree, c, t, q);
    ChildNodes(t);
    if q.llink == node {
      LeftEasedAvl(t);
      if q.extra == -1 {
        DescendLeft(tree, DownLeft(c, t), t.left, q.llink);
        if q.llink.extra == 1 {
          RotateLR(tree, q, c, t);
        } else {
          var even := RotateR(tree, q, c, t);
          assert !even;
        }
      } else {
        assert q.extra == 1;
        SetExtra(tree, q, 0, c, t);
      }
    } else {
      RightEasedAvl(t);
      if q.extra == 1 {
        DescendRight(tree, DownRight(c, t), t.right, q.rlink);
        if q.rlink.extra == -1 {
          RotateRL(tree, q, c, t);
        } else {
          var even := RotateL(tree, q, c, t);
          assert !even;
        }
      } else {
        assert q.extra == -1;
        SetExtra(tree, q, 0, c, t);
      }
    }
  }

  lemma SingleAvl(n: Node, key: int)
    ensures var t := Single(n, key, 0, 0);
            Avl(t) && Height(t) == 1 && InOrder(t) == [(key, 0)] && Nodes(t) == {n}
    ensures Height(Leaf) == 0
  {
  }

  /** hb_tree_insert: the key's node, and whether it is new. */
  method Insert(tree: Tree, key: int) returns (node: Node, inserted: bool)
    requires Valid(tree) && Avl(tree.shape)
    modifies tree, Nodes(tree.shape)
    ensures Valid(tree) && Avl(tree.shape)
    ensures inserted <==> !HasKey(old(Contents(tree)), key)
    ensures Contents(tree) == if inserted then WithEntry(old(Contents(tree)), key, 0) else old(Contents(tree))
    ensures node in Nodes(tree.shape) && node.key == key
    ensures fresh(Nodes(tree.shape) - old(Nodes(tree.shape)))
  {
    hide Avl, InOrder, Before, After, Nodes, PathNodes, Focused, Ascending, PathAvl, Deepest;
    ghost var shape := tree.shape;
    var found, parent, q, left, c, t := Descend(tree, key);
    PlugNodes(c, t);
    if found != null {
      LocatedEntry(c, t);
      ChildNodes(t);
      return found, false;
    }
    LeafInserted(shape, c, key);
    Unplug(c, Leaf);
    NoNodes();
    PathAllocated(c);
    OwnerInSet(c);
    node := new Node(key, 0);
    Attach(tree, parent, left, node, c);
    t := Single(node, key, 0, 0);
    SingleAvl(node, key);
    t := Grow(tree, node, parent, q, c, t);
    InOrderSize(shape);
    Finish(tree, 1, t);
    inserted := true;
  }

  // ---------- removing ----------

  /** One level of the climb of a removal, the left subtree having shrunk. */
  method EaseLeftShrunk(tree: Tree, p: Node, ghost c: Path, ghost t: Shape) returns (node: Node?, stop: bool)
    requires Focused(tree, c, t, p) && t.Fork? && RightTall(t)
    modifies tree`root, Nodes(t)`extra
    modifies Nodes(t)`parent, Nodes(t)`llink, Nodes(t)`rlink, OwnerSet(c)`llink, OwnerSet(c)`rlink
    ensures CanTurnLeft(t) && Focused(tree, c, RightEased(t), node) && (stop <==> Stops(t, false))
  {
    hide Nodes, PathRep, PathDistinct, PathCell, CellOf, Rep, Avl, Height, InOrder;
    hide TurnedLeft, TurnedRightLeft;
    DescendRight(tree, c, t, p);
    ChildNodes(t);
    RightEasedAvl(t);
    if p.extra == 1 {
      DescendRight(tree, DownRight(c, t), t.right, p.rlink);
      if p.rlink.extra == -1 {
        RotateRL(tree, p, c, t);
        stop := false;
      } else {
        stop := RotateL(tree, p, c, t);
      }
      node := p.parent;
    } else if p.extra == -1 {
      SetExtra(tree, p, 0, c, t);
      node, stop := p, false;
    } else {
      assert p.extra == 0;
      SetExtra(tree, p, 1, c, t);
      node, stop := p, true;
    }
  }

  method EaseRightShrunk(tree: Tree, p: Node, ghost c: Path, ghost t: Shape) returns (node: Node?, stop: bool)
    requires Focused(tree, c, t, p) && t.Fork? && LeftTall(t)
    modifies tree`root, Nodes(t)`extra
    modifies Nodes(t)`parent, Nodes(t)`llink, Nodes(t)`rlink, OwnerSet(c)`llink, OwnerSet(c)`rlink
    ensures CanTurnRight(t) && Focused(tree, c, LeftEased(t), node) && (stop <==> Stops(t, true))
  {
    hide Nodes, PathRep, PathDistinct, PathCell, CellOf, Rep, Avl, Height, InOrder;
    hide TurnedRight, TurnedLeftRight;
    DescendLeft(tree, c, t, p);
    ChildNodes(t);
    LeftEasedAvl(t);
    if p.extra == -1 {
      DescendLeft(tree, DownLeft(c, t), t.left, p.llink);
      if p.llink.extra == 1 {
        RotateLR(tree, p, c, t);
        stop := false;
      } else {
        stop := RotateR(tree, p, c, t);
      }
      node := p.parent;
    } else if p.extra == 1 {
      SetExtra(tree, p, 0, c, t);
      node, stop := p, false;
    } else {
      assert p.extra == 0;
      SetExtra(tree, p, -1, c, t);
      node, stop := p, true;
    }
  }

  /** The climb of a removal: it goes on exactly as long as the subtree below came out one lower. */
  method Shrink(tree: Tree, child: Node?, start: Node?, fromLeft: bool, ghost path: Path, ghost below: Shape)
    returns (ghost t: Shape)
    requires Focused(tree, path, below, child) && start == Owner(path) && (fromLeft <==> path.InLeft?)
    requires Avl(below) && PathAvl(path, Height(below) + 1)
    modifies tree`root
    modifies (PathNodes(path) + Nodes(below))`extra, (PathNodes(path) + Nodes(below))`parent
    modifies (PathNodes(path) + Nodes(below))`llink, (PathNodes(path) + Nodes(below))`rlink
    ensures Focused(tree, Top, t, tree.root) && Avl(t)
    ensures InOrder(t) == Before(path) + InOrder(below) + After(path)
    ensures Nodes(t) == PathNodes(path) + Nodes(below)
  {
    hide Avl, Nodes, PathNodes, Before, After, InOrder, Focused, OwnerSet, LeftEased, RightEased, Height, Plug, Stops;
    var node, p, left, stop := child, start, fromLeft, false;
    ghost var c := path;
    t := below;
    while p != null && !stop
      invariant Focused(tree, c, t, node) && (p == Owner(c) || stop) && (p != null && !stop ==> (left <==> c.InLeft?))
      invariant Avl(t) && PathAvl(c, if stop then Height(t) else Height(t) + 1)
      invariant Before(c) + InOrder(t) + After(c) == Before(path) + InOrder(below) + After(path)
      invariant PathNodes(c) + Nodes(t) == PathNodes(path) + Nodes(below)
      decreases c, !stop
    {
      StepUp(tree, c, t, node);
      PathNodesUp(c);
      ShrunkStep(c, t);
      ghost var u, v := PlugOne(c, t), Eased(PlugOne(c, t), c.InRight?);
      if left {
        node, stop := EaseLeftShrunk(tree, p, c.up, u);
      } else {
        node, stop := EaseRightShrunk(tree, p, c.up, u);
      }
      c, t := c.up, v;
      DescendLeft(tree, c, t, node);
      p := node.parent;
      if p != null {
        UpSide(tree, c, t, node);
        left := p.llink == node;
      }
    }
    TopBalanced(c, t);
    Rise(tree, c, t, node);
    Replug(c, t);
    PlugInOrder(c, t);
    PlugNodes(c, t);
    t := Plug(c, t);
  }

  lemma TopBalanced(c: Path, t: Shape)
    requires c.Top? || PathAvl(c, Height(t))
    ensures PathAvl(c, Height(t))
  {
  }

  lemma {:induction false} RekeyedAvl(c: Path, n: Node, k: int, d: int, h: int)
    requires PathAvl(c, h)
    ensures PathAvl(Rekeyed(c, n, k, d), h)
    decreases c
  {
    match c
    case Top =>
    case InLeft(up, _, _, _, _, r) => RekeyedAvl(up, n, k, d, 1 + Max(h, Height(r)));
    case InRight(up, l, _, _, _, _) => RekeyedAvl(up, n, k, d, 1 + Max(Height(l), h));
  }

  lemma SplicedHeight(shape: Shape, from: Path, out: Shape, c: Path, node: Node)
    requires Avl(shape) && Plug(from, out) == shape
    requires out.Fork? && (out.left == Leaf || out.right == Leaf) && SameSkeleton(from, c, node, out)
    ensures Avl(OnlyChild(out)) && PathAvl(c, Height(OnlyChild(out)) + 1)
  {
    Unplug(from, out);
    HeightNatural(out.left);
    HeightNatural(out.right);
    RekeyedAvl(from, node, out.key, out.datum, Height(out));
  }

  /** hb_tree_remove. */
  method Remove(tree: Tree, key: int) returns (result: MaybeEntry)
    requires Valid(tree) && Avl(tree.shape)
    modifies tree, Nodes(tree.shape)
    ensures Valid(tree) && Avl(tree.shape)
    ensures result == Removing(old(Contents(tree)), key)
    ensures Contents(tree) == Remaining(old(Contents(tree)), key)
    ensures Nodes(tree.shape) <= old(Nodes(tree.shape))
  {
    hide Avl, InOrder, Before, After, Nodes, PathNodes, Focused, Ascending, Plug, SameSkeleton;
    ghost var shape := tree.shape;
    var node, _, _, c, t := Locate(tree, key);
    PlugNodes(c, t);
    if node == null {
      NothingTaken(shape, c, key);
      return NoEntry;
    }
    EntryTaken(shape, c, t);
    DescendLeft(tree, c, t, node);
    result := Entry(node.key, node.datum);
    var child, parent, left, _, from, out, up := TakeOut(tree, node, node.extra != 1, c, t);
    SplicedHeight(shape, from, out, up, node);
    ghost var after := Shrink(tree, child, parent, left, up, OnlyChild(out));
    InOrderSize(shape);
    Finish(tree, -1, after);
  }
}
