/**
 Path-reduction trees: a node is rotated exactly when one of four rotations shortens its paths, and recursively.

 The internal path length of a tree is the sum of the levels of its nodes.  Paths counts it node by node, as the
 sum of the sizes of all subtrees (PathLengthIs), so that what a rotation changes is a difference of two
 weights: LeftTurnChanges and its three companions give that difference exactly.  Since fixup compares these
 same weights, it stays where it is if and only if none of the four rotations would help.

 That is also why fixup ends.  After a rotation it is called on subtrees, which are smaller, and after a single
 rotation once more on the whole, which is no smaller but has strictly shorter paths.  Fixed is the shape it
 returns, by recursion on size and path length.

 Reduced is the condition at one node that the C checker looks for, PathReduced the same at every node.  The
 climb hands fixup a node whose subtrees are reduced, whatever their weights.  SingleReady says what is left
 to do after a single rotation; DoubleReady says why the root of a double rotation, which
 fixup does not visit again, is reduced whatever becomes of its two subtrees; FixedReduces concludes.  The
 heaviest child never gets heavier, which is the fact that the recursion passes upwards.
 */
module PrTree {
  import opened Dictionary
  import opened TreeCommon
  import opened TreeRemoval
  import opened Weights

  /** node_path_length: the levels of all nodes, the root being at the given level. */
  function PathLength(t: Shape, level: nat): nat {
    if t.Leaf? then 0 else level + PathLength(t.left, level + 1) + PathLength(t.right, level + 1)
  }

  /** The same, node by node: each node adds one to the path of every node below it and of itself. */
  function Paths(t: Shape): nat {
    if t.Leaf? then 0 else Paths(t.left) + Size(t) + Paths(t.right)
  }

  lemma {:induction false} PathLengthIs(t: Shape, level: nat, m: int)
    requires level == m + 1
    ensures PathLength(t, level) == Paths(t) + m * Size(t)
  {
    if t.Fork? {
      PathLengthIs(t.left, level + 1, m + 1);
      PathLengthIs(t.right, level + 1, m + 1);
      Distribute(m, Size(t.left), Size(t.right));
    }
  }

  lemma Distribute(m: int, a: int, b: int)
    ensures m * (a + 1 + b) == m * a + m + m * b
    ensures (m + 1) * a == m * a + a && (m + 1) * b == m * b + b
  {
  }

  /** The condition of node_verify at one node. */
  predicate Reduced(t: Shape) {
    t.Fork? ==>
      var l, r := t.left, t.right;
      && (Weight(r) > Weight(l) ==> r.Fork? && Weight(r.left) <= Weight(l) && Weight(r.right) <= Weight(l))
      && (Weight(l) > Weight(r) ==> l.Fork? && Weight(l.left) <= Weight(r) && Weight(l.right) <= Weight(r))
  }

  ghost predicate PathReduced(t: Shape) {
    t.Fork? ==> Reduced(t) && PathReduced(t.left) && PathReduced(t.right)
  }

  function MaxChild(t: Shape): int
    requires t.Fork?
  {
    if Weight(t.left) >= Weight(t.right) then Weight(t.left) else Weight(t.right)
  }

  /** A path-reduced tree is of bounded balance 1/3. */
  lemma ThirdOnEachSide(t: Shape)
    requires PathReduced(t) && Exact(t) && t.Fork?
    ensures 3 * Weight(t.left) >= t.extra && 3 * Weight(t.right) >= t.extra
  {
    ExactParts(t);
  }

  // ---------- fixup ----------

  function TurnedLeft(t: Shape): Shape
    requires t.Fork? && t.right.Fork?
  {
    var e := Weight(t.left) + Weight(t.right.left);
    LeftRotation(t, e, e + Weight(t.right.right))
  }

  function TurnedRight(t: Shape): Shape
    requires t.Fork? && t.left.Fork?
  {
    var e := Weight(t.left.right) + Weight(t.right);
    RightRotation(t, e, Weight(t.left.left) + e)
  }

  function TurnedRightLeft(t: Shape): Shape
    requires t.Fork? && t.right.Fork? && t.right.left.Fork?
  {
    var r, q := t.right, t.right.left;
    var e := t.extra + Weight(q.left) - r.extra;
    var f := r.extra + Weight(q.right) - q.extra;
    DoubleLeftRotation(t, e, f, e + f)
  }

  function TurnedLeftRight(t: Shape): Shape
    requires t.Fork? && t.left.Fork? && t.left.right.Fork?
  {
    var l, q := t.left, t.left.right;
    var e := t.extra + Weight(q.right) - l.extra;
    var f := l.extra + Weight(q.left) - q.extra;
    DoubleRightRotation(t, e, f, e + f)
  }

  /** What any of the four rotations gives: the same nodes in the same order and exact weights. */
  ghost predicate Rearranged(u: Shape, t: Shape) {
    && u.Fork? && Exact(u) && Size(u) == Size(t)
    && InOrder(u) == InOrder(t) && Nodes(u) == Nodes(t)
  }

  /** What a rotation made by fixup gives: shorter paths besides. */
  ghost predicate Shortened(u: Shape, t: Shape) {
    Rearranged(u, t) && Paths(u) < Paths(t)
  }

  lemma ExactParts(t: Shape)
    requires Exact(t) && t.Fork?
    ensures Exact(t.left) && Exact(t.right)
    ensures Weight(t) == Size(t) + 1 && Weight(t.left) == Size(t.left) + 1 && Weight(t.right) == Size(t.right) + 1
    ensures Size(t) == Size(t.left) + 1 + Size(t.right)
    ensures Weight(t.left) > 1 <==> t.left.Fork?
    ensures Weight(t.right) > 1 <==> t.right.Fork?
  {
    ExactWeight(t);
    ExactWeight(t.left);
    ExactWeight(t.right);
  }

  lemma PathsOf(t: Shape)
    requires t.Fork?
    ensures Paths(t) == Paths(t.left) + Size(t) + Paths(t.right) && Size(t) == Size(t.left) + 1 + Size(t.right)
  {
  }

  lemma LeftTurnShortens(t: Shape)
    requires Exact(t) && t.Fork? && t.right.Fork? && Weight(t.right.right) > Weight(t.left)
    ensures Shortened(TurnedLeft(t), t)
  {
    LeftTurnChanges(t);
  }

  lemma LeftTurnChanges(t: Shape)
    requires Exact(t) && t.Fork? && t.right.Fork?
    ensures Rearranged(TurnedLeft(t), t)
    ensures Paths(TurnedLeft(t)) == Paths(t) + Weight(t.left) - Weight(t.right.right)
  {
    hide InOrder, Nodes, External, Paths;
    ExactParts(t);
    ExactParts(t.right);
    var u := TurnedLeft(t);
    LeftRotationOrder(t, u.left.extra, u.extra);
    assert Exact(u.left) && Exact(u);
    PathsOf(t);
    PathsOf(t.right);
    PathsOf(u);
    PathsOf(u.left);
  }

  lemma RightTurnShortens(t: Shape)
    requires Exact(t) && t.Fork? && t.left.Fork? && Weight(t.left.left) > Weight(t.right)
    ensures Shortened(TurnedRight(t), t)
  {
    RightTurnChanges(t);
  }

  lemma RightTurnChanges(t: Shape)
    requires Exact(t) && t.Fork? && t.left.Fork?
    ensures Rearranged(TurnedRight(t), t)
    ensures Paths(TurnedRight(t)) == Paths(t) + Weight(t.right) - Weight(t.left.left)
  {
    hide InOrder, Nodes, External, Paths;
    ExactParts(t);
    ExactParts(t.left);
    var u := TurnedRight(t);
    RightRotationOrder(t, u.right.extra, u.extra);
    assert Exact(u.right) && Exact(u);
    PathsOf(t);
    PathsOf(t.left);
    PathsOf(u);
    PathsOf(u.right);
  }

  lemma RightLeftTurnShortens(t: Shape)
    requires Exact(t) && t.Fork? && t.right.Fork? && t.right.left.Fork? && Weight(t.right.left) > Weight(t.left)
    ensures Shortened(TurnedRightLeft(t), t)
  {
    RightLeftTurnChanges(t);
  }

  lemma RightLeftTurnChanges(t: Shape)
    requires Exact(t) && t.Fork? && t.right.Fork? && t.right.left.Fork?
    ensures Rearranged(TurnedRightLeft(t), t)
    ensures Paths(TurnedRightLeft(t)) == Paths(t) + Weight(t.left) - Weight(t.right.left)
  {
    hide InOrder, Nodes;
    var r, q, u := t.right, t.right.left, TurnedRightLeft(t);
    ExactParts(t);
    ExactParts(r);
    ExactParts(q);
    DoubleLeftOrder(t, u.left.extra, u.right.extra, u.extra);
    PathsOf(t);
    PathsOf(r);
    PathsOf(q);
    PathsOf(u);
    PathsOf(u.left);
    PathsOf(u.right);
    hide Paths, External;
    assert Exact(u.left) && Exact(u.right) && Exact(u);
  }

  lemma LeftRightTurnShortens(t: Shape)
    requires Exact(t) && t.Fork? && t.left.Fork? && t.left.right.Fork? && Weight(t.left.right) > Weight(t.right)
    ensures Shortened(TurnedLeftRight(t), t)
  {
    LeftRightTurnChanges(t);
  }

  lemma LeftRightTurnChanges(t: Shape)
    requires Exact(t) && t.Fork? && t.left.Fork? && t.left.right.Fork?
    ensures Rearranged(TurnedLeftRight(t), t)
    ensures Paths(TurnedLeftRight(t)) == Paths(t) + Weight(t.right) - Weight(t.left.right)
  {
    hide InOrder, Nodes;
    var l, q, u := t.left, t.left.right, TurnedLeftRight(t);
    ExactParts(t);
    ExactParts(l);
    ExactParts(q);
    DoubleRightOrder(t, u.right.extra, u.left.extra, u.extra);
    PathsOf(t);
    PathsOf(l);
    PathsOf(q);
    PathsOf(u);
    PathsOf(u.left);
    PathsOf(u.right);
    hide Paths, External;
    assert Exact(u.left) && Exact(u.right) && Exact(u);
  }

  /** The assertion that the heavier child exists, and which of its children do. */
  lemma RightForks(t: Shape)
    requires Exact(t) && t.Fork? && Weight(t.left) < Weight(t.right)
    ensures t.right.Fork?
    ensures Weight(t.right.left) > Weight(t.left) ==> t.right.left.Fork?
  {
    ExactParts(t);
    ExactParts(t.right);
  }

  lemma LeftForks(t: Shape)
    requires Exact(t) && t.Fork? && Weight(t.left) > Weight(t.right)
    ensures t.left.Fork?
    ensures Weight(t.left.right) > Weight(t.right) ==> t.left.right.Fork?
  {
    ExactParts(t);
    ExactParts(t.left);
  }

  lemma SubShorter(u: Shape)
    requires u.Fork? && Exact(u)
    ensures Exact(u.left) && Exact(u.right) && Size(u.left) < Size(u) && Size(u.right) < Size(u)
  {
  }

  lemma NewLeft(u: Shape, v: Shape)
    requires u.Fork? && Exact(u) && Exact(v) && Size(v) == Size(u.left) && Paths(v) <= Paths(u.left)
    ensures Exact(u.(left := v)) && Size(u.(left := v)) == Size(u) && Paths(u.(left := v)) <= Paths(u)
    ensures Weight(v) == Weight(u.left)
  {
    ExactWeight(v);
    ExactWeight(u.left);
  }

  lemma NewRight(u: Shape, v: Shape)
    requires u.Fork? && Exact(u) && Exact(v) && Size(v) == Size(u.right) && Paths(v) <= Paths(u.right)
    ensures Exact(u.(right := v)) && Size(u.(right := v)) == Size(u) && Paths(u.(right := v)) <= Paths(u)
    ensures Weight(v) == Weight(u.right)
  {
    ExactWeight(v);
    ExactWeight(u.right);
  }

  datatype Turn = Stay | Left | Right | RightLeft | LeftRight

  /** The branch fixup takes. */
  function Which(t: Shape): Turn
    requires t.Fork? && Exact(t)
  {
    var l, r := t.left, t.right;
    if Weight(l) < Weight(r) then
      RightForks(t);
      if Weight(r.right) > Weight(l) then Left else if Weight(r.left) > Weight(l) then RightLeft else Stay
    else if Weight(l) > Weight(r) then
      LeftForks(t);
      if Weight(l.left) > Weight(r) then Right else if Weight(l.right) > Weight(r) then LeftRight else Stay
    else
      Stay
  }

  /** fixup leaves a node alone if and only if none of the four rotations that can be made there shortens the paths. */
  lemma StaysWhenNothingShortens(t: Shape)
    requires t.Fork? && Exact(t)
    ensures Which(t) == Stay <==>
              && (t.right.Fork? ==> Paths(TurnedLeft(t)) >= Paths(t))
              && (t.left.Fork? ==> Paths(TurnedRight(t)) >= Paths(t))
              && (t.right.Fork? && t.right.left.Fork? ==> Paths(TurnedRightLeft(t)) >= Paths(t))
              && (t.left.Fork? && t.left.right.Fork? ==> Paths(TurnedLeftRight(t)) >= Paths(t))
  {
    hide Paths, TurnedLeft, TurnedRight, TurnedRightLeft, TurnedLeftRight, Rearranged, Exact, Size;
    ExactParts(t);
    if t.right.Fork? {
      ExactParts(t.right);
      LeftTurnChanges(t);
      if t.right.left.Fork? {
        RightLeftTurnChanges(t);
      }
    }
    if t.left.Fork? {
      ExactParts(t.left);
      RightTurnChanges(t);
      if t.left.right.Fork? {
        LeftRightTurnChanges(t);
      }
    }
  }

  /** The tree after that branch's own rotation. */
  function Turned(t: Shape): (u: Shape)
    requires t.Fork? && Exact(t) && Which(t) != Stay
    ensures Shortened(u, t)
    ensures Which(t) != Right ==> u.left.Fork?
    ensures Which(t) != Left ==> u.right.Fork?
  {
    match Which(t)
    case Left =>
      RightForks(t);
      LeftTurnShortens(t);
      TurnedLeft(t)
    case Right =>
      LeftForks(t);
      RightTurnShortens(t);
      TurnedRight(t)
    case RightLeft =>
      RightForks(t);
      RightLeftTurnShortens(t);
      TurnedRightLeft(t)
    case LeftRight =>
      LeftForks(t);
      LeftRightTurnShortens(t);
      TurnedLeftRight(t)
  }

  /** fixup, whose two recursive calls work on subtrees that are smaller or have shorter paths. */
  function Fixed(t: Shape): (u: Shape)
    requires t.Fork? && Exact(t)
    ensures u.Fork? && Exact(u) && Size(u) == Size(t) && Paths(u) <= Paths(t)
    decreases Size(t), Paths(t)
  {
    if Which(t) == Stay then
      t
    else
      var u := Turned(t);
      SubShorter(u);
      if Which(t) == Left then
        NewLeft(u, Fixed(u.left));
        Fixed(u.(left := Fixed(u.left)))
      else if Which(t) == Right then
        NewRight(u, Fixed(u.right));
        Fixed(u.(right := Fixed(u.right)))
      else
        NewRight(u, Fixed(u.right));
        NewLeft(u.(right := Fixed(u.right)), Fixed(u.left));
        u.(left := Fixed(u.left), right := Fixed(u.right))
  }

  lemma SubKeeps(u: Shape, v: Shape, w: Shape)
    requires u.Fork? && InOrder(v) == InOrder(u.left) && Nodes(v) == Nodes(u.left)
    requires InOrder(w) == InOrder(u.right) && Nodes(w) == Nodes(u.right)
    ensures InOrder(u.(left := v, right := w)) == InOrder(u) && Nodes(u.(left := v, right := w)) == Nodes(u)
  {
  }

  lemma {:induction false} FixedKeeps(t: Shape)
    requires t.Fork? && Exact(t)
    ensures InOrder(Fixed(t)) == InOrder(t) && Nodes(Fixed(t)) == Nodes(t)
    decreases Size(t), Paths(t)
  {
    hide InOrder, Nodes, Turned, Exact, Size, Paths, Which;
    if Which(t) != Stay {
      var u := Turned(t);
      SubShorter(u);
      if Which(t) == Left {
        FixedKeeps(u.left);
        NewLeft(u, Fixed(u.left));
        SubKeeps(u, Fixed(u.left), u.right);
        FixedKeeps(u.(left := Fixed(u.left)));
      } else if Which(t) == Right {
        FixedKeeps(u.right);
        NewRight(u, Fixed(u.right));
        SubKeeps(u, u.left, Fixed(u.right));
        FixedKeeps(u.(right := Fixed(u.right)));
      } else {
        FixedKeeps(u.left);
        FixedKeeps(u.right);
        SubKeeps(u, Fixed(u.left), Fixed(u.right));
      }
    }
  }

  lemma StayReduced(t: Shape)
    requires t.Fork? && Exact(t) && Which(t) == Stay && PathReduced(t.left) && PathReduced(t.right)
    ensures PathReduced(t)
  {
    if Weight(t.left) < Weight(t.right) {
      RightForks(t);
    } else if Weight(t.left) > Weight(t.right) {
      LeftForks(t);
    }
  }

  /** A single rotation leaves subtrees that are themselves ready for fixup. */
  lemma SingleReady(t: Shape)
    requires t.Fork? && Exact(t) && PathReduced(t.left) && PathReduced(t.right)
    requires Which(t) == Left || Which(t) == Right
    ensures var u := Turned(t);
            && MaxChild(u) <= MaxChild(t)
            && (Which(t) == Left ==> PathReduced(u.left.left) && PathReduced(u.left.right) && PathReduced(u.right))
            && (Which(t) == Right ==> PathReduced(u.left) && PathReduced(u.right.left) && PathReduced(u.right.right))
  {
    ExactParts(t);
    if Which(t) == Left {
      RightForks(t);
      ExactParts(t.right);
    } else {
      LeftForks(t);
      ExactParts(t.left);
    }
  }

  ghost predicate Ready(u: Shape, t: Shape)
    requires t.Fork?
  {
    && u.Fork? && u.left.Fork? && u.right.Fork?
    && PathReduced(u.left.left) && PathReduced(u.left.right)
    && PathReduced(u.right.left) && PathReduced(u.right.right)
    && MaxChild(u.left) <= Weight(u.right) && MaxChild(u.right) <= Weight(u.left) && MaxChild(u) <= MaxChild(t)
  }

  lemma RightLeftIs(t: Shape)
    requires t.Fork? && Exact(t) && Which(t) == RightLeft
    ensures t.right.Fork? && t.right.left.Fork? && Turned(t) == TurnedRightLeft(t)
    ensures Weight(t.left) < Weight(t.right) && Weight(t.right.right) <= Weight(t.left) < Weight(t.right.left)
    ensures t.right.extra == Weight(t.right) && t.extra == Weight(t)
  {
    hide Exact, Size, Paths, InOrder, Nodes, Shortened;
    RightForks(t);
  }

  lemma LeftRightIs(t: Shape)
    requires t.Fork? && Exact(t) && Which(t) == LeftRight
    ensures t.left.Fork? && t.left.right.Fork? && Turned(t) == TurnedLeftRight(t)
    ensures Weight(t.right) < Weight(t.left) && Weight(t.left.left) <= Weight(t.right) < Weight(t.left.right)
    ensures t.left.extra == Weight(t.left) && t.extra == Weight(t)
  {
    hide Exact, Size, Paths, InOrder, Nodes, Shortened;
    LeftForks(t);
  }

  lemma RightLeftReady(t: Shape)
    requires t.Fork? && Exact(t) && PathReduced(t.left) && PathReduced(t.right) && Which(t) == RightLeft
    ensures Ready(Turned(t), t)
  {
    hide Size, Paths, InOrder, Nodes, External, Exact, PathReduced, Which, Turned, Shortened;
    RightLeftIs(t);
    ExactParts(t);
    ExactParts(t.right);
    ExactParts(t.right.left);
    ReducedParts(t.right);
    ReducedParts(t.right.left);
  }

  lemma LeftRightReady(t: Shape)
    requires t.Fork? && Exact(t) && PathReduced(t.left) && PathReduced(t.right) && Which(t) == LeftRight
    ensures Ready(Turned(t), t)
  {
    hide Size, Paths, InOrder, Nodes, External, Exact, PathReduced, Which, Turned, Shortened;
    LeftRightIs(t);
    ExactParts(t);
    ExactParts(t.left);
    ExactParts(t.left.right);
    ReducedParts(t.left);
    ReducedParts(t.left.right);
  }

  lemma ReducedParts(t: Shape)
    requires PathReduced(t) && t.Fork?
    ensures Reduced(t) && PathReduced(t.left) && PathReduced(t.right)
  {
  }

  /** After a double rotation the new root stays reduced whatever becomes of its two subtrees. */
  lemma DoubleReady(t: Shape)
    requires t.Fork? && Exact(t) && PathReduced(t.left) && PathReduced(t.right)
    requires Which(t) == RightLeft || Which(t) == LeftRight
    ensures Ready(Turned(t), t)
  {
    if Which(t) == RightLeft {
      RightLeftReady(t);
    } else {
      LeftRightReady(t);
    }
  }

  lemma JoinReduced(u: Shape, p: Shape, q: Shape)
    requires u.Fork? && PathReduced(p) && PathReduced(q) && p.Fork? && q.Fork? && Exact(p) && Exact(q)
    requires Weight(p) == Weight(u.left) && Weight(q) == Weight(u.right)
    requires MaxChild(p) <= Weight(q) && MaxChild(q) <= Weight(p)
    ensures PathReduced(u.(left := p, right := q)) && MaxChild(u.(left := p, right := q)) == MaxChild(u)
  {
  }

  /** Once the rotations stop, no child is heavier than the heaviest was before. */
  lemma {:induction false} FixedReduces(t: Shape)
    requires t.Fork? && Exact(t) && PathReduced(t.left) && PathReduced(t.right)
    ensures PathReduced(Fixed(t)) && MaxChild(Fixed(t)) <= MaxChild(t)
    decreases Size(t), Paths(t)
  {
    hide Exact, Size, Paths, Turned, Which, PathReduced, Reduced;
    if Which(t) == Stay {
      StayReduced(t);
    } else {
      var u := Turned(t);
      SubShorter(u);
      if Which(t) == Left {
        SingleReady(t);
        FixedReduces(u.left);
        NewLeft(u, Fixed(u.left));
        FixedReduces(u.(left := Fixed(u.left)));
      } else if Which(t) == Right {
        SingleReady(t);
        FixedReduces(u.right);
        NewRight(u, Fixed(u.right));
        FixedReduces(u.(right := Fixed(u.right)));
      } else {
        DoubleReady(t);
        FixedReduces(u.left);
        FixedReduces(u.right);
        NewLeft(u, Fixed(u.left));
        NewRight(u, Fixed(u.right));
        JoinReduced(u, Fixed(u.left), Fixed(u.right));
      }
    }
  }

  // ---------- fixup on the heap ----------

  /** rot_left, with the weights. */
  method RotLeftAt(tree: Tree, n: Node, ghost c: Path, ghost t: Shape)
    requires Focused(tree, c, t, n) && t.Fork? && t.right.Fork?
    modifies tree`root, Nodes(t)`extra
    modifies Nodes(t)`parent, Nodes(t)`llink, Nodes(t)`rlink, OwnerSet(c)`llink, OwnerSet(c)`rlink
    ensures Focused(tree, c, TurnedLeft(t), t.right.node)
  {
    hide Nodes, Rep, PathRep, PathDistinct;
    FocusRoot(tree, c, t, n);
    ChildNodes(t);
    DescendRight(tree, c, t, n);
    FocusRoot(tree, DownRight(c, t), t.right, n.rlink);
    var nr := n.rlink;
    RotLeft(tree, n, c, t);
    ghost var u := LeftRotation(t, t.extra, t.right.extra);
    ChildWeights(u, nr, Owner(c));
    ChildWeights(u.left, n, nr);
    var e := WeightOf(n.llink) + WeightOf(n.rlink);
    MarkLeft(tree, n, nr, e, e + WeightOf(nr.rlink), c, t, t.extra, t.right.extra);
  }

  /** rot_right, with the weights. */
  method RotRightAt(tree: Tree, n: Node, ghost c: Path, ghost t: Shape)
    requires Focused(tree, c, t, n) && t.Fork? && t.left.Fork?
    modifies tree`root, Nodes(t)`extra
    modifies Nodes(t)`parent, Nodes(t)`llink, Nodes(t)`rlink, OwnerSet(c)`llink, OwnerSet(c)`rlink
    ensures Focused(tree, c, TurnedRight(t), t.left.node)
  {
    hide Nodes, Rep, PathRep, PathDistinct;
    FocusRoot(tree, c, t, n);
    ChildNodes(t);
    DescendLeft(tree, c, t, n);
    FocusRoot(tree, DownLeft(c, t), t.left, n.llink);
    var nl := n.llink;
    RotRight(tree, n, c, t);
    ghost var u := RightRotation(t, t.extra, t.left.extra);
    ChildWeights(u, nl, Owner(c));
    ChildWeights(u.right, n, nl);
    var e := WeightOf(n.llink) + WeightOf(n.rlink);
    MarkRight(tree, n, nl, e, WeightOf(nl.llink) + e, c, t, t.extra, t.left.extra);
  }

  /** The right-left rotation written out in fixup. */
  method RotRightLeftAt(tree: Tree, n: Node, r: Node, rl: Node, ghost c: Path, ghost t: Shape)
    requires Focused(tree, c, t, n) && t.Fork? && t.right.Fork? && t.right.left.Fork?
    requires r == t.right.node && rl == t.right.left.node
    modifies tree`root, Nodes(t)`extra
    modifies Nodes(t)`parent, Nodes(t)`llink, Nodes(t)`rlink, OwnerSet(c)`llink, OwnerSet(c)`rlink
    ensures Focused(tree, c, TurnedRightLeft(t), rl)
  {
    hide Nodes, Rep, PathRep, PathDistinct;
    FocusRoot(tree, c, t, n);
    ThreeNodes(t, t.right, t.right.left);
    RotRightLeft(tree, n, c, t);
    ghost var u := DoubleLeftRotation(t, t.extra, t.right.extra, t.right.left.extra);
    ChildWeights(u, rl, Owner(c));
    ChildWeights(u.left, n, rl);
    ChildWeights(u.right, r, rl);
    var e := n.extra + WeightOf(n.rlink) - r.extra;
    var f := r.extra + WeightOf(r.llink) - rl.extra;
    MarkDoubleLeft(tree, n, r, rl, e, f, e + f, c, t);
  }

  method RotLeftRightAt(tree: Tree, n: Node, l: Node, lr: Node, ghost c: Path, ghost t: Shape)
    requires Focused(tree, c, t, n) && t.Fork? && t.left.Fork? && t.left.right.Fork?
    requires l == t.left.node && lr == t.left.right.node
    modifies tree`root, Nodes(t)`extra
    modifies Nodes(t)`parent, Nodes(t)`llink, Nodes(t)`rlink, OwnerSet(c)`llink, OwnerSet(c)`rlink
    ensures Focused(tree, c, TurnedLeftRight(t), lr)
  {
    hide Nodes, Rep, PathRep, PathDistinct;
    FocusRoot(tree, c, t, n);
    ThreeNodes(t, t.left, t.left.right);
    RotLeftRight(tree, n, c, t);
    ghost var u := DoubleRightRotation(t, t.extra, t.left.extra, t.left.right.extra);
    ChildWeights(u, lr, Owner(c));
    ChildWeights(u.left, l, lr);
    ChildWeights(u.right, n, lr);
    var e := n.extra + WeightOf(n.llink) - l.extra;
    var f := l.extra + WeightOf(l.rlink) - lr.extra;
    MarkDoubleRight(tree, n, l, lr, e, f, e + f, c, t);
  }

  /** Fixing up the left subtree of the focused node. */
  method FixupLeft(tree: Tree, top: Node, n: Node, ghost c: Path, ghost u: Shape)
    requires Focused(tree, c, u, top) && u.Fork? && u.left.Fork? && n == u.left.node && Exact(u.left)
    modifies tree`root, Nodes(u)`extra
    modifies Nodes(u)`parent, Nodes(u)`llink, Nodes(u)`rlink, OwnerSet(c)`llink, OwnerSet(c)`rlink
    ensures Focused(tree, c, u.(left := Fixed(u.left)), top)
    ensures Nodes(u.(left := Fixed(u.left))) == Nodes(u)
    decreases Size(u.left), Paths(u.left), 2
  {
    hide PathRep, PathDistinct, PathCell, CellOf, Rep, Fixed, Exact, Focused;
    DescendLeft(tree, c, u, top);
    FocusRoot(tree, DownLeft(c, u), u.left, top.llink);
    FixedKeeps(u.left);
    SubKeeps(u, Fixed(u.left), u.right);
    Fixup(tree, n, DownLeft(c, u), u.left);
    StepUp(tree, DownLeft(c, u), Fixed(u.left), Root(Fixed(u.left)));
  }

  method FixupRight(tree: Tree, top: Node, n: Node, ghost c: Path, ghost u: Shape)
    requires Focused(tree, c, u, top) && u.Fork? && u.right.Fork? && n == u.right.node && Exact(u.right)
    modifies tree`root, Nodes(u)`extra
    modifies Nodes(u)`parent, Nodes(u)`llink, Nodes(u)`rlink, OwnerSet(c)`llink, OwnerSet(c)`rlink
    ensures Focused(tree, c, u.(right := Fixed(u.right)), top)
    ensures Nodes(u.(right := Fixed(u.right))) == Nodes(u)
    decreases Size(u.right), Paths(u.right), 2
  {
    hide PathRep, PathDistinct, PathCell, CellOf, Rep, Fixed, Exact, Focused;
    DescendRight(tree, c, u, top);
    FocusRoot(tree, DownRight(c, u), u.right, top.rlink);
    FixedKeeps(u.right);
    SubKeeps(u, u.left, Fixed(u.right));
    Fixup(tree, n, DownRight(c, u), u.right);
    StepUp(tree, DownRight(c, u), Fixed(u.right), Root(Fixed(u.right)));
  }

  /** fixup: it terminates, although its second call is on a subtree of the same size. */
  method Fixup(tree: Tree, node: Node, ghost c: Path, ghost t: Shape)
    requires Focused(tree, c, t, node) && t.Fork? && Exact(t)
    modifies tree`root, Nodes(t)`extra
    modifies Nodes(t)`parent, Nodes(t)`llink, Nodes(t)`rlink, OwnerSet(c)`llink, OwnerSet(c)`rlink
    ensures Focused(tree, c, Fixed(t), Root(Fixed(t)))
    decreases Size(t), Paths(t), 1
  {
    hide PathRep, PathDistinct, PathCell, CellOf, Rep, Exact, Focused, Nodes, Turned;
    SeenWeights(tree, c, t, node);
    var lweight, rweight := WeightOf(node.llink), WeightOf(node.rlink);
    if lweight < rweight {
      RightForks(t);
      SeenRight(tree, c, t, node);
      var r := node.rlink;
      if WeightOf(r.rlink) > lweight {
        TurnLeft(tree, node, r, c, t);
      } else if WeightOf(r.llink) > lweight {
        TurnRightLeft(tree, node, r, r.llink, c, t);
      }
    } else if lweight > rweight {
      LeftForks(t);
      SeenLeft(tree, c, t, node);
      var l := node.llink;
      if WeightOf(l.llink) > rweight {
        TurnRight(tree, node, l, c, t);
      } else if WeightOf(l.rlink) > rweight {
        TurnLeftRight(tree, node, l, l.rlink, c, t);
      }
    }
  }

  lemma SeenWeights(tree: Tree, c: Path, t: Shape, x: Node)
    requires Focused(tree, c, t, x) && t.Fork?
    ensures x == t.node && WeightOf(x.llink) == Weight(t.left) && WeightOf(x.rlink) == Weight(t.right)
    ensures x.llink == Root(t.left) && x.rlink == Root(t.right)
  {
    ChildWeights(t, x, Owner(c));
  }

  lemma SeenRight(tree: Tree, c: Path, t: Shape, x: Node)
    requires Focused(tree, c, t, x) && t.Fork? && t.right.Fork?
    ensures x.rlink == t.right.node
    ensures WeightOf(x.rlink.llink) == Weight(t.right.left) && WeightOf(x.rlink.rlink) == Weight(t.right.right)
    ensures x.rlink.llink == Root(t.right.left)
  {
    hide Focused, Rep;
    DescendRight(tree, c, t, x);
    SeenWeights(tree, DownRight(c, t), t.right, x.rlink);
  }

  lemma SeenLeft(tree: Tree, c: Path, t: Shape, x: Node)
    requires Focused(tree, c, t, x) && t.Fork? && t.left.Fork?
    ensures x.llink == t.left.node
    ensures WeightOf(x.llink.llink) == Weight(t.left.left) && WeightOf(x.llink.rlink) == Weight(t.left.right)
    ensures x.llink.rlink == Root(t.left.right)
  {
    hide Focused, Rep;
    DescendLeft(tree, c, t, x);
    SeenWeights(tree, DownLeft(c, t), t.left, x.llink);
  }

  method TurnLeft(tree: Tree, node: Node, r: Node, ghost c: Path, ghost t: Shape)
    requires Focused(tree, c, t, node) && t.Fork? && Exact(t) && Which(t) == Left && t.right.Fork? && r == t.right.node
    modifies tree`root, Nodes(t)`extra
    modifies Nodes(t)`parent, Nodes(t)`llink, Nodes(t)`rlink, OwnerSet(c)`llink, OwnerSet(c)`rlink
    ensures Focused(tree, c, Fixed(t), Root(Fixed(t)))
    decreases Size(t), Paths(t), 0
  {
    hide PathRep, PathDistinct, PathCell, CellOf, Rep, Exact, Focused, Nodes, Size, Paths;
    ghost var u := Turned(t);
    FocusRoot(tree, c, t, node);
    RotLeftAt(tree, node, c, t);
    SubShorter(u);
    NewLeft(u, Fixed(u.left));
    FixupLeft(tree, r, node, c, u);
    Fixup(tree, r, c, u.(left := Fixed(u.left)));
  }

  method TurnRight(tree: Tree, node: Node, l: Node, ghost c: Path, ghost t: Shape)
    requires Focused(tree, c, t, node) && t.Fork? && Exact(t) && Which(t) == Right && t.left.Fork? && l == t.left.node
    modifies tree`root, Nodes(t)`extra
    modifies Nodes(t)`parent, Nodes(t)`llink, Nodes(t)`rlink, OwnerSet(c)`llink, OwnerSet(c)`rlink
    ensures Focused(tree, c, Fixed(t), Root(Fixed(t)))
    decreases Size(t), Paths(t), 0
  {
    hide PathRep, PathDistinct, PathCell, CellOf, Rep, Exact, Focused, Nodes, Size, Paths;
    ghost var u := Turned(t);
    FocusRoot(tree, c, t, node);
    RotRightAt(tree, node, c, t);
    SubShorter(u);
    NewRight(u, Fixed(u.right));
    FixupRight(tree, l, node, c, u);
    Fixup(tree, l, c, u.(right := Fixed(u.right)));
  }

  method TurnRightLeft(tree: Tree, node: Node, r: Node, rl: Node, ghost c: Path, ghost t: Shape)
    requires Focused(tree, c, t, node) && t.Fork? && Exact(t) && Which(t) == RightLeft
    requires t.right.Fork? && r == t.right.node && t.right.left.Fork? && rl == t.right.left.node
    modifies tree`root, Nodes(t)`extra
    modifies Nodes(t)`parent, Nodes(t)`llink, Nodes(t)`rlink, OwnerSet(c)`llink, OwnerSet(c)`rlink
    ensures Focused(tree, c, Fixed(t), Root(Fixed(t)))
    decreases Size(t), Paths(t), 0
  {
    hide PathRep, PathDistinct, PathCell, CellOf, Rep, Exact, Focused, Nodes, Size, Paths;
    ghost var u := Turned(t);
    FocusRoot(tree, c, t, node);
    RotRightLeftAt(tree, node, r, rl, c, t);
    SubShorter(u);
    FixupRight(tree, rl, r, c, u);
    FixupLeft(tree, rl, node, c, u.(right := Fixed(u.right)));
  }

  method TurnLeftRight(tree: Tree, node: Node, l: Node, lr: Node, ghost c: Path, ghost t: Shape)
    requires Focused(tree, c, t, node) && t.Fork? && Exact(t) && Which(t) == LeftRight
    requires t.left.Fork? && l == t.left.node && t.left.right.Fork? && lr == t.left.right.node
    modifies tree`root, Nodes(t)`extra
    modifies Nodes(t)`parent, Nodes(t)`llink, Nodes(t)`rlink, OwnerSet(c)`llink, OwnerSet(c)`rlink
    ensures Focused(tree, c, Fixed(t), Root(Fixed(t)))
    decreases Size(t), Paths(t), 0
  {
    hide PathRep, PathDistinct, PathCell, CellOf, Rep, Exact, Focused, Nodes, Size, Paths;
    ghost var u := Turned(t);
    FocusRoot(tree, c, t, node);
    RotLeftRightAt(tree, node, l, lr, c, t);
    SubShorter(u);
    FixupLeft(tree, lr, l, c, u);
    FixupRight(tree, lr, node, c, u.(left := Fixed(u.left)));
  }

  // ---------- inserting and removing ----------

  /** The path held exact weights when its hole held a subtree of weight w, and reduced trees hang beside it. */
  ghost predicate PathReady(c: Path, w: int) {
    match c
    case Top => true
    case InLeft(up, _, _, _, e, r) => e == w + Weight(r) && Exact(r) && PathReduced(r) && PathReady(up, e)
    case InRight(up, l, _, _, _, e) => e == Weight(l) + w && Exact(l) && PathReduced(l) && PathReady(up, e)
  }

  lemma {:induction false} Unplug(c: Path, t: Shape)
    requires Exact(Plug(c, t)) && PathReduced(Plug(c, t))
    ensures Exact(t) && PathReduced(t) && PathReady(c, Weight(t))
    decreases c
  {
    if !c.Top? {
      Unplug(c.up, PlugOne(c, t));
    }
  }

  lemma StepReady(c: Path, t: Shape, w: int)
    requires !c.Top? && Exact(t) && PathReduced(t) && PathReady(c, w)
    ensures PlugOne(c, t).Fork?
    ensures var v := PlugOne(c, t).(extra := c.extra + Weight(t) - w);
            Exact(v) && PathReduced(v.left) && PathReduced(v.right)
    ensures PathReady(c.up, c.extra)
  {
  }

  /** The climb of insertion and removal: every ancestor's weight moves by delta and is fixed up. */
  method Climb(tree: Tree, start: Node?, delta: int, ghost path: Path, ghost below: Shape, ghost x: Node?)
    returns (ghost t: Shape)
    requires Focused(tree, path, below, x) && start == Owner(path)
    requires Exact(below) && PathReduced(below) && PathReady(path, Weight(below) - delta)
    modifies tree`root
    modifies (PathNodes(path) + Nodes(below))`extra, (PathNodes(path) + Nodes(below))`parent
    modifies (PathNodes(path) + Nodes(below))`llink, (PathNodes(path) + Nodes(below))`rlink
    ensures Focused(tree, Top, t, tree.root) && Exact(t) && PathReduced(t)
    ensures InOrder(t) == Before(path) + InOrder(below) + After(path)
    ensures Nodes(t) == PathNodes(path) + Nodes(below)
  {
    hide PathReduced, Exact, Nodes, PathNodes, Before, After, InOrder, Fixed, Focused, OwnerSet, Size, Paths;
    var parent := start;
    ghost var c, at := path, x;
    t := below;
    while parent != null
      invariant Focused(tree, c, t, at) && parent == Owner(c)
      invariant Exact(t) && PathReduced(t) && PathReady(c, Weight(t) - delta)
      invariant Before(c) + InOrder(t) + After(c) == Before(path) + InOrder(below) + After(path)
      invariant PathNodes(c) + Nodes(t) == PathNodes(path) + Nodes(below)
      decreases c
    {
      StepUp(tree, c, t, at);
      StepReady(c, t, Weight(t) - delta);
      PathNodesUp(c);
      var n := parent;
      parent := n.parent;
      ghost var u := PlugOne(c, t);
      ghost var v := u.(extra := u.extra + delta);
      ExtraIrrelevant(u, u.extra + delta);
      SetExtra(tree, n, n.extra + delta, c.up, u);
      FixedReduces(v);
      FixedKeeps(v);
      FixedWeight(v);
      Fixup(tree, n, c.up, v);
      c, t := c.up, Fixed(v);
      at := Root(t);
    }
    FocusedAtTop(tree, t, at);
    AtTop(c, t);
  }

  lemma FixedWeight(t: Shape)
    requires t.Fork? && Exact(t)
    ensures Weight(Fixed(t)) == t.extra
  {
    ExactWeight(t);
    ExactWeight(Fixed(t));
  }

  lemma SingleReduced(n: Node, key: int)
    ensures var t := Single(n, key, 0, 2);
            && Exact(t) && PathReduced(t) && Weight(t) == Weight(Leaf) + 1
            && InOrder(t) == [(key, 0)] && Nodes(t) == {n}
  {
  }

  /** pr_tree_insert: the key's node, and whether it is new. */
  method Insert(tree: Tree, key: int) returns (node: Node, inserted: bool)
    requires Valid(tree) && Exact(tree.shape) && PathReduced(tree.shape)
    modifies tree, Nodes(tree.shape)
    ensures Valid(tree) && Exact(tree.shape) && PathReduced(tree.shape)
    ensures inserted <==> !HasKey(old(Contents(tree)), key)
    ensures Contents(tree) == if inserted then WithEntry(old(Contents(tree)), key, 0) else old(Contents(tree))
    ensures node in Nodes(tree.shape) && node.key == key
    ensures fresh(Nodes(tree.shape) - old(Nodes(tree.shape)))
  {
    hide Exact, PathReduced, InOrder, Before, After, Nodes, PathNodes, Focused, Ascending, PathReady;
    ghost var shape := tree.shape;
    var found, parent, left, c, t := Locate(tree, key);
    PlugNodes(c, t);
    if found != null {
      LocatedEntry(c, t);
      ChildNodes(t);
      return found, false;
    }
    LeafInserted(shape, c, key);
    Unplug(c, Leaf);
    NoNodes();
    PathAllocated(c);
    OwnerInSet(c);
    node := new Node(key, 2);
    Attach(tree, parent, left, node, c);
    t := Single(node, key, 0, 2);
    SingleReduced(node, key);
    t := Climb(tree, parent, 1, c, t, node);
    InOrderSize(shape);
    Finish(tree, 1, t);
    inserted := true;
  }

  lemma {:induction false} RekeyedReady(c: Path, n: Node, k: int, d: int, w: int)
    requires PathReady(c, w)
    ensures PathReady(Rekeyed(c, n, k, d), w)
    decreases c
  {
    if !c.Top? {
      RekeyedReady(c.up, n, k, d, c.extra);
    }
  }

  lemma SplicedReady(shape: Shape, from: Path, out: Shape, c: Path, node: Node)
    requires Exact(shape) && PathReduced(shape) && Plug(from, out) == shape
    requires out.Fork? && (out.left == Leaf || out.right == Leaf) && SameSkeleton(from, c, node, out)
    ensures Exact(OnlyChild(out)) && PathReduced(OnlyChild(out)) && PathReady(c, Weight(OnlyChild(out)) + 1)
  {
    Unplug(from, out);
    RekeyedReady(from, node, out.key, out.datum, Weight(out));
  }

  /** pr_tree_remove. */
  method Remove(tree: Tree, key: int) returns (result: MaybeEntry)
    requires Valid(tree) && Exact(tree.shape) && PathReduced(tree.shape)
    modifies tree, Nodes(tree.shape)
    ensures Valid(tree) && Exact(tree.shape) && PathReduced(tree.shape)
    ensures result == Removing(old(Contents(tree)), key)
    ensures Contents(tree) == Remaining(old(Contents(tree)), key)
    ensures Nodes(tree.shape) <= old(Nodes(tree.shape))
  {
    hide Exact, PathReduced, InOrder, Before, After, Nodes, PathNodes, Focused, Ascending, Plug, SameSkeleton;
    ghost var shape := tree.shape;
    var node, _, _, c, t := Locate(tree, key);
    PlugNodes(c, t);
    if node == null {
      NothingTaken(shape, c, key);
      return NoEntry;
    }
    EntryTaken(shape, c, t);
    DescendLeft(tree, c, t, node);
    result := Entry(node.key, node.datum);
    var fromLeft := node.llink != null && node.rlink != null && WeightOf(node.llink) > WeightOf(node.rlink);
    var child, parent, _, _, from, out, up := TakeOut(tree, node, fromLeft, c, t);
    SplicedReady(shape, from, out, up, node);
    ghost var after := Climb(tree, parent, -1, up, OnlyChild(out), child);
    InOrderSize(shape);
    Finish(tree, -1, after);
  }

  /** pr_tree_select. */
  method Select(tree: Tree, n: nat) returns (result: MaybeEntry)
    requires Valid(tree) && Exact(tree.shape)
    ensures result == Selected(Contents(tree), n)
  {
    result := SelectByWeight(tree, n);
  }
}
