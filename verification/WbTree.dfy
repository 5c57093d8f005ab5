/**
 Weight-balanced trees: one single or double rotation a level keeps every node within its band.

 The weight of a subtree is its number of external links.  Balanced is the invariant: every weight is exact
 and every left child holds between 292 and 708 thousandths of its parent's weight.  The repair loop works
 with tighter thresholds, 293 and 707, and chooses between single and double rotation at 586 and 414.

 The band is an invariant only because of where an update leaves it.  Disturbed(t) is what fixup is handed:
 both subtrees are balanced and the weights at the top were within the band before one of them grew or
 shrank by one.  Near the boundary the proof therefore needs the weights before the update as well as those
 after it, and for small trees it needs that weights are whole numbers: SingleRestores, DoubleRestores and
 their mirror images are that arithmetic, over the weights of the three or four subtrees that a rotation
 moves.

 FixupRestoresBalance joins them: for every disturbed shape the grandchildren that fixup asserts are there,
 and the shape Fixed(t) is balanced with the same entries, nodes and weight.  Unplug and StepDisturbs carry
 the statement up the path, since a fixed subtree of the new weight disturbs its parent in the same way.
 */
module WbTree {
  import opened Dictionary
  import opened TreeCommon
  import opened TreeRemoval
  import opened Weights

  /** The band node_verify checks. */
  predicate InBand(side: int, weight: int) {
    292 * weight <= 1000 * side <= 708 * weight
  }

  ghost predicate Balanced(t: Shape) {
    t.Fork? ==>
      && t.extra == Weight(t.left) + Weight(t.right)
      && InBand(Weight(t.left), t.extra)
      && Balanced(t.left) && Balanced(t.right)
  }

  lemma {:induction false} BalancedExact(t: Shape)
    requires Balanced(t)
    ensures Exact(t)
  {
    if t.Fork? {
      BalancedExact(t.left);
      BalancedExact(t.right);
    }
  }

  lemma BalancedWeight(t: Shape)
    requires Balanced(t)
    ensures Weight(t) >= 1 && (t.Fork? ==> Weight(t) >= 2)
  {
    BalancedExact(t);
    ExactWeight(t);
  }

  lemma Parts(t: Shape)
    requires Balanced(t) && t.Fork?
    ensures Balanced(t.left) && Balanced(t.right) && t.extra == Weight(t.left) + Weight(t.right)
    ensures InBand(Weight(t.left), t.extra) && Weight(t.left) >= 1 && Weight(t.right) >= 1
  {
    BalancedWeight(t.left);
    BalancedWeight(t.right);
  }

  lemma Join(t: Shape)
    requires t.Fork? && Balanced(t.left) && Balanced(t.right) && t.extra == Weight(t.left) + Weight(t.right)
    requires InBand(Weight(t.left), t.extra)
    ensures Balanced(t)
  {
  }

  // ---------- one fixup ----------

  /** The assertions on child and grandchild in fixup. */
  predicate AssertsHold(t: Shape)
    requires t.Fork?
  {
    if Weight(t.left) * 1000 < t.extra * 293 then
      t.right.Fork? && (Weight(t.right.left) * 1000 < t.right.extra * 586 || t.right.left.Fork?)
    else if Weight(t.left) * 1000 > t.extra * 707 then
      t.left.Fork? && (Weight(t.left.left) * 1000 > t.left.extra * 414 || t.left.right.Fork?)
    else
      true
  }

  /** fixup. */
  function Fixed(t: Shape): Shape
    requires t.Fork? && AssertsHold(t)
  {
    if Weight(t.left) * 1000 < t.extra * 293 then
      var r := t.right;
      if Weight(r.left) * 1000 < r.extra * 586 then
        var e := Weight(t.left) + Weight(r.left);
        LeftRotation(t, e, e + Weight(r.right))
      else
        var e, f := Weight(t.left) + Weight(r.left.left), Weight(r.left.right) + Weight(r.right);
        DoubleLeftRotation(t, e, f, e + f)
    else if Weight(t.left) * 1000 > t.extra * 707 then
      var l := t.left;
      if Weight(l.left) * 1000 > l.extra * 414 then
        var e := Weight(l.right) + Weight(t.right);
        RightRotation(t, e, Weight(l.left) + e)
      else
        var e, f := Weight(l.right.right) + Weight(t.right), Weight(l.left) + Weight(l.right.left);
        DoubleRightRotation(t, e, f, e + f)
    else
      t
  }

  /** A weight pair one insertion or one removal away from a pair within the band. */
  ghost predicate NearBand(l: int, r: int) {
    || (l > 1 && InBand(l - 1, l + r - 1))
    || (r > 1 && InBand(l, l + r - 1))
    || InBand(l + 1, l + r + 1)
    || InBand(l, l + r + 1)
  }

  /** A node whose subtrees are balanced but whose own weights just moved by one. */
  ghost predicate Disturbed(t: Shape) {
    && t.Fork?
    && t.extra == Weight(t.left) + Weight(t.right)
    && Balanced(t.left) && Balanced(t.right)
    && NearBand(Weight(t.left), Weight(t.right))
  }

  lemma SingleRestores(l: int, a: int, b: int)
    requires l >= 1 && a >= 1 && b >= 1 && NearBand(l, a + b) && InBand(a, a + b)
    requires 1000 * l < 293 * (l + a + b) && 1000 * a < 586 * (a + b)
    ensures InBand(l, l + a) && InBand(l + a, l + a + b)
  {
  }

  lemma DoubleRestores(l: int, a: int, b: int, c: int)
    requires l >= 1 && a >= 1 && b >= 1 && c >= 1
    requires NearBand(l, a + b + c) && InBand(a + b, a + b + c) && InBand(a, a + b)
    requires 1000 * l < 293 * (l + a + b + c) && 1000 * (a + b) >= 586 * (a + b + c)
    ensures InBand(l, l + a) && InBand(b, b + c) && InBand(l + a, l + a + b + c)
  {
  }

  /** The other side: a node too heavy on the left. */
  lemma SingleRestoresRight(a: int, b: int, r: int)
    requires r >= 1 && a >= 1 && b >= 1 && NearBand(a + b, r) && InBand(a, a + b)
    requires 1000 * (a + b) > 707 * (a + b + r) && 1000 * a > 414 * (a + b)
    ensures InBand(b, b + r) && InBand(a, a + b + r)
  {
  }

  lemma DoubleRestoresRight(a: int, b: int, c: int, r: int)
    requires r >= 1 && a >= 1 && b >= 1 && c >= 1
    requires NearBand(a + b + c, r) && InBand(a, a + b + c) && InBand(b, b + c)
    requires 1000 * (a + b + c) > 707 * (a + b + c + r) && 1000 * a <= 414 * (a + b + c)
    ensures InBand(a, a + b) && InBand(c, c + r) && InBand(a + b, a + b + c + r)
  {
  }

  ghost predicate Restored(u: Shape, t: Shape)
    requires t.Fork?
  {
    u.Fork? && Balanced(u) && Weight(u) == t.extra && InOrder(u) == InOrder(t)
  }

  lemma ForkWeight(t: Shape)
    requires t.Fork?
    ensures Weight(t) == t.extra
  {
  }

  lemma MakeRestored(u: Shape, t: Shape)
    requires t.Fork? && u.Fork? && Balanced(u) && Weight(u) == t.extra && InOrder(u) == InOrder(t)
    ensures Restored(u, t)
  {
  }

  lemma DisturbedParts(t: Shape)
    requires Disturbed(t)
    ensures t.Fork? && t.extra == Weight(t.left) + Weight(t.right)
    ensures Balanced(t.left) && Balanced(t.right) && NearBand(Weight(t.left), Weight(t.right))
  {
  }

  lemma SingleLeft(t: Shape)
    requires Disturbed(t) && Weight(t.left) * 1000 < t.extra * 293 && t.right.Fork?
    requires Weight(t.right.left) * 1000 < t.right.extra * 586
    ensures Restored(LeftRotation(t, Weight(t.left) + Weight(t.right.left), t.extra), t)
    ensures t.extra == Weight(t.left) + Weight(t.right.left) + Weight(t.right.right)
  {
    hide InOrder, Nodes, NearBand, InBand, Balanced, Disturbed;
    DisturbedParts(t);
    var r := t.right;
    BalancedWeight(t.left);
    Parts(r);
    SingleRestores(Weight(t.left), Weight(r.left), Weight(r.right));
    var u := LeftRotation(t, Weight(t.left) + Weight(r.left), t.extra);
    LeftRotationOrder(t, Weight(t.left) + Weight(r.left), t.extra);
    Join(u.left);
    Join(u);
  }

  /** Four balanced subtrees under three nodes whose weights are in band. */
  lemma Doubled(u: Shape, a: int, b: int, c: int, d: int)
    requires u.Fork? && u.left.Fork? && u.right.Fork?
    requires Balanced(u.left.left) && Balanced(u.left.right) && Balanced(u.right.left) && Balanced(u.right.right)
    requires Weight(u.left.left) == a && Weight(u.left.right) == b
    requires Weight(u.right.left) == c && Weight(u.right.right) == d
    requires u.left.extra == a + b && u.right.extra == c + d && u.extra == a + b + c + d
    requires InBand(a, a + b) && InBand(c, c + d) && InBand(a + b, a + b + c + d)
    ensures Balanced(u) && Weight(u) == u.extra
  {
    hide InBand, Balanced, Weight;
    ForkWeight(u);
    ForkWeight(u.left);
    ForkWeight(u.right);
    Join(u.left);
    Join(u.right);
    assert u.extra == (a + b) + (c + d);
    Join(u);
  }

  lemma DoubleLeft(t: Shape)
    requires Disturbed(t) && Weight(t.left) * 1000 < t.extra * 293 && t.right.Fork? && t.right.left.Fork?
    requires Weight(t.right.left) * 1000 >= t.right.extra * 586
    ensures var q := t.right.left;
            var e, f := Weight(t.left) + Weight(q.left), Weight(q.right) + Weight(t.right.right);
            e + f == t.extra && Restored(DoubleLeftRotation(t, e, f, e + f), t)
  {
    hide InOrder, Nodes, NearBand, InBand, Balanced, Disturbed, Restored, Weight;
    DisturbedParts(t);
    var r, q := t.right, t.right.left;
    ForkWeight(t);
    ForkWeight(r);
    ForkWeight(q);
    BalancedWeight(t.left);
    Parts(r);
    Parts(q);
    DoubleRestores(Weight(t.left), Weight(q.left), Weight(q.right), Weight(r.right));
    var e, f := Weight(t.left) + Weight(q.left), Weight(q.right) + Weight(r.right);
    var u := DoubleLeftRotation(t, e, f, e + f);
    DoubleLeftOrder(t, e, f, e + f);
    Doubled(u, Weight(t.left), Weight(q.left), Weight(q.right), Weight(r.right));
    MakeRestored(u, t);
  }

  lemma SingleRight(t: Shape)
    requires Disturbed(t) && Weight(t.left) * 1000 > t.extra * 707 && t.left.Fork?
    requires Weight(t.left.left) * 1000 > t.left.extra * 414
    ensures Restored(RightRotation(t, Weight(t.left.right) + Weight(t.right), t.extra), t)
    ensures t.extra == Weight(t.left.left) + Weight(t.left.right) + Weight(t.right)
  {
    hide InOrder, Nodes, NearBand, InBand, Balanced, Disturbed;
    DisturbedParts(t);
    var l := t.left;
    BalancedWeight(t.right);
    Parts(l);
    SingleRestoresRight(Weight(l.left), Weight(l.right), Weight(t.right));
    var u := RightRotation(t, Weight(l.right) + Weight(t.right), t.extra);
    RightRotationOrder(t, Weight(l.right) + Weight(t.right), t.extra);
    Join(u.right);
    Join(u);
  }

  lemma DoubleRight(t: Shape)
    requires Disturbed(t) && Weight(t.left) * 1000 > t.extra * 707 && t.left.Fork? && t.left.right.Fork?
    requires Weight(t.left.left) * 1000 <= t.left.extra * 414
    ensures var q := t.left.right;
            var e, f := Weight(q.right) + Weight(t.right), Weight(t.left.left) + Weight(q.left);
            e + f == t.extra && Restored(DoubleRightRotation(t, e, f, e + f), t)
  {
    hide InOrder, Nodes, NearBand, InBand, Balanced, Disturbed, Restored, Weight;
    DisturbedParts(t);
    var l, q := t.left, t.left.right;
    ForkWeight(t);
    ForkWeight(l);
    ForkWeight(q);
    BalancedWeight(t.right);
    Parts(l);
    Parts(q);
    DoubleRestoresRight(Weight(l.left), Weight(q.left), Weight(q.right), Weight(t.right));
    var e, f := Weight(q.right) + Weight(t.right), Weight(l.left) + Weight(q.left);
    var u := DoubleRightRotation(t, e, f, e + f);
    DoubleRightOrder(t, e, f, e + f);
    Doubled(u, Weight(l.left), Weight(q.left), Weight(q.right), Weight(t.right));
    MakeRestored(u, t);
  }

  lemma LightLeftHasChild(t: Shape)
    requires Disturbed(t) && Weight(t.left) * 1000 < t.extra * 293
    ensures AssertsHold(t)
  {
    BalancedWeight(t.left);
    BalancedWeight(t.right);
  }

  lemma HeavyLeftHasChild(t: Shape)
    requires Disturbed(t) && Weight(t.left) * 1000 > t.extra * 707
    ensures AssertsHold(t)
  {
    BalancedWeight(t.left);
    BalancedWeight(t.right);
  }

  /** What one fixup is for: both assertions hold, and one rotation brings every node back into its band. */
  lemma FixupRestoresBalance(t: Shape)
    requires Disturbed(t)
    ensures AssertsHold(t)
    ensures Restored(Fixed(t), t)
  {
    hide Restored, Balanced, NearBand, LeftRotation, RightRotation, DoubleLeftRotation, DoubleRightRotation;
    if Weight(t.left) * 1000 < t.extra * 293 {
      LightLeftHasChild(t);
      if Weight(t.right.left) * 1000 < t.right.extra * 586 {
        SingleLeft(t);
      } else {
        DoubleLeft(t);
      }
    } else if Weight(t.left) * 1000 > t.extra * 707 {
      HeavyLeftHasChild(t);
      if Weight(t.left.left) * 1000 > t.left.extra * 414 {
        SingleRight(t);
      } else {
        DoubleRight(t);
      }
    } else {
      AlreadyBalanced(t);
    }
  }

  /** Which node fixup brings to the top, told by the true weights of the subtrees. */
  lemma FixupChooses(t: Shape)
    requires Disturbed(t)
    ensures AssertsHold(t)
    ensures var w, l, r := Weight(t.left) + Weight(t.right), t.left, t.right;
            Root(Fixed(t)) ==
            if 1000 * Weight(l) < 293 * w then
              if 1000 * Weight(r.left) < 586 * Weight(r) then r.node else r.left.node
            else if 1000 * Weight(l) > 707 * w then
              if 1000 * Weight(l.left) > 414 * Weight(l) then l.node else l.right.node
            else
              t.node
  {
    hide InOrder, Nodes, Balanced, NearBand, InBand;
    FixupRestoresBalance(t);
    DisturbedParts(t);
    if 1000 * Weight(t.left) < 293 * t.extra {
      ForkWeight(t.right);
    } else if 1000 * Weight(t.left) > 707 * t.extra {
      ForkWeight(t.left);
    }
  }

  lemma AlreadyBalanced(t: Shape)
    requires Disturbed(t) && 293 * t.extra <= 1000 * Weight(t.left) <= 707 * t.extra
    ensures Restored(t, t)
  {
    BalancedWeight(t.left);
    BalancedWeight(t.right);
    Join(t);
  }

  // ---------- the path above a disturbed node ----------

  /** The path was balanced when its hole held a subtree of weight w. */
  ghost predicate PathBalanced(c: Path, w: int) {
    match c
    case Top => true
    case InLeft(up, _, _, _, e, r) =>
      e == w + Weight(r) && InBand(w, e) && Balanced(r) && PathBalanced(up, e)
    case InRight(up, l, _, _, _, e) =>
      e == Weight(l) + w && InBand(Weight(l), e) && Balanced(l) && PathBalanced(up, e)
  }

  lemma {:induction false} Unplug(c: Path, t: Shape)
    requires Balanced(Plug(c, t))
    ensures Balanced(t) && PathBalanced(c, Weight(t))
    decreases c
  {
    if !c.Top? {
      Unplug(c.up, PlugOne(c, t));
    }
  }

  /** A node on the path whose subtree grew or shrank by one has, with its weight updated, just been disturbed. */
  lemma StepDisturbs(c: Path, t: Shape, w: int)
    requires !c.Top? && Balanced(t) && PathBalanced(c, w) && (Weight(t) == w + 1 || Weight(t) == w - 1)
    ensures PlugOne(c, t).Fork? && Disturbed(PlugOne(c, t).(extra := c.extra + Weight(t) - w))
    ensures PathBalanced(c.up, c.extra)
  {
    hide Balanced;
    BalancedWeight(t);
    BalancedWeight(if c.InLeft? then c.right else c.left);
  }

  // ---------- fixup on the heap ----------

  method Fixup(tree: Tree, n: Node, ghost c: Path, ghost t: Shape)
    requires Focused(tree, c, t, n) && t.Fork? && AssertsHold(t)
    modifies tree`root, Nodes(t)`extra
    modifies Nodes(t)`parent, Nodes(t)`llink, Nodes(t)`rlink, OwnerSet(c)`llink, OwnerSet(c)`rlink
    ensures Focused(tree, c, Fixed(t), Root(Fixed(t)))
  {
    ChildWeights(t, n, Owner(c));
    var weight := WeightOf(n.llink);
    if weight * 1000 < n.extra * 293 {
      FixupLeft(tree, n, c, t);
    } else if weight * 1000 > n.extra * 707 {
      FixupRight(tree, n, c, t);
    }
  }

  method FixupLeft(tree: Tree, n: Node, ghost c: Path, ghost t: Shape)
    requires Focused(tree, c, t, n) && t.Fork? && AssertsHold(t)
    requires Weight(t.left) * 1000 < t.extra * 293
    modifies tree`root, Nodes(t)`extra
    modifies Nodes(t)`parent, Nodes(t)`llink, Nodes(t)`rlink, OwnerSet(c)`llink, OwnerSet(c)`rlink
    ensures Focused(tree, c, Fixed(t), Root(Fixed(t)))
  {
    hide Nodes, Distinct, PathRep, PathDistinct;
    ChildWeights(t, n, Owner(c));
    var nr := n.rlink;
    ChildWeights(t.right, nr, n);
    if WeightOf(nr.llink) * 1000 < nr.extra * 586 {
      SingleLeftAt(tree, n, nr, c, t);
    } else {
      DoubleLeftAt(tree, n, nr, nr.llink, c, t);
    }
  }

  method SingleLeftAt(tree: Tree, n: Node, nr: Node, ghost c: Path, ghost t: Shape)
    requires Focused(tree, c, t, n) && t.Fork? && t.right.Fork? && nr == t.right.node
    modifies tree`root, Nodes(t)`extra
    modifies Nodes(t)`parent, Nodes(t)`llink, Nodes(t)`rlink, OwnerSet(c)`llink, OwnerSet(c)`rlink
    ensures var e := Weight(t.left) + Weight(t.right.left);
            Focused(tree, c, LeftRotation(t, e, e + Weight(t.right.right)), nr)
  {
    hide Nodes, Rep, PathRep, PathDistinct;
    FocusRoot(tree, c, t, n);
    ChildNodes(t);
    RotLeft(tree, n, c, t);
    ghost var u := LeftRotation(t, t.extra, t.right.extra);
    ChildWeights(u, nr, Owner(c));
    ChildWeights(u.left, n, nr);
    var e := WeightOf(n.llink) + WeightOf(n.rlink);
    MarkLeft(tree, n, nr, e, e + WeightOf(nr.rlink), c, t, t.extra, t.right.extra);
  }

  method DoubleLeftAt(tree: Tree, n: Node, nr: Node, nrl: Node, ghost c: Path, ghost t: Shape)
    requires Focused(tree, c, t, n) && t.Fork? && t.right.Fork? && t.right.left.Fork?
    requires nr == t.right.node && nrl == t.right.left.node
    modifies tree`root, Nodes(t)`extra
    modifies Nodes(t)`parent, Nodes(t)`llink, Nodes(t)`rlink, OwnerSet(c)`llink, OwnerSet(c)`rlink
    ensures var q := t.right.left;
            var e, f := Weight(t.left) + Weight(q.left), Weight(q.right) + Weight(t.right.right);
            Focused(tree, c, DoubleLeftRotation(t, e, f, e + f), nrl)
  {
    hide Nodes, Rep, PathRep, PathDistinct;
    FocusRoot(tree, c, t, n);
    ThreeNodes(t, t.right, t.right.left);
    RotRightLeft(tree, n, c, t);
    ghost var u := DoubleLeftRotation(t, t.extra, t.right.extra, t.right.left.extra);
    ChildWeights(u, nrl, Owner(c));
    ChildWeights(u.left, n, nrl);
    ChildWeights(u.right, nr, nrl);
    var e := WeightOf(n.llink) + WeightOf(n.rlink);
    var f := WeightOf(nr.llink) + WeightOf(nr.rlink);
    MarkDoubleLeft(tree, n, nr, nrl, e, f, e + f, c, t);
  }

  method FixupRight(tree: Tree, n: Node, ghost c: Path, ghost t: Shape)
    requires Focused(tree, c, t, n) && t.Fork? && AssertsHold(t)
    requires Weight(t.left) * 1000 > t.extra * 707 && !(Weight(t.left) * 1000 < t.extra * 293)
    modifies tree`root, Nodes(t)`extra
    modifies Nodes(t)`parent, Nodes(t)`llink, Nodes(t)`rlink, OwnerSet(c)`llink, OwnerSet(c)`rlink
    ensures Focused(tree, c, Fixed(t), Root(Fixed(t)))
  {
    hide Nodes, Distinct, PathRep, PathDistinct;
    ChildWeights(t, n, Owner(c));
    var nl := n.llink;
    ChildWeights(t.left, nl, n);
    if WeightOf(nl.llink) * 1000 > nl.extra * 414 {
      SingleRightAt(tree, n, nl, c, t);
    } else {
      DoubleRightAt(tree, n, nl, nl.rlink, c, t);
    }
  }

  method SingleRightAt(tree: Tree, n: Node, nl: Node, ghost c: Path, ghost t: Shape)
    requires Focused(tree, c, t, n) && t.Fork? && t.left.Fork? && nl == t.left.node
    modifies tree`root, Nodes(t)`extra
    modifies Nodes(t)`parent, Nodes(t)`llink, Nodes(t)`rlink, OwnerSet(c)`llink, OwnerSet(c)`rlink
    ensures var e := Weight(t.left.right) + Weight(t.right);
            Focused(tree, c, RightRotation(t, e, Weight(t.left.left) + e), nl)
  {
    hide Nodes, Rep, PathRep, PathDistinct;
    FocusRoot(tree, c, t, n);
    ChildNodes(t);
    RotRight(tree, n, c, t);
    ghost var u := RightRotation(t, t.extra, t.left.extra);
    ChildWeights(u, nl, Owner(c));
    ChildWeights(u.right, n, nl);
    var e := WeightOf(n.llink) + WeightOf(n.rlink);
    MarkRight(tree, n, nl, e, WeightOf(nl.llink) + e, c, t, t.extra, t.left.extra);
  }

  method DoubleRightAt(tree: Tree, n: Node, nl: Node, nlr: Node, ghost c: Path, ghost t: Shape)
    requires Focused(tree, c, t, n) && t.Fork? && t.left.Fork? && t.left.right.Fork?
    requires nl == t.left.node && nlr == t.left.right.node
    modifies tree`root, Nodes(t)`extra
    modifies Nodes(t)`parent, Nodes(t)`llink, Nodes(t)`rlink, OwnerSet(c)`llink, OwnerSet(c)`rlink
    ensures var q := t.left.right;
            var e, f := Weight(q.right) + Weight(t.right), Weight(t.left.left) + Weight(q.left);
            Focused(tree, c, DoubleRightRotation(t, e, f, e + f), nlr)
  {
    hide Nodes, Rep, PathRep, PathDistinct;
    FocusRoot(tree, c, t, n);
    ThreeNodes(t, t.left, t.left.right);
    RotLeftRight(tree, n, c, t);
    ghost var u := DoubleRightRotation(t, t.extra, t.left.extra, t.left.right.extra);
    ChildWeights(u, nlr, Owner(c));
    ChildWeights(u.left, nl, nlr);
    ChildWeights(u.right, n, nlr);
    var e := WeightOf(n.llink) + WeightOf(n.rlink);
    var f := WeightOf(nl.llink) + WeightOf(nl.rlink);
    MarkDoubleRight(tree, n, nl, nlr, e, f, e + f, c, t);
  }

  // ---------- inserting and removing ----------

  lemma FixedNodes(t: Shape)
    requires t.Fork? && AssertsHold(t)
    ensures Nodes(Fixed(t)) == Nodes(t)
  {
    hide InOrder;
    if t.right.Fork? {
      assert Nodes(t.right) == Nodes(t.right.left) + {t.right.node} + Nodes(t.right.right);
    }
    if t.left.Fork? {
      assert Nodes(t.left) == Nodes(t.left.left) + {t.left.node} + Nodes(t.left.right);
    }
  }

  /** The climb of insertion and removal: every ancestor's weight moves by delta and is fixed up. */
  method Climb(tree: Tree, start: Node?, delta: int, ghost path: Path, ghost below: Shape, ghost x: Node?)
    returns (ghost t: Shape)
    requires Focused(tree, path, below, x) && start == Owner(path)
    requires Balanced(below) && PathBalanced(path, Weight(below) - delta) && (delta == 1 || delta == -1)
    modifies tree`root
    modifies (PathNodes(path) + Nodes(below))`extra, (PathNodes(path) + Nodes(below))`parent
    modifies (PathNodes(path) + Nodes(below))`llink, (PathNodes(path) + Nodes(below))`rlink
    ensures Focused(tree, Top, t, tree.root) && Balanced(t)
    ensures InOrder(t) == Before(path) + InOrder(below) + After(path)
    ensures Nodes(t) == PathNodes(path) + Nodes(below)
  {
    hide Balanced, InBand, Nodes, PathNodes, Before, After, InOrder, AssertsHold, Fixed, Focused, Disturbed, OwnerSet;
    var parent := start;
    ghost var c, at := path, x;
    t := below;
    while parent != null
      invariant Focused(tree, c, t, at) && parent == Owner(c)
      invariant Balanced(t) && PathBalanced(c, Weight(t) - delta)
      invariant Before(c) + InOrder(t) + After(c) == Before(path) + InOrder(below) + After(path)
      invariant PathNodes(c) + Nodes(t) == PathNodes(path) + Nodes(below)
      decreases c
    {
      StepUp(tree, c, t, at);
      StepDisturbs(c, t, Weight(t) - delta);
      PathNodesUp(c);
      var n := parent;
      parent := n.parent;
      ghost var u := PlugOne(c, t);
      ghost var v := u.(extra := u.extra + delta);
      ExtraIrrelevant(u, u.extra + delta);
      SetExtra(tree, n, n.extra + delta, c.up, u);
      FixupRestoresBalance(v);
      FixedNodes(v);
      Fixup(tree, n, c.up, v);
      c, t := c.up, Fixed(v);
      at := Root(t);
    }
    FocusedAtTop(tree, t, at);
    AtTop(c, t);
  }

  /** wb_tree_insert: the key's node, and whether it is new. */
  method Insert(tree: Tree, key: int) returns (node: Node, inserted: bool)
    requires Valid(tree) && Balanced(tree.shape)
    modifies tree, Nodes(tree.shape)
    ensures Valid(tree) && Balanced(tree.shape)
    ensures inserted <==> !HasKey(old(Contents(tree)), key)
    ensures Contents(tree) == if inserted then WithEntry(old(Contents(tree)), key, 0) else old(Contents(tree))
    ensures node in Nodes(tree.shape) && node.key == key
    ensures fresh(Nodes(tree.shape) - old(Nodes(tree.shape)))
  {
    hide Balanced, InOrder, Before, After, Nodes, PathNodes, Focused, Ascending;
    ghost var shape := tree.shape;
    var found, parent, left;
    ghost var c, t;
    found, parent, left, c, t := Locate(tree, key);
    PlugNodes(c, t);
    if found != null {
      LocatedEntry(c, t);
      ChildNodes(t);
      return found, false;
    }
    LeafInserted(shape, c, key);
    Unplug(c, Leaf);
    NoNodes();
    PathAllocated(c);
    OwnerInSet(c);
    node := new Node(key, 2);
    Attach(tree, parent, left, node, c);
    t := Single(node, key, 0, 2);
    SingleBalanced(node, key);
    t := Climb(tree, parent, 1, c, t, node);
    InOrderSize(shape);
    Finish(tree, 1, t);
    inserted := true;
  }

  lemma SingleBalanced(n: Node, key: int)
    ensures var t := Single(n, key, 0, 2);
            Balanced(t) && Weight(t) == Weight(Leaf) + 1 && InOrder(t) == [(key, 0)] && Nodes(t) == {n}
  {
  }

  lemma {:induction false} RekeyedBalanced(c: Path, n: Node, k: int, d: int, w: int)
    requires PathBalanced(c, w)
    ensures PathBalanced(Rekeyed(c, n, k, d), w)
    decreases c
  {
    if !c.Top? {
      RekeyedBalanced(c.up, n, k, d, c.extra);
    }
  }

  /** Splicing out a node with at most one child makes its subtree lighter by one. */
  lemma SplicedWeight(shape: Shape, from: Path, out: Shape, c: Path, node: Node)
    requires Balanced(shape) && Plug(from, out) == shape
    requires out.Fork? && (out.left == Leaf || out.right == Leaf) && SameSkeleton(from, c, node, out)
    ensures Balanced(OnlyChild(out)) && PathBalanced(c, Weight(OnlyChild(out)) + 1)
  {
    Unplug(from, out);
    RekeyedBalanced(from, node, out.key, out.datum, Weight(out));
  }

  /** wb_tree_remove. */
  method Remove(tree: Tree, key: int) returns (result: MaybeEntry)
    requires Valid(tree) && Balanced(tree.shape)
    modifies tree, Nodes(tree.shape)
    ensures Valid(tree) && Balanced(tree.shape)
    ensures result == Removing(old(Contents(tree)), key)
    ensures Contents(tree) == Remaining(old(Contents(tree)), key)
    ensures Nodes(tree.shape) <= old(Nodes(tree.shape))
  {
    hide Balanced, InOrder, Before, After, Nodes, PathNodes, Focused, Ascending, Plug, SameSkeleton;
    ghost var shape := tree.shape;
    var node, _, _, c, t := Locate(tree, key);
    PlugNodes(c, t);
    if node == null {
      NothingTaken(shape, c, key);
      return NoEntry;
    }
    EntryTaken(shape, c, t);
    DescendLeft(tree, c, t, node);
    result := Entry(node.key, node.datum);
    var fromLeft := node.llink != null && node.rlink != null && WeightOf(node.llink) > WeightOf(node.rlink);
    var child, parent, _, _, from, out, up := TakeOut(tree, node, fromLeft, c, t);
    SplicedWeight(shape, from, out, up, node);
    ghost var after := Climb(tree, parent, -1, up, OnlyChild(out), child);
    InOrderSize(shape);
    Finish(tree, -1, after);
  }

  // ---------- selecting by rank ----------

  /** wb_tree_select. */
  method Select(tree: Tree, n: nat) returns (result: MaybeEntry)
    requires Valid(tree) && Balanced(tree.shape)
    ensures result == Selected(Contents(tree), n)
  {
    BalancedExact(tree.shape);
    result := SelectByWeight(tree, n);
  }
}
