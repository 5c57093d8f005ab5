/** What the trees with a weight in each node share: exact weights, and the selection they guide. */
module Weights {
  import opened Dictionary
  import opened TreeCommon

  /** The number of external nodes of a tree. */
  function External(t: Shape): nat {
    if t.Leaf? then 1 else External(t.left) + External(t.right)
  }

  /** Every node stores the sum of the weights of its subtrees. */
  ghost predicate Exact(t: Shape) {
    t.Fork? ==> t.extra == Weight(t.left) + Weight(t.right) && Exact(t.left) && Exact(t.right)
  }

  lemma {:induction false} ExactWeight(t: Shape)
    requires Exact(t)
    ensures Weight(t) == External(t) == Size(t) + 1
  {
    if t.Fork? {
      ExactWeight(t.left);
      ExactWeight(t.right);
    }
  }

  // ---------- selecting by rank ----------

  lemma SelectHere(shape: Shape, c: Path, t: Shape)
    requires Plug(c, t) == shape && t.Fork?
    ensures Selected(InOrder(shape), |Before(c)| + |InOrder(t.left)|) == Entry(t.key, t.datum)
  {
    hide Before, After, Plug;
    PlugInOrder(c, t);
    var l, e, r := InOrder(t.left), [(t.key, t.datum)], InOrder(t.right);
    assert (Before(c) + (l + e + r) + After(c))[|Before(c)| + |l|] == (l + e + r)[|l|] == e[0];
  }

  lemma SelectBelow(c: Path, t: Shape)
    requires t.Fork? && Exact(t)
    ensures |InOrder(t)| == |InOrder(t.left)| + 1 + |InOrder(t.right)| && |InOrder(t.left)| == Weight(t.left) - 1
    ensures |Before(DownLeft(c, t))| == |Before(c)|
    ensures |Before(DownRight(c, t))| == |Before(c)| + |InOrder(t.left)| + 1
    ensures Exact(t.left) && Exact(t.right)
  {
    ExactWeight(t.left);
    InOrderSize(t.left);
  }

  /** wb_tree_select and pr_tree_select: guided by the weights, the descent ends at the entry of rank n. */
  method SelectByWeight(tree: Tree, n: nat) returns (result: MaybeEntry)
    requires Valid(tree) && Exact(tree.shape)
    ensures result == Selected(Contents(tree), n)
  {
    hide Focused, Exact, Before, InOrder, Plug, Ascending, Nodes;
    ghost var shape, c, t := tree.shape, Top, tree.shape;
    InOrderSize(shape);
    if n >= tree.count {
      return NoEntry;
    }
    var node, i := tree.root, n;
    AtTop(c, t);
    while true
      invariant Focused(tree, c, t, node) && Plug(c, t) == shape && Exact(t)
      invariant 0 <= i < |InOrder(t)| && |Before(c)| + i == n
      decreases t
    {
      FocusRoot(tree, c, t, node);
      SomeEntry(t);
      DescendLeft(tree, c, t, node);
      DescendRight(tree, c, t, node);
      FocusWeights(tree, c, t, node);
      SelectBelow(c, t);
      DownPlug(c, t);
      var nw := WeightOf(node.llink);
      if i + 1 >= nw {
        if i + 1 == nw {
          SelectHere(shape, c, t);
          return Entry(node.key, node.datum);
        }
        i := i - nw;
        node, c, t := node.rlink, DownRight(c, t), t.right;
      } else {
        node, c, t := node.llink, DownLeft(c, t), t.left;
      }
    }
  }

  lemma FocusWeights(tree: Tree, c: Path, t: Shape, x: Node)
    requires Focused(tree, c, t, x) && t.Fork?
    ensures WeightOf(x.llink) == Weight(t.left) && WeightOf(x.rlink) == Weight(t.right)
  {
    ChildWeights(t, x, Owner(c));
  }
}
