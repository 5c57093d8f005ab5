/** Walking a tree: stepping from node to node, the four near searches and selection by stepping. */
module TreeWalk {
  import opened Dictionary
  import opened TreeCommon
  import opened TreeRemoval

  /** The nodes of a tree in the order of their keys. */
  ghost function Seats(t: Shape): seq<Node> {
    if t.Leaf? then [] else Seats(t.left) + [t.node] + Seats(t.right)
  }

  /** The node at place i of the order, or null off either end. */
  ghost function SeatAt(t: Shape, i: int): Node? {
    if 0 <= i < |Seats(t)| then Seats(t)[i] else null
  }

  lemma {:induction false} SeatsCover(t: Shape)
    ensures |Seats(t)| == |InOrder(t)| == Size(t)
    ensures forall m :: m in Seats(t) <==> m in Nodes(t)
  {
    if t.Fork? {
      SeatsCover(t.left);
      SeatsCover(t.right);
    }
  }

  lemma SeatInside(t: Shape, m: Node)
    requires m in Seats(t)
    ensures m in Nodes(t)
  {
    SeatsCover(t);
  }

  /** A walk over the places meets every node once. */
  lemma {:induction false} SeatsDistinct(t: Shape, i: nat, j: nat)
    requires Distinct(t) && i < j < |Seats(t)|
    ensures Seats(t)[i] != Seats(t)[j]
  {
    SeatsCover(t.left);
    SeatsCover(t.right);
    var n := |Seats(t.left)|;
    if j < n {
      SeatsDistinct(t.left, i, j);
    } else if i > n {
      SeatsDistinct(t.right, i - n - 1, j - n - 1);
    } else {
      var a, b := Seats(t)[i], Seats(t)[j];
      assert Seats(t)[n] == t.node;
      assert i < n ==> a == Seats(t.left)[i] && a in Seats(t.left);
      if i < n { SeatInside(t.left, a); }
      assert j > n ==> b == Seats(t.right)[j - n - 1] && b in Seats(t.right);
      if j > n { SeatInside(t.right, b); }
    }
  }

  /** The place of the focused node. */
  function Place(c: Path, t: Shape): nat
    requires t.Fork?
  {
    |Before(c)| + |InOrder(t.left)|
  }

  lemma {:induction false} SeatOfPlug(c: Path, t: Shape, i: nat)
    requires i < |Seats(t)|
    ensures SeatAt(Plug(c, t), |Before(c)| + i) == Seats(t)[i]
    decreases c
  {
    match c {
      case Top =>
      case InLeft(up, _, _, _, _, _) =>
        assert Seats(PlugOne(c, t))[i] == Seats(t)[i];
        SeatOfPlug(up, PlugOne(c, t), i);
      case InRight(up, l, _, _, _, _) =>
        SeatsCover(l);
        var j := |Seats(l)| + 1 + i;
        assert Seats(PlugOne(c, t))[j] == Seats(t)[i];
        SeatOfPlug(up, PlugOne(c, t), j);
    }
  }

  lemma SeatOfFocus(c: Path, t: Shape)
    requires t.Fork?
    ensures SeatAt(Plug(c, t), Place(c, t)) == t.node
  {
    SeatsCover(t.left);
    SeatOfPlug(c, t, |Seats(t.left)|);
  }

  lemma EntryOfFocus(c: Path, t: Shape)
    requires t.Fork?
    ensures Place(c, t) < |InOrder(Plug(c, t))| && InOrder(Plug(c, t))[Place(c, t)] == (t.key, t.datum)
  {
    hide Before, After, Plug;
    PlugInOrder(c, t);
    var l, e, r := InOrder(t.left), [(t.key, t.datum)], InOrder(t.right);
    assert (Before(c) + (l + e + r) + After(c))[|Before(c)| + |l|] == (l + e + r)[|l|] == e[0];
  }

  /** The focus on the node at a given place. */
  lemma {:induction false} FocusAt(tree: Tree, c0: Path, t0: Shape, x: Node?, i: nat) returns (c: Path, t: Shape)
    requires Focused(tree, c0, t0, x) && |Before(c0)| <= i < |Before(c0)| + |InOrder(t0)|
    ensures t.Fork? && Focused(tree, c, t, t.node) && Plug(c, t) == Plug(c0, t0) && Place(c, t) == i
    decreases t0
  {
    hide Focused, Plug, Before;
    SomeEntry(t0);
    DescendLeft(tree, c0, t0, x);
    DescendRight(tree, c0, t0, x);
    DownPlug(c0, t0);
    BaseParts(c0, t0);
    if i < Place(c0, t0) {
      c, t := FocusAt(tree, DownLeft(c0, t0), t0.left, x.llink, i);
    } else if i > Place(c0, t0) {
      c, t := FocusAt(tree, DownRight(c0, t0), t0.right, x.rlink, i);
    } else {
      c, t := c0, t0;
    }
  }

  /** Finding the focus of the node at place i of a whole tree. */
  lemma FocusSeat(tree: Tree, node: Node, i: nat) returns (c: Path, t: Shape)
    requires Valid(tree) && SeatAt(tree.shape, i) == node
    ensures t.Fork? && Focused(tree, c, t, node) && Plug(c, t) == tree.shape && Place(c, t) == i
  {
    hide Focused;
    SeatsCover(tree.shape);
    AtTop(Top, tree.shape);
    c, t := FocusAt(tree, Top, tree.shape, tree.root, i);
    SeatOfFocus(c, t);
  }

  lemma BeforeLength(c: Path, t: Shape, c': Path, t': Shape)
    requires Plug(c, t) == Plug(c', t')
    ensures |Before(c)| + |InOrder(t)| + |After(c)| == |Before(c')| + |InOrder(t')| + |After(c')|
  {
    PlugInOrder(c, t);
    PlugInOrder(c', t');
  }

  // ---------- stepping ----------

  /** tree_node_next: the node one place on. */
  method Next(tree: Tree, start: Node, ghost i: nat) returns (next: Node?)
    requires Valid(tree) && SeatAt(tree.shape, i) == start
    ensures next == SeatAt(tree.shape, i + 1)
  {
    hide Focused, Plug, Before, After, InOrder, Ascending, Nodes, Seats;
    ghost var c, t := FocusSeat(tree, start, i);
    ghost var shape := tree.shape;
    SeatsCover(shape);
    var node: Node := start;
    DescendRight(tree, c, t, node);
    ForkLength(t);
    if node.rlink != null {
      DownPlug(c, t);
      DownLengths(c, t);
      FocusRoot(tree, DownRight(c, t), t.right, node.rlink);
      ghost var c', t';
      next, c', t' := MinBelow(tree, node.rlink, DownRight(c, t), t.right);
      BeforeLength(c', t', DownRight(c, t), t.right);
      ForkLength(t');
      DescendLeft(tree, c', t', next);
      SeatOfFocus(c', t');
      return;
    }
    EmptyChild(tree, c, t, node);
    next := node.parent;
    while next != null && next.rlink == node
      invariant Focused(tree, c, t, node) && next == Owner(c) && t.Fork?
      invariant Plug(c, t) == shape && |Before(c)| + |InOrder(t)| == i + 1
      decreases c
    {
      UpSide(tree, c, t, node);
      UpLengths(c, t);
      StepUp(tree, c, t, node);
      UpPlug(c, t);
      node, c, t := next, c.up, PlugOne(c, t);
      next := node.parent;
    }
    if next != null {
      UpSide(tree, c, t, node);
      UpLengths(c, t);
      UpPlug(c, t);
      SeatOfFocus(c.up, PlugOne(c, t));
    } else {
      AtTop(c, t);
    }
  }

  /** tree_node_prev: the node one place back. */
  method Prev(tree: Tree, start: Node, ghost i: nat) returns (prev: Node?)
    requires Valid(tree) && SeatAt(tree.shape, i) == start
    ensures prev == SeatAt(tree.shape, i - 1)
  {
    hide Focused, Plug, Before, After, InOrder, Ascending, Nodes, Seats;
    ghost var c, t := FocusSeat(tree, start, i);
    ghost var shape := tree.shape;
    SeatsCover(shape);
    var node: Node := start;
    DescendLeft(tree, c, t, node);
    ForkLength(t);
    if node.llink != null {
      DownPlug(c, t);
      DownLengths(c, t);
      FocusRoot(tree, DownLeft(c, t), t.left, node.llink);
      ghost var c', t';
      prev, c', t' := MaxBelow(tree, node.llink, DownLeft(c, t), t.left);
      ForkLength(t');
      DescendLeft(tree, c', t', prev);
      SeatOfFocus(c', t');
      return;
    }
    EmptyChild(tree, c, t, node);
    prev := node.parent;
    while prev != null && prev.llink == node
      invariant Focused(tree, c, t, node) && prev == Owner(c) && t.Fork?
      invariant Plug(c, t) == shape && |Before(c)| == i
      decreases c
    {
      UpSide(tree, c, t, node);
      UpLengths(c, t);
      StepUp(tree, c, t, node);
      UpPlug(c, t);
      node, c, t := prev, c.up, PlugOne(c, t);
      prev := node.parent;
    }
    if prev != null {
      UpSide(tree, c, t, node);
      UpLengths(c, t);
      UpPlug(c, t);
      SeatOfFocus(c.up, PlugOne(c, t));
    } else {
      AtTop(c, t);
    }
  }

  lemma ForkLength(t: Shape)
    requires t.Fork?
    ensures |InOrder(t)| == |InOrder(t.left)| + 1 + |InOrder(t.right)|
    ensures t.left == Leaf ==> InOrder(t.left) == []
    ensures t.right == Leaf ==> InOrder(t.right) == []
  {
  }

  lemma DownLengths(c: Path, t: Shape)
    requires t.Fork?
    ensures |Before(DownRight(c, t))| == |Before(c)| + |InOrder(t.left)| + 1 && After(DownRight(c, t)) == After(c)
    ensures Before(DownLeft(c, t)) == Before(c)
  {
  }

  lemma UpLengths(c: Path, t: Shape)
    requires !c.Top?
    ensures c.InRight? ==> |Before(c.up)| + |InOrder(PlugOne(c, t))| == |Before(c)| + |InOrder(t)|
    ensures c.InRight? ==> Place(c.up, PlugOne(c, t)) + 1 == |Before(c)|
    ensures c.InLeft? ==> Before(c.up) == Before(c) && Place(c.up, PlugOne(c, t)) == |Before(c)| + |InOrder(t)|
  {
  }

  lemma EmptyChild(tree: Tree, c: Path, t: Shape, x: Node)
    requires Focused(tree, c, t, x) && t.Fork?
    ensures x.llink == null <==> t.left == Leaf
    ensures x.rlink == null <==> t.right == Leaf
  {
  }

  /** Stepping forward and stepping back undo each other, and no node is met twice. */
  lemma StepsInvert(tree: Tree, i: nat, j: nat)
    requires Valid(tree) && i < |Seats(tree.shape)| && j < |Seats(tree.shape)|
    ensures SeatAt(tree.shape, i) == SeatAt(tree.shape, j) <==> i == j
    ensures SeatAt(tree.shape, j) == SeatAt(tree.shape, i + 1) <==> SeatAt(tree.shape, j - 1) == SeatAt(tree.shape, i)
  {
    hide Seats;
    var s := tree.shape;
    if i != j {
      SeatsDistinct(s, if i < j then i else j, if i < j then j else i);
    }
    if j != i + 1 && i + 1 < |Seats(s)| {
      SeatsDistinct(s, if j < i + 1 then j else i + 1, if j < i + 1 then i + 1 else j);
    }
    if 0 < j && j - 1 != i {
      SeatsDistinct(s, if j - 1 < i then j - 1 else i, if j - 1 < i then i else j - 1);
    }
  }

  // ---------- selecting by stepping ----------

  /** tree_node_min of the whole tree. */
  method First(tree: Tree) returns (node: Node?)
    requires Valid(tree)
    ensures node == SeatAt(tree.shape, 0)
  {
    hide Focused, Plug, Before, After, InOrder, Ascending, Nodes, Seats;
    ghost var shape := tree.shape;
    SeatsCover(shape);
    FocusRoot(tree, Top, shape, tree.root);
    AtTop(Top, shape);
    NoNodes();
    if tree.root == null {
      return null;
    }
    ghost var c, t;
    node, c, t := MinBelow(tree, tree.root, Top, shape);
    BeforeLength(c, t, Top, shape);
    ForkLength(t);
    DescendLeft(tree, c, t, node);
    SeatOfFocus(c, t);
  }

  method Last(tree: Tree) returns (node: Node?)
    requires Valid(tree)
    ensures node == SeatAt(tree.shape, |Contents(tree)| - 1)
  {
    hide Focused, Plug, Before, After, InOrder, Ascending, Nodes, Seats;
    ghost var shape := tree.shape;
    SeatsCover(shape);
    FocusRoot(tree, Top, shape, tree.root);
    AtTop(Top, shape);
    NoNodes();
    if tree.root == null {
      return null;
    }
    ghost var c, t;
    node, c, t := MaxBelow(tree, tree.root, Top, shape);
    ForkLength(t);
    DescendLeft(tree, c, t, node);
    SeatOfFocus(c, t);
  }

  lemma SeatEntry(tree: Tree, node: Node, i: nat)
    requires Valid(tree) && SeatAt(tree.shape, i) == node
    ensures Selected(Contents(tree), i) == Entry(node.key, node.datum)
  {
    hide Focused, Plug, Before, After, InOrder, Ascending, Nodes, Seats;
    var c, t := FocusSeat(tree, node, i);
    EntryOfFocus(c, t);
    DescendLeft(tree, c, t, node);
  }

  /** tree_select: stepping in from the nearer end reaches the entry of rank n. */
  method Select(tree: Tree, n: nat) returns (result: MaybeEntry)
    requires Valid(tree)
    ensures result == Selected(Contents(tree), n)
  {
    hide Focused, Plug, Before, After, InOrder, Ascending, Nodes, Seats;
    SeatsCover(tree.shape);
    NodesAllocated(tree.shape);
    if n >= tree.count {
      return NoEntry;
    }
    var node;
    if n >= tree.count / 2 {
      node := Last(tree);
      var back := tree.count - 1 - n;
      while back > 0
        invariant Valid(tree)
        invariant 0 <= back && n + back < tree.count && node == SeatAt(tree.shape, n + back)
      {
        node := Prev(tree, node, n + back);
        back := back - 1;
      }
    } else {
      node := First(tree);
      var left := n;
      while left > 0
        invariant Valid(tree)
        invariant 0 <= left <= n && node == SeatAt(tree.shape, n - left)
      {
        node := Next(tree, node, n - left);
        left := left - 1;
      }
    }
    SeatEntry(tree, node, n);
    result := Entry(node.key, node.datum);
  }

  // ---------- near searches ----------

  /** Every key before the focus is below cut, every key after it is not. */
  ghost predicate Cut(c: Path, cut: int) {
    KeysBelow(Before(c), cut) && KeysAbove(After(c), cut - 1)
  }

  lemma CutLeft(c: Path, t: Shape, cut: int)
    requires t.Fork? && Cut(c, cut) && cut <= t.key
    requires Ascending(Before(c) + InOrder(t) + After(c))
    ensures Cut(DownLeft(c, t), cut)
  {
    hide InOrder, Before, Ascending;
    FocusKeys(c, t);
    BaseParts(c, t);
  }

  lemma CutRight(c: Path, t: Shape, cut: int)
    requires t.Fork? && Cut(c, cut) && t.key < cut
    requires Ascending(Before(c) + InOrder(t) + After(c))
    ensures Cut(DownRight(c, t), cut)
  {
    hide InOrder, After, Ascending;
    FocusKeys(c, t);
    BaseParts(c, t);
  }

  lemma CutRank(c: Path, cut: int)
    requires Cut(c, cut)
    ensures Rank(InOrder(Plug(c, Leaf)), cut) == |Before(c)|
  {
    PlugInOrder(c, Leaf);
    assert Before(c) + [] + After(c) == Before(c) + After(c);
    RankSplits(Before(c) + After(c), Before(c), After(c), cut);
  }

  /** tree_search_lt_node: the last node whose key is below the given one. */
  method SearchLt(tree: Tree, key: int) returns (ret: Node?)
    requires Valid(tree)
    ensures ret == SeatAt(tree.shape, Rank(Contents(tree), key) - 1)
  {
    hide Focused, Plug, Before, After, InOrder, Ascending, Nodes, Seats, Cut, Rank;
    var node := tree.root;
    ghost var c, t := Top, tree.shape;
    ret := null;
    SearchStart(tree, key);
    while node != null
      invariant Valid(tree) && Focused(tree, c, t, node) && Plug(c, t) == tree.shape && Cut(c, key)
      invariant ret == SeatAt(tree.shape, |Before(c)| - 1)
      decreases t
    {
      SearchStep(tree, c, t, node, key);
      if key <= node.key {
        node, c, t := node.llink, DownLeft(c, t), t.left;
      } else {
        ret := node;
        node, c, t := node.rlink, DownRight(c, t), t.right;
      }
    }
    SearchEnd(tree, c, t, key);
  }

  /** tree_search_ge_node: the first node whose key is not below the given one. */
  method SearchGe(tree: Tree, key: int) returns (ret: Node?)
    requires Valid(tree)
    ensures ret == SeatAt(tree.shape, Rank(Contents(tree), key))
  {
    hide Focused, Plug, Before, After, InOrder, Ascending, Nodes, Seats, Cut, Rank;
    var node := tree.root;
    ghost var c, t := Top, tree.shape;
    ret := null;
    SearchStart(tree, key);
    while node != null
      invariant Valid(tree) && Focused(tree, c, t, node) && Plug(c, t) == tree.shape && Cut(c, key)
      invariant ret == SeatAt(tree.shape, |Before(c)| + |InOrder(t)|)
      decreases t
    {
      SearchStep(tree, c, t, node, key);
      if node.key == key {
        SearchHit(tree, c, t, key);
        return node;
      }
      if key < node.key {
        ret := node;
        node, c, t := node.llink, DownLeft(c, t), t.left;
      } else {
        node, c, t := node.rlink, DownRight(c, t), t.right;
      }
    }
    SearchEnd(tree, c, t, key);
  }

  /** tree_search_le_node: the last node whose key is not above the given one. */
  method SearchLe(tree: Tree, key: int) returns (ret: Node?)
    requires Valid(tree)
    ensures ret == SeatAt(tree.shape, Rank(Contents(tree), key + 1) - 1)
  {
    hide Focused, Plug, Before, After, InOrder, Ascending, Nodes, Seats, Cut, Rank;
    var node := tree.root;
    ghost var c, t := Top, tree.shape;
    ret := null;
    SearchStart(tree, key + 1);
    while node != null
      invariant Valid(tree) && Focused(tree, c, t, node) && Plug(c, t) == tree.shape && Cut(c, key + 1)
      invariant ret == SeatAt(tree.shape, |Before(c)| - 1)
      decreases t
    {
      SearchStep(tree, c, t, node, key + 1);
      if node.key == key {
        SearchHit(tree, c, t, key);
        return node;
      }
      if key < node.key {
        node, c, t := node.llink, DownLeft(c, t), t.left;
      } else {
        ret := node;
        node, c, t := node.rlink, DownRight(c, t), t.right;
      }
    }
    SearchEnd(tree, c, t, key + 1);
  }

  /** tree_search_gt_node: the first node whose key is above the given one. */
  method SearchGt(tree: Tree, key: int) returns (ret: Node?)
    requires Valid(tree)
    ensures ret == SeatAt(tree.shape, Rank(Contents(tree), key + 1))
  {
    hide Focused, Plug, Before, After, InOrder, Ascending, Nodes, Seats, Cut, Rank;
    var node := tree.root;
    ghost var c, t := Top, tree.shape;
    ret := null;
    SearchStart(tree, key + 1);
    while node != null
      invariant Valid(tree) && Focused(tree, c, t, node) && Plug(c, t) == tree.shape && Cut(c, key + 1)
      invariant ret == SeatAt(tree.shape, |Before(c)| + |InOrder(t)|)
      decreases t
    {
      SearchStep(tree, c, t, node, key + 1);
      if key < node.key {
        ret := node;
        node, c, t := node.llink, DownLeft(c, t), t.left;
      } else {
        node, c, t := node.rlink, DownRight(c, t), t.right;
      }
    }
    SearchEnd(tree, c, t, key + 1);
  }

  lemma SearchStart(tree: Tree, cut: int)
    requires Valid(tree)
    ensures Focused(tree, Top, tree.shape, tree.root) && Plug(Top, tree.shape) == tree.shape && Cut(Top, cut)
    ensures SeatAt(tree.shape, |Before(Top)| - 1) == null
    ensures SeatAt(tree.shape, |Before(Top)| + |InOrder(tree.shape)|) == null
  {
    SeatsCover(tree.shape);
  }

  lemma SearchStep(tree: Tree, c: Path, t: Shape, node: Node, cut: int)
    requires Valid(tree) && Focused(tree, c, t, node) && Plug(c, t) == tree.shape && Cut(c, cut)
    ensures t.Fork? && t.node == node && t.key == node.key
    ensures Focused(tree, DownLeft(c, t), t.left, node.llink) && Focused(tree, DownRight(c, t), t.right, node.rlink)
    ensures Plug(DownLeft(c, t), t.left) == tree.shape == Plug(DownRight(c, t), t.right)
    ensures cut <= node.key ==> Cut(DownLeft(c, t), cut)
    ensures node.key < cut ==> Cut(DownRight(c, t), cut)
    ensures SeatAt(tree.shape, Place(c, t)) == node
    ensures |Before(DownLeft(c, t))| == |Before(c)|
    ensures |Before(DownLeft(c, t))| + |InOrder(t.left)| == Place(c, t) == |Before(DownRight(c, t))| - 1
    ensures |Before(DownRight(c, t))| + |InOrder(t.right)| == |Before(c)| + |InOrder(t)|
  {
    hide Focused, Plug, Before, After, InOrder, Ascending, Nodes, Seats, Cut, SeatAt;
    FocusRoot(tree, c, t, node);
    DescendLeft(tree, c, t, node);
    DescendRight(tree, c, t, node);
    DownPlug(c, t);
    DownLengths(c, t);
    ForkLength(t);
    SeatOfFocus(c, t);
    PlugInOrder(c, t);
    if cut <= t.key {
      CutLeft(c, t, cut);
    } else {
      CutRight(c, t, cut);
    }
  }

  lemma SearchEnd(tree: Tree, c: Path, t: Shape, cut: int)
    requires Focused(tree, c, t, null) && Plug(c, t) == tree.shape && Cut(c, cut)
    ensures Rank(Contents(tree), cut) == |Before(c)| == |Before(c)| + |InOrder(t)|
  {
    hide Cut, Before, Plug;
    CutRank(c, cut);
  }

  /** A search that meets the key itself. */
  lemma SearchHit(tree: Tree, c: Path, t: Shape, key: int)
    requires Valid(tree) && Plug(c, t) == tree.shape && t.Fork? && t.key == key
    ensures SeatAt(tree.shape, Rank(Contents(tree), key)) == t.node
    ensures Rank(Contents(tree), key + 1) == Rank(Contents(tree), key) + 1
  {
    hide Before, After, Plug, Focused, Ascending, Seats;
    var s, i := Contents(tree), Place(c, t);
    EntryOfFocus(c, t);
    SeatOfFocus(c, t);
    RankOfKey(s, i);
  }
}
