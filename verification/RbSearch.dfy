/** Walking the tree without changing it: search, the ends and the predecessor. */
module RbSearch {
  import opened RbShape
  import opened RbLinks
  import opened RbOrder

  /** The heap below `header` is a red-black search tree with shape `s`, and the header keeps its
      root, its first and its last node. */
  ghost predicate WellFormed(header: Node, s: Tree)
    reads header, Nodes(s)
  {
    && Zip(header, s, Top) && header.color == Red && RedBlack(s) && Sorted(InOrder(s))
    && header.left == FirstNode(header, InOrder(s)) && header.right == LastNode(header, InOrder(s))
  }

  /** The node of an entry holds it. */
  lemma EntryHeld(header: Node, shape: Tree, i: nat)
    requires Zip(header, shape, Top) && i < |InOrder(shape)|
    ensures var e := InOrder(shape)[i]; e.node in Nodes(shape) && e.node.key == e.key && e.node.block == e.block
  {
    InOrderAt(shape, header);
    assert Fields(InOrder(shape)[i].node) == At(shape, header, InOrder(shape)[i].node);
  }

  // ---------------------------------------------------------------- descending

  /** Searching for the first entry whose key is at least `key`, the search has reached `t`. */
  ghost predicate Hunt(header: Node, shape: Tree, t: Tree, c: Ctx, key: Key)
    reads header`parent, Nodes(t), CtxNodes(c)
  {
    && Zip(header, t, c) && Plug(t, c) == shape && Order(t, c) == InOrder(shape)
    && Below(Before(c), key) && (After(c) != [] ==> key <= After(c)[0].key)
  }

  lemma HuntLeft(header: Node, shape: Tree, t: Tree, c: Ctx, key: Key)
    requires Hunt(header, shape, t, c, key) && t.Fork? && key <= t.e.key && Sorted(InOrder(shape))
    ensures Hunt(header, shape, t.left, Under(c, OnLeft, t.color, t.e, t.right), key)
  {
    ZipLeft(header, t, c);
    OrderUp(t.left, Under(c, OnLeft, t.color, t.e, t.right));
  }

  lemma HuntRight(header: Node, shape: Tree, t: Tree, c: Ctx, key: Key)
    requires Hunt(header, shape, t, c, key) && t.Fork? && t.e.key < key && Sorted(InOrder(shape))
    ensures Hunt(header, shape, t.right, Under(c, OnRight, t.color, t.e, t.left), key)
  {
    RootSplits(t, c);
    ZipRight(header, t, c);
    OrderUp(t.right, Under(c, OnRight, t.color, t.e, t.left));
    var p := Before(c) + InOrder(t.left);
    assert Before(Under(c, OnRight, t.color, t.e, t.left)) == p + [t.e];
  }

  /** Where the search goes from the root of `t`. */
  ghost function StepTree(t: Tree, key: Key): Tree
    requires t.Fork?
  {
    if t.e.key < key then t.right else t.left
  }

  ghost function StepCtx(t: Tree, c: Ctx, key: Key): Ctx
    requires t.Fork?
  {
    if t.e.key < key then Under(c, OnRight, t.color, t.e, t.left) else Under(c, OnLeft, t.color, t.e, t.right)
  }

  lemma HuntStep(header: Node, shape: Tree, t: Tree, c: Ctx, key: Key)
    requires Hunt(header, shape, t, c, key) && t.Fork? && Sorted(InOrder(shape))
    ensures Hunt(header, shape, StepTree(t, key), StepCtx(t, c, key), key)
    ensures Height(StepTree(t, key)) < Height(t)
    ensures t.e.node.key == t.e.key
    ensures Root(StepTree(t, key)) == if t.e.key < key then t.e.node.right else t.e.node.left
    ensures FirstNode(header, After(StepCtx(t, c, key))) == if t.e.key < key
              then FirstNode(header, After(c)) else t.e.node
  {
    assert Fields(t.e.node) == At(t, CtxParent(c, header), t.e.node);
    if t.e.key < key {
      HuntRight(header, shape, t, c, key);
    } else {
      HuntLeft(header, shape, t, c, key);
    }
  }

  /** The node after a gap holds the entry after the gap. */
  lemma HeldAfter(header: Node, c: Ctx)
    requires Zip(header, Leaf, c) && After(c) != []
    ensures var e := After(c)[0]; e.node in Nodes(Plug(Leaf, c)) && e.node.key == e.key && e.node.block == e.block
  {
    hide Distinct, CtxDistinct;
    ZipTop(header, Leaf, c);
    PlugOrder(Leaf, c);
    var p := Before(c);
    assert Order(Leaf, c) == p + After(c);
    assert Order(Leaf, c)[|p|] == After(c)[0];
    EntryHeld(header, Plug(Leaf, c), |p|);
  }

  /** A search that has reached a gap. */
  lemma HuntEnds(header: Node, shape: Tree, c: Ctx, key: Key)
    requires Hunt(header, shape, Leaf, c, key)
    ensures Zip(header, Leaf, c) && shape == Plug(Leaf, c) && InOrder(shape) == Before(c) + After(c)
    ensures Below(Before(c), key) && (After(c) != [] ==> key <= After(c)[0].key)
  {
    hide Zip;
  }

  lemma NotHeader(header: Node, c: Ctx)
    requires Zip(header, Leaf, c)
    ensures header !in Nodes(Plug(Leaf, c))
  {
    ZipTop(header, Leaf, c);
  }

  /** Where the search ends, one comparison with the first node to come decides it. */
  lemma Arrived(header: Node, shape: Tree, c: Ctx, key: Key)
    requires Hunt(header, shape, Leaf, c, key) && Sorted(InOrder(shape))
    ensures var y, m := FirstNode(header, After(c)), Contents(InOrder(shape));
            if y == header || key < y.key then key !in m
            else key in m && y in Nodes(shape) && y.key == key && y.block == m[key]
  {
    hide Hunt, Zip, Sorted, Distinct, CtxDistinct, Contents, InOrder, Before, After, Plug, Nodes;
    HuntEnds(header, shape, c, key);
    Found(InOrder(shape), key, Before(c), After(c));
    if After(c) != [] {
      HeldAfter(header, c);
      PlugOrder(Leaf, c);
      NotHeader(header, c);
    }
  }

  // ---------------------------------------------------------------- the predecessor

  /** The node before `node`, or the last node when `node` is the header. `Plug(t, c)` is the tree,
      with `node` at the root of `t` unless it is the header. */
  method Decrement(node: Node, ghost header: Node, ghost t: Tree, ghost c: Ctx) returns (r: Node)
    requires Zip(header, t, c) && t.Fork?
    requires node == header ==> c.Top? && header.color == Red && header.right == LastNode(header, InOrder(t))
    requires node != header ==> node == t.e.node && (c.Top? ==> t.color == Black)
    requires node != header ==> Before(c) + InOrder(t.left) != []
    ensures r == LastNode(header, if node == header then InOrder(t) else Before(c) + InOrder(t.left))
  {
    Family(header, t, c);
    if node.color == Red && node.parent.parent == node {
      r := node.right;
    } else if node.left != null {
      ZipLeft(header, t, c);
      r := Rightmost(node.left, header, t.left, Under(c, OnLeft, t.color, t.e, t.right));
    } else {
      r := Climb(node, header, t, c);
    }
  }

  method Rightmost(x: Node, ghost header: Node, ghost t: Tree, ghost c: Ctx) returns (y: Node)
    requires Zip(header, t, c) && t.Fork? && x == t.e.node
    ensures y == LastNode(header, InOrder(t))
  {
    hide Apart, CtxLinked;
    y := x;
    ghost var u, d := t, c;
    assert Fields(y) == At(u, CtxParent(d, header), y);
    while y.right != null
      invariant Zip(header, u, d) && u.Fork? && y == u.e.node && y.right == Root(u.right)
      invariant LastNode(header, InOrder(t)) == LastNode(header, InOrder(u))
      decreases u
    {
      ZipRight(header, u, d);
      y := y.right;
      u, d := u.right, Under(d, OnRight, u.color, u.e, u.left);
      assert Fields(y) == At(u, CtxParent(d, header), y);
    }
  }

  method Leftmost(x: Node, ghost header: Node, ghost t: Tree, ghost c: Ctx) returns (y: Node)
    requires Zip(header, t, c) && t.Fork? && x == t.e.node
    ensures y == FirstNode(header, InOrder(t))
  {
    hide Apart, CtxLinked;
    y := x;
    ghost var u, d := t, c;
    assert Fields(y) == At(u, CtxParent(d, header), y);
    while y.left != null
      invariant Zip(header, u, d) && u.Fork? && y == u.e.node && y.left == Root(u.left)
      invariant FirstNode(header, InOrder(t)) == FirstNode(header, InOrder(u))
      decreases u
    {
      ZipLeft(header, u, d);
      y := y.left;
      u, d := u.left, Under(d, OnLeft, u.color, u.e, u.right);
      assert Fields(y) == At(u, CtxParent(d, header), y);
    }
  }

  method Climb(node: Node, ghost header: Node, ghost t: Tree, ghost c: Ctx) returns (y: Node)
    requires Zip(header, t, c) && t.Fork? && node == t.e.node && Before(c) != []
    ensures y == LastNode(header, Before(c))
  {
    var n := node;
    ghost var u, d := t, c;
    Family(header, u, d);
    y := n.parent;
    while n == y.left
      invariant Zip(header, u, d) && u.Fork? && n == u.e.node && Before(d) == Before(c)
      invariant d.Under? && y == d.e.node && Fields(y) == CtxAt(d, header, n, y)
      invariant Root(d.sib) != n
      decreases Depth(d)
    {
      ZipUp(header, u, d);
      u, d := Join(d.side, u, d.color, d.e, d.sib), d.up;
      Family(header, u, d);
      n := y;
      y := y.parent;
    }
  }

  // ---------------------------------------------------------------- the place for a new key

  /** The place for `key` among the entries: those before are smaller and those after are larger. */
  ghost predicate Gap(header: Node, c: Ctx, key: Key)
    reads header`parent, CtxNodes(c)
  {
    Zip(header, Leaf, c) && Sorted(Order(Leaf, c)) && Below(Before(c), key) && Above(After(c), key)
  }

  /** The descent of an insertion: the place for the key, after entries with an equal key. */
  method Descend(header: Node, key: Key, ghost s: Tree) returns (y: Node, comp: bool, ghost c: Ctx)
    requires Zip(header, s, Top) && Sorted(InOrder(s))
    ensures Hunt(header, s, Leaf, c, key + 1) && y == CtxParent(c, header)
    ensures comp <==> c.Top? || c.side == OnLeft
  {
    y, comp := header, true;
    var x := header.parent;
    ghost var t := s;
    c := Top;
    while x != null
      invariant Hunt(header, s, t, c, key + 1) && x == Root(t) && y == CtxParent(c, header)
      invariant comp <==> c.Top? || c.side == OnLeft
      decreases t
    {
      HuntStep(header, s, t, c, key + 1);
      t, c := StepTree(t, key + 1), StepCtx(t, c, key + 1);
      y := x;
      comp := key < x.key;
      x := if comp then x.left else x.right;
    }
  }

  /** Which node the entry before the gap is in, seen from the parent of the gap. */
  lemma GapBefore(header: Node, s: Tree, c: Ctx)
    requires Apart(Leaf, c) && s == Plug(Leaf, c) && RedBlack(s)
    ensures c.Top? ==> Before(c) == [] && InOrder(s) == []
    ensures c.Under? && c.side == OnLeft ==>
              && (FirstNode(header, InOrder(s)) == c.e.node <==> Before(c) == []) && Before(c.up) == Before(c)
    ensures c.Under? && c.side == OnRight ==> Before(c) != [] && LastNode(header, Before(c)) == c.e.node
    ensures c.Under? && c.up.Top? ==> c.color == Black
  {
    CtxOneNodeEach(Leaf, c);
    PlugOrder(Leaf, c);
    CtxNext(c);
    assert Order(Leaf, c) == Before(c) + After(c);
    EndsOf(header, Before(c), After(c));
    var whole: nat :| BlackHeight(s, whole);
    var h := Unplug(Leaf, c, whole);
  }

  /** The node before the gap holds the entry before the gap. */
  lemma HeldBefore(header: Node, c: Ctx)
    requires Zip(header, Leaf, c) && Before(c) != []
    ensures LastNode(header, Before(c)).key == Before(c)[|Before(c)| - 1].key
  {
    var p := Before(c);
    ZipTop(header, Leaf, c);
    PlugOrder(Leaf, c);
    assert Order(Leaf, c) == p + After(c);
    assert Order(Leaf, c)[|p| - 1] == p[|p| - 1];
    EntryHeld(header, Plug(Leaf, c), |p| - 1);
  }

  lemma ZipApart(header: Node, c: Ctx)
    requires Zip(header, Leaf, c)
    ensures Apart(Leaf, c)
  {
  }

  lemma GapOrdered(c: Ctx)
    ensures Order(Leaf, c) == Before(c) + After(c)
  {
  }

  /** Finds where a new entry for the key is to be linked, and whether the key is absent. */
  method Decide(header: Node, key: Key, ghost s: Tree) returns (y: Node, absent: bool, ghost c: Ctx)
    requires WellFormed(header, s)
    ensures Zip(header, Leaf, c) && Plug(Leaf, c) == s && y == CtxParent(c, header)
    ensures absent <==> key !in Contents(InOrder(s))
    ensures absent ==> Gap(header, c, key)
  {
    hide Hunt, Zip, Sorted, Distinct, CtxDistinct, Contents, InOrder;
    hide Before, After, Plug, Nodes, RedBlack, Below, Above;
    var comp;
    y, comp, c := Descend(header, key, s);
    ghost var p, q := Before(c), After(c);
    HuntEnds(header, s, c, key + 1);
    ZipApart(header, c);
    GapOrdered(c);
    ProbeKeys(InOrder(s), p, q, key);
    GapBefore(header, s, c);
    absent := true;
    if comp && y == header.left {
      return;
    }
    var j := Predecessor(y, comp, header, c);
    HeldBefore(header, c);
    absent := j.key < key;
  }

  /** The node before the gap. */
  method Predecessor(y: Node, comp: bool, header: Node, ghost c: Ctx) returns (j: Node)
    requires Zip(header, Leaf, c) && Before(c) != [] && c.Under? && y == c.e.node
    requires comp <==> c.side == OnLeft
    requires c.side == OnLeft ==> Before(c.up) == Before(c) && (c.up.Top? ==> c.color == Black)
    requires c.side == OnRight ==> LastNode(header, Before(c)) == c.e.node
    ensures Zip(header, Leaf, c) && j == LastNode(header, Before(c))
  {
    ghost var nodes := CtxNodes(c);
    j := y;
    if comp {
      ZipUp(header, Leaf, c);
      j := Decrement(j, header, Join(c.side, Leaf, c.color, c.e, c.sib), c.up);
      assert old(allocated(nodes));
    }
  }
}
