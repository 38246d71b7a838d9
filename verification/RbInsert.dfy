/** Restoring the red-black invariant after a red node has been linked in. */
module RbInsert {
  import opened RbShape
  import opened RbLinks

  /** The only thing that may be wrong is that the red root of `t` has a red parent, or is the root. */
  ghost predicate Rising(t: Tree, c: Ctx, h: nat) {
    && t.Fork? && t.color == Red && NoRedRed(t) && BlackHeight(t, h)
    && CtxHeight(c, h) && CtxNoRedRed(c)
  }

  ghost predicate SameEntries(t: Tree, c: Ctx, t': Tree, c': Ctx) {
    Order(t', c') == Order(t, c) && Nodes(t') + CtxNodes(c') == Nodes(t) + CtxNodes(c)
  }

  lemma Grandparent(c: Ctx, h: nat)
    requires CtxHeight(c, h) && CtxNoRedRed(c) && c.Under? && c.color == Red
    ensures BlackHeight(c.sib, h) && NoRedRed(c.sib) && RootBlack(c.sib)
    ensures c.up.Under? && c.up.color == Black && BlackHeight(c.up.sib, h) && NoRedRed(c.up.sib)
    ensures CtxHeight(c.up, h) && CtxHeight(c.up.up, h + 1) && CtxNoRedRed(c.up) && CtxNoRedRed(c.up.up)
  {
    assert CtxHeight(c.up, h + Step(Red)) && CtxNoRedRed(c.up);
  }

  // ---------------------------------------------------------------- red uncle

  ghost function Recolored(t: Tree, c: Ctx): Tree
    requires c.Under? && c.up.Under? && c.up.sib.Fork?
  {
    Join(c.up.side, Join(c.side, t, Black, c.e, c.sib), Red, c.up.e, Blacken(c.up.sib))
  }

  lemma RecoloredRising(t: Tree, c: Ctx, h: nat)
    requires Rising(t, c, h) && c.Under? && c.color == Red && !RootBlack(c.up.sib)
    ensures Rising(Recolored(t, c), c.up.up, h + 1)
  {
    Grandparent(c, h);
    var p := Join(c.side, t, Black, c.e, c.sib);
    assert BlackHeight(p, h + 1) && NoRedRed(p);
    assert BlackHeight(Blacken(c.up.sib), h + 1) && NoRedRed(Blacken(c.up.sib));
  }

  lemma RecoloredSame(t: Tree, c: Ctx)
    requires c.Under? && c.up.Under? && c.up.sib.Fork?
    ensures SameEntries(t, c, Recolored(t, c), c.up.up)
  {
    var p := Join(c.side, t, c.color, c.e, c.sib);
    OrderUp(t, c);
    OrderUp(p, c.up);
    var p' := Join(c.side, t, Black, c.e, c.sib);
    assert InOrder(p') == InOrder(p) && Nodes(p') == Nodes(p);
    var u, u' := c.up.sib, Blacken(c.up.sib);
    assert InOrder(u') == InOrder(u) && Nodes(u') == Nodes(u);
  }

  // ---------------------------------------------------------------- inner grandchild

  ghost function Zig(t: Tree, c: Ctx): (Tree, Ctx)
    requires t.Fork? && c.Under?
  {
    if c.side == OnRight then
      (Fork(c.sib, c.color, c.e, t.left), Under(c.up, OnLeft, t.color, t.e, t.right))
    else
      (Fork(t.right, c.color, c.e, c.sib), Under(c.up, OnRight, t.color, t.e, t.left))
  }

  lemma ZigRising(t: Tree, c: Ctx, h: nat)
    requires Rising(t, c, h) && c.Under? && c.color == Red
    ensures Rising(Zig(t, c).0, Zig(t, c).1, h) && SameEntries(t, c, Zig(t, c).0, Zig(t, c).1)
  {
    var t', c' := Zig(t, c).0, Zig(t, c).1;
    OrderUp(t, c);
    OrderUp(t', c');
    if c.side == OnRight {
      RotatedLeftOrder(Join(OnRight, t, c.color, c.e, c.sib));
    } else {
      RotatedRightOrder(Join(OnLeft, t, c.color, c.e, c.sib));
    }
  }

  // ---------------------------------------------------------------- outer grandchild

  ghost function Lifted(c: Ctx): Ctx
    requires c.Under? && c.up.Under?
  {
    Under(c.up.up, c.side, Black, c.e, Join(c.side, c.sib, Red, c.up.e, c.up.sib))
  }

  lemma LiftedRising(t: Tree, c: Ctx, h: nat)
    requires Rising(t, c, h) && c.Under? && c.color == Red && c.side == c.up.side && RootBlack(c.up.sib)
    ensures Rising(t, Lifted(c), h) && SameEntries(t, c, t, Lifted(c))
  {
    hide SameEntries;
    Grandparent(c, h);
    LiftedSame(t, c);
  }

  lemma LiftedSame(t: Tree, c: Ctx)
    requires c.Under? && c.color == Red && c.up.Under? && c.side == c.up.side
    ensures SameEntries(t, c, t, Lifted(c))
  {
    var g := c.up;
    var p := Join(c.side, t, Red, c.e, c.sib);
    var top := Join(g.side, p, Red, g.e, g.sib);
    OrderUp(t, c);
    OrderUp(p, g);
    OrderUp(t, Lifted(c));
    if c.side == OnLeft {
      RotatedRightOrder(top);
    } else {
      RotatedLeftOrder(top);
    }
  }

  // ---------------------------------------------------------------- the heap

  /** The heap is `Plug(t, c)`, and `x` is the red node whose parent may be red. */
  ghost predicate RedAt(header: Node, x: Node, t: Tree, c: Ctx, h: nat)
    reads header`parent, Nodes(t), CtxNodes(c)
  {
    Zip(header, t, c) && Rising(t, c, h) && x == t.e.node
  }

  /** The parent and the uncle turn black and the grandparent, which is returned, red. */
  method Recolor(x: Node, u: Node, header: Node, ghost t: Tree, ghost c: Ctx) returns (g: Node)
    requires Zip(header, t, c) && t.Fork? && x == t.e.node
    requires c.Under? && c.up.Under? && c.up.sib.Fork? && u == c.up.sib.e.node
    modifies CtxNodes(c)`color
    ensures g == c.up.e.node && Zip(header, Recolored(t, c), c.up.up)
  {
    var p := x.parent;
    g := p.parent;
    ZipUp(header, t, c);
    Paint(p, Black, header, Join(c.side, t, c.color, c.e, c.sib), c.up);
    ghost var t1 := Join(c.side, t, Black, c.e, c.sib);
    ZipUp(header, t1, c.up);
    ghost var t2 := Join(c.up.side, t1, c.up.color, c.up.e, c.up.sib);
    if c.up.side == OnLeft {
      ZipRight(header, t2, c.up.up);
    } else {
      ZipLeft(header, t2, c.up.up);
    }
    ghost var c2 := Under(c.up.up, if c.up.side == OnLeft then OnRight else OnLeft, c.up.color, c.up.e, t1);
    Paint(u, Black, header, c.up.sib, c2);
    ZipUp(header, Blacken(c.up.sib), c2);
    Paint(g, Red, header, Join(c.up.side, t1, c.up.color, c.up.e, Blacken(c.up.sib)), c.up.up);
  }

  /** An inner grandchild is first rotated outwards. */
  method StraightenLeft(x: Node, header: Node, ghost t: Tree, ghost c: Ctx, ghost h: nat)
    returns (x': Node, ghost t': Tree, ghost c': Ctx)
    requires RedAt(header, x, t, c, h) && c.Under? && c.color == Red
    modifies header`parent, All(t, c)`parent, All(t, c)`left, All(t, c)`right
    ensures RedAt(header, x', t', c', h) && SameEntries(t, c, t', c')
    ensures c'.Under? && c'.side == OnLeft && c'.up == c.up && c'.color == Red
  {
    Family(header, t, c);
    x', t', c' := x, t, c;
    if x == x.parent.right {
      ZigRising(t, c, h);
      x' := x.parent;
      ZipUp(header, t, c);
      RotateLeft(x', header, Join(c.side, t, c.color, c.e, c.sib), c.up);
      t', c' := Zig(t, c).0, Zig(t, c).1;
      ZipLeft(header, RotatedLeft(Join(c.side, t, c.color, c.e, c.sib)), c.up);
    }
  }

  /** The outer grandchild case: the parent turns black, the grandparent red, and the grandparent is
      rotated below the parent. */
  method LiftLeft(x: Node, header: Node, ghost t: Tree, ghost c: Ctx)
    requires Zip(header, t, c) && t.Fork? && x == t.e.node
    requires c.Under? && c.up.Under? && c.side == OnLeft && c.up.side == OnLeft
    modifies header`parent, All(t, c)`color, All(t, c)`parent, All(t, c)`left, All(t, c)`right
    ensures Zip(header, t, Lifted(c))
  {
    var p := x.parent;
    var g := p.parent;
    ZipUp(header, t, c);
    ghost var t1 := Fork(t, Black, c.e, c.sib);
    Paint(p, Black, header, Fork(t, c.color, c.e, c.sib), c.up);
    ZipUp(header, t1, c.up);
    ghost var t2 := Fork(t1, Red, c.up.e, c.up.sib);
    Paint(g, Red, header, Fork(t1, c.up.color, c.up.e, c.up.sib), c.up.up);
    RotateRight(g, header, t2, c.up.up);
    ZipLeft(header, RotatedRight(t2), c.up.up);
  }

  /** The black uncle case when the parent of `x` is the left child of the grandparent. */
  method OuterLeft(x: Node, header: Node, ghost t: Tree, ghost c: Ctx, ghost h: nat)
    returns (x': Node, ghost t': Tree, ghost c': Ctx)
    requires RedAt(header, x, t, c, h) && c.Under? && c.color == Red && c.up.Under? && c.up.side == OnLeft
    requires RootBlack(c.up.sib)
    modifies header`parent, All(t, c)`color, All(t, c)`parent, All(t, c)`left, All(t, c)`right
    ensures RedAt(header, x', t', c', h) && SameEntries(t, c, t', c') && Depth(c') < Depth(c)
  {
    x', t', c' := StraightenLeft(x, header, t, c, h);
    LiftedRising(t', c', h);
    LiftLeft(x', header, t', c');
    c' := Lifted(c');
  }

  /** One turn of the loop when the parent of `x` is the left child of the grandparent. */
  method RebalanceLeft(x: Node, header: Node, ghost t: Tree, ghost c: Ctx, ghost h: nat)
    returns (x': Node, ghost t': Tree, ghost c': Ctx, ghost h': nat)
    requires RedAt(header, x, t, c, h) && c.Under? && c.color == Red && c.up.Under? && c.up.side == OnLeft
    modifies header`parent, All(t, c)`color, All(t, c)`parent, All(t, c)`left, All(t, c)`right
    ensures RedAt(header, x', t', c', h') && SameEntries(t, c, t', c') && Depth(c') < Depth(c)
  {
    hide Order, InOrder, Before, After, NoRedRed, BlackHeight, CtxHeight, CtxNoRedRed, Distinct, CtxDistinct;
    Family(header, t, c);
    var y := x.parent.parent.right;
    if y != null && y.color == Red {
      RecoloredRising(t, c, h);
      RecoloredSame(t, c);
      x' := Recolor(x, y, header, t, c);
      t', c', h' := Recolored(t, c), c.up.up, h + 1;
    } else {
      x', t', c' := OuterLeft(x, header, t, c, h);
      h' := h;
    }
  }

  /** An inner grandchild is first rotated outwards. */
  method StraightenRight(x: Node, header: Node, ghost t: Tree, ghost c: Ctx, ghost h: nat)
    returns (x': Node, ghost t': Tree, ghost c': Ctx)
    requires RedAt(header, x, t, c, h) && c.Under? && c.color == Red
    modifies header`parent, All(t, c)`parent, All(t, c)`right, All(t, c)`left
    ensures RedAt(header, x', t', c', h) && SameEntries(t, c, t', c')
    ensures c'.Under? && c'.side == OnRight && c'.up == c.up && c'.color == Red
  {
    Family(header, t, c);
    x', t', c' := x, t, c;
    if x == x.parent.left {
      ZigRising(t, c, h);
      x' := x.parent;
      ZipUp(header, t, c);
      RotateRight(x', header, Join(c.side, t, c.color, c.e, c.sib), c.up);
      t', c' := Zig(t, c).0, Zig(t, c).1;
      ZipRight(header, RotatedRight(Join(c.side, t, c.color, c.e, c.sib)), c.up);
    }
  }

  /** The outer grandchild case: the parent turns black, the grandparent red, and the grandparent is
      rotated below the parent. */
  method LiftRight(x: Node, header: Node, ghost t: Tree, ghost c: Ctx)
    requires Zip(header, t, c) && t.Fork? && x == t.e.node
    requires c.Under? && c.up.Under? && c.side == OnRight && c.up.side == OnRight
    modifies header`parent, All(t, c)`color, All(t, c)`parent, All(t, c)`right, All(t, c)`left
    ensures Zip(header, t, Lifted(c))
  {
    var p := x.parent;
    var g := p.parent;
    ZipUp(header, t, c);
    ghost var t1 := Fork(c.sib, Black, c.e, t);
    Paint(p, Black, header, Fork(c.sib, c.color, c.e, t), c.up);
    ZipUp(header, t1, c.up);
    ghost var t2 := Fork(c.up.sib, Red, c.up.e, t1);
    Paint(g, Red, header, Fork(c.up.sib, c.up.color, c.up.e, t1), c.up.up);
    RotateLeft(g, header, t2, c.up.up);
    ZipRight(header, RotatedLeft(t2), c.up.up);
  }

  /** The black uncle case when the parent of `x` is the right child of the grandparent. */
  method OuterRight(x: Node, header: Node, ghost t: Tree, ghost c: Ctx, ghost h: nat)
    returns (x': Node, ghost t': Tree, ghost c': Ctx)
    requires RedAt(header, x, t, c, h) && c.Under? && c.color == Red && c.up.Under? && c.up.side == OnRight
    requires RootBlack(c.up.sib)
    modifies header`parent, All(t, c)`color, All(t, c)`parent, All(t, c)`right, All(t, c)`left
    ensures RedAt(header, x', t', c', h) && SameEntries(t, c, t', c') && Depth(c') < Depth(c)
  {
    x', t', c' := StraightenRight(x, header, t, c, h);
    LiftedRising(t', c', h);
    LiftRight(x', header, t', c');
    c' := Lifted(c');
  }

  /** One turn of the loop when the parent of `x` is the right child of the grandparent. */
  method RebalanceRight(x: Node, header: Node, ghost t: Tree, ghost c: Ctx, ghost h: nat)
    returns (x': Node, ghost t': Tree, ghost c': Ctx, ghost h': nat)
    requires RedAt(header, x, t, c, h) && c.Under? && c.color == Red && c.up.Under? && c.up.side == OnRight
    modifies header`parent, All(t, c)`color, All(t, c)`parent, All(t, c)`right, All(t, c)`left
    ensures RedAt(header, x', t', c', h') && SameEntries(t, c, t', c') && Depth(c') < Depth(c)
  {
    hide Order, InOrder, Before, After, NoRedRed, BlackHeight, CtxHeight, CtxNoRedRed, Distinct, CtxDistinct;
    Family(header, t, c);
    var y := x.parent.parent.left;
    if y != null && y.color == Red {
      RecoloredRising(t, c, h);
      RecoloredSame(t, c);
      x' := Recolor(x, y, header, t, c);
      t', c', h' := Recolored(t, c), c.up.up, h + 1;
    } else {
      x', t', c' := OuterRight(x, header, t, c, h);
      h' := h;
    }
  }

  /** What the loop guard and the branch test read. */
  ghost predicate Around(header: Node, t: Tree, c: Ctx)
    reads header`parent, Nodes(t)`parent, CtxNodes(c)
  {
    && t.Fork? && (header.parent == t.e.node <==> c.Top?) && t.e.node.parent == CtxParent(c, header)
    && (c.Under? ==> c.e.node.color == c.color && (c.color == Red ==> c.up.Under?))
    && (c.Under? && c.up.Under? ==>
          && c.e.node.parent == c.up.e.node
          && (assert c.up.e.node in CtxNodes(c.up); c.e.node == c.up.e.node.left <==> c.up.side == OnLeft))
  }

  lemma LooksAround(header: Node, t: Tree, c: Ctx)
    requires Zip(header, t, c) && t.Fork? && CtxNoRedRed(c)
    ensures Around(header, t, c)
  {
    Family(header, t, c);
  }

  lemma RisingAround(header: Node, t: Tree, c: Ctx, h: nat)
    requires Zip(header, t, c) && Rising(t, c, h)
    ensures t.Fork? && Around(header, t, c)
  {
    LooksAround(header, t, c);
  }

  lemma Painted(t: Tree, c: Ctx, color: Color)
    requires t.Fork?
    ensures SameEntries(t, c, t.(color := color), c) && All(t.(color := color), c) == All(t, c)
  {
  }

  lemma SameAgain(t0: Tree, c0: Ctx, t1: Tree, c1: Ctx, t: Tree, c: Ctx)
    requires SameEntries(t0, c0, t1, c1) && SameEntries(t1, c1, t, c)
    ensures SameEntries(t0, c0, t, c) && All(t, c) == All(t0, c0)
  {
  }

  lemma Closed(t0: Tree, c0: Ctx, t: Tree, c: Ctx, shape: Tree)
    requires SameEntries(t0, c0, t, c) && InOrder(shape) == Order(t, c) && Nodes(shape) == All(t, c)
    ensures InOrder(shape) == Order(t0, c0) && Nodes(shape) == All(t0, c0)
  {
  }

  /** Restores the invariant after `x` has been linked in, painting it red first. */
  method Rebalance(x0: Node, header: Node, ghost t0: Tree, ghost c0: Ctx, ghost h0: nat)
    returns (ghost shape: Tree)
    requires Zip(header, t0, c0) && t0.Fork? && x0 == t0.e.node && Rising(t0.(color := Red), c0, h0)
    modifies header`parent, All(t0, c0)`color, All(t0, c0)`parent, All(t0, c0)`left, All(t0, c0)`right
    ensures Zip(header, shape, Top) && RedBlack(shape)
    ensures InOrder(shape) == Order(t0, c0) && Nodes(shape) == All(t0, c0)
  {
    hide Rising, SameEntries, RedBlack, Zip;
    var x := x0;
    ghost var t, c, h := t0.(color := Red), c0, h0;
    Paint(x, Red, header, t0, c0);
    Painted(t0, c0, Red);
    RisingAround(header, t, c, h);
    while x != header.parent && x.parent.color == Red
      invariant RedAt(header, x, t, c, h) && SameEntries(t0, c0, t, c)
      invariant Around(header, t, c) && All(t, c) == All(t0, c0)
      decreases Depth(c)
    {
      ghost var t1, c1 := t, c;
      if x.parent == x.parent.parent.left {
        x, t, c, h := RebalanceLeft(x, header, t, c, h);
      } else {
        x, t, c, h := RebalanceRight(x, header, t, c, h);
      }
      SameAgain(t0, c0, t1, c1, t, c);
      RisingAround(header, t, c, h);
    }
    shape := PaintRoot(header, t, c, h);
    Closed(t0, c0, t, c, shape);
  }

  method PaintRoot(header: Node, ghost t: Tree, ghost c: Ctx, ghost h: nat) returns (ghost shape: Tree)
    requires Zip(header, t, c) && Rising(t, c, h) && (c.Top? || c.color == Black)
    modifies All(t, c)`color
    ensures Zip(header, shape, Top) && RedBlack(shape)
    ensures InOrder(shape) == Order(t, c) && Nodes(shape) == All(t, c)
  {
    ghost var whole := Plug(t, c);
    ZipTop(header, t, c);
    PlugOrder(t, c);
    if c.Under? {
      PlugRedBlack(t, c, h);
    } else {
      assert BlackHeight(Blacken(t), h + 1);
    }
    Paint(header.parent, Black, header, whole, Top);
    shape := Blacken(whole);
  }
}
