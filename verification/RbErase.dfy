/** Restoring the red-black invariant after a black node has been taken out. */
module RbErase {
  import opened RbShape
  import opened RbLinks
  import opened RbInsert

  /** Every path through `t` has one black node too few, which painting the root of `t` black would
      repair if that root were red. */
  ghost predicate Falling(t: Tree, c: Ctx, h: nat) {
    && NoRedRed(Blacken(t)) && BlackHeight(t, h)
    && CtxHeight(c, h + 1) && CtxNoRedRed(c)
  }

  /** Nothing is missing any more. */
  ghost predicate Settled(t: Tree, c: Ctx, h: nat) {
    && NoRedRed(t) && RootBlack(t) && BlackHeight(t, h)
    && CtxHeight(c, h) && CtxNoRedRed(c)
  }

  lemma Children(t: Tree, h: int)
    requires t.Fork? && NoRedRed(t) && BlackHeight(t, h)
    ensures NoRedRed(t.left) && NoRedRed(t.right)
    ensures BlackHeight(t.left, h - Step(t.color)) && BlackHeight(t.right, h - Step(t.color))
  {
  }

  lemma Sibling(c: Ctx, h: nat)
    requires c.Under? && CtxHeight(c, h) && CtxNoRedRed(c)
    ensures BlackHeight(c.sib, h) && NoRedRed(c.sib) && CtxHeight(c.up, h + Step(c.color)) && CtxNoRedRed(c.up)
    ensures h > 0 ==> c.sib.Fork?
    ensures c.sib.Fork? ==> NoRedRed(c.sib.left) && NoRedRed(c.sib.right)
    ensures c.sib.Fork? ==>
              BlackHeight(c.sib.left, h - Step(c.sib.color)) && BlackHeight(c.sib.right, h - Step(c.sib.color))
  {
  }

  // ---------------------------------------------------------------- red sibling

  ghost function LiftedSibling(c: Ctx): Ctx
    requires c.Under? && c.sib.Fork?
  {
    if c.side == OnLeft then
      Under(Under(c.up, OnLeft, Black, c.sib.e, c.sib.right), OnLeft, Red, c.e, c.sib.left)
    else
      Under(Under(c.up, OnRight, Black, c.sib.e, c.sib.left), OnRight, Red, c.e, c.sib.right)
  }

  lemma LiftedSiblingFalling(t: Tree, c: Ctx, h: nat)
    requires Falling(t, c, h) && c.Under? && !RootBlack(c.sib)
    ensures var c' := LiftedSibling(c);
            && Falling(t, c', h) && c'.sib.Fork? && c'.sib.color == Black
            && c'.color == Red && c'.side == c.side && Depth(c') == Depth(c) + 1
  {
    Sibling(c, h + 1);
    assert CtxHeight(LiftedSibling(c).up, h + 1);
  }

  lemma LiftedSiblingSame(t: Tree, c: Ctx)
    requires c.Under? && c.sib.Fork?
    ensures SameEntries(t, c, t, LiftedSibling(c))
  {
    var p := Join(c.side, t, c.color, c.e, c.sib);
    OrderUp(t, c);
    var c' := LiftedSibling(c);
    OrderUp(t, c');
    OrderUp(Join(c'.side, t, c'.color, c'.e, c'.sib), c'.up);
    if c.side == OnLeft {
      RotatedLeftOrder(p);
    } else {
      RotatedRightOrder(p);
    }
  }

  // ---------------------------------------------------------------- black sibling, black nephews

  ghost function Merged(t: Tree, c: Ctx): Tree
    requires c.Under? && c.sib.Fork?
  {
    Join(c.side, t, c.color, c.e, c.sib.(color := Red))
  }

  lemma MergedFalling(t: Tree, c: Ctx, h: nat)
    requires Falling(t, c, h) && RootBlack(t) && c.Under? && c.sib.Fork? && c.sib.color == Black
    requires RootBlack(c.sib.left) && RootBlack(c.sib.right)
    ensures Falling(Merged(t, c), c.up, h + Step(c.color))
  {
    Sibling(c, h + 1);
    assert BlackHeight(c.sib.(color := Red), h) && NoRedRed(c.sib.(color := Red));
  }

  lemma MergedSame(t: Tree, c: Ctx)
    requires c.Under? && c.sib.Fork?
    ensures SameEntries(t, c, Merged(t, c), c.up)
  {
    OrderUp(t, c);
    assert InOrder(c.sib.(color := Red)) == InOrder(c.sib);
  }

  // ---------------------------------------------------------------- black sibling, red inner nephew

  ghost function Turned(c: Ctx): Ctx
    requires c.Under? && c.sib.Fork?
    requires if c.side == OnLeft then c.sib.left.Fork? else c.sib.right.Fork?
  {
    var w := c.sib;
    if c.side == OnLeft then
      c.(sib := Fork(w.left.left, Black, w.left.e, Fork(w.left.right, Red, w.e, w.right)))
    else
      c.(sib := Fork(Fork(w.left, Red, w.e, w.right.left), Black, w.right.e, w.right.right))
  }

  ghost predicate InnerRed(c: Ctx) {
    c.Under? && c.sib.Fork? && if c.side == OnLeft then !RootBlack(c.sib.left) else !RootBlack(c.sib.right)
  }

  ghost predicate OuterRed(c: Ctx) {
    c.Under? && c.sib.Fork? && if c.side == OnLeft then !RootBlack(c.sib.right) else !RootBlack(c.sib.left)
  }

  lemma TurnedFalling(t: Tree, c: Ctx, h: nat)
    requires Falling(t, c, h) && c.Under? && c.sib.Fork? && c.sib.color == Black && InnerRed(c) && !OuterRed(c)
    ensures Falling(t, Turned(c), h) && Turned(c).sib.color == Black && OuterRed(Turned(c))
  {
    Sibling(c, h + 1);
    var w, w' := c.sib, Turned(c).sib;
    Children(if c.side == OnLeft then w.left else w.right, h);
    if c.side == OnLeft {
      assert BlackHeight(w.left, h) && BlackHeight(w.left.left, h) && BlackHeight(w.left.right, h);
      assert BlackHeight(w'.right, h) && NoRedRed(w'.right);
    } else {
      assert BlackHeight(w.right, h) && BlackHeight(w.right.left, h) && BlackHeight(w.right.right, h);
      assert BlackHeight(w'.left, h) && NoRedRed(w'.left);
    }
    assert BlackHeight(w', h + 1) && NoRedRed(w');
  }

  lemma TurnedSame(t: Tree, c: Ctx)
    requires InnerRed(c)
    ensures SameEntries(t, c, t, Turned(c))
  {
    if c.side == OnLeft {
      RotatedRightOrder(c.sib);
    } else {
      RotatedLeftOrder(c.sib);
    }
    var w, w' := c.sib, Turned(c).sib;
    assert InOrder(w') == InOrder(w);
    assert Nodes(w') == Nodes(w) by {
      if c.side == OnLeft {
        assert Nodes(w') == Nodes(w.left.left) + {w.left.e.node} + (Nodes(w.left.right) + {w.e.node} + Nodes(w.right));
        assert Nodes(w) == (Nodes(w.left.left) + {w.left.e.node} + Nodes(w.left.right)) + {w.e.node} + Nodes(w.right);
      } else {
        assert Nodes(w') == (Nodes(w.left) + {w.e.node} + Nodes(w.right.left)) + {w.right.e.node} +
                 Nodes(w.right.right);
        assert Nodes(w) == Nodes(w.left) + {w.e.node} + (Nodes(w.right.left) + {w.right.e.node} + Nodes(w.right.right));
      }
    }
  }

  // ---------------------------------------------------------------- black sibling, red outer nephew

  ghost function Raised(c: Ctx): Ctx
    requires c.Under? && c.sib.Fork?
  {
    if c.side == OnLeft then
      Under(Under(c.up, OnLeft, c.color, c.sib.e, Blacken(c.sib.right)), OnLeft, Black, c.e, c.sib.left)
    else
      Under(Under(c.up, OnRight, c.color, c.sib.e, Blacken(c.sib.left)), OnRight, Black, c.e, c.sib.right)
  }

  lemma RaisedSettled(t: Tree, c: Ctx, h: nat)
    requires Falling(t, c, h) && RootBlack(t) && c.Under? && c.sib.Fork? && c.sib.color == Black && OuterRed(c)
    ensures Settled(t, Raised(c), h)
  {
    var far := if c.side == OnLeft then c.sib.right else c.sib.left;
    Sibling(c, h + 1);
    Children(far, h);
    assert BlackHeight(Blacken(far), h + 1) && NoRedRed(Blacken(far));
    assert CtxHeight(Raised(c).up, h + 1);
  }

  lemma RaisedSame(t: Tree, c: Ctx)
    requires c.Under? && c.sib.Fork?
    ensures SameEntries(t, c, t, Raised(c))
  {
    LiftedSiblingSame(t, c);
    var c1, c2 := LiftedSibling(c), Raised(c);
    assert InOrder(c1.up.sib) == InOrder(c2.up.sib);
    assert Nodes(c1.up.sib) == Nodes(c2.up.sib);
    assert Before(c1.up) == Before(c2.up) && After(c1.up) == After(c2.up);
  }

  // ---------------------------------------------------------------- the heap

  ghost function Other(s: Side): Side {
    if s == OnLeft then OnRight else OnLeft
  }

  ghost function Across(t: Tree, c: Ctx): Ctx
    requires c.Under?
  {
    Under(c.up, Other(c.side), c.color, c.e, t)
  }

  lemma ZipAcross(header: Node, t: Tree, c: Ctx)
    requires c.Under? && Zip(header, t, c)
    ensures Zip(header, c.sib, Across(t, c))
  {
    ZipUp(header, t, c);
    if c.side == OnLeft {
      ZipRight(header, Join(c.side, t, c.color, c.e, c.sib), c.up);
    } else {
      ZipLeft(header, Join(c.side, t, c.color, c.e, c.sib), c.up);
    }
  }

  lemma ZipDown(header: Node, t: Tree, c: Ctx)
    requires c.Under? && Zip(header, Join(c.side, t, c.color, c.e, c.sib), c.up)
    ensures Zip(header, t, c)
  {
    if c.side == OnLeft {
      ZipLeft(header, Join(c.side, t, c.color, c.e, c.sib), c.up);
    } else {
      ZipRight(header, Join(c.side, t, c.color, c.e, c.sib), c.up);
    }
  }

  /** The fields of the parent, the sibling and the nephews of a subtree. */
  lemma Kin(header: Node, t: Tree, c: Ctx)
    requires Zip(header, t, c) && c.Under?
    ensures Fields(c.e.node) == CtxAt(c, header, Root(t), c.e.node)
    ensures c.sib.Fork? ==>
              var w := c.sib.e.node;
              && w.color == c.sib.color && w.left == Root(c.sib.left) && w.right == Root(c.sib.right)
              && w != c.e.node && Root(t) != w
              && (c.sib.left.Fork? ==> w.left.color == c.sib.left.color)
              && (c.sib.right.Fork? ==> w.right.color == c.sib.right.color)
  {
    if c.sib.Fork? {
      ZipAcross(header, t, c);
      ZipLeft(header, c.sib, Across(t, c));
      ZipRight(header, c.sib, Across(t, c));
    }
  }

  method PaintParent(p: Node, color: Color, header: Node, ghost t: Tree, ghost c: Ctx)
    requires Zip(header, t, c) && c.Under? && p == c.e.node
    modifies p`color
    ensures Zip(header, t, c.(color := color))
  {
    ZipUp(header, t, c);
    Paint(p, color, header, Join(c.side, t, c.color, c.e, c.sib), c.up);
    ZipDown(header, t, c.(color := color));
  }

  method PaintSibling(w: Node, color: Color, header: Node, ghost t: Tree, ghost c: Ctx)
    requires Zip(header, t, c) && c.Under? && c.sib.Fork? && w == c.sib.e.node
    modifies w`color
    ensures Zip(header, t, c.(sib := c.sib.(color := color)))
  {
    ZipAcross(header, t, c);
    Paint(w, color, header, c.sib, Across(t, c));
    ZipAcross(header, c.sib.(color := color), Across(t, c));
  }

  /** A red sibling turns black, its parent red, and the parent is rotated below it. */
  method LiftSiblingLeft(xp: Node, w: Node, header: Node, ghost t: Tree, ghost c: Ctx)
    requires Zip(header, t, c) && c.Under? && c.side == OnLeft && c.sib.Fork? && xp == c.e.node && w == c.sib.e.node
    modifies header`parent, All(t, c)`color, All(t, c)`parent, All(t, c)`left, All(t, c)`right
    ensures Zip(header, t, LiftedSibling(c))
  {
    PaintSibling(w, Black, header, t, c);
    ghost var c1 := c.(sib := c.sib.(color := Black));
    PaintParent(xp, Red, header, t, c1);
    ghost var c2 := c1.(color := Red);
    ZipUp(header, t, c2);
    ghost var p := Join(OnLeft, t, Red, c.e, c2.sib);
    RotateLeft(xp, header, p, c.up);
    ZipLeft(header, RotatedLeft(p), c.up);
    ZipDown(header, t, LiftedSibling(c));
  }

  /** A black sibling with a red inner child is rotated below that child. */
  method TurnLeft(w: Node, header: Node, ghost t: Tree, ghost c: Ctx)
    requires Zip(header, t, c) && c.Under? && c.side == OnLeft && InnerRed(c) && w == c.sib.e.node
    modifies header`parent, All(t, c)`color, All(t, c)`parent, All(t, c)`left, All(t, c)`right
    ensures Zip(header, t, Turned(c))
  {
    Kin(header, t, c);
    ZipAcross(header, t, c);
    ghost var d, s := Across(t, c), c.sib;
    ZipLeft(header, s, d);
    ghost var dl := Under(d, OnLeft, s.color, s.e, s.right);
    if w.left != null {
      Paint(w.left, Black, header, s.left, dl);
    }
    ZipUp(header, Blacken(s.left), dl);
    ghost var s1 := s.(left := Blacken(s.left));
    Paint(w, Red, header, s1, d);
    RotateRight(w, header, s1.(color := Red), d);
    ZipAcross(header, RotatedRight(s1.(color := Red)), d);
  }

  /** The sibling takes the color of the parent, the parent and the outer child of the sibling turn
      black, and the parent is rotated below the sibling. */
  method RaiseLeft(xp: Node, w: Node, header: Node, ghost t: Tree, ghost c: Ctx)
    requires Zip(header, t, c) && c.Under? && c.side == OnLeft && c.sib.Fork? && xp == c.e.node && w == c.sib.e.node
    modifies header`parent, All(t, c)`color, All(t, c)`parent, All(t, c)`left, All(t, c)`right
    ensures Zip(header, t, Raised(c))
  {
    Kin(header, t, c);
    PaintSibling(w, xp.color, header, t, c);
    ghost var c1 := c.(sib := c.sib.(color := c.color));
    PaintParent(xp, Black, header, t, c1);
    ghost var c2 := c1.(color := Black);
    Kin(header, t, c2);
    if w.right != null {
      PaintRightNephew(w.right, header, t, c2);
    }
    ghost var c3 := c2.(sib := c2.sib.(right := Blacken(c2.sib.right)));
    ZipUp(header, t, c3);
    ghost var p := Join(OnLeft, t, Black, c.e, c3.sib);
    RotateLeft(xp, header, p, c.up);
    ZipLeft(header, RotatedLeft(p), c.up);
    ZipDown(header, t, Raised(c));
  }

  method PaintRightNephew(n: Node, header: Node, ghost t: Tree, ghost c: Ctx)
    requires Zip(header, t, c) && c.Under? && c.sib.Fork? && c.sib.right.Fork? && n == c.sib.right.e.node
    modifies n`color
    ensures Zip(header, t, c.(sib := c.sib.(right := Blacken(c.sib.right))))
  {
    ZipAcross(header, t, c);
    ghost var d, s := Across(t, c), c.sib;
    ZipRight(header, s, d);
    Paint(n, Black, header, s.right, Under(d, OnRight, s.color, s.e, s.left));
    ZipUp(header, Blacken(s.right), Under(d, OnRight, s.color, s.e, s.left));
    ZipAcross(header, s.(right := Blacken(s.right)), d);
  }

  /** A red sibling turns black, its parent red, and the parent is rotated below it. */
  method LiftSiblingRight(xp: Node, w: Node, header: Node, ghost t: Tree, ghost c: Ctx)
    requires Zip(header, t, c) && c.Under? && c.side == OnRight && c.sib.Fork? && xp == c.e.node && w == c.sib.e.node
    modifies header`parent, All(t, c)`color, All(t, c)`parent, All(t, c)`right, All(t, c)`left
    ensures Zip(header, t, LiftedSibling(c))
  {
    PaintSibling(w, Black, header, t, c);
    ghost var c1 := c.(sib := c.sib.(color := Black));
    PaintParent(xp, Red, header, t, c1);
    ghost var c2 := c1.(color := Red);
    ZipUp(header, t, c2);
    ghost var p := Join(OnRight, t, Red, c.e, c2.sib);
    RotateRight(xp, header, p, c.up);
    ZipRight(header, RotatedRight(p), c.up);
    ZipDown(header, t, LiftedSibling(c));
  }

  /** A black sibling with a red inner child is rotated below that child. */
  method TurnRight(w: Node, header: Node, ghost t: Tree, ghost c: Ctx)
    requires Zip(header, t, c) && c.Under? && c.side == OnRight && InnerRed(c) && w == c.sib.e.node
    modifies header`parent, All(t, c)`color, All(t, c)`parent, All(t, c)`right, All(t, c)`left
    ensures Zip(header, t, Turned(c))
  {
    Kin(header, t, c);
    ZipAcross(header, t, c);
    ghost var d, s := Across(t, c), c.sib;
    ZipRight(header, s, d);
    ghost var dl := Under(d, OnRight, s.color, s.e, s.left);
    if w.right != null {
      Paint(w.right, Black, header, s.right, dl);
    }
    ZipUp(header, Blacken(s.right), dl);
    ghost var s1 := s.(right := Blacken(s.right));
    Paint(w, Red, header, s1, d);
    RotateLeft(w, header, s1.(color := Red), d);
    ZipAcross(header, RotatedLeft(s1.(color := Red)), d);
  }

  /** The sibling takes the color of the parent, the parent and the outer child of the sibling turn
      black, and the parent is rotated below the sibling. */
  method RaiseRight(xp: Node, w: Node, header: Node, ghost t: Tree, ghost c: Ctx)
    requires Zip(header, t, c) && c.Under? && c.side == OnRight && c.sib.Fork? && xp == c.e.node && w == c.sib.e.node
    modifies header`parent, All(t, c)`color, All(t, c)`parent, All(t, c)`right, All(t, c)`left
    ensures Zip(header, t, Raised(c))
  {
    Kin(header, t, c);
    PaintSibling(w, xp.color, header, t, c);
    ghost var c1 := c.(sib := c.sib.(color := c.color));
    PaintParent(xp, Black, header, t, c1);
    ghost var c2 := c1.(color := Black);
    Kin(header, t, c2);
    if w.left != null {
      PaintLeftNephew(w.left, header, t, c2);
    }
    ghost var c3 := c2.(sib := c2.sib.(left := Blacken(c2.sib.left)));
    ZipUp(header, t, c3);
    ghost var p := Join(OnRight, t, Black, c.e, c3.sib);
    RotateRight(xp, header, p, c.up);
    ZipRight(header, RotatedRight(p), c.up);
    ZipDown(header, t, Raised(c));
  }

  method PaintLeftNephew(n: Node, header: Node, ghost t: Tree, ghost c: Ctx)
    requires Zip(header, t, c) && c.Under? && c.sib.Fork? && c.sib.left.Fork? && n == c.sib.left.e.node
    modifies n`color
    ensures Zip(header, t, c.(sib := c.sib.(left := Blacken(c.sib.left))))
  {
    ZipAcross(header, t, c);
    ghost var d, s := Across(t, c), c.sib;
    ZipLeft(header, s, d);
    Paint(n, Black, header, s.left, Under(d, OnLeft, s.color, s.e, s.right));
    ZipUp(header, Blacken(s.left), Under(d, OnLeft, s.color, s.e, s.right));
    ZipAcross(header, s.(left := Blacken(s.left)), d);
  }

  /** The heap is `Plug(t, c)`; `x` is the root of `t` and `xp` the node above it. */
  ghost predicate FallAt(header: Node, x: Node?, xp: Node, t: Tree, c: Ctx, h: nat)
    reads header`parent, Nodes(t), CtxNodes(c)
  {
    Zip(header, t, c) && Falling(t, c, h) && x == Root(t) && xp == CtxParent(c, header)
  }

  /** A red sibling is replaced by a black one; returns the sibling. */
  method BlackSiblingLeft(xp: Node, header: Node, ghost t: Tree, ghost c: Ctx, ghost h: nat)
    returns (w: Node, ghost c': Ctx)
    requires Zip(header, t, c) && Falling(t, c, h) && c.Under? && c.side == OnLeft && xp == c.e.node
    modifies header`parent, All(t, c)`color, All(t, c)`parent, All(t, c)`left, All(t, c)`right
    ensures Zip(header, t, c') && Falling(t, c', h) && SameEntries(t, c, t, c')
    ensures c'.Under? && c'.side == OnLeft && xp == c'.e.node && c'.sib.Fork? && c'.sib.color == Black
    ensures w == c'.sib.e.node
    ensures Depth(c') == Depth(c) || (Depth(c') == Depth(c) + 1 && c'.color == Red)
  {
    Kin(header, t, c);
    Sibling(c, h + 1);
    c' := c;
    w := xp.right;
    if w.color == Red {
      LiftedSiblingFalling(t, c, h);
      LiftedSiblingSame(t, c);
      LiftSiblingLeft(xp, w, header, t, c);
      c' := LiftedSibling(c);
      Kin(header, t, c');
      w := xp.right;
    }
  }

  /** The end of a turn with a red nephew: afterwards nothing is missing. */
  method SettleLeft(xp: Node, w0: Node, header: Node, ghost t: Tree, ghost c0: Ctx, ghost h: nat)
    returns (ghost c': Ctx)
    requires Zip(header, t, c0) && Falling(t, c0, h) && RootBlack(t)
    requires c0.Under? && c0.side == OnLeft && xp == c0.e.node && c0.sib.Fork? && c0.sib.color == Black
    requires w0 == c0.sib.e.node
    requires InnerRed(c0) || OuterRed(c0)
    modifies header`parent, All(t, c0)`color, All(t, c0)`parent, All(t, c0)`left, All(t, c0)`right
    ensures Zip(header, t, c') && Settled(t, c', h) && SameEntries(t, c0, t, c')
  {
    Kin(header, t, c0);
    var w := w0;
    ghost var c := c0;
    if w.right == null || w.right.color == Black {
      TurnedFalling(t, c, h);
      TurnedSame(t, c);
      TurnLeft(w, header, t, c);
      c := Turned(c);
      Kin(header, t, c);
      w := xp.right;
    }
    RaisedSettled(t, c, h);
    RaisedSame(t, c);
    RaiseLeft(xp, w, header, t, c);
    c' := Raised(c);
  }

  /** A red sibling is replaced by a black one; returns the sibling. */
  method BlackSiblingRight(xp: Node, header: Node, ghost t: Tree, ghost c: Ctx, ghost h: nat)
    returns (w: Node, ghost c': Ctx)
    requires Zip(header, t, c) && Falling(t, c, h) && c.Under? && c.side == OnRight && xp == c.e.node
    modifies header`parent, All(t, c)`color, All(t, c)`parent, All(t, c)`right, All(t, c)`left
    ensures Zip(header, t, c') && Falling(t, c', h) && SameEntries(t, c, t, c')
    ensures c'.Under? && c'.side == OnRight && xp == c'.e.node && c'.sib.Fork? && c'.sib.color == Black
    ensures w == c'.sib.e.node
    ensures Depth(c') == Depth(c) || (Depth(c') == Depth(c) + 1 && c'.color == Red)
  {
    Kin(header, t, c);
    Sibling(c, h + 1);
    c' := c;
    w := xp.left;
    if w.color == Red {
      LiftedSiblingFalling(t, c, h);
      LiftedSiblingSame(t, c);
      LiftSiblingRight(xp, w, header, t, c);
      c' := LiftedSibling(c);
      Kin(header, t, c');
      w := xp.left;
    }
  }

  /** The end of a turn with a red nephew: afterwards nothing is missing. */
  method SettleRight(xp: Node, w0: Node, header: Node, ghost t: Tree, ghost c0: Ctx, ghost h: nat)
    returns (ghost c': Ctx)
    requires Zip(header, t, c0) && Falling(t, c0, h) && RootBlack(t)
    requires c0.Under? && c0.side == OnRight && xp == c0.e.node && c0.sib.Fork? && c0.sib.color == Black
    requires w0 == c0.sib.e.node
    requires InnerRed(c0) || OuterRed(c0)
    modifies header`parent, All(t, c0)`color, All(t, c0)`parent, All(t, c0)`right, All(t, c0)`left
    ensures Zip(header, t, c') && Settled(t, c', h) && SameEntries(t, c0, t, c')
  {
    Kin(header, t, c0);
    var w := w0;
    ghost var c := c0;
    if w.left == null || w.left.color == Black {
      TurnedFalling(t, c, h);
      TurnedSame(t, c);
      TurnRight(w, header, t, c);
      c := Turned(c);
      Kin(header, t, c);
      w := xp.left;
    }
    RaisedSettled(t, c, h);
    RaisedSame(t, c);
    RaiseRight(xp, w, header, t, c);
    c' := Raised(c);
  }

  /** The end of a turn without a red nephew: the sibling turns red and the loop moves up. */
  method MoveUp(xp: Node, w: Node, header: Node, ghost t: Tree, ghost c: Ctx, ghost h: nat)
    returns (xp': Node, ghost t': Tree, ghost h': nat)
    requires Zip(header, t, c) && Falling(t, c, h) && RootBlack(t)
    requires c.Under? && xp == c.e.node && c.sib.Fork? && c.sib.color == Black && w == c.sib.e.node
    requires !InnerRed(c) && !OuterRed(c)
    modifies w`color
    ensures FallAt(header, xp, xp', t', c.up, h') && SameEntries(t, c, t', c.up) && (c.color == Red ==> !RootBlack(t'))
  {
    MergedFalling(t, c, h);
    MergedSame(t, c);
    PaintSibling(w, Red, header, t, c);
    ZipUp(header, t, c.(sib := c.sib.(color := Red)));
    t', h' := Merged(t, c), h + Step(c.color);
    assert Fields(xp) == At(t', CtxParent(c.up, header), xp);
    xp' := xp.parent;
  }

  /** Decreases with every turn that does not leave the loop: a red root ends the loop at once. */
  ghost function Measure(t: Tree, c: Ctx): nat {
    if RootBlack(t) then 1 + Depth(c) else 0
  }

  /** One turn of the loop for a left child; `done` when the loop is to be left. */
  method FallLeft(x: Node?, xp: Node, header: Node, ghost t: Tree, ghost c: Ctx, ghost h: nat)
    returns (x': Node?, xp': Node, done: bool, ghost t': Tree, ghost c': Ctx, ghost h': nat)
    requires FallAt(header, x, xp, t, c, h) && RootBlack(t) && c.Under? && c.side == OnLeft
    modifies header`parent, All(t, c)`color, All(t, c)`parent, All(t, c)`left, All(t, c)`right
    ensures SameEntries(t, c, t', c') && x' == Root(t')
    ensures if done then Zip(header, t', c') && Settled(t', c', h')
            else FallAt(header, x', xp', t', c', h') && Measure(t', c') < Measure(t, c)
  {
    var w;
    w, c' := BlackSiblingLeft(xp, header, t, c, h);
    Kin(header, t, c');
    done := !((w.left == null || w.left.color == Black) && (w.right == null || w.right.color == Black));
    if !done {
      xp', t', h' := MoveUp(xp, w, header, t, c', h);
      x', c' := xp, c'.up;
    } else {
      c' := SettleLeft(xp, w, header, t, c', h);
      x', xp', t', h' := x, xp, t, h;
    }
  }

  /** One turn of the loop for a right child; `done` when the loop is to be left. */
  method FallRight(x: Node?, xp: Node, header: Node, ghost t: Tree, ghost c: Ctx, ghost h: nat)
    returns (x': Node?, xp': Node, done: bool, ghost t': Tree, ghost c': Ctx, ghost h': nat)
    requires FallAt(header, x, xp, t, c, h) && RootBlack(t) && c.Under? && c.side == OnRight
    modifies header`parent, All(t, c)`color, All(t, c)`parent, All(t, c)`right, All(t, c)`left
    ensures SameEntries(t, c, t', c') && x' == Root(t')
    ensures if done then Zip(header, t', c') && Settled(t', c', h')
            else FallAt(header, x', xp', t', c', h') && Measure(t', c') < Measure(t, c)
  {
    var w;
    w, c' := BlackSiblingRight(xp, header, t, c, h);
    Kin(header, t, c');
    done := !((w.right == null || w.right.color == Black) && (w.left == null || w.left.color == Black));
    if !done {
      xp', t', h' := MoveUp(xp, w, header, t, c', h);
      x', c' := xp, c'.up;
    } else {
      c' := SettleRight(xp, w, header, t, c', h);
      x', xp', t', h' := x, xp, t, h;
    }
  }

  lemma FallGuard(header: Node, x: Node?, xp: Node, t: Tree, c: Ctx, h: nat)
    requires FallAt(header, x, xp, t, c, h)
    ensures x == header.parent <==> c.Top?
    ensures x != null ==> x.color == t.color
    ensures c.Under? ==> (x == xp.left <==> c.side == OnLeft)
  {
    if c.Under? {
      RootOutside(c, x);
      Kin(header, t, c);
      Sibling(c, h + 1);
    }
  }

  /** Walks up from where a black node is missing, then restores the whole invariant. */
  method RebalanceForErase(x0: Node?, xp0: Node, header: Node, ghost t0: Tree, ghost c0: Ctx, ghost h0: nat)
    returns (ghost shape: Tree)
    requires FallAt(header, x0, xp0, t0, c0, h0)
    modifies header`parent, All(t0, c0)`color, All(t0, c0)`parent, All(t0, c0)`left, All(t0, c0)`right
    ensures Zip(header, shape, Top) && RedBlack(shape)
    ensures InOrder(shape) == Order(t0, c0) && Nodes(shape) == All(t0, c0)
  {
    var x, xp := x0, xp0;
    var done := false;
    ghost var t, c, h := t0, c0, h0;
    FallGuard(header, x, xp, t, c, h);
    while x != header.parent && (x == null || x.color == Black)
      invariant FallAt(header, x, xp, t, c, h) && SameEntries(t0, c0, t, c) && !done
      invariant x == header.parent <==> c.Top?
      invariant x != null ==> x.color == t.color
      invariant c.Under? ==> (x == xp.left <==> c.side == OnLeft)
      decreases Measure(t, c)
    {
      if x == xp.left {
        x, xp, done, t, c, h := FallLeft(x, xp, header, t, c, h);
      } else {
        x, xp, done, t, c, h := FallRight(x, xp, header, t, c, h);
      }
      if done {
        break;
      }
      FallGuard(header, x, xp, t, c, h);
    }
    shape := BlackenRoot(x, header, t, c, h, done);
  }

  method BlackenRoot(x: Node?, header: Node, ghost t: Tree, ghost c: Ctx, ghost h: nat, ghost settled: bool)
    returns (ghost shape: Tree)
    requires Zip(header, t, c) && x == Root(t)
    requires if settled then Settled(t, c, h) else Falling(t, c, h) && (c.Top? || !RootBlack(t))
    modifies All(t, c)`color
    ensures Zip(header, shape, Top) && RedBlack(shape)
    ensures InOrder(shape) == Order(t, c) && Nodes(shape) == All(t, c)
  {
    hide RedBlack, Settled, Falling, InOrder, Before, After;
    if x != null {
      Paint(x, Black, header, t, c);
    }
    ghost var t' := Blacken(t);
    shape := Plug(t', c);
    ZipTop(header, t', c);
    PlugOrder(t', c);
    BlackenedSame(t, c);
    BlackenedWhole(t, c, h, settled);
  }

  lemma BlackenedSame(t: Tree, c: Ctx)
    ensures Order(Blacken(t), c) == Order(t, c) && All(Blacken(t), c) == All(t, c)
  {
  }

  /** With its root black, the subtree makes up for the missing black node. */
  lemma BlackenedWhole(t: Tree, c: Ctx, h: nat, settled: bool)
    requires if settled then Settled(t, c, h) else Falling(t, c, h) && (c.Top? || !RootBlack(t))
    ensures RedBlack(Plug(Blacken(t), c))
  {
    hide RedBlack;
    PlugRedBlack(Blacken(t), c, if !RootBlack(t) then h + 1 else h);
  }
}
