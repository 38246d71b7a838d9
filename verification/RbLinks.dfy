/** How the heap links of the nodes represent a tree value, and the two rotations. */
module RbLinks {
  import opened RbShape

  ghost function Fields(n: Node): Cell
    reads n
  {
    Cell(n.color, Entry(n, n.key, n.block), n.parent, n.left, n.right)
  }

  /** The nodes of `t` are linked as `t` says, its root hanging below `q`. */
  ghost predicate TreeLinked(t: Tree, q: Node)
    reads Nodes(t)
  {
    forall n | n in Nodes(t) :: Fields(n) == At(t, q, n)
  }

  /** The nodes around a subtree with root `p` are linked as `c` says; the header keeps the root. */
  ghost predicate CtxLinked(c: Ctx, header: Node, p: Node?)
    reads header`parent, CtxNodes(c)
  {
    header.parent == CtxRoot(c, p) && forall n | n in CtxNodes(c) :: Fields(n) == CtxAt(c, header, p, n)
  }

  /** The heap below `header` is the tree `Plug(t, c)`. */
  ghost predicate Zip(header: Node, t: Tree, c: Ctx)
    reads header`parent, Nodes(t), CtxNodes(c)
  {
    && Apart(t, c) && header !in Nodes(t) && header !in CtxNodes(c)
    && TreeLinked(t, CtxParent(c, header)) && CtxLinked(c, header, Root(t))
  }

  ghost function RotatedLeft(t: Tree): (r: Tree)
    requires t.Fork? && t.right.Fork?
  {
    var u := t.right;
    Fork(Fork(t.left, t.color, t.e, u.left), u.color, u.e, u.right)
  }

  lemma RightPieces(t: Tree)
    requires t.Fork? && t.right.Fork? && Distinct(t)
    ensures var x, y, a, b, d := t.e.node, t.right.e.node, Nodes(t.left), Nodes(t.right.left), Nodes(t.right.right);
            && x != y && x !in a && x !in b && x !in d && y !in a && y !in b && y !in d
            && a !! b && a !! d && b !! d
            && Nodes(t) == a + b + d + {x, y}
            && Nodes(RotatedLeft(t)) == Nodes(t)
  {
    assert Nodes(t.right) == Nodes(t.right.left) + {t.right.e.node} + Nodes(t.right.right);
    var l := RotatedLeft(t).left;
    assert Nodes(l) == Nodes(t.left) + {t.e.node} + Nodes(t.right.left);
  }

  lemma RotatedLeftApart(t: Tree, c: Ctx)
    requires t.Fork? && t.right.Fork? && Apart(t, c)
    ensures Apart(RotatedLeft(t), c)
  {
    RightPieces(t);
    assert Distinct(t.right);
    var l := RotatedLeft(t).left;
    assert Nodes(l) == Nodes(t.left) + {t.e.node} + Nodes(t.right.left);
  }

  lemma RotatedLeftOrder(t: Tree)
    requires t.Fork? && t.right.Fork?
    ensures InOrder(RotatedLeft(t)) == InOrder(t)
  {
    var u := t.right;
    Regroup(InOrder(t.left), [t.e], InOrder(u.left), [u.e], InOrder(u.right));
    assert InOrder(t) == InOrder(t.left) + [t.e] + (InOrder(u.left) + [u.e] + InOrder(u.right));
  }

  /** A left rotation changes the links of three nodes of the subtree. */
  lemma RotatedLeftAt(t: Tree, q: Node, n: Node)
    requires t.Fork? && t.right.Fork? && Distinct(t) && n in Nodes(t)
    ensures n in Nodes(RotatedLeft(t))
    ensures var u := t.right; var old_, new_ := At(t, q, n), At(RotatedLeft(t), q, n);
            if n == t.e.node then new_ == old_.(parent := u.e.node, right := Root(u.left))
            else if n == u.e.node then new_ == old_.(parent := q, left := t.e.node)
            else if n == Root(u.left) then new_ == old_.(parent := t.e.node)
            else new_ == old_
  {
    RightPieces(t);
    var u, r := t.right, RotatedLeft(t);
    if n in Nodes(u.left) {
      assert At(t, q, n) == At(u, t.e.node, n) == At(u.left, u.e.node, n);
      assert At(r, q, n) == At(r.left, u.e.node, n) == At(u.left, t.e.node, n);
    } else if n in Nodes(t.left) {
      assert At(r, q, n) == At(r.left, u.e.node, n) == At(t.left, t.e.node, n);
    } else if n in Nodes(u.right) {
      assert At(t, q, n) == At(u, t.e.node, n) == At(u.right, u.e.node, n);
    }
  }

  /** The fields that a left rotation reads. */
  lemma RightCells(t: Tree, q: Node)
    requires t.Fork? && t.right.Fork? && Distinct(t)
    ensures var x, y, b := t.e.node, t.right.e.node, Root(t.right.left);
            && x in Nodes(t) && y in Nodes(t) && (b != null ==> b in Nodes(t))
            && At(t, q, x) == Cell(t.color, t.e, q, Root(t.left), y)
            && At(t, q, y) == Cell(t.right.color, t.right.e, x, b, Root(t.right.right))
  {
    RightPieces(t);
  }

  lemma CtxAtOther(c: Ctx, header: Node, p: Node?, p': Node?, n: Node)
    requires n in CtxNodes(c)
    ensures var old_, new_ := CtxAt(c, header, p, n), CtxAt(c, header, p', n);
            if n != c.e.node then new_ == old_
            else if c.side == OnLeft then new_ == old_.(left := p')
            else new_ == old_.(right := p')
  {
  }

  lemma {:induction false} RootOutside(c: Ctx, p: Node?)
    requires c.Under?
    ensures CtxRoot(c, p) in CtxNodes(c)
  {
    if c.up.Under? {
      RootOutside(c.up, c.e.node);
    }
  }

  /** Makes the link that points at `x` point at `y`: the root kept in the header, or a child link
      of the parent of `x`. */
  method Relink(x: Node, y: Node?, header: Node, ghost c: Ctx)
    requires x != header && x !in CtxNodes(c) && header !in CtxNodes(c) && CtxDistinct(c)
    requires x.parent == CtxParent(c, header) && CtxLinked(c, header, x)
    requires c.Under? ==> x !in Nodes(c.sib)
    modifies header`parent, CtxNodes(c)`left, CtxNodes(c)`right
    ensures CtxLinked(c, header, y)
  {
    if c.Under? {
      RootOutside(c, x);
      assert Fields(c.e.node) == CtxAt(c, header, x, c.e.node);
    }
    if x == header.parent {
      header.parent := y;
    } else if x == x.parent.left {
      x.parent.left := y;
    } else {
      x.parent.right := y;
    }
    forall n | n in CtxNodes(c)
      ensures Fields(n) == CtxAt(c, header, y, n)
    {
      CtxAtOther(c, header, x, y, n);
    }
  }

  /** The conditions that make a zipper, one by one. */
  lemma ZipWhole(header: Node, t: Tree, c: Ctx, q: Node)
    requires Apart(t, c) && header !in Nodes(t) && header !in CtxNodes(c) && q == CtxParent(c, header)
    requires (forall n | n in Nodes(t) :: Fields(n) == At(t, q, n)) && CtxLinked(c, header, Root(t))
    ensures Zip(header, t, c)
  {
  }

  lemma ZipParts(header: Node, t: Tree, c: Ctx)
    requires Zip(header, t, c)
    ensures Distinct(t) && CtxDistinct(c) && Apart(t, c) && Nodes(t) !! CtxNodes(c) && header !in Nodes(t)
    ensures header !in CtxNodes(c)
    ensures TreeLinked(t, CtxParent(c, header)) && CtxLinked(c, header, Root(t))
    ensures c.Under? ==> Nodes(c.sib) <= CtxNodes(c)
  {
  }

  /** The first half of a rotation to the left: the inner subtree goes below `x`, and `y` below the
      parent of `x`. */
  method SwingLeft(x: Node, header: Node, ghost t: Tree, ghost c: Ctx) returns (y: Node)
    requires t.Fork? && t.right.Fork? && x == t.e.node && Zip(header, t, c)
    modifies header`parent, CtxNodes(c)`left, CtxNodes(c)`right, Nodes(t)`parent, x`right
    ensures y == t.right.e.node && CtxLinked(c, header, y) && x.right == Root(t.right.left)
    ensures forall n | n in Nodes(t) ::
              n.parent == if n == y then CtxParent(c, header) else if n == Root(t.right.left) then x else old(n.parent)
  {
    hide CtxLinked, Zip, Apart, Distinct, CtxDistinct;
    ZipParts(header, t, c);
    RightCells(t, CtxParent(c, header));
    RightPieces(t);
    ghost var nodes := Nodes(t);
    y := x.right;
    x.right := y.left;
    if y.left != null {
      y.left.parent := x;
    }
    y.parent := x.parent;
    Relink(x, y, header, c);
    assert old(allocated(nodes));
  }

  method RotateLeft(x: Node, header: Node, ghost t: Tree, ghost c: Ctx)
    requires t.Fork? && t.right.Fork? && x == t.e.node && Zip(header, t, c)
    modifies header`parent, CtxNodes(c)`left, CtxNodes(c)`right
    modifies Nodes(t)`parent, Nodes(t)`left, Nodes(t)`right
    ensures Zip(header, RotatedLeft(t), c)
  {
    hide CtxLinked, Zip, Apart, Distinct, CtxDistinct;
    ghost var q, nodes := CtxParent(c, header), Nodes(t);
    ZipParts(header, t, c);
    RightCells(t, q);
    RotatedLeftApart(t, c);
    RightPieces(t);
    var y := SwingLeft(x, header, t, c);
    y.left := x;
    x.parent := y;
    assert old(allocated(nodes));
    forall n | n in nodes
      ensures Fields(n) == At(RotatedLeft(t), q, n)
    {
      RotatedLeftAt(t, q, n);
    }
    ZipWhole(header, RotatedLeft(t), c, q);
  }

  ghost function RotatedRight(t: Tree): (r: Tree)
    requires t.Fork? && t.left.Fork?
  {
    var u := t.left;
    Fork(u.left, u.color, u.e, Fork(u.right, t.color, t.e, t.right))
  }

  lemma LeftPieces(t: Tree)
    requires t.Fork? && t.left.Fork? && Distinct(t)
    ensures var x, y, a, b, d := t.e.node, t.left.e.node, Nodes(t.right), Nodes(t.left.right), Nodes(t.left.left);
            && x != y && x !in a && x !in b && x !in d && y !in a && y !in b && y !in d
            && a !! b && a !! d && b !! d
            && Nodes(t) == a + b + d + {x, y}
            && Nodes(RotatedRight(t)) == Nodes(t)
  {
    assert Nodes(t.left) == Nodes(t.left.left) + {t.left.e.node} + Nodes(t.left.right);
    var r := RotatedRight(t).right;
    assert Nodes(r) == Nodes(t.left.right) + {t.e.node} + Nodes(t.right);
  }

  lemma RotatedRightApart(t: Tree, c: Ctx)
    requires t.Fork? && t.left.Fork? && Apart(t, c)
    ensures Apart(RotatedRight(t), c)
  {
    LeftPieces(t);
    assert Distinct(t.left);
    var r := RotatedRight(t).right;
    assert Nodes(r) == Nodes(t.left.right) + {t.e.node} + Nodes(t.right);
  }

  lemma RotatedRightOrder(t: Tree)
    requires t.Fork? && t.left.Fork?
    ensures InOrder(RotatedRight(t)) == InOrder(t)
  {
    RotatedLeftOrder(RotatedRight(t));
  }

  /** A right rotation changes the links of three nodes of the subtree. */
  lemma RotatedRightAt(t: Tree, q: Node, n: Node)
    requires t.Fork? && t.left.Fork? && Distinct(t) && n in Nodes(t)
    ensures n in Nodes(RotatedRight(t))
    ensures var u := t.left; var old_, new_ := At(t, q, n), At(RotatedRight(t), q, n);
            if n == t.e.node then new_ == old_.(parent := u.e.node, left := Root(u.right))
            else if n == u.e.node then new_ == old_.(parent := q, right := t.e.node)
            else if n == Root(u.right) then new_ == old_.(parent := t.e.node)
            else new_ == old_
  {
    LeftPieces(t);
    var u, r := t.left, RotatedRight(t);
    if n in Nodes(u.right) {
      assert At(t, q, n) == At(u, t.e.node, n) == At(u.right, u.e.node, n);
      assert At(r, q, n) == At(r.right, u.e.node, n) == At(u.right, t.e.node, n);
    } else if n in Nodes(t.right) {
      assert At(r, q, n) == At(r.right, u.e.node, n) == At(t.right, t.e.node, n);
    } else if n in Nodes(u.left) {
      assert At(t, q, n) == At(u, t.e.node, n) == At(u.left, u.e.node, n);
    }
  }

  /** The fields that a right rotation reads. */
  lemma LeftCells(t: Tree, q: Node)
    requires t.Fork? && t.left.Fork? && Distinct(t)
    ensures var x, y, b := t.e.node, t.left.e.node, Root(t.left.right);
            && x in Nodes(t) && y in Nodes(t) && (b != null ==> b in Nodes(t))
            && At(t, q, x) == Cell(t.color, t.e, q, y, Root(t.right))
            && At(t, q, y) == Cell(t.left.color, t.left.e, x, Root(t.left.left), b)
  {
    LeftPieces(t);
  }

  /** The first half of a rotation to the right: the inner subtree goes below `x`, and `y` below the
      parent of `x`. */
  method SwingRight(x: Node, header: Node, ghost t: Tree, ghost c: Ctx) returns (y: Node)
    requires t.Fork? && t.left.Fork? && x == t.e.node && Zip(header, t, c)
    modifies header`parent, CtxNodes(c)`right, CtxNodes(c)`left, Nodes(t)`parent, x`left
    ensures y == t.left.e.node && CtxLinked(c, header, y) && x.left == Root(t.left.right)
    ensures forall n | n in Nodes(t) ::
              n.parent == if n == y then CtxParent(c, header) else if n == Root(t.left.right) then x else old(n.parent)
  {
    hide CtxLinked, Zip, Apart, Distinct, CtxDistinct;
    ZipParts(header, t, c);
    LeftCells(t, CtxParent(c, header));
    LeftPieces(t);
    ghost var nodes := Nodes(t);
    y := x.left;
    x.left := y.right;
    if y.right != null {
      y.right.parent := x;
    }
    y.parent := x.parent;
    Relink(x, y, header, c);
    assert old(allocated(nodes));
  }

  method RotateRight(x: Node, header: Node, ghost t: Tree, ghost c: Ctx)
    requires t.Fork? && t.left.Fork? && x == t.e.node && Zip(header, t, c)
    modifies header`parent, CtxNodes(c)`right, CtxNodes(c)`left
    modifies Nodes(t)`parent, Nodes(t)`right, Nodes(t)`left
    ensures Zip(header, RotatedRight(t), c)
  {
    hide CtxLinked, Zip, Apart, Distinct, CtxDistinct;
    ghost var q, nodes := CtxParent(c, header), Nodes(t);
    ZipParts(header, t, c);
    LeftCells(t, q);
    RotatedRightApart(t, c);
    LeftPieces(t);
    var y := SwingRight(x, header, t, c);
    y.right := x;
    x.parent := y;
    assert old(allocated(nodes));
    forall n | n in nodes
      ensures Fields(n) == At(RotatedRight(t), q, n)
    {
      RotatedRightAt(t, q, n);
    }
    ZipWhole(header, RotatedRight(t), c, q);
  }

  // ---------------------------------------------------------------- moving the zipper

  lemma ZipUp(header: Node, t: Tree, c: Ctx)
    requires c.Under? && Zip(header, t, c)
    ensures Zip(header, Join(c.side, t, c.color, c.e, c.sib), c.up)
  {
  }

  lemma ZipLeft(header: Node, t: Tree, c: Ctx)
    requires t.Fork? && Zip(header, t, c)
    ensures Zip(header, t.left, Under(c, OnLeft, t.color, t.e, t.right))
  {
  }

  lemma ZipRight(header: Node, t: Tree, c: Ctx)
    requires t.Fork? && Zip(header, t, c)
    ensures Zip(header, t.right, Under(c, OnRight, t.color, t.e, t.left))
  {
  }

  lemma {:induction false} ZipTop(header: Node, t: Tree, c: Ctx)
    requires Zip(header, t, c)
    ensures Zip(header, Plug(t, c), Top)
    decreases c
  {
    if c.Under? {
      ZipUp(header, t, c);
      ZipTop(header, Join(c.side, t, c.color, c.e, c.sib), c.up);
    }
  }

  method Paint(x: Node, color: Color, header: Node, ghost t: Tree, ghost c: Ctx)
    requires t.Fork? && x == t.e.node && Zip(header, t, c)
    modifies x`color
    ensures Zip(header, t.(color := color), c)
  {
    x.color := color;
  }

  ghost function All(t: Tree, c: Ctx): set<Node> {
    Nodes(t) + CtxNodes(c)
  }

  /** The fields that the loop reads: those of the root of `t`, its parent, grandparent and uncle. */
  lemma Family(header: Node, t: Tree, c: Ctx)
    requires Zip(header, t, c) && t.Fork?
    ensures Fields(t.e.node) == Cell(t.color, t.e, CtxParent(c, header), Root(t.left), Root(t.right))
    ensures c.Under? ==> Fields(c.e.node) == CtxAt(c, header, t.e.node, c.e.node)
    ensures c.Under? && c.up.Under? ==>
              && Fields(c.up.e.node) == CtxAt(c.up, header, c.e.node, c.up.e.node)
              && (c.up.sib.Fork? ==> c.up.sib.e.node.color == c.up.sib.color)
    ensures header.parent == t.e.node <==> c.Top?
    ensures c.Under? && Root(c.sib) != null ==> Root(c.sib) != t.e.node
    ensures c.Under? && c.up.Under? && Root(c.up.sib) != null ==> Root(c.up.sib) != c.e.node
  {
    if c.Under? {
      RootOutside(c, t.e.node);
      ZipUp(header, t, c);
      if c.up.Under? {
        ZipUp(header, Join(c.side, t, c.color, c.e, c.sib), c.up);
      }
    }
  }
}
