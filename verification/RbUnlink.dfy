/** Taking a node out of the tree: the relinking that comes before the rebalancing of an erasure. */
module RbUnlink {
  import opened RbShape
  import opened RbLinks
  import opened RbOrder
  import opened RbSearch

  // ---------------------------------------------------------------- composing contexts

  /** The context `inner`, with `outer` around it. */
  ghost function Graft(inner: Ctx, outer: Ctx): Ctx {
    if inner.Top? then outer else inner.(up := Graft(inner.up, outer))
  }

  /** A way down that only turns left. */
  ghost predicate LeftSpine(s: Ctx) {
    s.Under? ==> s.side == OnLeft && LeftSpine(s.up)
  }

  lemma {:induction false} GraftNodes(s: Ctx, b: Ctx)
    ensures CtxNodes(Graft(s, b)) == CtxNodes(s) + CtxNodes(b)
    ensures CtxDistinct(Graft(s, b)) <==> CtxDistinct(s) && CtxDistinct(b) && CtxNodes(s) !! CtxNodes(b)
  {
    if s.Under? {
      GraftNodes(s.up, b);
    }
  }

  lemma {:induction false} GraftRoot(s: Ctx, b: Ctx, p: Node?)
    ensures CtxRoot(Graft(s, b), p) == CtxRoot(b, CtxRoot(s, p))
  {
    if s.Under? {
      GraftRoot(s.up, b, s.e.node);
    }
  }

  lemma {:induction false} GraftAt(s: Ctx, b: Ctx, header: Node, p: Node?, n: Node)
    requires CtxDistinct(Graft(s, b)) && n in CtxNodes(Graft(s, b))
    ensures n in CtxNodes(s) ==> CtxAt(Graft(s, b), header, p, n) == CtxAt(s, CtxParent(b, header), p, n)
    ensures n !in CtxNodes(s) ==>
              n in CtxNodes(b) && CtxAt(Graft(s, b), header, p, n) == CtxAt(b, header, CtxRoot(s, p), n)
  {
    GraftNodes(s, b);
    if s.Under? {
      GraftNodes(s.up, b);
      if n != s.e.node && n !in Nodes(s.sib) {
        GraftAt(s.up, b, header, s.e.node, n);
      }
    }
  }

  lemma {:induction false} GraftOrder(s: Ctx, b: Ctx)
    requires LeftSpine(s)
    ensures Before(Graft(s, b)) == Before(b) && After(Graft(s, b)) == After(s) + After(b)
  {
    if s.Under? {
      GraftOrder(s.up, b);
    }
  }

  /** Balance and colors do not depend on the entries. */
  lemma {:induction false} GraftBalance(s: Ctx, b: Ctx, e: Entry, h: int)
    requires b.Under?
    ensures CtxHeight(Graft(s, b), h) ==> CtxHeight(Graft(s, b.(e := e)), h)
    ensures CtxNoRedRed(Graft(s, b)) ==> CtxNoRedRed(Graft(s, b.(e := e)))
  {
    if s.Under? {
      GraftBalance(s.up, b, e, h + Step(s.color));
    }
  }

  // ---------------------------------------------------------------- the heap in pieces

  /** The nodes between a node `q` and a subtree with root `p` are linked as `s` says. */
  ghost predicate SpineLinked(s: Ctx, q: Node, p: Node?)
    reads CtxNodes(s)
  {
    forall n | n in CtxNodes(s) :: Fields(n) == CtxAt(s, q, p, n)
  }

  /** The heap `Plug(t, Graft(s, b))`, piece by piece; `b` is the node at whose right the spine starts. */
  ghost predicate Pieces(header: Node, t: Tree, s: Ctx, b: Ctx)
    reads header`parent, Nodes(t), CtxNodes(s), CtxNodes(b)
  {
    && b.Under? && b.side == OnRight
    && TreeLinked(t, CtxParent(s, b.e.node)) && SpineLinked(s, b.e.node, Root(t))
    && Fields(b.e.node) == Cell(b.color, b.e, CtxParent(b.up, header), Root(b.sib), CtxRoot(s, Root(t)))
    && TreeLinked(b.sib, b.e.node) && CtxLinked(b.up, header, b.e.node)
  }

  ghost predicate Disjoint(header: Node, t: Tree, s: Ctx, b: Ctx) {
    Apart(t, Graft(s, b)) && header !in Nodes(t) && header !in CtxNodes(s) && header !in CtxNodes(b)
  }

  lemma ToPieces(header: Node, t: Tree, s: Ctx, b: Ctx)
    requires b.Under? && b.side == OnRight && Zip(header, t, Graft(s, b))
    ensures Disjoint(header, t, s, b) && Pieces(header, t, s, b)
  {
    GraftNodes(s, b);
    GraftRoot(s, b, Root(t));
    assert CtxParent(Graft(s, b), header) == CtxParent(s, b.e.node);
    forall n | n in CtxNodes(s)
      ensures Fields(n) == CtxAt(s, b.e.node, Root(t), n)
    {
      GraftAt(s, b, header, Root(t), n);
    }
    forall n | n in CtxNodes(b)
      ensures Fields(n) == CtxAt(b, header, CtxRoot(s, Root(t)), n)
    {
      GraftAt(s, b, header, Root(t), n);
    }
  }

  lemma FromPieces(header: Node, t: Tree, s: Ctx, b: Ctx)
    requires Disjoint(header, t, s, b) && Pieces(header, t, s, b)
    ensures Zip(header, t, Graft(s, b))
  {
    GraftNodes(s, b);
    GraftRoot(s, b, Root(t));
    assert CtxParent(Graft(s, b), header) == CtxParent(s, b.e.node);
    forall n | n in CtxNodes(Graft(s, b))
      ensures Fields(n) == CtxAt(Graft(s, b), header, Root(t), n)
    {
      GraftAt(s, b, header, Root(t), n);
    }
  }

  // ---------------------------------------------------------------- a node with two children

  ghost function WithParent(cell: Cell, here: bool, q: Node): Cell {
    if here then cell.(parent := q) else cell
  }

  ghost function WithLeft(cell: Cell, here: bool, p: Node?): Cell {
    if here then cell.(left := p) else cell
  }

  lemma AtBelow(t: Tree, q: Node, q': Node, n: Node)
    requires n in Nodes(t)
    ensures At(t, q', n) == WithParent(At(t, q, n), n == t.e.node, q')
  {
  }

  lemma {:induction false} CtxRootInside(s: Ctx, p: Node?, p': Node?)
    requires s.Under?
    ensures CtxRoot(s, p) == CtxRoot(s, p') && CtxRoot(s, p) in CtxNodes(s)
    ensures s.up.Under? ==> CtxRoot(s, p) in CtxNodes(s.up)
  {
    if s.up.Under? {
      CtxRootInside(s.up, s.e.node, s.e.node);
    }
  }

  /** Hanging a left spine below another node, and another subtree below its end. */
  lemma {:induction false} SpineAt(s: Ctx, q: Node, q': Node, p: Node?, p': Node?, n: Node)
    requires LeftSpine(s) && CtxDistinct(s) && n in CtxNodes(s)
    ensures CtxAt(s, q', p', n) == WithParent(WithLeft(CtxAt(s, q, p, n), n == s.e.node, p'), n == CtxRoot(s, p), q')
  {
    CtxRootInside(s, p, p');
    if n != s.e.node && n !in Nodes(s.sib) {
      SpineAt(s.up, q, q', s.e.node, s.e.node, n);
    }
  }

  method AdoptLeft(z: Node, y: Node, ghost l: Tree)
    requires l.Fork? && z.left == l.e.node && TreeLinked(l, z) && y !in Nodes(l)
    modifies Nodes(l)`parent, y`left
    ensures TreeLinked(l, y) && y.left == l.e.node
  {
    ghost var nodes := Nodes(l);
    z.left.parent := y;
    y.left := z.left;
    assert old(allocated(nodes));
    forall n | n in nodes
      ensures Fields(n) == At(l, y, n)
    {
      AtBelow(l, z, y, n);
    }
  }

  method Reparent(x: Node?, q': Node, ghost t: Tree, ghost q: Node)
    requires x == Root(t) && TreeLinked(t, q)
    modifies Nodes(t)`parent
    ensures TreeLinked(t, q')
  {
    ghost var nodes := Nodes(t);
    if x != null {
      x.parent := q';
    }
    assert old(allocated(nodes));
    forall n | n in nodes
      ensures Fields(n) == At(t, q', n)
    {
      AtBelow(t, q, q', n);
    }
  }

  /** Replaces `y` at the end of the spine by `x` and hangs the spine below `y`. */
  method BendSpine(z: Node, y: Node, x: Node?, ghost s: Ctx)
    requires s.Under? && LeftSpine(s) && CtxDistinct(s) && SpineLinked(s, z, y)
    requires y.parent == s.e.node && z.right == CtxRoot(s, y) && y != z && {y, z} !! CtxNodes(s)
    modifies CtxNodes(s)`left, CtxNodes(s)`parent, y`right
    ensures SpineLinked(s, y, x) && y.right == CtxRoot(s, x)
  {
    ghost var nodes := CtxNodes(s);
    CtxRootInside(s, x, y);
    y.parent.left := x;
    y.right := z.right;
    z.right.parent := y;
    assert old(allocated(nodes));
    forall n | n in nodes
      ensures Fields(n) == CtxAt(s, y, x, n)
    {
      SpineAt(s, z, y, y, x, n);
    }
  }

  /** The right subtree of `y` takes the place of `y`, and `y` takes the right subtree of `z`. */
  method AdoptRight(z: Node, y: Node, x: Node?, ghost yr: Tree, ghost s: Ctx) returns (xp: Node)
    requires LeftSpine(s) && CtxDistinct(s) && SpineLinked(s, z, y)
    requires TreeLinked(yr, y) && x == Root(yr) && y.right == x
    requires y.parent == CtxParent(s, z) && z.right == CtxRoot(s, y)
    requires Nodes(yr) !! CtxNodes(s) && {y, z} !! Nodes(yr) && {y, z} !! CtxNodes(s) && y != z
    modifies Nodes(yr)`parent, CtxNodes(s)`left, CtxNodes(s)`parent, y`right
    ensures SpineLinked(s, y, x) && TreeLinked(yr, CtxParent(s, y))
    ensures y.right == CtxRoot(s, x) && xp == CtxParent(s, y)
  {
    ghost var spine, nodes := CtxNodes(s), Nodes(yr);
    if s.Under? {
      CtxRootInside(s, y, y);
    }
    if y != z.right {
      xp := y.parent;
      Reparent(x, xp, yr, y);
      assert old(allocated(spine)) && old(allocated(nodes));
      BendSpine(z, y, x, s);
    } else {
      xp := y;
    }
  }

  ghost function Everything(t: Tree, s: Ctx, b: Ctx): set<Node> {
    Nodes(t) + CtxNodes(s) + CtxNodes(b)
  }

  lemma DisjointPieces(header: Node, f: Tree, s: Ctx, b: Ctx)
    requires f.Fork? && f.left.Leaf? && b.Under? && Disjoint(header, f, s, b)
    ensures f.e.node != b.e.node && f.e.node != header && b.e.node != header
    ensures {f.e.node, b.e.node, header} !! Nodes(b.sib) && {f.e.node, b.e.node, header} !! Nodes(f.right)
    ensures {f.e.node, b.e.node, header} !! CtxNodes(s) && {f.e.node, b.e.node, header} !! CtxNodes(b.up)
    ensures Nodes(b.sib) !! Nodes(f.right) && Nodes(b.sib) !! CtxNodes(s) && Nodes(f.right) !! CtxNodes(s)
    ensures CtxNodes(b.up) !! Nodes(b.sib) && CtxNodes(b.up) !! Nodes(f.right) && CtxNodes(b.up) !! CtxNodes(s)
    ensures CtxDistinct(s) && CtxDistinct(b.up) && (b.up.Under? ==> Nodes(b.up.sib) <= CtxNodes(b.up))
    ensures Disjoint(header, f.right, s, b.(e := f.e))
  {
    GraftNodes(s, b);
    GraftNodes(s, b.(e := f.e));
  }

  lemma EverythingInside(f: Tree, s: Ctx, b: Ctx)
    requires f.Fork? && b.Under?
    ensures f.e.node in Everything(f, s, b) && b.e.node in Everything(f, s, b)
    ensures Nodes(b.sib) <= Everything(f, s, b) && Nodes(f.right) <= Everything(f, s, b)
    ensures CtxNodes(s) <= Everything(f, s, b) && CtxNodes(b.up) <= Everything(f, s, b)
  {
  }

  /** `y` has taken over the subtrees `l` and, at the end of the spine `s`, `r`. */
  ghost predicate Adopted(y: Node, l: Tree, r: Tree, s: Ctx)
    reads y`left, y`right, Nodes(l), Nodes(r), CtxNodes(s)
  {
    && TreeLinked(l, y) && TreeLinked(r, CtxParent(s, y)) && SpineLinked(s, y, Root(r))
    && y.left == Root(l) && y.right == CtxRoot(s, Root(r))
  }

  /** `y` takes over both subtrees of `z`, its own right subtree taking its place. */
  method Adopt(z: Node, y: Node, ghost l: Tree, ghost r: Tree, ghost s: Ctx) returns (x: Node?, xp: Node)
    requires l.Fork? && LeftSpine(s) && CtxDistinct(s) && y != z
    requires {y, z} !! Nodes(l) && {y, z} !! Nodes(r) && {y, z} !! CtxNodes(s)
    requires Nodes(l) !! Nodes(r) && Nodes(l) !! CtxNodes(s) && Nodes(r) !! CtxNodes(s)
    requires TreeLinked(l, z) && TreeLinked(r, y) && SpineLinked(s, z, y)
    requires z.left == Root(l) && z.right == CtxRoot(s, y) && y.right == Root(r) && y.parent == CtxParent(s, z)
    modifies Nodes(l)`parent, Nodes(r)`parent, CtxNodes(s)`left, CtxNodes(s)`parent, y`left, y`right
    ensures Adopted(y, l, r, s) && x == Root(r) && xp == CtxParent(s, y)
  {
    hide TreeLinked, SpineLinked, CtxDistinct, LeftSpine;
    ghost var ln, rn, sn := Nodes(l), Nodes(r), CtxNodes(s);
    x := y.right;
    AdoptLeft(z, y, l);
    assert old(allocated(ln)) && old(allocated(rn)) && old(allocated(sn));
    xp := AdoptRight(z, y, x, r, s);
  }

  /** `y` becomes the child of the parent of `z`, and the two exchange their colors. */
  method Replace(z: Node, y: Node, header: Node, ghost c: Ctx)
    requires z != header && y != z && y != header && {y, z} !! CtxNodes(c) && header !in CtxNodes(c) && CtxDistinct(c)
    requires z.parent == CtxParent(c, header) && CtxLinked(c, header, z) && (c.Under? ==> z !in Nodes(c.sib))
    modifies header`parent, CtxNodes(c)`left, CtxNodes(c)`right, y`parent, y`color, z`color
    ensures CtxLinked(c, header, y) && y.parent == CtxParent(c, header)
    ensures y.color == old(z.color) && z.color == old(y.color)
  {
    Relink(z, y, header, c);
    y.parent := z.parent;
    y.color, z.color := z.color, y.color;
  }

  /** The successor `y` of `z`, at the root of `f` below the spine `s`, is to take the place of `z`. */
  ghost predicate Successor(z: Node, y: Node, header: Node, f: Tree, s: Ctx, b: Ctx) {
    && f.Fork? && f.left.Leaf? && b.Under? && b.side == OnRight && b.sib.Fork? && LeftSpine(s)
    && y == f.e.node && z == b.e.node && Disjoint(header, f, s, b)
  }

  /** Between the two steps: `y` has the subtrees of `z`, but the parent of `z` does not know yet. */
  ghost predicate HalfWay(z: Node, y: Node, header: Node, f: Tree, s: Ctx, b: Ctx)
    requires f.Fork? && b.Under?
    reads header`parent, y, z, Nodes(b.sib), Nodes(f.right), CtxNodes(s), CtxNodes(b.up)
  {
    && Adopted(y, b.sib, f.right, s) && CtxLinked(b.up, header, z) && z.parent == CtxParent(b.up, header)
    && z.color == b.color && y.color == f.color && Entry(y, y.key, y.block) == f.e
  }

  /** What the heap says around `y` and `z` before the two steps. */
  lemma BeforeAdopting(z: Node, y: Node, header: Node, f: Tree, s: Ctx, b: Ctx)
    requires Successor(z, y, header, f, s, b) && Pieces(header, f, s, b)
    ensures TreeLinked(b.sib, z) && TreeLinked(f.right, y) && SpineLinked(s, z, y) && CtxLinked(b.up, header, z)
    ensures Fields(y) == Cell(f.color, f.e, CtxParent(s, z), null, Root(f.right))
    ensures Fields(z) == Cell(b.color, b.e, CtxParent(b.up, header), Root(b.sib), CtxRoot(s, y))
    ensures y == f.e.node && z == b.e.node && y != z && b.sib.Fork? && LeftSpine(s)
  {
    hide Apart, CtxLinked, SpineLinked;
    DisjointPieces(header, f, s, b);
    assert Fields(y) == At(f, CtxParent(s, z), y);
  }

  method AdoptAll(z: Node, y: Node, header: Node, ghost f: Tree, ghost s: Ctx, ghost b: Ctx) returns (x: Node?,
                  xp: Node)
    requires Successor(z, y, header, f, s, b) && Pieces(header, f, s, b)
    modifies Nodes(b.sib)`parent, Nodes(f.right)`parent, CtxNodes(s)`left, CtxNodes(s)`parent, y`left, y`right
    ensures HalfWay(z, y, header, f, s, b) && x == Root(f.right) && xp == CtxParent(s, y)
  {
    hide Apart, Distinct, CtxDistinct, LeftSpine, Graft, TreeLinked, SpineLinked, CtxLinked, Adopted, Pieces;
    BeforeAdopting(z, y, header, f, s, b);
    DisjointPieces(header, f, s, b);
    ghost var up := CtxNodes(b.up);
    x, xp := Adopt(z, y, b.sib, f.right, s);
    assert old(allocated(up));
  }

  /** The pieces after the second step, put together. */
  lemma AfterReplacing(z: Node, y: Node, header: Node, f: Tree, s: Ctx, b: Ctx)
    requires f.Fork? && b.Under? && b.side == OnRight && y == f.e.node && z == b.e.node
    requires Adopted(y, b.sib, f.right, s) && CtxLinked(b.up, header, y)
    requires y.parent == CtxParent(b.up, header) && y.color == b.color && Entry(y, y.key, y.block) == f.e
    ensures Pieces(header, f.right, s, b.(e := f.e))
  {
  }

  method ReplaceAdopted(z: Node, y: Node, header: Node, ghost f: Tree, ghost s: Ctx, ghost b: Ctx)
    requires Successor(z, y, header, f, s, b) && HalfWay(z, y, header, f, s, b)
    modifies header`parent, CtxNodes(b.up)`left, CtxNodes(b.up)`right, y`parent, y`color, z`color
    ensures Pieces(header, f.right, s, b.(e := f.e)) && z.color == f.color
  {
    hide Apart, Distinct, CtxDistinct, LeftSpine, Graft, CtxLinked, Adopted, Pieces;
    DisjointPieces(header, f, s, b);
    ghost var ln, rn, sn := Nodes(b.sib), Nodes(f.right), CtxNodes(s);
    Replace(z, y, header, b.up);
    assert old(allocated(ln)) && old(allocated(rn)) && old(allocated(sn));
    AfterReplacing(z, y, header, f, s, b);
  }

  /** The successor `y` of `z` takes the place and the color of `z`; the right subtree of `y` takes
      the place of `y`. Returns that subtree's root and the node above it. */
  method Transplant(z: Node, y: Node, header: Node, ghost f: Tree, ghost s: Ctx, ghost b: Ctx)
    returns (x: Node?, xp: Node)
    requires Successor(z, y, header, f, s, b) && Zip(header, f, Graft(s, b))
    modifies header`parent, Everything(f, s, b)`color, Everything(f, s, b)`parent
    modifies Everything(f, s, b)`left, Everything(f, s, b)`right
    ensures Zip(header, f.right, Graft(s, b.(e := f.e)))
    ensures z.color == f.color && x == Root(f.right) && xp == CtxParent(s, y)
  {
    ToPieces(header, f, s, b);
    EverythingInside(f, s, b);
    DisjointPieces(header, f, s, b);
    x, xp := AdoptAll(z, y, header, f, s, b);
    ReplaceAdopted(z, y, header, f, s, b);
    FromPieces(header, f.right, s, b.(e := f.e));
  }

  // ---------------------------------------------------------------- a node with at most one child

  /** `u` is all that hangs below the root of `t`. */
  ghost predicate OnlyChild(t: Tree, u: Tree) {
    t.Fork? && ((t.left.Leaf? && u == t.right) || (t.right.Leaf? && u == t.left))
  }

  lemma OnlyChildFacts(t: Tree, u: Tree, q: Node)
    requires OnlyChild(t, u) && Distinct(t)
    ensures t.e.node !in Nodes(u) && Nodes(u) <= Nodes(t) && Nodes(t) == Nodes(u) + {t.e.node} && Distinct(u)
    ensures forall n | n in Nodes(u) :: At(t, q, n) == At(u, t.e.node, n)
  {
  }

  /** The child of `z` takes the place of `z`. */
  method Splice(z: Node, x: Node?, header: Node, ghost t: Tree, ghost c: Ctx, ghost u: Tree) returns (xp: Node)
    requires Zip(header, t, c) && OnlyChild(t, u) && z == t.e.node && x == Root(u)
    modifies header`parent, Nodes(u)`parent, CtxNodes(c)`left, CtxNodes(c)`right
    ensures Zip(header, u, c) && xp == CtxParent(c, header)
  {
    OnlyChildFacts(t, u, CtxParent(c, header));
    assert Fields(z) == At(t, CtxParent(c, header), z);
    ghost var nodes, around := Nodes(u), CtxNodes(c);
    xp := z.parent;
    Reparent(x, xp, u, z);
    assert old(allocated(nodes)) && old(allocated(around));
    SpliceAbove(z, x, header, u, c);
  }

  method SpliceAbove(z: Node, x: Node?, header: Node, ghost u: Tree, ghost c: Ctx)
    requires Apart(u, c) && header !in Nodes(u) && header !in CtxNodes(c) && x == Root(u)
    requires TreeLinked(u, CtxParent(c, header)) && CtxLinked(c, header, z) && z.parent == CtxParent(c, header)
    requires z != header && z !in CtxNodes(c)
    modifies header`parent, CtxNodes(c)`left, CtxNodes(c)`right
    ensures Zip(header, u, c)
  {
    ghost var nodes := Nodes(u);
    Relink(z, x, header, c);
    assert old(allocated(nodes));
  }

  // ---------------------------------------------------------------- finding the successor

  /** The way from the right child of `z` down to its successor `y`. */
  method Down(z: Node, header: Node, ghost t: Tree, ghost c: Ctx) returns (y: Node, ghost f: Tree, ghost s: Ctx)
    requires Zip(header, t, c) && t.Fork? && z == t.e.node && t.right.Fork?
    ensures f.Fork? && f.left.Leaf? && y == f.e.node && LeftSpine(s)
    ensures Zip(header, f, Graft(s, Under(c, OnRight, t.color, t.e, t.left)))
    ensures Order(f, Graft(s, Under(c, OnRight, t.color, t.e, t.left))) == Order(t, c)
    ensures Plug(f, Graft(s, Under(c, OnRight, t.color, t.e, t.left))) == Plug(t, c)
  {
    ghost var b := Under(c, OnRight, t.color, t.e, t.left);
    ZipRight(header, t, c);
    OrderUp(t.right, b);
    assert Fields(z) == At(t, CtxParent(c, header), z);
    y := z.right;
    f, s := t.right, Top;
    assert Fields(y) == At(f, CtxParent(b, header), y);
    while y.left != null
      invariant Zip(header, f, Graft(s, b)) && LeftSpine(s) && f.Fork? && y == f.e.node && y.left == Root(f.left)
      invariant Order(f, Graft(s, b)) == Order(t, c) && Plug(f, Graft(s, b)) == Plug(t, c)
      decreases f
    {
      ghost var d := Under(Graft(s, b), OnLeft, f.color, f.e, f.right);
      ZipLeft(header, f, Graft(s, b));
      OrderUp(f.left, d);
      y := y.left;
      f, s := f.left, Under(s, OnLeft, f.color, f.e, f.right);
      assert Graft(s, b) == d;
      assert Fields(y) == At(f, CtxParent(d, header), y);
    }
  }

  // ---------------------------------------------------------------- what is left of the sequence

  lemma EndsWithout(header: Node, p: seq<Entry>, e: Entry, q: seq<Entry>)
    requires OneNodeEach(p + [e] + q)
    ensures FirstNode(header, p + [e] + q) == e.node <==> p == []
    ensures LastNode(header, p + [e] + q) == e.node <==> q == []
    ensures FirstNode(header, p + q) == if p == [] then FirstNode(header, q) else FirstNode(header, p + [e] + q)
    ensures LastNode(header, p + q) == if q == [] then LastNode(header, p) else LastNode(header, p + [e] + q)
  {
    var o, r := p + [e] + q, p + q;
    assert o[|p|] == e;
    assert p != [] ==> o[0] == p[0] && r[0] == p[0];
    assert q != [] ==> o[|o| - 1] == q[|q| - 1] && r[|r| - 1] == q[|q| - 1];
    assert p == [] ==> r == q;
    assert q == [] ==> r == p;
  }

  /** At an end of the tree, the parent is the next entry. */
  lemma NextUp(header: Node, c: Ctx)
    ensures Before(c) == [] ==> FirstNode(header, After(c)) == CtxParent(c, header)
    ensures After(c) == [] ==> LastNode(header, Before(c)) == CtxParent(c, header)
  {
    CtxNext(c);
  }

  lemma HeaderOutside(header: Node, u: Tree, c: Ctx)
    requires Zip(header, u, c)
    ensures header !in Nodes(u) && header !in CtxNodes(c)
  {
  }

  /** Keeps the first node in the header up to date when `z` has been spliced out. */
  method FixFirst(z: Node, x: Node?, header: Node, ghost t: Tree, ghost c: Ctx, ghost u: Tree, ghost p: seq<Entry>,
                  ghost q: seq<Entry>)
    requires Zip(header, u, c) && OnlyChild(t, u) && x == Root(u) && z == t.e.node && z != header
    requires z.parent == CtxParent(c, header) && z.right == Root(t.right)
    requires p == Before(c) + InOrder(t.left) && q == InOrder(t.right) + After(c) && OneNodeEach(p + [t.e] + q)
    requires header.left == FirstNode(header, p + [t.e] + q)
    modifies header`left
    ensures header.left == FirstNode(header, p + q) && Zip(header, u, c)
  {
    hide Zip;
    ghost var around, below := CtxNodes(c), Nodes(u);
    HeaderOutside(header, u, c);
    EndsWithout(header, p, t.e, q);
    NextUp(header, c);
    if header.left == z {
      if z.right == null {
        assert q == After(c);
        header.left := z.parent;
      } else {
        assert q[0] == InOrder(t.right)[0];
        header.left := Leftmost(x, header, u, c);
      }
    }
    assert old(allocated(around)) && old(allocated(below));
  }

  /** Keeps the last node in the header up to date when `z` has been spliced out. */
  method FixLast(z: Node, x: Node?, header: Node, ghost t: Tree, ghost c: Ctx, ghost u: Tree, ghost p: seq<Entry>,
                 ghost q: seq<Entry>)
    requires Zip(header, u, c) && OnlyChild(t, u) && x == Root(u) && z == t.e.node && z != header
    requires z.parent == CtxParent(c, header) && z.left == Root(t.left)
    requires p == Before(c) + InOrder(t.left) && q == InOrder(t.right) + After(c) && OneNodeEach(p + [t.e] + q)
    requires header.right == LastNode(header, p + [t.e] + q)
    modifies header`right
    ensures header.right == LastNode(header, p + q) && Zip(header, u, c)
  {
    hide Zip;
    ghost var around, below := CtxNodes(c), Nodes(u);
    HeaderOutside(header, u, c);
    EndsWithout(header, p, t.e, q);
    NextUp(header, c);
    if header.right == z {
      if z.left == null {
        assert p == Before(c);
        header.right := z.parent;
      } else {
        assert p[|p| - 1] == InOrder(t.left)[|InOrder(t.left)| - 1];
        header.right := Rightmost(x, header, u, c);
      }
    }
    assert old(allocated(around)) && old(allocated(below));
  }

  /** Without the root of `t`, which had at most one child. */
  lemma Spliced(t: Tree, c: Ctx, u: Tree) returns (p: seq<Entry>, q: seq<Entry>)
    requires OnlyChild(t, u) && Apart(t, c)
    ensures p == Before(c) + InOrder(t.left) && q == InOrder(t.right) + After(c)
    ensures Order(t, c) == p + [t.e] + q && Order(u, c) == p + q && OneNodeEach(p + [t.e] + q)
    ensures All(u, c) == All(t, c) - {t.e.node}
  {
    hide Distinct, CtxDistinct, OneNodeEach, All;
    p, q := Before(c) + InOrder(t.left), InOrder(t.right) + After(c);
    CtxOneNodeEach(t, c);
    assert Order(t, c) == p + [t.e] + q;
    assert Order(u, c) == p + q;
    SplicedNodes(t, c, u);
  }

  lemma SplicedNodes(t: Tree, c: Ctx, u: Tree)
    requires OnlyChild(t, u) && Apart(t, c)
    ensures All(u, c) == All(t, c) - {t.e.node}
  {
  }

  lemma TransplantedNodes(f: Tree, s: Ctx, b: Ctx)
    requires f.Fork? && f.left.Leaf? && b.Under? && Apart(f, Graft(s, b))
    ensures All(f.right, Graft(s, b.(e := f.e))) == All(f, Graft(s, b)) - {b.e.node}
  {
    GraftNodes(s, b);
    GraftNodes(s, b.(e := f.e));
  }

  lemma RegroupAround<T>(l: seq<T>, e: seq<T>, m: seq<T>, a: seq<T>, a': seq<T>)
    ensures (l + e) + m + (a + a') == l + e + (m + a + a')
  {
  }

  lemma RegroupTail<T>(l: seq<T>, e: seq<T>, m: seq<T>, a: seq<T>, a': seq<T>)
    ensures l + e + (m + a + a') == l + ((e + m) + a + a')
  {
  }

  /** Without the node of `b`, whose place its successor has taken. */
  lemma Transplanted(f: Tree, s: Ctx, b: Ctx) returns (p: seq<Entry>, q: seq<Entry>)
    requires f.Fork? && f.left.Leaf? && LeftSpine(s) && b.Under? && b.side == OnRight && b.sib.Fork?
    ensures Order(f, Graft(s, b)) == p + [b.e] + q && Order(f.right, Graft(s, b.(e := f.e))) == p + q
    ensures p != [] && q != []
  {
    hide LeftSpine, Graft;
    GraftOrder(s, b);
    GraftOrder(s, b.(e := f.e));
    var m, a, a' := InOrder(f.right), After(s), After(b.up);
    p := Before(b.up) + InOrder(b.sib);
    q := ([f.e] + m) + a + a';
    assert InOrder(f) == [f.e] + m;
    RegroupAround(p, [b.e], [f.e] + m, a, a');
    RegroupAround(p, [f.e], m, a, a');
    RegroupTail(p, [f.e], m, a, a');
  }
}
