/** Erasing a node: relinking, then rebalancing when a black node has gone. */
module RbRemove {
  import opened RbShape
  import opened RbLinks
  import opened RbOrder
  import opened RbSearch
  import opened RbErase
  import opened RbUnlink

  /** A node of color `removed` has gone from above `u`. */
  ghost predicate Vacated(u: Tree, d: Ctx, h: int, removed: Color) {
    && h >= 0 && NoRedRed(u) && BlackHeight(u, h)
    && CtxHeight(d, h + Step(removed)) && CtxNoRedRed(d) && (removed == Red ==> RootBlack(u))
  }

  lemma VacatedOne(t: Tree, c: Ctx, u: Tree) returns (h: int)
    requires OnlyChild(t, u) && RedBlack(Plug(t, c))
    ensures Vacated(u, c, h, t.color)
  {
    var whole: nat :| BlackHeight(Plug(t, c), whole);
    h := Unplug(t, c, whole);
    Children(t, h);
    h := h - Step(t.color);
    BlackHeightNatural(u, h);
  }

  lemma VacatedTwo(f: Tree, s: Ctx, b: Ctx) returns (h: int)
    requires f.Fork? && f.left.Leaf? && b.Under? && RedBlack(Plug(f, Graft(s, b)))
    ensures Vacated(f.right, Graft(s, b.(e := f.e)), h, f.color)
  {
    h := VacatedOne(f, Graft(s, b), f.right);
    GraftBalance(s, b, f.e, h + Step(f.color));
  }

  lemma {:induction false} BlackHeightNatural(t: Tree, h: int)
    requires BlackHeight(t, h)
    ensures h >= 0
  {
    if t.Fork? {
      BlackHeightNatural(t.left, h - Step(t.color));
    }
  }

  /** The result of taking `z` out: the subtree `u` below the node `xp`, in the context `d`. */
  ghost predicate Unlinked(header: Node, z: Node, x: Node?, xp: Node, u: Tree, d: Ctx, h: int, p: seq<Entry>,
                           q: seq<Entry>)
    reads header, z`color, Nodes(u), CtxNodes(d)
  {
    && Zip(header, u, d) && Vacated(u, d, h, z.color) && x == Root(u) && xp == CtxParent(d, header)
    && Order(u, d) == p + q
    && header.left == FirstNode(header, p + q) && header.right == LastNode(header, p + q)
  }

  method UnlinkOne(z: Node, x: Node?, header: Node, ghost t: Tree, ghost c: Ctx, ghost u: Tree)
    returns (xp: Node, ghost h: int, ghost p: seq<Entry>, ghost q: seq<Entry>)
    requires Zip(header, t, c) && RedBlack(Plug(t, c)) && OnlyChild(t, u) && z == t.e.node && x == Root(u)
    requires header.left == FirstNode(header, Order(t, c)) && header.right == LastNode(header, Order(t, c))
    modifies header`parent, header`left, header`right, All(t, c)`parent, All(t, c)`left, All(t, c)`right
    ensures Unlinked(header, z, x, xp, u, c, h, p, q) && Order(t, c) == p + [t.e] + q
    ensures All(u, c) == All(t, c) - {z}
  {
    hide Vacated, Order, InOrder, Before, After;
    p, q := Spliced(t, c, u);
    h := VacatedOne(t, c, u);
    OnlyChildFacts(t, u, CtxParent(c, header));
    assert Fields(z) == At(t, CtxParent(c, header), z);
    xp := Splice(z, x, header, t, c, u);
    FixFirst(z, x, header, t, c, u, p, q);
    FixLast(z, x, header, t, c, u, p, q);
  }

  /** What is left when the successor has taken the place of the root of `t`. */
  lemma TakenOut(header: Node, t: Tree, c: Ctx, f: Tree, s: Ctx) returns (h: int, p: seq<Entry>, q: seq<Entry>)
    requires RedBlack(Plug(t, c)) && t.Fork? && t.left.Fork? && f.Fork? && f.left.Leaf? && LeftSpine(s) && Apart(t, c)
    requires var b := Under(c, OnRight, t.color, t.e, t.left);
             Order(f, Graft(s, b)) == Order(t, c) && Plug(f, Graft(s, b)) == Plug(t, c) && Apart(f, Graft(s, b))
    ensures Order(t, c) == p + [t.e] + q
    ensures FirstNode(header, p + q) == FirstNode(header, p + [t.e] + q)
    ensures LastNode(header, p + q) == LastNode(header, p + [t.e] + q)
    ensures Order(f.right, Graft(s, Under(c, OnRight, t.color, f.e, t.left))) == p + q
    ensures All(f.right, Graft(s, Under(c, OnRight, t.color, f.e, t.left))) == All(t, c) - {t.e.node}
    ensures Vacated(f.right, Graft(s, Under(c, OnRight, t.color, f.e, t.left)), h, f.color)
  {
    hide Vacated, Order, InOrder, Before, After, RedBlack, Graft, LeftSpine;
    var b := Under(c, OnRight, t.color, t.e, t.left);
    CtxOneNodeEach(t, c);
    p, q := Transplanted(f, s, b);
    EndsWithout(header, p, t.e, q);
    SameNodes(t, c, f, Graft(s, b));
    TransplantedNodes(f, s, b);
    h := VacatedTwo(f, s, b);
  }

  method UnlinkTwo(z: Node, header: Node, ghost t: Tree, ghost c: Ctx)
    returns (x: Node?, xp: Node, ghost u: Tree, ghost d: Ctx, ghost h: int, ghost p: seq<Entry>, ghost q: seq<Entry>)
    requires Zip(header, t, c) && RedBlack(Plug(t, c)) && t.Fork? && t.left.Fork? && t.right.Fork? && z == t.e.node
    requires header.left == FirstNode(header, Order(t, c)) && header.right == LastNode(header, Order(t, c))
    modifies header`parent, All(t, c)`color, All(t, c)`parent, All(t, c)`left, All(t, c)`right
    ensures Unlinked(header, z, x, xp, u, d, h, p, q) && Order(t, c) == p + [t.e] + q
    ensures All(u, d) == All(t, c) - {z}
  {
    hide Vacated, Order, InOrder, Before, After, Distinct, CtxDistinct, RedBlack, Graft, LeftSpine, Plug;
    hide Successor, Everything, FirstNode, LastNode, CtxLinked, TreeLinked;
    ghost var f, s;
    ghost var b := Under(c, OnRight, t.color, t.e, t.left);
    var y;
    y, f, s := Down(z, header, t, c);
    SameNodes(t, c, f, Graft(s, b));
    h, p, q := TakenOut(header, t, c, f, s);
    SuccessorOf(header, f, s, b);
    x, xp := Transplant(z, y, header, f, s, b);
    u, d := f.right, Graft(s, b.(e := f.e));
  }

  /** Two views of one tree have the same nodes. */
  lemma SameNodes(t: Tree, c: Ctx, t': Tree, c': Ctx)
    requires Plug(t, c) == Plug(t', c')
    ensures All(t, c) == All(t', c')
  {
    PlugOrder(t, c);
    PlugOrder(t', c');
  }

  lemma SuccessorOf(header: Node, f: Tree, s: Ctx, b: Ctx)
    requires f.Fork? && f.left.Leaf? && b.Under? && b.side == OnRight && b.sib.Fork? && LeftSpine(s)
    requires Zip(header, f, Graft(s, b))
    ensures Successor(b.e.node, f.e.node, header, f, s, b)
    ensures Everything(f, s, b) == All(f, Graft(s, b))
    ensures CtxParent(s, f.e.node) == CtxParent(Graft(s, b.(e := f.e)), header)
  {
    GraftNodes(s, b);
  }

  lemma {:induction false} ZipPlace(header: Node, t: Tree, c: Ctx)
    requires Zip(header, Plug(t, c), Top)
    ensures Zip(header, t, c)
    decreases c
  {
    if c.Under? {
      ZipPlace(header, Join(c.side, t, c.color, c.e, c.sib), c.up);
      ZipDown(header, t, c);
    }
  }

  /** The relinking part: the three cases of the number of children of `z`. */
  method Unlink(z: Node, header: Node, ghost t: Tree, ghost c: Ctx)
    returns (x: Node?, xp: Node, ghost u: Tree, ghost d: Ctx, ghost h: int, ghost p: seq<Entry>, ghost q: seq<Entry>)
    requires Zip(header, t, c) && RedBlack(Plug(t, c)) && t.Fork? && z == t.e.node
    requires header.left == FirstNode(header, Order(t, c)) && header.right == LastNode(header, Order(t, c))
    modifies header`parent, header`left, header`right
    modifies All(t, c)`color, All(t, c)`parent, All(t, c)`left, All(t, c)`right
    ensures Unlinked(header, z, x, xp, u, d, h, p, q) && Order(t, c) == p + [t.e] + q
    ensures All(u, d) == All(t, c) - {z}
  {
    hide Vacated, Order, InOrder, Before, After, RedBlack;
    assert Fields(z) == At(t, CtxParent(c, header), z);
    if z.left == null {
      x, u, d := z.right, t.right, c;
      xp, h, p, q := UnlinkOne(z, x, header, t, c, u);
    } else if z.right == null {
      x, u, d := z.left, t.left, c;
      xp, h, p, q := UnlinkOne(z, x, header, t, c, u);
    } else {
      x, xp, u, d, h, p, q := UnlinkTwo(z, header, t, c);
    }
  }

  /** The rebalancing part, needed when the color that has gone is black. */
  method Restore(z: Node, x: Node?, xp: Node, header: Node, ghost u: Tree, ghost d: Ctx, ghost h: int,
                 ghost p: seq<Entry>, ghost q: seq<Entry>)
    returns (ghost s: Tree)
    requires Unlinked(header, z, x, xp, u, d, h, p, q) && z !in All(u, d)
    modifies header`parent, All(u, d)`color, All(u, d)`parent, All(u, d)`left, All(u, d)`right
    ensures Zip(header, s, Top) && RedBlack(s) && InOrder(s) == p + q && Nodes(s) == All(u, d)
  {
    hide RedBlack, NoRedRed, BlackHeight, CtxHeight, CtxNoRedRed, InOrder, Before, After, Distinct, CtxDistinct;
    if z.color != Red {
      NoRedRedBlacken(u);
      s := RebalanceForErase(x, xp, header, u, d, h);
    } else {
      s := Plug(u, d);
      ZipTop(header, u, d);
      PlugOrder(u, d);
      PlugRedBlack(u, d, h);
    }
  }

  lemma NoRedRedBlacken(t: Tree)
    requires NoRedRed(t)
    ensures NoRedRed(Blacken(t))
  {
  }

  method RemoveAt(z: Node, header: Node, ghost t: Tree, ghost c: Ctx)
    returns (ghost s: Tree, ghost p: seq<Entry>, ghost q: seq<Entry>)
    requires Zip(header, t, c) && RedBlack(Plug(t, c)) && t.Fork? && z == t.e.node
    requires header.left == FirstNode(header, Order(t, c)) && header.right == LastNode(header, Order(t, c))
    modifies header`parent, header`left, header`right
    modifies All(t, c)`color, All(t, c)`parent, All(t, c)`left, All(t, c)`right
    ensures Zip(header, s, Top) && RedBlack(s) && InOrder(s) == p + q && Nodes(s) == All(t, c) - {z}
    ensures header.left == FirstNode(header, p + q) && header.right == LastNode(header, p + q)
    ensures Order(t, c) == p + [t.e] + q
  {
    hide RedBlack, Vacated, InOrder, Before, After, Order;
    var x, xp;
    ghost var u, d, h;
    x, xp, u, d, h, p, q := Unlink(z, header, t, c);
    s := Restore(z, x, xp, header, u, d, h, p, q);
  }

  /** What erasing one entry does to the sequence. */
  lemma EntryGone(o: seq<Entry>, r: seq<Entry>, p: seq<Entry>, e: Entry, q: seq<Entry>)
    requires Sorted(o) && o == p + [e] + q && r == p + q
    ensures Sorted(r) && |r| + 1 == |o| && Contents(r) == Contents(o) - {e.key} && e.key in Contents(o)
    ensures multiset(o) == multiset(r) + multiset{e}
  {
    ContentsWith(p, e, q);
  }

  /** Takes `z` out of the tree. */
  method Remove(z: Node, header: Node, ghost s: Tree) returns (ghost s': Tree, ghost e: Entry)
    requires WellFormed(header, s) && z in Nodes(s)
    modifies header`parent, header`left, header`right, Nodes(s)`color, Nodes(s)`parent, Nodes(s)`left, Nodes(s)`right
    ensures WellFormed(header, s') && Nodes(s') == Nodes(s) - {z}
    ensures e == Entry(z, z.key, z.block) && multiset(InOrder(s)) == multiset(InOrder(s')) + multiset{e}
    ensures |InOrder(s')| + 1 == |InOrder(s)| && Contents(InOrder(s')) == Contents(InOrder(s)) - {z.key}
    ensures z.key in Contents(InOrder(s))
  {
    hide Contents, RedBlack, InOrder, Before, After, Order;
    ghost var t, c := Place(s, s, Top, z);
    PlugOrder(t, c);
    ZipPlace(header, t, c);
    assert Fields(z) == At(t, CtxParent(c, header), z);
    e := t.e;
    ghost var p, q;
    s', p, q := RemoveAt(z, header, t, c);
    EntryGone(InOrder(s), InOrder(s'), p, e, q);
  }
}
