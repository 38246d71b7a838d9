/** The value a red-black tree of heap nodes stands for, and the zipper that the rebalancing
    loops walk. Nothing here reads the heap: a tree value names the node objects that hold its
    entries, and RbTree.dfy ties the links of those objects to such a value.
 */
module RbShape {

  type Key = nat
  type Address = nat

  datatype Color = Red | Black

  /** A tree node: the links overwritten by the algorithms and the user data attached to it. */
  class Node {
    var color: Color
    var parent: Node?
    var left: Node?
    var right: Node?
    var key: Key
    var block: Address

    constructor ()
      ensures fresh(this)
    {
      new;
    }
  }

  datatype Entry = Entry(node: Node, key: Key, block: Address)

  datatype Tree = Leaf | Fork(left: Tree, color: Color, e: Entry, right: Tree)

  datatype Side = OnLeft | OnRight

  /** What surrounds a subtree: `Under(up, s, c, e, sib)` says that the subtree is the `s` child
      of the node holding `e`, whose color is `c` and whose other child is `sib`. */
  datatype Ctx = Top | Under(up: Ctx, side: Side, color: Color, e: Entry, sib: Tree)

  // ---------------------------------------------------------------- nodes

  ghost function Nodes(t: Tree): set<Node> {
    match t
    case Leaf => {}
    case Fork(l, _, e, r) => Nodes(l) + {e.node} + Nodes(r)
  }

  ghost function CtxNodes(c: Ctx): set<Node> {
    match c
    case Top => {}
    case Under(up, _, _, e, sib) => CtxNodes(up) + {e.node} + Nodes(sib)
  }

  ghost function Depth(c: Ctx): nat {
    if c.Top? then 0 else 1 + Depth(c.up)
  }

  ghost predicate Distinct(t: Tree) {
    match t
    case Leaf => true
    case Fork(l, _, e, r) =>
      && e.node !in Nodes(l) && e.node !in Nodes(r) && Nodes(l) !! Nodes(r)
      && Distinct(l) && Distinct(r)
  }

  ghost predicate CtxDistinct(c: Ctx) {
    match c
    case Top => true
    case Under(up, _, _, e, sib) =>
      && e.node !in Nodes(sib) && e.node !in CtxNodes(up) && Nodes(sib) !! CtxNodes(up)
      && Distinct(sib) && CtxDistinct(up)
  }

  ghost predicate Apart(t: Tree, c: Ctx) {
    Distinct(t) && CtxDistinct(c) && Nodes(t) !! CtxNodes(c)
  }

  // ---------------------------------------------------------------- in-order sequence

  ghost function InOrder(t: Tree): seq<Entry> {
    match t
    case Leaf => []
    case Fork(l, _, e, r) => InOrder(l) + [e] + InOrder(r)
  }

  ghost function Before(c: Ctx): seq<Entry> {
    match c
    case Top => []
    case Under(up, s, _, e, sib) => if s == OnLeft then Before(up) else Before(up) + InOrder(sib) + [e]
  }

  ghost function After(c: Ctx): seq<Entry> {
    match c
    case Top => []
    case Under(up, s, _, e, sib) => if s == OnLeft then [e] + InOrder(sib) + After(up) else After(up)
  }

  ghost function Order(t: Tree, c: Ctx): seq<Entry> {
    Before(c) + InOrder(t) + After(c)
  }

  // ---------------------------------------------------------------- the zipper

  /** The node holding `e` with `t` as its `s` child and `sib` as its other child. */
  ghost function Join(s: Side, t: Tree, c: Color, e: Entry, sib: Tree): Tree {
    if s == OnLeft then Fork(t, c, e, sib) else Fork(sib, c, e, t)
  }

  ghost function Plug(t: Tree, c: Ctx): Tree
    decreases c
  {
    match c
    case Top => t
    case Under(up, s, col, e, sib) => Plug(Join(s, t, col, e, sib), up)
  }

  lemma Regroup<T>(p: seq<T>, l: seq<T>, m: seq<T>, r: seq<T>, q: seq<T>)
    ensures p + (l + m + r) + q == p + l + (m + r + q)
    ensures p + (l + m + r) + q == (p + l + m) + r + q
  {
  }

  lemma OrderUp(t: Tree, c: Ctx)
    requires c.Under?
    ensures Order(t, c) == Order(Join(c.side, t, c.color, c.e, c.sib), c.up)
  {
    if c.side == OnLeft {
      Regroup(Before(c.up), InOrder(t), [c.e], InOrder(c.sib), After(c.up));
    } else {
      Regroup(Before(c.up), InOrder(c.sib), [c.e], InOrder(t), After(c.up));
    }
  }

  lemma {:induction false} PlugOrder(t: Tree, c: Ctx)
    ensures InOrder(Plug(t, c)) == Order(t, c)
    ensures Nodes(Plug(t, c)) == Nodes(t) + CtxNodes(c)
    decreases c
  {
    if c.Under? {
      OrderUp(t, c);
      PlugOrder(Join(c.side, t, c.color, c.e, c.sib), c.up);
    }
  }

  lemma {:induction false} PlugDistinct(t: Tree, c: Ctx)
    ensures Distinct(Plug(t, c)) <==> Apart(t, c)
    decreases c
  {
    if c.Under? {
      PlugDistinct(Join(c.side, t, c.color, c.e, c.sib), c.up);
    }
  }

  // ---------------------------------------------------------------- links

  /** What the fields of one node hold when it is linked into a tree. */
  datatype Cell = Cell(color: Color, e: Entry, parent: Node?, left: Node?, right: Node?)

  ghost function Root(t: Tree): Node? {
    if t.Leaf? then null else t.e.node
  }

  /** The fields of node `n` of `t`, when the root of `t` hangs below `parent`. */
  ghost function At(t: Tree, parent: Node, n: Node): Cell
    requires n in Nodes(t)
  {
    if n == t.e.node then Cell(t.color, t.e, parent, Root(t.left), Root(t.right))
    else if n in Nodes(t.left) then At(t.left, t.e.node, n)
    else At(t.right, t.e.node, n)
  }

  ghost function CtxParent(c: Ctx, header: Node): Node {
    if c.Top? then header else c.e.node
  }

  /** The fields of node `n` outside a subtree whose root is `p`. */
  ghost function CtxAt(c: Ctx, header: Node, p: Node?, n: Node): Cell
    requires n in CtxNodes(c)
  {
    if n == c.e.node then
      if c.side == OnLeft then Cell(c.color, c.e, CtxParent(c.up, header), p, Root(c.sib))
      else Cell(c.color, c.e, CtxParent(c.up, header), Root(c.sib), p)
    else if n in Nodes(c.sib) then At(c.sib, c.e.node, n)
    else CtxAt(c.up, header, c.e.node, n)
  }

  /** The root of the whole tree around a subtree whose root is `p`. */
  ghost function CtxRoot(c: Ctx, p: Node?): Node? {
    if c.Top? then p else CtxRoot(c.up, c.e.node)
  }

  // ---------------------------------------------------------------- balance and colors

  ghost predicate RootBlack(t: Tree) {
    t.Fork? ==> t.color == Black
  }

  ghost predicate NoRedRed(t: Tree) {
    match t
    case Leaf => true
    case Fork(l, c, _, r) => NoRedRed(l) && NoRedRed(r) && (c == Red ==> RootBlack(l) && RootBlack(r))
  }

  ghost function Step(c: Color): nat {
    if c == Black then 1 else 0
  }

  /** Every path from the root of `t` down to a leaf meets `h` black nodes. */
  ghost predicate BlackHeight(t: Tree, h: int) {
    match t
    case Leaf => h == 0
    case Fork(l, c, _, r) => BlackHeight(l, h - Step(c)) && BlackHeight(r, h - Step(c))
  }

  /** Putting a subtree of black height `h` here makes every path of the whole tree meet equally
      many black nodes. */
  ghost predicate CtxHeight(c: Ctx, h: int) {
    match c
    case Top => true
    case Under(up, _, col, _, sib) => BlackHeight(sib, h) && CtxHeight(up, h + Step(col))
  }

  /** No red node outside the subtree has a red child outside the subtree, and the root is black. */
  ghost predicate CtxNoRedRed(c: Ctx) {
    match c
    case Top => true
    case Under(up, _, col, _, sib) =>
      && NoRedRed(sib) && CtxNoRedRed(up)
      && (col == Red ==> RootBlack(sib) && up.Under? && up.color == Black)
  }

  ghost function Blacken(t: Tree): Tree {
    if t.Fork? then t.(color := Black) else t
  }

  /** The invariant of the whole tree: black root, no red node with a red child, and equally many
      black nodes on every path. */
  ghost predicate RedBlack(t: Tree) {
    RootBlack(t) && NoRedRed(t) && exists h: nat :: BlackHeight(t, h)
  }

  lemma {:induction false} PlugRedBlack(t: Tree, c: Ctx, h: nat)
    requires NoRedRed(t) && CtxNoRedRed(c) && BlackHeight(t, h) && CtxHeight(c, h)
    requires RootBlack(t) || (c.Under? && c.color == Black)
    ensures RedBlack(Plug(t, c))
    decreases c
  {
    if c.Under? {
      var up := Join(c.side, t, c.color, c.e, c.sib);
      assert BlackHeight(up, h + Step(c.color));
      PlugRedBlack(up, c.up, h + Step(c.color));
    }
  }

  /** The parts of a red-black tree around one of its subtrees. */
  lemma {:induction false} Unplug(t: Tree, c: Ctx, whole: int) returns (h: int)
    requires RootBlack(Plug(t, c)) && NoRedRed(Plug(t, c)) && BlackHeight(Plug(t, c), whole)
    ensures NoRedRed(t) && BlackHeight(t, h)
    ensures CtxNoRedRed(c) && CtxHeight(c, h)
    ensures c.Top? || c.color == Red ==> RootBlack(t)
    decreases c
  {
    if c.Top? {
      h := whole;
    } else {
      h := Unplug(Join(c.side, t, c.color, c.e, c.sib), c.up, whole);
      h := h - Step(c.color);
    }
  }
}
