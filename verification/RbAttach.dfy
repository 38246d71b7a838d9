/** Linking a new node into the tree. */
module RbAttach {
  import opened RbShape
  import opened RbLinks
  import opened RbOrder
  import opened RbSearch
  import opened RbInsert

  /** The parent of a gap is the entry next to it, and is an end of the tree iff the gap is. */
  lemma GapEnds(header: Node, c: Ctx, key: Key)
    requires CtxDistinct(c) && Below(Before(c), key) && Above(After(c), key)
    ensures c.Top? ==> Before(c) == [] && After(c) == []
    ensures c.Under? && c.side == OnLeft ==>
              && key < c.e.key && After(c) != []
              && (FirstNode(header, Order(Leaf, c)) == c.e.node <==> Before(c) == [])
    ensures c.Under? && c.side == OnRight ==>
              && c.e.key < key && Before(c) != []
              && (LastNode(header, Order(Leaf, c)) == c.e.node <==> After(c) == [])
    ensures Before(c) != [] ==> FirstNode(header, Order(Leaf, c)) == FirstNode(header, Before(c))
    ensures After(c) != [] ==> LastNode(header, Order(Leaf, c)) == LastNode(header, After(c))
  {
    CtxOneNodeEach(Leaf, c);
    CtxNext(c);
    assert Order(Leaf, c) == Before(c) + After(c);
    EndsOf(header, Before(c), After(c));
  }

  /** Links `z` below `y` and keeps the first and last node in the header up to date. */
  method Attach(y: Node, key: Key, z: Node, header: Node, ghost c: Ctx)
    requires Gap(header, c, key) && y == CtxParent(c, header)
    requires header.left == FirstNode(header, Order(Leaf, c)) && header.right == LastNode(header, Order(Leaf, c))
    modifies header`parent, header`left, header`right, CtxNodes(c)`left, CtxNodes(c)`right
    ensures CtxLinked(c, header, z)
    ensures header.left == (if Before(c) == [] then z else FirstNode(header, Before(c)))
    ensures header.right == (if After(c) == [] then z else LastNode(header, After(c)))
  {
    ghost var nodes := CtxNodes(c);
    GapEnds(header, c, key);
    if c.Under? {
      RootOutside(c, z);
      RootOutside(c, null);
      assert Fields(y) == CtxAt(c, header, null, y);
    }
    if y == header || key < y.key {
      y.left := z;
      if y == header {
        header.parent := z;
        header.right := z;
      } else if y == header.left {
        header.left := z;
      }
    } else {
      y.right := z;
      if y == header.right {
        header.right := z;
      }
    }
    assert old(allocated(nodes));
    forall n | n in nodes
      ensures Fields(n) == CtxAt(c, header, z, n)
    {
      CtxAtOther(c, header, null, z, n);
    }
    assert header.parent == CtxRoot(c, z);
  }

  /** Filling a gap of a red-black tree with a red leaf keeps everything but the color rule. */
  lemma GapRising(shape: Tree, c: Ctx, e: Entry)
    requires RedBlack(shape) && shape == Plug(Leaf, c)
    ensures Rising(Fork(Leaf, Red, e, Leaf), c, 0) && CtxNodes(c) == Nodes(shape)
    ensures Order(Leaf, c) == InOrder(shape)
  {
    PlugOrder(Leaf, c);
    var whole: nat :| BlackHeight(shape, whole);
    var h := Unplug(Leaf, c, whole);
  }

  /** The sequence with the new entry in its gap. */
  lemma GapFilled(header: Node, c: Ctx, color: Color, e: Entry) returns (order: seq<Entry>)
    requires Sorted(Order(Leaf, c)) && Below(Before(c), e.key) && Above(After(c), e.key)
    ensures order == Before(c) + [e] + After(c)
    ensures Order(Fork(Leaf, color, e, Leaf), c) == order && Sorted(order)
    ensures FirstNode(header, order) == (if Before(c) == [] then e.node else FirstNode(header, Before(c)))
    ensures LastNode(header, order) == (if After(c) == [] then e.node else LastNode(header, After(c)))
  {
    assert Order(Leaf, c) == Before(c) + After(c);
    assert InOrder(Fork(Leaf, color, e, Leaf)) == [e];
    SortedWith(Before(c), e, After(c));
    EndsWith(header, Before(c), e, After(c));
    order := Before(c) + [e] + After(c);
  }

  lemma GapOrder(c: Ctx)
    ensures Order(Leaf, c) == Before(c) + After(c)
  {
  }

  lemma GapApart(header: Node, c: Ctx, key: Key)
    requires Gap(header, c, key)
    ensures header !in CtxNodes(c) && CtxDistinct(c)
  {
  }

  /** A single new node below the context. */
  lemma LeafLinked(z: Node, e: Entry, y: Node, header: Node, c: Ctx)
    requires CtxDistinct(c) && z != header && z !in CtxNodes(c) && header !in CtxNodes(c) && CtxLinked(c, header, z)
    requires y == CtxParent(c, header) && Fields(z) == Cell(z.color, e, y, null, null) && e.node == z
    ensures Zip(header, Fork(Leaf, z.color, e, Leaf), c)
  {
    assert Distinct(Leaf) && Nodes(Leaf) == {};
    assert Nodes(Fork(Leaf, z.color, e, Leaf)) == {z};
    assert At(Fork(Leaf, z.color, e, Leaf), y, z) == Fields(z);
  }

  /** Stores the entry in `z` and links `z` into its gap. */
  method Link(y: Node, key: Key, block: Address, z: Node, header: Node, ghost c: Ctx)
    requires Gap(header, c, key) && y == CtxParent(c, header) && z != header && z !in CtxNodes(c)
    requires header.left == FirstNode(header, Order(Leaf, c)) && header.right == LastNode(header, Order(Leaf, c))
    modifies header`parent, header`left, header`right, CtxNodes(c)`left, CtxNodes(c)`right
    modifies z`key, z`block, z`parent, z`left, z`right
    ensures Zip(header, Fork(Leaf, z.color, Entry(z, key, block), Leaf), c)
    ensures header.left == (if Before(c) == [] then z else FirstNode(header, Before(c)))
    ensures header.right == (if After(c) == [] then z else LastNode(header, After(c)))
  {
    hide CtxLinked, FirstNode, LastNode, Before, After, Sorted, Below, Above, Zip, Gap, Order;
    GapApart(header, c, key);
    z.key := key;
    z.block := block;
    Attach(y, key, z, header, c);
    z.parent := y;
    z.left := null;
    z.right := null;
    LeafLinked(z, Entry(z, key, block), y, header, c);
  }

  method LinkAndRebalance(y: Node, key: Key, block: Address, z: Node, header: Node, ghost c: Ctx)
    returns (ghost s: Tree)
    requires Gap(header, c, key) && y == CtxParent(c, header) && z != header && z !in CtxNodes(c)
    requires header.left == FirstNode(header, Order(Leaf, c)) && header.right == LastNode(header, Order(Leaf, c))
    requires Rising(Fork(Leaf, Red, Entry(z, key, block), Leaf), c, 0)
    modifies header`parent, header`left, header`right, CtxNodes(c), z
    ensures Zip(header, s, Top) && RedBlack(s) && Nodes(s) == CtxNodes(c) + {z}
    ensures InOrder(s) == old(Order(Fork(Leaf, z.color, Entry(z, key, block), Leaf), c))
    ensures header.left == (if Before(c) == [] then z else FirstNode(header, Before(c)))
    ensures header.right == (if After(c) == [] then z else LastNode(header, After(c)))
  {
    hide RedBlack, NoRedRed, BlackHeight, CtxHeight, CtxNoRedRed, Sorted, Below;
    hide Above, Zip, Before, After, Gap, FirstNode, LastNode;
    GapApart(header, c, key);
    assert Nodes(Fork(Leaf, z.color, Entry(z, key, block), Leaf)) == {z};
    Link(y, key, block, z, header, c);
    s := Rebalance(z, header, Fork(Leaf, z.color, Entry(z, key, block), Leaf), c, 0);
  }

  /** All that linking the entry in does to the sequence. */
  lemma PutOrder(header: Node, s: Tree, c: Ctx, color: Color, e: Entry) returns (order: seq<Entry>)
    requires RedBlack(s) && s == Plug(Leaf, c) && Sorted(InOrder(s)) && InOrder(s) == Order(Leaf, c)
    requires Below(Before(c), e.key) && Above(After(c), e.key)
    ensures Order(Fork(Leaf, color, e, Leaf), c) == order && Sorted(order)
    ensures FirstNode(header, order) == (if Before(c) == [] then e.node else FirstNode(header, Before(c)))
    ensures LastNode(header, order) == (if After(c) == [] then e.node else LastNode(header, After(c)))
    ensures |order| == |InOrder(s)| + 1 && Contents(order) == Contents(InOrder(s))[e.key := e.block]
    ensures multiset(order) == multiset(InOrder(s)) + multiset{e}
  {
    order := GapFilled(header, c, color, e);
    GapOrder(c);
    EntryAdded(InOrder(s), Before(c), e, After(c), order);
  }

  /** Links a new entry into its gap and rebalances; `order` is the sequence with the new entry. */
  method Put(y: Node, key: Key, block: Address, z: Node, header: Node, ghost c: Ctx, ghost order: seq<Entry>)
    returns (ghost s': Tree)
    requires Gap(header, c, key) && y == CtxParent(c, header) && z != header && z !in CtxNodes(c) && header.color == Red
    requires header.left == FirstNode(header, Order(Leaf, c)) && header.right == LastNode(header, Order(Leaf, c))
    requires Rising(Fork(Leaf, Red, Entry(z, key, block), Leaf), c, 0)
    requires Sorted(order) && Order(Fork(Leaf, z.color, Entry(z, key, block), Leaf), c) == order
    requires FirstNode(header, order) == (if Before(c) == [] then z else FirstNode(header, Before(c)))
    requires LastNode(header, order) == (if After(c) == [] then z else LastNode(header, After(c)))
    modifies header`parent, header`left, header`right, CtxNodes(c), z
    ensures WellFormed(header, s') && Nodes(s') == CtxNodes(c) + {z} && InOrder(s') == order
  {
    s' := LinkAndRebalance(y, key, block, z, header, c);
  }
}
