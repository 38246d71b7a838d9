/** The red-black tree with a sentinel header: search, insertion and erasure. */
module RbTree {
  import opened RbShape
  import opened RbLinks
  import opened RbOrder
  import opened RbSearch
  import opened RbInsert
  import opened RbAttach
  import opened RbRemove

  class RbTree {
    const header: Node
    var count: nat
    ghost var shape: Tree

    ghost predicate Valid()
      reads this, header, Nodes(shape)
    {
      WellFormed(header, shape) && count == |InOrder(shape)|
    }

    /** The abstract map from sequence number to block. */
    ghost function Map(): map<Key, Address>
      reads this
    {
      Contents(InOrder(shape))
    }

    constructor ()
      ensures Valid() && Map() == map[] && Nodes(shape) == {} && fresh(header)
    {
      var h := new Node();
      header := h;
      count := 0;
      shape := Leaf;
      new;
      header.color := Red;
      header.parent := null;
      header.left := header;
      header.right := header;
      assert BlackHeight(Leaf, 0);
    }

    /** The node that holds the key, the header when there is none. */
    method Find(key: Key) returns (r: Node, ghost steps: nat)
      requires Valid()
      ensures key in Map() ==> r in Nodes(shape) && r.key == key && r.block == Map()[key]
      ensures key !in Map() ==> r == header
      ensures steps <= Height(shape) && steps <= 2 * Log2(count + 1)
    {
      hide RedBlack, Sorted, Contents, Zip, Log2, Height, InOrder, Before, After, Nodes;
      SearchBegins(key);
      var y := header;
      var x := header.parent;
      ghost var whole := shape;
      ghost var t, c := whole, Top;
      steps := 0;
      while x != null
        invariant Hunt(header, whole, t, c, key) && x == Root(t) && steps + Height(t) <= Height(whole)
        invariant y == FirstNode(header, After(c))
        decreases t
      {
        steps := steps + 1;
        HuntStep(header, whole, t, c, key);
        t, c := StepTree(t, key), StepCtx(t, c, key);
        if !(x.key < key) {
          y, x := x, x.left;
        } else {
          x := x.right;
        }
      }
      Arrived(header, whole, c, key);
      r := if y == header || key < y.key then header else y;
    }

    /** A search begins at the root, below which the tree is low for its number of nodes. */
    lemma SearchBegins(key: Key)
      requires Valid()
      ensures Height(shape) <= 2 * Log2(count + 1)
      ensures Hunt(header, shape, shape, Top, key) && Sorted(InOrder(shape))
      ensures header.parent == Root(shape) && After(Top) == []
    {
      HeightLogarithmic(shape);
    }

    method Insert(y: Node, key: Key, block: Address, z: Node, ghost c: Ctx)
      requires Gap(header, c, key) && y == CtxParent(c, header) && z != header && z !in CtxNodes(c)
      requires header.color == Red && RedBlack(shape) && shape == Plug(Leaf, c) && count == |InOrder(shape)|
      requires header.left == FirstNode(header, InOrder(shape)) && header.right == LastNode(header, InOrder(shape))
      modifies this`count, this`shape, header, CtxNodes(c), z
      ensures Valid() && Nodes(shape) == CtxNodes(c) + {z}
      ensures multiset(InOrder(shape)) == multiset(old(InOrder(shape))) + multiset{Entry(z, key, block)}
      ensures Map() == old(Map())[key := block]
    {
      hide Rising, Sorted, InOrder, Before, After, RedBlack, Contents, Distinct, CtxDistinct, Below, Above;
      hide Zip, WellFormed, Plug, FirstNode, LastNode;
      GapRising(shape, c, Entry(z, key, block));
      ghost var order := PutOrder(header, shape, c, z.color, Entry(z, key, block));
      ghost var s := Put(y, key, block, z, header, c, order);
      shape := s;
      count := count + 1;
    }

    /** Adds the pair unless the key is there already. */
    method InsertUnique(key: Key, block: Address, mem: Node) returns (inserted: bool)
      requires Valid() && mem !in Nodes(shape) && mem != header
      modifies this`count, this`shape, header, Nodes(shape), mem
      ensures Valid() && (inserted <==> key !in old(Map()))
      ensures inserted ==> Map() == old(Map())[key := block] && Nodes(shape) == old(Nodes(shape)) + {mem}
      ensures inserted ==> multiset(InOrder(shape)) == multiset(old(InOrder(shape))) + multiset{Entry(mem, key, block)}
      ensures !inserted ==> unchanged(this) && unchanged(header) && unchanged(mem) && unchanged(old(Nodes(shape)))
    {
      var y;
      ghost var c;
      ghost var nodes := Nodes(shape);
      y, inserted, c := Decide(header, key, shape);
      assert old(allocated(nodes));
      PlugOrder(Leaf, c);
      if inserted {
        Insert(y, key, block, mem, c);
      }
    }

    /** Takes the entry in `node` out of the tree. */
    method Erase(node: Node)
      requires Valid() && node in Nodes(shape)
      modifies this`count, this`shape, header, Nodes(shape)
      ensures Valid() && Nodes(shape) == old(Nodes(shape)) - {node}
      ensures node.key in old(Map()) && Map() == old(Map()) - {node.key}
      ensures multiset(old(InOrder(shape))) == multiset(InOrder(shape)) + multiset{Entry(node, node.key, node.block)}
    {
      hide Sorted, InOrder, RedBlack, Contents;
      ghost var s, e := Remove(node, header, shape);
      shape := s;
      count := count - 1;
    }
  }
}
