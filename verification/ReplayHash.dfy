/** The hash table in which the replay finds its blocks again. A node lives inside its block when the
    block is large enough, and in the pool otherwise. */
module ReplayHash {
  import opened Lists
  import opened NodePool

  /** The size of a node. */
  const NODE: nat := 24

  datatype Node = Node(seqNo: nat, size: nat, block: Address, next: Address)

  datatype Entry = Entry(block: Address, size: nat)

  // ---------------------------------------------------------------- chains

  /** The nodes of `chain` are linked one after the other, beginning at `head`. */
  ghost predicate Chained(head: Address, nodes: map<Address, Node>, chain: seq<Address>) {
    Threaded(head, Nexts(nodes), chain)
  }

  ghost function Nexts(nodes: map<Address, Node>): map<Address, Address> {
    map a | a in nodes :: nodes[a].next
  }

  /** The keys of bucket `i` of `n`, each once. */
  ghost predicate Keyed(nodes: map<Address, Node>, chain: seq<Address>, n: nat, i: nat)
    requires n > 0 && forall k | 0 <= k < |chain| :: chain[k] in nodes
  {
    && (forall k | 0 <= k < |chain| :: nodes[chain[k]].seqNo % n == i)
    && (forall k, l | 0 <= k < l < |chain| :: nodes[chain[k]].seqNo != nodes[chain[l]].seqNo)
  }

  ghost predicate Bucket(head: Address, nodes: map<Address, Node>, chain: seq<Address>, n: nat, i: nat)
    requires n > 0
  {
    Chained(head, nodes, chain) && Keyed(nodes, chain, n, i)
  }

  /** The nodes after node number `k` of a chain has been unlinked. */
  ghost function Unlinked(nodes: map<Address, Node>, chain: seq<Address>, k: nat): map<Address, Node>
    requires k < |chain| && forall j | 0 <= j < |chain| :: chain[j] in nodes
  {
    (if k > 0 then nodes[chain[k - 1] := nodes[chain[k - 1]].(next := nodes[chain[k]].next)] else nodes) - {chain[k]}
  }

  lemma PushedAt(chain: seq<Address>, a: Address, k: nat)
    requires k <= |chain|
    ensures ([a] + chain)[k] == (if k == 0 then a else chain[k - 1]) && At([a] + chain, k + 1) == At(chain, k)
  {
  }

  lemma BucketPush(head: Address, nodes: map<Address, Node>, chain: seq<Address>, n: nat, i: nat, a: Address,
                   node: Node)
    requires n > 0 && Bucket(head, nodes, chain, n, i)
    requires a > 0 && a !in nodes && node.next == head && node.seqNo % n == i
    requires forall k | 0 <= k < |chain| :: nodes[chain[k]].seqNo != node.seqNo
    ensures Bucket(a, nodes[a := node], [a] + chain, n, i)
  {
    hide At;
    var longer, nodes' := [a] + chain, nodes[a := node];
    forall k: nat | k < |longer|
      ensures longer[k] > 0 && longer[k] in nodes' && nodes'[longer[k]].next == At(longer, k + 1)
      ensures nodes'[longer[k]] == if k == 0 then node else nodes[chain[k - 1]]
    {
      PushedAt(chain, a, k);
      if k > 0 {
        NodeAt(head, nodes, chain, k);
      } else {
        NodeAt(head, nodes, chain, 0);
      }
    }
    HeadIs(longer);
    forall j: nat, l: nat | j < l < |longer|
      ensures nodes'[longer[j]].seqNo != nodes'[longer[l]].seqNo
    {
      if j > 0 {
        assert nodes[chain[j - 1]].seqNo != nodes[chain[l - 1]].seqNo;
      }
    }
  }

  lemma HeadIs(chain: seq<Address>)
    requires chain != []
    ensures At(chain, 0) == chain[0]
  {
  }

  /** The nodes of a chain are different. */
  lemma ChainDistinct(head: Address, nodes: map<Address, Node>, chain: seq<Address>, n: nat, i: nat, j: nat, l: nat)
    requires n > 0 && Bucket(head, nodes, chain, n, i) && j < |chain| && l < |chain| && j != l
    ensures chain[j] != chain[l]
  {
    assert nodes[chain[if j < l then j else l]].seqNo != nodes[chain[if j < l then l else j]].seqNo;
  }

  lemma UnlinkedAt(head: Address, nodes: map<Address, Node>, chain: seq<Address>, n: nat, i: nat, k: nat, j: nat)
    requires n > 0 && Bucket(head, nodes, chain, n, i) && k < |chain| && j < |chain| - 1
    ensures var rest, nodes' := Without(chain, k), Unlinked(nodes, chain, k);
            && |rest| == |chain| - 1 && rest[j] == chain[if j < k then j else j + 1]
            && rest[j] > 0 && rest[j] in nodes' && nodes'[rest[j]].seqNo == nodes[rest[j]].seqNo
            && nodes'[rest[j]].next == At(rest, j + 1)
  {
    hide Without, Chained, Keyed;
    InChain(head, nodes, chain);
    var was := if j < k then j else j + 1;
    WithoutAt(chain, k, j);
    NodeAt(head, nodes, chain, was + 1);
    NodeAt(head, nodes, chain, k + 1);
    ChainDistinct(head, nodes, chain, n, i, was, k);
    if k > 0 && was != k - 1 {
      ChainDistinct(head, nodes, chain, n, i, was, k - 1);
    }
    if j + 1 < |chain| - 1 {
      WithoutAt(chain, k, j + 1);
    }
  }

  lemma InChain(head: Address, nodes: map<Address, Node>, chain: seq<Address>)
    requires Chained(head, nodes, chain)
    ensures forall j | 0 <= j < |chain| :: chain[j] in nodes && chain[j] > 0
  {
  }

  lemma BucketUnlink(head: Address, nodes: map<Address, Node>, chain: seq<Address>, n: nat, i: nat, k: nat)
    requires n > 0 && Bucket(head, nodes, chain, n, i) && k < |chain|
    ensures Bucket(if k > 0 then head else nodes[chain[0]].next, Unlinked(nodes, chain, k), Without(chain, k), n, i)
  {
    hide Without, Unlinked;
    var rest, nodes' := Without(chain, k), Unlinked(nodes, chain, k);
    forall j: nat | j < |chain| - 1
      ensures |rest| == |chain| - 1 && rest[j] == chain[if j < k then j else j + 1]
      ensures rest[j] > 0 && rest[j] in nodes' && nodes'[rest[j]].seqNo == nodes[rest[j]].seqNo
      ensures nodes'[rest[j]].next == At(rest, j + 1)
    {
      UnlinkedAt(head, nodes, chain, n, i, k, j);
    }
    if |chain| == 1 {
      assert rest == [] by { WithoutLength(chain, k); }
    }
  }

  /** Other chains do not notice that a node is added or unlinked. */
  lemma BucketKept(head: Address, nodes: map<Address, Node>, nodes': map<Address, Node>, chain: seq<Address>, n: nat,
                   i: nat)
    requires n > 0 && Bucket(head, nodes, chain, n, i)
    requires forall a | a in chain :: a in nodes' && nodes'[a] == nodes[a]
    ensures Bucket(head, nodes', chain, n, i)
  {
  }

  // ---------------------------------------------------------------- the whole table

  /** Every bucket has its chain, and every node is in one. */
  ghost predicate Buckets(table: seq<Address>, nodes: map<Address, Node>, chains: seq<seq<Address>>) {
    && |table| > 0 && |chains| == |table|
    && (forall i | 0 <= i < |table| :: Bucket(table[i], nodes, chains[i], |table|, i))
    && (forall a | a in nodes :: a in chains[nodes[a].seqNo % |table|])
  }

  /** The nodes hold exactly the entries, each in its place. */
  ghost predicate Holds(nodes: map<Address, Node>, entries: map<nat, Entry>, places: map<nat, Address>) {
    && places.Keys == entries.Keys
    && (forall k | k in entries :: places[k] in nodes && nodes[places[k]].seqNo == k
                                   && nodes[places[k]].block == entries[k].block
                                   && nodes[places[k]].size == entries[k].size)
    && (forall a | a in nodes :: nodes[a].seqNo in entries && places[nodes[a].seqNo] == a)
  }

  /** Where a node is in memory. */
  function Space(a: Address): Region {
    Region(a, NODE)
  }

  /** A node at the address has no byte in one of the chunks. */
  ghost predicate Outside(chunks: seq<Region>, a: Address) {
    ApartFrom(chunks, Space(a))
  }

  /** Nodes of small blocks are in the pool, the others in the blocks themselves, which do not overlap. */
  ghost predicate Placed(nodes: map<Address, Node>, used: set<Address>, chunks: seq<Region>) {
    && (forall a | a in nodes ::
          a > 0 && if nodes[a].size < NODE then a in used else a == nodes[a].block && Outside(chunks, a))
    && (forall a, b | a in nodes && b in nodes && a != b && nodes[a].size >= NODE && nodes[b].size >= NODE ::
          Space(a).Apart(Space(b)))
  }

  /** The blocks that are large enough for a node keep clear of a region. */
  ghost predicate Clear(entries: map<nat, Entry>, r: Region) {
    forall k | k in entries && entries[k].size >= NODE :: Space(entries[k].block).Apart(r)
  }

  lemma ClearNodes(nodes: map<Address, Node>, entries: map<nat, Entry>, places: map<nat, Address>, used: set<Address>,
                   chunks: seq<Region>, r: Region)
    requires Holds(nodes, entries, places) && Placed(nodes, used, chunks) && Clear(entries, r)
    ensures forall a | a in nodes && nodes[a].size >= NODE :: Space(a).Apart(r)
  {
    forall a | a in nodes && nodes[a].size >= NODE
      ensures Space(a).Apart(r)
    {
      assert places[nodes[a].seqNo] == a;
    }
  }

  lemma InNodes(table: seq<Address>, nodes: map<Address, Node>, chains: seq<seq<Address>>, i: nat)
    requires Buckets(table, nodes, chains) && i < |table|
    ensures forall a | a in chains[i] :: a in nodes && nodes[a].seqNo % |table| == i
  {
    assert Bucket(table[i], nodes, chains[i], |table|, i);
  }

  lemma BucketsPush(table: seq<Address>, nodes: map<Address, Node>, chains: seq<seq<Address>>, a: Address, node: Node,
                    i: nat)
    requires Buckets(table, nodes, chains) && a > 0 && a !in nodes && i == node.seqNo % |table| && node.next == table[i]
    requires forall b | b in nodes :: nodes[b].seqNo != node.seqNo
    ensures Buckets(table[i := a], nodes[a := node], chains[i := [a] + chains[i]])
  {
    hide Chained, Keyed;
    var n, nodes', chains' := |table|, nodes[a := node], chains[i := [a] + chains[i]];
    InNodes(table, nodes, chains, i);
    BucketPush(table[i], nodes, chains[i], n, i, a, node);
    forall j | 0 <= j < n && j != i
      ensures Bucket(table[j], nodes', chains'[j], n, j)
    {
      InNodes(table, nodes, chains, j);
      BucketKept(table[j], nodes, nodes', chains[j], n, j);
    }
  }

  lemma BucketsUnlink(table: seq<Address>, nodes: map<Address, Node>, chains: seq<seq<Address>>, i: nat, k: nat)
    requires Buckets(table, nodes, chains) && i < |table| && k < |chains[i]|
    requires forall j | 0 <= j < |chains[i]| :: chains[i][j] in nodes
    ensures var head := if k > 0 then table[i] else nodes[chains[i][0]].next;
            Buckets(table[i := head], Unlinked(nodes, chains[i], k), chains[i := Without(chains[i], k)])
  {
    hide Chained, Keyed, Without;
    var n, chain, nodes', chains' :=
      |table|, chains[i], Unlinked(nodes, chains[i], k), chains[i := Without(chains[i], k)];
    InNodes(table, nodes, chains, i);
    BucketUnlink(table[i], nodes, chain, n, i, k);
    forall j | 0 <= j < n && j != i
      ensures Bucket(table[j], nodes', chains'[j], n, j)
    {
      InNodes(table, nodes, chains, j);
      BucketKept(table[j], nodes, nodes', chains[j], n, j);
    }
    forall b | b in nodes'
      ensures b in chains'[nodes'[b].seqNo % n]
    {
      assert nodes'[b].seqNo == nodes[b].seqNo;
      if nodes[b].seqNo % n == i {
        WithoutHas(chain, k, b);
      }
    }
  }

  lemma HoldsPush(nodes: map<Address, Node>, entries: map<nat, Entry>, places: map<nat, Address>, a: Address,
                  node: Node)
    requires Holds(nodes, entries, places) && a !in nodes && node.seqNo !in entries
    ensures Holds(nodes[a := node], entries[node.seqNo := Entry(node.block, node.size)], places[node.seqNo := a])
    ensures forall b | b in nodes :: nodes[b].seqNo != node.seqNo
  {
  }

  lemma HoldsUnlink(nodes: map<Address, Node>, entries: map<nat, Entry>, places: map<nat, Address>, chain: seq<Address>,
                    k: nat)
    requires Holds(nodes, entries, places) && k < |chain| && forall j | 0 <= j < |chain| :: chain[j] in nodes
    ensures var key := nodes[chain[k]].seqNo; Holds(Unlinked(nodes, chain, k), entries - {key}, places - {key})
  {
  }

  lemma InUse(pool: Pool, a: Address)
    requires pool.Valid() && a in pool.used && pool.size == NODE
    ensures a > 0 && !Outside(pool.chunks, a)
  {
    assert InBody(pool.chunks, Space(a));
  }

  /** The new node is at no other node's address, and the others stay where they are. */
  lemma PlacedPush(nodes: map<Address, Node>, used: set<Address>, chunks: seq<Region>, chunks': seq<Region>,
                   chunk: Address,
                   a: Address, node: Node)
    requires Placed(nodes, used, chunks) && a > 0
    requires chunks' == chunks || (chunks' == [Region(chunk, CHUNK)] + chunks &&
                                   forall b | b in nodes && nodes[b].size >= NODE ::
                                     Space(b).Apart(Region(chunk, CHUNK)))
    requires if node.size < NODE then a !in used && !Outside(chunks', a)
             else a == node.block && chunks' == chunks && Outside(chunks, a) &&
                  forall b | b in nodes && nodes[b].size >= NODE :: Space(b).Apart(Space(a))
    requires forall b | b in used :: !Outside(chunks, b)
    ensures a !in nodes
    ensures Placed(nodes[a := node], if node.size < NODE then used + {a} else used, chunks')
  {
    forall b | b in nodes && nodes[b].size >= NODE
      ensures Outside(chunks', b)
    {
    }
  }

  lemma PlacedUnlink(nodes: map<Address, Node>, used: set<Address>, chunks: seq<Region>, chain: seq<Address>, k: nat)
    requires Placed(nodes, used, chunks) && k < |chain| && forall j | 0 <= j < |chain| :: chain[j] in nodes
    ensures var a := chain[k];
            Placed(Unlinked(nodes, chain, k), if nodes[a].size < NODE then used - {a} else used, chunks)
  {
  }

  lemma InPool(pool: Pool, a: Address, b: Address)
    requires pool.Valid() && pool.size == NODE && a in pool.used && Outside(pool.chunks, b)
    ensures Space(a).Apart(Space(b))
  {
    assert InBody(pool.chunks, Space(a));
    var i :| 0 <= i < |pool.chunks| && a >= pool.chunks[i].start + HEADER
             && a + NODE <= pool.chunks[i].start + pool.chunks[i].size;
    assert pool.chunks[i].Apart(Space(b));
  }

  lemma AllInUse(pool: Pool)
    requires pool.Valid() && pool.size == NODE
    ensures forall a | a in pool.used :: !Outside(pool.chunks, a)
  {
    forall a | a in pool.used
      ensures !Outside(pool.chunks, a)
    {
      InUse(pool, a);
    }
  }

  class Table {
    const table: array<Address>
    const pool: Pool
    var nodes: map<Address, Node>
    ghost var chains: seq<seq<Address>>
    /** What the table maps every number to, and the node in which it does. */
    ghost var entries: map<nat, Entry>
    ghost var places: map<nat, Address>

    ghost predicate Valid()
      reads this, table, pool
    {
      && pool.Valid() && pool.size == NODE
      && Buckets(table[..], nodes, chains) && Holds(nodes, entries, places) && Placed(nodes, pool.used, pool.chunks)
    }

    constructor (n: nat, pool: Pool)
      requires n > 0 && pool.Valid() && pool.size == NODE
      ensures Valid() && entries == map[] && this.pool == pool && fresh(table)
    {
      this.pool := pool;
      table := new Address[n](_ => NULL);
      nodes, entries, places := map[], map[], map[];
      chains := seq(n, _ => []);
    }

    /** Puts a new block into the table. When the pool has to grow, it does so at `chunk`. A node is
        taken from the pool exactly when the block is too small to hold it. */
    method HashInsertAllocatedBlock(seqNo: nat, block: Address, size: nat, chunk: Address)
      requires Valid() && seqNo !in entries && block > 0
      requires size >= NODE ==> Outside(pool.chunks, block) && Clear(entries, Space(block))
      requires size < NODE && pool.head == NULL ==>
                 && chunk > 0 && ApartFrom(pool.chunks, Region(chunk, CHUNK)) && Clear(entries, Region(chunk, CHUNK))
      modifies this, table, pool
      ensures Valid() && entries == old(entries)[seqNo := Entry(block, size)]
      ensures seqNo in places && places == old(places)[seqNo := places[seqNo]]
      ensures if size < NODE then places[seqNo] !in old(pool.used) && pool.used == old(pool.used) + {places[seqNo]}
              else places[seqNo] == block && pool.used == old(pool.used)
    {
      hide Buckets, Holds, Placed, Layout, Linked, Outside;
      NonEmpty(table[..], nodes, chains);
      var i := seqNo % table.Length;
      var a := block;
      AllInUse(pool);
      if size >= NODE {
        ClearNodes(nodes, entries, places, pool.used, pool.chunks, Space(block));
      } else if pool.head == NULL {
        ClearNodes(nodes, entries, places, pool.used, pool.chunks, Region(chunk, CHUNK));
      }
      if size < NODE {
        a := pool.GetBlockInternal(chunk);
        InUse(pool, a);
      }
      var node := Node(seqNo, size, block, table[i]);
      PlacedPush(nodes, old(pool.used), old(pool.chunks), pool.chunks, chunk, a, node);
      HoldsPush(nodes, entries, places, a, node);
      BucketsPush(table[..], nodes, chains, a, node, i);
      nodes := nodes[a := node];
      table[i] := a;
      assert table[..] == old(table[..])[i := a];
      chains := chains[i := [a] + chains[i]];
      entries := entries[seqNo := Entry(block, size)];
      places := places[seqNo := a];
    }

    /** Looks a block up by its number, and removes it. A node goes back to the pool exactly when it
        came from there, given the size with which it was put in. */
    method HashFindAllocatedBlock(seqNo: nat, size: nat) returns (block: Address)
      requires Valid() && (seqNo in entries ==> entries[seqNo].size == size)
      modifies this, table, pool
      ensures Valid() && block == if seqNo in old(entries) then old(entries)[seqNo].block else NULL
      ensures entries == old(entries) - {seqNo} && places == old(places) - {seqNo}
      ensures pool.used == if seqNo in old(entries) && size < NODE then old(pool.used) - {old(places)[seqNo]}
                           else old(pool.used)
    {
      hide Buckets, Holds, Placed, Layout, Linked, Outside;
      NonEmpty(table[..], nodes, chains);
      var i := seqNo % table.Length;
      var entry, prev;
      ghost var k;
      entry, prev, k := Search(i, seqNo);
      if entry == NULL {
        NotFound(nodes, entries, places, seqNo);
        return NULL;
      }
      ghost var chain := chains[i];
      Found(nodes, entries, places, chain, k);
      BucketsUnlink(table[..], nodes, chains, i, k);
      HoldsUnlink(nodes, entries, places, chain, k);
      PlacedUnlink(nodes, pool.used, pool.chunks, chain, k);
      PoolHas(nodes, pool.used, pool.chunks, entry);
      block := nodes[entry].block;
      if prev != NULL {
        nodes := nodes[prev := nodes[prev].(next := nodes[entry].next)];
      } else {
        table[i] := nodes[entry].next;
      }
      nodes := nodes - {entry};
      assert nodes == Unlinked(old(nodes), chain, k);
      assert table[..] == old(table[..])[i := if k > 0 then old(table[i]) else old(nodes)[chain[0]].next];
      chains := chains[i := Without(chain, k)];
      entries, places := entries - {seqNo}, places - {seqNo};
      if size < NODE {
        pool.ReleaseBlockInternal(entry);
      }
    }

    /** No two nodes overlap in memory, be they in the pool or in blocks. */
    lemma NodesApart(a: Address, b: Address)
      requires Valid() && a in nodes && b in nodes && a != b
      ensures Space(a).Apart(Space(b))
    {
      hide Buckets, Holds, Layout, Linked;
      if nodes[a].size < NODE && nodes[b].size < NODE {
        pool.UsedApart(a, b);
      } else if nodes[a].size < NODE {
        InPool(pool, a, b);
      } else if nodes[b].size < NODE {
        InPool(pool, b, a);
      }
    }

    /** Goes along a chain until it comes to the number. */
    method Search(i: nat, seqNo: nat) returns (entry: Address, prev: Address, ghost k: nat)
      requires Valid() && i < table.Length && i == seqNo % table.Length
      ensures k <= |chains[i]| && (forall j | 0 <= j < |chains[i]| :: chains[i][j] in nodes)
      ensures entry == NULL <==> k == |chains[i]|
      ensures entry == NULL ==> forall a | a in nodes :: nodes[a].seqNo != seqNo
      ensures entry != NULL ==> entry == chains[i][k] && nodes[entry].seqNo == seqNo
                                && prev == (if k > 0 then chains[i][k - 1] else NULL) && (k > 0 ==> prev != NULL)
    {
      hide Layout, NodePool.Linked, Holds, Placed, Buckets, Chained, Outside;
      ChainOf(table[..], nodes, chains, i);
      ghost var chain := chains[i];
      NodeAt(table[i], nodes, chain, 0);
      entry, prev, k := table[i], NULL, 0;
      while entry != NULL && nodes[entry].seqNo != seqNo
        invariant k <= |chain| && entry == At(chain, k) && (entry == NULL <==> k == |chain|)
        invariant k < |chain| ==> entry in nodes
        invariant prev == (if k > 0 then chain[k - 1] else NULL) && (k > 0 ==> prev != NULL)
        invariant forall j | 0 <= j < k :: nodes[chain[j]].seqNo != seqNo
        decreases |chain| - k
      {
        NodeAt(table[i], nodes, chain, k + 1);
        prev := entry;
        entry := nodes[entry].next;
        k := k + 1;
      }
    }
  }

  lemma ChainOf(table: seq<Address>, nodes: map<Address, Node>, chains: seq<seq<Address>>, i: nat)
    requires Buckets(table, nodes, chains) && i < |table|
    ensures |chains| == |table| && Chained(table[i], nodes, chains[i])
    ensures forall a | a in nodes && nodes[a].seqNo % |table| == i :: a in chains[i]
    ensures forall j | 0 <= j < |chains[i]| :: chains[i][j] in nodes
  {
    assert Bucket(table[i], nodes, chains[i], |table|, i);
  }

  lemma NodeAt(head: Address, nodes: map<Address, Node>, chain: seq<Address>, k: nat)
    requires Chained(head, nodes, chain) && k <= |chain|
    ensures k < |chain| ==> chain[k] > 0 && chain[k] in nodes
    ensures k > 0 ==> chain[k - 1] in nodes
    ensures At(chain, k) == if k > 0 then nodes[chain[k - 1]].next else head
  {
  }

  lemma NonEmpty(table: seq<Address>, nodes: map<Address, Node>, chains: seq<seq<Address>>)
    requires Buckets(table, nodes, chains)
    ensures |table| > 0 && |chains| == |table|
  {
  }

  lemma NotFound(nodes: map<Address, Node>, entries: map<nat, Entry>, places: map<nat, Address>, seqNo: nat)
    requires Holds(nodes, entries, places) && forall a | a in nodes :: nodes[a].seqNo != seqNo
    ensures seqNo !in entries && entries - {seqNo} == entries && places - {seqNo} == places
  {
  }

  lemma Found(nodes: map<Address, Node>, entries: map<nat, Entry>, places: map<nat, Address>, chain: seq<Address>,
              k: nat)
    requires Holds(nodes, entries, places) && k < |chain| && chain[k] in nodes
    ensures var node := nodes[chain[k]];
            && node.seqNo in entries && entries[node.seqNo] == Entry(node.block, node.size)
            && node.seqNo in places && places[node.seqNo] == chain[k]
  {
  }

  lemma PoolHas(nodes: map<Address, Node>, used: set<Address>, chunks: seq<Region>, a: Address)
    requires Placed(nodes, used, chunks) && a in nodes
    ensures nodes[a].size < NODE ==> a in used
  {
  }
}
