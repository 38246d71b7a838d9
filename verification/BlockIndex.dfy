/** The index of live blocks: sets sharded by address, and a chain of blocks under each address. */
module BlockIndex {
  import opened Lists
  import opened MallocLog

  /** What is remembered of a live block. */
  datatype Live = Live(block: Address, seqNo: nat, thread: nat, size: nat)

  // ---------------------------------------------------------------- the plain list of live blocks

  ghost function WithAddress(live: seq<Live>, a: Address): seq<Live> {
    if live == [] then []
    else WithAddress(live[..|live| - 1], a) + (if live[|live| - 1].block == a then [live[|live| - 1]] else [])
  }

  /** The first entry at or after `i` that `thread` allocated, the length when there is none. */
  ghost function FirstOf(s: seq<Live>, thread: nat, i: nat): (k: nat)
    requires i <= |s|
    ensures i <= k <= |s| && (k < |s| ==> s[k].thread == thread)
    ensures forall j | i <= j < k :: s[j].thread != thread
    decreases |s| - i
  {
    if i == |s| then i else if s[i].thread == thread then i else FirstOf(s, thread, i + 1)
  }

  /** Which of several live blocks at one address a thread releases: its own oldest one, and when
      it has none, the oldest one. */
  ghost function Choice(s: seq<Live>, thread: nat): (k: nat)
    requires s != []
    ensures k < |s|
  {
    var own := FirstOf(s, thread, 0);
    if own < |s| then own else 0
  }

  /** The position in the list of the k-th entry with address `a`. */
  ghost function PositionOf(live: seq<Live>, a: Address, k: nat): (p: nat)
    requires k < |WithAddress(live, a)|
    ensures p < |live| && live[p] == WithAddress(live, a)[k]
  {
    var front := WithAddress(live[..|live| - 1], a);
    if k < |front| then PositionOf(live[..|live| - 1], a, k) else |live| - 1
  }

  /** The list after `thread` has released a block at `a`. */
  ghost function Released(live: seq<Live>, a: Address, thread: nat): seq<Live> {
    var s := WithAddress(live, a);
    if s == [] then live else Without(live, PositionOf(live, a, Choice(s, thread)))
  }

  /** What the release of address `a` by `thread` gives back: the number of the operation that allocated
      the block, whether that was another thread's, and the size. Number 0 stands for an unknown block. */
  datatype Found = Found(seqNo: nat, byOther: bool, size: nat)

  ghost function Lookup(live: seq<Live>, a: Address, thread: nat): Found {
    var s := WithAddress(live, a);
    if a == NULL then Found(0, false, 0)
    else if s == [] then Found(0, false, UINT_MAX)
    else
      var e := s[Choice(s, thread)];
      Found(e.seqNo, e.thread != thread, e.size)
  }

  ghost function Forgotten(live: seq<Live>, a: Address, thread: nat): seq<Live> {
    if a == NULL then live else Released(live, a, thread)
  }

  lemma WithAddressSnoc(live: seq<Live>, e: Live, a: Address)
    ensures WithAddress(live + [e], a) == WithAddress(live, a) + (if e.block == a then [e] else [])
  {
    assert (live + [e])[..|live|] == live;
  }

  lemma WithoutSnoc<T>(s: seq<T>, e: T, k: nat)
    requires k < |s|
    ensures Without(s + [e], k) == Without(s, k) + [e]
  {
  }

  lemma WithoutLast<T>(s: seq<T>, e: T)
    ensures Without(s + [e], |s|) == s
  {
  }

  lemma {:induction false} WithAddressWithout(live: seq<Live>, a: Address, k: nat, b: Address)
    requires k < |WithAddress(live, a)|
    ensures WithAddress(Without(live, PositionOf(live, a, k)), b) ==
            if b == a then Without(WithAddress(live, a), k) else WithAddress(live, b)
  {
    hide Without;
    var front, last, p := live[..|live| - 1], live[|live| - 1], PositionOf(live, a, k);
    assert live == front + [last];
    var inFront := WithAddress(front, a);
    WithAddressSnoc(front, last, a);
    WithAddressSnoc(front, last, b);
    assert last.block != a ==> WithAddress(live, a) == inFront;
    assert last.block != b ==> WithAddress(live, b) == WithAddress(front, b);
    if k < |inFront| {
      WithAddressWithout(front, a, k, b);
      WithoutSnoc(front, last, p);
      WithAddressSnoc(Without(front, p), last, b);
      WithoutSnoc(inFront, last, k);
      assert Without(live, p) == Without(front, p) + [last];
      assert last.block != b ==> WithAddress(Without(live, p), b) == WithAddress(Without(front, p), b);
    } else {
      assert WithAddress(live, a) == inFront + [last] && p == |front|;
      WithoutLast(front, last);
      WithoutLast(inFront, last);
    }
  }

  // ---------------------------------------------------------------- chains

  class AllocatedBlock {
    const entry: Live
    const time: nat
    var next: AllocatedBlock?

    constructor (entry: Live, time: nat)
      ensures this.entry == entry && this.time == time && next == null
    {
      this.entry := entry;
      this.time := time;
      next := null;
    }
  }

  /** The blocks of `c` are linked one after the other. */
  ghost predicate Linked(c: seq<AllocatedBlock>)
    reads c
  {
    && c != [] && Distinct(c)
    && (forall k | 0 <= k < |c| - 1 :: c[k].next == c[k + 1])
    && c[|c| - 1].next == null
  }

  lemma LinkedSome(c: seq<AllocatedBlock>)
    requires Linked(c)
    ensures c != []
  {
  }

  ghost function Entries(c: seq<AllocatedBlock>): (s: seq<Live>)
    ensures |s| == |c| && forall k | 0 <= k < |c| :: s[k] == c[k].entry
  {
    if c == [] then [] else Entries(c[..|c| - 1]) + [c[|c| - 1].entry]
  }

  lemma EntriesSnoc(c: seq<AllocatedBlock>, b: AllocatedBlock)
    ensures Entries(c + [b]) == Entries(c) + [b.entry]
  {
    assert (c + [b])[..|c|] == c;
  }

  /** The end of a chain. */
  method LastOf(head: AllocatedBlock, ghost c: seq<AllocatedBlock>) returns (last: AllocatedBlock)
    requires Linked(c) && head == c[0]
    ensures last == c[|c| - 1]
  {
    last := head;
    ghost var k := 0;
    while last.next != null
      invariant Linked(c) && k < |c| && last == c[k] && last.next == (if k + 1 < |c| then c[k + 1] else null)
      decreases |c| - k
    {
      last := last.next;
      k := k + 1;
    }
  }

  /** The first block of the chain that the thread allocated, and the one before it. */
  method FindOwn(head: AllocatedBlock, thread: nat, ghost c: seq<AllocatedBlock>)
    returns (cursor: AllocatedBlock?, prev: AllocatedBlock?, ghost k: nat)
    requires Linked(c) && head == c[0]
    ensures k == FirstOf(Entries(c), thread, 0)
    ensures cursor == if k < |c| then c[k] else null
    ensures prev == if k > 0 then c[k - 1] else null
  {
    cursor, prev, k := head, null, 0;
    while cursor != null && cursor.entry.thread != thread
      invariant Linked(c) && k <= |c| && cursor == (if k < |c| then c[k] else null)
      invariant prev == (if k > 0 then c[k - 1] else null)
      invariant FirstOf(Entries(c), thread, 0) == FirstOf(Entries(c), thread, k)
      decreases |c| - k
    {
      prev := cursor;
      cursor := cursor.next;
      k := k + 1;
    }
  }

  /** Takes block number `k` out of a chain, given the one before it. Returns the new head. */
  method Unlink(head: AllocatedBlock, cursor: AllocatedBlock, prev: AllocatedBlock?, ghost c: seq<AllocatedBlock>,
                ghost k: nat)
    returns (head': AllocatedBlock?)
    requires Linked(c) && head == c[0] && k < |c| && cursor == c[k] && prev == (if k > 0 then c[k - 1] else null)
    modifies c
    ensures head' == null <==> |c| == 1
    ensures head' != null ==> Linked(Without(c, k)) && head' == Without(c, k)[0]
  {
    head' := head;
    if prev != null {
      prev.next := cursor.next;
    } else {
      head' := cursor.next;
    }
    ghost var w := Without(c, k);
    assert forall i | 0 <= i < |w| :: w[i] == c[if i < k then i else i + 1];
    assert c[|c| - 1] in c;
    assert old(allocated(c));
    assert |c| > 1 ==> old(c[0].next) == c[1];
  }

  // ---------------------------------------------------------------- the index

  const BUCKETS: nat := 8192

  function Hash(a: Address): (i: nat)
    ensures i < BUCKETS
  {
    (a / 16) % BUCKETS
  }

  /** Puts a new block at the end of a chain. */
  method Append(head: AllocatedBlock, block: AllocatedBlock, ghost c: seq<AllocatedBlock>)
    requires Linked(c) && head == c[0] && block !in c && block.next == null
    modifies c
    ensures Linked(c + [block])
  {
    var last := LastOf(head, c);
    last.next := block;
    assert old(allocated(c));
    ghost var d := c + [block];
    assert forall k | 0 <= k < |c| :: d[k] == c[k];
  }

  class Index {
    /** In each bucket, the first block of every chain, by address. */
    const sets: array<map<Address, AllocatedBlock>>
    /** The numbers of the operations whose blocks another thread has released. */
    var freedByOther: set<nat>
    /** The live blocks in the order in which they were allocated, and their chains. */
    ghost var live: seq<Live>
    ghost var chains: map<Address, seq<AllocatedBlock>>
    ghost var blocks: set<AllocatedBlock>

    /** The chain of address `a` holds the live blocks with that address. */
    ghost predicate Good(a: Address)
      requires sets.Length == BUCKETS
      reads this`live, this`chains, this`blocks, sets, blocks
    {
      && WithAddress(live, a) == (if a in chains then Entries(chains[a]) else [])
      && (a in chains <==> a in sets[Hash(a)])
      && (a in chains ==>
            && (forall b | b in chains[a] :: b in blocks && b.entry.block == a)
            && Linked(chains[a]) && sets[Hash(a)][a] == chains[a][0])
    }

    ghost predicate Valid()
      reads this`live, this`chains, this`blocks, sets, blocks
    {
      && sets.Length == BUCKETS && (forall a: Address :: Good(a))
      && (forall i, a | 0 <= i < BUCKETS && a in sets[i] :: i == Hash(a))
    }

    constructor ()
      ensures Valid() && live == [] && freedByOther == {} && fresh(sets) && fresh(blocks)
    {
      sets := new map<Address, AllocatedBlock>[BUCKETS](_ => map[]);
      freedByOther := {};
      live := [];
      chains := map[];
      blocks := {};
    }

    /** An operation on the chain of another address leaves this chain alone. */
    twostate lemma OtherAddress(new b: Address)
      requires sets.Length == BUCKETS && old(sets.Length == BUCKETS && Good(b)) && old(blocks) <= blocks
      requires WithAddress(live, b) == old(WithAddress(live, b))
      requires (b in chains <==> old(b in chains)) && (b in chains ==> chains[b] == old(chains[b]))
      requires b in sets[Hash(b)] <==> old(b in sets[Hash(b)])
      requires b in sets[Hash(b)] ==> sets[Hash(b)][b] == old(sets[Hash(b)][b])
      requires b in chains ==> forall n | n in chains[b] :: old(allocated(n)) && n.next == old(n.next)
      ensures Good(b)
    {
    }

    /** Remembers a block that has just been allocated. */
    method AddOutstandingBlock(a: Address, time: nat, seqNo: nat, thread: nat, size: nat)
      requires Valid()
      modifies this, sets, blocks
      ensures Valid() && live == old(live) + [Live(a, seqNo, thread, size)]
      ensures fresh(blocks - old(blocks)) && freedByOther == old(freedByOther)
    {
      hide Hash, WithAddress, Entries, Linked;
      var block := new AllocatedBlock(Live(a, seqNo, thread, size), time);
      assert Good(a);
      ghost var c := if a in chains then chains[a] else [];
      if a in chains {
        LinkedSome(c);
      }
      PutBlock(a, block, c);
      chains := chains[a := c + [block]];
      live := live + [block.entry];
      blocks := blocks + {block};
      EntriesSnoc(c, block);
      WithAddressSnoc(old(live), block.entry, a);
      assert Good(a);
      OthersGood(a, block.entry, c);
    }

    /** Makes the block the last one of the chain of its address, or a chain of its own. */
    method PutBlock(a: Address, block: AllocatedBlock, ghost c: seq<AllocatedBlock>)
      requires sets.Length == BUCKETS && block.next == null && block !in c
      requires forall i, b | 0 <= i < BUCKETS && b in sets[i] :: i == Hash(b)
      requires a in sets[Hash(a)] <==> c != []
      requires c != [] ==> Linked(c) && sets[Hash(a)][a] == c[0]
      modifies sets, c
      ensures forall i, b | 0 <= i < BUCKETS && b in sets[i] :: i == Hash(b)
      ensures forall b: Address | b != a :: b in sets[Hash(b)] <==> old(b in sets[Hash(b)])
      ensures forall b: Address | b != a && b in sets[Hash(b)] :: sets[Hash(b)][b] == old(sets[Hash(b)][b])
      ensures a in sets[Hash(a)] && Linked(c + [block]) && sets[Hash(a)][a] == (c + [block])[0]
    {
      hide Hash;
      var i := Hash(a);
      if a !in sets[i] {
        sets[i] := sets[i][a := block];
      } else {
        Append(sets[i][a], block, c);
      }
    }

    /** An allocation leaves the chains of other addresses alone. */
    twostate lemma OthersGood(new a: Address, new e: Live, new c: seq<AllocatedBlock>)
      requires sets.Length == BUCKETS && old(Valid()) && old(blocks) <= blocks
      requires live == old(live) + [e] && e.block == a && c == (if old(a in chains) then old(chains[a]) else [])
      requires forall b: Address | b != a ::
                 (b in chains <==> old(b in chains)) && (b in chains ==> chains[b] == old(chains[b]))
      requires forall b: Address | b != a ::
                 (b in sets[Hash(b)] <==> old(b in sets[Hash(b)]))
                   && (b in sets[Hash(b)] ==> sets[Hash(b)][b] == old(sets[Hash(b)][b]))
      requires forall n | n in old(blocks) && n !in c :: n.next == old(n.next)
      ensures forall b: Address | b != a :: Good(b)
    {
      hide Hash, WithAddress, Entries, Linked;
      forall b: Address | b != a
        ensures Good(b)
      {
        WithAddressSnoc(old(live), e, b);
        assert old(Good(b)) && old(Good(a));
        OtherAddress(b);
      }
    }

    /** Finds the block that the release of address `a` by `thread` gives back, and forgets it. */
    method GetMallocNumber(a: Address, thread: nat) returns (f: Found)
      requires Valid()
      modifies this, sets, blocks
      ensures Valid() && blocks == old(blocks)
      ensures f == Lookup(old(live), a, thread) && live == Forgotten(old(live), a, thread)
      ensures freedByOther == old(freedByOther) + (if f.byOther then {f.seqNo} else {})
    {
      hide Hash, WithAddress, PositionOf, FirstOf, Entries, Linked;
      if a == NULL {
        return Found(0, false, 0);
      }
      f := Found(0, false, UINT_MAX);
      assert Good(a);
      if a in sets[Hash(a)] {
        var block := TakeFrom(a, thread);
        f := Found(block.entry.seqNo, block.entry.thread != thread, block.entry.size);
        if f.byOther {
          freedByOther := freedByOther + {f.seqNo};
        }
      }
    }

    /** Replaces the first block of a chain, or drops the chain. */
    method SetHead(a: Address, head: AllocatedBlock?)
      requires sets.Length == BUCKETS && a in sets[Hash(a)]
      requires forall i, b | 0 <= i < BUCKETS && b in sets[i] :: i == Hash(b)
      modifies sets
      ensures forall i, b | 0 <= i < BUCKETS && b in sets[i] :: i == Hash(b)
      ensures forall b: Address | b != a :: b in sets[Hash(b)] <==> old(b in sets[Hash(b)])
      ensures forall b: Address | b != a && b in sets[Hash(b)] :: sets[Hash(b)][b] == old(sets[Hash(b)][b])
      ensures if head == null then a !in sets[Hash(a)] else a in sets[Hash(a)] && sets[Hash(a)][a] == head
    {
      hide Hash;
      if head == null {
        sets[Hash(a)] := sets[Hash(a)] - {a};
      } else {
        sets[Hash(a)] := sets[Hash(a)][a := head];
      }
    }

    /** Taking block number `k` out of a chain takes entry number `k` out of the list of its address. */
    twostate lemma ThisAddress(new a: Address, new c: seq<AllocatedBlock>, new k: nat, new head: AllocatedBlock?)
      requires sets.Length == BUCKETS && k < |c|
      requires old(sets.Length == BUCKETS && Good(a) && a in chains && c == chains[a]) && old(blocks) <= blocks
      requires head == null <==> |c| == 1
      requires WithAddress(live, a) == Without(old(WithAddress(live, a)), k)
      requires (a in chains <==> head != null) && (a in sets[Hash(a)] <==> head != null)
      requires head != null ==> chains[a] == Without(c, k) && Linked(chains[a])
      requires head != null ==> sets[Hash(a)][a] == head == chains[a][0]
      ensures Good(a)
    {
      hide WithAddress, Entries, Hash;
      EntriesWithout(c, k);
      assert forall b | b in Without(c, k) :: b in c;
    }

    /** The bookkeeping that goes with taking block number `k` out of the chain of `a`. */
    ghost method Forget(a: Address, c: seq<AllocatedBlock>, k: nat, head: AllocatedBlock?)
      requires sets.Length == BUCKETS && k < |c|
      modifies this`live, this`chains
      ensures |WithAddress(old(live), a)| == |c| ==>
                && live == Without(old(live), PositionOf(old(live), a, k))
                && (forall b: Address :: WithAddress(live, b) ==
                     if b == a then Without(WithAddress(old(live), a), k) else WithAddress(old(live), b))
      ensures chains == if head == null then old(chains) - {a} else old(chains)[a := Without(c, k)]
    {
      hide WithAddress, PositionOf;
      if |WithAddress(live, a)| == |c| {
        forall b: Address
          ensures WithAddress(Without(live, PositionOf(live, a, k)), b) ==
                  if b == a then Without(WithAddress(live, a), k) else WithAddress(live, b)
        {
          WithAddressWithout(live, a, k, b);
        }
        live := Without(live, PositionOf(live, a, k));
      }
      chains := if head == null then chains - {a} else chains[a := Without(c, k)];
    }

    method TakeFrom(a: Address, thread: nat) returns (block: AllocatedBlock)
      requires Valid() && a in sets[Hash(a)]
      modifies this, sets, blocks
      ensures Valid() && blocks == old(blocks)
      ensures var s := WithAddress(old(live), a); s != [] && block.entry == s[Choice(s, thread)]
      ensures live == Released(old(live), a, thread) && freedByOther == old(freedByOther)
    {
      hide Hash, WithAddress, PositionOf, Entries, FirstOf, Linked;
      assert Good(a);
      ghost var c := chains[a];
      LinkedSome(c);
      ghost var k := Choice(Entries(c), thread);
      var head;
      block, head := TakeOut(sets[Hash(a)][a], thread, c);
      SetHead(a, head);
      Forget(a, c, k, head);
      AllGood(a, c, k, head);
    }

    twostate lemma AllGood(new a: Address, new c: seq<AllocatedBlock>, new k: nat, new head: AllocatedBlock?)
      requires sets.Length == BUCKETS && k < |c|
      requires old(Valid())
      requires old(a in chains) && old(chains[a]) == c
      requires old(blocks) <= blocks
      requires head == null <==> |c| == 1
      requires k < |old(WithAddress(live, a))|
      requires forall b: Address :: WithAddress(live, b) ==
                 if b == a then Without(old(WithAddress(live, a)), k) else old(WithAddress(live, b))
      requires chains == if head == null then old(chains) - {a} else old(chains)[a := Without(c, k)]
      requires a in sets[Hash(a)] <==> head != null
      requires head != null ==> Linked(Without(c, k))
      requires head != null ==> sets[Hash(a)][a] == head && head == Without(c, k)[0]
      requires forall b: Address | b != a :: b in sets[Hash(b)] <==> old(b in sets[Hash(b)])
      requires forall b: Address | b != a && b in sets[Hash(b)] :: sets[Hash(b)][b] == old(sets[Hash(b)][b])
      requires forall n | n in old(blocks) && n !in c :: n.next == old(n.next)
      ensures forall b: Address :: Good(b)
    {
      hide Hash, WithAddress, Entries;
      forall b: Address
        ensures Good(b)
      {
        assert old(Good(b)) && old(Good(a));
        if b == a {
          ThisAddress(a, c, k, head);
        } else {
          OtherAddress(b);
        }
      }
    }
  }

  lemma EntriesWithout(c: seq<AllocatedBlock>, k: nat)
    requires k < |c|
    ensures Entries(Without(c, k)) == Without(Entries(c), k)
  {
    hide Entries, Without;
    var s := Entries(c);
    WithoutLength(c, k);
    WithoutLength(s, k);
    forall i: nat | i < |c| - 1
      ensures Entries(Without(c, k))[i] == Without(s, k)[i]
    {
      WithoutAt(c, k, i);
      WithoutAt(s, k, i);
    }
  }

  /** Takes the chosen block out of a chain; returns it and the head of what is left. */
  method TakeOut(head: AllocatedBlock, thread: nat, ghost c: seq<AllocatedBlock>)
    returns (block: AllocatedBlock, head': AllocatedBlock?)
    requires Linked(c) && head == c[0]
    modifies c
    ensures var k := Choice(Entries(c), thread);
            && block == c[k]
            && (head' == null <==> |c| == 1)
            && (head' != null ==> Linked(Without(c, k)) && head' == Without(c, k)[0])
  {
    block := head;
    ghost var k;
    assert |c| > 1 ==> head.next == c[1];
    if head.next == null {
      head' := null;
    } else {
      var cursor, prev;
      cursor, prev, k := FindOwn(head, thread, c);
      if cursor == null {
        head' := Unlink(head, head, null, c, 0);
      } else {
        head' := Unlink(head, cursor, prev, c, k);
        block := cursor;
      }
    }
  }
}
