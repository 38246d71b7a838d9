/** Padded blocks: the list of blocks in use, the ring of blocks whose freeing is deferred, and the dump. */
module MallocPadding {
  import opened Lists
  import opened Deferral

  // ---------------------------------------------------------------- doubly linked lists

  /** The element before number `k`, NULL before the first one. */
  ghost function BackAt(list: seq<Address>, k: nat): Address
    requires k < |list|
  {
    if k == 0 then NULL else list[k - 1]
  }

  /** The blocks of `list` are linked both ways. */
  ghost predicate Chain(head: Address, next: map<Address, Address>, prev: map<Address, Address>, list: seq<Address>) {
    && Threaded(head, next, list) && Distinct(list)
    && forall k | 0 <= k < |list| :: list[k] in prev && prev[list[k]] == BackAt(list, k)
  }

  /** The links after a new block has been put in front. */
  lemma ChainPush(head: Address, next: map<Address, Address>, prev: map<Address, Address>, list: seq<Address>,
                  a: Address)
    requires Chain(head, next, prev, list) && a > 0 && a !in list
    ensures Chain(a, next[a := head], if head == NULL then prev[a := NULL] else prev[a := NULL][head := a], [a] + list)
  {
    hide Threaded;
    ThreadedPush(head, next, list, a);
    DistinctPush(list, a);
    ThreadedHead(head, next, list);
    var longer, prev' := [a] + list, if head == NULL then prev[a := NULL] else prev[a := NULL][head := a];
    forall k | 0 <= k < |longer|
      ensures longer[k] in prev' && prev'[longer[k]] == BackAt(longer, k)
    {
      if k > 0 {
        assert longer[k] == list[k - 1];
      }
    }
  }

  /** The `next` links after block number `k` has been taken out. */
  ghost function NextWithout(next: map<Address, Address>, list: seq<Address>, k: nat): map<Address, Address>
    requires k < |list|
  {
    if k > 0 then next[list[k - 1] := At(list, k + 1)] else next
  }

  ghost function PrevWithout(prev: map<Address, Address>, list: seq<Address>, k: nat): map<Address, Address>
    requires k < |list|
  {
    if k + 1 < |list| then prev[list[k + 1] := BackAt(list, k)] else prev
  }

  lemma ChainWithoutAt(head: Address, next: map<Address, Address>, prev: map<Address, Address>, list: seq<Address>,
                       k: nat, j: nat)
    requires Chain(head, next, prev, list) && k < |list| && j < |list| - 1
    ensures var rest, next', prev' := Without(list, k), NextWithout(next, list, k), PrevWithout(prev, list, k);
            && |rest| == |list| - 1 && rest[j] == list[if j < k then j else j + 1] && rest[j] > 0
            && rest[j] in next' && next'[rest[j]] == At(rest, j + 1)
            && rest[j] in prev' && prev'[rest[j]] == BackAt(rest, j)
  {
    hide Without, Chain;
    WithoutAt(list, k, j);
    if j + 1 < |list| - 1 {
      WithoutAt(list, k, j + 1);
    }
    if j > 0 {
      WithoutAt(list, k, j - 1);
    }
    var was := if j < k then j else j + 1;
    ChainAt(head, next, prev, list, was);
    if k > 0 && was != k - 1 {
      Differ(head, next, prev, list, was, k - 1);
    }
    if k + 1 < |list| && was != k + 1 {
      Differ(head, next, prev, list, was, k + 1);
    }
  }

  lemma ChainAt(head: Address, next: map<Address, Address>, prev: map<Address, Address>, list: seq<Address>, i: nat)
    requires Chain(head, next, prev, list) && i < |list|
    ensures list[i] > 0 && list[i] in next && next[list[i]] == At(list, i + 1)
    ensures list[i] in prev && prev[list[i]] == BackAt(list, i)
  {
  }

  lemma Differ(head: Address, next: map<Address, Address>, prev: map<Address, Address>, list: seq<Address>, i: nat,
               j: nat)
    requires Chain(head, next, prev, list) && i < |list| && j < |list| && i != j
    ensures list[i] != list[j]
  {
  }

  lemma ChainWithout(head: Address, next: map<Address, Address>, prev: map<Address, Address>, list: seq<Address>,
                     k: nat)
    requires Chain(head, next, prev, list) && k < |list|
    ensures Chain(if k > 0
              then head else At(list, 1), NextWithout(next, list, k), PrevWithout(prev, list, k), Without(list, k))
  {
    hide Without, NextWithout, PrevWithout, At, BackAt;
    var rest := Without(list, k);
    WithoutOne(list, k);
    WithoutLength(list, k);
    forall j: nat | j < |rest|
      ensures var next', prev' := NextWithout(next, list, k), PrevWithout(prev, list, k);
              && rest[j] > 0 && rest[j] in next' && next'[rest[j]] == At(rest, j + 1)
              && rest[j] in prev' && prev'[rest[j]] == BackAt(rest, j)
    {
      ChainWithoutAt(head, next, prev, list, k, j);
    }
    HeadWithout(list, k);
  }

  lemma HeadWithout(list: seq<Address>, k: nat)
    requires k < |list|
    ensures At(Without(list, k), 0) == if k > 0 then At(list, 0) else At(list, 1)
  {
  }

  /** Chains do not notice changes elsewhere. */
  lemma ChainKept(head: Address, next: map<Address, Address>, prev: map<Address, Address>, list: seq<Address>,
                  next': map<Address, Address>, prev': map<Address, Address>)
    requires Chain(head, next, prev, list)
    requires forall a | a in list ::
               a in next' && a in prev' && (a in next ==> next'[a] == next[a]) && (a in prev ==> prev'[a] == prev[a])
    ensures Chain(head, next', prev', list)
  {
  }

  // ---------------------------------------------------------------- rings

  /** The blocks of `list` are linked both ways in a circle. */
  ghost predicate Ring(head: Address, next: map<Address, Address>, prev: map<Address, Address>, list: seq<Address>) {
    && Distinct(list) && head == At(list, 0)
    && forall k | 0 <= k < |list| ::
         && list[k] > 0 && list[k] in next && list[k] in prev
         && next[list[k]] == list[if k + 1 < |list| then k + 1 else 0]
         && prev[list[k]] == list[if k > 0 then k - 1 else |list| - 1]
  }

  /** Linking a new block before the head makes it the last one. */
  lemma RingAppend(head: Address, next: map<Address, Address>, prev: map<Address, Address>, list: seq<Address>,
                   a: Address)
    requires Ring(head, next, prev, list) && list != [] && a > 0 && a !in list
    ensures head in prev && prev[head] == list[|list| - 1]
    ensures Ring(head, next[prev[head] := a][a := head], prev[a := prev[head]][head := a], list + [a])
  {
    var last := list[|list| - 1];
    assert prev[list[0]] == last;
    DistinctPush(list, a);
    hide Distinct;
  }

  /** Unlinking the head of a ring of more than one block. */
  lemma RingPop(head: Address, next: map<Address, Address>, prev: map<Address, Address>, list: seq<Address>)
    requires Ring(head, next, prev, list) && |list| > 1
    ensures head == list[0] && head in next && head in prev && next[head] == list[1]
    ensures Ring(list[1], next[prev[head] := next[head]], prev[next[head] := prev[head]], list[1..])
  {
    var rest := list[1..];
    DistinctRest(list);
    assert list[0] != list[1] && list[0] != list[|list| - 1];
    assert forall k | 0 <= k < |rest| :: rest[k] == list[k + 1];
  }

  lemma RingAlone(head: Address, next: map<Address, Address>, prev: map<Address, Address>, list: seq<Address>)
    requires Ring(head, next, prev, list) && list != []
    ensures head == list[0] && head in next && (next[head] == head <==> |list| == 1)
  {
    assert |list| > 1 ==> list[0] != list[1];
  }

  lemma RingKept(head: Address, next: map<Address, Address>, prev: map<Address, Address>, list: seq<Address>,
                 next': map<Address, Address>, prev': map<Address, Address>)
    requires Ring(head, next, prev, list)
    requires forall a | a in list ::
               a in next' && a in prev' && (a in next ==> next'[a] == next[a]) && (a in prev ==> prev'[a] == prev[a])
    ensures Ring(head, next', prev', list)
  {
  }

  // ---------------------------------------------------------------- sizes

  ghost function Bytes(list: seq<Address>, size: map<Address, nat>): nat
    requires forall a | a in list :: a in size
  {
    if list == [] then 0 else Bytes(list[..|list| - 1], size) + size[list[|list| - 1]]
  }

  lemma BytesSnoc(list: seq<Address>, a: Address, size: map<Address, nat>)
    requires a in size && forall b | b in list :: b in size
    ensures Bytes(list + [a], size) == Bytes(list, size) + size[a]
  {
    assert (list + [a])[..|list|] == list;
  }

  // ---------------------------------------------------------------- the blocks

  /** The waiting blocks are the last ones that have been deferred, with the sizes they had then, and the
      total is what has been counted for them. */
  ghost predicate Waits(total: nat, ring: seq<Address>, size: map<Address, nat>, history: seq<nat>) {
    && |ring| <= |history| && (ring == [] <==> history == [])
    && (forall i | 0 <= i < |ring| :: ring[i] in size && size[ring[i]] == history[|history| - |ring| + i])
    && total == if history == [] then 0 else Waiting(history, |history| - |ring|)
  }

  lemma WaitsMore(total: nat, ring: seq<Address>, size: map<Address, nat>, history: seq<nat>, h: Address)
    requires Waits(total, ring, size, history) && h in size
    ensures Waits(if ring == [] then total else Plus(total, size[h]), ring + [h], size, history + [size[h]])
  {
    hide Sum;
    var longer, k := history + [size[h]], |history| - |ring|;
    assert longer[k..] == history[k..] + [size[h]];
    SumSnoc(history[k..], size[h]);
    if ring == [] {
      SumNothing();
    } else {
      PlusWraps(Sum(history[k..]) - history[0], size[h]);
    }
  }

  lemma WaitsLess(total: nat, ring: seq<Address>, size: map<Address, nat>, history: seq<nat>)
    requires Waits(total, ring, size, history) && |ring| > 1
    ensures ring[0] in size && Waits(Minus(total, size[ring[0]]), ring[1..], size, history)
  {
    hide Sum;
    var k := |history| - |ring|;
    SumFirst(history[k..]);
    assert history[k..][1..] == history[k + 1..];
    MinusWraps(Sum(history[k..]) - history[0], history[k]);
  }

  lemma WaitsKept(total: nat, ring: seq<Address>, size: map<Address, nat>, size': map<Address, nat>, history: seq<nat>)
    requires Waits(total, ring, size, history)
    requires forall a | a in ring :: a in size' && (a in size ==> size'[a] == size[a])
    ensures Waits(total, ring, size', history)
  {
  }

  /** The sizes of the waiting blocks sum up to that part of the history. */
  lemma {:induction false} BytesAreSum(ring: seq<Address>, size: map<Address, nat>, sizes: seq<nat>)
    requires |ring| == |sizes| && forall i | 0 <= i < |ring| :: ring[i] in size && size[ring[i]] == sizes[i]
    ensures (forall a | a in ring :: a in size) && Bytes(ring, size) == Sum(sizes)
  {
    if ring != [] {
      BytesAreSum(ring[..|ring| - 1], size, sizes[..|sizes| - 1]);
    }
  }

  /** What has been freed, and what still waits. */
  ghost predicate Parts(all: seq<Address>, freed: seq<Address>, ring: seq<Address>) {
    all == freed + ring
  }

  lemma PartsStart(all: seq<Address>)
    ensures Parts(all, [], all)
  {
  }

  lemma PartsMore(all: seq<Address>, freed: seq<Address>, ring: seq<Address>)
    requires Parts(all, freed, ring) && ring != []
    ensures Parts(all, freed + [ring[0]], ring[1..])
  {
    assert all[|freed|..] == ring;
  }

  datatype Signature = Mine | Deferred | Scratched

  /** The signatures tell the blocks apart, except that the one of `x` is still to be written. */
  ghost predicate SignedAs(depth: nat, signature: map<Address, Signature>, size: map<Address, nat>, trace: map<Address,
                           seq<nat>>,
                           inUse: seq<Address>, ring: seq<Address>, x: Address) {
    && (forall a | a in inUse :: a in size && a in trace && |trace[a]| == depth)
    && (forall a | a in ring :: a in size)
    && (forall a | a != x && a != NULL :: a in inUse <==> a in signature && signature[a] == Mine)
    && (forall a | a != x && a != NULL :: a in ring <==> a in signature && signature[a] == Deferred)
  }

  lemma SignNew(depth: nat, signature: map<Address, Signature>, size: map<Address, nat>, trace: map<Address, seq<nat>>,
                inUse: seq<Address>, ring: seq<Address>, h: Address, userSize: nat, frames: seq<nat>)
    requires SignedAs(depth, signature, size, trace, inUse, ring, NULL) && h > 0 && h !in ring && |frames| == depth
    ensures SignedAs(depth, signature[h := Mine], size[h := userSize], trace[h := frames], [h] + inUse, ring, NULL)
  {
  }

  lemma SignUnlinked(depth: nat, signature: map<Address, Signature>, size: map<Address, nat>, trace: map<Address,
                     seq<nat>>,
                     inUse: seq<Address>, inUse': seq<Address>, ring: seq<Address>, h: Address)
    requires SignedAs(depth, signature, size, trace, inUse, ring, NULL)
    requires forall a :: a in inUse' <==> a in inUse && a != h
    ensures SignedAs(depth, signature, size, trace, inUse', ring, h)
  {
  }

  lemma SignDeferred(depth: nat, signature: map<Address, Signature>, size: map<Address, nat>, trace: map<Address,
                     seq<nat>>,
                     inUse: seq<Address>, ring: seq<Address>, h: Address)
    requires SignedAs(depth, signature, size, trace, inUse, ring, h) && h !in inUse && h in size
    ensures SignedAs(depth, signature[h := Deferred], size, trace, inUse, ring + [h], NULL)
  {
  }

  /** A block that is in no list any more. */
  lemma SignScratched(depth: nat, signature: map<Address, Signature>, size: map<Address, nat>, trace: map<Address,
                      seq<nat>>,
                      inUse: seq<Address>, ring: seq<Address>, h: Address)
    requires SignedAs(depth, signature, size, trace, inUse, ring, h) && h !in inUse && h !in ring
    ensures SignedAs(depth, signature[h := Scratched], size, trace, inUse, ring, NULL)
  {
  }

  lemma SignPopped(depth: nat, signature: map<Address, Signature>, size: map<Address, nat>, trace: map<Address,
                   seq<nat>>,
                   inUse: seq<Address>, ring: seq<Address>, ring': seq<Address>, h: Address)
    requires SignedAs(depth, signature, size, trace, inUse, ring, NULL)
    requires forall a :: a in ring' <==> a in ring && a != h
    ensures SignedAs(depth, signature, size, trace, inUse, ring', h)
  {
  }

  datatype Outcome = Nothing | DoubleFree | Foreign | FreedNow | Kept(freed: seq<Address>)

  class PaddedHeap {
    /** How many frames of the call stack are kept, and how many bytes may wait for being freed. */
    const depth: nat
    const maxDefer: nat
    var anchor: Address
    var deferred: Address
    var total: nat
    /** What the headers of the blocks say, and the frames before them. */
    var next: map<Address, Address>
    var prev: map<Address, Address>
    var size: map<Address, nat>
    var signature: map<Address, Signature>
    var trace: map<Address, seq<nat>>
    /** The blocks in use, the blocks that wait for being freed, and the sizes of all blocks that have ever
        been deferred. */
    ghost var inUse: seq<Address>
    ghost var ring: seq<Address>
    ghost var history: seq<nat>

    ghost predicate Signed(x: Address)
      reads this`signature, this`size, this`trace, this`inUse, this`ring
    {
      SignedAs(depth, signature, size, trace, inUse, ring, x)
    }

    ghost predicate Valid()
      reads this
    {
      Links() && Signed(NULL) && Waits(total, ring, size, history) && |history| - |ring| == Freed(history, maxDefer)
    }

    constructor (depth: nat, maxDefer: nat)
      ensures Valid() && inUse == [] && ring == [] && history == [] && total == 0
      ensures this.depth == depth && this.maxDefer == maxDefer
    {
      this.depth, this.maxDefer := depth, maxDefer;
      anchor, deferred, total := NULL, NULL, 0;
      next, prev, size, signature, trace := map[], map[], map[], map[], map[];
      inUse, ring, history := [], [], [];
    }

    /** The two lists, which share no block. */
    ghost predicate Links()
      reads this`anchor, this`deferred, this`next, this`prev, this`inUse, this`ring
    {
      Chain(anchor, next, prev, inUse) && Ring(deferred, next, prev, ring) && forall a | a in inUse :: a !in ring
    }

    /** Puts a block in front of the list of blocks in use. */
    method LinkHeader(h: Address)
      requires Links() && h > 0 && h !in inUse && h !in ring
      modifies this`anchor, this`next, this`prev, this`inUse
      ensures Links() && inUse == [h] + old(inUse)
    {
      hide Chain, Ring;
      ChainPush(anchor, next, prev, inUse, h);
      InChain(anchor, next, prev, inUse);
      InRing(deferred, next, prev, ring);
      ghost var next0, prev0 := next, prev;
      prev := prev[h := NULL];
      next := next[h := anchor];
      if anchor != NULL {
        prev := prev[anchor := h];
      }
      anchor := h;
      inUse := [h] + inUse;
      RingKept(deferred, next0, prev0, ring, next, prev);
    }

    /** Takes a block out of the list of blocks in use. */
    method UnlinkHeader(h: Address)
      requires Links() && h in inUse
      modifies this`anchor, this`next, this`prev, this`inUse
      ensures Links() && forall a :: a in inUse <==> a in old(inUse) && a != h
      ensures exists k :: 0 <= k < |old(inUse)| && old(inUse)[k] == h && inUse == Without(old(inUse), k)
    {
      hide Chain, Ring, Without, NextWithout, PrevWithout;
      ghost var k :| 0 <= k < |inUse| && inUse[k] == h;
      ghost var next0, prev0 := next, prev;
      ChainWithout(anchor, next, prev, inUse, k);
      Neighbours(anchor, next, prev, inUse, k);
      InRing(deferred, next, prev, ring);
      WithoutOne(inUse, k);
      if next[h] != NULL {
        prev := prev[next[h] := prev[h]];
      }
      if prev[h] != NULL {
        next := next[prev[h] := next[h]];
      } else {
        anchor := next[h];
      }
      inUse := Without(inUse, k);
      RingKept(deferred, next0, prev0, ring, next, prev);
    }

    /** Remembers a block that the system has just allocated. */
    method LinkBlock(h: Address, userSize: nat, frames: seq<nat>)
      requires Valid() && h > 0 && h !in inUse && h !in ring && |frames| == depth
      modifies this
      ensures Valid() && inUse == [h] + old(inUse) && ring == old(ring) && total == old(total)
      ensures size == old(size)[h := userSize] && trace == old(trace)[h := frames] && history == old(history)
    {
      hide Links, Waits, Freed, SignedAs;
      Sized();
      WaitsKept(total, ring, size, size[h := userSize], history);
      SignNew(depth, signature, size, trace, inUse, ring, h, userSize, frames);
      LinkHeader(h);
      size, signature, trace := size[h := userSize], signature[h := Mine], trace[h := frames];
    }

    /** Links a block behind the last deferred one. */
    method AppendDeferred(h: Address)
      requires Links() && h > 0 && h !in inUse && h !in ring
      modifies this`deferred, this`next, this`prev, this`ring
      ensures Links() && ring == old(ring) + [h]
    {
      hide Chain, Ring;
      InChain(anchor, next, prev, inUse);
      InRing(deferred, next, prev, ring);
      ghost var next0, prev0 := next, prev;
      if deferred != NULL {
        RingAppend(deferred, next, prev, ring, h);
        var last := prev[deferred];
        next := next[last := h];
        prev := prev[h := last];
        prev := prev[deferred := h];
        next := next[h := deferred];
      } else {
        RingOfOne(h, next, prev);
        next, prev, deferred := next[h := h], prev[h := h], h;
        assert ring + [h] == [h];
      }
      ring := ring + [h];
      ChainKept(anchor, next0, prev0, inUse, next, prev);
    }

    /** Takes the first block out of the ring. */
    method UnlinkFirst() returns (h: Address)
      requires Links() && |ring| > 1
      modifies this`deferred, this`next, this`prev, this`ring
      ensures Links() && h == old(ring)[0] && ring == old(ring)[1..]
      ensures h !in ring && forall a :: a in ring <==> a in old(ring) && a != h
    {
      hide Chain, Ring;
      InChain(anchor, next, prev, inUse);
      InRing(deferred, next, prev, ring);
      RingPop(deferred, next, prev, ring);
      RingDistinct(deferred, next, prev, ring);
      ghost var next0, prev0 := next, prev;
      h := deferred;
      deferred := next[h];
      next := next[prev[h] := next[h]];
      prev := prev[next[h] := prev[h]];
      ring := ring[1..];
      ChainKept(anchor, next0, prev0, inUse, next, prev);
    }

    /** Frees the block that has waited longest. */
    method PopDeferred() returns (h: Address)
      requires Links() && Signed(NULL) && Waits(total, ring, size, history) && |ring| > 1
      modifies this`deferred, this`next, this`prev, this`ring, this`total, this`signature
      ensures Links() && Signed(NULL) && Waits(total, ring, size, history)
      ensures h == old(ring)[0] && ring == old(ring)[1..]
    {
      hide Links, Waits, SignedAs;
      WaitsLess(total, ring, size, history);
      ghost var was := ring;
      assert ring[0] !in inUse by { Disjoint(); }
      h := UnlinkFirst();
      SignPopped(depth, signature, size, trace, inUse, was, ring, h);
      SignScratched(depth, signature, size, trace, inUse, ring, h);
      total := Minus(total, size[h]);
      signature := signature[h := Scratched];
    }

    /** Puts a block into the ring, and counts its bytes unless it is the first. */
    method Defer(h: Address)
      requires Links() && Signed(h) && Waits(total, ring, size, history)
      requires h > 0 && h !in inUse && h !in ring && h in size
      modifies this`deferred, this`next, this`prev, this`ring, this`total, this`signature, this`history
      ensures Links() && Signed(NULL) && Waits(total, ring, size, history)
      ensures ring == old(ring) + [h] && history == old(history) + [size[h]]
    {
      hide Links, Waits, SignedAs;
      Empty();
      SignDeferred(depth, signature, size, trace, inUse, ring, h);
      WaitsMore(total, ring, size, history, h);
      var none := deferred == NULL;
      signature := signature[h := Deferred];
      AppendDeferred(h);
      history := history + [size[h]];
      if !none {
        total := Plus(total, size[h]);
      }
    }

    /** Defers the freeing of a block, and frees the ones that have waited longest for as long as the
        total is above the limit, but never the last one. */
    method LinkDeferredBlock(h: Address) returns (freed: seq<Address>)
      requires Links() && Signed(h) && Waits(total, ring, size, history)
      requires |history| - |ring| == Freed(history, maxDefer)
      requires h > 0 && h !in inUse && h !in ring && h in size
      modifies this`deferred, this`next, this`prev, this`ring, this`total, this`signature, this`history
      ensures Valid() && history == old(history) + [size[h]]
      ensures freed + ring == old(ring) + [h] && ring != []
      ensures |freed| == Freed(history, maxDefer) - Freed(old(history), maxDefer)
    {
      hide Chain, Ring, Links, Signed, Waits, Freed, Next, Waiting, Parts;
      WaitsBounds();
      FreedSnoc(history, size[h], maxDefer);
      Defer(h);
      freed := [];
      ghost var all, sizes := ring, history;
      PartsStart(all);
      while total > maxDefer
        invariant Links() && Signed(NULL) && Waits(total, ring, size, history) && history == sizes && ring != []
        invariant Parts(all, freed, ring) && |ring| <= |history| && |sizes| > 0
        invariant Next(history, |history| - |ring|, maxDefer) == Freed(sizes, maxDefer)
        decreases |ring|
      {
        Alone();
        NextMoves();
        if next[deferred] == deferred {
          break;
        }
        PartsMore(all, freed, ring);
        var front := PopDeferred();
        freed := freed + [front];
      }
      Alone();
      NextMoves();
      PartsAre(all, freed, ring);
      assert |freed + ring| == |old(ring) + [h]|;
    }

    /** What the limit says about the next block to be freed. */
    lemma NextMoves()
      requires Waits(total, ring, size, history) && ring != []
      ensures |ring| <= |history|
      ensures |ring| == 1 || total <= maxDefer ==>
                Next(history, |history| - |ring|, maxDefer) == |history| - |ring|
      ensures |ring| > 1 && total > maxDefer ==>
                Next(history, |history| - |ring|, maxDefer) == Next(history, |history| - |ring| + 1, maxDefer)
    {
    }

    /** Right after the very first deferral nothing has been counted. */
    lemma OneWaits()
      requires Waits(total, ring, size, history) && |history| == 1
      ensures |ring| == 1 && total == 0
    {
      assert history[0..] == [] + history;
      SumSnoc([], history[0]);
    }

    lemma WaitsBounds()
      requires Waits(total, ring, size, history)
      ensures |ring| <= |history| && (ring == [] <==> history == [])
    {
    }

    lemma PartsAre(all: seq<Address>, freed: seq<Address>, ring: seq<Address>)
      requires Parts(all, freed, ring)
      ensures all == freed + ring
    {
    }

    lemma Empty()
      requires Links()
      ensures deferred == NULL <==> ring == []
    {
    }

    lemma Alone()
      requires Links() && ring != []
      ensures deferred in next && (next[deferred] == deferred <==> |ring| == 1)
    {
      RingAlone(deferred, next, prev, ring);
    }

    /** Frees a block, given the address of its header, or defers that. Only a block in use is taken out
        of a list, and it is never the one that is freed in its place. How many blocks are freed, the
        history says. */
    method FreeBlockWithPadding(h: Address) returns (r: Outcome)
      requires Valid()
      modifies this
      ensures Valid() && size == old(size) && trace == old(trace)
      ensures h == NULL ==> r == Nothing
      ensures h != NULL ==>
                (r == DoubleFree <==> h in old(ring)) && (r == Foreign <==> h !in old(ring) && h !in old(inUse))
      ensures h !in old(inUse) ==> inUse == old(inUse)
      ensures !r.Kept? ==> ring == old(ring) && total == old(total) && history == old(history)
      ensures r.Kept? ==>
                && h in size && history == old(history) + [size[h]]
                && r.freed + ring == old(ring) + [h] && ring != [] && h !in r.freed
                && |r.freed| == Freed(history, maxDefer) - Freed(old(history), maxDefer)
      ensures h in old(inUse) ==>
                && (exists k :: 0 <= k < |old(inUse)| && old(inUse)[k] == h && inUse == Without(old(inUse), k))
                && (if maxDefer == 0 then r == FreedNow else r.Kept?)
    {
      hide Links, Waits, Without, Freed, SignedAs;
      NotNull();
      if h == NULL {
        return Nothing;
      }
      SignatureTells(h);
      ghost var was := inUse;
      if h in signature && signature[h] == Deferred {
        r := DoubleFree;
      } else if h in signature && signature[h] == Mine {
        UnlinkHeader(h);
        SignUnlinked(depth, signature, size, trace, was, inUse, ring, h);
        if maxDefer > 0 {
          var freed := LinkDeferredBlock(h);
          LastStays(old(ring), h, freed, ring);
          r := Kept(freed);
        } else {
          SignScratched(depth, signature, size, trace, inUse, ring, h);
          signature := signature[h := Scratched];
          r := FreedNow;
        }
      } else {
        r := Foreign;
      }
    }

    /** The bytes that wait, and what the total says instead: the two agree, up to the word size, iff the
        very first block that has been deferred had no bytes. */
    lemma TotalMissesFirst()
      requires Valid() && ring != []
      ensures history != [] && forall a | a in ring :: a in size
      ensures Bytes(ring, size) == Sum(history[Freed(history, maxDefer)..])
      ensures total == Bytes(ring, size) % WORD <==> history[0] % WORD == 0
    {
      hide Sum, Bytes;
      var k := |history| - |ring|;
      BytesAreSum(ring, size, history[k..]);
      Deferral.TotalMissesFirst(history, k);
    }

    lemma Disjoint()
      requires Links()
      ensures forall a | a in ring :: a !in inUse
    {
    }

    lemma SignatureTells(h: Address)
      requires Valid() && h != NULL
      ensures h in inUse <==> h in signature && signature[h] == Mine
      ensures h in ring <==> h in signature && signature[h] == Deferred
      ensures h in inUse ==> h !in ring && h in size
    {
    }

    lemma NotNull()
      requires Links()
      ensures NULL !in inUse && NULL !in ring
    {
    }

    lemma Sized()
      requires Valid()
      ensures forall a | a in inUse + ring :: a in size
    {
    }

    lemma InUseAt(k: nat)
      requires Valid() && k <= |inUse|
      ensures (At(inUse, k) == NULL <==> k == |inUse|) && anchor == At(inUse, 0)
      ensures k < |inUse| ==> var h := inUse[k];
                              && h == At(inUse, k) && h in next && next[h] == At(inUse, k + 1)
                              && h in size && h in trace && |trace[h]| == depth
    {
      if k < |inUse| {
        ChainAt(anchor, next, prev, inUse, k);
        assert inUse[k] in inUse;
      }
    }

    // -------------------------------------------------------------- the dump

    /** Puts the blocks in use into groups by the frames of their call stacks. */
    method DumpInUseBlocks() returns (groups: seq<Group>, totalBlocks: nat, totalBytes: nat)
      requires Valid()
      ensures Grouped(inUse, size, trace, depth, groups)
      ensures totalBlocks == |inUse| && totalBytes == Bytes(inUse, size)
    {
      hide Links, Signed, Bytes, Waits, Freed, Grouped, At, Like, RightGroup, Counts, Sizes;
      groups := [];
      var h := anchor;
      ghost var k := 0;
      Sized();
      InUseAt(0);
      NothingGrouped(size, trace, depth);
      assert inUse[..0] == [];
      while h != NULL
        invariant k <= |inUse| && h == At(inUse, k) && Grouped(inUse[..k], size, trace, depth, groups)
        invariant Counts(groups) == k && Sizes(groups) == Bytes(inUse[..k], size)
        decreases |inUse| - k
      {
        InUseAt(k);
        assert inUse[..k + 1] == inUse[..k] + [h];
        BytesSnoc(inUse[..k], h, size);
        FrameLengths(inUse[..k], size, trace, depth, groups);
        var g := FindGroup(groups, trace[h], depth);
        GroupedMore(inUse[..k], size, trace, depth, groups, h, g);
        if g < |groups| {
          TotalsUpdate(groups, g, Group(groups[g].count + 1, groups[g].bytes + size[h], groups[g].frames));
          groups := groups[g := Group(groups[g].count + 1, groups[g].bytes + size[h], groups[g].frames)];
        } else {
          TotalsSnoc(groups, Group(1, size[h], trace[h]));
          groups := groups + [Group(1, size[h], trace[h])];
        }
        h := next[h];
        k := k + 1;
      }
      InUseAt(k);
      assert inUse[..k] == inUse && groups[..0] == [];
      totalBlocks, totalBytes := 0, 0;
      for i := 0 to |groups|
        invariant totalBlocks == Counts(groups[..i]) && totalBytes == Sizes(groups[..i])
      {
        assert groups[..i + 1] == groups[..i] + [groups[i]];
        TotalsSnoc(groups[..i], groups[i]);
        totalBlocks := totalBlocks + groups[i].count;
        totalBytes := totalBytes + groups[i].bytes;
      }
      assert groups[..|groups|] == groups;
    }
  }

  /** The block whose freeing is deferred last is not one of those that are freed. */
  lemma LastStays(ring: seq<Address>, h: Address, freed: seq<Address>, ring': seq<Address>)
    requires freed + ring' == ring + [h] && ring' != [] && h !in ring
    ensures h !in freed
  {
    forall i | 0 <= i < |freed|
      ensures freed[i] == ring[i]
    {
      assert freed[i] == (freed + ring')[i] == (ring + [h])[i];
    }
  }

  /** The first deferral from the beginning: a block of 100 bytes waits, and the total is 0. */
  method FirstDeferral() returns (heap: PaddedHeap)
    ensures fresh(heap) && heap.Valid() && heap.ring == [16] && heap.history == [100] && heap.total == 0
    ensures 16 in heap.size && heap.size[16] == 100 && heap.maxDefer == 1000
  {
    hide PaddedHeap.Links, PaddedHeap.Signed, Freed, Next, Sum, Without;
    heap := new PaddedHeap(0, 1000);
    heap.LinkBlock(16, 100, []);
    var r := heap.FreeBlockWithPadding(16);
    heap.OneWaits();
    assert r.Kept? && |r.freed + heap.ring| == 1;
    assert r.freed == [];
    assert heap.ring == r.freed + heap.ring == [16];
  }

  /** One more block is allocated and freed, as the first one or after others that wait. */
  method AllocateAndFree(heap: PaddedHeap, h: Address, userSize: nat)
    requires heap.Valid() && heap.depth == 0 && heap.maxDefer > 0 && h > 0 && h !in heap.inUse && h !in heap.ring
    modifies heap
    ensures heap.Valid() && heap.inUse == old(heap.inUse) && heap.history == old(heap.history) + [userSize]
    ensures heap.ring != [] && forall a | a in heap.ring :: a in old(heap.ring) || a == h
  {
    hide PaddedHeap.Links, PaddedHeap.Signed, Freed;
    ghost var ring, used := heap.ring, heap.inUse;
    heap.LinkBlock(h, userSize, []);
    var r := heap.FreeBlockWithPadding(h);
    Restored(used, h, heap.inUse);
    assert r.Kept?;
    forall a | a in heap.ring
      ensures a in ring || a == h
    {
      assert a in r.freed + heap.ring;
    }
  }

  lemma Restored(used: seq<Address>, h: Address, inUse: seq<Address>)
    requires h !in used && exists k :: 0 <= k < |[h] + used| && ([h] + used)[k] == h && inUse == Without([h] + used, k)
    ensures inUse == used
  {
  }

  /** Blocks of the given sizes are allocated and freed one after the other. How many of them wait in
      the end, their sizes alone decide. */
  method DeferAll(maxDefer: nat, sizes: seq<nat>) returns (heap: PaddedHeap)
    requires maxDefer > 0
    ensures fresh(heap) && heap.Valid() && heap.maxDefer == maxDefer && heap.history == sizes
    ensures |heap.ring| == |sizes| - Freed(sizes, maxDefer)
  {
    hide PaddedHeap.Links, PaddedHeap.Signed, Freed, Waits;
    heap := new PaddedHeap(0, maxDefer);
    assert sizes[..0] == [];
    for i := 0 to |sizes|
      invariant heap.Valid() && heap.depth == 0 && heap.maxDefer == maxDefer && heap.inUse == []
      invariant heap.history == sizes[..i] && forall a | a in heap.ring :: a <= i
    {
      assert sizes[..i + 1] == sizes[..i] + [sizes[i]];
      AllocateAndFree(heap, i + 1, sizes[i]);
    }
    assert sizes[..|sizes|] == sizes;
  }

  /** With a limit of 100 bytes, after blocks of 1000, 50 and 60 bytes: of two more blocks of 10 bytes,
      the first one is freed when the second one is deferred, although only 20 bytes would wait. */
  method FreedEarly() returns (heap: PaddedHeap)
    ensures heap.Valid() && heap.maxDefer == 100 && heap.history == [1000, 50, 60, 10, 10] && |heap.ring| == 1
  {
    hide PaddedHeap.Links, PaddedHeap.Signed, Freed, Waits;
    heap := DeferAll(100, [1000, 50, 60, 10, 10]);
    FiveBlocks();
  }

  lemma RingOfOne(h: Address, next: map<Address, Address>, prev: map<Address, Address>)
    requires h > 0
    ensures Ring(h, next[h := h], prev[h := h], [h])
  {
  }

  lemma RingDistinct(head: Address, next: map<Address, Address>, prev: map<Address, Address>, list: seq<Address>)
    requires Ring(head, next, prev, list) && |list| > 1
    ensures list[0] !in list[1..] && (forall a :: a in list[1..] <==> a in list && a != list[0])
    ensures next[list[0]] in list && prev[list[0]] in list && next[list[0]] != list[0] && prev[list[0]] != list[0]
  {
    DistinctRest(list);
    assert next[list[0]] == list[1] && prev[list[0]] == list[|list| - 1];
  }

  /** What unlinking a block does to its neighbours. */
  lemma Neighbours(head: Address, next: map<Address, Address>, prev: map<Address, Address>, list: seq<Address>, k: nat)
    requires Chain(head, next, prev, list) && k < |list|
    ensures var h := list[k];
            && Distinct(list) && h in next && h in prev && next[h] != h && prev[h] != h
            && (next[h] != NULL ==> next[h] in list && next[h] in prev)
                  && (prev[h] != NULL ==> prev[h] in list && prev[h] in next)
            && head == At(list, 0) && (prev[h] != NULL <==> k > 0) && next[h] == At(list, k + 1)
            && NextWithout(next, list, k) == (if prev[h] != NULL then next[prev[h] := next[h]] else next)
            && PrevWithout(prev, list, k) == (if next[h] != NULL then prev[next[h] := prev[h]] else prev)
            && (k == 0 ==> next[h] == At(list, 1))
  {
    ChainAt(head, next, prev, list, k);
    if k > 0 {
      ChainAt(head, next, prev, list, k - 1);
    }
    if k + 1 < |list| {
      ChainAt(head, next, prev, list, k + 1);
    }
  }

  lemma InChain(head: Address, next: map<Address, Address>, prev: map<Address, Address>, list: seq<Address>)
    requires Chain(head, next, prev, list)
    ensures forall a | a in list :: a > 0 && a in next && a in prev
    ensures head != NULL ==> head in list
  {
  }

  lemma InRing(head: Address, next: map<Address, Address>, prev: map<Address, Address>, list: seq<Address>)
    requires Ring(head, next, prev, list)
    ensures forall a | a in list :: a > 0 && a in next && a in prev
    ensures head == NULL <==> list == []
    ensures head != NULL ==> head in list
  {
  }

  // ---------------------------------------------------------------- groups

  datatype Group = Group(count: nat, bytes: nat, frames: seq<nat>)

  ghost function Counts(groups: seq<Group>): nat {
    if groups == [] then 0 else Counts(groups[..|groups| - 1]) + groups[|groups| - 1].count
  }

  ghost function Sizes(groups: seq<Group>): nat {
    if groups == [] then 0 else Sizes(groups[..|groups| - 1]) + groups[|groups| - 1].bytes
  }

  lemma TotalsSnoc(groups: seq<Group>, g: Group)
    ensures Counts(groups + [g]) == Counts(groups) + g.count && Sizes(groups + [g]) == Sizes(groups) + g.bytes
  {
    assert (groups + [g])[..|groups|] == groups;
  }

  lemma {:induction false} TotalsUpdate(groups: seq<Group>, i: nat, g: Group)
    requires i < |groups|
    ensures Counts(groups[i := g]) == Counts(groups) - groups[i].count + g.count
    ensures Sizes(groups[i := g]) == Sizes(groups) - groups[i].bytes + g.bytes
  {
    var n := |groups| - 1;
    if i < n {
      TotalsUpdate(groups[..n], i, g);
      assert groups[i := g][..n] == groups[..n][i := g];
    } else {
      assert groups[i := g][..n] == groups[..n];
    }
  }

  /** The blocks whose call stack is `frames`. */
  ghost function Like(list: seq<Address>, trace: map<Address, seq<nat>>, frames: seq<nat>): (like: seq<Address>)
    ensures forall a | a in like :: a in list
  {
    if list == [] then []
    else
      var a := list[|list| - 1];
      Like(list[..|list| - 1], trace, frames) + (if a in trace && trace[a] == frames then [a] else [])
  }

  /** Without call stacks every block is a group; with them a group has the blocks with one call stack. */
  ghost predicate Grouped(list: seq<Address>, size: map<Address, nat>, trace: map<Address, seq<nat>>, depth: nat,
                          groups: seq<Group>)
    requires forall a | a in list :: a in size
  {
    if depth == 0 then |groups| == |list| && forall i | 0 <= i < |list| ::
      groups[i].count == 1 && groups[i].bytes == size[list[i]]
    else
      && (forall i, j | 0 <= i < j < |groups| :: groups[i].frames != groups[j].frames)
      && (forall i | 0 <= i < |groups| :: |groups[i].frames| == depth && RightGroup(list, size, trace, groups[i]))
      && (forall a | a in list :: a in trace && exists i :: 0 <= i < |groups| && groups[i].frames == trace[a])
  }

  ghost predicate RightGroup(list: seq<Address>, size: map<Address, nat>, trace: map<Address, seq<nat>>, g: Group)
    requires forall a | a in list :: a in size
  {
    var like := Like(list, trace, g.frames);
    like != [] && g.count == |like| && g.bytes == Bytes(like, size)
  }

  /** The group with the given call stack, the number of groups when there is none. */
  method FindGroup(groups: seq<Group>, frames: seq<nat>, depth: nat) returns (g: nat)
    requires |frames| == depth && (depth > 0 ==> forall i | 0 <= i < |groups| :: |groups[i].frames| == depth)
    ensures g <= |groups| && (depth == 0 ==> g == |groups|)
    ensures depth > 0 ==>
              (g < |groups| ==> groups[g].frames == frames) && forall i | 0 <= i < g :: groups[i].frames != frames
  {
    if depth == 0 {
      return |groups|;
    }
    g := 0;
    while g < |groups|
      invariant g <= |groups| && forall i | 0 <= i < g :: groups[i].frames != frames
    {
      var same, k := true, 0;
      while k < depth
        invariant k <= depth && same && groups[g].frames[..k] == frames[..k]
      {
        if frames[k] != groups[g].frames[k] {
          same := false;
          break;
        }
        k := k + 1;
      }
      if same {
        assert groups[g].frames == groups[g].frames[..k] && frames == frames[..k];
        return;
      }
      g := g + 1;
    }
  }

  lemma NothingGrouped(size: map<Address, nat>, trace: map<Address, seq<nat>>, depth: nat)
    ensures Grouped([], size, trace, depth, []) && Bytes([], size) == 0 && Counts([]) == 0 && Sizes([]) == 0
  {
  }

  lemma FrameLengths(list: seq<Address>, size: map<Address, nat>, trace: map<Address, seq<nat>>, depth: nat,
                     groups: seq<Group>)
    requires (forall a | a in list :: a in size) && Grouped(list, size, trace, depth, groups)
    ensures depth > 0 ==> forall i | 0 <= i < |groups| :: |groups[i].frames| == depth
  {
  }

  lemma LikeSnoc(list: seq<Address>, trace: map<Address, seq<nat>>, frames: seq<nat>, a: Address)
    ensures Like(list + [a], trace, frames) == Like(list, trace, frames) +
              (if a in trace && trace[a] == frames then [a] else [])
  {
    assert (list + [a])[..|list|] == list;
  }

  lemma {:induction false} NoneLike(list: seq<Address>, trace: map<Address, seq<nat>>, frames: seq<nat>)
    requires forall a | a in list :: a in trace && trace[a] != frames
    ensures Like(list, trace, frames) == []
  {
    if list != [] {
      NoneLike(list[..|list| - 1], trace, frames);
    }
  }

  lemma GroupMore(list: seq<Address>, size: map<Address, nat>, trace: map<Address, seq<nat>>, groups: seq<Group>,
                  a: Address, i: nat)
    requires (forall b | b in list :: b in size) && a in size && a in trace && i < |groups|
    requires RightGroup(list, size, trace, groups[i])
    ensures groups[i].frames != trace[a] ==> RightGroup(list + [a], size, trace, groups[i])
    ensures groups[i].frames == trace[a] ==>
              RightGroup(list + [a], size, trace, Group(groups[i].count + 1, groups[i].bytes + size[a], trace[a]))
  {
    LikeSnoc(list, trace, groups[i].frames, a);
    BytesSnoc(Like(list, trace, groups[i].frames), a, size);
    assert Like(list, trace, groups[i].frames) + [] == Like(list, trace, groups[i].frames);
  }

  lemma GroupNew(list: seq<Address>, size: map<Address, nat>, trace: map<Address, seq<nat>>, groups: seq<Group>,
                 a: Address)
    requires (forall b | b in list :: b in size) && a in size && a in trace
    requires forall b | b in list :: b in trace && exists i :: 0 <= i < |groups| && groups[i].frames == trace[b]
    requires forall i | 0 <= i < |groups| :: groups[i].frames != trace[a]
    ensures RightGroup(list + [a], size, trace, Group(1, size[a], trace[a]))
  {
    NoneLike(list, trace, trace[a]);
    LikeSnoc(list, trace, trace[a], a);
    BytesSnoc([], a, size);
  }

  /** One more block goes into the group of its call stack, or into a new one. */
  lemma GroupedMore(list: seq<Address>, size: map<Address, nat>, trace: map<Address, seq<nat>>, depth: nat,
                    groups: seq<Group>, a: Address, g: nat)
    requires (forall b | b in list :: b in size) && a in size && a in trace && |trace[a]| == depth
    requires Grouped(list, size, trace, depth, groups) && g <= |groups| && (depth == 0 ==> g == |groups|)
    requires depth > 0 ==>
               (g < |groups| ==> groups[g].frames == trace[a]) && forall i | 0 <= i < g :: groups[i].frames != trace[a]
    ensures g < |groups| ==> Grouped(list + [a], size, trace, depth,
              groups[g := Group(groups[g].count + 1, groups[g].bytes + size[a], groups[g].frames)])
    ensures g == |groups| ==> Grouped(list + [a], size, trace, depth, groups + [Group(1, size[a], trace[a])])
  {
    hide RightGroup, Like, Bytes;
    if depth > 0 {
      var groups' := if g < |groups|
        then groups[g := Group(groups[g].count + 1, groups[g].bytes + size[a], groups[g].frames)]
                     else groups + [Group(1, size[a], trace[a])];
      forall i | 0 <= i < |groups'|
        ensures RightGroup(list + [a], size, trace, groups'[i])
      {
        if i < |groups| {
          GroupMore(list, size, trace, groups, a, i);
        } else {
          GroupNew(list, size, trace, groups, a);
        }
      }
      forall b | b in list + [a]
        ensures b in trace && exists i :: 0 <= i < |groups'| && groups'[i].frames == trace[b]
      {
        if b in list {
          var i :| 0 <= i < |groups| && groups[i].frames == trace[b];
          assert groups'[i].frames == trace[b];
        } else {
          assert groups'[g].frames == trace[b];
        }
      }
    }
  }
}
