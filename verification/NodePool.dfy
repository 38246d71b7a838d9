/** The pool of small nodes: a free list threaded through memory that is got in big chunks. */
module NodePool {
  import opened Lists

  const HEADER: nat := 16
  const CHUNK: nat := 1024 * 1024

  /** What a free node, or the header of a chunk, holds in its first bytes. */
  datatype Cell = Cell(next: Address, size: nat)

  datatype Region = Region(start: Address, size: nat)
  {
    predicate Apart(r: Region) {
      start + size <= r.start || r.start + r.size <= start
    }
  }

  // ---------------------------------------------------------------- the free list

  ghost function Nexts(cells: map<Address, Cell>): map<Address, Address> {
    map a | a in cells :: cells[a].next
  }

  ghost function Starts(free: seq<Region>): (starts: seq<Address>)
    ensures |starts| == |free| && forall i | 0 <= i < |free| :: starts[i] == free[i].start
  {
    seq(|free|, i requires 0 <= i < |free| => free[i].start)
  }

  /** The list that begins at `head` goes through the free regions. */
  ghost predicate Linked(head: Address, cells: map<Address, Cell>, free: seq<Region>) {
    && Threaded(head, Nexts(cells), Starts(free))
    && forall i | 0 <= i < |free| :: free[i].start in cells && cells[free[i].start].size == free[i].size
  }

  lemma LinkedPush(head: Address, cells: map<Address, Cell>, free: seq<Region>, r: Region)
    requires Linked(head, cells, free) && r.start > 0 && forall i | 0 <= i < |free| :: free[i].start != r.start
    ensures Linked(r.start, cells[r.start := Cell(head, r.size)], [r] + free)
  {
    hide Threaded;
    ThreadedPush(head, Nexts(cells), Starts(free), r.start);
    assert Starts([r] + free) == [r.start] + Starts(free);
    assert Nexts(cells[r.start := Cell(head, r.size)]) == Nexts(cells)[r.start := head];
  }

  lemma NoFree(head: Address, cells: map<Address, Cell>, free: seq<Region>)
    requires Linked(head, cells, free)
    ensures head == NULL <==> free == []
  {
    hide Threaded;
    ThreadedHead(head, Nexts(cells), Starts(free));
  }

  lemma LinkedPop(head: Address, cells: map<Address, Cell>, free: seq<Region>)
    requires Linked(head, cells, free) && free != []
    ensures head == free[0].start && head in cells && cells[head].size == free[0].size
    ensures Linked(cells[head].next, cells, free[1..])
  {
    hide Threaded;
    ThreadedHead(head, Nexts(cells), Starts(free));
    assert Starts(free)[1..] == Starts(free[1..]);
  }

  // ---------------------------------------------------------------- where regions lie

  ghost predicate AllApart(s: seq<Region>) {
    forall i, j | 0 <= i < j < |s| :: s[i].Apart(s[j])
  }

  ghost predicate ApartFrom(s: seq<Region>, r: Region) {
    forall i | 0 <= i < |s| :: s[i].Apart(r)
  }

  /** The region lies in a chunk, behind the header. */
  ghost predicate InBody(chunks: seq<Region>, r: Region) {
    exists i :: 0 <= i < |chunks| && r.start >= chunks[i].start + HEADER
      && r.start + r.size <= chunks[i].start + chunks[i].size
  }

  ghost predicate GoodFree(size: nat, free: seq<Region>, chunks: seq<Region>) {
    AllApart(free) && forall i | 0 <= i < |free| :: free[i].size >= size && InBody(chunks, free[i])
  }

  ghost predicate GoodUsed(size: nat, free: seq<Region>, used: set<Address>, chunks: seq<Region>) {
    && (forall p | p in used :: InBody(chunks, Region(p, size)) && ApartFrom(free, Region(p, size)))
    && (forall p, q | p in used && q in used && p != q :: Region(p, size).Apart(Region(q, size)))
  }

  /** Free regions are large enough, and free and used regions lie in chunks, apart from each other. */
  ghost predicate Layout(size: nat, free: seq<Region>, used: set<Address>, chunks: seq<Region>) {
    && HEADER <= size <= CHUNK - HEADER
    && GoodFree(size, free, chunks) && GoodUsed(size, free, used, chunks)
    && AllApart(chunks) && (forall i | 0 <= i < |chunks| :: chunks[i].size == CHUNK && chunks[i].start > 0)
  }

  lemma InBodyPart(chunks: seq<Region>, r: Region, part: Region)
    requires InBody(chunks, r) && r.start <= part.start && part.start + part.size <= r.start + r.size
    ensures InBody(chunks, part) && part.start > 0
  {
  }

  /** The free regions after the first one has been given out. */
  ghost function Rest(size: nat, free: seq<Region>): seq<Region>
    requires free != []
  {
    if free[0].size >= size * 2 then [Region(free[0].start + size, free[0].size - size)] + free[1..] else free[1..]
  }

  /** The first free region becomes a used one; what is left of it goes back, when it is large enough. */
  lemma LayoutTake(size: nat, free: seq<Region>, used: set<Address>, chunks: seq<Region>)
    requires Layout(size, free, used, chunks) && free != []
    ensures free[0].start !in used
    ensures Layout(size, Rest(size, free), used + {free[0].start}, chunks)
  {
    var first := free[0];
    hide InBody;
    InBodyPart(chunks, first, Region(first.start, size));
    if first.size >= size * 2 {
      InBodyPart(chunks, first, Region(first.start + size, first.size - size));
    }
    TakeFree(size, free, chunks);
    TakeUsed(size, free, used, chunks);
  }

  lemma TakeFree(size: nat, free: seq<Region>, chunks: seq<Region>)
    requires free != [] && GoodFree(size, free, chunks) && InBody(chunks, Region(free[0].start, size))
    requires free[0].size >= size * 2 ==> InBody(chunks, Region(free[0].start + size, free[0].size - size))
    ensures GoodFree(size, Rest(size, free), chunks) && ApartFrom(Rest(size, free), Region(free[0].start, size))
  {
    hide InBody;
    forall i | 0 <= i < |Rest(size, free)|
      ensures RestOf(size, free, i)
    {
      RestIs(size, free, i);
    }
    forall i, j | 0 <= i < j < |Rest(size, free)|
      ensures Rest(size, free)[i].Apart(Rest(size, free)[j])
    {
      RestApart(size, free, i, j);
    }
  }

  /** A region that stays free: the rest of the first one, or one of the others. */
  ghost predicate RestOf(size: nat, free: seq<Region>, i: nat)
    requires free != [] && i < |Rest(size, free)|
  {
    var split := free[0].size >= size * 2;
    Rest(size, free)[i] == if split && i == 0 then Region(free[0].start + size, free[0].size - size)
                           else if split then free[i] else free[i + 1]
  }

  lemma RestIs(size: nat, free: seq<Region>, i: nat)
    requires free != [] && i < |Rest(size, free)|
    ensures |Rest(size, free)| == (if free[0].size >= size * 2 then |free| else |free| - 1) && RestOf(size, free, i)
  {
  }

  lemma RestApart(size: nat, free: seq<Region>, i: nat, j: nat)
    requires free != [] && AllApart(free) && i < j < |Rest(size, free)|
    ensures Rest(size, free)[i].Apart(Rest(size, free)[j])
  {
    RestIs(size, free, i);
    RestIs(size, free, j);
    var shift := if free[0].size >= size * 2 then 0 else 1;
    assert free[i + shift].Apart(free[j + shift]);
  }

  lemma TakeUsed(size: nat, free: seq<Region>, used: set<Address>, chunks: seq<Region>)
    requires free != [] && size > 0 && free[0].size >= size && GoodUsed(size, free, used, chunks)
    requires InBody(chunks, Region(free[0].start, size))
    requires ApartFrom(free[1..], Region(free[0].start, size))
    ensures free[0].start !in used
    ensures GoodUsed(size, Rest(size, free), used + {free[0].start}, chunks)
  {
    hide InBody;
    assert forall p | p in used :: free[0].Apart(Region(p, size));
  }

  lemma LayoutRelease(size: nat, free: seq<Region>, used: set<Address>, chunks: seq<Region>, p: Address)
    requires Layout(size, free, used, chunks) && p in used
    ensures Layout(size, [Region(p, size)] + free, used - {p}, chunks) && p > 0
    ensures forall i | 0 <= i < |free| :: free[i].start != p
  {
    InBodyPart(chunks, Region(p, size), Region(p, size));
    hide InBody;
    assert forall i | 0 <= i < |free| :: free[i].Apart(Region(p, size));
  }

  lemma LayoutGrow(size: nat, used: set<Address>, chunks: seq<Region>, chunk: Address)
    requires Layout(size, [], used, chunks) && chunk > 0 && ApartFrom(chunks, Region(chunk, CHUNK))
    ensures Layout(size, [Region(chunk + HEADER, CHUNK - HEADER)], used, [Region(chunk, CHUNK)] + chunks)
  {
    var more := [Region(chunk, CHUNK)] + chunks;
    assert forall i | 1 <= i <= |chunks| :: more[i] == chunks[i - 1];
    assert more[0] == Region(chunk, CHUNK);
    forall p | p in used
      ensures InBody(more, Region(p, size)) && Region(chunk + HEADER, CHUNK - HEADER).Apart(Region(p, size))
    {
      var i :| 0 <= i < |chunks| && p >= chunks[i].start + HEADER && p + size <= chunks[i].start + chunks[i].size;
      assert more[i + 1] == chunks[i] && chunks[i].Apart(Region(chunk, CHUNK));
    }
  }

  /** The rest of a region that is split begins where no free region does. */
  lemma SplitApart(size: nat, free: seq<Region>, used: set<Address>, chunks: seq<Region>)
    requires Layout(size, free, used, chunks) && free != [] && free[0].size >= size * 2
    ensures size > 0 && forall i | 0 <= i < |free[1..]| :: free[1..][i].start != free[0].start + size
  {
    hide InBody;
    assert forall i | 1 <= i < |free| :: free[0].Apart(free[i]);
  }

  /** Taking the first node off the list, and putting what is left of it back. */
  lemma LinkedTake(head: Address, cells: map<Address, Cell>, size: nat, free: seq<Region>, used: set<Address>,
                   chunks: seq<Region>)
    requires Linked(head, cells, free) && free != [] && Layout(size, free, used, chunks)
    ensures head == free[0].start && head in cells && cells[head].size == free[0].size
    ensures var cell := cells[head];
            if cell.size >= size * 2 then
              Linked(head + size, cells[head + size := Cell(cell.next, cell.size - size)], Rest(size, free))
            else Linked(cell.next, cells, Rest(size, free))
  {
    hide InBody, Layout, Linked;
    LinkedPop(head, cells, free);
    if cells[head].size >= size * 2 {
      SplitApart(size, free, used, chunks);
      LinkedPush(cells[head].next, cells, free[1..], Region(head + size, cells[head].size - size));
    }
  }

  // ---------------------------------------------------------------- the pool

  class Pool {
    /** The size of every request. */
    const size: nat
    /** The head of the free list, and the cells in memory. */
    var head: Address
    var cells: map<Address, Cell>
    /** The chunks, the newest first. */
    var chunks: seq<Region>
    var totalSize: nat
    /** The regions in the free list, and the addresses of the ones in use. */
    ghost var free: seq<Region>
    ghost var used: set<Address>

    ghost predicate Valid()
      reads this
    {
      Linked(head, cells, free) && Layout(size, free, used, chunks) && totalSize == CHUNK * |chunks|
    }

    constructor (size: nat)
      requires HEADER <= size <= CHUNK - HEADER
      ensures Valid() && used == {} && chunks == [] && this.size == size
    {
      this.size := size;
      head, cells, chunks, totalSize := NULL, map[], [], 0;
      free, used := [], {};
    }

    /** Adds a chunk at `chunk`, which the system has just mapped, when nothing is free. */
    method GrowInternalBuffer(chunk: Address)
      requires Valid() && head == NULL && chunk > 0 && ApartFrom(chunks, Region(chunk, CHUNK))
      modifies this
      ensures Valid() && used == old(used) && chunks == [Region(chunk, CHUNK)] + old(chunks)
      ensures free == [Region(chunk + HEADER, CHUNK - HEADER)]
    {
      hide Layout, InBody;
      assert free == [];
      LayoutGrow(size, used, chunks, chunk);
      var node := chunk + HEADER;
      LinkedPush(head, cells, free, Region(node, CHUNK - HEADER));
      chunks := [Region(chunk, CHUNK)] + chunks;
      totalSize := totalSize + CHUNK;
      cells := cells[node := Cell(head, CHUNK - HEADER)];
      head := node;
      free := [Region(node, CHUNK - HEADER)];
      assert free == free + [];
    }

    /** Gives out a region. Memory is mapped at `chunk` when the free list is empty. A region that is
        big enough for two requests is split. */
    method GetBlockInternal(chunk: Address) returns (node: Address)
      requires Valid()
      requires head == NULL ==> chunk > 0 && ApartFrom(chunks, Region(chunk, CHUNK))
      modifies this
      ensures Valid() && node !in old(used) && used == old(used) + {node}
      ensures var was := if old(head) == NULL then [Region(chunk + HEADER, CHUNK - HEADER)] else old(free);
              was != [] && node == was[0].start && free == Rest(size, was)
      ensures chunks == if old(head) == NULL then [Region(chunk, CHUNK)] + old(chunks) else old(chunks)
    {
      hide Layout, InBody, Linked, Rest;
      NoFree(head, cells, free);
      if head == NULL {
        GrowInternalBuffer(chunk);
      }
      node := head;
      LinkedTake(head, cells, size, free, used, chunks);
      LayoutTake(size, free, used, chunks);
      var cell := cells[node];
      if cell.size >= size * 2 {
        var newNode := node + size;
        cells := cells[newNode := Cell(cell.next, cell.size - size)];
        head := newNode;
      } else {
        head := cell.next;
      }
      free := Rest(size, free);
      used := used + {node};
    }

    /** Takes a region back. */
    method ReleaseBlockInternal(p: Address)
      requires Valid() && p in used
      modifies this
      ensures Valid() && used == old(used) - {p} && chunks == old(chunks) && free == [Region(p, size)] + old(free)
    {
      hide Layout, InBody;
      LayoutRelease(size, free, used, chunks, p);
      LinkedPush(head, cells, free, Region(p, size));
      cells := cells[p := Cell(head, size)];
      head := p;
      free := [Region(p, size)] + free;
      used := used - {p};
    }

    /** Regions that are given out lie in chunks, behind the headers, apart from each other and from
        everything that is free. */
    lemma UsedApart(p: Address, q: Address)
      requires Valid() && p in used && q in used && p != q
      ensures Region(p, size).Apart(Region(q, size))
      ensures ApartFrom(free, Region(p, size)) && InBody(chunks, Region(p, size))
      ensures forall i | 0 <= i < |chunks| :: Region(chunks[i].start, HEADER).Apart(Region(p, size))
    {
      forall i | 0 <= i < |chunks|
        ensures Region(chunks[i].start, HEADER).Apart(Region(p, size))
      {
        var j :| 0 <= j < |chunks| && p >= chunks[j].start + HEADER && p + size <= chunks[j].start + chunks[j].size;
        assert i != j ==> chunks[if i < j then i else j].Apart(chunks[if i < j then j else i]);
      }
    }
  }
}
