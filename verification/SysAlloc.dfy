/** The cache of freed two-page blocks: a queue of blocks that are kept dead, or a stack of blocks that are reused. */
module SysAlloc {
  import opened Lists

  const TAG: nat := 16
  const TAG_BUFFER: nat := 64 * 1024

  // ---------------------------------------------------------------- the pool of tags

  /** Tag number `i` of a buffer. */
  function TagAt(buffer: Address, i: nat): Address {
    buffer + TAG * i
  }

  ghost function Tags(buffer: Address, n: nat): (tags: seq<Address>)
    ensures |tags| == n && forall k | 0 <= k < n :: tags[k] == TagAt(buffer, k)
  {
    seq<Address>(n, k requires 0 <= k < n => TagAt(buffer, k))
  }

  lemma TagIs(buffer: Address, n: nat, i: nat)
    requires i < n <= TAG_BUFFER / TAG
    ensures var tags := Tags(buffer, n);
            && tags[i] == TagAt(buffer, i) && buffer <= tags[i] < buffer + TAG_BUFFER && tags[0] == buffer
            && At(tags, 0) == buffer && At(tags, i + 1) == (if i + 1 < n then TagAt(buffer, i + 1) else NULL)
            && (forall k | 0 <= k < i :: tags[k] != tags[i])
  {
  }

  lemma TagsDistinct(buffer: Address, n: nat)
    ensures Distinct(Tags(buffer, n))
    ensures buffer > 0 ==> forall k | 0 <= k < n :: Tags(buffer, n)[k] > 0
  {
  }

  /** The tags do not overlap, and fill the buffer. */
  lemma TagsApart(buffer: Address, i: nat, j: nat)
    requires i < TAG_BUFFER / TAG && j < TAG_BUFFER / TAG && i != j
    ensures buffer <= Tags(buffer, TAG_BUFFER / TAG)[i]
    ensures Tags(buffer, TAG_BUFFER / TAG)[i] + TAG <= buffer + TAG_BUFFER
    ensures var tags := Tags(buffer, TAG_BUFFER / TAG); tags[i] + TAG <= tags[j] || tags[j] + TAG <= tags[i]
    ensures |Tags(buffer, TAG_BUFFER / TAG)| * TAG == TAG_BUFFER
  {
  }

  lemma InNext(head: Address, next: map<Address, Address>, list: seq<Address>)
    requires Threaded(head, next, list)
    ensures forall a | a in list :: a > 0 && a in next
    ensures head == NULL <==> list == []
  {
  }

  /** The tags out of which the queue of freed blocks is built. Unused ones form a free list. */
  class TagPool {
    var head: Address
    var next: map<Address, Address>
    ghost var free: seq<Address>

    ghost predicate Valid()
      reads this
    {
      Threaded(head, next, free) && Distinct(free)
    }

    constructor ()
      ensures Valid() && free == [] && next == map[]
    {
      head, next, free := NULL, map[], [];
    }

    /** Cuts the buffer into tags and links them. */
    method Split(buffer: Address)
      requires Valid() && buffer > 0 && head == NULL
      requires forall a | a in next :: !(buffer <= a < buffer + TAG_BUFFER)
      modifies this
      ensures Valid() && free == Tags(buffer, TAG_BUFFER / TAG)
      ensures forall a | a in old(next) :: a in next && next[a] == old(next)[a]
      ensures forall a | a in next :: a in old(next) || buffer <= a < buffer + TAG_BUFFER
    {
      hide At, TagAt, Distinct;
      var n := TAG_BUFFER / TAG;
      ghost var tags := Tags(buffer, n);
      TagsDistinct(buffer, n);
      head := buffer;
      var i := 0;
      while i + 1 < n
        invariant i < n && head == buffer
        invariant forall k | 0 <= k < i :: tags[k] in next && next[tags[k]] == At(tags, k + 1)
        invariant forall a | a in old(next) :: a in next && next[a] == old(next)[a]
        invariant forall a | a in next :: a in old(next) || buffer <= a < buffer + TAG_BUFFER
      {
        TagIs(buffer, n, i);
        next := next[TagAt(buffer, i) := TagAt(buffer, i + 1)];
        i := i + 1;
      }
      TagIs(buffer, n, i);
      next := next[TagAt(buffer, i) := NULL];
      free := tags;
      HeadAt(free);
      assert forall k | 0 <= k < n :: free[k] in next && next[free[k]] == At(free, k + 1);
    }

    /** Takes a tag, if need be from a new buffer, which is NULL when there is no memory for it. */
    method GetFreeBlockTag(buffer: Address) returns (tag: Address)
      requires Valid()
      requires forall a | a in next :: !(buffer <= a < buffer + TAG_BUFFER)
      modifies this
      ensures Valid() && (forall a | a in old(next) :: a in next && next[a] == old(next)[a])
      ensures tag == NULL <==> old(free) == [] && buffer == NULL
      ensures tag != NULL ==> tag in next && tag !in free && (tag in old(free) || tag !in old(next))
      ensures forall a | a in free :: a in old(free) || a !in old(next)
      ensures forall a | a in next :: a in old(next) || buffer <= a < buffer + TAG_BUFFER
    {
      hide Threaded, Distinct;
      ThreadedHead(head, next, free);
      if head == NULL {
        if buffer == NULL {
          return NULL;
        }
        Split(buffer);
        ThreadedHead(head, next, free);
      }
      tag := head;
      DistinctRest(free);
      head := next[tag];
      free := free[1..];
    }

    /** Links a tag behind the last one of a list of tags in use. */
    method LinkLast(tag: Address, last: Address, ghost head: Address, ghost list: seq<Address>)
      requires Valid() && Threaded(head, next, list) && Distinct(list) && (forall a | a in list :: a !in free)
      requires tag > 0 && tag !in list && tag !in free && last == (if list == [] then NULL else list[|list| - 1])
      modifies this`next
      ensures Valid() && Threaded(if head == NULL then tag else head, next, list + [tag])
      ensures forall a | a in next :: a in old(next) || a == tag
    {
      hide Threaded, Distinct, At;
      ghost var before := next;
      InNext(head, next, list);
      InNext(this.head, next, free);
      assert list != [] ==> list[|list| - 1] in list;
      ThreadedAppend(head, next, list, tag);
      next := next[tag := NULL];
      if last != NULL {
        next := next[last := tag];
      }
      ThreadedKept(this.head, before, next, free);
    }

    method ReleaseFreeBlockTag(tag: Address)
      requires Valid() && tag > 0 && tag in next && tag !in free
      modifies this
      ensures Valid() && free == [tag] + old(free) && next.Keys == old(next).Keys
      ensures forall a | a in next && a != tag :: next[a] == old(next)[a]
    {
      hide Threaded, Distinct;
      ThreadedPush(head, next, free, tag);
      DistinctPush(free, tag);
      next := next[tag := head];
      head := tag;
      free := [tag] + free;
    }
  }

  // ---------------------------------------------------------------- where blocks lie

  /** The blocks that are mapped, with their sizes, are apart from each other. */
  ghost predicate Apart(mapped: map<Address, nat>) {
    && (forall a | a in mapped :: a > 0 && mapped[a] > 0)
    && (forall a, b | a in mapped && b in mapped && a != b :: a + mapped[a] <= b || b + mapped[b] <= a)
  }

  /** A block at `a` would be apart from all mapped ones. */
  ghost predicate Fits(mapped: map<Address, nat>, a: Address, size: nat) {
    a > 0 && forall b | b in mapped :: a + size <= b || b + mapped[b] <= a
  }

  /** The dead pages that are left when a block is unmapped. */
  ghost function DeadOutside(dead: set<Address>, a: Address, size: nat): set<Address> {
    set d | d in dead && !(a <= d < a + size)
  }

  /** The first page of a block that the user sees. The guard page is the first or the last one. */
  function UserPageOf(pageSize: nat, underrun: bool, raw: Address): Address {
    if underrun then raw + pageSize else raw
  }

  function GuardPageOf(pageSize: nat, underrun: bool, raw: Address, size: nat): Address
    requires size >= pageSize
  {
    if underrun then raw else raw + size - pageSize
  }

  /** The cached blocks are mapped, different, and of two pages. */
  ghost predicate CachedApart(pageSize: nat, mapped: map<Address, nat>, cached: seq<Address>) {
    Apart(mapped) && Distinct(cached) && forall c | c in cached :: c in mapped && mapped[c] == 2 * pageSize
  }

  /** The user pages of quarantined blocks are dead, those of other blocks are not. */
  ghost predicate Protected(pageSize: nat, underrun: bool, quarantine: bool, mapped: map<Address, nat>,
                            cached: seq<Address>,
                            dead: set<Address>, exposed: set<Address>) {
    && (quarantine ==> forall c | c in cached :: UserPageOf(pageSize, underrun, c) in dead || c in exposed)
    && (forall a | a in mapped && !(quarantine && a in cached) && mapped[a] >= 2 * pageSize ::
          UserPageOf(pageSize, underrun, a) !in dead)
    && Confined(pageSize, underrun, quarantine, mapped, cached, dead)
  }

  /** The page is the guard page of a block, or its user page where that counts. */
  ghost predicate PageOf(pageSize: nat, underrun: bool, quarantine: bool, mapped: map<Address, nat>,
                         cached: seq<Address>, a: Address, d: Address) {
    && a in mapped && mapped[a] >= pageSize
    && (d == GuardPageOf(pageSize, underrun, a, mapped[a]) ||
        (quarantine && a in cached && d == UserPageOf(pageSize, underrun, a)))
  }

  /** No pages are dead but guard pages and the user pages of quarantined blocks. */
  ghost predicate Confined(pageSize: nat, underrun: bool, quarantine: bool, mapped: map<Address, nat>,
                           cached: seq<Address>, dead: set<Address>) {
    forall d | d in dead :: exists a :: PageOf(pageSize, underrun, quarantine, mapped, cached, a, d)
  }

  lemma ConfinedMap(pageSize: nat, underrun: bool, quarantine: bool, mapped: map<Address, nat>, cached: seq<Address>,
                    dead: set<Address>, a: Address, size: nat)
    requires Confined(pageSize, underrun, quarantine, mapped, cached, dead) && a !in mapped && size >= pageSize
    ensures Confined(pageSize, underrun, quarantine, mapped[a := size], cached, DeadOutside(dead, a, size))
    ensures Confined(pageSize, underrun, quarantine, mapped[a := size], cached,
                     DeadOutside(dead, a, size) + {GuardPageOf(pageSize, underrun, a, size)})
  {
    hide GuardPageOf, UserPageOf;
    var mapped' := mapped[a := size];
    forall d | d in DeadOutside(dead, a, size)
      ensures exists b :: PageOf(pageSize, underrun, quarantine, mapped', cached, b, d)
    {
      var b :| PageOf(pageSize, underrun, quarantine, mapped, cached, b, d);
      assert PageOf(pageSize, underrun, quarantine, mapped', cached, b, d);
    }
    assert PageOf(pageSize, underrun, quarantine, mapped', cached, a, GuardPageOf(pageSize, underrun, a, size));
  }

  lemma ConfinedUnmap(pageSize: nat, underrun: bool, quarantine: bool, mapped: map<Address, nat>, cached: seq<Address>,
                      cached': seq<Address>, dead: set<Address>, a: Address)
    requires pageSize > 0 && Confined(pageSize, underrun, quarantine, mapped, cached, dead) && a in mapped
    requires a in cached ==> mapped[a] >= 2 * pageSize
    requires forall c | c in cached && c != a :: c in cached'
    ensures Confined(pageSize, underrun, quarantine, mapped - {a}, cached', DeadOutside(dead, a, mapped[a]))
  {
    forall d | d in DeadOutside(dead, a, mapped[a])
      ensures exists b :: PageOf(pageSize, underrun, quarantine, mapped - {a}, cached', b, d)
    {
      var b :| PageOf(pageSize, underrun, quarantine, mapped, cached, b, d);
      assert PageOf(pageSize, underrun, quarantine, mapped - {a}, cached', b, d);
    }
  }

  lemma ConfinedOpen(pageSize: nat, underrun: bool, quarantine: bool, mapped: map<Address, nat>, cached: seq<Address>,
                     dead: set<Address>)
    requires Confined(pageSize, underrun, quarantine, mapped, cached, dead) && cached != []
    requires forall c | c in cached && c != cached[0] :: c in cached[1..]
    ensures Confined(pageSize, underrun, quarantine, mapped, cached[1..],
                     dead - {UserPageOf(pageSize, underrun, cached[0])})
    ensures !quarantine ==> Confined(pageSize, underrun, quarantine, mapped, cached[1..], dead)
  {
    hide GuardPageOf, UserPageOf;
    forall d | d in dead && (quarantine ==> d != UserPageOf(pageSize, underrun, cached[0]))
      ensures exists b :: PageOf(pageSize, underrun, quarantine, mapped, cached[1..], b, d)
    {
      var b :| PageOf(pageSize, underrun, quarantine, mapped, cached, b, d);
      assert PageOf(pageSize, underrun, quarantine, mapped, cached[1..], b, d);
    }
  }

  lemma ConfinedShut(pageSize: nat, underrun: bool, quarantine: bool, mapped: map<Address, nat>, cached: seq<Address>,
                     cached': seq<Address>, dead: set<Address>, a: Address)
    requires Confined(pageSize, underrun, quarantine, mapped, cached, dead) && a in mapped && mapped[a] >= pageSize
    requires forall c :: c in cached' <==> c in cached || c == a
    ensures Confined(pageSize, underrun, quarantine, mapped, cached', dead)
    ensures quarantine ==>
              Confined(pageSize, underrun, quarantine, mapped, cached', dead + {UserPageOf(pageSize, underrun, a)})
  {
    hide GuardPageOf, UserPageOf;
    forall d | d in dead
      ensures exists b :: PageOf(pageSize, underrun, quarantine, mapped, cached', b, d)
    {
      var b :| PageOf(pageSize, underrun, quarantine, mapped, cached, b, d);
      assert PageOf(pageSize, underrun, quarantine, mapped, cached', b, d);
    }
    assert quarantine ==> PageOf(pageSize, underrun, quarantine, mapped, cached', a, UserPageOf(pageSize, underrun, a));
  }

  /** A byte is on a dead page. */
  ghost predicate DeadByte(pageSize: nat, dead: set<Address>, x: Address) {
    exists d :: d in dead && d <= x < d + pageSize
  }

  /** In a block in use, no byte is dead but those of its guard page, which is the first page against
      underruns, and the last one against overruns. */
  lemma GuardOnly(pageSize: nat, underrun: bool, quarantine: bool, mapped: map<Address, nat>, cached: seq<Address>,
                  dead: set<Address>, a: Address, x: Address)
    requires pageSize > 0 && CachedApart(pageSize, mapped, cached)
    requires Confined(pageSize, underrun, quarantine, mapped, cached, dead)
    requires a in mapped && a !in cached && a <= x < a + mapped[a] && DeadByte(pageSize, dead, x)
    ensures if underrun then x < a + pageSize else a + mapped[a] <= x + pageSize
  {
    hide Distinct;
    var d :| d in dead && d <= x < d + pageSize;
    var b :| PageOf(pageSize, underrun, quarantine, mapped, cached, b, d);
  }

  /** The guard pages of all mapped blocks are dead, except where that has failed. */
  ghost predicate Guarded(pageSize: nat, underrun: bool, mapped: map<Address, nat>, dead: set<Address>,
                          unguarded: set<Address>) {
    && (forall a | a in mapped ::
          mapped[a] >= pageSize && (GuardPageOf(pageSize, underrun, a, mapped[a]) in dead || a in unguarded))
    && (forall a | a in unguarded :: a in mapped)
  }

  /** The user pages of two mapped blocks are different. */
  lemma UserPagesDiffer(pageSize: nat, underrun: bool, mapped: map<Address, nat>, a: Address, b: Address)
    requires pageSize > 0 && Apart(mapped) && a in mapped && b in mapped && a != b
    requires mapped[a] >= 2 * pageSize && mapped[b] >= 2 * pageSize
    ensures UserPageOf(pageSize, underrun, a) != UserPageOf(pageSize, underrun, b)
    ensures !(a <= UserPageOf(pageSize, underrun, b) < a + mapped[a])
  {
  }

  lemma Uncached(pageSize: nat, mapped: map<Address, nat>, cached: seq<Address>)
    requires CachedApart(pageSize, mapped, cached) && cached != []
    ensures CachedApart(pageSize, mapped, cached[1..]) && cached[0] in mapped && cached[0] !in cached[1..]
    ensures mapped[cached[0]] == 2 * pageSize
    ensures forall c | c in cached[1..] :: c in cached
    ensures forall c | c in cached && c != cached[0] :: c in cached[1..]
  {
    DistinctRest(cached);
    assert cached[0] in cached;
  }

  /** The first cached block comes into use, and its user page to life. */
  lemma UncachedProtected(pageSize: nat, underrun: bool, quarantine: bool, mapped: map<Address, nat>,
                          cached: seq<Address>,
                          dead: set<Address>, exposed: set<Address>)
    requires pageSize > 0 && CachedApart(pageSize, mapped, cached) && cached != []
    requires Protected(pageSize, underrun, quarantine, mapped, cached, dead, exposed)
    ensures Protected(pageSize, underrun, quarantine, mapped, cached[1..],
                      dead - {UserPageOf(pageSize, underrun, cached[0])}, exposed - {cached[0]})
    ensures !quarantine ==> Protected(pageSize, underrun, quarantine, mapped, cached[1..], dead, exposed)
  {
    hide Distinct, Apart, Confined;
    Uncached(pageSize, mapped, cached);
    ConfinedOpen(pageSize, underrun, quarantine, mapped, cached, dead);
    forall c | c in cached[1..]
      ensures UserPageOf(pageSize, underrun, c) != UserPageOf(pageSize, underrun, cached[0])
    {
      UserPagesDiffer(pageSize, underrun, mapped, c, cached[0]);
    }
  }

  lemma MapApart(mapped: map<Address, nat>, a: Address, size: nat)
    requires Apart(mapped) && Fits(mapped, a, size) && size > 0
    ensures a !in mapped && Apart(mapped[a := size])
  {
  }

  /** The pages of the new block are not those of another one. */
  lemma OtherPages(pageSize: nat, underrun: bool, mapped: map<Address, nat>, a: Address, size: nat, b: Address)
    requires pageSize > 0 && Fits(mapped, a, size) && size >= pageSize && b in mapped && mapped[b] >= 2 * pageSize
    ensures !(a <= UserPageOf(pageSize, underrun, b) < a + size)
    ensures UserPageOf(pageSize, underrun, b) != GuardPageOf(pageSize, underrun, a, size)
  {
  }

  /** A block that has just been mapped, with its guard page dead. */
  lemma MapKeeps(pageSize: nat, underrun: bool, quarantine: bool, mapped: map<Address, nat>, cached: seq<Address>,
                 dead: set<Address>, exposed: set<Address>, a: Address, size: nat)
    requires pageSize > 0 && CachedApart(pageSize, mapped, cached)
    requires Protected(pageSize, underrun, quarantine, mapped, cached, dead, exposed)
    requires Fits(mapped, a, size) && size >= pageSize
    ensures a !in mapped && a !in cached && CachedApart(pageSize, mapped[a := size], cached)
    ensures Protected(pageSize, underrun, quarantine, mapped[a := size], cached,
                      DeadOutside(dead, a, size) + {GuardPageOf(pageSize, underrun, a, size)}, exposed)
    ensures Protected(pageSize, underrun, quarantine, mapped[a := size], cached, DeadOutside(dead, a, size), exposed)
  {
    hide Distinct, Apart, Fits, UserPageOf, GuardPageOf, Confined;
    MapApart(mapped, a, size);
    ConfinedMap(pageSize, underrun, quarantine, mapped, cached, dead, a, size);
    OwnPages(pageSize, underrun, a, size);
    forall b | b in mapped && mapped[b] >= 2 * pageSize
      ensures !(a <= UserPageOf(pageSize, underrun, b) < a + size)
      ensures UserPageOf(pageSize, underrun, b) != GuardPageOf(pageSize, underrun, a, size)
    {
      OtherPages(pageSize, underrun, mapped, a, size, b);
    }
  }

  lemma OwnPages(pageSize: nat, underrun: bool, a: Address, size: nat)
    requires pageSize > 0 && size >= pageSize
    ensures size >= 2 * pageSize ==> a <= UserPageOf(pageSize, underrun, a) < a + size
    ensures size >= 2 * pageSize ==> UserPageOf(pageSize, underrun, a) != GuardPageOf(pageSize, underrun, a, size)
  {
  }

  /** A block that is not cached is unmapped. */
  lemma UnmapKeeps(pageSize: nat, underrun: bool, quarantine: bool, mapped: map<Address, nat>, cached: seq<Address>,
                   dead: set<Address>, exposed: set<Address>, a: Address)
    requires pageSize > 0 && CachedApart(pageSize, mapped, cached)
    requires Protected(pageSize, underrun, quarantine, mapped, cached, dead, exposed)
    requires a in mapped && a !in cached
    ensures CachedApart(pageSize, mapped - {a}, cached)
    ensures Protected(pageSize, underrun, quarantine, mapped - {a}, cached, DeadOutside(dead, a, mapped[a]),
              exposed - {a})
  {
    hide Distinct, Confined;
    ConfinedUnmap(pageSize, underrun, quarantine, mapped, cached, cached, dead, a);
  }

  /** The first cached block is unmapped. */
  lemma UnmapFirst(pageSize: nat, underrun: bool, mapped: map<Address, nat>, cached: seq<Address>, dead: set<Address>,
                   exposed: set<Address>)
    requires pageSize > 0 && CachedApart(pageSize, mapped, cached)
    requires Protected(pageSize, underrun, true, mapped, cached, dead, exposed)
    requires cached != []
    ensures var a := cached[0];
            && a in mapped && mapped[a] == 2 * pageSize && CachedApart(pageSize, mapped - {a}, cached[1..])
            && Protected(pageSize, underrun, true, mapped - {a}, cached[1..], DeadOutside(dead, a, mapped[a]),
                 exposed - {a})
  {
    hide Distinct, Apart, UserPageOf, Confined;
    var a := cached[0];
    Uncached(pageSize, mapped, cached);
    ConfinedUnmap(pageSize, underrun, true, mapped, cached, cached[1..], dead, a);
    LessApart(mapped, a);
    forall b | b in mapped && b != a && mapped[b] >= 2 * pageSize
      ensures !(a <= UserPageOf(pageSize, underrun, b) < a + mapped[a])
    {
      UserPagesDiffer(pageSize, underrun, mapped, a, b);
    }
  }

  /** The guard page of a block is in it, and is no user page. */
  lemma GuardPageIn(pageSize: nat, underrun: bool, mapped: map<Address, nat>, a: Address, b: Address)
    requires pageSize > 0 && Apart(mapped) && a in mapped && mapped[a] >= pageSize && b in mapped
    requires mapped[b] >= 2 * pageSize
    ensures a <= GuardPageOf(pageSize, underrun, a, mapped[a]) < a + mapped[a]
    ensures GuardPageOf(pageSize, underrun, a, mapped[a]) != UserPageOf(pageSize, underrun, b)
  {
  }

  /** A cached block comes back to life, and another one dies; guard pages are neither. */
  lemma GuardedUser(pageSize: nat, underrun: bool, mapped: map<Address, nat>, dead: set<Address>,
                    unguarded: set<Address>, b: Address)
    requires pageSize > 0 && Apart(mapped) && Guarded(pageSize, underrun, mapped, dead, unguarded)
    requires b in mapped && mapped[b] >= 2 * pageSize
    ensures Guarded(pageSize, underrun, mapped, dead - {UserPageOf(pageSize, underrun, b)}, unguarded)
    ensures Guarded(pageSize, underrun, mapped, dead + {UserPageOf(pageSize, underrun, b)}, unguarded)
  {
    hide Apart, GuardPageOf;
    forall a | a in mapped
      ensures GuardPageOf(pageSize, underrun, a, mapped[a]) != UserPageOf(pageSize, underrun, b)
    {
      GuardPageIn(pageSize, underrun, mapped, a, b);
    }
  }

  /** The guard pages of the blocks that stay are not in a block that goes. */
  lemma GuardedUnmap(pageSize: nat, underrun: bool, mapped: map<Address, nat>, dead: set<Address>,
                     unguarded: set<Address>, b: Address)
    requires pageSize > 0 && Apart(mapped) && Guarded(pageSize, underrun, mapped, dead, unguarded) && b in mapped
    ensures Guarded(pageSize, underrun, mapped - {b}, DeadOutside(dead, b, mapped[b]), unguarded - {b})
  {
  }

  /** A new block has its guard page dead, unless that fails; those of the others are not in it. */
  lemma GuardedMap(pageSize: nat, underrun: bool, mapped: map<Address, nat>, dead: set<Address>,
                   unguarded: set<Address>,
                   a: Address, size: nat)
    requires pageSize > 0 && Guarded(pageSize, underrun, mapped, dead, unguarded) && Fits(mapped, a, size)
    requires size >= pageSize
    requires a !in mapped
    ensures Guarded(pageSize, underrun, mapped[a := size],
                    DeadOutside(dead, a, size) + {GuardPageOf(pageSize, underrun, a, size)}, unguarded)
    ensures Guarded(pageSize, underrun, mapped[a := size], DeadOutside(dead, a, size), unguarded + {a})
  {
  }

  lemma LessApart(mapped: map<Address, nat>, a: Address)
    requires Apart(mapped)
    ensures Apart(mapped - {a})
  {
  }

  /** A block in use joins the cached ones; in quarantine its user page dies, unless that fails. */
  lemma CacheKeeps(pageSize: nat, underrun: bool, quarantine: bool, mapped: map<Address, nat>, cached: seq<Address>,
                   dead: set<Address>, exposed: set<Address>, a: Address)
    requires pageSize > 0 && CachedApart(pageSize, mapped, cached)
    requires Protected(pageSize, underrun, quarantine, mapped, cached, dead, exposed)
    requires a in mapped && a !in cached && mapped[a] == 2 * pageSize
    ensures CachedApart(pageSize, mapped, cached + [a]) && CachedApart(pageSize, mapped, [a] + cached)
    ensures quarantine ==>
              && Protected(pageSize, underrun, quarantine, mapped, cached + [a], dead +
                   {UserPageOf(pageSize, underrun, a)}, exposed)
              && Protected(pageSize, underrun, quarantine, mapped, cached + [a], dead, exposed + {a})
    ensures !quarantine ==> Protected(pageSize, underrun, quarantine, mapped, [a] + cached, dead, exposed)
  {
    hide Distinct, Apart, Confined;
    DistinctPush(cached, a);
    ConfinedShut(pageSize, underrun, quarantine, mapped, cached, cached + [a], dead, a);
    ConfinedShut(pageSize, underrun, quarantine, mapped, cached, [a] + cached, dead, a);
    forall c | c in mapped && c != a && mapped[c] >= 2 * pageSize
      ensures UserPageOf(pageSize, underrun, c) != UserPageOf(pageSize, underrun, a)
    {
      UserPagesDiffer(pageSize, underrun, mapped, c, a);
    }
  }

  ghost predicate OnlyCached(exposed: set<Address>, cached: seq<Address>) {
    forall a | a in exposed :: a in cached
  }

  lemma OnlyCachedRest(exposed: set<Address>, cached: seq<Address>)
    requires OnlyCached(exposed, cached) && cached != []
    ensures OnlyCached(exposed - {cached[0]}, cached[1..])
  {
  }

  lemma AllApart(pageSize: nat, mapped: map<Address, nat>, cached: seq<Address>)
    requires CachedApart(pageSize, mapped, cached)
    ensures Apart(mapped)
  {
  }

  /** Every tag names its block. */
  ghost predicate Tagged(tags: seq<Address>, rawAddr: map<Address, Address>, blocks: seq<Address>) {
    |tags| == |blocks| && forall i | 0 <= i < |tags| :: tags[i] in rawAddr && rawAddr[tags[i]] == blocks[i]
  }

  lemma TaggedAppend(tags: seq<Address>, rawAddr: map<Address, Address>, blocks: seq<Address>, tag: Address,
                     raw: Address)
    requires Tagged(tags, rawAddr, blocks) && tag !in tags
    ensures Tagged(tags + [tag], rawAddr[tag := raw], blocks + [raw])
  {
  }

  lemma TaggedFirst(tags: seq<Address>, rawAddr: map<Address, Address>, blocks: seq<Address>)
    requires Tagged(tags, rawAddr, blocks) && blocks != []
    ensures tags != [] && tags[0] in rawAddr && rawAddr[tags[0]] == blocks[0] && Tagged(tags[1..], rawAddr, blocks[1..])
  {
  }

  /** The blocks are the freed ones without the first `left`. */
  ghost predicate StillThere(blocks: seq<Address>, freed: seq<Address>, left: nat) {
    left <= |freed| && blocks == freed[left..]
  }

  lemma StillThereAppend(blocks: seq<Address>, freed: seq<Address>, left: nat, raw: Address)
    requires StillThere(blocks, freed, left)
    ensures StillThere(blocks + [raw], freed + [raw], left)
  {
  }

  lemma StillThereFirst(blocks: seq<Address>, freed: seq<Address>, left: nat)
    requires StillThere(blocks, freed, left) && blocks != []
    ensures left < |freed| && blocks[0] == freed[left] && StillThere(blocks[1..], freed, left + 1)
  {
  }

  datatype Fetched = NullDereference | OutOfMemory | Pages(raw: Address)

  class PageCache {
    const pageSize: nat
    const maxCached: nat
    /** Freed blocks are kept dead, so that accesses to them are caught. */
    const checkFreed: bool
    /** The guard page comes first. */
    const underrun: bool
    const pool: TagPool
    /** The queue of freed blocks: its ends, and the block of every tag. */
    var tagHead: Address
    var tagTail: Address
    var rawAddr: map<Address, Address>
    /** The stack of freed blocks: its top, and what the headers in the blocks say. */
    var cacheHead: Address
    var nextHeader: map<Address, Address>
    var rawBlock: map<Address, Address>
    var blocksInCache: nat
    /** All mapped blocks, the cached ones among them, the tags of the queue, and the pages that are dead. */
    ghost var mapped: map<Address, nat>
    ghost var cached: seq<Address>
    ghost var tags: seq<Address>
    ghost var dead: set<Address>
    /** The cached blocks whose user page, and the mapped blocks whose guard page, could not be made dead. */
    ghost var exposed: set<Address>
    ghost var unguarded: set<Address>
    /** All blocks that have been put into the queue, and how many of them have left it. */
    ghost var freed: seq<Address>
    ghost var left: nat

    function UserPage(raw: Address): Address {
      UserPageOf(pageSize, underrun, raw)
    }

    /** The queue holds the cached blocks, in the order in which they have been freed. */
    ghost predicate Queued()
      reads this`tagHead, this`tagTail, this`tags, this`rawAddr, this`cached, this`freed, this`left, pool
    {
      && pool.Valid() && Threaded(tagHead, pool.next, tags) && Distinct(tags)
      && tagTail == (if tags == [] then NULL else tags[|tags| - 1])
      && (forall a | a in tags :: a !in pool.free)
      && Tagged(tags, rawAddr, cached) && StillThere(cached, freed, left)
    }

    ghost function Headers(blocks: seq<Address>): (headers: seq<Address>)
      ensures |headers| == |blocks| && forall i | 0 <= i < |blocks| :: headers[i] == UserPage(blocks[i])
    {
      seq<Address>(|blocks|, i requires 0 <= i < |blocks| => UserPage(blocks[i]))
    }

    /** The stack holds the cached blocks, the last freed one first. */
    ghost predicate Stacked()
      reads this`cacheHead, this`nextHeader, this`rawBlock, this`cached
    {
      && Threaded(cacheHead, nextHeader, Headers(cached))
      && (forall c | c in cached :: UserPage(c) in rawBlock && rawBlock[UserPage(c)] == c)
    }

    ghost predicate Valid()
      reads this, pool
    {
      && pageSize > 0 && blocksInCache == |cached| <= maxCached
      && CachedApart(pageSize, mapped, cached)
           && Protected(pageSize, underrun, checkFreed, mapped, cached, dead, exposed)
      && Guarded(pageSize, underrun, mapped, dead, unguarded) && OnlyCached(exposed, cached)
           && (checkFreed || exposed == {})
      && (if checkFreed then Queued() && cacheHead == NULL else Stacked())
    }

    constructor (pageSize: nat, maxCached: nat, checkFreed: bool, underrun: bool)
      requires pageSize > 0
      ensures Valid() && fresh(pool) && mapped == map[] && cached == [] && freed == [] && left == 0
      ensures this.pageSize == pageSize && this.maxCached == maxCached
      ensures this.checkFreed == checkFreed && this.underrun == underrun
      ensures exposed == {} && unguarded == {} && dead == {} && pool.next == map[] && pool.free == []
    {
      this.pageSize, this.maxCached, this.checkFreed, this.underrun := pageSize, maxCached, checkFreed, underrun;
      pool := new TagPool();
      tagHead, tagTail, rawAddr, cacheHead, nextHeader, rawBlock, blocksInCache :=
        NULL, NULL, map[], NULL, map[], map[], 0;
      mapped, cached, tags, dead, exposed, unguarded, freed, left := map[], [], [], {}, {}, {}, [], 0;
    }

    /** Takes the oldest block out of the queue. */
    method Dequeue() returns (raw: Address)
      requires Queued() && cached != []
      modifies this`tagHead, this`tagTail, this`tags, this`cached, this`left, pool
      ensures Queued() && raw == old(cached)[0] == freed[old(left)] && cached == old(cached)[1..]
      ensures left == old(left) + 1
      ensures pool.next.Keys == old(pool.next).Keys
    {
      hide Threaded, Distinct, At, Tagged, StillThere, TagPool.Valid;
      TaggedFirst(tags, rawAddr, cached);
      StillThereFirst(cached, freed, left);
      ThreadedHead(tagHead, pool.next, tags);
      DistinctRest(tags);
      var tag := tagHead;
      raw := rawAddr[tag];
      var rest := pool.next[tag];
      ThreadedHead(rest, pool.next, tags[1..]);
      if tagHead == tagTail {
        LastIsFirst(tags);
        tagHead, tagTail := NULL, NULL;
      } else {
        tagHead := rest;
      }
      ghost var before := pool.next;
      pool.ReleaseFreeBlockTag(tag);
      ThreadedKept(rest, before, pool.next, tags[1..]);
      tags, cached, left := tags[1..], cached[1..], left + 1;
    }

    /** Puts a block at the end of the queue. Without memory for a tag nothing happens. */
    method Enqueue(raw: Address, buffer: Address) returns (ok: bool)
      requires Queued() && forall a | a in pool.next :: !(buffer <= a < buffer + TAG_BUFFER)
      modifies this`tagHead, this`tagTail, this`tags, this`cached, this`freed, this`rawAddr, pool
      ensures Queued() && (ok <==> !(old(pool.free) == [] && buffer == NULL))
      ensures if ok then cached == old(cached) + [raw] && freed == old(freed) + [raw]
              else cached == old(cached) && freed == old(freed)
      ensures forall a | a in pool.next :: a in old(pool.next) || buffer <= a < buffer + TAG_BUFFER
    {
      hide Threaded, Distinct, At, Tagged, StillThere, TagPool.Valid;
      ghost var before := pool.next;
      InNext(tagHead, pool.next, tags);
      var tag := pool.GetFreeBlockTag(buffer);
      ThreadedKept(tagHead, before, pool.next, tags);
      ok := tag != NULL;
      if ok {
        AppendTag(tag, raw);
      }
    }

    /** Links the tag of a block behind the last one. */
    method AppendTag(tag: Address, raw: Address)
      requires Queued() && tag > 0 && tag in pool.next && tag !in pool.free && tag !in tags
      modifies this`tagHead, this`tagTail, this`tags, this`cached, this`freed, this`rawAddr, pool`next
      ensures Queued() && cached == old(cached) + [raw] && freed == old(freed) + [raw]
      ensures forall a | a in pool.next :: a in old(pool.next)
    {
      hide Threaded, Distinct, At, Tagged, StillThere, TagPool.Valid;
      InNext(tagHead, pool.next, tags);
      DistinctPush(tags, tag);
      TaggedAppend(tags, rawAddr, cached, tag, raw);
      StillThereAppend(cached, freed, left, raw);
      rawAddr := rawAddr[tag := raw];
      pool.LinkLast(tag, tagTail, tagHead, tags);
      tagTail := tag;
      if tagHead == NULL {
        tagHead := tag;
      }
      tags, cached, freed := tags + [tag], cached + [raw], freed + [raw];
    }

    /** A block of two pages: one for the user, one for the guard. */
    predicate IsPair(size: nat) {
      size / 2 == pageSize
    }

    /** Takes the last freed block off the stack. */
    method Pop() returns (raw: Address)
      requires Stacked() && cached != []
      modifies this`cacheHead, this`cached
      ensures Stacked() && raw == old(cached)[0] && cached == old(cached)[1..]
    {
      hide Threaded;
      ThreadedHead(cacheHead, nextHeader, Headers(cached));
      assert cached[0] in cached;
      raw := rawBlock[cacheHead];
      cacheHead := nextHeader[cacheHead];
      assert Headers(cached)[1..] == Headers(cached[1..]);
      cached := cached[1..];
    }

    /** Puts a block on the stack; its header is at the beginning of the user page. */
    method Push(raw: Address)
      requires Stacked() && raw > 0 && raw !in cached
      modifies this`cacheHead, this`cached, this`nextHeader, this`rawBlock
      ensures Stacked() && cached == [raw] + old(cached)
    {
      hide Threaded;
      var header := UserPage(raw);
      assert header !in Headers(cached);
      ThreadedPush(cacheHead, nextHeader, Headers(cached), header);
      assert [header] + Headers(cached) == Headers([raw] + cached);
      rawBlock := rawBlock[header := raw];
      nextHeader := nextHeader[header := cacheHead];
      cacheHead := header;
      cached := [raw] + cached;
    }

    /** Gets the pages of a block, from the cache when it is a pair. `region` is what the system would
        map, NULL when it has no memory; `live` is whether a page can be made accessible again, and `guard`
        whether one can be made inaccessible. Only with a cache of no blocks does this go wrong: it then
        looks for the oldest of no blocks. */
    method GetPages(size: nat, region: Address, live: bool, guard: bool) returns (r: Fetched)
      requires Valid() && size >= pageSize && (IsPair(size) ==> size == 2 * pageSize)
      requires region != NULL ==> Fits(mapped, region, size)
      modifies this, pool
      ensures r.NullDereference? <==> checkFreed && IsPair(size) && maxCached == 0
      ensures !r.NullDereference? ==> Valid()
      ensures freed == old(freed) && old(left) <= left <= old(left) + 1
      ensures r.Pages? ==> r.raw !in cached && r.raw in mapped && (r.raw in old(mapped) ==> r.raw in old(cached))
      ensures mapped == if r.Pages? && r.raw !in old(mapped) then old(mapped)[r.raw := size] else old(mapped)
      ensures left > old(left) <==>
                checkFreed && IsPair(size) && maxCached > 0 && old(blocksInCache) >= maxCached && live
      ensures left > old(left) ==> left <= |freed| && r == Pages(freed[old(left)]) && |freed| - left >= maxCached - 1
      ensures left > old(left) ==> old(cached) != [] && cached == old(cached)[1..]
      ensures !checkFreed && IsPair(size) && old(cached) != [] ==>
                r == Pages(old(cached)[0]) && cached == old(cached)[1..]
      ensures left == old(left) && (checkFreed || !IsPair(size) || old(cached) == []) && !r.NullDereference? ==>
                cached == old(cached) && r == if region == NULL then OutOfMemory else Pages(region)
      ensures exposed == if left > old(left) then old(exposed) - {freed[old(left)]} else old(exposed)
      ensures unguarded == if r.Pages? && r.raw !in old(mapped) && !guard
                then old(unguarded) + {r.raw} else old(unguarded)
      ensures r.Pages? ==> mapped[r.raw] == size && (r.raw in old(mapped) || r.raw == region)
      ensures forall c | c in cached :: c in old(cached)
      ensures r.Pages? ==>
                forall x | r.raw <= x < r.raw + size && DeadByte(pageSize, dead, x) ::
                  if underrun then x < r.raw + pageSize else r.raw + size - pageSize <= x
      ensures r.Pages? && r.raw !in unguarded ==>
                forall x | if underrun then r.raw <= x < r.raw + pageSize
                           else r.raw + size - pageSize <= x < r.raw + size ::
                  DeadByte(pageSize, dead, x)
      ensures pool.next.Keys == old(pool.next).Keys
    {
      hide Queued, Stacked, Distinct, Apart, Fits, CachedApart, Protected, Guarded;
      Counts();
      if IsPair(size) {
        if checkFreed && blocksInCache >= maxCached {
          if tagHead == NULL {
            return NullDereference;
          }
          if live {
            var raw := Reuse();
            InUse(raw);
            return Pages(raw);
          }
        } else if cacheHead != NULL {
          var raw := Restack();
          InUse(raw);
          return Pages(raw);
        }
      }
      if region == NULL {
        return OutOfMemory;
      }
      Map(region, size, guard);
      InUse(region);
      r := Pages(region);
    }

    /** A block in use has one dead page, unless making it dead has failed: the first one against underruns,
        and the last one against overruns. All its other bytes are live. */
    lemma InUse(raw: Address)
      requires Valid() && raw in mapped && raw !in cached
      ensures mapped[raw] >= pageSize
      ensures forall x | raw <= x < raw + mapped[raw] && DeadByte(pageSize, dead, x) ::
                if underrun then x < raw + pageSize else raw + mapped[raw] - pageSize <= x
      ensures raw !in unguarded ==>
                forall x | if underrun then raw <= x < raw + pageSize
                           else raw + mapped[raw] - pageSize <= x < raw + mapped[raw] ::
                  DeadByte(pageSize, dead, x)
    {
      hide Queued, Stacked, CachedApart, Confined;
      forall x | raw <= x < raw + mapped[raw] && DeadByte(pageSize, dead, x)
        ensures if underrun then x < raw + pageSize else raw + mapped[raw] - pageSize <= x
      {
        GuardOnly(pageSize, underrun, checkFreed, mapped, cached, dead, raw, x);
      }
    }

    /** Where making pages inaccessible has never failed, every byte of a quarantined block is dead. */
    lemma DeadPages(c: Address, x: Address)
      requires Valid() && checkFreed && exposed == {} && unguarded == {}
      requires c in cached && c <= x < c + 2 * pageSize
      ensures DeadByte(pageSize, dead, x)
    {
      hide Queued, Stacked, Confined;
      assert UserPage(c) in dead && GuardPageOf(pageSize, underrun, c, mapped[c]) in dead;
    }

    /** The cache is empty where its lists are. */
    lemma Counts()
      requires Valid()
      ensures cacheHead != NULL ==> !checkFreed && cached != []
      ensures checkFreed ==> |freed| - left == |cached| && (tagHead == NULL <==> cached == [])
      ensures !checkFreed ==> (cacheHead == NULL <==> cached == [])
    {
    }

    /** The oldest freed block comes into use again. */
    method Reuse() returns (raw: Address)
      requires Valid() && checkFreed && cached != [] && blocksInCache >= maxCached
      modifies this, pool
      ensures Valid() && mapped == old(mapped) && freed == old(freed) && left == old(left) + 1
      ensures raw == old(cached)[0] == freed[old(left)] && cached == old(cached)[1..] && raw in mapped
      ensures mapped[raw] == 2 * pageSize && raw !in cached
      ensures left <= |freed| && |freed| - left >= maxCached - 1
      ensures exposed == old(exposed) - {raw} && unguarded == old(unguarded)
      ensures pool.next.Keys == old(pool.next).Keys
    {
      hide Queued, Stacked, Distinct, Apart, CachedApart, Protected, Guarded, OnlyCached, UserPageOf;
      ghost var was := cached;
      raw := Dequeue();
      assert was == [raw] + cached;
      blocksInCache := blocksInCache - 1;
      Opened(raw);
      Counted();
    }

    /** A block that has left the queue comes to life. */
    ghost method Opened(raw: Address)
      requires pageSize > 0 && checkFreed && cacheHead == NULL && Queued() && blocksInCache == |cached| <= maxCached
      requires CachedApart(pageSize, mapped, [raw] + cached)
      requires Protected(pageSize, underrun, true, mapped, [raw] + cached, dead, exposed)
      requires Guarded(pageSize, underrun, mapped, dead, unguarded) && OnlyCached(exposed, [raw] + cached)
      modifies this`dead, this`exposed
      ensures Valid() && raw in mapped && mapped[raw] == 2 * pageSize && raw !in cached
      ensures exposed == old(exposed) - {raw}
    {
      hide Queued, Stacked, Distinct, Apart, CachedApart, Protected, Guarded, OnlyCached, UserPageOf;
      ghost var was := [raw] + cached;
      assert was[0] == raw && was[1..] == cached;
      Uncached(pageSize, mapped, was);
      UncachedProtected(pageSize, underrun, true, mapped, was, dead, exposed);
      AllApart(pageSize, mapped, was);
      GuardedUser(pageSize, underrun, mapped, dead, unguarded, raw);
      OnlyCachedRest(exposed, was);
      dead := dead - {UserPage(raw)};
      exposed := exposed - {raw};
    }

    lemma Counted()
      requires Queued()
      ensures |freed| - left == |cached|
    {
    }

    /** The last freed block comes into use again. */
    method Restack() returns (raw: Address)
      requires Valid() && !checkFreed && cached != []
      modifies this
      ensures Valid() && mapped == old(mapped) && freed == old(freed) && left == old(left)
      ensures raw == old(cached)[0] && cached == old(cached)[1..] && raw in mapped
      ensures mapped[raw] == 2 * pageSize && raw !in cached
      ensures exposed == old(exposed) && unguarded == old(unguarded)
    {
      hide Queued, Stacked, Distinct, Apart, CachedApart, Protected, Guarded, UserPageOf;
      Uncached(pageSize, mapped, cached);
      UncachedProtected(pageSize, underrun, checkFreed, mapped, cached, dead, exposed);
      raw := Pop();
      blocksInCache := blocksInCache - 1;
    }

    /** The system maps a block, and its guard page is made dead, if that can be done. */
    ghost method Map(region: Address, size: nat, guard: bool)
      requires Valid() && Fits(mapped, region, size) && size >= pageSize
      modifies this`mapped, this`dead, this`unguarded
      ensures Valid() && mapped == old(mapped)[region := size] && region !in cached && region !in old(mapped)
      ensures unguarded == if guard then old(unguarded) else old(unguarded) + {region}
    {
      hide Queued, Stacked, Distinct, Apart, CachedApart, Protected, Guarded, Fits;
      MapKeeps(pageSize, underrun, checkFreed, mapped, cached, dead, exposed, region, size);
      GuardedMap(pageSize, underrun, mapped, dead, unguarded, region, size);
      mapped := mapped[region := size];
      dead := DeadOutside(dead, region, size);
      if guard {
        dead := dead + {GuardPageOf(pageSize, underrun, region, size)};
      } else {
        unguarded := unguarded + {region};
      }
    }

    /** Gives a block back. `buffer` is where memory for tags would be had, and `protect` whether the user
        page can be made inaccessible. A pair stays in the cache; when that is then too full, the
        oldest block leaves it. Returns the block that is unmapped, NULL when none is. */
    method ReleasePages(raw: Address, size: nat, buffer: Address, protect: bool) returns (unmapped: Address)
      requires Valid() && raw in mapped && raw !in cached && mapped[raw] == size
      requires IsPair(size) ==> size == 2 * pageSize
      requires forall a | a in pool.next :: !(buffer <= a < buffer + TAG_BUFFER)
      modifies this, pool
      ensures Valid()
      ensures mapped == if unmapped == NULL then old(mapped) else old(mapped) - {unmapped}
      ensures !IsPair(size) ==> unmapped == raw && cached == old(cached) && freed == old(freed) && left == old(left)
      ensures IsPair(size) && !checkFreed ==>
                if old(blocksInCache) < maxCached then unmapped == NULL && cached == [raw] + old(cached)
                else unmapped == raw && cached == old(cached)
      ensures IsPair(size) && checkFreed && freed == old(freed) ==>
                unmapped == raw && old(pool.free) == [] && buffer == NULL
      ensures IsPair(size) && checkFreed && freed != old(freed) ==>
                && freed == old(freed) + [raw]
                && (if old(blocksInCache) < maxCached then unmapped == NULL && left == old(left)
                    else
                      && left == old(left) + 1 <= |freed| && unmapped == freed[old(left)]
                      && |freed| - left == maxCached)
      ensures exposed == old(exposed) + (if freed != old(freed) && !protect then {raw} else {}) - {unmapped}
      ensures unguarded == old(unguarded) - {unmapped}
      ensures forall a | a in pool.next :: a in old(pool.next) || buffer <= a < buffer + TAG_BUFFER
    {
      hide Queued, Stacked, Distinct, Apart, CachedApart, Protected, Guarded, UserPageOf, GuardPageOf;
      Counts();
      NoNull();
      if IsPair(size) && checkFreed {
        unmapped := Quarantine(raw, buffer, protect);
      } else if IsPair(size) && blocksInCache < maxCached {
        CacheKeeps(pageSize, underrun, checkFreed, mapped, cached, dead, exposed, raw);
        Positive(pageSize, mapped, cached, raw);
        Push(raw);
        blocksInCache := blocksInCache + 1;
        unmapped := NULL;
      } else {
        Positive(pageSize, mapped, cached, raw);
        unmapped := raw;
        Unmap(raw);
      }
    }

    /** NULL is no block. */
    lemma NoNull()
      requires Valid()
      ensures NULL !in mapped && NULL !in exposed && NULL !in unguarded
    {
    }

    lemma Positive(pageSize: nat, mapped: map<Address, nat>, cached: seq<Address>, a: Address)
      requires CachedApart(pageSize, mapped, cached) && a in mapped
      ensures a > 0
    {
    }

    /** The system unmaps a block. */
    ghost method Unmap(raw: Address)
      requires Valid() && raw in mapped && raw !in cached
      modifies this`mapped, this`dead, this`exposed, this`unguarded
      ensures Valid() && mapped == old(mapped) - {raw}
      ensures exposed == old(exposed) - {raw} && unguarded == old(unguarded) - {raw}
    {
      hide Queued, Stacked, Distinct, Apart, CachedApart, Protected, Guarded, UserPageOf, GuardPageOf;
      AllApart(pageSize, mapped, cached);
      UnmapKeeps(pageSize, underrun, checkFreed, mapped, cached, dead, exposed, raw);
      GuardedUnmap(pageSize, underrun, mapped, dead, unguarded, raw);
      unguarded := unguarded - {raw};
      dead := DeadOutside(dead, raw, mapped[raw]);
      exposed := exposed - {raw};
      mapped := mapped - {raw};
    }

    /** Puts a pair into the queue, and takes the oldest one out when there are too many. */
    method Quarantine(raw: Address, buffer: Address, protect: bool) returns (oldest: Address)
      requires Valid() && checkFreed && raw in mapped && raw !in cached && mapped[raw] == 2 * pageSize
      requires forall a | a in pool.next :: !(buffer <= a < buffer + TAG_BUFFER)
      modifies this, pool
      ensures Valid() && mapped == if oldest == NULL then old(mapped) else old(mapped) - {oldest}
      ensures freed == old(freed) ==> oldest == raw && old(pool.free) == [] && buffer == NULL && left == old(left)
      ensures freed != old(freed) ==>
                && freed == old(freed) + [raw]
                && (if old(blocksInCache) < maxCached then oldest == NULL && left == old(left)
                    else left == old(left) + 1 <= |freed| && oldest == freed[old(left)] && |freed| - left == maxCached)
      ensures exposed == old(exposed) + (if freed != old(freed) && !protect then {raw} else {}) - {oldest}
      ensures unguarded == old(unguarded) - {oldest}
      ensures forall a | a in pool.next :: a in old(pool.next) || buffer <= a < buffer + TAG_BUFFER
    {
      hide Queued, Stacked, Distinct, Apart, CachedApart, Protected, Guarded, UserPageOf, GuardPageOf, OnlyCached;
      NoNull();
      ghost var was := cached;
      var ok := Enqueue(raw, buffer);
      if !ok {
        Unmap(raw);
        return raw;
      }
      Shut(raw, protect, was);
      blocksInCache := blocksInCache + 1;
      oldest := NULL;
      if blocksInCache > maxCached {
        oldest := Oldest();
      }
      Counted();
    }

    /** The user page of a block that has joined the queue dies, if that can be done. */
    ghost method Shut(raw: Address, protect: bool, was: seq<Address>)
      requires pageSize > 0 && checkFreed && CachedApart(pageSize, mapped, was)
      requires Protected(pageSize, underrun, true, mapped, was, dead, exposed)
      requires Guarded(pageSize, underrun, mapped, dead, unguarded) && OnlyCached(exposed, was)
      requires cached == was + [raw] && raw in mapped && mapped[raw] == 2 * pageSize && raw !in was
      modifies this`dead, this`exposed
      ensures CachedApart(pageSize, mapped, cached)
      ensures Protected(pageSize, underrun, true, mapped, cached, dead, exposed)
      ensures Guarded(pageSize, underrun, mapped, dead, unguarded) && OnlyCached(exposed, cached)
      ensures exposed == old(exposed) + (if protect then {} else {raw})
    {
      hide Distinct, Apart, CachedApart, Protected, Guarded, UserPageOf, GuardPageOf;
      CacheKeeps(pageSize, underrun, true, mapped, was, dead, exposed, raw);
      AllApart(pageSize, mapped, was);
      GuardedUser(pageSize, underrun, mapped, dead, unguarded, raw);
      if protect {
        dead := dead + {UserPage(raw)};
      } else {
        exposed := exposed + {raw};
      }
    }

    /** The oldest block leaves the queue and is unmapped. */
    method Oldest() returns (raw: Address)
      requires pageSize > 0 && checkFreed && cacheHead == NULL && Queued() && blocksInCache == |cached| == maxCached + 1
      requires CachedApart(pageSize, mapped, cached)
      requires Protected(pageSize, underrun, checkFreed, mapped, cached, dead, exposed)
      requires Guarded(pageSize, underrun, mapped, dead, unguarded) && OnlyCached(exposed, cached)
      modifies this, pool
      ensures exposed == old(exposed) - {raw} && unguarded == old(unguarded) - {raw}
      ensures pool.next.Keys == old(pool.next).Keys
      ensures Valid() && raw > 0 && freed == old(freed) && left == old(left) + 1 <= |freed|
      ensures |freed| - left == maxCached
      ensures raw == old(cached)[0] == freed[old(left)] && mapped == old(mapped) - {raw}
    {
      hide Queued, Stacked, Distinct, Apart, CachedApart;
      hide Protected, Guarded, UserPageOf, GuardPageOf, DeadOutside, OnlyCached;
      ghost var was := cached;
      raw := Dequeue();
      assert was == [raw] + cached;
      blocksInCache := blocksInCache - 1;
      Dropped(raw);
      Counted();
    }

    /** A block that has left the queue is unmapped. */
    ghost method Dropped(raw: Address)
      requires pageSize > 0 && checkFreed && cacheHead == NULL && Queued() && blocksInCache == |cached| <= maxCached
      requires CachedApart(pageSize, mapped, [raw] + cached)
      requires Protected(pageSize, underrun, true, mapped, [raw] + cached, dead, exposed)
      requires Guarded(pageSize, underrun, mapped, dead, unguarded) && OnlyCached(exposed, [raw] + cached)
      modifies this`mapped, this`dead, this`exposed, this`unguarded
      ensures Valid() && raw > 0 && mapped == old(mapped) - {raw}
      ensures exposed == old(exposed) - {raw} && unguarded == old(unguarded) - {raw}
    {
      hide Queued, Stacked, Distinct, Apart, CachedApart;
      hide Protected, Guarded, UserPageOf, GuardPageOf, DeadOutside, OnlyCached;
      ghost var was := [raw] + cached;
      assert was[0] == raw && was[1..] == cached;
      UnmapFirst(pageSize, underrun, mapped, was, dead, exposed);
      AllApart(pageSize, mapped, was);
      GuardedUnmap(pageSize, underrun, mapped, dead, unguarded, raw);
      OnlyCachedRest(exposed, was);
      Positive(pageSize, mapped, was, raw);
      dead := DeadOutside(dead, raw, mapped[raw]);
      exposed, unguarded := exposed - {raw}, unguarded - {raw};
      mapped := mapped - {raw};
    }
  }

  /** With freed pages checked and none to be kept, asking for two pages reads through a null pointer. */
  method NullRead() returns (r: Fetched)
    ensures r == NullDereference
  {
    var cache := new PageCache(4096, 0, true, false);
    r := cache.GetPages(8192, 65536, true, true);
  }

  /** A block of two pages that is freed: all of it is dead afterwards. */
  method FreedPageDies() returns (cache: PageCache)
    ensures fresh(cache) && cache.Valid() && cache.cached == [65536]
    ensures forall x | 65536 <= x < 73728 :: DeadByte(4096, cache.dead, x)
  {
    cache := new PageCache(4096, 2, true, false);
    var r := cache.GetPages(8192, 65536, true, true);
    var unmapped := cache.ReleasePages(65536, 8192, 1048576, true);
    assert 65536 in cache.freed;
    cache.Counts();
    forall x | 65536 <= x < 73728
      ensures DeadByte(4096, cache.dead, x)
    {
      cache.DeadPages(65536, x);
    }
  }

  /** Three pages at 65536: against overruns the last one is dead, against underruns the first one. */
  method ThreePages(underrun: bool) returns (cache: PageCache, r: Fetched)
    ensures fresh(cache) && cache.Valid() && r == Pages(65536)
    ensures !underrun ==> forall x | 65536 <= x < 77824 :: DeadByte(4096, cache.dead, x) <==> 73728 <= x
    ensures underrun ==> forall x | 65536 <= x < 77824 :: DeadByte(4096, cache.dead, x) <==> x < 69632
  {
    cache := new PageCache(4096, 2, true, underrun);
    r := cache.GetPages(12288, 65536, true, true);
  }

  lemma LastIsFirst(list: seq<Address>)
    requires Distinct(list) && list != []
    ensures list[0] == list[|list| - 1] <==> |list| == 1
  {
  }
}
