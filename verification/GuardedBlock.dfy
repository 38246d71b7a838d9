/** Blocks with a guard page as a whole: the pages come from the cache, and the block is laid out in them. */
module GuardedBlock {
  import opened Lists
  import opened SysAlloc
  import opened MallocDeadPage

  /** The cache and the blocks agree: every block in use has its pages, which are in no one else's use. */
  ghost predicate Together(cache: PageCache, pages: DeadPages)
    reads cache, pages
  {
    && cache.pageSize == pages.cfg.pageSize && cache.underrun == pages.cfg.underrun && pages.cfg.Good()
    && (forall a | a in cache.mapped :: Divides(cache.pageSize, a))
    && (forall u | u in pages.live :: Housed(pages.cfg, pages.live[u], cache.mapped, cache.cached))
  }

  /** The block has its pages, and a header outside of it is outside of all pages. */
  ghost predicate Housed(cfg: Setting, b: Block, mapped: map<Address, nat>, cached: seq<Address>)
    requires cfg.Good()
  {
    var l := LayoutOf(cfg, b.size);
    && b.raw in mapped && b.raw !in cached && mapped[b.raw] == l.realSize
    && (!l.embedded ==> forall a | a in mapped :: !(a <= b.header < a + mapped[a]))
  }

  /** The sizes that are asked for are whole pages, one or two of them exactly. */
  lemma WholePages(cfg: Setting, size: nat)
    requires cfg.Good()
    ensures var n := LayoutOf(cfg, size).realSize;
            n >= cfg.pageSize && Divides(cfg.pageSize, n) && (n / 2 == cfg.pageSize ==> n == 2 * cfg.pageSize)
  {
    hide Divides, LayoutOf;
    var n, p := LayoutOf(cfg, size).realSize, cfg.pageSize;
    if cfg.underrun {
      UnderrunLayout(cfg, size);
    } else {
      OverrunLayout(cfg, size);
    }
    if n / 2 == p {
      DividesItself(p);
      DividesPlus(p, p, p);
      MultipleUnique(p, n, 2 * p);
    }
  }

  /** What the block at `raw` has to keep clear of. */
  lemma NewBlockClear(cache: PageCache, pages: DeadPages, u: Address, raw: Address, size: nat)
    requires cache.Valid() && pages.Valid() && Together(cache, pages) && u in pages.live
    requires raw in cache.mapped && cache.mapped[raw] == size && pages.live[u].raw != raw
    ensures var b := pages.live[u];
            pages.Beyond(b, raw, raw + size) && !(raw <= b.header < raw + size)
  {
    hide LayoutOf, Divides;
    hide PageCache.Queued, PageCache.Stacked, Protected, Guarded;
    assert Housed(pages.cfg, pages.live[u], cache.mapped, cache.cached);
    if LayoutOf(pages.cfg, pages.live[u].size).embedded {
      pages.HeaderClear(u);
    }
  }

  /** A block keeps its pages when others are fetched. */
  lemma StillHoused(cfg: Setting, b: Block, mapped: map<Address, nat>, cached: seq<Address>, mapped': map<Address, nat>,
                    cached': seq<Address>, raw: Address, size: nat)
    requires cfg.Good() && Housed(cfg, b, mapped, cached) && forall c | c in cached' :: c in cached
    requires mapped' == mapped || (mapped' == mapped[raw := size] && raw !in mapped && !(raw <= b.header < raw + size))
    ensures Housed(cfg, b, mapped', cached')
  {
    hide LayoutOf;
  }

  /** Gets the pages of a block, apart from those of all other blocks in use. */
  method Fetch(cache: PageCache, ghost pages: DeadPages, size: nat, region: Address, live: bool, guard: bool)
    returns (r: Fetched)
    requires cache.Valid() && pages.cfg.Good() && Together(cache, pages)
    requires size >= cache.pageSize && (size / 2 == cache.pageSize ==> size == 2 * cache.pageSize)
    requires region != NULL ==>
               && Fits(cache.mapped, region, size) && Divides(cache.pageSize, region)
               && forall u | u in pages.live :: !(region <= pages.live[u].header < region + size)
    modifies cache, cache.pool
    ensures r.NullDereference? <==> cache.checkFreed && size / 2 == cache.pageSize && cache.maxCached == 0
    ensures !r.NullDereference? ==> cache.Valid() && Together(cache, pages)
    ensures r.Pages? ==>
              && r.raw in cache.mapped && r.raw !in cache.cached && cache.mapped[r.raw] == size
              && Divides(cache.pageSize, r.raw) && r.raw != NULL
              && forall u | u in pages.live :: pages.live[u].raw != r.raw
    ensures || cache.mapped == old(cache.mapped)
            || (r.Pages? && r.raw == region && cache.mapped == old(cache.mapped)[region := size])
  {
    hide PageCache.Queued, PageCache.Stacked, Protected, Guarded, CachedApart, Divides, DeadByte, LayoutOf, Housed;
    r := cache.GetPages(size, region, live, guard);
    if r.NullDereference? {
      return;
    }
    Fetches(cache);
    forall u | u in pages.live
      ensures Housed(pages.cfg, pages.live[u], cache.mapped, cache.cached)
      ensures r.Pages? ==> pages.live[u].raw != r.raw
    {
      InNoOthersUse(pages.cfg, pages.live[u], old(cache.mapped), old(cache.cached));
      StillHoused(pages.cfg, pages.live[u], old(cache.mapped), old(cache.cached),
                  cache.mapped, cache.cached, region, size);
    }
  }

  lemma Fetches(cache: PageCache)
    requires cache.Valid()
    ensures NULL !in cache.mapped
  {
    cache.NoNull();
  }

  lemma InNoOthersUse(cfg: Setting, b: Block, mapped: map<Address, nat>, cached: seq<Address>)
    requires cfg.Good() && Housed(cfg, b, mapped, cached)
    ensures b.raw in mapped && b.raw !in cached
  {
  }

  // ---------------------------------------------------------------- the whole block

  datatype Outcome = Crash | Plain(user: Address) | NoMemory | Laid(user: Address, raw: Address)

  /** Lays a block out in pages that have been fetched for it. */
  method LayOut(cache: PageCache, pages: DeadPages, size: nat, raw: Address, spare: Address, plain: Address)
    returns (user: Address)
    requires cache.Valid() && pages.Valid() && Together(cache, pages) && pages.Guards(size)
    requires raw in cache.mapped && raw !in cache.cached && raw != NULL
    requires cache.mapped[raw] == LayoutOf(pages.cfg, size).realSize && Divides(cache.pageSize, raw)
    requires forall u | u in pages.live :: pages.live[u].raw != raw && pages.live[u].header != spare
    requires forall a | a in cache.mapped :: !(a <= spare < a + cache.mapped[a])
    modifies pages
    ensures pages.Valid() && Together(cache, pages) && user !in old(pages.live)
    ensures pages.live == old(pages.live)[user := Block(raw, size, pages.HeaderAt(raw, size, spare))]
    ensures var l := LayoutOf(pages.cfg, size);
            && user == raw + l.userOffset
            && if cache.underrun then user == raw + cache.pageSize
               else
                 var guardPage := raw + l.realSize - cache.pageSize;
                 user + size <= guardPage && (!l.extra ==> guardPage < user + size + Grain(pages.cfg))
  {
    hide PageCache.Queued, PageCache.Stacked, Protected, Guarded, CachedApart, Divides, DeadByte, LayoutOf, Housed;
    hide DeadPages.Beyond, DeadPages.Placed;
    forall u | u in pages.live
      ensures pages.Beyond(pages.live[u], raw, raw + LayoutOf(pages.cfg, size).realSize)
      ensures !(raw <= pages.live[u].header < raw + LayoutOf(pages.cfg, size).realSize)
    {
      NewBlockClear(cache, pages, u, raw, LayoutOf(pages.cfg, size).realSize);
    }
    user := pages.MallocBlock(size, raw, spare, plain);
    NewlyHoused(pages.cfg, Block(raw, size, pages.HeaderAt(raw, size, spare)), spare, cache.mapped, cache.cached);
  }

  lemma NewlyHoused(cfg: Setting, b: Block, spare: Address, mapped: map<Address, nat>, cached: seq<Address>)
    requires cfg.Good() && b.raw in mapped && b.raw !in cached && mapped[b.raw] == LayoutOf(cfg, b.size).realSize
    requires !LayoutOf(cfg, b.size).embedded ==> b.header == spare
    requires forall a | a in mapped :: !(a <= spare < a + mapped[a])
    ensures Housed(cfg, b, mapped, cached)
  {
    hide LayoutOf;
  }

  /** No byte that was asked for is dead. */
  ghost predicate Usable(cfg: Setting, dead: set<Address>, user: Address, size: nat)
    requires cfg.Good()
  {
    forall x: Address | user <= x < user + size :: !DeadByte(cfg.pageSize, dead, x)
  }

  /** The page that catches stray accesses is dead: against underruns the one directly before the user's
      bytes, against overruns the last one of the block. Fewer bytes than an alignment step has are left
      between the user's bytes and that one, unless a page had to be added. */
  ghost predicate Catches(cfg: Setting, dead: set<Address>, raw: Address, user: Address, size: nat)
    requires cfg.Good()
  {
    var top := raw + LayoutOf(cfg, size).realSize;
    if cfg.underrun then forall x: Address | user <= x + cfg.pageSize && x < user :: DeadByte(cfg.pageSize, dead, x)
    else
      && user + size + cfg.pageSize <= top
      && (!LayoutOf(cfg, size).extra ==> top < user + size + cfg.pageSize + Grain(cfg))
      && forall x: Address | top <= x + cfg.pageSize && x < top :: DeadByte(cfg.pageSize, dead, x)
  }

  /** Gets the pages of a block, and lays it out in them. `region`, `live` and `guard` are what the system
      gives and allows, `spare` is a free header outside of all pages, and `plain` is the block that a
      size out of range gets. The user can reach every byte that was asked for. Where the guard page could
      be made dead, one page directly before the user's address is dead against underruns; against
      overruns it is the page behind the user's bytes, which begins at the next aligned address unless a
      page had to be added. */
  method MallocGuarded(cache: PageCache, pages: DeadPages, size: nat, region: Address, live: bool, guard: bool,
                       spare: Address, plain: Address)
    returns (r: Outcome)
    requires cache.Valid() && pages.Valid() && Together(cache, pages)
    requires region != NULL ==>
               && Fits(cache.mapped, region, LayoutOf(pages.cfg, size).realSize) && Divides(cache.pageSize, region)
               && !(region <= spare < region + LayoutOf(pages.cfg, size).realSize)
               && forall u | u in pages.live ::
                    !(region <= pages.live[u].header < region + LayoutOf(pages.cfg, size).realSize)
    requires forall a | a in cache.mapped :: !(a <= spare < a + cache.mapped[a])
    requires forall u | u in pages.live :: pages.live[u].header != spare
    modifies cache, cache.pool, pages
    ensures r.Crash? <==> pages.Guards(size) && cache.checkFreed && cache.maxCached == 0
                          && LayoutOf(pages.cfg, size).realSize / 2 == cache.pageSize
    ensures !r.Crash? ==> cache.Valid() && pages.Valid() && Together(cache, pages)
    ensures r.Plain? <==> !pages.Guards(size)
    ensures r.Laid? ==>
              && r.user !in old(pages.live) && r.user in pages.live
              && pages.live[r.user].raw == r.raw && pages.live[r.user].size == size
    ensures r.Laid? ==> Usable(pages.cfg, cache.dead, r.user, size)
    ensures r.Laid? && r.raw !in cache.unguarded ==> Catches(pages.cfg, cache.dead, r.raw, r.user, size)
  {
    hide PageCache.Queued, PageCache.Stacked, Protected, Guarded, CachedApart, Divides, DeadByte, LayoutOf, Housed;
    if size < pages.cfg.minSize || size > pages.cfg.maxSize {
      var user := pages.MallocBlock(size, NULL, spare, plain);
      return Plain(user);
    }
    var l := ComputeLayout(pages.cfg, size);
    WholePages(pages.cfg, size);
    var fetched := Fetch(cache, pages, l.realSize, region, live, guard);
    if fetched.NullDereference? {
      return Crash;
    }
    if fetched.OutOfMemory? {
      return NoMemory;
    }
    var raw := fetched.raw;
    var user := LayOut(cache, pages, size, raw, spare, plain);
    Reaches(pages.cfg, size);
    cache.InUse(raw);
    r := Laid(user, raw);
  }

  /** The user's bytes are in the block. */
  lemma Reaches(cfg: Setting, size: nat)
    requires cfg.Good()
    ensures var l := LayoutOf(cfg, size);
            && l.userOffset + size <= l.realSize
            && if cfg.underrun then l.userOffset == cfg.pageSize else l.userOffset + size <= l.realSize - cfg.pageSize
  {
    hide LayoutOf, Divides;
    if cfg.underrun {
      UnderrunLayout(cfg, size);
    } else {
      OverrunLayout(cfg, size);
    }
  }
}
