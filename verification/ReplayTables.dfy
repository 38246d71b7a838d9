/** The hash tables do what the tables of the replay's state machine do: whenever a worker looks a block
    up or stores one, the table's conditions of use are met, and its answer is the state machine's. */
module ReplayTables {
  import opened MallocLog
  import opened Replay
  import opened ReplaySafety
  import opened NodePool
  import opened ReplayHash

  /** A hash table with these entries stands for a table of the state machine. */
  ghost predicate StandsFor(cfg: Config, table: map<nat, Block>, entries: map<nat, Entry>) {
    && entries.Keys == table.Keys
    && forall m | m in table :: IsOp(cfg, m) && Op(cfg, m).Allocates() && entries[m] == Entry(table[m], Op(cfg, m).size)
  }

  /** The table in which a worker looks for the block that `r` releases. */
  ghost function Searched(s: State, t: nat, r: Record): map<nat, Block>
    requires t in s.mem.own && r.Releases()
  {
    if r.allocByOther then s.mem.shared else s.mem.own[t]
  }

  /** The table in which a worker stores the block that `r` gets. */
  ghost function Filled(s: State, t: nat, r: Record): map<nat, Block>
    requires t in s.mem.own && r.Allocates()
  {
    if r.freeByOther then s.mem.shared else s.mem.own[t]
  }

  /** All tables but the one of thread `t`, or but the shared one, stay. */
  ghost predicate OnlyOne(s: State, t: nat, shared: bool, s': State) {
    && s'.mem.own.Keys == s.mem.own.Keys
    && (forall u | u in s.mem.own && (shared || u != t) :: s'.mem.own[u] == s.mem.own[u])
    && (!shared ==> s'.mem.shared == s.mem.shared)
  }

  /** A look-up asks for a number that is in the table, with the size that has been stored with it; it
      gets the block that the table has, which leaves this table and no other. */
  lemma LookUpAllowed(cfg: Config, s: State, t: nat, hold: Option<Block>, s': State, entries: map<nat, Entry>)
    requires Invariant(cfg, s) && Consistent(cfg)
    requires t in s.workers && t in s.mem.own && Find(cfg, s, t, hold, s')
    requires var r := cfg.log[s.workers[t].pos]; r.Match() != 0 && StandsFor(cfg, Searched(s, t, r), entries)
    ensures var r := cfg.log[s.workers[t].pos];
            && r.matched in entries && entries[r.matched].size == r.oldSize
            && hold == Some(entries[r.matched].block)
            && t in s'.mem.own && StandsFor(cfg, Searched(s', t, r), entries - {r.matched})
            && OnlyOne(s, t, r.allocByOther, s')
  {
    hide Invariant, FlowRight, TablesRight, Stored, Consistent, Find, Searched, OnlyOne;
    FindTakes(cfg, s, t, hold, s');
    var k, r := s.workers[t].seqNo, cfg.log[s.workers[t].pos];
    FlowOf(cfg, s);
    FindFinds(cfg, s, t, hold, s');
    MatchOf(cfg, k, r.matched);
  }

  lemma MatchOf(cfg: Config, k: nat, m: nat)
    requires Consistent(cfg) && ReleasesOf(cfg, k, m)
    ensures Op(cfg, k).Releases() && Op(cfg, m).Allocates() && Op(cfg, k).oldSize == Op(cfg, m).size
    ensures Op(cfg, m).freeByOther == Op(cfg, k).allocByOther
  {
  }

  /** A look-up that has found its block. */
  lemma FindTakes(cfg: Config, s: State, t: nat, hold: Option<Block>, s': State)
    requires t in s.workers && t in s.mem.own && Find(cfg, s, t, hold, s') && cfg.log[s.workers[t].pos].Match() != 0
    ensures AtOwn(cfg, s.workers[t], t) && s.workers[t].stage == Look
    ensures var r := cfg.log[s.workers[t].pos];
            && t in s'.mem.own && OnlyOne(s, t, r.allocByOther, s')
            && (hold.Some? ==> r.matched in Searched(s, t, r) && hold.value == Searched(s, t, r)[r.matched]
                               && Searched(s', t, r) == Searched(s, t, r) - {r.matched})
  {
  }

  lemma FlowOf(cfg: Config, s: State)
    requires Invariant(cfg, s)
    ensures FlowRight(cfg, s) && TablesRight(cfg, s)
  {
  }

  /** The allocator gives different operations memory that does not overlap. */
  ghost predicate MemoryApart(cfg: Config, s: State) {
    forall m, n | m != n && m in s.given && n in s.given && Live(cfg, s, m) && Live(cfg, s, n) ::
      Region(s.given[m], Op(cfg, m).size).Apart(Region(s.given[n], Op(cfg, n).size))
  }

  lemma ExecuteStores(cfg: Config, s: State, t: nat, b: Block, s': State)
    requires t in s.workers && t in s.mem.own && Execute(cfg, s, t, b, s') && cfg.log[s.workers[t].pos].Allocates()
    ensures AtOwn(cfg, s.workers[t], t) && s.workers[t].stage.Act? && b > 0 && t in s'.mem.own
    ensures var r := cfg.log[s.workers[t].pos];
            Filled(s', t, r) == Filled(s, t, r)[s.workers[t].seqNo := b] && OnlyOne(s, t, r.freeByOther, s')
  {
  }

  /** What is stored has a number that no table has yet; its block is where no other table entry's block
      is, and where both are large enough for a node, their nodes do not overlap. */
  lemma StoreAllowed(cfg: Config, s: State, t: nat, b: Block, s': State, entries: map<nat, Entry>)
    requires Invariant(cfg, s) && Consistent(cfg) && MemoryApart(cfg, s')
    requires t in s.workers && t in s.mem.own && Execute(cfg, s, t, b, s')
    requires var r := cfg.log[s.workers[t].pos]; r.Allocates() && StandsFor(cfg, Filled(s, t, r), entries)
    ensures var r, k := cfg.log[s.workers[t].pos], s.workers[t].seqNo;
            && k !in entries && b > 0
            && (forall m | m in entries :: entries[m].block != b)
            && (r.size >= NODE ==> Clear(entries, Space(b)))
            && t in s'.mem.own && StandsFor(cfg, Filled(s', t, r), entries[k := Entry(b, r.size)])
            && OnlyOne(s, t, r.freeByOther, s')
  {
    hide Invariant, Consistent, MemoryApart, Stored, Live, Execute, Filled, OnlyOne;
    ExecuteStores(cfg, s, t, b, s');
    var r, k := cfg.log[s.workers[t].pos], s.workers[t].seqNo;
    HoldsLive(cfg, s, t);
    ExecuteKeeps(cfg, s, t, b, s');
    EntryStored(cfg, s', t, r, k);
    forall m | m in entries
      ensures m != k && entries[m].block != b
      ensures entries[m].size >= NODE && r.size >= NODE ==> Space(entries[m].block).Apart(Space(b))
    {
      EntryStored(cfg, s, t, r, m);
      StoredOnce(cfg, s, m, k);
      EntryStored(cfg, s', t, r, m);
      StoredApart(cfg, s', m, k, entries[m].block, b);
    }
  }

  /** Two stored blocks are different, and do not overlap. */
  lemma StoredApart(cfg: Config, s: State, m: nat, k: nat, c: Block, b: Block)
    requires Invariant(cfg, s) && MemoryApart(cfg, s) && m != k
    requires Stored(cfg, s, m) && Stored(cfg, s, k) && Gave(s, m, c) && Gave(s, k, b)
    ensures c != b && Region(c, Op(cfg, m).size).Apart(Region(b, Op(cfg, k).size))
  {
    hide QueueRight, BarrierRight, CursorRight, HistoryRight, LookedRight, HoldsRight, TablesRight;
    StoredLive(cfg, s, m);
    StoredLive(cfg, s, k);
    assert m in LiveOnes(cfg, s) && k in LiveOnes(cfg, s);
  }

  lemma StoredOnce(cfg: Config, s: State, m: nat, k: nat)
    requires Stored(cfg, s, m) && k !in s.executed
    ensures IsOp(cfg, m) && Op(cfg, m).Allocates() && m != k
  {
  }

  lemma EntryStored(cfg: Config, s: State, t: nat, r: Record, m: nat)
    requires Invariant(cfg, s) && t in s.mem.own && r.Allocates() && m in Filled(s, t, r)
    ensures Stored(cfg, s, m) && Gave(s, m, Filled(s, t, r)[m])
  {
    hide QueueRight, BarrierRight, CursorRight, HistoryRight, HeapRight, LookedRight, HoldsRight, Stored;
  }

  lemma StoredLive(cfg: Config, s: State, m: nat)
    requires Invariant(cfg, s) && Stored(cfg, s, m)
    ensures Live(cfg, s, m)
  {
    hide QueueRight, BarrierRight, CursorRight, HeapRight, LookedRight, HoldsRight, TablesRight, HistoryRight;
    forall k | ReleasesOf(cfg, k, m) && k in s.executed
      ensures false
    {
      ExecutedLooked(cfg, s, k);
    }
  }
}
