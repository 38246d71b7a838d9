/** What holds in every state of a replay. */
module ReplaySafety {
  import opened MallocLog
  import opened Replay

  // ---------------------------------------------------------------- the invariant

  /** The number of the first operation of the batch. */
  ghost function First(s: State): int {
    s.recNo - s.jobs.total
  }

  /** The batch has been handed out. */
  ghost predicate Busy(s: State) {
    s.control.Waking? || s.control.Waiting?
  }

  ghost predicate Woken(s: State, t: nat) {
    t in s.active && (s.control.Waking? ==> t < s.control.i)
  }

  /** The queue holds the operations from `First(s)` on, and the threads they belong to are active. */
  ghost predicate QueueRight(cfg: Config, s: State) {
    && s.jobs.offset <= s.next && CursorAt(cfg.log, s.next, s.recNo)
    && CursorAt(cfg.log, s.jobs.offset, First(s)) && (s.jobs.total > 0 ==> s.jobs.seqNo == First(s))
    && (forall k: nat | IsOp(cfg, k) && First(s) <= k < s.recNo :: Op(cfg, k).thread in s.active)
    && (forall t | t in s.active :: cfg.IsThread(t))
    && (s.control == Filling && s.next == s.jobs.offset ==> s.next < |cfg.log|)
  }

  ghost predicate WorkerRight(cfg: Config, s: State, t: nat)
    requires t in s.workers
  {
    var w := s.workers[t];
    if Busy(s) then
      && !w.Exited?
      && (w.Running? <==> Woken(s, t) && t !in s.open && t !in s.finished)
      && (t in s.open ==> Woken(s, t) && t !in s.finished)
      && (t in s.finished ==> Woken(s, t))
    else if s.allDone then
      && !w.Running?
      && if s.control.Quitting? && t >= s.control.i then w == Idle && t !in s.open else w == Idle <==> t in s.open
    else w == Idle && t !in s.open
  }

  /** The barrier: outside a batch all workers wait at closed locks, in a batch every active worker has
      yet to be woken, has its lock open, runs, or has finished. */
  ghost predicate BarrierRight(cfg: Config, s: State) {
    && (forall t :: t in s.workers <==> cfg.IsThread(t))
    && (s.allDone <==> s.control.Quitting? || s.control == Gone)
    && (s.control.Quitting? || s.control.Waking? ==> s.control.i <= cfg.threads + 1)
    && (s.allDone ==> s.next == |cfg.log| && s.jobs.total == 0)
    && (!s.allDone ==> forall t | t in s.open :: cfg.IsThread(t))
    && (forall t | t in s.workers :: WorkerRight(cfg, s, t))
    && s.finished <= s.active
    && (if Busy(s) then s.working == |s.active - s.finished| && (s.controllerOpen <==> s.finished == s.active)
        else s.finished == {} && !s.controllerOpen)
    && (Busy(s) ==> s.active != {})
  }

  ghost predicate CursorRight(cfg: Config, s: State, t: nat)
    requires t in s.workers
  {
    var w := s.workers[t];
    w.Running? ==>
      && (s.jobs.total == 0 ==> w.left == 0 && w.stage == Look)
      && (s.jobs.total > 0 ==>
            && s.jobs.offset <= w.pos <= s.next && CursorAt(cfg.log, w.pos, w.seqNo)
            && First(s) <= w.seqNo && w.seqNo + w.left == s.recNo)
      && (w.stage.Act? ==> AtOwn(cfg, w, t))
  }

  /** The worker of operation `k` is past it; `at` is whether it counts as past the one it is executing. */
  ghost predicate Past(s: State, t: nat, k: nat, at: bool) {
    k < First(s) || (Busy(s) && t in s.workers &&
                     (t in s.finished || (s.workers[t].Running?
                       && (k < s.workers[t].seqNo || (at && k == s.workers[t].seqNo && s.workers[t].stage.Act?)))))
  }

  /** The history says exactly which operations the workers are past. */
  ghost predicate HistoryRight(cfg: Config, s: State) {
    && (forall k: nat | IsOp(cfg, k) && k < s.recNo ::
          && s.executed[k] == (if Past(s, Op(cfg, k).thread, k, false) then 1 else 0)
          && (k in s.looked <==> Past(s, Op(cfg, k).thread, k, true)))
    && (forall k: nat | !(IsOp(cfg, k) && k < s.recNo) :: k !in s.executed && k !in s.looked)
  }

  /** Operation `m` has got a block, and no other operation has looked it up. */
  ghost predicate Stored(cfg: Config, s: State, m: nat) {
    && IsOp(cfg, m) && m in s.executed && Op(cfg, m).Allocates()
    && forall k | ReleasesOf(cfg, k, m) :: k !in s.looked
  }

  /** Operation `m` has got a block, and no other operation has given it back. */
  ghost predicate Live(cfg: Config, s: State, m: nat) {
    && IsOp(cfg, m) && m in s.executed && Op(cfg, m).Allocates()
    && forall k | ReleasesOf(cfg, k, m) :: k !in s.executed
  }

  /** The block that operation `m` got is `b`. */
  ghost predicate Gave(s: State, m: nat, b: Block) {
    m in s.given && s.given[m] == b
  }

  /** Every table holds exactly the stored blocks that will be looked for in it. */
  ghost predicate TablesRight(cfg: Config, s: State) {
    && (forall t :: t in s.mem.own <==> cfg.IsThread(t))
    && (forall t, m | t in s.mem.own ::
          m in s.mem.own[t] <==> Stored(cfg, s, m) && Op(cfg, m).thread == t && !Op(cfg, m).freeByOther)
    && (forall m :: m in s.mem.shared <==> Stored(cfg, s, m) && Op(cfg, m).freeByOther)
    && (forall t, m | t in s.mem.own && m in s.mem.own[t] :: Gave(s, m, s.mem.own[t][m]))
    && (forall m | m in s.mem.shared :: Gave(s, m, s.mem.shared[m]))
  }

  /** The operations in `live` have got the blocks in `heap`, each its own. */
  ghost predicate OwnBlocks(live: iset<nat>, given: map<nat, Block>, heap: set<Block>) {
    && (forall m | m in live :: m in given && given[m] in heap)
    && (forall b | b in heap :: exists m :: m in live && m in given && given[m] == b)
    && (forall m, m' | m in live && m' in live && m in given && m' in given && given[m] == given[m'] :: m == m')
  }

  ghost function LiveOnes(cfg: Config, s: State): iset<nat> {
    iset m: nat | Live(cfg, s, m)
  }

  /** The heap holds the blocks of the live operations, each its own. */
  ghost predicate HeapRight(cfg: Config, s: State) {
    && (forall m :: m in s.given <==> IsOp(cfg, m) && m in s.executed && Op(cfg, m).Allocates())
    && OwnBlocks(LiveOnes(cfg, s), s.given, s.mem.heap)
  }

  /** A worker that has looked up a block holds the one that the matched operation got. */
  ghost predicate HoldsRight(cfg: Config, s: State, t: nat)
    requires t in s.workers
  {
    var w := s.workers[t];
    w.Running? && w.stage.Act? && IsOp(cfg, w.seqNo) ==>
      var m := Op(cfg, w.seqNo).Match();
      if m == 0 then w.stage.hold == None else w.stage.hold.Some? && Gave(s, m, w.stage.hold.value)
  }

  /** A block is only looked up after it has been allocated. */
  ghost predicate LookedRight(cfg: Config, s: State) {
    forall k, m | ReleasesOf(cfg, k, m) && k in s.looked :: m in s.executed
  }

  ghost predicate Invariant(cfg: Config, s: State) {
    && QueueRight(cfg, s) && BarrierRight(cfg, s)
    && (forall t | t in s.workers :: CursorRight(cfg, s, t))
    && HistoryRight(cfg, s)
    && TablesRight(cfg, s) && HeapRight(cfg, s) && LookedRight(cfg, s)
    && (forall t | t in s.workers :: HoldsRight(cfg, s, t))
  }

  // ---------------------------------------------------------------- cursors

  lemma CursorNext(cfg: Config, pos: nat, seqNo: int)
    requires CursorAt(cfg.log, pos, seqNo) && pos < |cfg.log|
    ensures CursorAt(cfg.log, pos + 1, if cfg.log[pos].IsOp() then seqNo + 1 else seqNo)
    ensures cfg.log[pos].IsOp() ==> 1 <= seqNo && IsOp(cfg, seqNo) && Op(cfg, seqNo) == cfg.log[pos]
  {
    CursorMoves(cfg.log, pos, seqNo);
    if cfg.log[pos].IsOp() {
      OpAt(cfg.log, pos);
    }
  }

  lemma CursorBefore(cfg: Config, pos: nat, seqNo: int, next: nat, recNo: int)
    requires CursorAt(cfg.log, pos, seqNo) && CursorAt(cfg.log, next, recNo)
    ensures seqNo < recNo ==> pos < next
    ensures 1 <= seqNo <= |Ops(cfg.log)| + 1
  {
    CountOpsMonotone(cfg.log, pos, |cfg.log|);
    assert cfg.log[..|cfg.log|] == cfg.log;
    if next <= pos {
      CountOpsMonotone(cfg.log, next, pos);
    }
  }

  // ---------------------------------------------------------------- the start

  lemma InitialInvariant(cfg: Config)
    ensures Invariant(cfg, Initial(cfg))
  {
    assert cfg.log[..0] == [];
    assert CountOps([]) == 0;
  }

  // ---------------------------------------------------------------- steps that leave the memory alone

  /** Memory and history are the same. */
  ghost predicate SameMemory(s: State, s': State) {
    s'.mem == s.mem && s'.looked == s.looked && s'.executed == s.executed && s'.given == s.given
  }

  lemma StoredSame(cfg: Config, s: State, s': State)
    requires SameMemory(s, s')
    ensures forall m :: Stored(cfg, s', m) == Stored(cfg, s, m)
    ensures forall m :: Live(cfg, s', m) == Live(cfg, s, m)
    ensures forall m, b :: Gave(s', m, b) == Gave(s, m, b)
  {
  }

  lemma MemoryKept(cfg: Config, s: State, s': State)
    requires SameMemory(s, s') && TablesRight(cfg, s) && HeapRight(cfg, s) && LookedRight(cfg, s)
    ensures TablesRight(cfg, s') && HeapRight(cfg, s') && LookedRight(cfg, s')
  {
    hide Stored, Live, Gave, OwnBlocks;
    StoredSame(cfg, s, s');
    assert LiveOnes(cfg, s') == LiveOnes(cfg, s);
  }

  // ---------------------------------------------------------------- steps of the controller

  /** The parts of the invariant that speak of the queue, the barrier and the workers. */
  ghost predicate FlowRight(cfg: Config, s: State) {
    && QueueRight(cfg, s) && BarrierRight(cfg, s)
    && (forall t | t in s.workers :: CursorRight(cfg, s, t))
    && HistoryRight(cfg, s)
  }

  /** The history stays right when no worker moves. */
  lemma HistoryKept(cfg: Config, s: State, s': State)
    requires HistoryRight(cfg, s) && SameMemory(s, s') && First(s') == First(s)
    requires s'.workers == s.workers && s'.finished == s.finished && Busy(s') == Busy(s)
    requires s'.recNo == s.recNo || (s'.recNo == s.recNo + 1 && !Busy(s))
    ensures HistoryRight(cfg, s')
  {
    assert forall t, k, at :: Past(s', t, k, at) == Past(s, t, k, at);
  }

  lemma TakeRecordKeeps(cfg: Config, s: State, s': State)
    requires FlowRight(cfg, s) && Consistent(cfg) && TakeRecord(cfg, s, s')
    ensures FlowRight(cfg, s') && SameMemory(s, s') && s'.workers == s.workers
  {
    hide HistoryRight, CursorAt, BarrierRight, QueueRight, CursorRight;
    TakenBarrier(cfg, s, s');
    TakenQueue(cfg, s, s');
    HistoryKept(cfg, s, s');
  }

  lemma TakenBarrier(cfg: Config, s: State, s': State)
    requires BarrierRight(cfg, s) && TakeRecord(cfg, s, s')
    ensures BarrierRight(cfg, s') && s'.finished == s.finished && !Busy(s) && !Busy(s')
    ensures forall t | t in s.workers :: t in s'.workers && CursorRight(cfg, s', t)
  {
  }

  lemma TakenQueue(cfg: Config, s: State, s': State)
    requires QueueRight(cfg, s) && Consistent(cfg) && TakeRecord(cfg, s, s')
    ensures QueueRight(cfg, s') && First(s') == First(s) && s'.workers == s.workers
  {
    hide CursorAt;
    CursorNext(cfg, s.next, s.recNo);
  }

  lemma BatchEndsKeeps(cfg: Config, s: State, s': State)
    requires FlowRight(cfg, s) && Consistent(cfg)
    requires BufferEnds(cfg, s, s', false) || BufferEnds(cfg, s, s', true) || LogEnds(cfg, s, s')
    ensures FlowRight(cfg, s') && SameMemory(s, s') && s'.workers == s.workers
  {
    hide HistoryRight, CursorAt;
    if s.next < |cfg.log| {
      CursorNext(cfg, s.next, s.recNo);
    }
    HistoryKept(cfg, s, s');
  }

  /** With all workers at their locks, and past everything, the next batch can begin. */
  lemma ResetKeeps(cfg: Config, s: State)
    requires QueueRight(cfg, s) && !s.controllerOpen && !s.allDone
    requires forall t :: t in s.workers <==> cfg.IsThread(t)
    requires forall t | t in s.workers :: s.workers[t] == Idle && t !in s.open
    requires forall t | t in s.open :: cfg.IsThread(t)
    requires forall k: nat | IsOp(cfg, k) && k < s.recNo :: s.executed[k] == 1 && k in s.looked
    requires forall k: nat | !(IsOp(cfg, k) && k < s.recNo) :: k !in s.executed && k !in s.looked
    ensures FlowRight(cfg, Reset(cfg, s))
  {
  }

  /** Handing out the batch begins with all workers at their locks. */
  lemma HandOutKeeps(cfg: Config, s: State, s': State)
    requires FlowRight(cfg, s) && s.control == Counting && s.active != {}
    requires s' == s.(control := Waking(0), working := |s.active|)
    ensures FlowRight(cfg, s') && SameMemory(s, s') && s'.workers == s.workers
  {
    hide HistoryRight, CursorAt;
    assert s.active - s.finished == s.active;
    assert forall t | t in s.workers :: WorkerRight(cfg, s, t);
    HandOutHistory(cfg, s, s');
  }

  lemma HandOutHistory(cfg: Config, s: State, s': State)
    requires HistoryRight(cfg, s) && s.control == Counting && s.finished == {}
    requires s' == s.(control := Waking(0), working := |s.active|)
    requires forall t | t in s.workers :: s.workers[t] == Idle
    ensures HistoryRight(cfg, s')
  {
    assert forall t, k, at :: Past(s', t, k, at) == Past(s, t, k, at);
  }

  lemma CountKeeps(cfg: Config, s: State, s': State)
    requires FlowRight(cfg, s) && Consistent(cfg) && Count(cfg, s, s')
    ensures FlowRight(cfg, s') && SameMemory(s, s') && s'.workers == s.workers
  {
    hide CursorAt;
    if s.active == {} {
      ResetKeeps(cfg, s);
    } else {
      HandOutKeeps(cfg, s, s');
    }
  }

  lemma WakeWorker(cfg: Config, s: State, s': State, t: nat)
    requires BarrierRight(cfg, s) && Wake(cfg, s, s') && t in s.workers
    ensures WorkerRight(cfg, s', t)
  {
    assert WorkerRight(cfg, s, t);
  }

  lemma WakeKeeps(cfg: Config, s: State, s': State)
    requires FlowRight(cfg, s) && Wake(cfg, s, s')
    ensures FlowRight(cfg, s') && SameMemory(s, s') && s'.workers == s.workers
  {
    hide HistoryRight, CursorAt, BarrierRight, CursorRight;
    WakeBarrier(cfg, s, s');
    HistoryKept(cfg, s, s');
  }

  lemma WakeBarrier(cfg: Config, s: State, s': State)
    requires BarrierRight(cfg, s) && QueueRight(cfg, s) && Wake(cfg, s, s')
    ensures BarrierRight(cfg, s')
    ensures forall t | t in s.workers && CursorRight(cfg, s, t) :: CursorRight(cfg, s', t)
  {
    hide CursorAt, WorkerRight;
    forall t | t in s.workers
      ensures WorkerRight(cfg, s', t)
    {
      WakeWorker(cfg, s, s', t);
    }
  }

  lemma ResumeKeeps(cfg: Config, s: State, s': State)
    requires FlowRight(cfg, s) && Consistent(cfg) && Resume(cfg, s, s')
    ensures FlowRight(cfg, s') && SameMemory(s, s') && s'.workers == s.workers
  {
    forall k: nat | IsOp(cfg, k) && k < s.recNo
      ensures s.executed[k] == 1 && k in s.looked
    {
      assert Op(cfg, k).thread in s.workers;
    }
    ResetKeeps(cfg, s.(controllerOpen := false));
  }

  lemma QuitKeeps(cfg: Config, s: State, s': State)
    requires FlowRight(cfg, s) && Quit(cfg, s, s')
    ensures FlowRight(cfg, s') && SameMemory(s, s') && s'.workers == s.workers
  {
    hide HistoryRight, CursorAt;
    HistoryKept(cfg, s, s');
  }

  // ---------------------------------------------------------------- steps of a worker

  /** Only worker `t` moves. */
  ghost predicate OnlyWorker(s: State, t: nat, s': State)
    requires t in s.workers
  {
    && s'.control == s.control && s'.jobs == s.jobs && s'.next == s.next && s'.recNo == s.recNo && s'.active == s.active
    && s'.refills == s.refills && s'.allDone == s.allDone
    && t in s'.workers && s'.workers == s.workers[t := s'.workers[t]]
    && (forall u | u != t :: (u in s'.open <==> u in s.open) && (u in s'.finished <==> u in s.finished))
  }

  /** The others do not notice. */
  lemma OthersKept(cfg: Config, s: State, t: nat, s': State, u: nat)
    requires t in s.workers && u in s.workers && u != t && OnlyWorker(s, t, s')
    ensures WorkerRight(cfg, s, u) ==> WorkerRight(cfg, s', u)
    ensures CursorRight(cfg, s, u) ==> CursorRight(cfg, s', u)
    ensures forall k, at :: Past(s', u, k, at) == Past(s, u, k, at)
  {
  }

  /** The queue does not either. */
  lemma QueueKept(cfg: Config, s: State, t: nat, s': State)
    requires t in s.workers && OnlyWorker(s, t, s') && QueueRight(cfg, s)
    ensures QueueRight(cfg, s')
  {
  }

  /** The history of the operations of the others stays right. */
  lemma HistoryOf(cfg: Config, s: State, t: nat, s': State)
    requires t in s.workers && OnlyWorker(s, t, s') && HistoryRight(cfg, s)
    requires forall k: nat | IsOp(cfg, k) && k < s.recNo && Op(cfg, k).thread != t ::
               s'.executed[k] == s.executed[k] && (k in s'.looked <==> k in s.looked)
    requires forall k: nat | IsOp(cfg, k) && k < s.recNo && Op(cfg, k).thread == t ::
               && s'.executed[k] == (if Past(s', t, k, false) then 1 else 0)
                    && (k in s'.looked <==> Past(s', t, k, true))
    requires forall k: nat | !(IsOp(cfg, k) && k < s.recNo) :: k !in s'.executed && k !in s'.looked
    ensures HistoryRight(cfg, s')
  {
    hide Past, OnlyWorker;
    forall k: nat, at | IsOp(cfg, k) && k < s.recNo && Op(cfg, k).thread != t
      ensures Past(s', Op(cfg, k).thread, k, at) == Past(s, Op(cfg, k).thread, k, at)
    {
      PastSame(s, t, s', Op(cfg, k).thread, k, at);
    }
    assert s'.recNo == s.recNo by { SameQueue(s, t, s'); }
  }

  lemma SameQueue(s: State, t: nat, s': State)
    requires t in s.workers && OnlyWorker(s, t, s')
    ensures s'.recNo == s.recNo && s'.jobs == s.jobs
  {
  }

  lemma PastSame(s: State, t: nat, s': State, u: nat, k: nat, at: bool)
    requires t in s.workers && OnlyWorker(s, t, s') && u != t
    ensures Past(s', u, k, at) == Past(s, u, k, at)
  {
  }

  lemma StartKeeps(cfg: Config, s: State, t: nat, s': State)
    requires FlowRight(cfg, s) && t in s.workers && Start(s, t, s')
    ensures FlowRight(cfg, s')
  {
    hide QueueRight, HistoryRight, CursorAt;
    assert WorkerRight(cfg, s, t) && cfg.IsThread(t);
    QueueKept(cfg, s, t, s');
    forall u | u in s'.workers
      ensures WorkerRight(cfg, s', u) && CursorRight(cfg, s', u)
    {
      if u != t {
        OthersKept(cfg, s, t, s', u);
      } else {
        StartCursor(cfg, s, s', t);
      }
    }
    StartHistory(cfg, s, t, s');
  }

  lemma StartCursor(cfg: Config, s: State, s': State, t: nat)
    requires QueueRight(cfg, s) && t in s.workers && Start(s, t, s')
    ensures CursorRight(cfg, s', t)
  {
  }

  lemma StartHistory(cfg: Config, s: State, t: nat, s': State)
    requires QueueRight(cfg, s) && HistoryRight(cfg, s) && t in s.workers && Start(s, t, s') && t !in s.finished
    requires s.allDone ==> s.jobs.total == 0
    ensures HistoryRight(cfg, s')
  {
    assert OnlyWorker(s, t, s');
    HistoryOf(cfg, s, t, s');
  }

  /** Worker `t` has moved, and the barrier is as before. */
  ghost predicate Moves(s: State, t: nat, s': State)
    requires t in s.workers
  {
    && OnlyWorker(s, t, s') && s'.open == s.open && s'.finished == s.finished && s'.working == s.working
    && s'.controllerOpen == s.controllerOpen && s.workers[t].Running? && s'.workers[t].Running?
  }

  lemma MovesKeeps(cfg: Config, s: State, t: nat, s': State)
    requires t in s.workers && Moves(s, t, s') && FlowRight(cfg, s)
    requires CursorRight(cfg, s', t) && HistoryRight(cfg, s')
    ensures FlowRight(cfg, s')
  {
    hide HistoryRight, CursorAt, QueueRight, CursorRight;
    QueueKept(cfg, s, t, s');
    assert WorkerRight(cfg, s, t);
    forall u | u in s'.workers
      ensures WorkerRight(cfg, s', u) && CursorRight(cfg, s', u)
    {
      if u != t {
        OthersKept(cfg, s, t, s', u);
      }
    }
  }

  /** A running worker with operations left is inside the batch. */
  lemma Inside(cfg: Config, s: State, t: nat)
    requires t in s.workers && FlowRight(cfg, s) && s.workers[t].Running? && s.workers[t].left > 0
    ensures var w := s.workers[t];
            && Busy(s) && t !in s.finished && t in s.active && cfg.IsThread(t)
            && s.jobs.total > 0 && s.jobs.offset <= w.pos < s.next <= |cfg.log|
            && CursorAt(cfg.log, w.pos, w.seqNo) && First(s) <= w.seqNo < s.recNo && w.seqNo + w.left == s.recNo
  {
    hide HistoryRight;
    assert WorkerRight(cfg, s, t) && CursorRight(cfg, s, t);
    CursorBefore(cfg, s.workers[t].pos, s.workers[t].seqNo, s.next, s.recNo);
  }

  lemma StampKeeps(cfg: Config, s: State, t: nat, s': State)
    requires FlowRight(cfg, s) && t in s.workers && Pass(cfg, s, t, s') && cfg.log[s.workers[t].pos].Timestamp?
    ensures FlowRight(cfg, s')
  {
    hide HistoryRight, CursorAt, QueueRight;
    var w := s.workers[t];
    Inside(cfg, s, t);
    CursorNext(cfg, w.pos, w.seqNo);
    StampHistory(cfg, s, t, s');
    MovesKeeps(cfg, s, t, s');
  }

  lemma StampHistory(cfg: Config, s: State, t: nat, s': State)
    requires HistoryRight(cfg, s) && t in s.workers && Pass(cfg, s, t, s') && cfg.log[s.workers[t].pos].Timestamp?
    ensures HistoryRight(cfg, s')
  {
    assert forall k, at :: Past(s', t, k, at) == Past(s, t, k, at);
    HistoryOf(cfg, s, t, s');
  }

  /** The worker has gone on to the next record; when the operation is its own, it has executed it. */
  ghost predicate Advances(cfg: Config, s: State, t: nat, s': State)
    requires t in s.workers
  {
    && Moves(s, t, s')
    && var w := s.workers[t];
       && w.left > 0 && w.pos < |cfg.log| && cfg.log[w.pos].IsOp()
       && s'.workers[t] == Running(w.pos + 1, w.seqNo + 1, w.left - 1, Look)
       && (if cfg.log[w.pos].thread == t then
             s'.executed == s.executed + multiset{w.seqNo} && s'.looked == s.looked + {w.seqNo}
           else s'.executed == s.executed && s'.looked == s.looked)
  }

  lemma AdvancesKeeps(cfg: Config, s: State, t: nat, s': State)
    requires FlowRight(cfg, s) && t in s.workers && Advances(cfg, s, t, s')
    ensures FlowRight(cfg, s')
    ensures var w := s.workers[t]; IsOp(cfg, w.seqNo) && Op(cfg, w.seqNo) == cfg.log[w.pos]
    ensures var w := s.workers[t]; cfg.log[w.pos].thread == t ==> s.executed[w.seqNo] == 0
  {
    hide HistoryRight, CursorAt, QueueRight;
    var w := s.workers[t];
    Inside(cfg, s, t);
    CursorNext(cfg, w.pos, w.seqNo);
    AdvancesHistory(cfg, s, t, s');
    MovesKeeps(cfg, s, t, s');
  }

  lemma AdvancesHistory(cfg: Config, s: State, t: nat, s': State)
    requires HistoryRight(cfg, s) && t in s.workers && Advances(cfg, s, t, s') && Busy(s) && t !in s.finished
    requires var w := s.workers[t];
             First(s) <= w.seqNo < s.recNo && IsOp(cfg, w.seqNo) && Op(cfg, w.seqNo) == cfg.log[w.pos]
    ensures HistoryRight(cfg, s')
    ensures var w := s.workers[t]; cfg.log[w.pos].thread == t ==> s.executed[w.seqNo] == 0
  {
    var w := s.workers[t];
    assert forall k | k != w.seqNo ::
             Past(s', t, k, true) == Past(s, t, k, true) && Past(s', t, k, false) == Past(s, t, k, false);
    assert Past(s', t, w.seqNo, false) && !Past(s, t, w.seqNo, false);
    HistoryOf(cfg, s, t, s');
  }

  lemma FindFlow(cfg: Config, s: State, t: nat, hold: Option<Block>, s': State)
    requires FlowRight(cfg, s) && t in s.workers && t in s.mem.own && Find(cfg, s, t, hold, s')
    ensures FlowRight(cfg, s')
    ensures var w := s.workers[t]; IsOp(cfg, w.seqNo) && Op(cfg, w.seqNo) == cfg.log[w.pos] && w.seqNo !in s.looked
  {
    hide HistoryRight, CursorAt, QueueRight, LookUp;
    var w := s.workers[t];
    Inside(cfg, s, t);
    CursorNext(cfg, w.pos, w.seqNo);
    FindHistory(cfg, s, t, hold, s');
    MovesKeeps(cfg, s, t, s');
  }

  lemma FindHistory(cfg: Config, s: State, t: nat, hold: Option<Block>, s': State)
    requires HistoryRight(cfg, s) && t in s.workers && t in s.mem.own && Find(cfg, s, t, hold, s') && Busy(s)
    requires t !in s.finished
    requires var w := s.workers[t];
             First(s) <= w.seqNo < s.recNo && IsOp(cfg, w.seqNo) && Op(cfg, w.seqNo) == cfg.log[w.pos]
    ensures HistoryRight(cfg, s') && s.workers[t].seqNo !in s.looked
  {
    hide LookUp;
    var w := s.workers[t];
    assert forall k :: Past(s', t, k, false) == Past(s, t, k, false);
    assert forall k :: Past(s', t, k, true) <==> Past(s, t, k, true) || k == w.seqNo;
    assert !Past(s, t, w.seqNo, true);
    HistoryOf(cfg, s, t, s');
  }

  lemma FinishKeeps(cfg: Config, s: State, t: nat, s': State)
    requires FlowRight(cfg, s) && t in s.workers && Finish(s, t, s')
    ensures FlowRight(cfg, s')
  {
    hide HistoryRight, CursorAt, QueueRight, CursorRight;
    QueueKept(cfg, s, t, s');
    assert WorkerRight(cfg, s, t) && CursorRight(cfg, s, t);
    FinishCounts(s.active, s.finished, t);
    forall u | u in s'.workers
      ensures WorkerRight(cfg, s', u) && CursorRight(cfg, s', u)
    {
      if u != t {
        OthersKept(cfg, s, t, s', u);
      } else {
        IdleCursor(cfg, s', t);
      }
    }
    FinishHistory(cfg, s, t, s');
  }

  lemma IdleCursor(cfg: Config, s: State, t: nat)
    requires t in s.workers && s.workers[t] == Idle
    ensures CursorRight(cfg, s, t)
  {
  }

  lemma FinishCounts(active: set<nat>, finished: set<nat>, t: nat)
    requires t in active && t !in finished && finished <= active
    ensures |active - (finished + {t})| == |active - finished| - 1
    ensures |active - finished| - 1 == 0 <==> finished + {t} == active
    ensures finished != active
  {
    assert active - (finished + {t}) == (active - finished) - {t};
    if active - (finished + {t}) == {} {
      assert finished + {t} == active;
    }
  }

  lemma FinishHistory(cfg: Config, s: State, t: nat, s': State)
    requires QueueRight(cfg, s) && HistoryRight(cfg, s) && t in s.workers && Finish(s, t, s') && Busy(s)
    requires CursorRight(cfg, s, t)
    ensures HistoryRight(cfg, s')
  {
    hide CursorAt;
    forall k: nat, at | IsOp(cfg, k) && k < s.recNo
      ensures Past(s', t, k, at) == Past(s, t, k, at)
    {
    }
    HistoryOf(cfg, s, t, s');
  }

  // ---------------------------------------------------------------- steps that change the memory

  /** A worker has executed what it has gone past. */
  lemma GonePast(cfg: Config, s: State, t: nat, m: nat)
    requires t in s.workers && FlowRight(cfg, s) && s.workers[t].Running? && s.workers[t].left > 0
    requires IsOp(cfg, m) && m < s.workers[t].seqNo && Op(cfg, m).thread == t
    ensures m in s.executed
  {
    Inside(cfg, s, t);
    assert Past(s, t, m, false);
  }

  /** The block that an operation looks for in the table of its thread is there. */
  lemma OwnStored(cfg: Config, s: State, t: nat, m: nat)
    requires t in s.workers && FlowRight(cfg, s) && Consistent(cfg) && s.workers[t].Running? && s.workers[t].left > 0
    requires var k := s.workers[t].seqNo;
             ReleasesOf(cfg, k, m) && Op(cfg, k).thread == t && !Op(cfg, k).allocByOther && k !in s.looked
    ensures Stored(cfg, s, m) && Op(cfg, m).thread == t && !Op(cfg, m).freeByOther
  {
    hide FlowRight;
    GonePast(cfg, s, t, m);
  }

  /** The look-up takes the entry of the matched operation, which is there. */
  lemma FindFinds(cfg: Config, s: State, t: nat, hold: Option<Block>, s': State)
    requires FlowRight(cfg, s) && Consistent(cfg) && TablesRight(cfg, s)
    requires t in s.workers && t in s.mem.own && Find(cfg, s, t, hold, s')
    ensures var k := s.workers[t].seqNo;
            IsOp(cfg, k) && Op(cfg, k) == cfg.log[s.workers[t].pos] && Op(cfg, k).thread == t && k !in s.looked
    ensures var m := Op(cfg, s.workers[t].seqNo).Match();
            if m == 0 then hold == None && s'.mem == s.mem
            else
              && Stored(cfg, s, m) && hold.Some? && Gave(s, m, hold.value) && s'.mem.heap == s.mem.heap
              && (if Op(cfg, m).freeByOther then s'.mem.own == s.mem.own && s'.mem.shared == s.mem.shared - {m}
                  else
                    && Op(cfg, m).thread == t && s'.mem.shared == s.mem.shared
                    && s'.mem.own == s.mem.own[t := s.mem.own[t] - {m}])
  {
    hide FlowRight, Stored;
    FindFlow(cfg, s, t, hold, s');
    var k := s.workers[t].seqNo;
    var m := Op(cfg, k).Match();
    if m != 0 {
      assert ReleasesOf(cfg, k, m);
      if !Op(cfg, k).allocByOther {
        OwnStored(cfg, s, t, m);
        assert m in s.mem.own[t];
      }
    }
  }

  /** What one more look-up means for the stored blocks. */
  lemma LookedMore(cfg: Config, s: State, s': State, k: nat)
    requires Consistent(cfg) && IsOp(cfg, k) && s'.looked == s.looked + {k} && s'.executed == s.executed
    requires s'.given == s.given
    ensures forall m :: Stored(cfg, s', m) <==> Stored(cfg, s, m) && Op(cfg, k).Match() != m
    ensures forall m :: Live(cfg, s', m) == Live(cfg, s, m)
    ensures forall m, b :: Gave(s', m, b) == Gave(s, m, b)
  {
    forall m
      ensures Stored(cfg, s', m) <==> Stored(cfg, s, m) && Op(cfg, k).Match() != m
    {
      assert m != 0 && Op(cfg, k).Match() == m ==> ReleasesOf(cfg, k, m);
    }
  }

  lemma FindTables(cfg: Config, s: State, t: nat, hold: Option<Block>, s': State)
    requires FlowRight(cfg, s) && Consistent(cfg) && TablesRight(cfg, s) && HeapRight(cfg, s)
    requires t in s.workers && t in s.mem.own && Find(cfg, s, t, hold, s')
    ensures TablesRight(cfg, s') && HeapRight(cfg, s')
  {
    hide FlowRight, Stored, Live, Gave, LookUp, TablesRight;
    FindFinds(cfg, s, t, hold, s');
    LookedMore(cfg, s, s', s.workers[t].seqNo);
    var m := Op(cfg, s.workers[t].seqNo).Match();
    if m == 0 {
      NoStoredZero(cfg, s);
      TablesSame(cfg, s, s');
    } else {
      TablesLess(cfg, s, s', m);
    }
  }

  lemma NoStoredZero(cfg: Config, s: State)
    ensures !Stored(cfg, s, 0) && !Live(cfg, s, 0)
  {
  }

  lemma TablesSame(cfg: Config, s: State, s': State)
    requires TablesRight(cfg, s) && s'.mem.own == s.mem.own && s'.mem.shared == s.mem.shared
    requires forall x :: Stored(cfg, s', x) == Stored(cfg, s, x)
    requires forall x, b :: Gave(s', x, b) == Gave(s, x, b)
    ensures TablesRight(cfg, s')
  {
    hide Stored, Gave;
  }

  /** Taking the entry of one operation out of the table it is in. */
  lemma TablesLess(cfg: Config, s: State, s': State, m: nat)
    requires TablesRight(cfg, s) && Stored(cfg, s, m) && cfg.IsThread(Op(cfg, m).thread)
    requires var t := Op(cfg, m).thread;
             if Op(cfg, m).freeByOther then s'.mem.own == s.mem.own && s'.mem.shared == s.mem.shared - {m}
             else s'.mem.shared == s.mem.shared && s'.mem.own == s.mem.own[t := s.mem.own[t] - {m}]
    requires forall x :: Stored(cfg, s', x) <==> Stored(cfg, s, x) && x != m
    requires forall x, b :: Gave(s', x, b) == Gave(s, x, b)
    ensures TablesRight(cfg, s')
  {
    hide Gave;
    assert forall x :: Stored(cfg, s, x) ==> IsOp(cfg, x) && Op(cfg, x).Allocates();
    hide Stored;
  }

  lemma FindKeeps(cfg: Config, s: State, t: nat, hold: Option<Block>, s': State)
    requires Invariant(cfg, s) && Consistent(cfg) && t in s.workers && t in s.mem.own && Find(cfg, s, t, hold, s')
    ensures Invariant(cfg, s')
  {
    hide QueueRight, BarrierRight, CursorRight, HistoryRight, TablesRight, HeapRight, LookUp;
    FindFlow(cfg, s, t, hold, s');
    FindFinds(cfg, s, t, hold, s');
    FindTables(cfg, s, t, hold, s');
    var k := s.workers[t].seqNo;
    assert LookedRight(cfg, s') by {
      forall k', m | ReleasesOf(cfg, k', m) && k' in s'.looked
        ensures m in s'.executed
      {
        assert k' == k ==> Stored(cfg, s, m);
      }
    }
    forall u | u in s'.workers
      ensures HoldsRight(cfg, s', u)
    {
      assert u != t ==> HoldsRight(cfg, s, u);
    }
  }

  /** The block that a worker is about to give back is allocated, and it is the one that the matched
      operation got. */
  lemma HoldsLive(cfg: Config, s: State, t: nat)
    requires Invariant(cfg, s) && Consistent(cfg) && t in s.workers && AtOwn(cfg, s.workers[t], t)
    requires s.workers[t].stage.Act?
    ensures var w := s.workers[t];
            && IsOp(cfg, w.seqNo) && Op(cfg, w.seqNo) == cfg.log[w.pos] && w.seqNo !in s.executed && w.seqNo in s.looked
            && var m := cfg.log[w.pos].Match();
               if m == 0 then w.stage.hold == None
               else
                 && w.stage.hold.Some? && Live(cfg, s, m) && Gave(s, m, w.stage.hold.value)
                 && w.stage.hold.value in s.mem.heap
  {
    hide QueueRight, BarrierRight, TablesRight, CursorAt;
    var w := s.workers[t];
    Inside(cfg, s, t);
    CursorNext(cfg, w.pos, w.seqNo);
    var k, m := w.seqNo, cfg.log[w.pos].Match();
    assert !Past(s, t, k, false) && Past(s, t, k, true);
    if m != 0 {
      assert ReleasesOf(cfg, k, m);
      assert m in s.executed;
      assert HoldsRight(cfg, s, t);
    }
  }

  /** An operation that has been executed has had its look-up. */
  lemma ExecutedLooked(cfg: Config, s: State, k: nat)
    requires HistoryRight(cfg, s) && k in s.executed
    ensures IsOp(cfg, k) && k in s.looked
  {
    if IsOp(cfg, k) && k < s.recNo {
      assert Past(s, Op(cfg, k).thread, k, false);
      assert Past(s, Op(cfg, k).thread, k, true);
    }
  }

  /** What executing operation `k` means for the blocks. */
  lemma ExecutedMore(cfg: Config, s: State, s': State, k: nat)
    requires Consistent(cfg) && HistoryRight(cfg, s) && LookedRight(cfg, s)
    requires IsOp(cfg, k) && k !in s.executed && s'.executed == s.executed + multiset{k} && s'.looked == s.looked
    ensures forall m :: Stored(cfg, s', m) <==> Stored(cfg, s, m) || (m == k && Op(cfg, k).Allocates())
    ensures forall m :: Live(cfg, s', m) <==>
              (Live(cfg, s, m) && Op(cfg, k).Match() != m) || (m == k && Op(cfg, k).Allocates())
    ensures !Stored(cfg, s, k) && !Live(cfg, s, k)
  {
    assert forall j | ReleasesOf(cfg, j, k) :: j !in s.looked;
    forall j | j in s.executed
      ensures j in s.looked
    {
      ExecutedLooked(cfg, s, j);
    }
    forall m
      ensures Live(cfg, s', m) <==> (Live(cfg, s, m) && Op(cfg, k).Match() != m) || (m == k && Op(cfg, k).Allocates())
    {
      assert m != 0 && Op(cfg, k).Match() == m ==> ReleasesOf(cfg, k, m);
    }
  }

  /** Putting the block of one operation into the table in which it will be looked for. */
  lemma TablesMore(cfg: Config, s: State, s': State, k: nat, b: Block)
    requires TablesRight(cfg, s) && IsOp(cfg, k) && Op(cfg, k).Allocates() && cfg.IsThread(Op(cfg, k).thread)
    requires !Stored(cfg, s, k) && forall x :: Stored(cfg, s', x) <==> Stored(cfg, s, x) || x == k
    requires Gave(s', k, b) && forall x, c | x != k :: Gave(s', x, c) == Gave(s, x, c)
    requires var t := Op(cfg, k).thread;
             var table: map<nat, Block> := s.mem.own[t][k := b];
             if Op(cfg, k).freeByOther then s'.mem.own == s.mem.own && s'.mem.shared == s.mem.shared[k := b]
             else s'.mem.shared == s.mem.shared && s'.mem.own == s.mem.own[t := table]
    ensures TablesRight(cfg, s')
  {
    hide Gave;
    assert forall x :: Stored(cfg, s', x) ==> IsOp(cfg, x) && Op(cfg, x).Allocates();
    hide Stored;
  }

  lemma OwnBlocksLess(live: iset<nat>, given: map<nat, Block>, heap: set<Block>, m: nat)
    requires OwnBlocks(live, given, heap) && m in live
    ensures OwnBlocks(live - iset{m}, given, heap - {given[m]})
  {
    forall b | b in heap - {given[m]}
      ensures exists x :: x in live - iset{m} && x in given && given[x] == b
    {
      var x :| x in live && x in given && given[x] == b;
      assert x in live - iset{m};
    }
  }

  lemma OwnBlocksMore(live: iset<nat>, given: map<nat, Block>, heap: set<Block>, k: nat, b: Block)
    requires OwnBlocks(live, given, heap) && k !in live && b !in heap
    ensures OwnBlocks(live + iset{k}, given[k := b], heap + {b})
  {
    var given' := given[k := b];
    forall c | c in heap + {b}
      ensures exists x :: x in live + iset{k} && x in given' && given'[x] == c
    {
      if c == b {
        assert k in live + iset{k} && given'[k] == c;
      } else {
        var x :| x in live && x in given && given[x] == c;
        assert x in live + iset{k} && given'[x] == c;
      }
    }
  }

  lemma LiveGiven(cfg: Config, s: State)
    requires HeapRight(cfg, s)
    ensures forall m | Live(cfg, s, m) :: m in s.given
  {
  }

  /** The heap after operation `k` has given back the block of operation `m` and has got the block `b`. */
  lemma HeapAfter(cfg: Config, s: State, s': State, k: nat, m: nat, b: Block)
    requires HeapRight(cfg, s) && IsOp(cfg, k) && k !in s.executed && s'.executed == s.executed + multiset{k}
    requires Live(cfg, s, m) || m == 0
    requires !Live(cfg, s, k) && !Live(cfg, s, 0)
    requires forall x :: Live(cfg, s', x) <==> (Live(cfg, s, x) && x != m) || (x == k && Op(cfg, k).Allocates())
    requires s'.given == if Op(cfg, k).Allocates() then s.given[k := b] else s.given
    requires var rest := if m != 0 then s.mem.heap - {s.given[m]} else s.mem.heap;
             if Op(cfg, k).Allocates() then b !in rest && s'.mem.heap == rest + {b} else s'.mem.heap == rest
    ensures HeapRight(cfg, s')
  {
    hide Live, OwnBlocks;
    var live := LiveOnes(cfg, s);
    LiveGiven(cfg, s);
    var rest := if m != 0 then s.mem.heap - {s.given[m]} else s.mem.heap;
    if m != 0 {
      OwnBlocksLess(live, s.given, s.mem.heap, m);
    } else {
      assert live - iset{m} == live;
    }
    if Op(cfg, k).Allocates() {
      OwnBlocksMore(live - iset{m}, s.given, rest, k, b);
      assert LiveOnes(cfg, s') == live - iset{m} + iset{k};
    } else {
      assert LiveOnes(cfg, s') == live - iset{m};
    }
  }

  lemma ExecuteMemory(cfg: Config, s: State, t: nat, b: Block, s': State)
    requires Invariant(cfg, s) && Consistent(cfg) && t in s.workers && t in s.mem.own && Execute(cfg, s, t, b, s')
    ensures TablesRight(cfg, s') && HeapRight(cfg, s')
  {
    hide QueueRight, BarrierRight, CursorRight, HistoryRight, TablesRight, HeapRight, LookedRight, Stored, Live;
    var k := s.workers[t].seqNo;
    HoldsLive(cfg, s, t);
    ExecutedMore(cfg, s, s', k);
    NoStoredZero(cfg, s);
    HeapAfter(cfg, s, s', k, Op(cfg, k).Match(), b);
    if Op(cfg, k).Allocates() {
      TablesMore(cfg, s, s', k, b);
    } else {
      TablesSame(cfg, s, s');
    }
  }

  lemma ExecuteKeeps(cfg: Config, s: State, t: nat, b: Block, s': State)
    requires Invariant(cfg, s) && Consistent(cfg) && t in s.workers && t in s.mem.own && Execute(cfg, s, t, b, s')
    ensures Invariant(cfg, s')
  {
    hide QueueRight, BarrierRight, CursorRight, HistoryRight, TablesRight, HeapRight, Call, Live;
    var k := s.workers[t].seqNo;
    HoldsLive(cfg, s, t);
    assert s.looked + {k} == s.looked;
    AdvancesKeeps(cfg, s, t, s');
    ExecuteMemory(cfg, s, t, b, s');
    GivenExecuted(cfg, s);
    forall u | u in s'.workers
      ensures HoldsRight(cfg, s', u)
    {
      assert u != t ==> HoldsRight(cfg, s, u);
    }
  }

  lemma GivenExecuted(cfg: Config, s: State)
    requires HeapRight(cfg, s)
    ensures forall m | m in s.given :: m in s.executed
  {
  }

  /** Leaving out a free whose block is not known changes nothing in memory. */
  lemma UnmatchedKeeps(cfg: Config, s: State, t: nat, s': State)
    requires Invariant(cfg, s) && Consistent(cfg) && t in s.workers && Advances(cfg, s, t, s')
    requires s'.mem == s.mem && s'.given == s.given
    requires cfg.log[s.workers[t].pos].thread == t ==>
               cfg.log[s.workers[t].pos].Free? && cfg.log[s.workers[t].pos].matched == 0
    ensures Invariant(cfg, s')
  {
    hide QueueRight, BarrierRight, CursorRight, HistoryRight, TablesRight, HeapRight, Stored, Live;
    AdvancesKeeps(cfg, s, t, s');
    if cfg.log[s.workers[t].pos].thread == t {
      UnmatchedMemory(cfg, s, s', s.workers[t].seqNo);
    } else {
      MemoryKept(cfg, s, s');
    }
    forall u | u in s'.workers
      ensures HoldsRight(cfg, s', u)
    {
      assert u != t ==> HoldsRight(cfg, s, u);
    }
  }

  lemma UnmatchedMemory(cfg: Config, s: State, s': State, k: nat)
    requires TablesRight(cfg, s) && HeapRight(cfg, s) && LookedRight(cfg, s) && s'.mem == s.mem && s'.given == s.given
    requires IsOp(cfg, k) && Op(cfg, k).Free? && Op(cfg, k).matched == 0
    requires s'.executed == s.executed + multiset{k} && s'.looked == s.looked + {k}
    ensures TablesRight(cfg, s') && HeapRight(cfg, s') && LookedRight(cfg, s')
  {
    hide TablesRight, Stored, Live, OwnBlocks;
    assert forall m :: !ReleasesOf(cfg, k, m);
    UnmatchedSame(cfg, s, s', k);
    assert LiveOnes(cfg, s') == LiveOnes(cfg, s);
    TablesSame(cfg, s, s');
  }

  lemma UnmatchedSame(cfg: Config, s: State, s': State, k: nat)
    requires IsOp(cfg, k) && Op(cfg, k).Free? && Op(cfg, k).matched == 0
    requires s'.executed == s.executed + multiset{k} && s'.looked == s.looked + {k} && s'.given == s.given
    ensures forall m :: Stored(cfg, s', m) == Stored(cfg, s, m)
    ensures forall m :: Live(cfg, s', m) == Live(cfg, s, m)
    ensures forall m, b :: Gave(s', m, b) == Gave(s, m, b)
  {
    assert forall m :: !ReleasesOf(cfg, k, m);
  }

  // ---------------------------------------------------------------- every step

  lemma ControllerKeeps(cfg: Config, s: State, s': State)
    requires Invariant(cfg, s) && Consistent(cfg) && ControllerStep(cfg, s, s')
    ensures Invariant(cfg, s')
  {
    hide QueueRight, BarrierRight, CursorRight, HistoryRight, TablesRight, HeapRight, LookedRight, HoldsRight;
    hide TakeRecord, BufferEnds, LogEnds, Count, Wake, Resume, Quit;
    if TakeRecord(cfg, s, s') {
      TakeRecordKeeps(cfg, s, s');
    } else if BufferEnds(cfg, s, s', false) || BufferEnds(cfg, s, s', true) || LogEnds(cfg, s, s') {
      BatchEndsKeeps(cfg, s, s');
    } else if Count(cfg, s, s') {
      CountKeeps(cfg, s, s');
    } else if Wake(cfg, s, s') {
      WakeKeeps(cfg, s, s');
    } else if Resume(cfg, s, s') {
      ResumeKeeps(cfg, s, s');
    } else {
      QuitKeeps(cfg, s, s');
    }
    MemoryKept(cfg, s, s');
    SameHolds(cfg, s, s');
  }

  lemma SameHolds(cfg: Config, s: State, s': State)
    requires s'.workers == s.workers && s'.given == s.given && forall t | t in s.workers :: HoldsRight(cfg, s, t)
    ensures forall t | t in s'.workers :: HoldsRight(cfg, s', t)
  {
    forall t | t in s'.workers
      ensures HoldsRight(cfg, s', t)
    {
      assert HoldsRight(cfg, s, t);
    }
  }

  /** A step of a worker that changes neither memory nor history. */
  lemma QuietKeeps(cfg: Config, s: State, t: nat, s': State)
    requires Invariant(cfg, s) && t in s.workers && FlowRight(cfg, s') && SameMemory(s, s')
    requires t in s'.workers && s'.workers == s.workers[t := s'.workers[t]]
    requires s'.workers[t].Running? ==> s'.workers[t].stage == Look
    ensures Invariant(cfg, s')
  {
    hide QueueRight, BarrierRight, CursorRight, HistoryRight, TablesRight, HeapRight, LookedRight;
    MemoryKept(cfg, s, s');
    forall u | u in s'.workers
      ensures HoldsRight(cfg, s', u)
    {
      assert u != t ==> HoldsRight(cfg, s, u);
    }
  }

  lemma PassKeeps(cfg: Config, s: State, t: nat, s': State)
    requires Invariant(cfg, s) && Consistent(cfg) && t in s.workers && Pass(cfg, s, t, s')
    ensures Invariant(cfg, s')
  {
    hide QueueRight, BarrierRight, CursorRight, HistoryRight, TablesRight, HeapRight, LookedRight;
    if cfg.log[s.workers[t].pos].Timestamp? {
      StampKeeps(cfg, s, t, s');
      QuietKeeps(cfg, s, t, s');
    } else {
      UnmatchedKeeps(cfg, s, t, s');
    }
  }

  lemma WorkerKeeps(cfg: Config, s: State, t: nat, s': State)
    requires Invariant(cfg, s) && Consistent(cfg) && t in s.workers && t in s.mem.own && WorkerStep(cfg, s, t, s')
    ensures Invariant(cfg, s')
  {
    hide QueueRight, BarrierRight, CursorRight, HistoryRight, TablesRight;
    hide HeapRight, LookedRight, HoldsRight, Find, Execute, Pass;
    if Start(s, t, s') {
      StartKeeps(cfg, s, t, s');
      QuietKeeps(cfg, s, t, s');
    } else if Pass(cfg, s, t, s') {
      PassKeeps(cfg, s, t, s');
    } else if hold :| Find(cfg, s, t, hold, s') {
      FindKeeps(cfg, s, t, hold, s');
    } else if b :| Execute(cfg, s, t, b, s') {
      ExecuteKeeps(cfg, s, t, b, s');
    } else {
      FinishKeeps(cfg, s, t, s');
      QuietKeeps(cfg, s, t, s');
    }
  }

  /** The invariant holds after every step, whichever thread takes it. */
  lemma NextKeeps(cfg: Config, s: State, s': State)
    requires Invariant(cfg, s) && Consistent(cfg) && Next(cfg, s, s')
    ensures Invariant(cfg, s')
  {
    hide Invariant, ControllerStep, WorkerStep;
    if ControllerStep(cfg, s, s') {
      ControllerKeeps(cfg, s, s');
    } else {
      var t :| t in s.workers && t in s.mem.own && WorkerStep(cfg, s, t, s');
      WorkerKeeps(cfg, s, t, s');
    }
  }
}
