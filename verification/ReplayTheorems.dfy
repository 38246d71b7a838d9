/** What the replay of a consolidated log does, in every interleaving of its threads. */
module ReplayTheorems {
  import opened MallocLog
  import opened Replay
  import opened ReplaySafety
  import Matching

  // ---------------------------------------------------------------- runs

  ghost predicate IsRun(cfg: Config, run: seq<State>) {
    run != [] && run[0] == Initial(cfg) && forall i | 0 <= i < |run| - 1 :: Next(cfg, run[i], run[i + 1])
  }

  lemma {:induction false} RunSafe(cfg: Config, run: seq<State>, i: nat)
    requires Consistent(cfg) && IsRun(cfg, run) && i < |run|
    ensures Invariant(cfg, run[i])
  {
    hide Invariant, Next;
    if i == 0 {
      InitialInvariant(cfg);
    } else {
      RunSafe(cfg, run, i - 1);
      NextKeeps(cfg, run[i - 1], run[i]);
    }
  }

  // ---------------------------------------------------------------- the barrier

  /** The worker waits at its closed lock. */
  ghost predicate Waits(s: State, t: nat) {
    t in s.workers && s.workers[t] == Idle && t !in s.open
  }

  /** A worker leaves the controller's variables and the other workers alone. */
  lemma WorkerKeepsControl(cfg: Config, s: State, t: nat, s': State)
    requires t in s.workers && t in s.mem.own && WorkerStep(cfg, s, t, s')
    ensures OnlyWorker(s, t, s')
  {
    hide Start, Pass, Find, Execute, Finish;
    if Start(s, t, s') || Finish(s, t, s') {
      GateMoves(s, t, s');
    } else if Pass(cfg, s, t, s') {
      PassMoves(cfg, s, t, s');
    } else if hold :| Find(cfg, s, t, hold, s') {
      FindMoves(cfg, s, t, hold, s');
    } else {
      var b :| Execute(cfg, s, t, b, s');
      ExecuteMoves(cfg, s, t, b, s');
    }
  }

  lemma GateMoves(s: State, t: nat, s': State)
    requires t in s.workers && (Start(s, t, s') || Finish(s, t, s'))
    ensures OnlyWorker(s, t, s')
  {
  }

  lemma PassMoves(cfg: Config, s: State, t: nat, s': State)
    requires t in s.workers && Pass(cfg, s, t, s')
    ensures OnlyWorker(s, t, s')
  {
  }

  lemma FindMoves(cfg: Config, s: State, t: nat, hold: Option<Block>, s': State)
    requires t in s.workers && t in s.mem.own && Find(cfg, s, t, hold, s')
    ensures OnlyWorker(s, t, s')
  {
    hide LookUp;
  }

  lemma ExecuteMoves(cfg: Config, s: State, t: nat, b: Block, s': State)
    requires t in s.workers && t in s.mem.own && Execute(cfg, s, t, b, s')
    ensures OnlyWorker(s, t, s')
  {
    hide Call;
  }

  lemma ControllerChanges(cfg: Config, s: State, s': State)
    requires Next(cfg, s, s') && s'.jobs != s.jobs
    ensures ControllerStep(cfg, s, s')
  {
    hide ControllerStep, WorkerStep;
    if !ControllerStep(cfg, s, s') {
      var t :| t in s.workers && t in s.mem.own && WorkerStep(cfg, s, t, s');
      WorkerKeepsControl(cfg, s, t, s');
    }
  }

  /** Every operation up to `n` has been executed, once. */
  ghost predicate ExecutedBelow(cfg: Config, s: State, n: int) {
    forall k: nat | IsOp(cfg, k) && k < n :: s.executed[k] == 1
  }

  lemma AllPast(cfg: Config, s: State)
    requires BarrierRight(cfg, s) && HistoryRight(cfg, s) && QueueRight(cfg, s) && Consistent(cfg)
    ensures ExecutedBelow(cfg, s, First(s))
    ensures Busy(s) && s.finished == s.active ==> ExecutedBelow(cfg, s, s.recNo)
    ensures !Busy(s) && s.jobs.total == 0 ==> ExecutedBelow(cfg, s, s.recNo)
    ensures !Busy(s) && s.active == {} ==> ExecutedBelow(cfg, s, s.recNo)
  {
    hide WorkerRight, CursorAt;
    forall k: nat | IsOp(cfg, k) && k < s.recNo
      ensures cfg.IsThread(Op(cfg, k).thread) && (k >= First(s) ==> Op(cfg, k).thread in s.active)
      ensures k < First(s) ==> s.executed[k] == 1
    {
    }
  }

  lemma NoneRuns(cfg: Config, s: State)
    requires BarrierRight(cfg, s)
    ensures !s.allDone && (!Busy(s) || s.finished == s.active) ==> forall t | t in s.workers :: Waits(s, t)
  {
    forall t | t in s.workers
      ensures !s.allDone && (!Busy(s) || s.finished == s.active) ==> Waits(s, t)
    {
      assert WorkerRight(cfg, s, t);
    }
  }

  /** The queue takes a record, begins anew, or stays. */
  ghost predicate QueueMoves(cfg: Config, s: State, s': State) {
    || (s'.jobs.offset == s.jobs.offset && s'.next == s.next && (s'.control == Filling ==> s.control == Filling))
    || (s'.jobs.offset == s'.next == s.next)
    || (s'.jobs.offset == s.jobs.offset && s'.next == s.next + 1 <= |cfg.log| && s.control == Filling
        && (cfg.log[s.next].Timestamp? && !cfg.ignoreTimestamps ==> s'.control != Filling))
  }

  lemma TakeRecordMoves(cfg: Config, s: State, s': State)
    requires TakeRecord(cfg, s, s')
    ensures QueueMoves(cfg, s, s')
  {
  }

  lemma BatchEndMoves(cfg: Config, s: State, s': State)
    requires BufferEnds(cfg, s, s', false) || BufferEnds(cfg, s, s', true) || LogEnds(cfg, s, s')
    ensures QueueMoves(cfg, s, s') && s'.jobs == s.jobs
  {
  }

  lemma ResetMoves(cfg: Config, s: State, s': State)
    requires Count(cfg, s, s') || Resume(cfg, s, s')
    ensures QueueMoves(cfg, s, s')
  {
  }

  lemma OpeningMoves(cfg: Config, s: State, s': State)
    requires Wake(cfg, s, s') || Quit(cfg, s, s')
    ensures QueueMoves(cfg, s, s') && s'.jobs == s.jobs
  {
  }

  /** The batch is not under way, and `s'` has the same batch or the next one. */
  ghost predicate ChangesQuietly(s: State, s': State) {
    && !s.allDone && (!Busy(s) || s.finished == s.active) && s'.workers == s.workers && s'.open == s.open
    && (First(s') == First(s) || (First(s') == s.recNo && (Busy(s) || s.active == {})))
  }

  lemma TakeRecordQuiet(cfg: Config, s: State, s': State)
    requires BarrierRight(cfg, s) && TakeRecord(cfg, s, s')
    ensures ChangesQuietly(s, s')
  {
    hide WorkerRight;
  }

  lemma ResetQuiet(cfg: Config, s: State, s': State)
    requires BarrierRight(cfg, s) && (Count(cfg, s, s') || Resume(cfg, s, s')) && s'.jobs != s.jobs
    ensures ChangesQuietly(s, s')
  {
    hide WorkerRight;
  }

  /** The queue changes in the steps that fill it and that clear it. */
  lemma QueueChanges(cfg: Config, s: State, s': State)
    requires BarrierRight(cfg, s) && ControllerStep(cfg, s, s') && s'.jobs != s.jobs
    ensures ChangesQuietly(s, s')
  {
    hide BarrierRight, ChangesQuietly, TakeRecord, BufferEnds, LogEnds, Count, Resume, Wake, Quit;
    if TakeRecord(cfg, s, s') {
      TakeRecordQuiet(cfg, s, s');
    } else if Count(cfg, s, s') || Resume(cfg, s, s') {
      ResetQuiet(cfg, s, s');
    } else if Wake(cfg, s, s') || Quit(cfg, s, s') {
      OpeningMoves(cfg, s, s');
    } else {
      BatchEndMoves(cfg, s, s');
    }
  }

  /** The controller changes the queue only while every worker waits at its lock, and goes on to a new
      batch only when every operation before it has been executed, once. */
  lemma QueueChangesQuietly(cfg: Config, s: State, s': State)
    requires Invariant(cfg, s) && Consistent(cfg) && Next(cfg, s, s') && s'.jobs != s.jobs
    ensures forall t | t in s.workers :: Waits(s, t) && Waits(s', t)
    ensures ExecutedBelow(cfg, s, First(s'))
  {
    hide QueueRight, CursorRight, TablesRight, HeapRight, LookedRight;
    hide HoldsRight, HistoryRight, BarrierRight, Next, ControllerStep, ExecutedBelow;
    ControllerChanges(cfg, s, s');
    QueueChanges(cfg, s, s');
    AllPast(cfg, s);
    NoneRuns(cfg, s);
  }

  /** No lock is opened that is open already. */
  lemma LocksOpenOnce(cfg: Config, s: State, s': State)
    requires Invariant(cfg, s)
    ensures Wake(cfg, s, s') && s.control.i in s.active ==> s.control.i !in s.open
    ensures Quit(cfg, s, s') && cfg.IsThread(s.control.i) ==> s.control.i !in s.open
    ensures forall t | t in s.workers && Finish(s, t, s') && s'.controllerOpen ::
              !s.controllerOpen && s'.finished == s'.active
  {
    hide CursorRight, TablesRight, HeapRight, LookedRight, HoldsRight, HistoryRight;
    if Wake(cfg, s, s') && s.control.i in s.active {
      assert WorkerRight(cfg, s, s.control.i);
    }
    if Quit(cfg, s, s') && cfg.IsThread(s.control.i) {
      assert WorkerRight(cfg, s, s.control.i);
    }
    forall t | t in s.workers && Finish(s, t, s') && s'.controllerOpen
      ensures !s.controllerOpen && s'.finished == s'.active
    {
      assert WorkerRight(cfg, s, t);
      FinishCounts(s.active, s.finished, t);
    }
  }

  // ---------------------------------------------------------------- every operation once, by its thread

  /** Whatever a worker executes is an operation of its own that nobody has executed before. */
  lemma ExecutesOwnOnce(cfg: Config, s: State, t: nat, s': State, k: nat)
    requires Invariant(cfg, s) && Consistent(cfg) && t in s.workers && t in s.mem.own && WorkerStep(cfg, s, t, s')
    requires s'.executed[k] != s.executed[k]
    ensures IsOp(cfg, k) && Op(cfg, k).thread == t && s.executed[k] == 0 && s'.executed[k] == 1
  {
    hide QueueRight, BarrierRight, CursorRight, HistoryRight, TablesRight;
    hide HeapRight, LookedRight, HoldsRight, LookUp, Call;
    var w := s.workers[t];
    assert w.Running? && k == w.seqNo && cfg.log[w.pos].IsOp() && cfg.log[w.pos].thread == t;
    AtCursor(cfg, s, t);
  }

  lemma AtCursor(cfg: Config, s: State, t: nat)
    requires Invariant(cfg, s) && t in s.workers && s.workers[t].Running? && s.workers[t].left > 0
    ensures var w := s.workers[t];
            && w.pos < s.next <= |cfg.log| && w.seqNo < s.recNo
            && (cfg.log[w.pos].IsOp() ==>
                  && IsOp(cfg, w.seqNo) && Op(cfg, w.seqNo) == cfg.log[w.pos]
                  && (cfg.log[w.pos].thread == t ==> s.executed[w.seqNo] == 0))
  {
    hide CursorRight, TablesRight, HeapRight, LookedRight, HoldsRight, CursorAt;
    var w := s.workers[t];
    Inside(cfg, s, t);
    CursorNext(cfg, w.pos, w.seqNo);
    assert !Past(s, t, w.seqNo, false);
  }

  ghost predicate Final(cfg: Config, s: State) {
    s.control == Gone && forall t | t in s.workers :: s.workers[t] == Exited
  }

  /** The operations whose blocks no operation gives back. */
  ghost function NeverReleased(cfg: Config): iset<nat> {
    iset m: nat | IsOp(cfg, m) && Op(cfg, m).Allocates() && (forall k :: !ReleasesOf(cfg, k, m))
  }

  /** In the end every operation has been executed exactly once, and the heap holds exactly the blocks
      that no operation gave back. */
  lemma FinalComplete(cfg: Config, s: State)
    requires Invariant(cfg, s) && Consistent(cfg) && Final(cfg, s)
    ensures forall k | IsOp(cfg, k) :: s.executed[k] == 1
    ensures OwnBlocks(NeverReleased(cfg), s.given, s.mem.heap)
  {
    hide CursorRight, TablesRight, LookedRight, HoldsRight, HistoryRight, OwnBlocks;
    AllPast(cfg, s);
    CursorBefore(cfg, s.next, s.recNo, s.next, s.recNo);
    assert cfg.log[..s.next] == cfg.log;
    assert LiveOnes(cfg, s) == NeverReleased(cfg);
  }

  // ---------------------------------------------------------------- look-ups

  /** The look-up of the operation the worker has come to will not have to be tried again. */
  ghost predicate NotBlocked(cfg: Config, s: State, t: nat)
    requires t in s.workers && AtOwn(cfg, s.workers[t], t)
  {
    var r := cfg.log[s.workers[t].pos];
    r.Match() != 0 && r.allocByOther ==> r.matched in s.mem.shared
  }

  /** The worker has come to an operation whose look-up is next. */
  ghost predicate AtLookUp(cfg: Config, s: State, t: nat) {
    t in s.workers && AtOwn(cfg, s.workers[t], t) && s.workers[t].stage == Look
  }

  /** Every look-up finds the block of the matched operation, in the very table it searches, as soon as
      that operation has been executed. */
  lemma LookUpFinds(cfg: Config, s: State, t: nat)
    requires Invariant(cfg, s) && Consistent(cfg) && AtLookUp(cfg, s, t)
    ensures var w := s.workers[t];
            IsOp(cfg, w.seqNo) && Op(cfg, w.seqNo) == cfg.log[w.pos] && w.seqNo < s.recNo && s.executed[w.seqNo] == 0
    ensures var r := cfg.log[s.workers[t].pos];
            && (r.Match() != 0 && !r.allocByOther ==>
                  t in s.mem.own && r.matched in s.mem.own[t] && Gave(s, r.matched, s.mem.own[t][r.matched]))
            && (r.Match() != 0 && r.allocByOther && r.matched in s.executed ==>
                  r.matched in s.mem.shared && Gave(s, r.matched, s.mem.shared[r.matched]))
  {
    hide QueueRight, BarrierRight, CursorRight, HistoryRight, HeapRight, LookedRight, HoldsRight, Stored;
    var r, k := cfg.log[s.workers[t].pos], s.workers[t].seqNo;
    AtCursor(cfg, s, t);
    NotLooked(cfg, s, t);
    if r.Match() != 0 {
      assert ReleasesOf(cfg, k, r.matched);
      if !r.allocByOther {
        OwnStored(cfg, s, t, r.matched);
      } else if r.matched in s.executed {
        StoredWhenExecuted(cfg, s, k, r.matched);
      }
    }
  }

  lemma NotLooked(cfg: Config, s: State, t: nat)
    requires Invariant(cfg, s) && AtLookUp(cfg, s, t)
    ensures cfg.IsThread(t) && s.workers[t].seqNo !in s.looked
  {
    hide CursorRight, TablesRight, HeapRight, LookedRight, HoldsRight, CursorAt;
    var w := s.workers[t];
    Inside(cfg, s, t);
    CursorNext(cfg, w.pos, w.seqNo);
    assert !Past(s, t, w.seqNo, true);
  }

  lemma StoredWhenExecuted(cfg: Config, s: State, k: nat, m: nat)
    requires Consistent(cfg) && ReleasesOf(cfg, k, m) && k !in s.looked && m in s.executed
    ensures Stored(cfg, s, m) && Op(cfg, m).freeByOther == Op(cfg, k).allocByOther
  {
  }

  /** The smallest operation that has not been executed is never blocked. */
  lemma SmallestNotBlocked(cfg: Config, s: State, t: nat)
    requires Invariant(cfg, s) && Consistent(cfg) && AtLookUp(cfg, s, t) && ExecutedBelow(cfg, s, s.workers[t].seqNo)
    ensures NotBlocked(cfg, s, t)
  {
    hide Invariant;
    LookUpFinds(cfg, s, t);
    var r, k := cfg.log[s.workers[t].pos], s.workers[t].seqNo;
    if r.Match() != 0 && r.allocByOther {
      assert ReleasesOf(cfg, k, r.matched);
    }
  }

  // ---------------------------------------------------------------- batches that end at timestamps

  /** Unless timestamps are ignored, a batch has no timestamp inside. */
  ghost predicate CutRight(cfg: Config, s: State) {
    !cfg.ignoreTimestamps ==>
      s.next <= |cfg.log| && forall i | s.jobs.offset <= i < s.next && cfg.log[i].Timestamp? ::
        i == s.next - 1 && s.control != Filling
  }

  lemma CutController(cfg: Config, s: State, s': State)
    requires CutRight(cfg, s) && ControllerStep(cfg, s, s')
    ensures CutRight(cfg, s')
  {
    hide TakeRecord, BufferEnds, LogEnds, Count, Resume, Wake, Quit;
    if TakeRecord(cfg, s, s') {
      TakeRecordMoves(cfg, s, s');
    } else if Count(cfg, s, s') || Resume(cfg, s, s') {
      ResetMoves(cfg, s, s');
    } else if Wake(cfg, s, s') || Quit(cfg, s, s') {
      OpeningMoves(cfg, s, s');
    } else {
      BatchEndMoves(cfg, s, s');
    }
  }

  lemma CutKept(cfg: Config, s: State, s': State)
    requires CutRight(cfg, s) && Next(cfg, s, s')
    ensures CutRight(cfg, s')
  {
    hide WorkerStep, ControllerStep;
    if ControllerStep(cfg, s, s') {
      CutController(cfg, s, s');
    } else {
      var t :| t in s.workers && t in s.mem.own && WorkerStep(cfg, s, t, s');
      WorkerKeepsControl(cfg, s, t, s');
    }
  }

  lemma {:induction false} RunCut(cfg: Config, run: seq<State>, i: nat)
    requires IsRun(cfg, run) && i < |run|
    ensures CutRight(cfg, run[i])
  {
    hide CutRight, Next;
    if i == 0 {
      InitialCut(cfg);
    } else {
      RunCut(cfg, run, i - 1);
      CutKept(cfg, run[i - 1], run[i]);
    }
  }

  lemma InitialCut(cfg: Config)
    ensures CutRight(cfg, Initial(cfg))
  {
  }

  /** A batch is closed by the end of the buffer or of the log, and by a timestamp only where timestamps count. */
  lemma BatchCloses(cfg: Config, s: State, s': State)
    requires Next(cfg, s, s') && s.control == Filling && s'.control != Filling
    ensures s'.refills == s.refills - 1 || s.next == |cfg.log|
            || (s.next < |cfg.log| && cfg.log[s.next].Timestamp? && !cfg.ignoreTimestamps && s'.next == s.next + 1)
  {
    hide WorkerStep;
    if !ControllerStep(cfg, s, s') {
      var t :| t in s.workers && t in s.mem.own && WorkerStep(cfg, s, t, s');
      WorkerKeepsControl(cfg, s, t, s');
    }
  }

  /** Until the buffer ends for the first time, a batch that is closed ends with a timestamp or with the
      log; where timestamps are ignored, the whole log is one batch. */
  ghost predicate CloseRight(cfg: Config, s: State) {
    && s.jobs.offset <= s.next <= |cfg.log| && s.refills <= cfg.refills
    && (s.refills == cfg.refills ==>
          && (s.control != Filling ==>
                s.next == |cfg.log|
                || (!cfg.ignoreTimestamps && s.next > 0 && cfg.log[s.next - 1].Timestamp?))
          && (cfg.ignoreTimestamps ==> s.jobs.offset == 0 || s.jobs.offset == |cfg.log|))
  }

  lemma CloseTaken(cfg: Config, s: State, s': State)
    requires CloseRight(cfg, s) && TakeRecord(cfg, s, s')
    ensures CloseRight(cfg, s')
  {
  }

  lemma CloseEnded(cfg: Config, s: State, s': State)
    requires CloseRight(cfg, s)
    requires LogEnds(cfg, s, s') || BufferEnds(cfg, s, s', false) || BufferEnds(cfg, s, s', true)
    ensures CloseRight(cfg, s')
  {
  }

  lemma CloseReset(cfg: Config, s: State, s': State)
    requires CloseRight(cfg, s) && (Count(cfg, s, s') || Resume(cfg, s, s'))
    ensures CloseRight(cfg, s')
  {
  }

  lemma CloseOpening(cfg: Config, s: State, s': State)
    requires CloseRight(cfg, s) && (Wake(cfg, s, s') || Quit(cfg, s, s'))
    ensures CloseRight(cfg, s')
  {
  }

  lemma CloseWorker(cfg: Config, s: State, t: nat, s': State)
    requires CloseRight(cfg, s) && t in s.workers && OnlyWorker(s, t, s')
    ensures CloseRight(cfg, s')
  {
  }

  lemma CloseKept(cfg: Config, s: State, s': State)
    requires CloseRight(cfg, s) && Next(cfg, s, s')
    ensures CloseRight(cfg, s')
  {
    hide CloseRight, WorkerStep, TakeRecord, BufferEnds, LogEnds, Count, Resume, Wake, Quit;
    if Wake(cfg, s, s') || Quit(cfg, s, s') {
      CloseOpening(cfg, s, s');
    } else if Count(cfg, s, s') || Resume(cfg, s, s') {
      CloseReset(cfg, s, s');
    } else if TakeRecord(cfg, s, s') {
      CloseTaken(cfg, s, s');
    } else if ControllerStep(cfg, s, s') {
      CloseEnded(cfg, s, s');
    } else {
      var t :| t in s.workers && t in s.mem.own && WorkerStep(cfg, s, t, s');
      WorkerKeepsControl(cfg, s, t, s');
      CloseWorker(cfg, s, t, s');
    }
  }

  lemma {:induction false} RunClosed(cfg: Config, run: seq<State>, i: nat)
    requires IsRun(cfg, run) && i < |run|
    ensures CloseRight(cfg, run[i])
  {
    hide CloseRight, Next;
    if i == 0 {
      InitialClosed(cfg);
    } else {
      RunClosed(cfg, run, i - 1);
      CloseKept(cfg, run[i - 1], run[i]);
    }
  }

  lemma InitialClosed(cfg: Config)
    ensures CloseRight(cfg, Initial(cfg))
  {
  }

  /** With timestamps, no look-up ever has to be tried again. */
  lemma TimestampsPreventSpins(cfg: Config, s: State, t: nat)
    requires Invariant(cfg, s) && Consistent(cfg) && CutRight(cfg, s) && AtLookUp(cfg, s, t)
    requires !cfg.ignoreTimestamps && Matching.Separated(cfg.log)
    ensures NotBlocked(cfg, s, t)
  {
    hide Invariant;
    LookUpFinds(cfg, s, t);
    var w := s.workers[t];
    var r, k := cfg.log[w.pos], w.seqNo;
    if r.Match() != 0 && r.allocByOther {
      assert ReleasesOf(cfg, k, r.matched);
      EarlierBatch(cfg, s, t, r.matched);
    }
  }

  lemma EarlierBatch(cfg: Config, s: State, t: nat, m: nat)
    requires Invariant(cfg, s) && Consistent(cfg) && CutRight(cfg, s) && AtLookUp(cfg, s, t)
    requires !cfg.ignoreTimestamps && Matching.Separated(cfg.log)
    requires var w := s.workers[t];
             && m < w.seqNo && m != 0 && cfg.log[w.pos].Releases() && cfg.log[w.pos].allocByOther
             && cfg.log[w.pos].matched == m
    ensures m in s.executed
  {
    hide CursorRight, TablesRight, HeapRight, LookedRight, HoldsRight, HistoryRight, CountOps, Ops;
    var w := s.workers[t];
    Inside(cfg, s, t);
    CursorBefore(cfg, w.pos, w.seqNo, w.pos, w.seqNo);
    var p := OpPosition(cfg.log, m - 1);
    if w.pos <= p {
      CountOpsMonotone(cfg.log, w.pos, p);
    }
    assert Matching.ReleasedAcross(cfg.log, p, w.pos);
    var i :| p < i < w.pos && cfg.log[i].Timestamp?;
    assert i < s.jobs.offset;
    CountOpsMonotone(cfg.log, p, s.jobs.offset);
    assert m < First(s);
    AllPast(cfg, s);
  }
}
