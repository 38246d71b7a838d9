/** The replay never gets stuck, and it ends. */
module ReplayLiveness {
  import opened MallocLog
  import opened Replay
  import opened ReplaySafety
  import opened ReplayTheorems

  // ---------------------------------------------------------------- somebody can always take a step

  ghost predicate CanStep(cfg: Config, s: State) {
    exists s' :: Next(cfg, s, s')
  }

  /** There is a block above all allocated ones. */
  lemma {:induction false} FreshBlock(heap: set<Block>) returns (b: Block)
    ensures b > 0 && forall y | y in heap :: y < b
  {
    b := 1;
    if heap != {} {
      var x :| x in heap;
      var c := FreshBlock(heap - {x});
      b := if c <= x then x + 1 else c;
      assert forall y | y in heap :: y == x || y in heap - {x};
    }
  }

  lemma WorkerSteps(cfg: Config, s: State, t: nat, s': State)
    requires t in s.workers && t in s.mem.own && WorkerStep(cfg, s, t, s')
    ensures CanStep(cfg, s)
  {
    hide WorkerStep;
    assert Next(cfg, s, s');
  }

  lemma ExecuteEnabled(cfg: Config, s: State, t: nat)
    requires t in s.workers && t in s.mem.own && AtOwn(cfg, s.workers[t], t) && s.workers[t].stage.Act?
    ensures CanStep(cfg, s)
  {
    var w := s.workers[t];
    var r := cfg.log[w.pos];
    var b := FreshBlock(s.mem.heap);
    var heap := if r.Releases() then Freed(s.mem.heap, w.stage.hold) else s.mem.heap;
    var table: map<nat, Block> := s.mem.own[t][w.seqNo := b];
    var mem := if !r.Allocates() then s.mem.(heap := heap)
               else if r.freeByOther then s.mem.(heap := heap + {b}, shared := s.mem.shared[w.seqNo := b])
               else s.mem.(heap := heap + {b}, own := s.mem.own[t := table]);
    var s' := s.(workers := s.workers[t := Running(w.pos + 1, w.seqNo + 1, w.left - 1, Look)], mem := mem,
                 executed := s.executed + multiset{w.seqNo},
                 given := if r.Allocates() then s.given[w.seqNo := b] else s.given);
    assert Execute(cfg, s, t, b, s');
    WorkerSteps(cfg, s, t, s');
  }

  lemma FindEnabled(cfg: Config, s: State, t: nat)
    requires t in s.workers && t in s.mem.own && AtLookUp(cfg, s, t) && NotBlocked(cfg, s, t)
    ensures CanStep(cfg, s)
  {
    var w := s.workers[t];
    var r := cfg.log[w.pos];
    var m := r.Match();
    var hold := if m == 0 then None else if r.allocByOther then Some(s.mem.shared[m])
                else if m in s.mem.own[t] then Some(s.mem.own[t][m]) else None;
    var mem := if m == 0 then s.mem else if r.allocByOther then s.mem.(shared := s.mem.shared - {m})
               else if m in s.mem.own[t] then s.mem.(own := s.mem.own[t := s.mem.own[t] - {m}]) else s.mem;
    var s' := s.(workers := s.workers[t := w.(stage := Act(hold))], mem := mem, looked := s.looked + {w.seqNo});
    assert Find(cfg, s, t, hold, s');
    WorkerSteps(cfg, s, t, s');
  }

  lemma PassEnabled(cfg: Config, s: State, t: nat)
    requires t in s.workers && t in s.mem.own && s.workers[t].Running? && s.workers[t].left > 0
    requires s.workers[t].pos < |cfg.log|
    requires s.workers[t].stage == Look && !AtOwn(cfg, s.workers[t], t)
    ensures CanStep(cfg, s)
  {
    var w := s.workers[t];
    var r := cfg.log[w.pos];
    if r.Timestamp? {
      var s' := s.(workers := s.workers[t := w.(pos := w.pos + 1)]);
      assert Pass(cfg, s, t, s');
      WorkerSteps(cfg, s, t, s');
    } else {
      var s' := s.(workers := s.workers[t := Running(w.pos + 1, w.seqNo + 1, w.left - 1, Look)],
                   looked := if r.thread == t then s.looked + {w.seqNo} else s.looked,
                   executed := if r.thread == t then s.executed + multiset{w.seqNo} else s.executed);
      assert Pass(cfg, s, t, s');
      WorkerSteps(cfg, s, t, s');
    }
  }

  /** A running worker can take a step unless its look-up fails. */
  lemma RunningEnabled(cfg: Config, s: State, t: nat)
    requires Invariant(cfg, s) && t in s.workers && s.workers[t].Running?
    requires AtLookUp(cfg, s, t) ==> NotBlocked(cfg, s, t)
    ensures CanStep(cfg, s)
  {
    hide QueueRight, HistoryRight, HeapRight, LookedRight, HoldsRight, CanStep;
    var w := s.workers[t];
    assert t in s.mem.own;
    if w.left == 0 {
      var s' := s.(workers := s.workers[t := Idle], working := s.working - 1, finished := s.finished + {t},
                   controllerOpen := s.controllerOpen || s.working - 1 == 0);
      assert Finish(s, t, s');
      WorkerSteps(cfg, s, t, s');
    } else {
      Inside(cfg, s, t);
      assert CursorRight(cfg, s, t);
      if w.stage.Act? {
        ExecuteEnabled(cfg, s, t);
      } else if AtOwn(cfg, w, t) {
        FindEnabled(cfg, s, t);
      } else {
        PassEnabled(cfg, s, t);
      }
    }
  }

  /** Either every operation below `n` has been executed, or there is a smallest one that has not. */
  lemma {:induction false} SmallestMissing(cfg: Config, s: State, n: nat) returns (k: nat)
    ensures k <= n && ExecutedBelow(cfg, s, k)
    ensures k < n ==> IsOp(cfg, k) && s.executed[k] != 1
  {
    if n == 0 {
      k := 0;
    } else {
      k := SmallestMissing(cfg, s, n - 1);
      if k == n - 1 && !(IsOp(cfg, k) && s.executed[k] != 1) {
        k := n;
      }
    }
  }

  /** While the controller waits, a worker that has not finished can take a step: the one with the
      smallest operation that has not been executed, if there is one. */
  lemma WaitingEnabled(cfg: Config, s: State)
    requires Invariant(cfg, s) && Consistent(cfg) && s.control == Waiting && !s.controllerOpen
    ensures CanStep(cfg, s)
  {
    hide Invariant, CanStep, AtLookUp, NotBlocked;
    var k := SmallestMissing(cfg, s, s.recNo);
    var t := Chosen(cfg, s, k);
    if t in s.open {
      StartEnabled(cfg, s, t);
    } else {
      if AtLookUp(cfg, s, t) {
        LookUpFinds(cfg, s, t);
        ChosenSmallest(cfg, s, k, t);
        SmallestNotBlocked(cfg, s, t);
      }
      RunningEnabled(cfg, s, t);
    }
  }

  /** The worker of operation `k`, or any one that has not finished when there is no such operation. */
  lemma Chosen(cfg: Config, s: State, k: nat) returns (t: nat)
    requires Invariant(cfg, s) && Consistent(cfg) && s.control == Waiting && !s.controllerOpen
    requires k <= s.recNo && (k < s.recNo ==> IsOp(cfg, k) && s.executed[k] != 1)
    ensures t in s.workers && (t in s.open ==> s.workers[t] == Idle) && (t !in s.open ==> s.workers[t].Running?)
    ensures k < s.recNo ==> Op(cfg, k).thread == t && !Past(s, t, k, false)
  {
    hide CursorRight, TablesRight, HeapRight, LookedRight, HoldsRight, CursorAt;
    if k < s.recNo {
      t := Op(cfg, k).thread;
      assert !Past(s, t, k, false);
      assert cfg.IsThread(t);
    } else {
      assert s.active - s.finished == {} ==> s.active == s.finished;
      t :| t in s.active - s.finished;
    }
    assert WorkerRight(cfg, s, t);
  }

  lemma ChosenSmallest(cfg: Config, s: State, k: nat, t: nat)
    requires t in s.workers && s.workers[t].Running? && ExecutedBelow(cfg, s, k) && k <= s.recNo && Busy(s)
    requires k < s.recNo ==> !Past(s, t, k, false)
    requires var j := s.workers[t].seqNo; IsOp(cfg, j) && j < s.recNo && s.executed[j] == 0
    ensures ExecutedBelow(cfg, s, s.workers[t].seqNo)
  {
  }

  lemma StartEnabled(cfg: Config, s: State, t: nat)
    requires Invariant(cfg, s) && t in s.workers && s.workers[t] == Idle && t in s.open
    ensures CanStep(cfg, s)
  {
    hide QueueRight, HistoryRight, HeapRight, LookedRight, HoldsRight, CanStep, CursorRight;
    assert t in s.mem.own;
    var s' := s.(open := s.open - {t},
                 workers := s.workers[t := if s.allDone
                   then Exited else Running(s.jobs.offset, s.jobs.seqNo, s.jobs.total, Look)]);
    assert Start(s, t, s');
    WorkerSteps(cfg, s, t, s');
  }

  lemma ControllerSteps(cfg: Config, s: State, s': State)
    requires ControllerStep(cfg, s, s')
    ensures CanStep(cfg, s)
  {
    assert Next(cfg, s, s');
  }

  lemma FillingEnabled(cfg: Config, s: State)
    requires s.control == Filling && s.next <= |cfg.log|
    ensures CanStep(cfg, s)
  {
    hide CanStep;
    if s.next == |cfg.log| {
      ControllerSteps(cfg, s, s.(control := Counting));
    } else {
      var r := cfg.log[s.next];
      var s' := if r.Timestamp?
        then s.(next := s.next + 1, control := if cfg.ignoreTimestamps then Filling else Counting)
                else s.(next := s.next + 1, recNo := s.recNo + 1, active := s.active + {r.thread},
                        jobs := Jobs(s.jobs.offset, if s.jobs.total == 0
                          then s.recNo else s.jobs.seqNo, s.jobs.total + 1));
      assert TakeRecord(cfg, s, s');
      ControllerSteps(cfg, s, s');
    }
  }

  lemma CountingEnabled(cfg: Config, s: State)
    requires s.control == Counting
    ensures CanStep(cfg, s)
  {
    hide CanStep;
    var s' := if s.active == {} then Reset(cfg, s) else s.(control := Waking(0), working := |s.active|);
    assert Count(cfg, s, s');
    ControllerSteps(cfg, s, s');
  }

  lemma WakingEnabled(cfg: Config, s: State)
    requires s.control.Waking?
    ensures CanStep(cfg, s)
  {
    hide CanStep;
    var i := s.control.i;
    var s' := if i > cfg.threads then s.(control := Waiting)
              else s.(control := Waking(i + 1), open := if i in s.active then s.open + {i} else s.open);
    assert Wake(cfg, s, s');
    ControllerSteps(cfg, s, s');
  }

  lemma QuittingEnabled(cfg: Config, s: State)
    requires s.control.Quitting?
    ensures CanStep(cfg, s)
  {
    hide CanStep;
    var i := s.control.i;
    var s' := if i > cfg.threads then s.(control := Gone) else s.(control := Quitting(i + 1), open := s.open + {i});
    assert Quit(cfg, s, s');
    ControllerSteps(cfg, s, s');
  }

  lemma ResumeEnabled(cfg: Config, s: State)
    requires s.control == Waiting && s.controllerOpen
    ensures CanStep(cfg, s)
  {
    hide CanStep;
    var s' := Reset(cfg, s.(controllerOpen := false));
    assert Resume(cfg, s, s');
    ControllerSteps(cfg, s, s');
  }

  lemma GoneEnabled(cfg: Config, s: State)
    requires Invariant(cfg, s) && s.control == Gone && !Final(cfg, s)
    ensures CanStep(cfg, s)
  {
    hide QueueRight, HistoryRight, TablesRight, HeapRight, LookedRight, HoldsRight, CursorRight, CanStep;
    var t :| t in s.workers && s.workers[t] != Exited;
    assert WorkerRight(cfg, s, t);
    StartEnabled(cfg, s, t);
  }

  /** In every state but the last, somebody can take a step: there is no deadlock. */
  lemma Progress(cfg: Config, s: State)
    requires Invariant(cfg, s) && Consistent(cfg) && !Final(cfg, s)
    ensures CanStep(cfg, s)
  {
    hide Final, BarrierRight, HistoryRight, TablesRight, HeapRight, LookedRight, HoldsRight, CursorRight, CanStep;
    match s.control
    case Filling => FillingEnabled(cfg, s);
    case Counting => CountingEnabled(cfg, s);
    case Waking(_) => WakingEnabled(cfg, s);
    case Waiting =>
      if s.controllerOpen {
        ResumeEnabled(cfg, s);
      } else {
        WaitingEnabled(cfg, s);
      }
    case Quitting(_) => QuittingEnabled(cfg, s);
    case Gone => GoneEnabled(cfg, s);
  }

  // ---------------------------------------------------------------- every step brings the end nearer

  /** What is left to be taken into batches; a batch that has been begun counts as more than a fresh one. */
  ghost function ToTake(cfg: Config, s: State): int {
    2 * (|cfg.log| - s.next + s.refills) +
      (if s.allDone || (s.control == Filling && s.next == s.jobs.offset) then 0 else 1)
  }

  /** What is left for the controller to do in this batch. */
  ghost function ToControl(cfg: Config, s: State): int {
    match s.control
    case Filling => cfg.threads + 5
    case Counting => cfg.threads + 4
    case Waking(i) => cfg.threads + 3 - i
    case Waiting => 1
    case Quitting(i) => cfg.threads + 2 - i
    case Gone => 0
  }

  /** What is left for worker `t` to do in this batch. */
  ghost function ToWork(cfg: Config, s: State, t: nat): nat {
    if t !in s.workers || s.workers[t].Exited? then 0
    else if s.workers[t] == Idle then if t in s.open then 3 * |cfg.log| + 4 else 0
    else
      (if s.workers[t].pos <= |cfg.log| then 3 * (|cfg.log| - s.workers[t].pos) else 0) +
        (if s.workers[t].stage == Look then 2 else 1)
  }

  ghost function AllToWork(cfg: Config, s: State, n: nat): nat {
    if n == 0 then 0 else AllToWork(cfg, s, n - 1) + ToWork(cfg, s, n)
  }

  ghost predicate Nearer(cfg: Config, s: State, s': State) {
    || ToTake(cfg, s') < ToTake(cfg, s)
    || (ToTake(cfg, s') == ToTake(cfg, s) && ToControl(cfg, s') < ToControl(cfg, s))
    || (ToTake(cfg, s') == ToTake(cfg, s) && ToControl(cfg, s') == ToControl(cfg, s) &&
        AllToWork(cfg, s', cfg.threads) < AllToWork(cfg, s, cfg.threads))
  }

  lemma {:induction false} LessWork(cfg: Config, s: State, s': State, t: nat, n: nat)
    requires forall u | 1 <= u <= n && u != t :: ToWork(cfg, s', u) == ToWork(cfg, s, u)
    requires ToWork(cfg, s', t) < ToWork(cfg, s, t)
    ensures AllToWork(cfg, s', n) <= AllToWork(cfg, s, n)
    ensures 1 <= t <= n ==> AllToWork(cfg, s', n) < AllToWork(cfg, s, n)
  {
    if n > 0 {
      LessWork(cfg, s, s', t, n - 1);
    }
  }

  lemma Bounds(cfg: Config, s: State)
    requires Invariant(cfg, s)
    ensures ToTake(cfg, s) >= 0 && ToControl(cfg, s) >= 0
  {
    hide HistoryRight, TablesRight, HeapRight, LookedRight, HoldsRight, CursorRight, WorkerRight;
  }

  lemma ControllerNearer(cfg: Config, s: State, s': State)
    requires ControllerStep(cfg, s, s')
    requires s.jobs.offset <= s.next <= |cfg.log|
    requires s.control == Filling && s.next == s.jobs.offset ==> s.next < |cfg.log|
    requires s.allDone <==> s.control.Quitting? || s.control == Gone
    requires s.control.Quitting? || s.control.Waking? ==> s.control.i <= cfg.threads + 1
    ensures Nearer(cfg, s, s')
  {
    hide AllToWork;
    if TakeRecord(cfg, s, s') {
      TakeRecordNearer(cfg, s, s');
    }
  }

  lemma TakeRecordNearer(cfg: Config, s: State, s': State)
    requires TakeRecord(cfg, s, s') && s.jobs.offset <= s.next && !s.allDone
    ensures ToTake(cfg, s') < ToTake(cfg, s)
  {
  }

  lemma ControlFacts(cfg: Config, s: State)
    requires Invariant(cfg, s)
    ensures s.jobs.offset <= s.next <= |cfg.log|
    ensures s.control == Filling && s.next == s.jobs.offset ==> s.next < |cfg.log|
    ensures s.allDone <==> s.control.Quitting? || s.control == Gone
    ensures s.control.Quitting? || s.control.Waking? ==> s.control.i <= cfg.threads + 1
  {
    hide HistoryRight, TablesRight, HeapRight, LookedRight, HoldsRight, CursorRight, WorkerRight;
  }

  lemma WorkerNearer(cfg: Config, s: State, t: nat, s': State)
    requires Invariant(cfg, s) && t in s.workers && t in s.mem.own && WorkerStep(cfg, s, t, s')
    ensures Nearer(cfg, s, s')
  {
    hide HistoryRight, TablesRight, HeapRight, LookedRight, HoldsRight, CursorRight;
    hide AllToWork, CursorAt, ToWork, WorkerStep, QueueRight, WorkerRight;
    WorkerKeepsControl(cfg, s, t, s');
    RunsLocked(cfg, s, t);
    WorkerWorks(cfg, s, t, s');
    OthersWork(cfg, s, t, s');
    LessWork(cfg, s, s', t, cfg.threads);
  }

  lemma WorkerWorks(cfg: Config, s: State, t: nat, s': State)
    requires s.jobs.offset <= |cfg.log| && t in s.workers && (s.workers[t].Running? ==> t !in s.open)
    requires t in s.mem.own && WorkerStep(cfg, s, t, s')
    ensures ToWork(cfg, s', t) < ToWork(cfg, s, t)
  {
    hide LookUp, Call;
  }

  lemma OthersWork(cfg: Config, s: State, t: nat, s': State)
    requires t in s.workers && OnlyWorker(s, t, s')
    ensures forall u | u != t :: ToWork(cfg, s', u) == ToWork(cfg, s, u)
  {
  }

  lemma RunsLocked(cfg: Config, s: State, t: nat)
    requires Invariant(cfg, s) && t in s.workers
    ensures s.jobs.offset <= |cfg.log| && (s.workers[t].Running? ==> t !in s.open) && cfg.IsThread(t)
  {
    hide HistoryRight, TablesRight, HeapRight, LookedRight, HoldsRight, CursorRight;
    assert WorkerRight(cfg, s, t);
  }

  lemma StepNearer(cfg: Config, s: State, s': State)
    requires Invariant(cfg, s) && Next(cfg, s, s')
    ensures Nearer(cfg, s, s')
  {
    hide Invariant, ControllerStep, WorkerStep, Nearer;
    if ControllerStep(cfg, s, s') {
      ControlFacts(cfg, s);
      ControllerNearer(cfg, s, s');
    } else {
      var t :| t in s.workers && t in s.mem.own && WorkerStep(cfg, s, t, s');
      WorkerNearer(cfg, s, t, s');
    }
  }

  /** A run that goes on for as long as it can. */
  ghost predicate Maximal(cfg: Config, run: nat -> State) {
    && run(0) == Initial(cfg)
    && forall i: nat :: Next(cfg, run(i), run(i + 1)) || (run(i + 1) == run(i) && !CanStep(cfg, run(i)))
  }

  lemma {:induction false} MaximalSafe(cfg: Config, run: nat -> State, i: nat)
    requires Consistent(cfg) && Maximal(cfg, run)
    ensures Invariant(cfg, run(i))
  {
    hide Invariant, Next, CanStep;
    if i == 0 {
      InitialInvariant(cfg);
    } else {
      MaximalSafe(cfg, run, i - 1);
      assert Next(cfg, run(i - 1), run(i - 1 + 1)) || run(i - 1 + 1) == run(i - 1);
      if Next(cfg, run(i - 1), run(i - 1 + 1)) {
        NextKeeps(cfg, run(i - 1), run(i));
      }
    }
  }

  /** The run comes to the last state. */
  lemma {:induction false} Ends(cfg: Config, run: nat -> State, i: nat) returns (last: nat)
    requires Consistent(cfg) && Maximal(cfg, run)
    ensures Invariant(cfg, run(last)) && Final(cfg, run(last))
    decreases ToTake(cfg, run(i)), ToControl(cfg, run(i)), AllToWork(cfg, run(i), cfg.threads)
  {
    hide Invariant, Next, CanStep, Final, ToTake, ToControl, AllToWork;
    MaximalSafe(cfg, run, i);
    if Final(cfg, run(i)) {
      last := i;
    } else {
      Progress(cfg, run(i));
      assert Next(cfg, run(i), run(i + 1));
      StepNearer(cfg, run(i), run(i + 1));
      MaximalSafe(cfg, run, i + 1);
      Bounds(cfg, run(i));
      Bounds(cfg, run(i + 1));
      last := Ends(cfg, run, i + 1);
    }
  }

  /** Every replay ends, in whatever order the threads take their steps, and has then executed every
      operation once and released exactly the blocks that the log releases. */
  lemma ReplayEnds(cfg: Config, run: nat -> State)
    requires Consistent(cfg) && Maximal(cfg, run)
    ensures exists last: nat ::
              && Final(cfg, run(last))
              && (forall k | IsOp(cfg, k) :: run(last).executed[k] == 1)
              && OwnBlocks(NeverReleased(cfg), run(last).given, run(last).mem.heap)
  {
    hide Invariant, Maximal, Final, OwnBlocks;
    var last := Ends(cfg, run, 0);
    FinalComplete(cfg, run(last));
  }
}
