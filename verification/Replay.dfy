/** The replay of a consolidated log: a controller that hands out batches, and worker threads that execute them. */
module Replay {
  import opened MallocLog

  datatype Option<T> = None | Some(value: T)

  /** The log, the number of threads, whether timestamps are ignored, and how often the record buffer is refilled. */
  datatype Config = Config(log: seq<Record>, threads: nat, ignoreTimestamps: bool, refills: nat)
  {
    predicate IsThread(t: nat) {
      1 <= t <= threads
    }
  }

  // ---------------------------------------------------------------- what a consolidated log promises

  ghost function Op(cfg: Config, k: nat): Record
    requires 1 <= k <= |Ops(cfg.log)|
  {
    Ops(cfg.log)[k - 1]
  }

  ghost predicate IsOp(cfg: Config, k: nat) {
    1 <= k <= |Ops(cfg.log)|
  }

  /** Operation `k` releases the block of operation `m`. */
  ghost predicate ReleasesOf(cfg: Config, k: nat, m: nat) {
    IsOp(cfg, k) && m != 0 && Op(cfg, k).Match() == m
  }

  /** Every match is an earlier allocation that no other operation matches, and both sides agree on its
      size and on whether the block changes threads. */
  ghost predicate Consistent(cfg: Config) {
    && (forall k | IsOp(cfg, k) :: cfg.IsThread(Op(cfg, k).thread)
          && (Op(cfg, k).Releases() && Op(cfg, k).allocByOther ==> Op(cfg, k).matched != 0))
    && (forall k, m | ReleasesOf(cfg, k, m) ::
          && m < k && Op(cfg, m).Allocates() && Op(cfg, k).oldSize == Op(cfg, m).size
          && (Op(cfg, k).allocByOther <==> Op(cfg, m).thread != Op(cfg, k).thread)
          && (Op(cfg, m).freeByOther <==> Op(cfg, k).allocByOther))
    && (forall k, k', m | ReleasesOf(cfg, k, m) && ReleasesOf(cfg, k', m) :: k == k')
  }

  // ---------------------------------------------------------------- memory

  type Block = nat

  /** The blocks that are allocated, and the tables in which they are found again: one for every
      thread, and a shared one for blocks that another thread releases. */
  datatype Memory = Memory(own: map<nat, map<nat, Block>>, shared: map<nat, Block>, heap: set<Block>)

  /** The look-up of the block that a record releases; it removes the entry. The look-up in the shared
      table is tried again until it finds one. */
  ghost predicate LookUp(mem: Memory, t: nat, r: Record, mem': Memory, hold: Option<Block>)
    requires t in mem.own
  {
    if r.Match() == 0 then mem' == mem && hold == None
    else if !r.allocByOther then
      if r.matched in mem.own[t] then
        mem' == mem.(own := mem.own[t := mem.own[t] - {r.matched}]) && hold == Some(mem.own[t][r.matched])
      else mem' == mem && hold == None
    else
      && r.matched in mem.shared
      && mem' == mem.(shared := mem.shared - {r.matched}) && hold == Some(mem.shared[r.matched])
  }

  ghost function Freed(heap: set<Block>, hold: Option<Block>): set<Block> {
    if hold.Some? then heap - {hold.value} else heap
  }

  /** The call of the allocator; `b` is the block it returns. A new block is remembered under the
      number `k` of the operation. */
  ghost predicate Call(mem: Memory, t: nat, r: Record, k: nat, hold: Option<Block>, b: Block, mem': Memory)
    requires t in mem.own && r.IsOp()
  {
    var heap := if r.Releases() then Freed(mem.heap, hold) else mem.heap;
    if !r.Allocates() then mem' == mem.(heap := heap)
    else
      var table: map<nat, Block> := mem.own[t][k := b];
      && b > 0 && b !in heap
      && mem' == if r.freeByOther then mem.(heap := heap + {b}, shared := mem.shared[k := b])
                 else mem.(heap := heap + {b}, own := mem.own[t := table])
  }

  // ---------------------------------------------------------------- state

  /** The job queue: the position of the first record, the number of the first operation, and how many operations. */
  datatype Jobs = Jobs(offset: nat, seqNo: nat, total: nat)

  datatype Control = Filling | Counting | Waking(i: nat) | Waiting | Quitting(i: nat) | Gone

  /** Where a worker is in executing an operation: before its look-up, or before calling the allocator. */
  datatype Stage = Look | Act(hold: Option<Block>)

  datatype Worker = Idle | Running(pos: nat, seqNo: nat, left: nat, stage: Stage) | Exited

  /** The controller has `next` and `recNo`, the record and the operation number it has come to, and the
      set of active threads; `open` are the workers whose locks are open. The last four are history:
      the workers that are through with the batch, the operations whose look-up is done, how often
      each operation has been executed, and the block that each one was given. */
  datatype State = State(
    control: Control, jobs: Jobs, next: nat, recNo: nat, active: set<nat>, refills: nat,
    open: set<nat>, controllerOpen: bool, working: int, allDone: bool,
    workers: map<nat, Worker>, mem: Memory,
    finished: set<nat>, looked: set<nat>, executed: multiset<nat>, given: map<nat, Block>)

  /** The controller clears the queue for the next batch, or ends the run. */
  ghost function Reset(cfg: Config, s: State): State {
    if s.next < |cfg.log| then
      s.(control := Filling, jobs := Jobs(s.next, 0, 0), active := {}, finished := {})
    else s.(control := Quitting(0), jobs := Jobs(s.next, 0, 0), active := {}, finished := {}, allDone := true)
  }

  ghost function Initial(cfg: Config): State {
    Reset(cfg, State(Filling, Jobs(0, 0, 0), 0, 1, {}, cfg.refills, {}, false, 0, false,
                     map t: nat | t <= cfg.threads && cfg.IsThread(t) :: Idle,
                     Memory(map t: nat | t <= cfg.threads && cfg.IsThread(t) :: map[], map[], {}),
                     {}, {}, multiset{}, map[]))
  }

  // ---------------------------------------------------------------- steps of the controller

  /** The next record goes into the batch; a timestamp ends the batch unless timestamps are ignored. */
  ghost predicate TakeRecord(cfg: Config, s: State, s': State) {
    && s.control == Filling && s.next < |cfg.log|
    && var r := cfg.log[s.next];
       if r.Timestamp? then
         s' == s.(next := s.next + 1, control := if cfg.ignoreTimestamps then Filling else Counting)
       else
         s' == s.(next := s.next + 1, recNo := s.recNo + 1, active := s.active + {r.thread},
                  jobs := Jobs(s.jobs.offset, if s.jobs.total == 0 then s.recNo else s.jobs.seqNo, s.jobs.total + 1))
  }

  /** The buffer ends. A record that the end cuts off may already have marked its thread as active. */
  ghost predicate BufferEnds(cfg: Config, s: State, s': State, cutOff: bool) {
    && s.control == Filling && s.refills > 0 && s.next < |cfg.log|
    && s' == s.(control := Counting, refills := s.refills - 1,
                active := if cutOff && cfg.log[s.next].IsOp() then s.active + {cfg.log[s.next].thread} else s.active)
  }

  ghost predicate LogEnds(cfg: Config, s: State, s': State) {
    s.control == Filling && s.next == |cfg.log| && s' == s.(control := Counting)
  }

  /** The controller counts the active threads and goes on to wake them up, if there are any. */
  ghost predicate Count(cfg: Config, s: State, s': State) {
    && s.control == Counting
    && s' == if s.active == {} then Reset(cfg, s) else s.(control := Waking(0), working := |s.active|)
  }

  ghost predicate Wake(cfg: Config, s: State, s': State) {
    && s.control.Waking?
    && var i := s.control.i;
       if i > cfg.threads then s' == s.(control := Waiting)
       else s' == s.(control := Waking(i + 1), open := if i in s.active then s.open + {i} else s.open)
  }

  ghost predicate Resume(cfg: Config, s: State, s': State) {
    s.control == Waiting && s.controllerOpen && s' == Reset(cfg, s.(controllerOpen := false))
  }

  ghost predicate Quit(cfg: Config, s: State, s': State) {
    && s.control.Quitting?
    && var i := s.control.i;
       if i > cfg.threads then s' == s.(control := Gone)
       else s' == s.(control := Quitting(i + 1), open := s.open + {i})
  }

  ghost predicate ControllerStep(cfg: Config, s: State, s': State) {
    || TakeRecord(cfg, s, s')
    || BufferEnds(cfg, s, s', false)
    || BufferEnds(cfg, s, s', true)
    || LogEnds(cfg, s, s')
    || Count(cfg, s, s')
    || Wake(cfg, s, s')
    || Resume(cfg, s, s')
    || Quit(cfg, s, s')
  }

  // ---------------------------------------------------------------- steps of a worker

  /** A worker gets through its lock: it starts on the batch, or goes home. */
  ghost predicate Start(s: State, t: nat, s': State)
    requires t in s.workers
  {
    && s.workers[t] == Idle && t in s.open
    && s' == s.(open := s.open - {t},
                workers := s.workers[t := if s.allDone then Exited
                                          else Running(s.jobs.offset, s.jobs.seqNo, s.jobs.total, Look)])
  }

  /** The worker leaves a timestamp behind, or an operation that is not for it to execute. */
  ghost predicate Pass(cfg: Config, s: State, t: nat, s': State)
    requires t in s.workers
  {
    && s.workers[t].Running?
    && var w := s.workers[t];
       && w.left > 0 && w.stage == Look && w.pos < |cfg.log|
       && var r := cfg.log[w.pos];
          if r.Timestamp? then s' == s.(workers := s.workers[t := w.(pos := w.pos + 1)])
          else
            && (r.thread != t || (r.Free? && r.matched == 0))
            && s' == s.(workers := s.workers[t := Running(w.pos + 1, w.seqNo + 1, w.left - 1, Look)],
                        looked := if r.thread == t then s.looked + {w.seqNo} else s.looked,
                        executed := if r.thread == t then s.executed + multiset{w.seqNo} else s.executed)
  }

  /** The worker is at an operation it has to execute. */
  ghost predicate AtOwn(cfg: Config, w: Worker, t: nat) {
    && w.Running? && w.left > 0 && w.pos < |cfg.log|
    && cfg.log[w.pos].IsOp() && cfg.log[w.pos].thread == t && !(cfg.log[w.pos].Free? && cfg.log[w.pos].matched == 0)
  }

  ghost predicate Find(cfg: Config, s: State, t: nat, hold: Option<Block>, s': State)
    requires t in s.workers && t in s.mem.own
  {
    && AtOwn(cfg, s.workers[t], t)
    && var w := s.workers[t];
       && w.stage == Look
       && LookUp(s.mem, t, cfg.log[w.pos], s'.mem, hold)
       && s' == s.(workers := s.workers[t := w.(stage := Act(hold))], mem := s'.mem, looked := s.looked + {w.seqNo})
  }

  ghost predicate Execute(cfg: Config, s: State, t: nat, b: Block, s': State)
    requires t in s.workers && t in s.mem.own
  {
    && AtOwn(cfg, s.workers[t], t)
    && var w := s.workers[t];
       && w.stage.Act?
       && Call(s.mem, t, cfg.log[w.pos], w.seqNo, w.stage.hold, b, s'.mem)
       && s' == s.(workers := s.workers[t := Running(w.pos + 1, w.seqNo + 1, w.left - 1, Look)], mem := s'.mem,
                   executed := s.executed + multiset{w.seqNo},
                   given := if cfg.log[w.pos].Allocates() then s.given[w.seqNo := b] else s.given)
  }

  /** The worker has gone through the batch. The last one opens the lock of the controller. */
  ghost predicate Finish(s: State, t: nat, s': State)
    requires t in s.workers
  {
    && s.workers[t].Running? && s.workers[t].left == 0
    && s' == s.(workers := s.workers[t := Idle], working := s.working - 1, finished := s.finished + {t},
                controllerOpen := s.controllerOpen || s.working - 1 == 0)
  }

  ghost predicate WorkerStep(cfg: Config, s: State, t: nat, s': State)
    requires t in s.workers && t in s.mem.own
  {
    || Start(s, t, s')
    || Pass(cfg, s, t, s')
    || (exists hold :: Find(cfg, s, t, hold, s'))
    || (exists b :: Execute(cfg, s, t, b, s'))
    || Finish(s, t, s')
  }

  /** A step that changes the state. A worker whose look-up in the shared table fails takes none. */
  ghost predicate Next(cfg: Config, s: State, s': State) {
    || ControllerStep(cfg, s, s')
    || exists t :: t in s.workers && t in s.mem.own && WorkerStep(cfg, s, t, s')
  }
}
