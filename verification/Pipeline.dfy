/** Both programs together: the replay of what the consolidator writes. */
module Pipeline {
  import opened MallocLog
  import opened MergeOrder
  import opened Matching
  import opened Consolidator
  import Replay
  import ReplaySafety
  import ReplayTheorems
  import ReplayLiveness

  lemma MergedThreads(logs: seq<seq<LogRecord>>, pos: seq<nat>)
    requires Cursors(logs, pos)
    ensures forall i | 0 <= i < |MergeFrom(logs, pos)| :: 1 <= MergeFrom(logs, pos)[i].thread <= |logs|
    decreases Remaining(logs, pos, |logs|)
  {
    var b := First(logs, pos, |logs|);
    if b < |logs| {
      RemainingAdvanced(logs, pos, b, |logs|);
      MergedThreads(logs, Advanced(logs, pos, b));
    }
  }

  lemma {:induction false} KeptAre(ops: seq<Logged>)
    ensures forall x | x in Kept(ops) :: x in ops
  {
    if ops != [] {
      KeptAre(ops[..|ops| - 1]);
    }
  }

  /** Another thread's block is always a known one. */
  lemma ByOtherMatched(kept: seq<Logged>, ops: seq<Record>, k: nat)
    requires Faithful(kept, ops) && RightMatches(kept, ops) && 1 <= k <= |ops| && Said(ops[k - 1]).byOther
    ensures ops[k - 1].Releases() && ops[k - 1].matched != 0
  {
    hide Unreleased;
    assert RightFind(kept, ops, k - 1, kept[k - 1], Said(ops[k - 1]));
  }

  /** Both sides of a match agree on whether the block changes threads. */
  lemma MarksAgree(kept: seq<Logged>, ops: seq<Record>, k: nat, m: nat)
    requires Faithful(kept, ops) && RightMatches(kept, ops) && RightMarks(ops) && 1 <= k <= |ops|
    requires m == MatchOf(ops, k) && m != 0
    ensures m < k && ops[m - 1].Allocates() && ops[k - 1].Releases()
    ensures ops[m - 1].freeByOther <==> ops[k - 1].allocByOther
  {
    hide RightMatches, Faithful;
    MatchedOnce(kept, ops, k, m);
    if ops[m - 1].freeByOther {
      var j :| 0 <= j < |ops| && Said(ops[j]).byOther && Said(ops[j]).seqNo == m;
      assert MatchOf(ops, j + 1) == m;
    }
    if ops[k - 1].allocByOther {
      assert Said(ops[k - 1]).byOther && Said(ops[k - 1]).seqNo == m;
    }
  }

  /** The consolidated log keeps what the replay relies on. */
  lemma ConsolidatedConsistent(logs: seq<seq<LogRecord>>, cfg: Replay.Config)
    requires cfg.log == Consolidated(logs) && cfg.threads == |logs|
    ensures Replay.Consistent(cfg) && Separated(cfg.log)
  {
    hide RightMatches, RightMarks, Timed, Separated, Run, Merged, Kept, MatchOf, Marked;
    var kept, ops := Operations(logs), Ops(cfg.log);
    ConsolidatedRight(logs);
    KeptAre(Merged(logs));
    forall k | Replay.IsOp(cfg, k)
      ensures cfg.IsThread(ops[k - 1].thread)
      ensures ops[k - 1].Releases() && ops[k - 1].allocByOther ==> ops[k - 1].matched != 0
    {
      assert Mirrors(ops[k - 1], kept[k - 1]) && kept[k - 1] in kept;
      ThreadOf(logs, kept[k - 1]);
      if ops[k - 1].Releases() && ops[k - 1].allocByOther {
        ByOtherMatched(kept, ops, k);
      }
    }
    forall k, m | Replay.ReleasesOf(cfg, k, m)
      ensures m < k && ops[m - 1].Allocates() && ops[k - 1].Releases() && ops[k - 1].oldSize == ops[m - 1].size
      ensures ops[k - 1].allocByOther <==> ops[m - 1].thread != ops[k - 1].thread
      ensures ops[m - 1].freeByOther <==> ops[k - 1].allocByOther
      ensures forall k' | Replay.ReleasesOf(cfg, k', m) :: k' == k
    {
      MatchIs(cfg, k, m);
      MarksAgree(kept, ops, k, m);
      MatchedOnce(kept, ops, k, m);
      forall k' | Replay.ReleasesOf(cfg, k', m)
        ensures k' == k
      {
        MatchIs(cfg, k', m);
      }
    }
  }

  lemma MatchIs(cfg: Replay.Config, k: nat, m: nat)
    requires Replay.ReleasesOf(cfg, k, m)
    ensures m == MatchOf(Ops(cfg.log), k)
  {
  }

  lemma ThreadOf(logs: seq<seq<LogRecord>>, x: Logged)
    requires x in Merged(logs)
    ensures 1 <= x.thread <= |logs|
  {
    MergedThreads(logs, Start(logs));
  }

  /** Whatever the logs are, the replay of the consolidated log ends, in whatever order the threads take
      their steps, and has then executed every operation of the logs once. */
  lemma PipelineEnds(logs: seq<seq<LogRecord>>, cfg: Replay.Config, run: nat -> Replay.State)
    requires cfg.log == Consolidated(logs) && cfg.threads == |logs| && ReplayLiveness.Maximal(cfg, run)
    ensures exists last: nat ::
              && ReplayTheorems.Final(cfg, run(last))
              && (forall k | 1 <= k <= |Operations(logs)| :: run(last).executed[k] == 1)
              && ReplaySafety.OwnBlocks(ReplayTheorems.NeverReleased(cfg), run(last).given, run(last).mem.heap)
  {
    ConsolidatedConsistent(logs, cfg);
    ConsolidatedRight(logs);
    ReplayLiveness.ReplayEnds(cfg, run);
  }

  /** In every state of every replay, with and without timestamps, a look-up of an own block finds the
      block of the matched operation, and one of another thread's block does as soon as that operation
      has been executed; with timestamps it always has been. */
  lemma PipelineFinds(logs: seq<seq<LogRecord>>, cfg: Replay.Config, run: seq<Replay.State>, i: nat, t: nat)
    requires cfg.log == Consolidated(logs) && cfg.threads == |logs| && ReplayTheorems.IsRun(cfg, run) && i < |run|
    requires ReplayTheorems.AtLookUp(cfg, run[i], t) && cfg.log[run[i].workers[t].pos].Match() != 0
    ensures var s, r := run[i], cfg.log[run[i].workers[t].pos];
            if !r.allocByOther then
              t in s.mem.own && r.matched in s.mem.own[t] && ReplaySafety.Gave(s, r.matched, s.mem.own[t][r.matched])
            else
              && (r.matched in s.executed || !cfg.ignoreTimestamps ==> r.matched in s.mem.shared)
              && (r.matched in s.mem.shared ==> ReplaySafety.Gave(s, r.matched, s.mem.shared[r.matched]))
  {
    hide ReplaySafety.Invariant;
    ConsolidatedConsistent(logs, cfg);
    ReplayTheorems.RunSafe(cfg, run, i);
    ReplayTheorems.RunCut(cfg, run, i);
    ReplayTheorems.LookUpFinds(cfg, run[i], t);
    if !cfg.ignoreTimestamps {
      ReplayTheorems.TimestampsPreventSpins(cfg, run[i], t);
    }
    SharedGave(cfg, run[i]);
  }

  lemma SharedGave(cfg: Replay.Config, s: Replay.State)
    requires ReplaySafety.Invariant(cfg, s)
    ensures forall m | m in s.mem.shared :: ReplaySafety.Gave(s, m, s.mem.shared[m])
  {
  }

  /** In every state of every replay, what a worker is about to give back is the block that the matched
      operation got, it is still allocated, and no other operation has given it back. */
  lemma PipelineHolds(logs: seq<seq<LogRecord>>, cfg: Replay.Config, run: seq<Replay.State>, i: nat, t: nat)
    requires cfg.log == Consolidated(logs) && cfg.threads == |logs| && ReplayTheorems.IsRun(cfg, run) && i < |run|
    requires t in run[i].workers && Replay.AtOwn(cfg, run[i].workers[t], t) && run[i].workers[t].stage.Act?
    ensures var s, w := run[i], run[i].workers[t];
            var m := cfg.log[w.pos].Match();
            if m == 0 then w.stage.hold == Replay.None
            else
              && w.stage.hold.Some? && ReplaySafety.Gave(s, m, w.stage.hold.value) && w.stage.hold.value in s.mem.heap
              && ReplaySafety.Live(cfg, s, m)
  {
    hide ReplaySafety.Invariant, ReplaySafety.Live;
    ConsolidatedConsistent(logs, cfg);
    ReplayTheorems.RunSafe(cfg, run, i);
    ReplaySafety.HoldsLive(cfg, run[i], t);
  }
}
