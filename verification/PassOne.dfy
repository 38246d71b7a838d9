/** Pass one of the consolidator: merging, numbering and matching. */
module PassOne {
  import opened Lists
  import opened MallocLog
  import opened MergeOrder
  import opened BlockIndex
  import opened Matching

  // ---------------------------------------------------------------- pass one: choosing a record

  /** The times at the cursors are at hand. */
  ghost predicate TimesAt(logs: seq<seq<LogRecord>>, pos: seq<nat>, times: seq<nat>)
    requires Cursors(logs, pos)
  {
    |times| == |logs| && forall i | 0 <= i < |logs| && pos[i] < |logs[i]| :: times[i] == logs[i][pos[i]].time
  }

  lemma TimesStart(logs: seq<seq<LogRecord>>, times: seq<nat>)
    requires |times| == |logs| && forall i | 0 <= i < |logs| && logs[i] != [] :: times[i] == logs[i][0].time
    ensures TimesAt(logs, Start(logs), times)
  {
  }

  /** The log whose next record has the smallest time, -1 when no record has a smaller time than the largest one. */
  method Pick(logs: seq<seq<LogRecord>>, next: array<nat>, times: array<nat>) returns (fileIndex: int, smallest: nat)
    requires Cursors(logs, next[..]) && TimesAt(logs, next[..], times[..])
    ensures var b := First(logs, next[..], |logs|);
            if b == |logs| then fileIndex == -1 else fileIndex == b && smallest == logs[b][next[b]].time
  {
    smallest, fileIndex := MAX_TIMESTAMP, -1;
    var i := 0;
    while i < |logs|
      invariant i <= |logs|
      invariant var b := First(logs, next[..], i);
                if b == |logs| then fileIndex == -1 && smallest == MAX_TIMESTAMP
                else fileIndex == b && smallest == logs[b][next[b]].time
    {
      if next[i] < |logs[i]| && times[i] < smallest {
        smallest := times[i];
        fileIndex := i;
      }
      i := i + 1;
    }
  }

  // ---------------------------------------------------------------- pass one: processing a record

  /** Writes a timestamp when a release of another thread's block would otherwise share a batch with the allocation. */
  method Barrier(f: Found, time: nat, total: nat, prevSeq: nat, out: seq<Record>) returns (prevSeq': nat,
                 out': seq<Record>)
    ensures forall st: State | st.prevSeq == prevSeq && st.total == total && st.out == out ::
              Barred(st, f, time) == st.(out := out', prevSeq := prevSeq')
  {
    prevSeq', out' := prevSeq, out;
    if f.byOther && f.seqNo >= prevSeq {
      out' := out + [Timestamp(time)];
      prevSeq' := total;
    }
  }

  /** Writes the record with the smallest time. */
  method Process(index: Index, op: Logged, prevTime: nat, total: nat, prevSeq: nat, out: seq<Record>)
    returns (prevTime': nat, total': nat, prevSeq': nat, out': seq<Record>)
    requires index.Valid()
    modifies index, index.sets, index.blocks
    ensures index.Valid() && fresh(index.blocks - old(index.blocks))
    ensures State(prevTime', total', prevSeq', index.live, index.freedByOther, out') ==
            Step(State(prevTime, total, prevSeq, old(index.live), old(index.freedByOther), out), op)
  {
    hide Lookup, Forgotten;
    var time, thread := op.rec.time, op.thread;
    prevTime', total', prevSeq', out' := prevTime, total + 1, prevSeq, out;
    if time != prevTime {
      out' := out' + [Timestamp(time)];
      prevTime', prevSeq' := time, total;
    }
    match op.rec
    case LogMalloc(_, moduleNum, size, block) =>
      index.AddOutstandingBlock(block, time, total, thread, size);
      out' := out' + [Malloc(thread, moduleNum, size, false)];
    case LogFree(_, moduleNum, oldBlock) =>
      if oldBlock != NULL {
        var f := index.GetMallocNumber(oldBlock, thread);
        prevSeq', out' := Barrier(f, time, total, prevSeq', out');
        out' := out' + [Free(thread, moduleNum, f.size, f.seqNo, f.byOther)];
      } else {
        total' := total;
      }
    case LogRealloc(_, moduleNum, size, oldBlock, block) =>
      var f := index.GetMallocNumber(oldBlock, thread);
      prevSeq', out' := Barrier(f, time, total, prevSeq', out');
      index.AddOutstandingBlock(block, time, total, thread, size);
      out' := out' + [Realloc(thread, moduleNum, size, f.size, f.seqNo, f.byOther, false)];
  }

  // ---------------------------------------------------------------- pass one: the loop

  /** How many of the first `n` logs have been finished; a log that was empty from the start never is. */
  ghost function Finished(logs: seq<seq<LogRecord>>, pos: seq<nat>, n: nat): (c: nat)
    requires Cursors(logs, pos) && n <= |logs|
    ensures c <= n
    ensures c == n <==> forall i | 0 <= i < n :: 0 < |logs[i]| == pos[i]
  {
    if n == 0 then 0
    else Finished(logs, pos, n - 1) + (if 0 < |logs[n - 1]| == pos[n - 1] then 1 else 0)
  }

  lemma {:induction false} FinishedAdvanced(logs: seq<seq<LogRecord>>, pos: seq<nat>, b: nat, n: nat)
    requires Cursors(logs, pos) && b < |logs| && pos[b] < |logs[b]| && n <= |logs|
    ensures Finished(logs, Advanced(logs, pos, b), n) ==
            Finished(logs, pos, n) + (if b < n && pos[b] + 1 == |logs[b]| then 1 else 0)
  {
    if n > 0 {
      FinishedAdvanced(logs, pos, b, n - 1);
    }
  }

  lemma {:induction false} NothingFinished(logs: seq<seq<LogRecord>>, n: nat)
    requires n <= |logs|
    ensures Finished(logs, Start(logs), n) == 0
  {
    if n > 0 {
      NothingFinished(logs, n - 1);
    }
  }

  /** Every record that has been taken had a time below the largest one. */
  ghost predicate Taken(logs: seq<seq<LogRecord>>, pos: seq<nat>)
    requires Cursors(logs, pos)
  {
    forall i, j | 0 <= i < |logs| && 0 <= j < pos[i] :: logs[i][j].time < MAX_TIMESTAMP
  }

  /** What remains to be taken, after `done`, at the cursors. */
  ghost predicate Rest(logs: seq<seq<LogRecord>>, pos: seq<nat>, done: seq<Logged>)
    requires Cursors(logs, pos)
  {
    Merged(logs) == done + MergeFrom(logs, pos)
  }

  lemma RestAdvanced(logs: seq<seq<LogRecord>>, pos: seq<nat>, done: seq<Logged>)
    requires Cursors(logs, pos) && Rest(logs, pos, done) && First(logs, pos, |logs|) < |logs|
    ensures var b := First(logs, pos, |logs|); Rest(logs, Advanced(logs, pos, b), done + [Current(logs, pos, b)])
    ensures var b := First(logs, pos, |logs|);
            Remaining(logs, Advanced(logs, pos, b), |logs|) == Remaining(logs, pos, |logs|) - 1
  {
    var b := First(logs, pos, |logs|);
    RemainingAdvanced(logs, pos, b, |logs|);
    assert done + MergeFrom(logs, pos) == (done + [Current(logs, pos, b)]) + MergeFrom(logs, Advanced(logs, pos, b));
  }

  /** When every log is finished, nothing remains. */
  lemma AllTaken(logs: seq<seq<LogRecord>>, pos: seq<nat>, done: seq<Logged>)
    requires Cursors(logs, pos) && Rest(logs, pos, done) && Taken(logs, pos) && Finished(logs, pos, |logs|) == |logs|
    ensures Mergeable(logs) && done == Merged(logs)
  {
    assert First(logs, pos, |logs|) == |logs|;
  }

  /** When no record can be taken although a log is unfinished, the logs cannot be merged. */
  lemma Stuck(logs: seq<seq<LogRecord>>, pos: seq<nat>)
    requires Cursors(logs, pos) && First(logs, pos, |logs|) == |logs| && Finished(logs, pos, |logs|) < |logs|
    ensures !Mergeable(logs)
  {
    var i :| 0 <= i < |logs| && !(0 < |logs[i]| == pos[i]);
    assert !Ready(logs, pos, i);
  }

  /** One record is added to a run. */
  lemma RunSnoc(ops: seq<Logged>, op: Logged)
    ensures Run(ops + [op]) == Step(Run(ops), op)
  {
    assert (ops + [op])[..|ops|] == ops;
  }

  /** What the loop has done with the logs: `done` has been taken, and the rest is still at the cursors. */
  ghost predicate Progress(logs: seq<seq<LogRecord>>, pos: seq<nat>, done: seq<Logged>, finished: nat) {
    && Cursors(logs, pos) && Taken(logs, pos) && Rest(logs, pos, done)
    && finished == Finished(logs, pos, |logs|)
  }

  lemma Begin(logs: seq<seq<LogRecord>>)
    ensures Progress(logs, Start(logs), [], 0) && Run([]) == INITIAL
  {
    NothingFinished(logs, |logs|);
  }

  lemma ProgressAdvanced(logs: seq<seq<LogRecord>>, pos: seq<nat>, done: seq<Logged>, finished: nat)
    requires Progress(logs, pos, done, finished) && First(logs, pos, |logs|) < |logs|
    ensures var b := First(logs, pos, |logs|);
            && Progress(logs, Advanced(logs, pos, b), done + [Current(logs, pos, b)],
                        if pos[b] + 1 == |logs[b]| then finished + 1 else finished)
            && Remaining(logs, Advanced(logs, pos, b), |logs|) == Remaining(logs, pos, |logs|) - 1
            && Run(done + [Current(logs, pos, b)]) == Step(Run(done), Current(logs, pos, b))
  {
    hide Rest, Finished, Run, Step;
    var b := First(logs, pos, |logs|);
    RestAdvanced(logs, pos, done);
    FinishedAdvanced(logs, pos, b, |logs|);
    RunSnoc(done, Current(logs, pos, b));
  }

  /** Moves to the next record of the log that `First` chose, and counts the log when it has no more. */
  method Advance(logs: seq<seq<LogRecord>>, next: array<nat>, times: array<nat>, b: nat, finished: nat,
                 ghost done: seq<Logged>)
    returns (finished': nat)
    requires Progress(logs, next[..], done, finished) && TimesAt(logs, next[..], times[..]) && next != times
    requires b == First(logs, next[..], |logs|) < |logs|
    modifies next, times
    ensures Cursors(logs, next[..])
    ensures Progress(logs, next[..], done + [Current(logs, old(next[..]), b)], finished')
    ensures TimesAt(logs, next[..], times[..])
    ensures Remaining(logs, next[..], |logs|) == Remaining(logs, old(next[..]), |logs|) - 1
    ensures Run(done + [Current(logs, old(next[..]), b)]) == Step(Run(done), Current(logs, old(next[..]), b))
  {
    hide Taken, Rest, Finished, First, Run, Step, Remaining;
    ProgressAdvanced(logs, next[..], done, finished);
    ghost var was := next[..];
    finished' := finished;
    next[b] := next[b] + 1;
    assert next[..] == Advanced(logs, was, b);
    if next[b] == |logs[b]| {
      finished' := finished + 1;
    } else {
      times[b] := logs[b][next[b]].time;
    }
  }

  lemma End(logs: seq<seq<LogRecord>>, pos: seq<nat>, done: seq<Logged>, finished: nat)
    requires Progress(logs, pos, done, finished)
    ensures finished >= |logs| ==> Mergeable(logs) && done == Merged(logs)
    ensures finished < |logs| && First(logs, pos, |logs|) == |logs| ==> !Mergeable(logs)
  {
    hide First, Finished;
    if finished >= |logs| {
      AllTaken(logs, pos, done);
    } else if First(logs, pos, |logs|) == |logs| {
      Stuck(logs, pos);
    }
  }

  /** Merges the logs. Without a next record it would go on with no log at all, which is the outcome `!ok`. */
  method Merge(logs: seq<seq<LogRecord>>) returns (ok: bool, total: nat, freed: set<nat>, out: seq<Record>)
    ensures ok <==> Mergeable(logs)
    ensures ok ==> var st := Run(Merged(logs)); total == st.total && freed == st.freedByOther && out == st.out
  {
    hide Merged, First, Remaining, Run, Step, Mergeable, Progress, Index.Valid, TimesAt, Cursors;
    var index := new Index();
    var next := new nat[|logs|](_ => 0);
    var times := new nat[|logs|](i requires 0 <= i < |logs| => if logs[i] != []
      then logs[i][0].time else MAX_TIMESTAMP);
    var prevTime, prevSeq := MAX_TIMESTAMP, 0;
    total, out := 1, [];
    ghost var done: seq<Logged> := [];
    var finished: nat := 0;
    assert next[..] == Start(logs);
    Begin(logs);
    TimesStart(logs, times[..]);
    while finished < |logs|
      invariant index.Valid() && fresh(index) && fresh(index.sets) && fresh(index.blocks)
      invariant fresh(next) && fresh(times) && next != times
      invariant Cursors(logs, next[..]) && TimesAt(logs, next[..], times[..])
      invariant Progress(logs, next[..], done, finished)
      invariant State(prevTime, total, prevSeq, index.live, index.freedByOther, out) == Run(done)
      decreases Remaining(logs, next[..], |logs|)
    {
      End(logs, next[..], done, finished);
      var b, smallest := Pick(logs, next, times);
      if b < 0 {
        return false, total, {}, out;
      }
      var op := Logged(b + 1, logs[b][next[b]]);
      prevTime, total, prevSeq, out := Process(index, op, prevTime, total, prevSeq, out);
      finished := Advance(logs, next, times, b, finished, done);
      done := done + [op];
    }
    End(logs, next[..], done, finished);
    ok, freed := true, index.freedByOther;
  }

  /** An empty log beside one with a record: after that record there is no next one, and yet one log has
      not been finished. */
  method EmptyLog() returns (ok: bool)
    ensures !ok
  {
    var logs: seq<seq<LogRecord>> := [[LogMalloc(5, 0, 8, 16)], []];
    var total, freed, out;
    assert logs[1] == [];
    ok, total, freed, out := Merge(logs);
  }
}
