/** The consolidator: after pass one, pass two marks the allocations whose blocks another thread releases. */
module Consolidator {
  import opened MallocLog
  import opened MergeOrder
  import opened Matching
  import PassOne
  import opened Timestamps
  import OneOutput

  // ---------------------------------------------------------------- the marks

  function Mark(r: Record): Record {
    if r.Allocates() then r.(freeByOther := true) else r
  }

  /** The records, with the operations whose numbers are in `ms` marked. */
  ghost function Marked(out: seq<Record>, ms: set<nat>): (log: seq<Record>)
    ensures |log| == |out|
    ensures forall i | 0 <= i < |out| ::
              log[i] == if out[i].IsOp() && SeqNoAt(out, i) in ms then Mark(out[i]) else out[i]
  {
    seq(|out|, i requires 0 <= i < |out| => if out[i].IsOp() && SeqNoAt(out, i) in ms then Mark(out[i]) else out[i])
  }

  ghost predicate Ascending(ms: seq<nat>) {
    forall i, j | 0 <= i < j < |ms| :: ms[i] < ms[j]
  }

  ghost function Elements(ms: seq<nat>): set<nat> {
    set m | m in ms
  }

  /** Only the operation at one position has number `m`. */
  lemma NumberUnique(out: seq<Record>, i: nat, j: nat)
    requires i < |out| && j < |out| && out[i].IsOp() && out[j].IsOp() && SeqNoAt(out, i) == SeqNoAt(out, j)
    ensures i == j
  {
    if i < j {
      CountOpsMonotone(out, i, j);
    } else if j < i {
      CountOpsMonotone(out, j, i);
    }
  }

  /** Marking one more operation. */
  lemma MarkedMore(out: seq<Record>, ms: seq<nat>, k: nat, c: nat)
    requires k < |ms| && c < |out| && out[c].IsOp() && SeqNoAt(out, c) == ms[k]
    ensures Marked(out, Elements(ms[..k + 1])) ==
            Marked(out, Elements(ms[..k]))[c := Mark(out[c])]
  {
    hide MallocLog.CountOps;
    var a, b := Marked(out, Elements(ms[..k])), Marked(out, Elements(ms[..k + 1]));
    forall i | 0 <= i < |out|
      ensures b[i] == a[c := Mark(out[c])][i]
    {
      if out[i].IsOp() && SeqNoAt(out, i) == ms[k] {
        NumberUnique(out, i, c);
      }
    }
  }

  lemma CursorInside(out: seq<Record>, cursor: nat, seqNo: nat)
    requires CursorAt(out, cursor, seqNo) && seqNo <= CountOps(out)
    ensures cursor < |out|
  {
    assert out[..|out|] == out;
  }

  /** Moves on to the operation with number `m`. */
  method Seek(recs: array<Record>, cursor: nat, seqNo: nat, m: nat, ghost out: seq<Record>) returns (cursor': nat)
    requires recs.Length == |out| && forall i | 0 <= i < |out| :: recs[i].IsOp() == out[i].IsOp()
    requires CursorAt(out, cursor, seqNo) && seqNo <= m <= CountOps(out)
    ensures CursorAt(out, cursor', m) && cursor <= cursor' < |out| && out[cursor'].IsOp()
  {
    hide CursorAt, CountOps;
    cursor' := cursor;
    var current: nat := seqNo;
    CursorInside(out, cursor, seqNo);
    while current != m && cursor' < recs.Length
      invariant CursorAt(out, cursor', current) && current <= m && cursor <= cursor' < |out|
      decreases |out| - cursor'
    {
      CursorMoves(out, cursor', current);
      if !recs[cursor'].Timestamp? {
        current := current + 1;
      }
      cursor' := cursor' + 1;
      CursorInside(out, cursor', current);
    }
    while recs[cursor'].Timestamp?
      invariant cursor' < |out| && CursorAt(out, cursor', m) && cursor <= cursor'
      decreases |out| - cursor'
    {
      CursorMoves(out, cursor', m);
      cursor' := cursor' + 1;
      CursorInside(out, cursor', m);
    }
  }

  /** Marks the operations with the given numbers in one forward sweep. The search for the first
      operation runs over the end when there is none, which is the outcome `!ok`. */
  method MarkFreedByOther(recs: array<Record>, ms: seq<nat>) returns (ok: bool)
    requires Ascending(ms) && forall m | m in ms :: 1 <= m <= CountOps(recs[..])
    modifies recs
    ensures ok <==> CountOps(old(recs[..])) > 0
    ensures recs[..] == Marked(old(recs[..]), Elements(ms))
  {
    hide CountOps, CursorAt;
    ghost var out := recs[..];
    var cursor, seqNo: nat := 0, 1;
    CursorStart(out);
    while cursor < recs.Length && recs[cursor].Timestamp?
      invariant cursor <= |out| && CursorAt(out, cursor, 1) && recs[..] == out
    {
      CursorMoves(out, cursor, 1);
      cursor := cursor + 1;
    }
    NoOps(out, cursor);
    NothingMarked(out, ms);
    if cursor == recs.Length {
      return false;
    }
    assert forall i | 0 <= i < |ms| :: ms[i] in ms;
    var k := 0;
    while k < |ms|
      invariant k <= |ms| && cursor < |out| && CursorAt(out, cursor, seqNo) && (k < |ms| ==> seqNo <= ms[k])
      invariant recs[..] == Marked(out, Elements(ms[..k]))
    {
      assert forall i | 0 <= i < |out| :: recs[i] == recs[..][i];
      cursor := Seek(recs, cursor, seqNo, ms[k], out);
      seqNo := ms[k];
      CursorMoves(out, cursor, seqNo);
      MarkedMore(out, ms, k, cursor);
      Same(out, ms, k, cursor);
      if recs[cursor].Allocates() {
        recs[cursor] := Mark(recs[cursor]);
      }
      k := k + 1;
    }
    assert ms[..k] == ms;
    ok := true;
  }

  lemma NothingMarked(out: seq<Record>, ms: seq<nat>)
    ensures Marked(out, Elements(ms[..0])) == out
    ensures CountOps(out) == 0 && (forall m | m in ms :: 1 <= m <= CountOps(out)) ==> ms == []
  {
    if ms != [] {
      assert ms[0] in ms;
    }
  }

  lemma NoOps(out: seq<Record>, cursor: nat)
    requires CursorAt(out, cursor, 1) && (cursor < |out| ==> out[cursor].IsOp())
    ensures cursor == |out| <==> CountOps(out) == 0
  {
    if cursor < |out| {
      CountOpsMonotone(out, cursor, |out|);
    }
    assert out[..|out|] == out;
  }

  /** The operation at the cursor has not been changed yet. */
  lemma Same(out: seq<Record>, ms: seq<nat>, k: nat, c: nat)
    requires Ascending(ms) && k < |ms| && c < |out| && SeqNoAt(out, c) == ms[k]
    ensures Marked(out, Elements(ms[..k]))[c] == out[c]
  {
  }

  // ---------------------------------------------------------------- what the marks leave alone

  /** The records are the same up to marks. */
  ghost predicate Similar(out: seq<Record>, log: seq<Record>) {
    |log| == |out| && forall i | 0 <= i < |out| :: log[i] == out[i] || log[i] == Mark(out[i])
  }

  lemma {:induction false} SimilarCounts(out: seq<Record>, log: seq<Record>)
    requires Similar(out, log)
    ensures CountOps(log) == CountOps(out) && TimeOf(log) == TimeOf(out) && Similar(Ops(out), Ops(log))
  {
    if out != [] {
      SimilarCounts(out[..|out| - 1], log[..|log| - 1]);
    }
  }

  lemma SimilarPrefix(out: seq<Record>, log: seq<Record>, i: nat)
    requires Similar(out, log) && i <= |out|
    ensures CountOps(log[..i]) == CountOps(out[..i]) && TimeOf(log[..i]) == TimeOf(out[..i])
  {
    SimilarCounts(out[..i], log[..i]);
  }

  lemma SimilarTimed(kept: seq<Logged>, out: seq<Record>, log: seq<Record>)
    requires Similar(out, log) && CountOps(out) == |kept| && Timed(kept, out)
    ensures CountOps(log) == |kept| && Timed(kept, log)
  {
    SimilarCounts(out, log);
    forall i | 0 <= i < |log| && log[i].IsOp()
      ensures SeqNoAt(log, i) <= |kept| && TimeOf(log[..i]) == kept[SeqNoAt(log, i) - 1].rec.time
    {
      SimilarPrefix(out, log, i);
      assert SeqNoAt(out, i) <= |kept|;
    }
  }

  lemma SimilarSeparated(out: seq<Record>, log: seq<Record>)
    requires Similar(out, log) && Separated(out)
    ensures Separated(log)
  {
    forall p, i | 0 <= p < i < |log| && ReleasedAcross(log, p, i)
      ensures exists t :: p < t < i && log[t].Timestamp?
    {
      SimilarPrefix(out, log, p);
      assert ReleasedAcross(out, p, i);
      var t :| p < t < i && out[t].Timestamp?;
      assert log[t].Timestamp?;
    }
  }

  lemma SimilarMatches(kept: seq<Logged>, ops: seq<Record>, ops': seq<Record>)
    requires Similar(ops, ops') && Faithful(kept, ops) && RightMatches(kept, ops)
    ensures Faithful(kept, ops') && RightMatches(kept, ops')
  {
    hide RightFind;
    forall k | 0 <= k < |kept|
      ensures Mirrors(ops'[k], kept[k]) && Said(ops'[k]) == Said(ops[k])
    {
      assert Mirrors(ops[k], kept[k]);
    }
    forall k | 0 <= k < |kept|
      ensures RightFind(kept, ops', k, kept[k], Said(ops'[k]))
    {
      RightFindSame(kept, ops', ops, k, kept[k], Said(ops[k]));
    }
  }

  lemma SimilarStamps(ops: seq<Logged>, out: seq<Record>, log: seq<Record>)
    requires Similar(out, log) && RightStamps(ops, out)
    ensures RightStamps(ops, log)
  {
    hide Changes, FreshTimes;
    SimilarFresh(out, log);
    forall t | 0 <= t < |log| && Repeats(log, t)
      ensures Needed(log, t)
    {
      SimilarPrefix(out, log, t);
      assert Repeats(out, t);
      var q :| 0 <= q < t && ReleasedAcross(out, q, t + 1) && Unbroken(out, q, t);
      SimilarPrefix(out, log, q);
      assert ReleasedAcross(log, q, t + 1) && Unbroken(log, q, t);
    }
  }

  lemma {:induction false} SimilarFresh(out: seq<Record>, log: seq<Record>)
    requires Similar(out, log)
    ensures FreshTimes(log) == FreshTimes(out)
  {
    if out != [] {
      SimilarFresh(out[..|out| - 1], log[..|log| - 1]);
      SimilarPrefix(out, log, |out| - 1);
    }
  }

  /** An allocation is marked exactly when another thread releases its block. */
  ghost predicate RightMarks(ops: seq<Record>) {
    forall m | 0 <= m < |ops| && ops[m].Allocates() ::
      ops[m].freeByOther <==> exists k :: 0 <= k < |ops| && Said(ops[k]).byOther && Said(ops[k]).seqNo == m + 1
  }

  lemma MarkAt(out: seq<Record>, freed: set<nat>, m: nat)
    requires m < CountOps(out) && Unmarked(out)
    ensures |Ops(Marked(out, freed))| == CountOps(out)
    ensures var r := Ops(Marked(out, freed))[m]; r.Allocates() ==> (r.freeByOther <==> m + 1 in freed)
  {
    hide CountOps, Ops;
    var log := Marked(out, freed);
    var i := OpPosition(out, m);
    SimilarCounts(out, log);
    SimilarPrefix(out, log, i);
    OpAt(log, i);
  }

  lemma MarksRight(out: seq<Record>, freed: set<nat>)
    requires FreedAre(Ops(out), freed) && Unmarked(out)
    ensures RightMarks(Ops(Marked(out, freed)))
  {
    hide CountOps, Ops, Unmarked;
    var log := Marked(out, freed);
    var ops, ops' := Ops(out), Ops(log);
    SimilarCounts(out, log);
    assert forall k | 0 <= k < |ops| :: Said(ops'[k]) == Said(ops[k]);
    forall m | 0 <= m < |ops'| && ops'[m].Allocates()
      ensures ops'[m].freeByOther <==>
                exists k :: 0 <= k < |ops'| && Said(ops'[k]).byOther && Said(ops'[k]).seqNo == m + 1
    {
      MarkAt(out, freed, m);
      assert m + 1 in freed <==> exists k :: 0 <= k < |ops| && Said(ops[k]).byOther && Said(ops[k]).seqNo == m + 1;
    }
  }

  // ---------------------------------------------------------------- both passes

  /** The numbers below `n` of a set, in order. */
  function InOrder(s: set<nat>, n: nat): (ms: seq<nat>)
    ensures Ascending(ms) && forall m :: m in ms <==> m in s && m < n
  {
    if n == 0 then []
    else
      var front := InOrder(s, n - 1);
      assert forall i | 0 <= i < |front| :: front[i] in front;
      if n - 1 in s then front + [n - 1] else front
  }

  /** The consolidated log. */
  ghost function Consolidated(logs: seq<seq<LogRecord>>): seq<Record> {
    var st := Run(Merged(logs));
    Marked(st.out, st.freedByOther)
  }

  /** The merged records that are not frees of NULL. */
  ghost function Operations(logs: seq<seq<LogRecord>>): seq<Logged> {
    Kept(Merged(logs))
  }

  /** The operations are the stable sort by time of the logs in the order of the files, without the frees of NULL. */
  lemma OperationsSorted(logs: seq<seq<LogRecord>>)
    requires Mergeable(logs) && Chronological(logs)
    ensures Operations(logs) == Kept(StableSort(Concatenated(logs)))
  {
    MergeIsStableSort(logs);
  }

  lemma MergedTimes(logs: seq<seq<LogRecord>>, pos: seq<nat>)
    requires Cursors(logs, pos)
    ensures forall i | 0 <= i < |MergeFrom(logs, pos)| :: MergeFrom(logs, pos)[i].rec.time < MAX_TIMESTAMP
    decreases Remaining(logs, pos, |logs|)
  {
    var b := First(logs, pos, |logs|);
    if b < |logs| {
      RemainingAdvanced(logs, pos, b, |logs|);
      MergedTimes(logs, Advanced(logs, pos, b));
    }
  }

  /** The numbers that pass one collects are numbers of operations. */
  lemma FreedInRange(kept: seq<Logged>, st: State, m: nat)
    requires Good(kept, st) && m in st.freedByOther
    ensures 1 <= m <= CountOps(st.out)
  {
    hide Timed, Separated, Tracked, Unreleased, Fence;
    var ops := Ops(st.out);
    var k :| 0 <= k < |ops| && Said(ops[k]).byOther && Said(ops[k]).seqNo == m;
    assert RightFind(kept, ops, k, kept[k], Said(ops[k]));
  }

  /** What the consolidated log of the given logs should be, told without how it is made: the operations
      with the right matches and marks, each behind a timestamp of its time, the releases of other threads'
      blocks in later batches than the allocations, the times of all records, and no timestamp more. */
  ghost predicate Described(logs: seq<seq<LogRecord>>, log: seq<Record>) {
    var kept := Operations(logs);
    && Faithful(kept, Ops(log)) && RightMatches(kept, Ops(log)) && RightMarks(Ops(log))
    && Timed(kept, log) && Separated(log) && RightStamps(Merged(logs), log)
  }

  /** Everything that the consolidated log promises. */
  lemma ConsolidatedRight(logs: seq<seq<LogRecord>>)
    ensures Described(logs, Consolidated(logs))
  {
    hide Faithful, RightMatches, RightMarks, Timed, Separated, Tracked, FreedAre, Unmarked, Fence, Run, Kept, MergeFrom;
    hide RightStamps;
    RunStamps(logs);
    SimilarStamps(Merged(logs), Run(Merged(logs)).out, Consolidated(logs));
    var kept, st := Operations(logs), Run(Merged(logs));
    MergedTimes(logs, Start(logs));
    RunGood(Merged(logs));
    var log := Consolidated(logs);
    SimilarCounts(st.out, log);
    SimilarMatches(kept, Ops(st.out), Ops(log));
    SimilarTimed(kept, st.out, log);
    SimilarSeparated(st.out, log);
    MarksRight(st.out, st.freedByOther);
  }

  lemma RunStamps(logs: seq<seq<LogRecord>>)
    ensures RightStamps(Merged(logs), Run(Merged(logs)).out)
  {
    hide Run, RightStamps;
    MergedTimes(logs, Start(logs));
    RunSpare(Merged(logs));
  }

  // ---------------------------------------------------------------- no other output

  lemma OpsDescribed(kept: seq<Logged>, ops: seq<Record>, ops': seq<Record>)
    requires Faithful(kept, ops) && RightMatches(kept, ops) && RightMarks(ops)
    requires Faithful(kept, ops') && RightMatches(kept, ops') && RightMarks(ops')
    ensures ops == ops'
  {
    hide RightMatches;
    forall k: nat | k < |ops|
      ensures Said(ops[k]) == Said(ops'[k])
    {
      MatchingUnique(kept, ops, ops', k);
    }
    forall k | 0 <= k < |ops|
      ensures ops[k] == ops'[k]
    {
      assert Mirrors(ops[k], kept[k]) && Mirrors(ops'[k], kept[k]);
    }
  }

  lemma {:induction false} ChangesIncrease(ops: seq<Logged>)
    requires Ordered(ops)
    ensures OneOutput.Increasing(Changes(ops))
    ensures ops != [] ==> Changes(ops) != [] && Changes(ops)[|Changes(ops)| - 1] == ops[|ops| - 1].rec.time
  {
    if ops != [] {
      var front := ops[..|ops| - 1];
      ChangesIncrease(front);
      assert front != [] ==> Before(ops[|front| - 1], ops[|front|]);
    }
  }

  /** When the times of every log do not decrease, the description leaves no other output. */
  lemma ConsolidatedOnly(logs: seq<seq<LogRecord>>, log: seq<Record>)
    requires Mergeable(logs) && Chronological(logs) && Described(logs, log)
    ensures log == Consolidated(logs)
  {
    hide Faithful, RightMatches, RightMarks, Timed, Separated, Kept, MergeFrom, Sparing, Changes, FreshTimes;
    var kept, own := Operations(logs), Consolidated(logs);
    ConsolidatedRight(logs);
    OpsDescribed(kept, Ops(log), Ops(own));
    MergedOrdered(logs);
    ChangesIncrease(Merged(logs));
    Settled(kept, log);
    Settled(kept, own);
    OneOutput.SameLogs(kept, log, own);
  }

  lemma MergedOrdered(logs: seq<seq<LogRecord>>)
    requires Mergeable(logs) && Chronological(logs)
    ensures Ordered(Merged(logs))
  {
    MergeOrdered(logs, Start(logs), []);
    assert [] + Merged(logs) == Merged(logs);
  }

  lemma Settled(kept: seq<Logged>, log: seq<Record>)
    requires Faithful(kept, Ops(log)) && Timed(kept, log) && Separated(log) && Leading(log) && Sparing(log)
    ensures OneOutput.Begun(kept, log) && OneOutput.Trim(log) == log
  {
  }

  method GenConsolidatedFile(logs: seq<seq<LogRecord>>) returns (ok: bool, totalRecords: nat, recs: array<Record>)
    ensures fresh(recs)
    ensures ok <==> Mergeable(logs) && Operations(logs) != []
    ensures ok ==> totalRecords == |Operations(logs)| && recs[..] == Consolidated(logs)
  {
    hide Mergeable, Run, Merged, Good, Kept;
    var total, freed, out;
    ok, total, freed, out := PassOne.Merge(logs);
    recs := new Record[|out|](i requires 0 <= i < |out| => out[i]);
    if !ok {
      return false, 0, recs;
    }
    assert recs[..] == out;
    MergedTimes(logs, Start(logs));
    RunCounts(logs);
    totalRecords := total - 1;
    var ms := InOrder(freed, total);
    assert Elements(ms) == freed;
    ok := MarkFreedByOther(recs, ms);
  }

  lemma RunCounts(logs: seq<seq<LogRecord>>)
    ensures var st := Run(Merged(logs));
            && st.total == |Operations(logs)| + 1 && CountOps(st.out) == |Operations(logs)|
            && (forall m | m in st.freedByOther :: 1 <= m <= CountOps(st.out))
  {
    hide Run, Kept, Good, MergeFrom;
    var kept, st := Operations(logs), Run(Merged(logs));
    MergedTimes(logs, Start(logs));
    RunGood(Merged(logs));
    HasTime(kept, st);
    assert |Ops(st.out)| == |kept| by { SameNumber(kept, st); }
    forall m | m in st.freedByOther
      ensures 1 <= m <= CountOps(st.out)
    {
      FreedInRange(kept, st, m);
    }
  }

  lemma SameNumber(kept: seq<Logged>, st: State)
    requires Good(kept, st)
    ensures |Ops(st.out)| == |kept|
  {
  }
}
