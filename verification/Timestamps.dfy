/** Where timestamps stand in the consolidated log: as few of them as possible, told from the log alone. */
module Timestamps {
  import opened MallocLog
  import opened BlockIndex
  import opened Matching

  // ---------------------------------------------------------------- what the output should be

  /** The log begins with a timestamp. */
  ghost predicate Leading(out: seq<Record>) {
    out != [] ==> out[0].Timestamp?
  }

  /** A timestamp with the time of the one before it. */
  ghost predicate Repeats(out: seq<Record>, t: nat)
    requires t < |out|
  {
    t > 0 && out[t].Timestamp? && out[t].time == TimeOf(out[..t])
  }

  /** The timestamp is directly followed by a release of another thread's block, and without it there would
      be none between the allocation of that block and the release. */
  ghost predicate Needed(out: seq<Record>, t: nat)
    requires t < |out|
  {
    && t + 1 < |out| && out[t + 1].Releases() && out[t + 1].allocByOther
    && exists q :: 0 <= q < t && ReleasedAcross(out, q, t + 1) && Unbroken(out, q, t)
  }

  /** There is no timestamp between two places. */
  ghost predicate Unbroken(out: seq<Record>, q: nat, t: nat)
    requires q <= t <= |out|
  {
    forall j | q < j < t :: out[j].IsOp()
  }

  /** A time is only repeated where that is needed. */
  ghost predicate Sparing(out: seq<Record>) {
    forall t | 0 <= t < |out| && Repeats(out, t) :: Needed(out, t)
  }

  /** The times of the timestamps, without repetitions. */
  ghost function FreshTimes(out: seq<Record>): seq<nat> {
    if out == [] then []
    else
      var front, r := out[..|out| - 1], out[|out| - 1];
      FreshTimes(front) + (if r.Timestamp? && (front == [] || r.time != TimeOf(front)) then [r.time] else [])
  }

  /** The times of the records, each once as long as it does not change. */
  ghost function Changes(ops: seq<Logged>): seq<nat> {
    if ops == [] then []
    else
      var front, op := ops[..|ops| - 1], ops[|ops| - 1];
      Changes(front) + (if front == [] || front[|front| - 1].rec.time != op.rec.time then [op.rec.time] else [])
  }

  /** The timestamps of a log of the merged records `ops`. */
  ghost predicate RightStamps(ops: seq<Logged>, out: seq<Record>) {
    Leading(out) && Sparing(out) && FreshTimes(out) == Changes(ops)
  }

  // ---------------------------------------------------------------- one more record

  lemma StampsPrefix(out: seq<Record>, more: seq<Record>, t: nat)
    requires t < |out|
    ensures Repeats(out + more, t) == Repeats(out, t)
    ensures Needed(out, t) ==> Needed(out + more, t)
  {
    var out' := out + more;
    assert out'[..t] == out[..t];
    if Needed(out, t) {
      var q :| 0 <= q < t && ReleasedAcross(out, q, t + 1) && Unbroken(out, q, t);
      assert out'[..q] == out[..q];
      assert ReleasedAcross(out', q, t + 1) && Unbroken(out', q, t);
    }
  }

  lemma SparingSnoc(out: seq<Record>, r: Record)
    requires Sparing(out) && (r.Timestamp? && out != [] ==> r.time != TimeOf(out))
    ensures Sparing(out + [r])
  {
    hide Needed;
    assert (out + [r])[..|out|] == out;
    forall t | 0 <= t < |out + [r]| && Repeats(out + [r], t)
      ensures Needed(out + [r], t)
    {
      if t < |out| {
        StampsPrefix(out, [r], t);
      }
    }
  }

  lemma SparingBarrier(out: seq<Record>, stamp: Record, r: Record)
    requires Sparing(out) && stamp.Timestamp? && r.IsOp() && Needed(out + [stamp, r], |out|)
    ensures Sparing(out + [stamp, r])
  {
    hide Needed;
    var out' := out + [stamp, r];
    forall t | 0 <= t < |out'| && Repeats(out', t)
      ensures Needed(out', t)
    {
      if t < |out| {
        StampsPrefix(out, [stamp, r], t);
      }
    }
  }

  lemma FreshSnoc(out: seq<Record>, r: Record)
    ensures FreshTimes(out + [r]) ==
            FreshTimes(out) + (if r.Timestamp? && (out == [] || r.time != TimeOf(out)) then [r.time] else [])
    ensures TimeOf(out + [r]) == if r.Timestamp? then r.time else TimeOf(out)
  {
    assert (out + [r])[..|out|] == out;
  }

  lemma ChangesSnoc(ops: seq<Logged>, op: Logged)
    ensures Changes(ops + [op]) ==
            Changes(ops) + (if ops == [] || ops[|ops| - 1].rec.time != op.rec.time then [op.rec.time] else [])
  {
    assert (ops + [op])[..|ops|] == ops;
  }

  // ---------------------------------------------------------------- the pass

  /** Operations from number `seqNo` on stand behind the last timestamp. */
  ghost predicate BehindLast(out: seq<Record>, seqNo: nat) {
    forall i | 0 <= i < |out| && out[i].IsOp() && SeqNoAt(out, i) >= seqNo :: Unbroken(out, i, |out|)
  }

  lemma BehindSnoc(out: seq<Record>, r: Record, seqNo: nat)
    requires BehindLast(out, seqNo) && r.IsOp()
    ensures BehindLast(out + [r], seqNo)
  {
    var out' := out + [r];
    forall i | 0 <= i < |out'| && out'[i].IsOp() && SeqNoAt(out', i) >= seqNo
      ensures Unbroken(out', i, |out'|)
    {
      assert out'[..i] == out[..i];
      assert i < |out| ==> Unbroken(out, i, |out|);
    }
  }

  lemma BehindStamp(out: seq<Record>, time: nat)
    ensures BehindLast(out + [Timestamp(time)], CountOps(out) + 1)
  {
    var out' := out + [Timestamp(time)];
    forall i | 0 <= i < |out'| && out'[i].IsOp()
      ensures SeqNoAt(out', i) < CountOps(out) + 1
    {
      assert out'[..i] == out[..i] && out[..|out|] == out;
      CountOpsMonotone(out, i, |out|);
    }
  }

  /** What the pass keeps: the timestamps are right, and the last one is where the variables say. */
  ghost predicate Spare(ops: seq<Logged>, st: State) {
    && RightStamps(ops, st.out) && (ops == [] <==> st.out == []) && st.total == CountOps(st.out) + 1
    && (if ops == [] then st.prevTime == MAX_TIMESTAMP
        else
          && st.prevTime == ops[|ops| - 1].rec.time == TimeOf(st.out)
          && BehindLast(st.out, st.prevSeq))
  }

  lemma SpareStamp(ops: seq<Logged>, st: State, op: Logged)
    requires Spare(ops, st) && op.rec.time < MAX_TIMESTAMP
    ensures Spare(ops + [op], Stamped(st, op.rec.time))
  {
    hide Sparing, BehindLast;
    var time := op.rec.time;
    ChangesSnoc(ops, op);
    if time != st.prevTime {
      SparingSnoc(st.out, Timestamp(time));
      FreshSnoc(st.out, Timestamp(time));
      OpsSnoc(st.out, Timestamp(time));
      BehindStamp(st.out, time);
    } else {
      assert Changes(ops) + [] == Changes(ops);
    }
  }

  /** A release that would have no timestamp between the allocation and itself. */
  lemma BarrierNeeded(out: seq<Record>, seqNo: nat, stamp: Record, r: Record)
    requires BehindLast(out, seqNo) && stamp.Timestamp? && r.Releases() && r.allocByOther
    requires 0 < r.matched <= CountOps(out) && r.matched >= seqNo
    ensures Needed(out + [stamp, r], |out|)
  {
    hide CountOps, Ops;
    var out' := out + [stamp, r];
    var q := OpPosition(out, r.matched - 1);
    assert out'[..q] == out[..q];
    assert Unbroken(out, q, |out|);
    assert ReleasedAcross(out', q, |out| + 1) && Unbroken(out', q, |out|);
  }

  /** An operation is written, behind a timestamp where one is needed. */
  lemma SpareEmit(ops: seq<Logged>, st: State, op: Logged, f: Found)
    requires Spare(ops, st) && ops != [] && (f.byOther ==> 0 < f.seqNo < st.total && op.rec.Releases())
    ensures Spare(ops, Emitted(Barred(st, f, st.prevTime), op, f))
  {
    hide Sparing, BehindLast, Needed, CountOps, FreshTimes, Changes, TimeOf;
    var r, stamp := Written(op, f), Timestamp(st.prevTime);
    var b := Barred(st, f, st.prevTime);
    if f.byOther && f.seqNo >= st.prevSeq {
      BarrierNeeded(st.out, st.prevSeq, stamp, r);
      SparingBarrier(st.out, stamp, r);
      assert st.out + [stamp] + [r] == st.out + [stamp, r];
      FreshSnoc(st.out, stamp);
      OpsSnoc(st.out, stamp);
      BehindStamp(st.out, st.prevTime);
    } else {
      SparingSnoc(st.out, r);
    }
    FreshSnoc(b.out, r);
    OpsSnoc(b.out, r);
    BehindSnoc(b.out, r, b.prevSeq);
  }

  lemma SpareStep(ops: seq<Logged>, st: State, op: Logged)
    requires Spare(ops, st) && Good(Kept(ops), st) && op.rec.time < MAX_TIMESTAMP
    ensures Spare(ops + [op], Step(st, op))
  {
    hide Spare, Good, Finding, Emitted, Barred;
    var f := Finding(st.live, op);
    SpareStamp(ops, st, op);
    if !op.rec.IsFreeOfNull() {
      FindingKnown(Kept(ops), st, op);
      var s := Stamped(st, op.rec.time);
      StampedTime(ops + [op], s);
      SpareEmit(ops + [op], s, op, f);
    }
  }

  lemma StampedTime(ops: seq<Logged>, st: State)
    requires Spare(ops, st) && ops != []
    ensures st.prevTime == ops[|ops| - 1].rec.time
  {
  }

  /** A block of another thread that is found has a number that has been given out. */
  lemma FindingKnown(kept: seq<Logged>, st: State, op: Logged)
    requires Good(kept, st)
    ensures Finding(st.live, op).byOther ==> 0 < Finding(st.live, op).seqNo < st.total && op.rec.Releases()
  {
    hide Faithful, RightMatches, Tracked, FreedAre, Timed, Separated, Fence, Finding, Unreleased;
    FindingRight(kept, Ops(st.out), st.live, op);
  }

  lemma {:induction false} RunSpare(ops: seq<Logged>)
    requires forall i | 0 <= i < |ops| :: ops[i].rec.time < MAX_TIMESTAMP
    ensures Spare(ops, Run(ops))
  {
    hide Spare, Step, Good;
    if ops == [] {
      NothingSpare();
    } else {
      var front, last := ops[..|ops| - 1], ops[|ops| - 1];
      RunSpare(front);
      RunGood(front);
      SpareStep(front, Run(front), last);
      assert front + [last] == ops;
    }
  }

  lemma NothingSpare()
    ensures Spare([], INITIAL)
  {
  }
}
