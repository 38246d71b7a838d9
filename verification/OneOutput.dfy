/** The operations, the times of the logs and the rules for timestamps leave one consolidated log only. */
module OneOutput {
  import opened MallocLog
  import opened Matching
  import opened Timestamps

  ghost predicate Increasing(s: seq<nat>) {
    forall i, j | 0 <= i < j < |s| :: s[i] < s[j]
  }

  /** The beginning of a log in which a timestamp at the end may still turn out to be needed. */
  ghost predicate Begun(kept: seq<Logged>, out: seq<Record>) {
    && CountOps(out) == |kept| && Timed(kept, out) && Separated(out) && Leading(out)
    && forall t | 0 <= t < |out| - 1 && Repeats(out, t) :: Needed(out, t)
  }

  ghost predicate EndsInRepeat(out: seq<Record>) {
    out != [] && Repeats(out, |out| - 1)
  }

  ghost function Trim(out: seq<Record>): seq<Record> {
    if EndsInRepeat(out) then out[..|out| - 1] else out
  }

  lemma NeededPrefix(out: seq<Record>, n: nat, t: nat)
    requires n <= |out| && t + 1 < n && Needed(out, t)
    ensures Needed(out[..n], t)
  {
    var q :| 0 <= q < t && ReleasedAcross(out, q, t + 1) && Unbroken(out, q, t);
    assert out[..n][..q] == out[..q];
    assert ReleasedAcross(out[..n], q, t + 1) && Unbroken(out[..n], q, t);
  }

  lemma RepeatsPrefix(out: seq<Record>, n: nat, t: nat)
    requires n <= |out| && t < n
    ensures Repeats(out[..n], t) == Repeats(out, t)
  {
    assert out[..n][..t] == out[..t];
  }

  /** The log without its last record. */
  lemma BegunFront(kept: seq<Logged>, out: seq<Record>)
    requires Begun(kept, out) && out != []
    ensures var front, r := out[..|out| - 1], out[|out| - 1];
            && CountOps(front) <= |kept| && Begun(kept[..CountOps(front)], front)
            && (if r.IsOp() then CountOps(front) + 1 == |kept| && TimeOf(front) == kept[|kept| - 1].rec.time
                else CountOps(front) == |kept|)
  {
    hide Needed;
    var n := |out| - 1;
    var front := out[..n];
    FrontTimed(kept, out);
    FrontSeparated(out);
    forall t | 0 <= t < |front| - 1 && Repeats(front, t)
      ensures Needed(front, t)
    {
      RepeatsPrefix(out, n, t);
      NeededPrefix(out, n, t);
    }
  }

  lemma FrontTimed(kept: seq<Logged>, out: seq<Record>)
    requires CountOps(out) == |kept| && Timed(kept, out) && out != []
    ensures var front, r := out[..|out| - 1], out[|out| - 1];
            && CountOps(front) <= |kept| && Timed(kept[..CountOps(front)], front)
            && (r.IsOp() ==> TimeOf(front) == kept[|kept| - 1].rec.time)
  {
    var n := |out| - 1;
    var front := out[..n];
    forall i | 0 <= i < |front| && front[i].IsOp()
      ensures SeqNoAt(front, i) <= CountOps(front)
      ensures TimeOf(front[..i]) == kept[..CountOps(front)][SeqNoAt(front, i) - 1].rec.time
    {
      assert front[..i] == out[..i];
      CountOpsMonotone(out, i, n);
    }
  }

  lemma FrontSeparated(out: seq<Record>)
    requires Separated(out) && out != []
    ensures Separated(out[..|out| - 1])
  {
    var front := out[..|out| - 1];
    forall p, i | 0 <= p < i < |front| && ReleasedAcross(front, p, i)
      ensures exists t :: p < t < i && front[t].Timestamp?
    {
      assert front[..p] == out[..p];
      assert ReleasedAcross(out, p, i);
      var t :| p < t < i && out[t].Timestamp?;
      assert front[t].Timestamp?;
    }
  }

  lemma {:induction false} LastFresh(out: seq<Record>)
    requires Leading(out) && out != []
    ensures FreshTimes(out) != [] && FreshTimes(out)[|FreshTimes(out)| - 1] == TimeOf(out)
  {
    if |out| > 1 {
      LastFresh(out[..|out| - 1]);
    }
  }

  lemma {:induction false} FreshPrefix(out: seq<Record>, n: nat)
    requires n <= |out|
    ensures |FreshTimes(out[..n])| <= |FreshTimes(out)|
    ensures FreshTimes(out[..n]) == FreshTimes(out)[..|FreshTimes(out[..n])|]
  {
    if n < |out| {
      FreshPrefix(out[..|out| - 1], n);
      assert out[..|out| - 1][..n] == out[..n];
    } else {
      assert out[..n] == out;
    }
  }

  lemma TimeAt(kept: seq<Logged>, out: seq<Record>) returns (i: nat)
    requires Begun(kept, out) && kept != []
    ensures 0 < i < |out| && out[i].IsOp() && TimeOf(out[..i]) == kept[|kept| - 1].rec.time && Leading(out[..i])
  {
    hide Needed, Separated, CountOps, Ops, Repeats;
    i := OpPosition(out, |kept| - 1);
    assert SeqNoAt(out, i) == |kept|;
  }

  /** A new time at the end is not the time of the last operation. */
  lemma NewTime(kept: seq<Logged>, out: seq<Record>)
    requires Begun(kept, out) && out != [] && out[|out| - 1].Timestamp? && !EndsInRepeat(out)
    requires kept != [] && Increasing(FreshTimes(out))
    ensures kept[|kept| - 1].rec.time != out[|out| - 1].time
  {
    hide Begun, FreshTimes, Increasing, TimeOf;
    var n := |out| - 1;
    var i := TimeAt(kept, out);
    LastFresh(out[..i]);
    FreshPrefix(out[..n], i);
    assert out[..n][..i] == out[..i] && out == out[..n] + [out[n]];
    FreshSnoc(out[..n], out[n]);
    GrowsAt(FreshTimes(out), |FreshTimes(out[..i])| - 1);
  }

  lemma GrowsAt(s: seq<nat>, i: nat)
    requires Increasing(s) && i < |s| - 1
    ensures s[i] < s[|s| - 1]
  {
  }

  /** Repetition at the end is no part of what two logs can differ in. */
  lemma TrimBegun(kept: seq<Logged>, out: seq<Record>)
    requires Begun(kept, out) && EndsInRepeat(out)
    ensures Begun(kept, Trim(out)) && Ops(Trim(out)) == Ops(out) && FreshTimes(Trim(out)) == FreshTimes(out)
    ensures !EndsInRepeat(Trim(out))
  {
    hide Needed;
    BegunFront(kept, out);
    assert kept[..|kept|] == kept;
    FrontPlain(kept, out);
  }

  /** Before a timestamp, there is no timestamp that repeats a time. */
  lemma FrontPlain(kept: seq<Logged>, out: seq<Record>)
    requires Begun(kept, out) && out != [] && out[|out| - 1].Timestamp?
    ensures !EndsInRepeat(out[..|out| - 1])
  {
    var n := |out| - 1;
    if n > 0 && Repeats(out[..n], n - 1) {
      RepeatsPrefix(out, n, n - 1);
    }
  }

  /** Where a timestamp is needed, the log without it does not keep both operations apart. */
  lemma NotSeparated(front: seq<Record>, stamp: Record, r: Record)
    requires stamp.Timestamp? && Needed(front + [stamp, r], |front|)
    ensures !Separated(front + [r])
  {
    hide CountOps;
    var n, out, out' := |front|, front + [stamp, r], front + [r];
    var q :| 0 <= q < n && ReleasedAcross(out, q, n + 1) && Unbroken(out, q, n);
    assert out[..q] == out'[..q];
    assert ReleasedAcross(out', q, n);
    forall t | q < t < n
      ensures !out'[t].Timestamp?
    {
      assert out[t].IsOp();
    }
  }

  /** Whether a timestamp is repeated before an operation, the operation decides. */
  lemma RepeatForced(kept: seq<Logged>, out: seq<Record>, out': seq<Record>)
    requires Begun(kept, out) && Begun(kept, out') && |out| > 1 && out' != []
    requires out[|out| - 1] == out'[|out'| - 1] && out[|out| - 1].IsOp() && EndsInRepeat(out[..|out| - 1])
    ensures out[..|out| - 2] != out'[..|out'| - 1]
  {
    hide CountOps, Timed, TimeOf, Separated, Needed;
    var n := |out| - 1;
    var front, stamp, r := out[..n - 1], out[n - 1], out[n];
    RepeatsPrefix(out, n, n - 1);
    assert out == front + [stamp, r];
    NotSeparated(front, stamp, r);
    assert out' == out'[..|out'| - 1] + [r];
  }

  lemma SameEnd(kept: seq<Logged>, out: seq<Record>, out': seq<Record>)
    requires Begun(kept, out) && Begun(kept, out') && out != [] && out' != []
    requires out[|out| - 1] == out'[|out'| - 1]
    requires Trim(out[..|out| - 1]) == Trim(out'[..|out'| - 1])
    ensures out == out'
  {
    hide Begun, Repeats;
    var n, n', r := |out| - 1, |out'| - 1, out[|out| - 1];
    var front, front' := out[..n], out'[..n'];
    if r.Timestamp? {
      FrontPlain(kept, out);
      FrontPlain(kept, out');
    } else if EndsInRepeat(front) && !EndsInRepeat(front') {
      assert front[..n - 1] == out[..n - 1];
      RepeatForced(kept, out, out');
    } else if !EndsInRepeat(front) && EndsInRepeat(front') {
      assert front'[..n' - 1] == out'[..n' - 1];
      RepeatForced(kept, out', out);
    } else if EndsInRepeat(front) {
      RepeatTime(front);
      RepeatTime(front');
      assert front == front[..n - 1] + [front[n - 1]] && front' == front'[..n' - 1] + [front'[n' - 1]];
    }
    assert front == front';
    assert out == front + [r] && out' == front' + [r];
  }

  lemma RepeatTime(out: seq<Record>)
    requires EndsInRepeat(out)
    ensures out[|out| - 1] == Timestamp(TimeOf(out[..|out| - 1]))
  {
  }

  /** Two logs of the same operations and times are the same, up to a repetition at their ends. */
  lemma {:induction false} SameLogs(kept: seq<Logged>, out: seq<Record>, out': seq<Record>)
    requires Begun(kept, out) && Begun(kept, out') && Ops(out) == Ops(out')
    requires FreshTimes(out) == FreshTimes(out') && Increasing(FreshTimes(out))
    ensures Trim(out) == Trim(out')
    decreases |out| + |out'|
  {
    hide Begun, Increasing, Repeats;
    if EndsInRepeat(out) {
      TrimBegun(kept, out);
      SameLogs(kept, Trim(out), out');
    } else if EndsInRepeat(out') {
      TrimBegun(kept, out');
      SameLogs(kept, out, Trim(out'));
    } else if out == [] || out' == [] {
      Nothing(kept, out);
      Nothing(kept, out');
    } else {
      SameLast(kept, out, out');
      Fronts(kept, out, out');
      SameLogs(kept[..CountOps(out[..|out| - 1])], out[..|out| - 1], out'[..|out'| - 1]);
      SameEnd(kept, out, out');
    }
  }

  lemma Nothing(kept: seq<Logged>, out: seq<Record>)
    requires Begun(kept, out)
    ensures out == [] <==> FreshTimes(out) == []
  {
    if out != [] {
      LastFresh(out);
    }
  }

  lemma SameLast(kept: seq<Logged>, out: seq<Record>, out': seq<Record>)
    requires Begun(kept, out) && Begun(kept, out') && out != [] && out' != []
    requires !EndsInRepeat(out) && !EndsInRepeat(out')
    requires Ops(out) == Ops(out') && FreshTimes(out) == FreshTimes(out') && Increasing(FreshTimes(out))
    ensures out[|out| - 1] == out'[|out'| - 1]
  {
    hide Begun, Increasing, EndsInRepeat, FreshTimes, Ops, CountOps, TimeOf;
    LastFresh'(kept, out);
    LastFresh'(kept, out');
    LastRecord(out);
    LastRecord(out');
    if out[|out| - 1].IsOp() && out'[|out'| - 1].Timestamp? {
      OpTime(kept, out);
      NewTime(kept, out');
    } else if out[|out| - 1].Timestamp? && out'[|out'| - 1].IsOp() {
      OpTime(kept, out');
      NewTime(kept, out);
    }
  }

  lemma LastRecord(out: seq<Record>)
    requires out != []
    ensures var r := out[|out| - 1];
            if r.IsOp() then Ops(out) != [] && Ops(out)[|Ops(out)| - 1] == r else r == Timestamp(TimeOf(out))
  {
  }

  lemma LastFresh'(kept: seq<Logged>, out: seq<Record>)
    requires Begun(kept, out) && out != []
    ensures FreshTimes(out) != [] && FreshTimes(out)[|FreshTimes(out)| - 1] == TimeOf(out)
  {
    LastFresh(out);
  }

  lemma OpTime(kept: seq<Logged>, out: seq<Record>)
    requires Begun(kept, out) && out != [] && out[|out| - 1].IsOp()
    ensures kept != [] && kept[|kept| - 1].rec.time == TimeOf(out)
  {
    BegunFront(kept, out);
  }

  lemma Fronts(kept: seq<Logged>, out: seq<Record>, out': seq<Record>)
    requires Begun(kept, out) && Begun(kept, out') && out != [] && out' != []
    requires !EndsInRepeat(out) && !EndsInRepeat(out')
    requires Ops(out) == Ops(out') && FreshTimes(out) == FreshTimes(out') && Increasing(FreshTimes(out))
    requires out[|out| - 1] == out'[|out'| - 1]
    ensures var front, front' := out[..|out| - 1], out'[..|out'| - 1];
            && CountOps(front) <= |kept|
            && Begun(kept[..CountOps(front)], front) && Begun(kept[..CountOps(front)], front')
            && Ops(front) == Ops(front') && FreshTimes(front) == FreshTimes(front') && Increasing(FreshTimes(front))
  {
    hide Begun, Ops, CountOps, FreshTimes, EndsInRepeat;
    BegunFront(kept, out);
    BegunFront(kept, out');
    FrontOps(out);
    FrontOps(out');
    FrontTimes(kept, out);
    FrontTimes(kept, out');
  }

  lemma FrontOps(out: seq<Record>)
    requires out != []
    ensures var front := out[..|out| - 1];
            if out[|out| - 1].IsOp() then Ops(out) != [] && Ops(front) == Ops(out)[..|Ops(out)| - 1]
            else Ops(front) == Ops(out)
  {
    assert Ops(out[..|out| - 1]) + [] == Ops(out[..|out| - 1]);
  }

  lemma FrontTimes(kept: seq<Logged>, out: seq<Record>)
    requires Begun(kept, out) && out != [] && !EndsInRepeat(out)
    ensures var front := out[..|out| - 1];
            if out[|out| - 1].IsOp() then FreshTimes(front) == FreshTimes(out)
            else FreshTimes(out) != [] && FreshTimes(front) == FreshTimes(out)[..|FreshTimes(out)| - 1]
  {
    assert FreshTimes(out[..|out| - 1]) + [] == FreshTimes(out[..|out| - 1]);
  }
}
