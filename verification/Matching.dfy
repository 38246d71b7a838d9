/** One pass over the merged records: numbering, matching releases to allocations, and timestamps. */
module Matching {
  import opened Lists
  import opened MallocLog
  import opened BlockIndex

  // ---------------------------------------------------------------- the pass as a fold

  /** The variables of the pass: the last timestamp written, the number of the next operation, the number
      the next operation had when the last timestamp was written, the live blocks, the numbers of the
      operations whose blocks another thread released, and the records written. */
  datatype State = State(prevTime: nat, total: nat, prevSeq: nat, live: seq<Live>, freedByOther: set<nat>,
    out: seq<Record>)

  const INITIAL: State := State(MAX_TIMESTAMP, 1, 0, [], {}, [])

  /** A timestamp is written when time has moved on. */
  ghost function Stamped(st: State, time: nat): State {
    if time == st.prevTime then st
    else st.(out := st.out + [Timestamp(time)], prevTime := time, prevSeq := st.total)
  }

  ghost function Finding(live: seq<Live>, op: Logged): Found {
    if op.rec.Releases() then Lookup(live, op.rec.oldBlock, op.thread) else Found(0, false, 0)
  }

  /** A second timestamp keeps the release of another thread's block behind its allocation. */
  ghost function Barred(st: State, f: Found, time: nat): State {
    if f.byOther && f.seqNo >= st.prevSeq then st.(out := st.out + [Timestamp(time)], prevSeq := st.total) else st
  }

  ghost function Written(op: Logged, f: Found): Record {
    match op.rec
    case LogMalloc(_, m, size, _) => Malloc(op.thread, m, size, false)
    case LogFree(_, m, _) => Free(op.thread, m, f.size, f.seqNo, f.byOther)
    case LogRealloc(_, m, size, _, _) => Realloc(op.thread, m, size, f.size, f.seqNo, f.byOther, false)
  }

  ghost function LiveAfter(live: seq<Live>, op: Logged, seqNo: nat): seq<Live> {
    (if op.rec.Releases() then Forgotten(live, op.rec.oldBlock, op.thread) else live) +
    (if op.rec.Allocates() then [Live(op.rec.block, seqNo, op.thread, op.rec.size)] else [])
  }

  /** An operation is written and numbered. */
  ghost function Emitted(st: State, op: Logged, f: Found): State {
    State(st.prevTime, st.total + 1, st.prevSeq, LiveAfter(st.live, op, st.total),
          st.freedByOther + (if f.byOther then {f.seqNo} else {}), st.out + [Written(op, f)])
  }

  /** One record of the merged logs. */
  ghost function Step(st: State, op: Logged): State {
    var s, f := Stamped(st, op.rec.time), Finding(st.live, op);
    if op.rec.IsFreeOfNull() then s else Emitted(Barred(s, f, op.rec.time), op, f)
  }

  ghost function Run(ops: seq<Logged>): State {
    if ops == [] then INITIAL else Step(Run(ops[..|ops| - 1]), ops[|ops| - 1])
  }

  /** The records that get a number. */
  ghost function Kept(ops: seq<Logged>): seq<Logged> {
    if ops == [] then []
    else Kept(ops[..|ops| - 1]) + (if ops[|ops| - 1].rec.IsFreeOfNull() then [] else [ops[|ops| - 1]])
  }

  // ---------------------------------------------------------------- what the output should be

  /** Record `r` shows the operation `op`. */
  ghost predicate Mirrors(r: Record, op: Logged) {
    && (r.Malloc? <==> op.rec.LogMalloc?) && (r.Free? <==> op.rec.LogFree?) && (r.Realloc? <==> op.rec.LogRealloc?)
    && r.IsOp() && r.thread == op.thread && r.moduleNum == op.rec.moduleNum
    && (op.rec.Allocates() ==> r.size == op.rec.size)
  }

  /** No allocation is marked as one that another thread releases. */
  ghost predicate Unmarked(out: seq<Record>) {
    forall i | 0 <= i < |out| && out[i].Allocates() :: !out[i].freeByOther
  }

  ghost predicate Faithful(kept: seq<Logged>, ops: seq<Record>) {
    |ops| == |kept| && forall k | 0 <= k < |kept| :: Mirrors(ops[k], kept[k])
  }

  /** The number of the operation whose block operation `k` releases. */
  ghost function MatchOf(ops: seq<Record>, k: nat): nat
    requires 1 <= k <= |ops|
  {
    ops[k - 1].Match()
  }

  /** None of the operations from `j` up to `n` has given back the block of operation `j`. */
  ghost predicate Unreleased(ops: seq<Record>, n: nat, j: nat)
    requires n <= |ops|
  {
    forall r | 1 <= r && j < r <= n :: MatchOf(ops, r) != j
  }

  /** Operation `j` has allocated a block, and none of the operations up to `n` has given it back. */
  ghost predicate Outstanding(kept: seq<Logged>, ops: seq<Record>, n: nat, j: nat)
    requires n <= |kept| && n <= |ops|
  {
    1 <= j <= n && kept[j - 1].rec.Allocates() && Unreleased(ops, n, j)
  }

  /** ... and the block is at address `a`. */
  ghost predicate OutstandingAt(kept: seq<Logged>, ops: seq<Record>, n: nat, a: Address, j: nat)
    requires n <= |kept| && n <= |ops|
  {
    Outstanding(kept, ops, n, j) && kept[j - 1].rec.block == a
  }

  /** A thread prefers its own blocks, and older ones. */
  ghost predicate Prefers(kept: seq<Logged>, thread: nat, i: nat, j: nat)
    requires 1 <= i <= |kept| && 1 <= j <= |kept|
  {
    if kept[i - 1].thread == thread then kept[j - 1].thread == thread ==> i <= j
    else kept[j - 1].thread != thread && i <= j
  }

  /** The right answer for an operation `op` that comes after the first `n`. */
  ghost predicate RightFind(kept: seq<Logged>, ops: seq<Record>, n: nat, op: Logged, f: Found)
    requires n <= |kept| && n <= |ops|
  {
    if !op.rec.Releases() || op.rec.oldBlock == NULL then f == Found(0, false, 0)
    else if forall j :: !OutstandingAt(kept, ops, n, op.rec.oldBlock, j) then f == Found(0, false, UINT_MAX)
    else
      && OutstandingAt(kept, ops, n, op.rec.oldBlock, f.seqNo)
      && (forall j | OutstandingAt(kept, ops, n, op.rec.oldBlock, j) :: Prefers(kept, op.thread, f.seqNo, j))
      && f.size == kept[f.seqNo - 1].rec.size
      && (f.byOther <==> kept[f.seqNo - 1].thread != op.thread)
  }

  /** What the record of a release says about the block. */
  ghost function Said(r: Record): Found {
    if r.Releases() then Found(r.matched, r.allocByOther, r.oldSize) else Found(0, false, 0)
  }

  ghost predicate RightMatches(kept: seq<Logged>, ops: seq<Record>)
    requires |ops| == |kept|
  {
    forall k | 0 <= k < |kept| :: RightFind(kept, ops, k, kept[k], Said(ops[k]))
  }

  // ---------------------------------------------------------------- the list of live blocks is right

  ghost function Entry(kept: seq<Logged>, j: nat): Live
    requires 1 <= j <= |kept| && kept[j - 1].rec.Allocates()
  {
    Live(kept[j - 1].rec.block, j, kept[j - 1].thread, kept[j - 1].rec.size)
  }

  ghost predicate Rising(live: seq<Live>) {
    forall i, j | 0 <= i < j < |live| :: live[i].seqNo < live[j].seqNo
  }

  /** The list holds exactly the outstanding blocks, oldest first. */
  ghost predicate Tracked(kept: seq<Logged>, ops: seq<Record>, live: seq<Live>)
    requires |ops| == |kept|
  {
    && Rising(live)
    && (forall e | e in live :: Outstanding(kept, ops, |kept|, e.seqNo) && e == Entry(kept, e.seqNo))
    && (forall j | Outstanding(kept, ops, |kept|, j) :: Entry(kept, j) in live)
  }

  lemma {:induction false} WithAddressIs(live: seq<Live>, a: Address)
    requires Rising(live)
    ensures Rising(WithAddress(live, a))
    ensures forall e :: e in WithAddress(live, a) <==> e in live && e.block == a
  {
    if live != [] {
      var front, last := live[..|live| - 1], live[|live| - 1];
      assert live == front + [last];
      WithAddressIs(front, a);
    }
  }

  lemma WithoutIs(live: seq<Live>, p: nat)
    requires Rising(live) && p < |live|
    ensures Rising(Without(live, p))
    ensures forall e :: e in Without(live, p) <==> e in live && e.seqNo != live[p].seqNo
  {
    var w := Without(live, p);
    forall i: nat | i < |w|
      ensures w[i] == live[if i < p then i else i + 1]
    {
      WithoutAt(live, p, i);
    }
    forall e | e in live && e.seqNo != live[p].seqNo
      ensures e in w
    {
      var i :| 0 <= i < |live| && live[i] == e;
      assert e == w[if i < p then i else i - 1];
    }
  }

  /** The choice among the blocks at one address is the preferred one. */
  lemma ChoicePreferred(s: seq<Live>, thread: nat, e: Live)
    requires s != [] && Rising(s) && e in s
    ensures var c := s[Choice(s, thread)];
            c in s && (if c.thread == thread then e.thread == thread ==> c.seqNo <= e.seqNo
                       else e.thread != thread && c.seqNo <= e.seqNo)
  {
    var i :| 0 <= i < |s| && s[i] == e;
  }

  lemma FindingRight(kept: seq<Logged>, ops: seq<Record>, live: seq<Live>, op: Logged)
    requires |ops| == |kept| && Tracked(kept, ops, live)
    ensures RightFind(kept, ops, |kept|, op, Finding(live, op))
  {
    if op.rec.Releases() && op.rec.oldBlock != NULL {
      var n, a := |kept|, op.rec.oldBlock;
      var s := WithAddress(live, a);
      WithAddressIs(live, a);
      forall j | OutstandingAt(kept, ops, n, a, j)
        ensures s != [] && s[Choice(s, op.thread)] in s
        ensures Outstanding(kept, ops, n, s[Choice(s, op.thread)].seqNo)
        ensures Prefers(kept, op.thread, s[Choice(s, op.thread)].seqNo, j)
      {
        assert Entry(kept, j) in s;
        ChoicePreferred(s, op.thread, Entry(kept, j));
      }
      if s != [] {
        var e := s[Choice(s, op.thread)];
        assert e in s;
        assert OutstandingAt(kept, ops, n, a, e.seqNo);
      }
    }
  }

  /** Forgetting the block that was found takes exactly it out of the list. */
  lemma ForgottenIs(live: seq<Live>, op: Logged)
    requires Rising(live) && op.rec.Releases() && forall e | e in live :: e.seqNo > 0
    ensures Rising(Forgotten(live, op.rec.oldBlock, op.thread))
    ensures forall e :: e in Forgotten(live, op.rec.oldBlock, op.thread) <==>
              e in live && e.seqNo != Finding(live, op).seqNo
  {
    hide WithAddress, FirstOf, PositionOf, Without;
    var a, s := op.rec.oldBlock, WithAddress(live, op.rec.oldBlock);
    if a != NULL && s != [] {
      WithoutIs(live, PositionOf(live, a, Choice(s, op.thread)));
    }
  }

  // ---------------------------------------------------------------- one more operation

  lemma UnreleasedPrefix(ops: seq<Record>, r: Record, n: nat, j: nat)
    requires n <= |ops|
    ensures Unreleased(ops + [r], n, j) == Unreleased(ops, n, j)
  {
    var ops' := ops + [r];
    assert forall k | 1 <= k <= n :: MatchOf(ops', k) == MatchOf(ops, k);
  }

  lemma UnreleasedNext(ops: seq<Record>, r: Record, j: nat)
    requires j <= |ops|
    ensures Unreleased(ops + [r], |ops| + 1, j) == (Unreleased(ops, |ops|, j) && r.Match() != j)
  {
    var n, ops' := |ops|, ops + [r];
    UnreleasedPrefix(ops, r, n, j);
    assert MatchOf(ops', n + 1) == r.Match();
  }

  lemma RightFindPrefix(kept: seq<Logged>, ops: seq<Record>, op: Logged, r: Record, n: nat, x: Logged, f: Found)
    requires |ops| == |kept| && n <= |kept| && RightFind(kept, ops, n, x, f)
    ensures RightFind(kept + [op], ops + [r], n, x, f)
  {
    hide Unreleased;
    forall a: Address, j: nat
      ensures OutstandingAt(kept + [op], ops + [r], n, a, j) == OutstandingAt(kept, ops, n, a, j)
    {
      UnreleasedPrefix(ops, r, n, j);
    }
  }

  lemma LiveAfterIs(live: seq<Live>, op: Logged, r: Record, n: nat)
    requires Rising(live) && (forall e | e in live :: 1 <= e.seqNo <= n) && r == Written(op, Finding(live, op))
    ensures Rising(LiveAfter(live, op, n + 1))
    ensures forall e :: e in LiveAfter(live, op, n + 1) <==>
              (e in live && e.seqNo != r.Match()) ||
              (op.rec.Allocates() && e == Live(op.rec.block, n + 1, op.thread, op.rec.size))
  {
    hide Finding, Forgotten;
    if op.rec.Releases() {
      ForgottenIs(live, op);
    }
  }

  /** The list of live blocks stays right. */
  lemma TrackedNext(kept: seq<Logged>, ops: seq<Record>, live: seq<Live>, op: Logged, r: Record)
    requires |ops| == |kept| && Tracked(kept, ops, live) && r == Written(op, Finding(live, op))
    ensures Tracked(kept + [op], ops + [r], LiveAfter(live, op, |kept| + 1))
  {
    hide Unreleased, LiveAfter, Written;
    var kept', ops', n, live' := kept + [op], ops + [r], |kept|, LiveAfter(live, op, |kept| + 1);
    LiveAfterIs(live, op, r, n);
    forall e | e in live'
      ensures Outstanding(kept', ops', n + 1, e.seqNo) && e == Entry(kept', e.seqNo)
    {
      if e in live {
        UnreleasedNext(ops, r, e.seqNo);
      } else {
        NothingAfter(ops', n + 1);
      }
    }
    forall j: nat | Outstanding(kept', ops', n + 1, j)
      ensures Entry(kept', j) in live'
    {
      if j <= n {
        UnreleasedNext(ops, r, j);
        assert Entry(kept, j) in live;
      } else {
        assert Entry(kept', j) == Live(op.rec.block, n + 1, op.thread, op.rec.size);
      }
    }
  }

  lemma NothingAfter(ops: seq<Record>, n: nat)
    requires n <= |ops|
    ensures Unreleased(ops, n, n)
  {
  }

  // ---------------------------------------------------------------- timestamps

  /** The last timestamp, 0 when there is none. */
  ghost function TimeOf(out: seq<Record>): nat {
    if out == [] then 0 else if out[|out| - 1].Timestamp? then out[|out| - 1].time else TimeOf(out[..|out| - 1])
  }

  /** The time of every operation is the last timestamp before it. */
  ghost predicate Timed(kept: seq<Logged>, out: seq<Record>)
    requires CountOps(out) == |kept|
  {
    forall i | 0 <= i < |out| && out[i].IsOp() ::
      SeqNoAt(out, i) <= |kept| && TimeOf(out[..i]) == kept[SeqNoAt(out, i) - 1].rec.time
  }

  /** The operation at `i` released the block that another thread allocated at `p`. */
  ghost predicate ReleasedAcross(out: seq<Record>, p: nat, i: nat)
    requires p < |out| && i < |out|
  {
    out[p].IsOp() && out[i].Releases() && out[i].allocByOther && out[i].matched == SeqNoAt(out, p)
  }

  /** There is a timestamp between the allocation of a block and its release by another thread. */
  ghost predicate Separated(out: seq<Record>) {
    forall p, i | 0 <= p < i < |out| && ReleasedAcross(out, p, i) ::
      exists t :: p < t < i && out[t].Timestamp?
  }

  /** The numbers below `seqNo` stand before some timestamp. */
  ghost predicate Fence(out: seq<Record>, seqNo: nat) {
    exists t :: 0 <= t < |out| && out[t].Timestamp? && CountOps(out[..t]) + 1 == seqNo
  }

  lemma PrefixSnoc(out: seq<Record>, r: Record, i: nat)
    requires i <= |out|
    ensures (out + [r])[..i] == out[..i]
  {
  }

  lemma FenceSnoc(out: seq<Record>, r: Record, seqNo: nat)
    requires Fence(out, seqNo)
    ensures Fence(out + [r], seqNo)
  {
    var t :| 0 <= t < |out| && out[t].Timestamp? && CountOps(out[..t]) + 1 == seqNo;
    PrefixSnoc(out, r, t);
    assert (out + [r])[t].Timestamp?;
  }

  lemma NewFence(out: seq<Record>, time: nat)
    ensures Fence(out + [Timestamp(time)], CountOps(out) + 1)
  {
    var out' := out + [Timestamp(time)];
    assert out'[..|out|] == out && out'[|out|].Timestamp?;
  }

  lemma TimedSnoc(kept: seq<Logged>, more: seq<Logged>, out: seq<Record>, r: Record)
    requires CountOps(out) == |kept| && Timed(kept, out)
    requires if r.IsOp() then |more| == 1 && TimeOf(out) == more[0].rec.time else more == []
    ensures CountOps(out + [r]) == |kept + more| && Timed(kept + more, out + [r])
  {
    var out', kept' := out + [r], kept + more;
    OpsSnoc(out, r);
    forall i | 0 <= i < |out'| && out'[i].IsOp()
      ensures SeqNoAt(out', i) <= |kept'| && TimeOf(out'[..i]) == kept'[SeqNoAt(out', i) - 1].rec.time
    {
      PrefixSnoc(out, r, i);
      if i == |out| {
        assert out[..i] == out;
      } else {
        assert SeqNoAt(out, i) <= |kept|;
      }
    }
  }

  /** What stands before a fence has a timestamp behind it. */
  lemma BehindFence(out: seq<Record>, p: nat, seqNo: nat)
    requires p < |out| && Fence(out, seqNo) && SeqNoAt(out, p) < seqNo
    ensures exists t :: p < t < |out| && out[t].Timestamp?
  {
    var t :| 0 <= t < |out| && out[t].Timestamp? && CountOps(out[..t]) + 1 == seqNo;
    if t <= p {
      CountOpsMonotone(out, t, p);
    }
  }

  lemma SeparatedSnoc(out: seq<Record>, r: Record, seqNo: nat)
    requires Separated(out)
    requires r.Releases() && r.allocByOther ==> Fence(out, seqNo) && r.matched < seqNo
    ensures Separated(out + [r])
  {
    hide Fence;
    var out' := out + [r];
    forall p, i | 0 <= p < i < |out'| && ReleasedAcross(out', p, i)
      ensures exists t :: p < t < i && out'[t].Timestamp?
    {
      PrefixSnoc(out, r, p);
      if i < |out| {
        assert ReleasedAcross(out, p, i);
        var t :| p < t < i && out[t].Timestamp?;
        assert out'[t].Timestamp?;
      } else {
        BehindFence(out, p, seqNo);
        var t :| p < t < |out| && out[t].Timestamp?;
        assert out'[t].Timestamp?;
      }
    }
  }

  // ---------------------------------------------------------------- the whole pass

  /** The numbers in the set are those of the blocks that another thread has released. */
  ghost predicate FreedAre(ops: seq<Record>, freed: set<nat>) {
    forall m :: m in freed <==> exists k :: 0 <= k < |ops| && Said(ops[k]).byOther && Said(ops[k]).seqNo == m
  }

  ghost predicate Good(kept: seq<Logged>, st: State) {
    && st.total == |kept| + 1 && |Ops(st.out)| == |kept|
    && Faithful(kept, Ops(st.out)) && RightMatches(kept, Ops(st.out)) && Tracked(kept, Ops(st.out), st.live)
    && FreedAre(Ops(st.out), st.freedByOther) && Unmarked(st.out)
    && Timed(kept, st.out) && Separated(st.out)
    && (if st.out == []
          then st.prevTime == MAX_TIMESTAMP else st.prevTime == TimeOf(st.out) && Fence(st.out, st.prevSeq))
  }

  lemma GoodStamp(kept: seq<Logged>, st: State, time: nat)
    requires Good(kept, st)
    ensures Good(kept, st.(out := st.out + [Timestamp(time)], prevTime := time, prevSeq := st.total))
  {
    hide Faithful, RightMatches, Tracked, FreedAre, Timed, Separated, Fence;
    var r := Timestamp(time);
    OpsSnoc(st.out, r);
    TimedSnoc(kept, [], st.out, r);
    assert kept + [] == kept && Ops(st.out + [r]) == Ops(st.out);
    SeparatedSnoc(st.out, r, 0);
    NewFence(st.out, time);
  }

  lemma RightMatchesNext(kept: seq<Logged>, ops: seq<Record>, op: Logged, r: Record)
    requires |ops| == |kept| && RightMatches(kept, ops) && RightFind(kept, ops, |kept|, op, Said(r))
    ensures RightMatches(kept + [op], ops + [r])
  {
    hide RightFind;
    forall k | 0 <= k < |kept| + 1
      ensures RightFind(kept + [op], ops + [r], k, (kept + [op])[k], Said((ops + [r])[k]))
    {
      RightFindPrefix(kept, ops, op, r, k, (kept + [op])[k], Said((ops + [r])[k]));
    }
  }

  lemma FreedNext(ops: seq<Record>, freed: set<nat>, r: Record)
    requires FreedAre(ops, freed)
    ensures FreedAre(ops + [r], freed + (if Said(r).byOther then {Said(r).seqNo} else {}))
  {
    var ops' := ops + [r];
    forall m: nat
      ensures (exists k :: 0 <= k < |ops'| && Said(ops'[k]).byOther && Said(ops'[k]).seqNo == m) <==>
              (m in freed || (Said(r).byOther && Said(r).seqNo == m))
    {
      if m in freed {
        var k :| 0 <= k < |ops| && Said(ops[k]).byOther && Said(ops[k]).seqNo == m;
        assert ops'[k] == ops[k];
      }
      if Said(r).byOther && Said(r).seqNo == m {
        assert ops'[|ops|] == r;
      }
    }
  }

  /** One more operation, as far as the records themselves go. */
  lemma OpMatched(kept: seq<Logged>, st: State, op: Logged, f: Found)
    requires |Ops(st.out)| == |kept| && Faithful(kept, Ops(st.out)) && RightMatches(kept, Ops(st.out))
    requires Tracked(kept, Ops(st.out), st.live) && FreedAre(Ops(st.out), st.freedByOther)
    requires f == Finding(st.live, op)
    ensures var r := Written(op, f);
            && Ops(st.out + [r]) == Ops(st.out) + [r]
            && Faithful(kept + [op], Ops(st.out) + [r]) && RightMatches(kept + [op], Ops(st.out) + [r])
            && Tracked(kept + [op], Ops(st.out) + [r], LiveAfter(st.live, op, |kept| + 1))
            && FreedAre(Ops(st.out) + [r], st.freedByOther + (if f.byOther then {f.seqNo} else {}))
  {
    hide RightMatches, Tracked, FreedAre, RightFind, LiveAfter, Finding, Ops, CountOps;
    var r, ops := Written(op, f), Ops(st.out);
    SaidIs(st.live, op);
    OpsSnoc(st.out, r);
    FindingRight(kept, ops, st.live, op);
    RightMatchesNext(kept, ops, op, r);
    TrackedNext(kept, ops, st.live, op, r);
    FreedNext(ops, st.freedByOther, r);
  }

  /** One more operation, as far as the timestamps go. */
  lemma OpTimed(kept: seq<Logged>, st: State, op: Logged, f: Found)
    requires CountOps(st.out) == |kept| && Timed(kept, st.out) && Separated(st.out) && Fence(st.out, st.prevSeq)
    requires f == Finding(st.live, op) && TimeOf(st.out) == op.rec.time && (f.byOther ==> f.seqNo < st.prevSeq)
    ensures var out' := st.out + [Written(op, f)];
            && CountOps(out') == |kept + [op]| && Timed(kept + [op], out') && Separated(out')
            && TimeOf(out') == TimeOf(st.out) && Fence(out', st.prevSeq)
  {
    hide Timed, Separated, Fence, Finding, CountOps;
    var r := Written(op, f);
    SaidIs(st.live, op);
    TimedSnoc(kept, [op], st.out, r);
    SeparatedSnoc(st.out, r, st.prevSeq);
    FenceSnoc(st.out, r, st.prevSeq);
    assert (st.out + [r])[..|st.out|] == st.out;
  }

  lemma SaidIs(live: seq<Live>, op: Logged)
    ensures Said(Written(op, Finding(live, op))) == Finding(live, op)
  {
    NoRelease(live, op);
  }

  lemma GoodOp(kept: seq<Logged>, st: State, op: Logged, f: Found)
    requires Good(kept, st) && f == Finding(st.live, op)
    requires st.out != [] && TimeOf(st.out) == op.rec.time && (f.byOther ==> f.seqNo < st.prevSeq)
    ensures Good(kept + [op], Emitted(st, op, f))
  {
    hide Faithful, RightMatches, Tracked, FreedAre, Timed, Separated;
    hide Fence, RightFind, LiveAfter, Finding, Ops, CountOps, TimeOf;
    OpMatched(kept, st, op, f);
    OpTimed(kept, st, op, f);
  }

  lemma NoRelease(live: seq<Live>, op: Logged)
    ensures !op.rec.Releases() ==> Finding(live, op) == Found(0, false, 0)
  {
  }

  lemma GoodStep(kept: seq<Logged>, st: State, op: Logged)
    requires Good(kept, st) && op.rec.time < MAX_TIMESTAMP
    ensures Good(kept + Kept([op]), Step(st, op))
  {
    hide Good, Finding, LiveAfter;
    var time := op.rec.time;
    var s, f := Stamped(st, time), Finding(st.live, op);
    GoodStamp(kept, st, time);
    assert Good(kept, s);
    HasTime(kept, s);
    if op.rec.IsFreeOfNull() {
      assert kept + Kept([op]) == kept;
    } else {
      var b := Barred(s, f, time);
      GoodStamp(kept, s, time);
      assert Good(kept, b);
      HasTime(kept, b);
      FindingEarlier(kept, b, op);
      GoodOp(kept, b, op, f);
      assert Kept([op]) == [op];
    }
  }

  lemma HasTime(kept: seq<Logged>, st: State)
    requires Good(kept, st)
    ensures st.prevTime != MAX_TIMESTAMP ==> st.out != [] && TimeOf(st.out) == st.prevTime
    ensures st.total == |kept| + 1
  {
  }

  /** What is found was allocated earlier. */
  lemma FindingEarlier(kept: seq<Logged>, st: State, op: Logged)
    requires Good(kept, st)
    ensures Finding(st.live, op).byOther ==> Finding(st.live, op).seqNo < st.total
  {
    hide Faithful, RightMatches, Tracked, FreedAre, Timed, Separated, Fence, Finding, Unreleased;
    FindingRight(kept, Ops(st.out), st.live, op);
  }

  lemma {:induction false} RunGood(ops: seq<Logged>)
    requires forall i | 0 <= i < |ops| :: ops[i].rec.time < MAX_TIMESTAMP
    ensures Good(Kept(ops), Run(ops))
  {
    hide Good, Step;
    if ops == [] {
      InitialGood();
    } else {
      var front, last := ops[..|ops| - 1], ops[|ops| - 1];
      RunGood(front);
      GoodStep(Kept(front), Run(front), last);
      assert Kept([last]) == if last.rec.IsFreeOfNull() then [] else [last] by { assert [last][..0] == []; }
    }
  }

  lemma InitialGood()
    ensures Good([], INITIAL)
  {
  }

  // ---------------------------------------------------------------- consequences

  /** A matched operation is an earlier allocation at the same address and of the recorded size, and no
      two operations match the same one. */
  lemma MatchedOnce(kept: seq<Logged>, ops: seq<Record>, k: nat, m: nat)
    requires Faithful(kept, ops) && RightMatches(kept, ops) && 1 <= k <= |ops| && m == MatchOf(ops, k) && m != 0
    ensures m < k && ops[m - 1].Allocates() && kept[k - 1].rec.Releases()
    ensures kept[m - 1].rec.block == kept[k - 1].rec.oldBlock
    ensures ops[k - 1].oldSize == ops[m - 1].size
    ensures ops[k - 1].allocByOther <==> ops[m - 1].thread != ops[k - 1].thread
    ensures forall k' | 1 <= k' <= |ops| && MatchOf(ops, k') == m :: k' == k
  {
    MatchedBefore(kept, ops, k, m);
    forall k' | 1 <= k' <= |ops| && MatchOf(ops, k') == m
      ensures k' == k
    {
      MatchedBefore(kept, ops, k', m);
    }
  }

  lemma MatchedBefore(kept: seq<Logged>, ops: seq<Record>, k: nat, m: nat)
    requires Faithful(kept, ops) && RightMatches(kept, ops) && 1 <= k <= |ops| && m == MatchOf(ops, k) && m != 0
    ensures ops[k - 1].Releases() && kept[k - 1].rec.Releases()
    ensures OutstandingAt(kept, ops, k - 1, kept[k - 1].rec.oldBlock, m)
    ensures ops[k - 1].oldSize == kept[m - 1].rec.size
    ensures ops[k - 1].allocByOther <==> kept[m - 1].thread != kept[k - 1].thread
  {
    hide Unreleased;
    assert Mirrors(ops[k - 1], kept[k - 1]);
    assert RightFind(kept, ops, k - 1, kept[k - 1], Said(ops[k - 1]));
  }

  /** There is only one right answer. */
  lemma RightFindUnique(kept: seq<Logged>, ops: seq<Record>, n: nat, op: Logged, f: Found, g: Found)
    requires n <= |kept| && n <= |ops| && RightFind(kept, ops, n, op, f) && RightFind(kept, ops, n, op, g)
    ensures f == g
  {
    hide Unreleased;
  }

  /** The operations as logged determine the matching. */
  lemma {:induction false} MatchingUnique(kept: seq<Logged>, ops: seq<Record>, ops': seq<Record>, k: nat)
    requires Faithful(kept, ops) && RightMatches(kept, ops) && Faithful(kept, ops') && RightMatches(kept, ops')
    requires k < |ops|
    ensures Said(ops[k]) == Said(ops'[k])
    decreases k
  {
    hide RightFind;
    forall i: nat | i < k
      ensures Said(ops[i]) == Said(ops'[i])
    {
      MatchingUnique(kept, ops, ops', i);
    }
    RightFindSame(kept, ops, ops', k, kept[k], Said(ops'[k]));
    RightFindUnique(kept, ops, k, kept[k], Said(ops[k]), Said(ops'[k]));
  }

  lemma RightFindSame(kept: seq<Logged>, ops: seq<Record>, ops': seq<Record>, n: nat, op: Logged, f: Found)
    requires n <= |kept| && n <= |ops| && n <= |ops'| && RightFind(kept, ops', n, op, f)
    requires forall i | 0 <= i < n :: Said(ops[i]) == Said(ops'[i])
    ensures RightFind(kept, ops, n, op, f)
  {
    hide Unreleased;
    forall a: Address, j: nat
      ensures OutstandingAt(kept, ops, n, a, j) == OutstandingAt(kept, ops', n, a, j)
    {
      UnreleasedSame(ops, ops', n, j);
    }
  }

  lemma UnreleasedSame(ops: seq<Record>, ops': seq<Record>, n: nat, j: nat)
    requires n <= |ops| && n <= |ops'| && forall i | 0 <= i < n :: Said(ops[i]) == Said(ops'[i])
    ensures Unreleased(ops, n, j) == Unreleased(ops', n, j)
  {
    forall k | 1 <= k <= n
      ensures MatchOf(ops, k) == MatchOf(ops', k)
    {
      assert Said(ops[k - 1]) == Said(ops'[k - 1]);
    }
  }
}
