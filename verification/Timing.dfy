/** The analysis of a consolidated log without replaying it: what is outstanding after every record, and the peaks. */
module Timing {
  import opened MallocLog
  import opened Replay
  import opened SizeClasses
  import ReplaySafety

  // ---------------------------------------------------------------- what is outstanding

  /** After the first `n` operations, operation `m` has a block that none of them has released. */
  ghost predicate Outstanding(cfg: Config, n: nat, m: nat) {
    && IsOp(cfg, m) && m <= n && Op(cfg, m).Allocates()
    && forall k: nat | ReleasesOf(cfg, k, m) :: k > n
  }

  /** The thread that will release the block, as far as the log says; 0 stands for another one. */
  function SlotOf(r: Record): nat
    requires r.Allocates()
  {
    if r.freeByOther then 0 else r.thread
  }

  /** What is counted: bytes, blocks, or the blocks of one slot. */
  datatype Gauge = InBytes | InBlocks | OfSlot(t: nat)

  ghost function Weight(g: Gauge, r: Record): nat
    requires r.Allocates()
  {
    match g
    case InBytes => r.size
    case InBlocks => 1
    case OfSlot(t) => if SlotOf(r) == t then 1 else 0
  }

  /** The sum over the outstanding blocks of the first `m` operations, after `n` operations. */
  ghost function SumTo(cfg: Config, g: Gauge, n: nat, m: nat): nat {
    if m == 0 then 0
    else SumTo(cfg, g, n, m - 1) + (if Outstanding(cfg, n, m) then Weight(g, Op(cfg, m)) else 0)
  }

  /** What is outstanding after `n` operations. */
  ghost function After(cfg: Config, g: Gauge, n: nat): nat {
    SumTo(cfg, g, n, n)
  }

  /** What operation `n` gives back, and what it gets. */
  ghost function Released(cfg: Config, g: Gauge, n: nat): nat
    requires IsOp(cfg, n) && Consistent(cfg)
  {
    var m := Op(cfg, n).Match();
    if m != 0 then (assert ReleasesOf(cfg, n, m); Weight(g, Op(cfg, m))) else 0
  }

  ghost function Got(cfg: Config, g: Gauge, n: nat): nat
    requires IsOp(cfg, n)
  {
    if Op(cfg, n).Allocates() then Weight(g, Op(cfg, n)) else 0
  }

  lemma OutstandingStep(cfg: Config, n: nat, m: nat)
    requires Consistent(cfg) && IsOp(cfg, n) && m < n
    ensures Outstanding(cfg, n, m) <==> Outstanding(cfg, n - 1, m) && Op(cfg, n).Match() != m
    ensures Op(cfg, n).Match() == m && m != 0 ==> Outstanding(cfg, n - 1, m)
  {
    if m != 0 && Op(cfg, n).Match() == m {
      assert ReleasesOf(cfg, n, m);
    }
  }

  lemma {:induction false} SumStep(cfg: Config, g: Gauge, n: nat, m: nat)
    requires Consistent(cfg) && IsOp(cfg, n) && m < n
    ensures SumTo(cfg, g, n, m) +
              (if Op(cfg, n).Match() <= m then Released(cfg, g, n) else 0) == SumTo(cfg, g, n - 1, m)
  {
    hide Outstanding, Consistent;
    if m > 0 {
      SumStep(cfg, g, n, m - 1);
      OutstandingStep(cfg, n, m);
    }
  }

  /** What every operation changes. */
  lemma AfterStep(cfg: Config, g: Gauge, n: nat)
    requires Consistent(cfg) && IsOp(cfg, n)
    ensures After(cfg, g, n) == After(cfg, g, n - 1) - Released(cfg, g, n) + Got(cfg, g, n)
  {
    SumStep(cfg, g, n, n - 1);
    assert Op(cfg, n).Match() <= n - 1 by {
      if Op(cfg, n).Match() != 0 {
        assert ReleasesOf(cfg, n, Op(cfg, n).Match());
      }
    }
    assert Outstanding(cfg, n, n) <==> Op(cfg, n).Allocates();
  }

  // ---------------------------------------------------------------- modules

  /** The size of the block that operation `k` releases, 0 when it is not known. */
  ghost function GivenSize(cfg: Config, k: nat): nat
    requires IsOp(cfg, k)
  {
    var m := Op(cfg, k).Match();
    if IsOp(cfg, m) && Op(cfg, m).Allocates() then Op(cfg, m).size else 0
  }

  /** The bytes that the first `n` operations get in module `i`. */
  ghost function GotIn(cfg: Config, i: nat, n: nat): nat {
    if n == 0 then 0
    else
      GotIn(cfg, i, n - 1) +
      (if IsOp(cfg, n) && Op(cfg, n).moduleNum == i && Op(cfg, n).Allocates() then Op(cfg, n).size else 0)
  }

  /** The bytes that they release in module `i`. */
  ghost function GivenIn(cfg: Config, i: nat, n: nat): nat {
    if n == 0 then 0
    else GivenIn(cfg, i, n - 1) + (if IsOp(cfg, n) && Op(cfg, n).moduleNum == i then GivenSize(cfg, n) else 0)
  }

  /** Every module is charged with what it got, less what it gave, after `got` and `given` operations. */
  ghost predicate ChargedUpTo(cfg: Config, modules: seq<int>, got: nat, given: nat) {
    forall i: nat | i < |modules| :: modules[i] == GotIn(cfg, i, got) - GivenIn(cfg, i, given)
  }

  lemma ChargeGiven(cfg: Config, modules: seq<int>, n: nat)
    requires IsOp(cfg, n) && Op(cfg, n).moduleNum < |modules| && ChargedUpTo(cfg, modules, n - 1, n - 1)
    ensures var i := Op(cfg, n).moduleNum;
            ChargedUpTo(cfg, modules[i := modules[i] - GivenSize(cfg, n)], n - 1, n)
  {
  }

  lemma ChargeGot(cfg: Config, modules: seq<int>, n: nat)
    requires IsOp(cfg, n) && Op(cfg, n).moduleNum < |modules| && ChargedUpTo(cfg, modules, n - 1, n)
    ensures var r := Op(cfg, n);
            if r.Allocates() then ChargedUpTo(cfg, modules[r.moduleNum := modules[r.moduleNum] + r.size], n, n)
            else ChargedUpTo(cfg, modules, n, n)
  {
  }

  lemma ChargeNothing(cfg: Config, modules: seq<int>, n: nat)
    requires IsOp(cfg, n) && GivenSize(cfg, n) == 0 && ChargedUpTo(cfg, modules, n - 1, n - 1)
    ensures ChargedUpTo(cfg, modules, n - 1, n)
  {
  }

  // ---------------------------------------------------------------- slots

  /** The slot of a block that is released is the thread that releases it, if it is the one that allocated
      it, and 0 otherwise. */
  lemma SlotReleases(cfg: Config, k: nat, m: nat)
    requires Consistent(cfg) && ReleasesOf(cfg, k, m)
    ensures Op(cfg, m).Allocates()
    ensures SlotOf(Op(cfg, m)) == if Op(cfg, k).thread == Op(cfg, m).thread then Op(cfg, k).thread else 0
  {
  }

  /** The blocks of the first `c` slots. */
  ghost function SumSlots(cfg: Config, n: nat, m: nat, c: nat): nat {
    if c == 0 then 0 else SumSlots(cfg, n, m, c - 1) + SumTo(cfg, OfSlot(c - 1), n, m)
  }

  lemma {:induction false} SumSlotsStep(cfg: Config, n: nat, m: nat, c: nat)
    requires m > 0
    ensures Outstanding(cfg, n, m) ==> IsOp(cfg, m) && Op(cfg, m).Allocates()
    ensures SumSlots(cfg, n, m, c) == SumSlots(cfg, n, m - 1, c) +
              (if Outstanding(cfg, n, m) && SlotOf(Op(cfg, m)) < c then 1 else 0)
  {
    hide Outstanding;
    if Outstanding(cfg, n, m) {
      OutstandingOp(cfg, n, m);
    }
    if c > 0 {
      SumSlotsStep(cfg, n, m, c - 1);
    }
  }

  lemma OutstandingOp(cfg: Config, n: nat, m: nat)
    requires Outstanding(cfg, n, m)
    ensures IsOp(cfg, m) && Op(cfg, m).Allocates()
  {
  }

  /** Every outstanding block belongs to one slot. */
  lemma {:induction false} SlotsMakeBlocks(cfg: Config, n: nat, m: nat)
    requires Consistent(cfg)
    ensures SumSlots(cfg, n, m, cfg.threads + 1) == SumTo(cfg, InBlocks, n, m)
  {
    hide Outstanding;
    if m > 0 {
      SlotsMakeBlocks(cfg, n, m - 1);
      SumSlotsStep(cfg, n, m, cfg.threads + 1);
      if Outstanding(cfg, n, m) {
        OutstandingOp(cfg, n, m);
        assert cfg.IsThread(Op(cfg, m).thread);
      }
    } else {
      NoSlots(cfg, n, cfg.threads + 1);
    }
  }

  lemma {:induction false} NoSlots(cfg: Config, n: nat, c: nat)
    ensures SumSlots(cfg, n, 0, c) == 0
  {
    if c > 0 {
      NoSlots(cfg, n, c - 1);
    }
  }

  // ---------------------------------------------------------------- peaks

  /** `v` is the largest value so far. */
  ghost predicate IsPeak(cfg: Config, g: Gauge, v: int, n: nat) {
    (exists i: nat :: i <= n && After(cfg, g, i) == v) && forall i: nat | i <= n :: After(cfg, g, i) <= v
  }

  /** ... and `no` is one more than the number of the operation after which it was first reached. */
  ghost predicate FirstReached(cfg: Config, g: Gauge, v: int, no: nat, n: nat) {
    if v == 0 then no == 0
    else 2 <= no <= n + 1 && After(cfg, g, no - 1) == v && forall i: nat | i < no - 1 :: After(cfg, g, i) < v
  }

  lemma PeakStep(cfg: Config, g: Gauge, v: int, n: nat)
    requires IsPeak(cfg, g, v, n)
    ensures IsPeak(cfg, g, if v < After(cfg, g, n + 1) then After(cfg, g, n + 1) else v, n + 1)
  {
    hide After;
    var i: nat :| i <= n && After(cfg, g, i) == v;
    assert i <= n + 1;
  }

  lemma FirstStep(cfg: Config, g: Gauge, v: int, no: nat, n: nat)
    requires IsPeak(cfg, g, v, n) && FirstReached(cfg, g, v, no, n) && v >= 0
    ensures var w := After(cfg, g, n + 1);
            if v < w then FirstReached(cfg, g, w, n + 2, n + 1) else FirstReached(cfg, g, v, no, n + 1)
  {
    hide After;
  }

  // ---------------------------------------------------------------- the analysis

  ghost function Sum(s: seq<int>): int {
    if s == [] then 0 else Sum(s[..|s| - 1]) + s[|s| - 1]
  }

  lemma {:induction false} SumUpdate(s: seq<int>, i: nat, v: int)
    requires i < |s|
    ensures Sum(s[i := v]) == Sum(s) - s[i] + v
  {
    var n := |s| - 1;
    if i < n {
      SumUpdate(s[..n], i, v);
      assert s[i := v][..n] == s[..n][i := v];
    } else {
      assert s[i := v][..n] == s[..n];
    }
  }

  class Analysis {
    const cfg: Config
    /** The outstanding blocks, with their sizes. */
    var table: map<nat, nat>
    var bytes: int
    var blocks: int
    var peakBytes: int
    var peakSeqNo: nat
    var peakBlocks: int
    var peakBlocksSeqNo: nat
    /** By module, and by slot. */
    const modules: array<int>
    const perSlot: array<int>
    const peakPerSlot: array<int>
    /** All allocations, by size class. */
    const buckets: array<int>

    ghost predicate Shaped()
      reads this`table, modules, perSlot, peakPerSlot
    {
      && modules != perSlot && modules != peakPerSlot && perSlot != peakPerSlot
      && perSlot.Length == peakPerSlot.Length == cfg.threads + 1
      && buckets != modules && buckets != perSlot && buckets != peakPerSlot
    }

    /** The buckets count the allocations of the first `n` operations. */
    ghost predicate Classified(n: nat)
      reads buckets
    {
      Tallied(cfg, BOUNDARIES, buckets[..], n)
    }

    /** Every module has got what its operations got, less what they gave. */
    ghost predicate Charged(got: nat, given: nat)
      reads modules
    {
      ChargedUpTo(cfg, modules[..], got, given)
    }

    /** The table and the counters say what is outstanding after `n` operations. */
    ghost predicate Counted(n: nat)
      reads this, modules, perSlot, peakPerSlot
    {
      && Shaped()
      && (forall m :: m in table <==> Outstanding(cfg, n, m))
      && (forall m | m in table :: table[m] == Op(cfg, m).size)
      && bytes == After(cfg, InBytes, n) == Sum(modules[..]) && blocks == After(cfg, InBlocks, n)
      && (forall t: nat | t <= cfg.threads :: perSlot[t] == After(cfg, OfSlot(t), n))
    }

    ghost predicate Peaked(n: nat)
      requires Shaped()
      reads this, modules, perSlot, peakPerSlot
    {
      && IsPeak(cfg, InBytes, peakBytes, n) && FirstReached(cfg, InBytes, peakBytes, peakSeqNo, n)
      && IsPeak(cfg, InBlocks, peakBlocks, n) && FirstReached(cfg, InBlocks, peakBlocks, peakBlocksSeqNo, n)
      && (forall t: nat | t <= cfg.threads :: IsPeak(cfg, OfSlot(t), peakPerSlot[t], n))
    }

    constructor (cfg: Config, moduleCount: nat)
      ensures Counted(0) && Peaked(0) && Classified(0) && Charged(0, 0)
      ensures this.cfg == cfg && modules.Length == moduleCount
      ensures fresh(modules) && fresh(perSlot) && fresh(peakPerSlot) && fresh(buckets)
    {
      hide InClass, Ascending;
      this.cfg := cfg;
      table, bytes, blocks, peakBytes, peakSeqNo, peakBlocks, peakBlocksSeqNo := map[], 0, 0, 0, 0, 0, 0;
      modules := new int[moduleCount](_ => 0);
      perSlot := new int[cfg.threads + 1](_ => 0);
      peakPerSlot := new int[cfg.threads + 1](_ => 0);
      buckets := new int[|BOUNDARIES| + 1](_ => 0);
      new;
      ZeroSum(modules[..]);
    }

    /** Between the two halves of operation `n`: what it releases has been taken out. */
    ghost predicate Midway(n: nat)
      requires IsOp(cfg, n) && Consistent(cfg)
      reads this, modules, perSlot, peakPerSlot
    {
      && Shaped()
      && (forall m :: m in table <==> Outstanding(cfg, n - 1, m) && m != Op(cfg, n).Match())
      && (forall m | m in table :: table[m] == Op(cfg, m).size)
      && bytes == After(cfg, InBytes, n - 1) - Released(cfg, InBytes, n) == Sum(modules[..])
      && blocks == After(cfg, InBlocks, n - 1) - Released(cfg, InBlocks, n)
      && (forall t: nat | t <= cfg.threads :: perSlot[t] == After(cfg, OfSlot(t), n - 1) - Released(cfg, OfSlot(t), n))
    }

    /** Takes out the block that operation `n` releases. The look-up always finds it; otherwise the
        analysis would never go on to the next record. */
    method Release(r: Record, n: nat)
      requires IsOp(cfg, n) && r == Op(cfg, n) && Consistent(cfg) && Counted(n - 1) && Op(cfg, n).Match() != 0
      requires Op(cfg, n).moduleNum < modules.Length
      requires Charged(n - 1, n - 1)
      modifies this`table, this`bytes, this`blocks, modules, perSlot
      ensures Midway(n) && Charged(n - 1, n)
    {
      hide After, Outstanding, Sum, ChargedUpTo;
      ReleaseMatches(cfg, n);
      ChargeGiven(cfg, modules[..], n);
      var size := table[r.matched];
      table := table - {r.matched};
      bytes := bytes - size;
      SumUpdate(modules[..], r.moduleNum, modules[r.moduleNum] - size);
      ghost var before := modules[..];
      modules[r.moduleNum] := modules[r.moduleNum] - size;
      assert modules[..] == before[r.moduleNum := modules[r.moduleNum]];
      blocks := blocks - 1;
      var slot := if r.allocByOther then 0 else r.thread;
      perSlot[slot] := perSlot[slot] - 1;
    }

    /** Puts in the block that operation `n` gets. */
    method Allocate(r: Record, n: nat)
      requires IsOp(cfg, n) && r == Op(cfg, n) && Consistent(cfg) && Midway(n) && Op(cfg, n).Allocates()
      requires Op(cfg, n).moduleNum < modules.Length
      requires Charged(n - 1, n)
      modifies this`table, this`bytes, this`blocks, modules, perSlot
      ensures Counted(n) && Charged(n, n)
    {
      hide After, Outstanding, Sum, ChargedUpTo;
      ChargeGot(cfg, modules[..], n);
      AllGauges(cfg, n);
      AllOutstanding(cfg, n);
      assert cfg.IsThread(r.thread);
      table := table[n := r.size];
      blocks := blocks + 1;
      var slot := if r.freeByOther then 0 else r.thread;
      perSlot[slot] := perSlot[slot] + 1;
      bytes := bytes + r.size;
      SumUpdate(modules[..], r.moduleNum, modules[r.moduleNum] + r.size);
      ghost var before := modules[..];
      modules[r.moduleNum] := modules[r.moduleNum] + r.size;
      assert modules[..] == before[r.moduleNum := modules[r.moduleNum]];
    }

    /** Nothing is released by an operation that matches none. */
    lemma NothingReleased(n: nat)
      requires IsOp(cfg, n) && Consistent(cfg) && Counted(n - 1) && Op(cfg, n).Match() == 0
      requires Charged(n - 1, n - 1)
      ensures Midway(n) && Charged(n - 1, n)
    {
      hide After, Sum, ChargedUpTo;
      ChargeNothing(cfg, modules[..], n);
    }

    lemma NothingGot(n: nat)
      requires IsOp(cfg, n) && Consistent(cfg) && Midway(n) && !Op(cfg, n).Allocates()
      requires Charged(n - 1, n) && Op(cfg, n).moduleNum < modules.Length
      ensures Counted(n) && Charged(n, n)
    {
      hide After, Outstanding, Sum, ChargedUpTo;
      ChargeGot(cfg, modules[..], n);
      AllGauges(cfg, n);
      AllOutstanding(cfg, n);
    }

    /** Counts an allocation in its size class. */
    method Tally(r: Record, n: nat)
      requires IsOp(cfg, n) && r == Op(cfg, n) && r.Allocates() && Classified(n - 1)
      modifies buckets
      ensures Classified(n)
    {
      hide Tallied, InClass;
      BoundariesAscend();
      TalliedLength(cfg, BOUNDARIES, buckets[..], n - 1);
      var i := BucketOf(BOUNDARIES, r.size);
      InClassBound(BOUNDARIES, r.size, i);
      TalliedMore(cfg, BOUNDARIES, buckets[..], n, i);
      ghost var was := buckets[..];
      buckets[i] := buckets[i] + 1;
      assert buckets[..] == was[i := was[i] + 1];
    }

    /** One operation. Returns the slot whose count it has changed last, -1 when it has changed none. */
    method Count(r: Record, n: nat) returns (slot: int)
      requires IsOp(cfg, n) && r == Op(cfg, n) && Consistent(cfg) && r.moduleNum < modules.Length
      requires Counted(n - 1) && Classified(n - 1) && Charged(n - 1, n - 1)
      modifies this`table, this`bytes, this`blocks, modules, perSlot, buckets
      ensures Classified(n) && Charged(n, n) && Counted(n) && -1 <= slot <= cfg.threads
      ensures forall t: nat | t <= cfg.threads && t != slot :: perSlot[t] <= old(perSlot[t])
    {
      hide After, Outstanding, Sum, Tallied, ChargedUpTo;
      slot := -1;
      if r.Releases() && r.matched != 0 {
        ReleaseMatches(cfg, n);
        Release(r, n);
        slot := if r.allocByOther then 0 else r.thread;
      } else {
        NothingReleased(n);
      }
      AllGauges(cfg, n);
      if r.Allocates() {
        assert cfg.IsThread(r.thread);
        Allocate(r, n);
        slot := if r.freeByOther then 0 else r.thread;
        Tally(r, n);
      } else {
        NothingGot(n);
        TalliedSame(cfg, BOUNDARIES, buckets[..], n);
      }
    }

    /** The peaks after one more operation. */
    method Top(n: nat, slot: int)
      requires Counted(n + 1) && Peaked(n) && -1 <= slot <= cfg.threads
      requires forall t: nat | t <= cfg.threads && t != slot :: After(cfg, OfSlot(t), n + 1) <= After(cfg, OfSlot(t), n)
      modifies this`peakBytes, this`peakSeqNo, this`peakBlocks, this`peakBlocksSeqNo, peakPerSlot
      ensures Counted(n + 1) && Peaked(n + 1)
    {
      hide After, Outstanding, Sum, IsPeak, FirstReached;
      PeaksNotNegative(n);
      PeakStep(cfg, InBytes, peakBytes, n);
      FirstStep(cfg, InBytes, peakBytes, peakSeqNo, n);
      PeakStep(cfg, InBlocks, peakBlocks, n);
      FirstStep(cfg, InBlocks, peakBlocks, peakBlocksSeqNo, n);
      if peakBytes < bytes {
        peakBytes, peakSeqNo := bytes, n + 2;
      }
      if peakBlocks < blocks {
        peakBlocks, peakBlocksSeqNo := blocks, n + 2;
      }
      forall t: nat | t <= cfg.threads
        ensures IsPeak(cfg, OfSlot(t), if peakPerSlot[t] < perSlot[t] then perSlot[t] else peakPerSlot[t], n + 1)
        ensures t != slot ==> peakPerSlot[t] >= perSlot[t]
      {
        PeakStep(cfg, OfSlot(t), peakPerSlot[t], n);
        PeakCovers(cfg, OfSlot(t), peakPerSlot[t], n);
      }
      if slot >= 0 && peakPerSlot[slot] < perSlot[slot] {
        peakPerSlot[slot] := perSlot[slot];
      }
    }

    lemma PeaksNotNegative(n: nat)
      requires Shaped() && Peaked(n)
      ensures peakBytes >= 0 && peakBlocks >= 0
    {
    }

    /** Goes through the log, up to the operation with number `endRecNo`. */
    method AnalyzeTiming(endRecNo: nat) returns (n: nat)
      requires Consistent(cfg) && Counted(0) && Peaked(0) && Classified(0) && Charged(0, 0)
      requires forall k | IsOp(cfg, k) :: Op(cfg, k).moduleNum < modules.Length
      modifies this, modules, perSlot, peakPerSlot, buckets
      ensures n == Smaller(|Ops(cfg.log)|, if endRecNo == 0 then 1 else endRecNo)
      ensures Counted(n) && Peaked(n) && Classified(n) && Charged(n, n)
    {
      hide After, Outstanding, Sum, IsPeak, FirstReached, Consistent, CountOps, Ops, Tallied, ChargedUpTo;
      n := 0;
      var cursor := 0;
      CursorStart(cfg.log);
      while cursor < |cfg.log|
        invariant cursor <= |cfg.log| && CursorAt(cfg.log, cursor, n + 1) && n <= |Ops(cfg.log)|
        invariant Counted(n) && Peaked(n) && Classified(n) && Charged(n, n) && (n == 0 || n < endRecNo)
      {
        var r := cfg.log[cursor];
        ReplaySafety.CursorNext(cfg, cursor, n + 1);
        cursor := cursor + 1;
        if r.IsOp() {
          var slot := Count(r, n + 1);
          Top(n, slot);
          n := n + 1;
          if n + 1 > endRecNo {
            return;
          }
        }
      }
      CursorEnd(cfg.log, n + 1);
    }
  }

  function Smaller(a: nat, b: nat): nat {
    if a < b then a else b
  }

  lemma PeakCovers(cfg: Config, g: Gauge, v: int, n: nat)
    requires IsPeak(cfg, g, v, n)
    ensures After(cfg, g, n) <= v
  {
  }

  /** What operation `n` releases, it says rightly. */
  lemma ReleaseMatches(cfg: Config, n: nat)
    requires IsOp(cfg, n) && Consistent(cfg) && Op(cfg, n).Match() != 0
    ensures var r := Op(cfg, n);
            && Outstanding(cfg, n - 1, r.matched) && IsOp(cfg, r.matched) && Op(cfg, r.matched).Allocates()
            && (forall g :: Released(cfg, g, n) == Weight(g, Op(cfg, r.matched)))
            && SlotOf(Op(cfg, r.matched)) == (if r.allocByOther then 0 else r.thread) && cfg.IsThread(r.thread)
  {
    var m := Op(cfg, n).matched;
    assert ReleasesOf(cfg, n, m);
    OutstandingStep(cfg, n, m);
  }

  lemma AllGauges(cfg: Config, n: nat)
    requires IsOp(cfg, n) && Consistent(cfg)
    ensures forall g :: After(cfg, g, n) == After(cfg, g, n - 1) - Released(cfg, g, n) + Got(cfg, g, n)
  {
    forall g
      ensures After(cfg, g, n) == After(cfg, g, n - 1) - Released(cfg, g, n) + Got(cfg, g, n)
    {
      AfterStep(cfg, g, n);
    }
  }

  lemma AllOutstanding(cfg: Config, n: nat)
    requires IsOp(cfg, n) && Consistent(cfg)
    ensures forall m :: Outstanding(cfg, n, m) <==>
              (Outstanding(cfg, n - 1, m) && Op(cfg, n).Match() != m) || (m == n && Op(cfg, n).Allocates())
  {
    forall m: nat
      ensures Outstanding(cfg, n, m) <==>
                (Outstanding(cfg, n - 1, m) && Op(cfg, n).Match() != m) || (m == n && Op(cfg, n).Allocates())
    {
      if m < n {
        OutstandingStep(cfg, n, m);
      }
    }
  }

  lemma {:induction false} ZeroSum(s: seq<int>)
    requires forall i | 0 <= i < |s| :: s[i] == 0
    ensures Sum(s) == 0
  {
    if s != [] {
      ZeroSum(s[..|s| - 1]);
    }
  }
}
