/** The records of the per-thread logs and of the consolidated log. */
module MallocLog {
  import opened Lists

  const UINT_MAX: nat := 0xFFFF_FFFF
  const MAX_TIMESTAMP: nat := UINT_MAX

  /** One record of the log of one thread. */
  datatype LogRecord =
    | LogMalloc(time: nat, moduleNum: nat, size: nat, block: Address)
    | LogFree(time: nat, moduleNum: nat, oldBlock: Address)
    | LogRealloc(time: nat, moduleNum: nat, size: nat, oldBlock: Address, block: Address)
  {
    /** The record gives out the block `block`. */
    predicate Allocates() {
      !LogFree?
    }

    /** The record gives back the block `oldBlock`. */
    predicate Releases() {
      !LogMalloc?
    }

    /** Freeing NULL leaves no trace in the consolidated log. */
    predicate IsFreeOfNull() {
      LogFree? && oldBlock == NULL
    }
  }

  /** A log record together with the thread that logged it. */
  datatype Logged = Logged(thread: nat, rec: LogRecord)

  /** One record of the consolidated log. Operations are numbered from 1; `matched` is the number of
      the operation that allocated the released block, or 0 when that is not known. */
  datatype Record =
    | Timestamp(time: nat)
    | Malloc(thread: nat, moduleNum: nat, size: nat, freeByOther: bool)
    | Free(thread: nat, moduleNum: nat, oldSize: nat, matched: nat, allocByOther: bool)
    | Realloc(thread: nat, moduleNum: nat, size: nat, oldSize: nat, matched: nat, allocByOther: bool, freeByOther: bool)
  {
    predicate IsOp() {
      !Timestamp?
    }

    predicate Allocates() {
      Malloc? || Realloc?
    }

    predicate Releases() {
      Free? || Realloc?
    }

    /** The number of the operation whose block this one releases, 0 when there is none. */
    function Match(): nat {
      if Releases() then matched else 0
    }
  }

  // ---------------------------------------------------------------- numbering

  /** How many of the records are operations. */
  function CountOps(out: seq<Record>): nat {
    if out == [] then 0 else CountOps(out[..|out| - 1]) + (if out[|out| - 1].IsOp() then 1 else 0)
  }

  /** The operations without the timestamps; operation number k is `Ops(out)[k - 1]`. */
  function Ops(out: seq<Record>): (ops: seq<Record>)
    ensures |ops| == CountOps(out) && forall k | 0 <= k < |ops| :: ops[k].IsOp()
  {
    if out == [] then []
    else Ops(out[..|out| - 1]) + (if out[|out| - 1].IsOp() then [out[|out| - 1]] else [])
  }

  /** The number of the operation at position `i`. */
  function SeqNoAt(out: seq<Record>, i: nat): nat
    requires i < |out|
  {
    CountOps(out[..i]) + 1
  }

  lemma {:induction false} CountOpsAppend(a: seq<Record>, b: seq<Record>)
    ensures CountOps(a + b) == CountOps(a) + CountOps(b)
  {
    if b == [] {
      assert a + b == a;
    } else {
      CountOpsAppend(a, b[..|b| - 1]);
      assert (a + b)[..|a + b| - 1] == a + b[..|b| - 1];
    }
  }

  lemma CountOpsMonotone(out: seq<Record>, i: nat, j: nat)
    requires i <= j <= |out|
    ensures CountOps(out[..i]) <= CountOps(out[..j])
    ensures i < j && out[i].IsOp() ==> CountOps(out[..i]) < CountOps(out[..j])
  {
    CountOpsAppend(out[..i], out[i..j]);
    assert out[..j] == out[..i] + out[i..j];
    if i < j {
      CountOpsAppend(out[..i], [out[i]]);
      assert out[..i + 1] == out[..i] + [out[i]];
      CountOpsAppend(out[..i + 1], out[i + 1..j]);
      assert out[..j] == out[..i + 1] + out[i + 1..j];
    }
  }

  /** Operation number `SeqNoAt(out, i)` is the one at position `i`. */
  lemma {:induction false} OpAt(out: seq<Record>, i: nat)
    requires i < |out| && out[i].IsOp()
    ensures SeqNoAt(out, i) <= |Ops(out)| && Ops(out)[SeqNoAt(out, i) - 1] == out[i]
    decreases out
  {
    var front := out[..|out| - 1];
    if i < |front| {
      OpAt(front, i);
      assert front[..i] == out[..i];
    } else {
      assert out[..i] == front;
    }
  }

  lemma OpsSnoc(out: seq<Record>, r: Record)
    ensures Ops(out + [r]) == Ops(out) + (if r.IsOp() then [r] else [])
    ensures CountOps(out + [r]) == CountOps(out) + (if r.IsOp() then 1 else 0)
  {
    assert (out + [r])[..|out|] == out;
  }

  /** The position of operation number `k + 1`. */
  function OpPosition(out: seq<Record>, k: nat): (i: nat)
    requires k < CountOps(out)
    ensures i < |out| && out[i].IsOp() && SeqNoAt(out, i) == k + 1 && Ops(out)[k] == out[i]
    decreases out
  {
    var front := out[..|out| - 1];
    if k < CountOps(front) then
      var i := OpPosition(front, k);
      assert front[..i] == out[..i];
      i
    else |front|
  }

  // ---------------------------------------------------------------- going through a log

  /** The operations before position `pos` are those with numbers below `seqNo`. */
  ghost predicate CursorAt(out: seq<Record>, pos: nat, seqNo: int) {
    pos <= |out| && CountOps(out[..pos]) + 1 == seqNo
  }

  lemma CursorStart(out: seq<Record>)
    ensures CursorAt(out, 0, 1)
  {
  }

  lemma CursorEnd(out: seq<Record>, seqNo: int)
    requires CursorAt(out, |out|, seqNo)
    ensures seqNo == CountOps(out) + 1
  {
    assert out[..|out|] == out;
  }

  /** The cursor moves on by one record. */
  lemma CursorMoves(out: seq<Record>, pos: nat, seqNo: int)
    requires CursorAt(out, pos, seqNo) && pos < |out|
    ensures CursorAt(out, pos + 1, if out[pos].IsOp() then seqNo + 1 else seqNo)
    ensures seqNo == SeqNoAt(out, pos)
  {
    OpsSnoc(out[..pos], out[pos]);
    assert out[..pos + 1] == out[..pos] + [out[pos]];
  }
}
