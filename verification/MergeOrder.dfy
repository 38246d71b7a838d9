/** The order in which the records of the per-thread logs are taken. */
module MergeOrder {
  import opened MallocLog

  // ---------------------------------------------------------------- taking the record with the smallest time

  /** A cursor into every log. */
  ghost predicate Cursors(logs: seq<seq<LogRecord>>, pos: seq<nat>) {
    |pos| == |logs| && forall i | 0 <= i < |logs| :: pos[i] <= |logs[i]|
  }

  /** Log `i` has a record left, and its time can be taken. */
  ghost predicate Ready(logs: seq<seq<LogRecord>>, pos: seq<nat>, i: nat)
    requires Cursors(logs, pos) && i < |logs|
  {
    pos[i] < |logs[i]| && logs[i][pos[i]].time < MAX_TIMESTAMP
  }

  /** The record at the cursor of log `i`. */
  ghost function Current(logs: seq<seq<LogRecord>>, pos: seq<nat>, i: nat): Logged
    requires Cursors(logs, pos) && i < |logs| && pos[i] < |logs[i]|
  {
    Logged(i + 1, logs[i][pos[i]])
  }

  ghost predicate Before(a: Logged, b: Logged) {
    a.rec.time < b.rec.time || (a.rec.time == b.rec.time && a.thread <= b.thread)
  }

  /** The log among the first `n` whose current record comes first, `|logs|` when none is ready. */
  ghost function First(logs: seq<seq<LogRecord>>, pos: seq<nat>, n: nat): (b: nat)
    requires Cursors(logs, pos) && n <= |logs|
    ensures b < n || b == |logs|
    ensures b < |logs| ==> Ready(logs, pos, b)
    ensures forall j | 0 <= j < n && Ready(logs, pos, j) ::
              b < |logs| && Before(Current(logs, pos, b), Current(logs, pos, j))
  {
    if n == 0 then |logs|
    else
      var b := First(logs, pos, n - 1);
      if Ready(logs, pos, n - 1) && (b < |logs| ==> logs[n - 1][pos[n - 1]].time < logs[b][pos[b]].time)
        then n - 1 else b
  }

  ghost function Remaining(logs: seq<seq<LogRecord>>, pos: seq<nat>, n: nat): nat
    requires Cursors(logs, pos) && n <= |logs|
  {
    if n == 0 then 0 else Remaining(logs, pos, n - 1) + |logs[n - 1]| - pos[n - 1]
  }

  ghost function Advanced(logs: seq<seq<LogRecord>>, pos: seq<nat>, i: nat): (pos': seq<nat>)
    requires Cursors(logs, pos) && i < |logs| && pos[i] < |logs[i]|
    ensures Cursors(logs, pos')
  {
    pos[i := pos[i] + 1]
  }

  lemma {:induction false} RemainingAdvanced(logs: seq<seq<LogRecord>>, pos: seq<nat>, i: nat, n: nat)
    requires Cursors(logs, pos) && i < |logs| && pos[i] < |logs[i]| && n <= |logs|
    ensures Remaining(logs, Advanced(logs, pos, i), n) == Remaining(logs, pos, n) - (if i < n then 1 else 0)
  {
    if n > 0 {
      RemainingAdvanced(logs, pos, i, n - 1);
    }
  }

  /** The records taken from the given cursors on. */
  ghost function MergeFrom(logs: seq<seq<LogRecord>>, pos: seq<nat>): seq<Logged>
    requires Cursors(logs, pos)
    decreases Remaining(logs, pos, |logs|)
  {
    var b := First(logs, pos, |logs|);
    if b == |logs| then []
    else
      RemainingAdvanced(logs, pos, b, |logs|);
      [Current(logs, pos, b)] + MergeFrom(logs, Advanced(logs, pos, b))
  }

  ghost function Start(logs: seq<seq<LogRecord>>): (pos: seq<nat>)
    ensures Cursors(logs, pos) && forall i | 0 <= i < |pos| :: pos[i] == 0
  {
    seq(|logs|, _ => 0)
  }

  ghost function Merged(logs: seq<seq<LogRecord>>): seq<Logged> {
    MergeFrom(logs, Start(logs))
  }

  // ---------------------------------------------------------------- what the order is

  /** What one thread logged. */
  ghost function Of(s: seq<Logged>, thread: nat): seq<LogRecord> {
    if s == [] then []
    else Of(s[..|s| - 1], thread) + (if s[|s| - 1].thread == thread then [s[|s| - 1].rec] else [])
  }

  ghost predicate Ordered(s: seq<Logged>) {
    forall i, j | 0 <= i < j < |s| :: Before(s[i], s[j])
  }

  /** The times of every log do not decrease. */
  ghost predicate Chronological(logs: seq<seq<LogRecord>>) {
    forall i, j, k | 0 <= i < |logs| && 0 <= j < k < |logs[i]| :: logs[i][j].time <= logs[i][k].time
  }

  /** Every log has a record, and every time is below the largest one. */
  ghost predicate Mergeable(logs: seq<seq<LogRecord>>) {
    forall i | 0 <= i < |logs| :: logs[i] != [] && forall j | 0 <= j < |logs[i]| :: logs[i][j].time < MAX_TIMESTAMP
  }

  lemma OfSnoc(s: seq<Logged>, e: Logged, thread: nat)
    ensures Of(s + [e], thread) == Of(s, thread) + (if e.thread == thread then [e.rec] else [])
  {
    assert (s + [e])[..|s|] == s;
  }

  lemma OrderedSnoc(s: seq<Logged>, e: Logged)
    requires Ordered(s) && forall x | x in s :: Before(x, e)
    ensures Ordered(s + [e])
  {
  }

  /** What has been taken so far: a prefix of every log. */
  ghost predicate Prefixes(logs: seq<seq<LogRecord>>, pos: seq<nat>, done: seq<Logged>) {
    && Cursors(logs, pos)
    && forall thread: nat ::
         Of(done, thread) == if 1 <= thread <= |logs| then logs[thread - 1][..pos[thread - 1]] else []
  }

  /** Nothing that has been taken comes after a record at a cursor. */
  ghost predicate Behind(logs: seq<seq<LogRecord>>, pos: seq<nat>, done: seq<Logged>)
    requires Cursors(logs, pos)
  {
    forall e, i | e in done && 0 <= i < |logs| && pos[i] < |logs[i]| :: Before(e, Current(logs, pos, i))
  }

  lemma PrefixesAdvanced(logs: seq<seq<LogRecord>>, pos: seq<nat>, done: seq<Logged>, b: nat)
    requires Prefixes(logs, pos, done) && b < |logs| && pos[b] < |logs[b]|
    ensures Prefixes(logs, Advanced(logs, pos, b), done + [Current(logs, pos, b)])
  {
    hide Of;
    var e := Current(logs, pos, b);
    assert logs[b][..pos[b] + 1] == logs[b][..pos[b]] + [logs[b][pos[b]]];
    forall thread: nat
      ensures Of(done + [e], thread) == if 1 <= thread <= |logs|
                then logs[thread - 1][..Advanced(logs, pos, b)[thread - 1]] else []
    {
      OfSnoc(done, e, thread);
    }
  }

  /** Every record that is ready gets taken, so when all can be, every log is taken completely. */
  lemma {:induction false} MergeTakesAll(logs: seq<seq<LogRecord>>, pos: seq<nat>, done: seq<Logged>)
    requires Prefixes(logs, pos, done) && Mergeable(logs)
    ensures forall thread: nat ::
              Of(done + MergeFrom(logs, pos), thread) == if 1 <= thread <= |logs| then logs[thread - 1] else []
    decreases Remaining(logs, pos, |logs|)
  {
    var b := First(logs, pos, |logs|);
    if b == |logs| {
      forall i: nat | i < |logs|
        ensures logs[i][..pos[i]] == logs[i]
      {
        assert !Ready(logs, pos, i);
      }
      assert done + [] == done;
    } else {
      var e := Current(logs, pos, b);
      PrefixesAdvanced(logs, pos, done, b);
      RemainingAdvanced(logs, pos, b, |logs|);
      MergeTakesAll(logs, Advanced(logs, pos, b), done + [e]);
      assert done + MergeFrom(logs, pos) == (done + [e]) + MergeFrom(logs, Advanced(logs, pos, b));
    }
  }

  lemma BeforeTransitive(a: Logged, b: Logged, c: Logged)
    requires Before(a, b) && Before(b, c)
    ensures Before(a, c)
  {
  }

  lemma SameThread(a: Logged, b: Logged)
    requires a.thread == b.thread && a.rec.time <= b.rec.time
    ensures Before(a, b)
  {
  }

  lemma BehindAdvanced(logs: seq<seq<LogRecord>>, pos: seq<nat>, done: seq<Logged>, b: nat)
    requires Cursors(logs, pos) && Chronological(logs) && Mergeable(logs)
    requires Behind(logs, pos, done) && b == First(logs, pos, |logs|) && b < |logs|
    ensures Behind(logs, Advanced(logs, pos, b), done + [Current(logs, pos, b)])
  {
    hide First, Before;
    var e, pos' := Current(logs, pos, b), Advanced(logs, pos, b);
    forall x, i | x in done + [e] && 0 <= i < |logs| && pos'[i] < |logs[i]|
      ensures Before(x, Current(logs, pos', i))
    {
      var c := Current(logs, pos', i);
      assert Before(e, c) by {
        if i == b {
          SameThread(e, c);
        } else {
          assert Ready(logs, pos, i);
        }
      }
      if x in done {
        BeforeTransitive(x, e, c);
      }
    }
  }

  /** When no log goes back in time, the records are taken in the order of time, then of threads. */
  lemma {:induction false} MergeOrdered(logs: seq<seq<LogRecord>>, pos: seq<nat>, done: seq<Logged>)
    requires Cursors(logs, pos) && Chronological(logs) && Mergeable(logs)
    requires Ordered(done) && Behind(logs, pos, done)
    ensures Ordered(done + MergeFrom(logs, pos))
    decreases Remaining(logs, pos, |logs|)
  {
    hide Before, Ordered, First;
    var b := First(logs, pos, |logs|);
    if b == |logs| {
      assert done + [] == done;
    } else {
      var e, pos' := Current(logs, pos, b), Advanced(logs, pos, b);
      assert forall x | x in done :: Before(x, e);
      OrderedSnoc(done, e);
      BehindAdvanced(logs, pos, done, b);
      RemainingAdvanced(logs, pos, b, |logs|);
      MergeOrdered(logs, pos', done + [e]);
      assert done + MergeFrom(logs, pos) == (done + [e]) + MergeFrom(logs, pos');
    }
  }

  // ---------------------------------------------------------------- the stable sort

  /** Puts `e` behind everything that is not later. */
  ghost function Insert(s: seq<Logged>, e: Logged): seq<Logged> {
    if s == [] || s[|s| - 1].rec.time <= e.rec.time then s + [e]
    else Insert(s[..|s| - 1], e) + [s[|s| - 1]]
  }

  ghost function StableSort(s: seq<Logged>): seq<Logged> {
    if s == [] then [] else Insert(StableSort(s[..|s| - 1]), s[|s| - 1])
  }

  ghost function Tagged(thread: nat, log: seq<LogRecord>): (s: seq<Logged>)
    ensures |s| == |log| && forall i | 0 <= i < |s| :: s[i] == Logged(thread, log[i])
  {
    seq(|log|, i requires 0 <= i < |log| => Logged(thread, log[i]))
  }

  /** The logs one after the other, in the order of the files. */
  ghost function Concatenated(logs: seq<seq<LogRecord>>): seq<Logged> {
    if logs == [] then [] else Concatenated(logs[..|logs| - 1]) + Tagged(|logs|, logs[|logs| - 1])
  }

  /** `e` may follow all of `s` in the concatenated logs. */
  ghost predicate Follows(s: seq<Logged>, e: Logged) {
    forall x | x in s :: x.thread <= e.thread && (x.thread == e.thread ==> x.rec.time <= e.rec.time)
  }

  lemma {:induction false} InsertOrdered(s: seq<Logged>, e: Logged)
    requires Ordered(s) && Follows(s, e)
    ensures Ordered(Insert(s, e))
    ensures forall x :: x in Insert(s, e) <==> x in s || x == e
  {
    if s == [] || s[|s| - 1].rec.time <= e.rec.time {
      forall x | x in s
        ensures Before(x, e)
      {
        if s != [] && x != s[|s| - 1] {
          assert Before(x, s[|s| - 1]);
        }
      }
      OrderedSnoc(s, e);
    } else {
      var front, last := s[..|s| - 1], s[|s| - 1];
      assert s == front + [last];
      InsertOrdered(front, e);
      assert forall x | x in front :: Before(x, last);
      OrderedSnoc(Insert(front, e), last);
    }
  }

  lemma {:induction false} InsertKeepsThread(s: seq<Logged>, e: Logged, thread: nat)
    requires Follows(s, e)
    ensures Of(Insert(s, e), thread) == Of(s, thread) + (if e.thread == thread then [e.rec] else [])
  {
    hide Of;
    if s == [] || s[|s| - 1].rec.time <= e.rec.time {
      OfSnoc(s, e, thread);
    } else {
      var front, last := s[..|s| - 1], s[|s| - 1];
      assert s == front + [last] && last in s;
      InsertKeepsThread(front, e, thread);
      OfSnoc(Insert(front, e), last, thread);
      OfSnoc(front, last, thread);
    }
  }

  /** Every element may follow those before it, as in the concatenated logs. */
  ghost predicate FileOrder(s: seq<Logged>) {
    forall i | 0 <= i < |s| :: Follows(s[..i], s[i])
  }

  lemma {:induction false} StableSortKeeps(s: seq<Logged>)
    requires FileOrder(s)
    ensures Ordered(StableSort(s))
    ensures forall x :: x in StableSort(s) <==> x in s
    ensures forall thread: nat :: Of(StableSort(s), thread) == Of(s, thread)
  {
    if s != [] {
      var front, last := s[..|s| - 1], s[|s| - 1];
      assert s == front + [last];
      assert forall i | 0 <= i < |front| :: front[..i] == s[..i];
      hide Of;
      StableSortKeeps(front);
      InsertOrdered(StableSort(front), last);
      forall thread: nat
        ensures Of(Insert(StableSort(front), last), thread) == Of(s, thread)
      {
        InsertKeepsThread(StableSort(front), last, thread);
        OfSnoc(front, last, thread);
      }
    }
  }

  lemma NothingOf()
    ensures FileOrder([]) && forall thread: nat :: Of([], thread) == []
  {
  }

  lemma {:induction false} OfAppend(a: seq<Logged>, b: seq<Logged>, thread: nat)
    ensures Of(a + b, thread) == Of(a, thread) + Of(b, thread)
  {
    if b == [] {
      assert a + b == a;
    } else {
      var front, last := b[..|b| - 1], b[|b| - 1];
      assert a + b == (a + front) + [last] && b == front + [last];
      OfAppend(a, front, thread);
      OfSnoc(a + front, last, thread);
    }
  }

  lemma {:induction false} OfTagged(thread: nat, log: seq<LogRecord>, other: nat)
    ensures Of(Tagged(thread, log), other) == if other == thread then log else []
  {
    if log != [] {
      var front, last := log[..|log| - 1], log[|log| - 1];
      assert Tagged(thread, log) == Tagged(thread, front) + [Logged(thread, last)];
      OfTagged(thread, front, other);
      OfSnoc(Tagged(thread, front), Logged(thread, last), other);
      assert log == front + [last];
    }
  }

  lemma TaggedFileOrder(thread: nat, log: seq<LogRecord>)
    requires forall j, k | 0 <= j < k < |log| :: log[j].time <= log[k].time
    ensures FileOrder(Tagged(thread, log))
  {
  }

  lemma AppendFileOrder(a: seq<Logged>, b: seq<Logged>)
    requires FileOrder(a) && FileOrder(b) && forall x, y | x in a && y in b :: x.thread < y.thread
    ensures FileOrder(a + b)
  {
    hide Follows;
    forall i | 0 <= i < |a + b|
      ensures Follows((a + b)[..i], (a + b)[i])
    {
      if i < |a| {
        assert (a + b)[..i] == a[..i];
      } else {
        assert (a + b)[..i] == a + b[..i - |a|] && (a + b)[i] == b[i - |a|];
        FollowsBoth(a, b[..i - |a|], b[i - |a|]);
      }
    }
  }

  lemma FollowsBoth(a: seq<Logged>, b: seq<Logged>, e: Logged)
    requires Follows(b, e) && forall x | x in a :: x.thread < e.thread
    ensures Follows(a + b, e)
  {
  }

  lemma {:induction false} ConcatenatedIs(logs: seq<seq<LogRecord>>)
    requires Chronological(logs)
    ensures FileOrder(Concatenated(logs))
    ensures forall x | x in Concatenated(logs) :: 1 <= x.thread <= |logs|
    ensures forall thread: nat ::
              Of(Concatenated(logs), thread) == if 1 <= thread <= |logs| then logs[thread - 1] else []
  {
    hide Of, FileOrder;
    if logs == [] {
      assert FileOrder([]) && forall thread: nat :: Of([], thread) == [] by { NothingOf(); }
    } else {
      var front, last := logs[..|logs| - 1], logs[|logs| - 1];
      ConcatenatedIs(front);
      var a, b := Concatenated(front), Tagged(|logs|, last);
      TaggedFileOrder(|logs|, last);
      AppendFileOrder(a, b);
      forall thread: nat
        ensures Of(a + b, thread) == if 1 <= thread <= |logs| then logs[thread - 1] else []
      {
        OfAppend(a, b, thread);
        OfTagged(|logs|, last, thread);
      }
    }
  }

  lemma {:induction false} LastOf(s: seq<Logged>, e: Logged)
    ensures e in s ==> e.rec in Of(s, e.thread)
    ensures forall r | r in Of(s, e.thread) :: Logged(e.thread, r) in s
  {
    if s != [] {
      LastOf(s[..|s| - 1], e);
    }
  }

  lemma BeforeAntisymmetric(a: Logged, b: Logged)
    requires Before(a, b) && Before(b, a)
    ensures a.thread == b.thread
  {
  }

  /** Nothing comes after the last one. */
  lemma LastIsLast(s: seq<Logged>, x: Logged)
    requires Ordered(s) && x in s
    ensures Before(x, s[|s| - 1])
  {
  }

  lemma InOther(s: seq<Logged>, t: seq<Logged>, x: Logged)
    requires x in s && Of(s, x.thread) == Of(t, x.thread)
    ensures x in t && t != []
  {
    LastOf(s, x);
    LastOf(t, x);
  }

  lemma LastRecord(s: seq<Logged>)
    requires s != []
    ensures var x := s[|s| - 1];
            Of(s, x.thread) != [] && Of(s, x.thread)[|Of(s, x.thread)| - 1] == x.rec
  {
  }

  lemma SameLast(s: seq<Logged>, t: seq<Logged>)
    requires Ordered(s) && Ordered(t) && s != []
    requires forall thread: nat :: Of(s, thread) == Of(t, thread)
    ensures t != [] && s[|s| - 1] == t[|t| - 1]
  {
    hide Before, Ordered, Of;
    var x := s[|s| - 1];
    InOther(s, t, x);
    var y := t[|t| - 1];
    InOther(t, s, y);
    LastIsLast(t, x);
    LastIsLast(s, y);
    BeforeAntisymmetric(x, y);
    LastRecord(s);
    LastRecord(t);
  }

  /** An order by time, then by thread, is determined by what every thread logged. */
  lemma {:induction false} OrderUnique(s: seq<Logged>, t: seq<Logged>)
    requires Ordered(s) && Ordered(t)
    requires forall thread: nat :: Of(s, thread) == Of(t, thread)
    ensures s == t
  {
    if s == [] {
      if t != [] {
        LastOf(t, t[0]);
        assert false;
      }
    } else {
      SameLast(s, t);
      var s', t', x := s[..|s| - 1], t[..|t| - 1], s[|s| - 1];
      assert s == s' + [x] && t == t' + [x];
      forall thread: nat
        ensures Of(s', thread) == Of(t', thread)
      {
        hide Of;
        OfSnoc(s', x, thread);
        OfSnoc(t', x, thread);
        assert Of(s', thread) == Of(s, thread)[..|Of(s', thread)|];
        assert Of(t', thread) == Of(t, thread)[..|Of(t', thread)|];
      }
      OrderUnique(s', t');
    }
  }

  /** The merge is the stable sort by time of the logs in the order of the files. */
  lemma MergeIsStableSort(logs: seq<seq<LogRecord>>)
    requires Mergeable(logs) && Chronological(logs)
    ensures Merged(logs) == StableSort(Concatenated(logs))
  {
    var pos := Start(logs);
    assert [] + Merged(logs) == Merged(logs);
    MergeTakesAll(logs, pos, []);
    MergeOrdered(logs, pos, []);
    ConcatenatedIs(logs);
    StableSortKeeps(Concatenated(logs));
    OrderUnique(Merged(logs), StableSort(Concatenated(logs)));
  }
}
