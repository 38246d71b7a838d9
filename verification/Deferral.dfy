/** Which blocks wait for being freed, as the sizes of all blocks that have ever been deferred determine it. */
module Deferral {

  /** The values of a machine word. */
  const WORD: nat := 0x1_0000_0000_0000_0000

  function Plus(w: nat, d: nat): nat {
    (w + d) % WORD
  }

  function Minus(w: nat, d: nat): nat {
    (w - d) % WORD
  }

  lemma PlusWraps(x: int, d: nat)
    ensures Plus(x % WORD, d) == (x + d) % WORD
  {
  }

  lemma MinusWraps(x: int, d: nat)
    ensures Minus(x % WORD, d) == (x - d) % WORD
  {
  }

  function Sum(s: seq<nat>): nat {
    if s == [] then 0 else Sum(s[..|s| - 1]) + s[|s| - 1]
  }

  lemma SumSnoc(s: seq<nat>, x: nat)
    ensures Sum(s + [x]) == Sum(s) + x
  {
    assert (s + [x])[..|s|] == s;
  }

  lemma SumNothing()
    ensures Sum([]) == 0
  {
  }

  lemma {:induction false} SumFirst(s: seq<nat>)
    requires s != []
    ensures Sum(s) == s[0] + Sum(s[1..])
  {
    if |s| > 1 {
      var front := s[..|s| - 1];
      SumFirst(front);
      assert front[1..] == s[1..][..|s| - 2];
    }
  }

  /** The total when the blocks from number `k` on wait: the size of the very first block has never been
      added to it. */
  function Waiting(history: seq<nat>, k: nat): nat
    requires history != [] && k <= |history|
  {
    (Sum(history[k..]) - history[0]) % WORD
  }

  /** How many blocks have been freed after the last deferral of `history`, when `k` had been before it. */
  function Next(history: seq<nat>, k: nat, max: nat): (n: nat)
    requires k < |history|
    ensures k <= n < |history|
    ensures forall j | k <= j < n :: Waiting(history, j) > max
    ensures n == |history| - 1 || Waiting(history, n) <= max
    decreases |history| - k
  {
    if k == |history| - 1 || Waiting(history, k) <= max then k else Next(history, k + 1, max)
  }

  /** How many blocks have been freed after all deferrals of `history`. */
  function Freed(history: seq<nat>, max: nat): (n: nat)
    ensures if history == [] then n == 0 else n < |history|
  {
    if history == [] then 0
    else
      var before := Freed(history[..|history| - 1], max);
      Next(history, before, max)
  }

  lemma FreedSnoc(history: seq<nat>, size: nat, max: nat)
    ensures Freed(history, max) <= |history|
    ensures Freed(history + [size], max) == Next(history + [size], Freed(history, max), max)
  {
    assert (history + [size])[..|history|] == history;
  }

  // ---------------------------------------------------------------- the limit

  /** A deferral frees block `j` iff the total was above the limit as long as one of the blocks up to `j`
      waited; the last block always stays. */
  lemma FreedWhen(history: seq<nat>, size: nat, max: nat, j: nat)
    requires Freed(history, max) <= j < |history|
    ensures j < Freed(history + [size], max) <==>
            forall i | Freed(history, max) <= i <= j :: Waiting(history + [size], i) > max
  {
    FreedSnoc(history, size, max);
  }

  /** The total is that of the waiting bytes iff the very first block had none, up to the word size. */
  lemma TotalMissesFirst(history: seq<nat>, k: nat)
    requires history != [] && k <= |history|
    ensures Waiting(history, k) == Sum(history[k..]) % WORD <==> history[0] % WORD == 0
  {
    var bytes := Sum(history[k..]);
    if (bytes - history[0]) % WORD == bytes % WORD {
      SameRemainder(bytes, history[0]);
    }
  }

  lemma SameRemainder(x: int, d: nat)
    requires (x - d) % WORD == x % WORD
    ensures d % WORD == 0
  {
    assert d % WORD == (x % WORD - (x - d) % WORD) % WORD;
  }

  /** The waiting bytes are within the limit, and still the total is above it, iff they are fewer than
      the bytes of the very first block: the word has then wrapped. */
  lemma AboveTheLimit(history: seq<nat>, k: nat, max: nat)
    requires history != [] && k <= |history| && history[0] < WORD && max < WORD && Sum(history[k..]) <= max
    ensures Waiting(history, k) > max <==>
            Sum(history[k..]) < history[0] && history[0] - Sum(history[k..]) < WORD - max
  {
    var bytes, first := Sum(history[k..]), history[0];
    if bytes < first {
      assert (bytes - first) % WORD == WORD + bytes - first;
    } else {
      assert (bytes - first) % WORD == bytes - first;
    }
  }

  /** The waiting bytes are above the limit, and still the total is within it, iff they are above it by
      no more than the bytes of the very first block. */
  lemma WithinTheLimit(history: seq<nat>, k: nat, max: nat)
    requires history != [] && k <= |history| && history[0] < WORD && max < WORD && max < Sum(history[k..]) < WORD
    ensures Waiting(history, k) <= max <==> history[0] <= Sum(history[k..]) <= max + history[0]
  {
    var bytes, first := Sum(history[k..]), history[0];
    if bytes < first {
      assert (bytes - first) % WORD == WORD + bytes - first;
    } else {
      assert (bytes - first) % WORD == bytes - first;
    }
  }

  /** A deferral frees the block that has waited longest, although the bytes are within the limit, iff
      they are fewer than those of the very first block. */
  lemma FreedThoughWithin(history: seq<nat>, size: nat, max: nat)
    requires history != [] && history[0] < WORD && max < WORD
    requires Sum((history + [size])[Freed(history, max)..]) <= max
    ensures var longer, k := history + [size], Freed(history, max);
            k < Freed(longer, max) <==> Sum(longer[k..]) < longer[0] && longer[0] - Sum(longer[k..]) < WORD - max
  {
    hide Sum;
    FreedWhen(history, size, max, Freed(history, max));
    AboveTheLimit(history + [size], Freed(history, max), max);
  }

  lemma {:induction false} SumTail(s: seq<nat>, k: nat)
    requires k <= |s|
    ensures Sum(s[k..]) <= Sum(s)
  {
    if 0 < k {
      SumFirst(s);
      SumTail(s[1..], k - 1);
      assert s[1..][k - 1..] == s[k..];
    } else {
      assert s[k..] == s;
    }
  }

  /** With fewer bytes to wait than the very first block had, every block but the new one is freed,
      however few bytes that are. */
  lemma AllFreedEarly(history: seq<nat>, size: nat, max: nat)
    requires history != [] && history[0] < WORD - max
    requires Sum(history[Freed(history, max)..]) + size < history[0]
    ensures Freed(history + [size], max) == |history|
  {
    hide Freed, Next, Sum;
    var longer, k := history + [size], Freed(history, max);
    FreedSnoc(history, size, max);
    forall j | k <= j < |history|
      ensures Waiting(longer, j) > max
    {
      TailsBelow(history, size, k, j);
      Wrapped(Sum(longer[j..]), longer[0], max);
    }
  }

  lemma TailsBelow(history: seq<nat>, size: nat, k: nat, j: nat)
    requires k <= j <= |history|
    ensures Sum((history + [size])[j..]) <= Sum(history[k..]) + size
  {
    hide Sum;
    var longer := history + [size];
    SumTail(history[k..], j - k);
    assert history[k..][j - k..] == history[j..];
    assert longer[j..] == history[j..] + [size];
    SumSnoc(history[j..], size);
  }

  lemma Wrapped(bytes: nat, first: nat, max: nat)
    requires bytes < first < WORD - max
    ensures (bytes - first) % WORD > max
  {
    assert (bytes - first) % WORD == WORD + bytes - first;
  }

  /** With a limit of 100 bytes, blocks of 1000, 50 and 60 bytes make the word wrap; of two blocks of 10
      bytes each that follow, only the second one waits. */
  lemma FiveBlocks()
    ensures Freed([1000, 50], 100) == 0 && Freed([1000, 50, 60], 100) == 2
    ensures Freed([1000, 50, 60, 10], 100) == 3 && Freed([1000, 50, 60, 10, 10], 100) == 4
  {
    hide Freed, Next, Waiting, Sum;
    FreedSnoc([1000], 50, 100);
    FreedSnoc([1000, 50], 60, 100);
    assert [1000] + [50] == [1000, 50] && [1000, 50] + [60] == [1000, 50, 60];
    Two();
    Three();
    AllFreedEarly([1000, 50, 60], 10, 100);
    assert [1000, 50, 60] + [10] == [1000, 50, 60, 10];
    assert [1000, 50, 60, 10][3..] == [10];
    AllFreedEarly([1000, 50, 60, 10], 10, 100);
    assert [1000, 50, 60, 10] + [10] == [1000, 50, 60, 10, 10];
  }

  lemma Two()
    ensures Waiting([1000, 50], 0) == 50
  {
    assert [1000, 50][0..] == [1000] + [50] && [1000] == [] + [1000];
    SumSnoc([1000], 50);
    SumSnoc([], 1000);
  }

  lemma Three()
    ensures Waiting([1000, 50, 60], 0) == 110 && Waiting([1000, 50, 60], 1) > 100
    ensures Sum([1000, 50, 60][2..]) == 60 && Sum([10]) == 10
  {
    var s := [1000, 50, 60];
    assert s[2..] == [] + [60] && s[1..] == [50] + [60] && s[0..] == ([1000] + [50]) + [60];
    assert [50] == [] + [50] && [1000] == [] + [1000] && [10] == [] + [10];
    SumSnoc([], 60);
    SumSnoc([], 10);
    SumSnoc([], 50);
    SumSnoc([50], 60);
    SumSnoc([], 1000);
    SumSnoc([1000], 50);
    SumSnoc([1000] + [50], 60);
    Wrapped(110, 1000, 100);
  }
}
