/** The size classes by which the analysis of a log counts allocations. */
module SizeClasses {
  import opened Replay

  const K: nat := 1024

  /** The largest size of every class but the last one, which has no largest size. */
  const BOUNDARIES: seq<nat> := [
    8, 16, 24, 32, 40, 48, 56, 64, 72, 80, 88, 96, 104, 112, 120, 128,
    256, 512, 1 * K, 2 * K, 3 * K, 4 * K, 5 * K, 6 * K, 7 * K, 8 * K,
    16 * K, 32 * K, 64 * K, 128 * K, 256 * K, 512 * K, 1024 * K, 2048 * K, 10240 * K
  ]

  /** Size `s` is in class `i` of the classes with boundaries `b`. */
  ghost predicate InClass(b: seq<nat>, s: nat, i: nat) {
    i <= |b| && (i > 0 ==> b[i - 1] < s) && (i < |b| ==> s <= b[i])
  }

  ghost predicate Ascending(b: seq<nat>) {
    forall i | 0 <= i < |b| - 1 :: b[i] < b[i + 1]
  }

  lemma BoundariesAscend()
    ensures Ascending(BOUNDARIES)
  {
    assert |BOUNDARIES| == 35;
  }

  lemma {:induction false} AscendingFar(b: seq<nat>, i: nat, j: nat)
    requires Ascending(b) && i <= j < |b|
    ensures b[i] <= b[j]
    decreases j
  {
    if i < j {
      AscendingFar(b, i, j - 1);
    }
  }

  /** No size is in two classes. */
  lemma ClassUnique(b: seq<nat>, s: nat, i: nat, j: nat)
    requires Ascending(b) && InClass(b, s, i) && InClass(b, s, j)
    ensures i == j
  {
    if i < j {
      AscendingFar(b, i, j - 1);
    } else if j < i {
      AscendingFar(b, j, i - 1);
    }
  }

  /** The class of a size, the highest one whose lower boundary it exceeds. */
  method BucketOf(b: seq<nat>, s: nat) returns (i: nat)
    ensures InClass(b, s, i)
  {
    i := |b|;
    while i > 0
      invariant i <= |b| && (i < |b| ==> s <= b[i])
    {
      if s > b[i - 1] {
        return;
      }
      i := i - 1;
    }
  }

  /** How many of the first `n` operations get a block of class `i`. */
  ghost function Made(cfg: Config, b: seq<nat>, i: nat, n: nat): nat {
    if n == 0 then 0
    else
      Made(cfg, b, i, n - 1) +
      (if IsOp(cfg, n) && Op(cfg, n).Allocates() && InClass(b, Op(cfg, n).size, i) then 1 else 0)
  }

  /** The buckets count the allocations of the first `n` operations by classes. */
  ghost predicate Tallied(cfg: Config, b: seq<nat>, buckets: seq<int>, n: nat) {
    |buckets| == |b| + 1 && forall i: nat | i <= |b| :: buckets[i] == Made(cfg, b, i, n)
  }

  lemma TalliedLength(cfg: Config, b: seq<nat>, buckets: seq<int>, n: nat)
    requires Tallied(cfg, b, buckets, n)
    ensures |buckets| == |b| + 1
  {
  }

  lemma InClassBound(b: seq<nat>, s: nat, i: nat)
    requires InClass(b, s, i)
    ensures i <= |b|
  {
  }

  lemma TalliedMore(cfg: Config, b: seq<nat>, buckets: seq<int>, n: nat, i: nat)
    requires n > 0 && IsOp(cfg, n) && Op(cfg, n).Allocates()
    requires Ascending(b) && Tallied(cfg, b, buckets, n - 1) && InClass(b, Op(cfg, n).size, i)
    ensures Tallied(cfg, b, buckets[i := buckets[i] + 1], n)
  {
    hide Ascending;
    forall j: nat | InClass(b, Op(cfg, n).size, j)
      ensures j == i
    {
      ClassUnique(b, Op(cfg, n).size, i, j);
    }
  }

  lemma TalliedSame(cfg: Config, b: seq<nat>, buckets: seq<int>, n: nat)
    requires n > 0 && Tallied(cfg, b, buckets, n - 1) && !(IsOp(cfg, n) && Op(cfg, n).Allocates())
    ensures Tallied(cfg, b, buckets, n)
  {
  }
}
