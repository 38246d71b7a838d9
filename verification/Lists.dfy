/** Addresses, and lists that are linked through memory. */
module Lists {

  type Address = nat

  const NULL: Address := 0

  /** The k-th element of a list, NULL behind the last one. */
  ghost function At(list: seq<Address>, k: nat): Address
    requires k <= |list|
  {
    if k == |list| then NULL else list[k]
  }

  /** The nodes of `list` are linked one after the other, beginning at `head`. */
  ghost predicate Threaded(head: Address, next: map<Address, Address>, list: seq<Address>) {
    && head == At(list, 0)
    && forall k | 0 <= k < |list| :: list[k] > 0 && list[k] in next && next[list[k]] == At(list, k + 1)
  }

  ghost predicate Distinct<T>(list: seq<T>) {
    forall i, j | 0 <= i < j < |list| :: list[i] != list[j]
  }

  /** A sequence without its element number `k`. */
  ghost function Without<T>(s: seq<T>, k: nat): seq<T>
    requires k < |s|
  {
    s[..k] + s[k + 1..]
  }

  lemma WithoutLength<T>(s: seq<T>, k: nat)
    requires k < |s|
    ensures |Without(s, k)| == |s| - 1
  {
  }

  lemma WithoutAt<T>(s: seq<T>, k: nat, j: nat)
    requires k < |s| && j < |s| - 1
    ensures |Without(s, k)| == |s| - 1
    ensures Without(s, k)[j] == s[if j < k then j else j + 1]
  {
  }

  lemma WithoutHas<T>(s: seq<T>, k: nat, a: T)
    requires k < |s| && a in s && a != s[k]
    ensures a in Without(s, k)
  {
    var j :| 0 <= j < |s| && s[j] == a;
    WithoutAt(s, k, if j < k then j else j - 1);
  }

  /** Without one of its elements, a sequence of different ones has exactly the others. */
  lemma WithoutOne<T>(s: seq<T>, k: nat)
    requires Distinct(s) && k < |s|
    ensures Distinct(Without(s, k)) && forall a :: a in Without(s, k) <==> a in s && a != s[k]
  {
    hide Without;
    WithoutLength(s, k);
    forall j: nat | j < |s| - 1
      ensures Without(s, k)[j] == s[if j < k then j else j + 1]
    {
      WithoutAt(s, k, j);
    }
    forall a | a in s && a != s[k]
      ensures a in Without(s, k)
    {
      WithoutHas(s, k, a);
    }
  }

  lemma HeadAt(list: seq<Address>)
    ensures At(list, 0) == if list == [] then NULL else list[0]
  {
  }

  lemma ThreadedHead(head: Address, next: map<Address, Address>, list: seq<Address>)
    requires Threaded(head, next, list)
    ensures head == NULL <==> list == []
    ensures list != [] ==> head == list[0] && head in next && Threaded(next[head], next, list[1..])
  {
    if list != [] {
      var rest := list[1..];
      assert forall k | 0 <= k < |rest| :: rest[k] == list[k + 1];
    }
  }

  lemma DistinctRest(list: seq<Address>)
    requires Distinct(list) && list != []
    ensures Distinct(list[1..]) && list[0] !in list[1..]
  {
  }

  lemma ThreadedPush(head: Address, next: map<Address, Address>, list: seq<Address>, a: Address)
    requires Threaded(head, next, list) && a > 0 && a !in list
    ensures Threaded(a, next[a := head], [a] + list)
  {
    var longer := [a] + list;
    assert forall k | 1 <= k < |longer| :: longer[k] == list[k - 1];
  }

  lemma DistinctPush(list: seq<Address>, a: Address)
    requires Distinct(list) && a !in list
    ensures Distinct([a] + list) && Distinct(list + [a])
  {
  }

  /** Linking a new node behind the last one. */
  lemma ThreadedAppend(head: Address, next: map<Address, Address>, list: seq<Address>, a: Address)
    requires Threaded(head, next, list) && Distinct(list) && a > 0 && a !in list
    ensures list == [] ==> Threaded(a, next[a := NULL], list + [a])
    ensures list != [] ==> Threaded(head, next[a := NULL][list[|list| - 1] := a], list + [a])
  {
  }

  /** A list does not notice changes elsewhere. */
  lemma ThreadedKept(head: Address, next: map<Address, Address>, next': map<Address, Address>, list: seq<Address>)
    requires Threaded(head, next, list)
    requires forall a | a in list :: a in next' && (a in next ==> next'[a] == next[a])
    ensures Threaded(head, next', list)
  {
  }
}
