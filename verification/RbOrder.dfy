/** The in-order sequence of a tree: search order, the abstract map, the ends, and the height bound. */
module RbOrder {
  import opened RbShape

  ghost predicate Sorted(s: seq<Entry>) {
    forall i, j | 0 <= i < j < |s| :: s[i].key < s[j].key
  }

  ghost predicate OneNodeEach(s: seq<Entry>) {
    forall i, j | 0 <= i < j < |s| :: s[i].node != s[j].node
  }

  /** The abstract map from sequence number to block. */
  ghost function Contents(s: seq<Entry>): map<Key, Address> {
    if s == [] then map[] else Contents(s[..|s| - 1])[s[|s| - 1].key := s[|s| - 1].block]
  }

  lemma {:induction false} ContentsKeys(s: seq<Entry>, k: Key)
    ensures k in Contents(s) <==> exists i :: 0 <= i < |s| && s[i].key == k
  {
    if s != [] {
      var front := s[..|s| - 1];
      ContentsKeys(front, k);
      if k in Contents(front) {
        var i :| 0 <= i < |front| && front[i].key == k;
        assert s[i].key == k;
      }
    }
  }

  lemma {:induction false} ContentsAt(s: seq<Entry>, i: nat)
    requires Sorted(s) && i < |s|
    ensures s[i].key in Contents(s) && Contents(s)[s[i].key] == s[i].block
  {
    if i < |s| - 1 {
      assert s[i] == s[..|s| - 1][i];
      ContentsAt(s[..|s| - 1], i);
    }
  }

  /** `r` is `s` without its entry at `m`. */
  ghost predicate Without(s: seq<Entry>, m: nat, r: seq<Entry>) {
    m < |s| && |s| == |r| + 1 && forall i | 0 <= i < |r| :: r[i] == s[if i < m then i else i + 1]
  }

  lemma ContentsWithKey(s: seq<Entry>, m: nat, r: seq<Entry>, k: Key)
    requires Sorted(s) && Sorted(r) && Without(s, m, r)
    ensures k in Contents(s) <==> k in Contents(r) || k == s[m].key
    ensures k in Contents(r) ==> k != s[m].key && Contents(s)[k] == Contents(r)[k]
  {
    ContentsKeys(s, k);
    ContentsKeys(r, k);
    if k in Contents(r) {
      var i :| 0 <= i < |r| && r[i].key == k;
      ContentsAt(r, i);
      ContentsAt(s, if i < m then i else i + 1);
    }
    if k in Contents(s) && k != s[m].key {
      var i :| 0 <= i < |s| && s[i].key == k;
      assert r[if i < m then i else i - 1].key == k;
    }
  }

  /** Adding one entry to the sequence, anywhere that keeps it sorted, adds its pair to the map. */
  lemma ContentsWith(p: seq<Entry>, e: Entry, q: seq<Entry>)
    requires Sorted(p + [e] + q)
    ensures Sorted(p + q) && e.key !in Contents(p + q)
    ensures Contents(p + [e] + q) == Contents(p + q)[e.key := e.block]
  {
    var s, r := p + [e] + q, p + q;
    assert Without(s, |p|, r) && s[|p|] == e;
    ContentsAt(s, |p|);
    forall k: Key
      ensures k in Contents(s) <==> k in Contents(r) || k == e.key
      ensures k in Contents(r) ==> k != e.key && Contents(s)[k] == Contents(r)[k]
    {
      ContentsWithKey(s, |p|, r, k);
    }
    assert Contents(s) == Contents(r)[e.key := e.block];
  }

  // ---------------------------------------------------------------- nodes of the sequence

  lemma {:induction false} InOrderNodes(t: Tree)
    ensures forall i | 0 <= i < |InOrder(t)| :: InOrder(t)[i].node in Nodes(t)
    ensures forall n | n in Nodes(t) :: exists i :: 0 <= i < |InOrder(t)| && InOrder(t)[i].node == n
  {
    if t.Fork? {
      InOrderNodes(t.left);
      InOrderNodes(t.right);
      var l, s := InOrder(t.left), InOrder(t);
      forall n | n in Nodes(t)
        ensures exists i :: 0 <= i < |s| && s[i].node == n
      {
        if n in Nodes(t.left) {
          var i :| 0 <= i < |l| && l[i].node == n;
          assert s[i].node == n;
        } else if n in Nodes(t.right) {
          var i :| 0 <= i < |InOrder(t.right)| && InOrder(t.right)[i].node == n;
          assert s[|l| + 1 + i].node == n;
        } else {
          assert s[|l|].node == n;
        }
      }
    }
  }

  lemma {:induction false} InOrderDistinct(t: Tree)
    requires Distinct(t)
    ensures OneNodeEach(InOrder(t))
  {
    if t.Fork? {
      InOrderDistinct(t.left);
      InOrderDistinct(t.right);
      InOrderNodes(t.left);
      InOrderNodes(t.right);
    }
  }

  // ---------------------------------------------------------------- places

  /** Every node of a tree is the root of a subtree. */
  lemma {:induction false} Place(whole: Tree, t: Tree, c: Ctx, n: Node) returns (t': Tree, c': Ctx)
    requires n in Nodes(t) && whole == Plug(t, c)
    ensures whole == Plug(t', c') && t'.Fork? && t'.e.node == n
  {
    if n == t.e.node {
      t', c' := t, c;
    } else if n in Nodes(t.left) {
      t', c' := Place(whole, t.left, Under(c, OnLeft, t.color, t.e, t.right), n);
    } else {
      t', c' := Place(whole, t.right, Under(c, OnRight, t.color, t.e, t.left), n);
    }
  }

  // ---------------------------------------------------------------- the height bound

  ghost function Max(a: nat, b: nat): nat {
    if a < b then b else a
  }

  ghost function Height(t: Tree): nat {
    if t.Leaf? then 0 else 1 + Max(Height(t.left), Height(t.right))
  }

  ghost function Pow2(n: nat): nat {
    if n == 0 then 1 else 2 * Pow2(n - 1)
  }

  /** The logarithm to base two, rounded down. */
  ghost function Log2(n: nat): nat {
    if n <= 1 then 0 else 1 + Log2(n / 2)
  }

  lemma {:induction false} Log2Above(h: nat, n: nat)
    requires Pow2(h) <= n
    ensures h <= Log2(n)
  {
    if h > 0 {
      Log2Above(h - 1, n / 2);
    }
  }

  lemma {:induction false} HeightBound(t: Tree, h: int)
    requires NoRedRed(t) && BlackHeight(t, h)
    ensures h >= 0
    ensures Height(t) <= 2 * h + (if RootBlack(t) then 0 else 1)
    ensures Pow2(h) <= |InOrder(t)| + 1
  {
    if t.Fork? {
      HeightBound(t.left, h - Step(t.color));
      HeightBound(t.right, h - Step(t.color));
    }
  }

  /** A red-black tree of `n` nodes is no higher than twice the logarithm of `n + 1`. */
  lemma HeightLogarithmic(t: Tree)
    requires RedBlack(t)
    ensures Height(t) <= 2 * Log2(|InOrder(t)| + 1)
  {
    var h: nat :| BlackHeight(t, h);
    HeightBound(t, h);
    Log2Above(h, |InOrder(t)| + 1);
  }

  // ---------------------------------------------------------------- the ends of the sequence

  ghost function FirstNode(header: Node, s: seq<Entry>): Node {
    if s == [] then header else s[0].node
  }

  ghost function LastNode(header: Node, s: seq<Entry>): Node {
    if s == [] then header else s[|s| - 1].node
  }

  lemma EndsOf(header: Node, p: seq<Entry>, q: seq<Entry>)
    requires OneNodeEach(p + q)
    ensures p != [] ==> FirstNode(header, p + q) == FirstNode(header, p)
    ensures q != [] ==> LastNode(header, p + q) == LastNode(header, q)
    ensures q != [] ==> (FirstNode(header, p + q) == q[0].node <==> p == [])
    ensures p != [] ==> (LastNode(header, p + q) == p[|p| - 1].node <==> q == [])
  {
    var s := p + q;
    assert q != [] ==> s[|p|] == q[0] && s[|s| - 1] == q[|q| - 1];
    assert p != [] ==> s[0] == p[0] && s[|p| - 1] == p[|p| - 1];
  }

  lemma EndsWith(header: Node, p: seq<Entry>, e: Entry, q: seq<Entry>)
    ensures FirstNode(header, p + [e] + q) == (if p == [] then e.node else FirstNode(header, p))
    ensures LastNode(header, p + [e] + q) == (if q == [] then e.node else LastNode(header, q))
  {
    var s := p + [e] + q;
    assert p != [] ==> s[0] == p[0];
    assert q != [] ==> s[|s| - 1] == q[|q| - 1];
  }

  // ---------------------------------------------------------------- keys around a place in the sequence

  ghost predicate Below(s: seq<Entry>, key: Key) {
    forall i | 0 <= i < |s| :: s[i].key < key
  }

  ghost predicate Above(s: seq<Entry>, key: Key) {
    forall i | 0 <= i < |s| :: key < s[i].key
  }

  lemma SortedAround(p: seq<Entry>, e: Entry, q: seq<Entry>)
    requires Sorted(p + [e] + q)
    ensures Below(p, e.key) && Above(q, e.key)
  {
    var s := p + [e] + q;
    assert s[|p|] == e;
    forall i | 0 <= i < |p|
      ensures p[i].key < e.key
    {
      assert s[i] == p[i];
    }
    forall i | 0 <= i < |q|
      ensures e.key < q[i].key
    {
      assert s[|p| + 1 + i] == q[i];
    }
  }

  lemma SortedWith(p: seq<Entry>, e: Entry, q: seq<Entry>)
    requires Sorted(p + q) && Below(p, e.key) && Above(q, e.key)
    ensures Sorted(p + [e] + q)
  {
    var r, s := p + q, p + [e] + q;
    forall i, j | 0 <= i < j < |s|
      ensures s[i].key < s[j].key
    {
      if j < |p| {
        assert s[i] == r[i] && s[j] == r[j];
      } else if i > |p| {
        assert s[i] == r[i - 1] && s[j] == r[j - 1];
      } else if i < |p| < j {
        assert s[i] == r[i] && s[j] == r[j - 1];
      }
    }
  }

  /** What one more entry does to a sequence. */
  lemma EntryAdded(o: seq<Entry>, p: seq<Entry>, e: Entry, q: seq<Entry>, order: seq<Entry>)
    requires o == p + q && order == p + [e] + q && Sorted(order)
    ensures |order| == |o| + 1 && multiset(order) == multiset(o) + multiset{e}
    ensures Contents(order) == Contents(o)[e.key := e.block]
  {
    ContentsWith(p, e, q);
  }

  /** Where the search ends, the key is the first of the entries to come or is in no entry. */
  lemma Found(s: seq<Entry>, key: Key, p: seq<Entry>, q: seq<Entry>)
    requires Sorted(s) && s == p + q && Below(p, key) && (q != [] ==> key <= q[0].key)
    ensures key in Contents(s) <==> q != [] && q[0].key == key
    ensures key in Contents(s) ==> Contents(s)[key] == q[0].block
  {
    ContentsKeys(s, key);
    if q != [] {
      assert s[|p|] == q[0];
      ContentsAt(s, |p|);
    }
    if key in Contents(s) {
      var i :| 0 <= i < |s| && s[i].key == key;
    }
  }

  lemma ProbeKeys(o: seq<Entry>, p: seq<Entry>, q: seq<Entry>, key: Key)
    requires Sorted(o) && o == p + q && Below(p, key + 1) && (q != [] ==> key + 1 <= q[0].key)
    ensures Above(q, key)
    ensures if p == [] || p[|p| - 1].key < key then key !in Contents(o) && Below(p, key) else key in Contents(o)
  {
    ContentsKeys(o, key);
    assert forall i | 0 <= i < |q| :: q[i] == o[|p| + i];
    assert forall i | 0 <= i < |p| :: p[i] == o[i];
  }

  /** The root of `t` splits the sequence. */
  lemma RootSplits(t: Tree, c: Ctx)
    requires t.Fork? && Sorted(Order(t, c))
    ensures Order(t, c) == (Before(c) + InOrder(t.left)) + [t.e] + (InOrder(t.right) + After(c))
    ensures Below(Before(c) + InOrder(t.left), t.e.key) && Above(InOrder(t.right) + After(c), t.e.key)
  {
    var p, q := Before(c) + InOrder(t.left), InOrder(t.right) + After(c);
    assert Order(t, c) == p + [t.e] + q;
    SortedAround(p, t.e, q);
  }

  // ---------------------------------------------------------------- entries and their nodes

  /** Every entry of a tree is the one its node holds. */
  lemma {:induction false} InOrderAt(t: Tree, q: Node)
    requires Distinct(t)
    ensures forall i | 0 <= i < |InOrder(t)| ::
              InOrder(t)[i].node in Nodes(t) && At(t, q, InOrder(t)[i].node).e == InOrder(t)[i]
  {
    if t.Fork? {
      InOrderAt(t.left, t.e.node);
      InOrderAt(t.right, t.e.node);
    }
  }

  lemma CtxNext(c: Ctx)
    ensures c.Top? ==> Before(c) == [] && After(c) == []
    ensures c.Under? && c.side == OnLeft ==> After(c) != [] && After(c)[0] == c.e
    ensures c.Under? && c.side == OnRight ==> Before(c) != [] && Before(c)[|Before(c)| - 1] == c.e
  {
  }

  lemma CtxOneNodeEach(t: Tree, c: Ctx)
    requires Apart(t, c)
    ensures OneNodeEach(Order(t, c))
  {
    PlugDistinct(t, c);
    PlugOrder(t, c);
    InOrderDistinct(Plug(t, c));
  }
}
