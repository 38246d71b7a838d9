/** Blocks with a guard page: where the block and its header are put, and how they are found again. */
module MallocDeadPage {
  import opened Lists

  /** The size of a header, and of a machine word. */
  const HEADER: nat := 32
  const WORD: nat := 8

  // ---------------------------------------------------------------- rounding

  /** The largest multiple of `p` that is not above `x`; for a power of two, `x` with the low bits cleared. */
  function RoundDown(x: nat, p: nat): nat
    requires p > 0
  {
    x - x % p
  }

  /** The rounding up that adds what is missing. */
  function RoundUp(x: nat, p: nat): nat
    requires p > 0
  {
    if x % p > 0 then x + (p - x % p) else x
  }

  ghost predicate Divides(p: nat, x: nat) {
    exists q: nat :: x == q * p
  }

  lemma Distribute(q: int, r: int, p: int)
    ensures (q - r) * p == q * p - r * p
    ensures (q + r) * p == q * p + r * p
  {
  }

  lemma AtLeastOnce(d: nat, p: nat)
    requires d >= 1
    ensures d * p >= p
  {
    Distribute(d, 1, p);
    assert (d - 1) * p >= 0;
  }

  /** There is only one multiple of `p` in a range of length `p`. */
  lemma MultipleUnique(p: nat, x: nat, y: nat)
    requires p > 0 && Divides(p, x) && Divides(p, y) && x < y + p && y < x + p
    ensures x == y
  {
    var q: nat, r: nat :| x == q * p && y == r * p;
    Distribute(q, r, p);
    Distribute(r, q, p);
    if q < r {
      AtLeastOnce(r - q, p);
    } else if r < q {
      AtLeastOnce(q - r, p);
    }
  }

  lemma DividesMod(p: nat, x: nat)
    requires p > 0
    ensures Divides(p, x) <==> x % p == 0
  {
    RoundDownIs(x, p);
    if Divides(p, x) {
      MultipleUnique(p, x, RoundDown(x, p));
    }
  }

  lemma DividesPlus(p: nat, x: nat, y: nat)
    requires Divides(p, x) && Divides(p, y)
    ensures Divides(p, x + y)
  {
    var q: nat, r: nat :| x == q * p && y == r * p;
    Distribute(q, r, p);
    var s := q + r;
    assert x + y == s * p;
  }

  lemma DividesMinus(p: nat, x: nat, y: nat)
    requires Divides(p, x) && Divides(p, y) && x >= y
    ensures Divides(p, x - y)
  {
    var q: nat, r: nat :| x == q * p && y == r * p;
    if q >= r {
      Distribute(q, r, p);
      var d: nat := q - r;
      assert x - y == d * p;
    } else {
      Distribute(r, q, p);
      AtLeastOnce(r - q, p);
      assert x - y == 0 * p;
    }
  }

  lemma DividesThrough(a: nat, p: nat, x: nat)
    requires Divides(a, p) && Divides(p, x)
    ensures Divides(a, x)
  {
    var q: nat, r: nat :| p == q * a && x == r * p;
    assert x == (r * q) * a;
  }

  lemma RoundDownIs(x: nat, p: nat)
    requires p > 0
    ensures Divides(p, RoundDown(x, p)) && RoundDown(x, p) <= x < RoundDown(x, p) + p
  {
    assert RoundDown(x, p) == (x / p) * p;
  }

  lemma RoundUpIs(x: nat, p: nat)
    requires p > 0
    ensures Divides(p, RoundUp(x, p)) && x <= RoundUp(x, p) < x + p
  {
    if x % p > 0 {
      assert RoundUp(x, p) == (x / p + 1) * p;
    } else {
      assert x == (x / p) * p;
    }
  }

  /** Adding one less than a page and clearing the low bits rounds up as well. */
  lemma RoundUpByMask(x: nat, p: nat)
    requires p > 0
    ensures RoundDown(x + p - 1, p) == RoundUp(x, p)
  {
    RoundDownIs(x + p - 1, p);
    RoundUpIs(x, p);
    MultipleUnique(p, RoundDown(x + p - 1, p), RoundUp(x, p));
  }

  lemma DividesItself(p: nat)
    ensures Divides(p, p) && Divides(p, 0)
  {
    assert p == 1 * p && 0 == 0 * p;
  }

  /** Rounding up to a divisor of the page size first does not change the number of pages. */
  lemma RoundUpTwice(x: nat, a: nat, p: nat)
    requires a > 0 && p > 0 && Divides(a, p)
    ensures RoundUp(RoundUp(x, a) + p, p) == RoundUp(x + p, p)
  {
    hide RoundUp, Divides;
    var y, r := RoundUp(x, a), RoundUp(x + p, p);
    RoundUpIs(x, a);
    RoundUpIs(x + p, p);
    RoundUpIs(y + p, p);
    DividesItself(p);
    DividesMinus(p, r, p);
    DividesThrough(a, p, r - p);
    NotBelow(a, r - p, x, y);
    MultipleUnique(p, RoundUp(y + p, p), r);
  }

  /** The next multiple of `a` is not above another multiple that is not below. */
  lemma NotBelow(a: nat, m: nat, x: nat, y: nat)
    requires a > 0 && Divides(a, m) && Divides(a, y) && x <= m && x <= y < x + a
    ensures y <= m
  {
    if m < y {
      MultipleUnique(a, m, y);
    }
  }

  // ---------------------------------------------------------------- layout

  datatype Setting = Setting(pageSize: nat, alignment: nat, underrun: bool, minSize: nat, maxSize: nat)
  {
    /** A page holds a header and more, and consists of aligned parts. */
    ghost predicate Good() {
      && pageSize > 0 && HEADER + WORD <= pageSize
      && alignment + HEADER <= pageSize && (alignment > 0 ==> Divides(alignment, pageSize))
    }
  }

  /** The size of the block with its guard page, how far its user's part is from its beginning, whether
      a page has been added for the header, and whether the header is in the block. */
  datatype Layout = Layout(realSize: nat, userOffset: nat, extra: bool, embedded: bool)

  /** The size that the user's part takes up in front of a guard page. */
  function Aligned(cfg: Setting, size: nat): nat {
    if cfg.alignment > 1 then RoundUp(size, cfg.alignment) else size
  }

  /** User addresses are multiples of this. */
  function Grain(cfg: Setting): nat {
    if cfg.alignment > 1 then cfg.alignment else 1
  }

  /** How much is left free behind the user's part when a page has been added, at the least. */
  function Step(cfg: Setting): nat {
    if cfg.alignment > 0 then cfg.alignment else WORD
  }

  /** What is left of the pages of a block in front of its guard page. */
  function Slack(cfg: Setting, size: nat): int
    requires cfg.pageSize > 0
  {
    RoundUp(Aligned(cfg, size) + cfg.pageSize, cfg.pageSize) - cfg.pageSize - Aligned(cfg, size)
  }

  /** The layout of a block of `size` bytes. */
  function LayoutOf(cfg: Setting, size: nat): Layout
    requires cfg.pageSize > 0 && cfg.alignment + WORD <= cfg.pageSize
  {
    var p := cfg.pageSize;
    if cfg.underrun then
      var whole := RoundUp(size + p, p);
      Layout(whole, p, false, p > size && whole - p - size >= HEADER)
    else
      var whole, slack := RoundUp(Aligned(cfg, size) + p, p), Slack(cfg, size);
      if slack < HEADER then Layout(whole + p, p - (if cfg.alignment > 0 then cfg.alignment else WORD), true, true)
      else Layout(whole, slack, false, true)
  }

  /** The layout is computed step by step. */
  method ComputeLayout(cfg: Setting, size: nat) returns (l: Layout)
    requires cfg.Good()
    ensures l == LayoutOf(cfg, size)
  {
    hide RoundUp, Divides;
    var iSize := size;
    if !cfg.underrun && cfg.alignment > 1 {
      iSize := RoundUp(iSize, cfg.alignment);
    }
    var lRealSize := RoundUp(iSize + cfg.pageSize, cfg.pageSize);
    RoundUpIs(iSize + cfg.pageSize, cfg.pageSize);
    var extra := false;
    if !cfg.underrun {
      var remainder := lRealSize - cfg.pageSize - iSize;
      if remainder < HEADER {
        extra := true;
        lRealSize := lRealSize + cfg.pageSize;
        iSize := iSize + remainder;
        iSize := iSize + (if cfg.alignment > 0 then cfg.alignment else WORD);
      }
    }
    if !cfg.underrun {
      var userOffset := lRealSize - cfg.pageSize - iSize;
      l := Layout(lRealSize, userOffset, extra, userOffset >= HEADER);
    } else {
      l := Layout(lRealSize, cfg.pageSize, false, cfg.pageSize > iSize && lRealSize - cfg.pageSize - iSize >= HEADER);
    }
  }

  /** The raw size that is computed again from the size the user asked for. */
  function Recovered(cfg: Setting, size: nat): nat
    requires cfg.pageSize > 0
  {
    RoundDown(cfg.pageSize + size + cfg.pageSize - 1, cfg.pageSize)
  }

  /** Against underruns: the guard page comes first, the block has the pages it needs, and its raw size is
      found again. Only a block of no bytes has its user's address behind its end. */
  lemma UnderrunLayout(cfg: Setting, size: nat)
    requires cfg.Good() && cfg.underrun
    ensures var l := LayoutOf(cfg, size);
            && l.userOffset == cfg.pageSize && Divides(cfg.pageSize, l.realSize)
            && cfg.pageSize + size <= l.realSize < 2 * cfg.pageSize + size
            && Recovered(cfg, size) == l.realSize
            && (l.userOffset < l.realSize <==> size > 0)
            && (l.embedded <==> 0 < size <= cfg.pageSize - HEADER)
            && (l.embedded ==> l.realSize == 2 * cfg.pageSize)
  {
    hide Divides;
    var p, l := cfg.pageSize, LayoutOf(cfg, size);
    RoundUpIs(size + p, p);
    RoundUpByMask(p + size, p);
    if 0 < size <= p {
      TwoPages(p, size);
    } else if size == 0 {
      DividesItself(p);
      MultipleUnique(p, RoundUp(p, p), p);
    }
  }

  /** A block of no bytes has a guard page only, and its user's address behind it. */
  lemma EmptyBlock()
    ensures var cfg := Setting(4096, 8, true, 0, 1000000);
            cfg.Good() && LayoutOf(cfg, 0).realSize == 4096 && LayoutOf(cfg, 0).userOffset == 4096
  {
    assert 4096 == 512 * 8;
  }

  /** A block of up to a page, with its guard page, has two pages. */
  lemma TwoPages(p: nat, size: nat)
    requires 0 < size <= p
    ensures RoundUp(size + p, p) == 2 * p
  {
    hide RoundUp, Divides;
    RoundUpIs(size + p, p);
    DividesItself(p);
    DividesPlus(p, p, p);
    MultipleUnique(p, RoundUp(size + p, p), 2 * p);
  }

  /** Against overruns: the header fits in front of the user's part, which is aligned, ends before the
      guard page, and has the beginning of the block as the beginning of its page. Without a page added,
      the guard page follows as closely as the alignment allows; with one, the user's part begins just
      before the second page, and no more pages are taken than the header makes necessary. The raw size
      is found again exactly when no page has been added. */
  lemma OverrunLayout(cfg: Setting, size: nat)
    requires cfg.Good() && !cfg.underrun
    ensures var l := LayoutOf(cfg, size);
            && l.embedded && HEADER <= l.userOffset < cfg.pageSize
            && l.userOffset + size <= l.realSize - cfg.pageSize
            && Divides(cfg.pageSize, l.realSize)
            && (cfg.alignment > 0 ==> Divides(cfg.alignment, l.userOffset))
            && (Recovered(cfg, size) == l.realSize <==> !l.extra)
            && (l.extra <==> Slack(cfg, size) < HEADER)
            && (!l.extra ==> l.realSize - cfg.pageSize - (l.userOffset + size) < Grain(cfg))
            && (l.extra ==> l.userOffset == cfg.pageSize - Step(cfg))
            && (l.extra ==> size + 2 * cfg.pageSize <= l.realSize < size + 2 * cfg.pageSize + HEADER + Grain(cfg))
  {
    hide Divides, RoundUp, RoundDown;
    var p, a, s := cfg.pageSize, cfg.alignment, Aligned(cfg, size);
    var l, base := LayoutOf(cfg, size), RoundUp(s + p, p);
    RoundUpIs(s + p, p);
    RoundUpByMask(p + size, p);
    DividesItself(p);
    DividesPlus(p, base, p);
    if a > 0 {
      DividesItself(a);
      DividesMinus(a, p, a);
      SlackAligned(cfg, size);
    }
    if a > 1 {
      RoundUpIs(size, a);
      RoundUpTwice(size, a, p);
    }
    assert Recovered(cfg, size) == base;
  }

  lemma SlackAligned(cfg: Setting, size: nat)
    requires cfg.Good() && cfg.alignment > 0
    ensures 0 <= Slack(cfg, size) < cfg.pageSize && Divides(cfg.alignment, Slack(cfg, size))
  {
    hide Divides, RoundUp;
    var p, a, s := cfg.pageSize, cfg.alignment, Aligned(cfg, size);
    var base := RoundUp(s + p, p);
    RoundUpIs(s + p, p);
    DividesItself(p);
    DividesMinus(p, base, p);
    DividesThrough(a, p, base - p);
    if a > 1 {
      RoundUpIs(size, a);
    } else {
      DividedByOne(s);
    }
    DividesMinus(a, base - p, s);
  }

  lemma DividedByOne(x: nat)
    ensures Divides(1, x)
  {
    assert x == x * 1;
  }

  /** A block of 4090 bytes, with pages of 4096 and an alignment of 8, is one whose raw size is not found again. */
  lemma RawSizeLost()
    ensures var cfg := Setting(4096, 8, false, 0, 1000000);
            cfg.Good() && LayoutOf(cfg, 4090).realSize == 12288 && Recovered(cfg, 4090) == 8192
  {
    assert 4096 == 512 * 8;
  }

  // ---------------------------------------------------------------- headers

  /** A header, and whether its signature is intact. */
  datatype Header = Header(user: Address, raw: Address, size: nat, mine: bool)

  datatype Block = Block(raw: Address, size: nat, header: Address)

  datatype Verdict = NotMine | Abort | Found(raw: Address, deadPage: int, size: nat, rawSize: nat)

  class DeadPages {
    const cfg: Setting
    /** The headers in memory, and the list of those that are not in their blocks. */
    var headers: map<Address, Header>
    var others: seq<Address>
    /** The blocks in use, by the addresses that their users have. */
    ghost var live: map<Address, Block>

    /** Where the header of a block is that has it inside. */
    function EmbeddedAt(raw: Address): Address
      requires HEADER <= cfg.pageSize
    {
      if cfg.underrun then raw + 2 * cfg.pageSize - HEADER else raw
    }

    /** The block with the user address `u` lies as laid out, and its header says so. */
    ghost predicate Placed(u: Address)
      requires u in live && cfg.Good()
      reads this
    {
      var b := live[u];
      var l := LayoutOf(cfg, b.size);
      && u == b.raw + l.userOffset && Divides(cfg.pageSize, b.raw)
      && b.header in headers && headers[b.header] == Header(u, b.raw, b.size, true)
      && (l.embedded ==> b.header == EmbeddedAt(b.raw)) && (b.header in others <==> !l.embedded)
    }

    /** Where the header of a new block goes. */
    function HeaderAt(raw: Address, size: nat, spare: Address): Address
      requires cfg.Good()
    {
      if LayoutOf(cfg, size).embedded then EmbeddedAt(raw) else spare
    }

    ghost predicate Valid()
      reads this
    {
      && cfg.Good() && Distinct(others)
      && (forall u | u in live :: Placed(u))
      && (forall h | h in headers && headers[h].mine :: headers[h].user in live && live[headers[h].user].header == h)
      && (forall h | h in others :: h in headers && headers[h].mine)
    }

    constructor (cfg: Setting)
      requires cfg.Good()
      ensures Valid() && this.cfg == cfg && live == map[]
    {
      this.cfg := cfg;
      headers, others, live := map[], [], map[];
    }

    /** The block ends before `raw` or begins at or after `top`. */
    ghost predicate Beyond(b: Block, raw: Address, top: Address)
      requires cfg.Good()
    {
      b.raw + LayoutOf(cfg, b.size).realSize <= raw || top <= b.raw
    }

    /** Blocks of this size get a guard page. */
    predicate Guards(size: nat) {
      cfg.minSize <= size <= cfg.maxSize
    }

    /** Blocks that are apart have different user addresses. */
    lemma UsersDiffer(u: Address, raw: Address, size: nat)
      requires Valid() && u in live && Beyond(live[u], raw, raw + LayoutOf(cfg, size).realSize)
      ensures u != raw + LayoutOf(cfg, size).userOffset
    {
      hide RoundUp, Divides, LayoutOf;
      assert Placed(u);
      InsideLayout(cfg, size);
      InsideLayout(cfg, live[u].size);
    }

    lemma CloseLayout(size: nat)
      requires cfg.Good()
      ensures var l := LayoutOf(cfg, size);
              if cfg.underrun then l.userOffset == cfg.pageSize
              else
                && l.userOffset + size <= l.realSize - cfg.pageSize
                && (!l.extra ==> l.realSize - cfg.pageSize - (l.userOffset + size) < Grain(cfg))
    {
      if cfg.underrun {
        UnderrunLayout(cfg, size);
      } else {
        OverrunLayout(cfg, size);
      }
    }

    lemma NewUser(raw: Address, size: nat)
      requires Valid() && forall u | u in live :: Beyond(live[u], raw, raw + LayoutOf(cfg, size).realSize)
      ensures raw + LayoutOf(cfg, size).userOffset !in live
    {
      hide LayoutOf, Beyond;
      forall u | u in live
        ensures u != raw + LayoutOf(cfg, size).userOffset
      {
        UsersDiffer(u, raw, size);
      }
    }

    /** Lays out a block at `raw`, where the system has mapped memory of the size of the layout, or at
        NULL without memory; `spare` is a free header outside of all blocks. A block whose size is out
        of range is `plain`, the one that the allocator underneath gives. */
    method MallocBlock(size: nat, raw: Address, spare: Address, plain: Address) returns (user: Address)
      requires Valid()
      requires Guards(size) && raw != NULL ==>
                 && Divides(cfg.pageSize, raw)
                 && var top := raw + LayoutOf(cfg, size).realSize;
                    && (forall u | u in live ::
                          Beyond(live[u], raw, top) && !(raw <= live[u].header < top) && live[u].header != spare)
                    && !(raw <= spare < top)
      modifies this
      ensures Valid()
      ensures !Guards(size) ==> user == plain && live == old(live) && headers == old(headers) && others == old(others)
      ensures Guards(size) && raw == NULL ==> user == NULL && live == old(live)
      ensures Guards(size) && raw != NULL ==>
                && user !in old(live) && user == raw + LayoutOf(cfg, size).userOffset
                && live == old(live)[user := Block(raw, size, HeaderAt(raw, size, spare))]
      ensures Guards(size) && raw != NULL ==>
                var l := LayoutOf(cfg, size);
                if cfg.underrun then user == raw + cfg.pageSize
                else
                  var guardPage := raw + l.realSize - cfg.pageSize;
                  user + size <= guardPage && (!l.extra ==> guardPage - (user + size) < Grain(cfg))
    {
      hide RoundUp, Divides, Distinct, LayoutOf, Beyond, Placed;
      if size < cfg.minSize || size > cfg.maxSize {
        return plain;
      }
      if raw == NULL {
        return NULL;
      }
      var l := ComputeLayout(cfg, size);
      InsideLayout(cfg, size);
      CloseLayout(size);
      assert raw + l.userOffset !in live by { NewUser(raw, size); }
      user := raw + l.userOffset;
      Register(user, raw, size, if l.embedded then EmbeddedAt(raw) else spare, l.embedded);
    }

    /** Writes the header of a new block, and puts it into the list when it is outside of the block. */
    method Register(user: Address, raw: Address, size: nat, header: Address, embedded: bool)
      requires Valid() && user !in live && Divides(cfg.pageSize, raw)
      requires forall u | u in live :: live[u].header != header
      requires var l := LayoutOf(cfg, size);
               user == raw + l.userOffset && embedded == l.embedded && (embedded ==> header == EmbeddedAt(raw))
      modifies this
      ensures Valid() && live == old(live)[user := Block(raw, size, header)]
    {
      hide RoundUp, Divides, Distinct, LayoutOf;
      DistinctPush(others, header);
      if !embedded {
        others := others + [header];
      }
      headers := headers[header := Header(user, raw, size, true)];
      live := live[user := Block(raw, size, header)];
    }

    /** Searches the headers outside of blocks. */
    method FindOther(u: Address, raw: int) returns (i: nat)
      requires Valid()
      ensures i <= |others|
      ensures i < |others| ==> headers[others[i]].mine && headers[others[i]].user == u && headers[others[i]].raw == raw
      ensures i == |others| ==> forall h | h in others :: !(headers[h].user == u && headers[h].raw == raw)
    {
      i := 0;
      while i < |others|
        invariant i <= |others|
        invariant forall j | 0 <= j < i :: !(headers[others[j]].user == u && headers[others[j]].raw == raw)
      {
        assert others[i] in others;
        if headers[others[i]].mine && headers[others[i]].user == u && headers[others[i]].raw == raw {
          return;
        }
        i := i + 1;
      }
    }

    /** Takes the signature off a header that has been recognised. */
    method Ground(h: Address, ghost u: Address)
      requires Valid() && u in live && live[u].header == h
      requires h in others ==> exists i :: 0 <= i < |others| && others[i] == h
      modifies this`headers, this`others, this`live
      ensures Valid() && live == old(live) - {u} && h in headers && !headers[h].mine
    {
      hide RoundUp, Divides, Distinct, LayoutOf;
      headers := headers[h := headers[h].(mine := false)];
      if h in others {
        var i :| 0 <= i < |others| && others[i] == h;
        WithoutOne(others, i);
        others := others[..i] + others[i + 1..];
      }
      live := live - {u};
    }

    /** A header with an intact signature and the right addresses is that of the block. */
    lemma Recognised(h: Address, u: Address)
      requires Valid() && h in headers && headers[h].mine && headers[h].user == u
      ensures u in live && live[u].header == h && headers[h] == Header(u, live[u].raw, live[u].size, true)
    {
      hide RoundUp, Divides, Distinct, LayoutOf;
      assert Placed(u);
    }

    /** Against overruns, every header is in its block. */
    lemma NoneOutside(u: Address, i: nat)
      requires Valid() && !cfg.underrun && i < |others| && headers[others[i]].user == u
      ensures false
    {
      hide RoundUp, Divides, Distinct;
      assert others[i] in others;
      Recognised(others[i], u);
      assert Placed(u);
    }

    /** Where a block in use has its header. */
    lemma HeaderOf(u: Address)
      requires Valid() && u in live
      ensures var b := live[u];
              var l := LayoutOf(cfg, b.size);
              && b.header in headers && headers[b.header] == Header(u, b.raw, b.size, true)
              && (l.embedded ==> b.header == EmbeddedAt(b.raw)) && (!l.embedded ==> b.header in others)
              && u == b.raw + l.userOffset
              && (if cfg.underrun then u % cfg.pageSize == 0 && b.raw == u - cfg.pageSize
                  else l.embedded && b.raw == RoundDown(u, cfg.pageSize) && u - b.raw >= HEADER)
    {
      hide RoundUp;
      assert Placed(u);
      var b := live[u];
      var p := cfg.pageSize;
      if cfg.underrun {
        DividesItself(p);
        DividesPlus(p, b.raw, p);
        DividesMod(p, u);
      } else {
        OverrunLayout(cfg, b.size);
        RoundDownIs(u, p);
        MultipleUnique(p, b.raw, RoundDown(u, p));
      }
    }

    /** Whether the block at `u` is one of ours, and if so which one; its header is then given up. */
    method VerifyBlock(u: Address) returns (v: Verdict)
      requires Valid() && u > 0
      modifies this`headers, this`others, this`live
      ensures Valid()
      ensures v.Found? <==> u in old(live)
      ensures v.Abort? <==> !cfg.underrun && u - RoundDown(u, cfg.pageSize) >= HEADER
                            && RoundDown(u, cfg.pageSize) in old(headers)
                                 && !old(headers)[RoundDown(u, cfg.pageSize)].mine
      ensures v.Found? && !cfg.underrun ==>
                && u - RoundDown(u, cfg.pageSize) >= HEADER
                && RoundDown(u, cfg.pageSize) in headers && !headers[RoundDown(u, cfg.pageSize)].mine
      ensures u !in old(live) ==> live == old(live)
      ensures u in old(live) ==>
                var b := old(live)[u];
                && live == old(live) - {u} && v.raw == b.raw && v.size == b.size && v.rawSize == Recovered(cfg, b.size)
                && v.deadPage == if cfg.underrun then b.raw else b.raw + v.rawSize - cfg.pageSize
    {
      hide RoundUp, RoundDown, Divides, Distinct, LayoutOf, Recovered, Placed;
      var p := cfg.pageSize;
      ghost var mine := u in live;
      if mine {
        HeaderOf(u);
      }
      if cfg.underrun {
        if u % p > 0 {
          return NotMine;
        }
        var raw := u - p;
        var h := u + p - HEADER;
        if h in headers && headers[h].mine && headers[h].user == u && headers[h].raw == raw {
          Recognised(h, u);
          var size := headers[h].size;
          v := Found(headers[h].raw, raw, size, Recovered(cfg, size));
          Ground(h, u);
        } else {
          var i := FindOther(u, raw);
          if i == |others| {
            return NotMine;
          }
          h := others[i];
          Recognised(h, u);
          var size := headers[h].size;
          v := Found(headers[h].raw, raw, size, Recovered(cfg, size));
          Ground(h, u);
        }
      } else {
        var raw := RoundDown(u, p);
        if u - raw < HEADER {
          // The list is searched all the same, but a layout against overruns never puts a header there.
          var i := FindOther(u, raw);
          if i < |others| {
            NoneOutside(u, i);
            assert false;
          }
          return NotMine;
        } else if raw in headers && !headers[raw].mine {
          return Abort;
        } else if raw in headers && headers[raw].user == u && headers[raw].raw == raw {
          Recognised(raw, u);
          var size := headers[raw].size;
          v := Found(raw, raw + Recovered(cfg, size) - p, size, Recovered(cfg, size));
          Ground(raw, u);
        } else {
          return NotMine;
        }
      }
    }

    /** A header inside a block overlaps neither the user's bytes nor the guard page. */
    lemma HeaderClear(u: Address)
      requires Valid() && u in live && LayoutOf(cfg, live[u].size).embedded
      ensures var b := live[u];
              var h, top := b.header, b.raw + LayoutOf(cfg, b.size).realSize;
              && b.raw <= h && h + HEADER <= top && (h + HEADER <= u || u + b.size <= h)
              && if cfg.underrun then b.raw + cfg.pageSize <= h else h + HEADER <= top - cfg.pageSize
    {
      hide RoundUp, Divides, LayoutOf;
      assert Placed(u);
      if cfg.underrun {
        UnderrunLayout(cfg, live[u].size);
      } else {
        OverrunLayout(cfg, live[u].size);
      }
    }

    /** What is recovered is the block as it was laid out, except for the raw size, and with it the
        guard page, when a page has been added for the header. */
    lemma RecoveredRight(u: Address)
      requires Valid() && u in live
      ensures var b := live[u];
              var l := LayoutOf(cfg, b.size);
              && (Recovered(cfg, b.size) == l.realSize <==> !l.extra)
              && (!l.extra ==> Divides(cfg.pageSize, b.raw + l.realSize - cfg.pageSize))
              && (cfg.underrun ==> !l.extra)
    {
      assert Placed(u);
      var b, p := live[u], cfg.pageSize;
      if cfg.underrun {
        UnderrunLayout(cfg, b.size);
      } else {
        OverrunLayout(cfg, b.size);
      }
      hide RoundUp, Divides, LayoutOf, Recovered;
      DividesItself(p);
      DividesPlus(p, b.raw, LayoutOf(cfg, b.size).realSize);
      DividesMinus(p, b.raw + LayoutOf(cfg, b.size).realSize, p);
    }
  }

  /** A block that is freed twice. Against overruns, the header without a signature gives the second free
      away; against underruns, the block is then taken for somebody else's. */
  method VerifyTwice(pages: DeadPages, u: Address) returns (first: Verdict, second: Verdict)
    requires pages.Valid() && u > 0 && u in pages.live
    modifies pages
    ensures pages.Valid() && first.Found? && pages.live == old(pages.live) - {u}
    ensures second == if pages.cfg.underrun then NotMine else Abort
  {
    first := pages.VerifyBlock(u);
    second := pages.VerifyBlock(u);
  }

  /** The user's address, and a header in the block, are inside the block, unless it is an empty one
      against underruns. */
  lemma InsideLayout(cfg: Setting, size: nat)
    requires cfg.Good()
    ensures var l := LayoutOf(cfg, size);
            && l.realSize > 0 && (l.userOffset < l.realSize <==> !cfg.underrun || size > 0)
            && (l.embedded ==> (if cfg.underrun then 2 * cfg.pageSize - HEADER else 0) < l.realSize)
            && (!cfg.underrun ==> l.embedded && HEADER <= l.userOffset < cfg.pageSize)
            && (cfg.underrun ==> l.userOffset == cfg.pageSize)
  {
    if cfg.underrun {
      UnderrunLayout(cfg, size);
      DividesItself(cfg.pageSize);
    } else {
      OverrunLayout(cfg, size);
    }
  }
}
