/** Entries of the procedure linkage table of 64-bit SPARC: writing a branch to a function, and reading the
    function off an entry again. */
module SparcPlt {

  const M_CALL: bv32 := 0x4000_0000
  const M_JMPL: bv32 := 0x81c0_6000
  const M_NOP: bv32 := 0x0100_0000
  const M_BA_A: bv32 := 0x3080_0000
  const M_BA_A_PT: bv32 := 0x3048_0000
  const M_BA_A_XCC: bv32 := 0x3068_0000
  const M_JMPL_G5G0: bv32 := 0x81c1_6000
  const M_XNOR_G5G1: bv32 := 0x8239_6000
  const M_OR_G1G5G5: bv32 := 0x8a10_4005
  const M_SLLX_G132G1: bv32 := 0x8328_7020
  const M_OR_G1G1: bv32 := 0x8210_6000
  const M_SETHI_G5: bv32 := 0x0b00_0000
  const M_SETHI_G1: bv32 := 0x0300_0000
  const M_JMPL_G1G0: bv32 := 0x81c0_6000
  const M_SLLX_G112G1: bv32 := 0x8328_700c

  // ---------------------------------------------------------------- branches

  /** A signed number of 64 bits in a range of 2 to the power of 20, or 23, on either side. */
  predicate Near20(v: bv64) {
    v < 0x10_0000 || v >= 0xffff_ffff_fff0_0000
  }

  predicate Near23(v: bv64) {
    v < 0x80_0000 || v >= 0xffff_ffff_ff80_0000
  }

  /** The branch over a displacement. */
  function Branch19(d: bv64): bv32 {
    M_BA_A_PT | ((0x7_ffff & (d >> 2)) as bv32)
  }

  function Branch22(d: bv64): bv32 {
    M_BA_A | ((0x3f_ffff & (d >> 2)) as bv32)
  }

  /** A word as a signed number of 64 bits. */
  function SignExtend(x: bv32): bv64 {
    if x & 0x8000_0000 != 0 then (x as bv64) | 0xffff_ffff_0000_0000 else x as bv64
  }

  /** Shifts of a signed word to the right. */
  function ShiftRight8(x: bv32): bv32 {
    if x & 0x8000_0000 != 0 then (x >> 8) | 0xff00_0000 else x >> 8
  }

  function ShiftRight11(x: bv32): bv32 {
    if x & 0x8000_0000 != 0 then (x >> 11) | 0xffe0_0000 else x >> 11
  }

  /** The displacement of a branch: shifted to the left to get the sign bit to the top, and to the right
      again as a signed number. The mask of the short branch is that of the long one. */
  function Displacement19(word: bv32): bv64 {
    SignExtend(ShiftRight11((word & 0x3f_ffff) << 13))
  }

  function Displacement22(word: bv32): bv64 {
    SignExtend(ShiftRight8((word & 0x3f_ffff) << 10))
  }

  /** The comparison of a word, which is a signed number, with an unsigned constant, both as numbers of 64
      bits. It fails for every constant with the top bit set. */
  predicate HasOpcode(word: bv32, mask: bv64, opcode: bv32) {
    SignExtend(word) & !mask == opcode as bv64
  }

  lemma Forward22(d: bv64)
    requires d < 0x80_0000
    ensures Displacement22(Branch22(d)) == d & !3
  {
  }

  lemma Backward22(d: bv64)
    requires d >= 0xffff_ffff_ff80_0000
    ensures Displacement22(Branch22(d)) == d & !3
  {
  }

  lemma Forward19(d: bv64)
    requires d < 0x10_0000
    ensures Displacement19(Branch19(d)) == d & !3
  {
  }

  lemma Backward19(d: bv64)
    requires d >= 0xffff_ffff_fff0_0000
    ensures Displacement19(Branch19(d)) == d & !3
  {
  }

  lemma Opcodes(d: bv64)
    ensures HasOpcode(Branch22(d), 0x3f_ffff, M_BA_A)
    ensures !HasOpcode(Branch19(d), 0x3f_ffff, M_BA_A) && HasOpcode(Branch19(d), 0x7_ffff, M_BA_A_PT)
  {
  }

  /** The branches within 23 bits give the displacement back, without its two low bits. */
  lemma NearBranch22(d: bv64)
    requires Near23(d)
    ensures Displacement22(Branch22(d)) == d & !3
  {
    hide Branch22, Displacement22;
    if d < 0x80_0000 {
      Forward22(d);
    } else {
      Backward22(d);
    }
  }

  /** So do the ones within 20 bits. */
  lemma NearBranch19(d: bv64)
    requires Near20(d)
    ensures Displacement19(Branch19(d)) == d & !3
  {
    hide Branch19, Displacement19;
    if d < 0x10_0000 {
      Forward19(d);
    } else {
      Backward19(d);
    }
  }

  lemma NegativeOpcode(word: bv32)
    ensures !HasOpcode(word, 0x1fff, M_JMPL_G5G0) && !HasOpcode(word, 0x1fff, M_XNOR_G5G1)
  {
  }

  // ---------------------------------------------------------------- writing an entry

  /** How far the function is from the instruction behind the branch. */
  function Displacement(plt: bv64, f: bv64): bv64 {
    f - plt - 4
  }

  /** The function is in the top 32 bits, or 44 bits, of the address space. */
  predicate Top32(f: bv64) {
    !f >> 32 == 0
  }

  predicate Top44(f: bv64) {
    !f >> 44 == 0
  }

  // The instructions that load an address in parts.

  function SethiTop32(f: bv64): bv32 { M_SETHI_G5 | (((!f >> 10) & 0x3f_ffff) as bv32) }
  function XnorTop32(f: bv64): bv32 { M_XNOR_G5G1 | ((!f & 0x3ff) as bv32) }

  function SethiTop44(f: bv64): bv32 { M_SETHI_G5 | (((!f >> 22) & 0x3f_ffff) as bv32) }
  function XnorTop44(f: bv64): bv32 { M_XNOR_G5G1 | (((!f >> 12) & 0x3ff) as bv32) }
  function JmplTop44(f: bv64): bv32 { M_JMPL_G1G0 | ((f & 0xfff) as bv32) }

  function SethiHigh(f: bv64): bv32 { M_SETHI_G1 | (((f >> 42) & 0x3f_ffff) as bv32) }
  function SethiLow(f: bv64): bv32 { M_SETHI_G5 | (((f >> 10) & 0x3f_ffff) as bv32) }
  function OrHigh(f: bv64): bv32 { M_OR_G1G1 | (((f >> 32) & 0x3ff) as bv32) }
  function JmplLow(f: bv64): bv32 { M_JMPL_G5G0 | ((f & 0x3ff) as bv32) }

  /** An entry that begins with the given instructions. */
  function With(code: seq<bv32>, words: seq<bv32>): (r: seq<bv32>)
    requires |code| <= |words|
    ensures |r| == |words|
  {
    code + words[|code|..]
  }

  /** The entry after it has been made to go to `f`. */
  function Patched(words: seq<bv32>, plt: bv64, f: bv64): (r: seq<bv32>)
    requires |words| == 8
    ensures |r| == 8
  {
    var d := Displacement(plt, f);
    if Near23(d) then With([M_NOP, if Near20(d) then Branch19(d) else Branch22(d), M_NOP], words)
    else if Top32(f) then With([M_NOP, SethiTop32(f), XnorTop32(f), M_JMPL_G1G0], words)
    else if Top44(f) then With([M_NOP, SethiTop44(f), XnorTop44(f), M_SLLX_G112G1, JmplTop44(f)], words)
    else With([M_NOP, SethiHigh(f), SethiLow(f), OrHigh(f), M_SLLX_G132G1, M_OR_G1G5G5, JmplLow(f)], words)
  }

  /** Patches an entry in place; the words that are reached first are written last. */
  method SetFunctionPtr(entry: array<bv32>, plt: bv64, f: bv64)
    requires entry.Length == 8
    modifies entry
    ensures entry[..] == Patched(old(entry[..]), plt, f)
  {
    hide Near20, Near23, Top32, Top44, Displacement, Branch19;
    hide Branch22, SethiTop32, XnorTop32, SethiTop44, XnorTop44, JmplTop44;
    hide SethiHigh, SethiLow, OrHigh, JmplLow, With;
    var disp := Displacement(plt, f);
    if Near23(disp) {
      WriteBranch(entry, if Near20(disp) then Branch19(disp) else Branch22(disp));
    } else if Top32(f) {
      WriteTop32(entry, SethiTop32(f), XnorTop32(f));
    } else if Top44(f) {
      WriteTop44(entry, SethiTop44(f), XnorTop44(f), JmplTop44(f));
    } else {
      WriteFar(entry, SethiHigh(f), SethiLow(f), OrHigh(f), JmplLow(f));
    }
  }

  method WriteBranch(entry: array<bv32>, branch: bv32)
    requires entry.Length == 8
    modifies entry
    ensures entry[..] == With([M_NOP, branch, M_NOP], old(entry[..]))
  {
    entry[2] := M_NOP;
    entry[1] := branch;
    entry[0] := M_NOP;
  }

  method WriteTop32(entry: array<bv32>, sethi: bv32, xnor: bv32)
    requires entry.Length == 8
    modifies entry
    ensures entry[..] == With([M_NOP, sethi, xnor, M_JMPL_G1G0], old(entry[..]))
  {
    entry[3] := M_JMPL_G1G0;
    entry[2] := xnor;
    entry[0], entry[1] := M_NOP, sethi;
  }

  method WriteTop44(entry: array<bv32>, sethi: bv32, xnor: bv32, jmpl: bv32)
    requires entry.Length == 8
    modifies entry
    ensures entry[..] == With([M_NOP, sethi, xnor, M_SLLX_G112G1, jmpl], old(entry[..]))
  {
    entry[4] := jmpl;
    entry[3] := M_SLLX_G112G1;
    entry[2] := xnor;
    entry[0], entry[1] := M_NOP, sethi;
  }

  method WriteFar(entry: array<bv32>, high: bv32, low: bv32, or: bv32, jmpl: bv32)
    requires entry.Length == 8
    modifies entry
    ensures entry[..] == With([M_NOP, high, low, or, M_SLLX_G132G1, M_OR_G1G5G5, jmpl], old(entry[..]))
  {
    entry[6] := jmpl;
    entry[5] := M_OR_G1G5G5;
    entry[4] := M_SLLX_G132G1;
    entry[3] := or;
    entry[2] := low;
    entry[0], entry[1] := M_NOP, high;
  }

  // ---------------------------------------------------------------- reading an entry

  function LoadedTop32(sethi: bv32, xnor: bv32): bv64 {
    (((sethi & 0x3f_ffff) as bv64) << 10) ^ !((xnor & 0x3ff) as bv64)
  }

  function LoadedTop44(sethi: bv32, xnor: bv32, jmpl: bv32): bv64 {
    var h44 := (SignExtend(sethi) & 0x3f_ffff) << 10;
    var m44 := ((SignExtend(xnor) & 0x1fff) << 41) >> 41;
    var l44 := ((SignExtend(jmpl) & 0x1fff) << 41) >> 41;
    (!(h44 ^ m44) << 12) + l44
  }

  function Loaded64(high: bv32, low: bv32, or: bv32, jmpl: bv32): bv64 {
    (((high & 0x3f_ffff) as bv64) << 42) | (((or & 0x3ff) as bv64) << 32) | (((low & 0x3f_ffff) as bv64) << 10) |
    ((jmpl & 0x3ff) as bv64)
  }

  /** Where a branch lands. */
  function Landing(plt: bv64, d: bv64): bv64 {
    plt + 4 + d
  }

  /** A displacement in whole words. */
  function WholeWords(d: bv64): bv64 {
    d & !3
  }

  /** The function that an entry goes to, 0 when that cannot be told. */
  function Target(words: seq<bv32>, plt: bv64): bv64
    requires |words| == 8
  {
    if words[0] != M_NOP && HasOpcode(words[1], 0x7_ffff, M_BA_A_XCC) then 0
    else if words[0] == M_NOP && HasOpcode(words[1], 0x3f_ffff, M_BA_A) then Landing(plt, Displacement22(words[1]))
    else if words[0] == M_NOP && HasOpcode(words[1], 0x7_ffff, M_BA_A_PT) then Landing(plt, Displacement19(words[1]))
    else if HasOpcode(words[6], 0x1fff, M_JMPL_G5G0) then Loaded64(words[1], words[2], words[3], words[6])
    else if words[3] == M_JMPL then LoadedTop32(words[1], words[2])
    else if HasOpcode(words[2], 0x1fff, M_XNOR_G5G1) then LoadedTop44(words[1], words[2], words[4])
    else 0
  }

  lemma OpcodesTop32(f: bv64)
    requires Top32(f)
    ensures LoadedTop32(SethiTop32(f), XnorTop32(f)) == f
    ensures !HasOpcode(SethiTop32(f), 0x3f_ffff, M_BA_A) && !HasOpcode(SethiTop32(f), 0x7_ffff, M_BA_A_PT)
  {
  }

  lemma OpcodesFar(f: bv64)
    ensures !HasOpcode(SethiTop44(f), 0x3f_ffff, M_BA_A) && !HasOpcode(SethiTop44(f), 0x7_ffff, M_BA_A_PT)
    ensures !HasOpcode(SethiHigh(f), 0x3f_ffff, M_BA_A) && !HasOpcode(SethiHigh(f), 0x7_ffff, M_BA_A_PT)
    ensures M_SLLX_G112G1 != M_JMPL && OrHigh(f) != M_JMPL
  {
  }

  lemma ReadBranch22(r: seq<bv32>, plt: bv64, d: bv64)
    requires |r| == 8 && r[0] == M_NOP && Near23(d) && r[1] == Branch22(d)
    ensures Target(r, plt) == Landing(plt, WholeWords(d))
  {
    hide HasOpcode, Displacement19, Displacement22, Branch22, Near23, Landing, LoadedTop32, LoadedTop44, Loaded64;
    Opcodes(d);
    NearBranch22(d);
  }

  lemma ReadBranch19(r: seq<bv32>, plt: bv64, d: bv64)
    requires |r| == 8 && r[0] == M_NOP && Near20(d) && r[1] == Branch19(d)
    ensures Target(r, plt) == Landing(plt, WholeWords(d))
  {
    hide HasOpcode, Displacement19, Displacement22, Branch19, Near20, Landing, LoadedTop32, LoadedTop44, Loaded64;
    Opcodes(d);
    NearBranch19(d);
  }

  lemma ReadTop32(r: seq<bv32>, plt: bv64, f: bv64)
    requires |r| == 8 && r[0] == M_NOP && Top32(f) && r[1] == SethiTop32(f) && r[2] == XnorTop32(f)
    requires r[3] == M_JMPL_G1G0
    ensures Target(r, plt) == f
  {
    hide HasOpcode, Displacement19, Displacement22, Top32, SethiTop32, XnorTop32, LoadedTop32, LoadedTop44, Loaded64;
    OpcodesTop32(f);
    NegativeOpcode(r[6]);
  }

  lemma ReadFar(r: seq<bv32>, plt: bv64)
    requires |r| == 8 && r[0] == M_NOP && r[3] != M_JMPL
    requires !HasOpcode(r[1], 0x3f_ffff, M_BA_A) && !HasOpcode(r[1], 0x7_ffff, M_BA_A_PT)
    ensures Target(r, plt) == 0
  {
    hide HasOpcode, Displacement19, Displacement22, LoadedTop32, LoadedTop44, Loaded64;
    NegativeOpcode(r[6]);
    NegativeOpcode(r[2]);
  }

  /** What is read off an entry that has just been written: where the branch lands for a near function, the
      function itself in the top 32 bits, and nothing otherwise. What was in the entry before does not matter. */
  lemma WrittenIsRead(words: seq<bv32>, plt: bv64, f: bv64)
    requires |words| == 8
    ensures Target(Patched(words, plt, f), plt) ==
            if Near23(Displacement(plt, f)) then Landing(plt, WholeWords(Displacement(plt, f))) else if Top32(f)
              then f else 0
  {
    hide HasOpcode, Branch19, Branch22, Displacement, Near20, Near23, Top32, Top44, Target,
         SethiTop32, XnorTop32, SethiTop44, XnorTop44, JmplTop44, SethiHigh, SethiLow, OrHigh, JmplLow;
    var r := Patched(words, plt, f);
    if Near23(Displacement(plt, f)) {
      if Near20(Displacement(plt, f)) {
        ReadBranch19(r, plt, Displacement(plt, f));
      } else {
        ReadBranch22(r, plt, Displacement(plt, f));
      }
    } else if Top32(f) {
      ReadTop32(r, plt, f);
    } else {
      OpcodesFar(f);
      ReadFar(r, plt);
    }
  }

  lemma LandsThere(plt: bv64, f: bv64)
    ensures forall d: bv64 :: d == f - plt - 4 ==> Landing(plt, d) == f
  {
  }

  lemma LandsFrom(plt: bv64, d: bv64)
    ensures forall f: bv64 :: f == plt + 4 + d ==> Displacement(plt, f) == d
  {
  }

  lemma LandsAt(plt: bv64, f: bv64)
    ensures Landing(plt, Displacement(plt, f)) == f
  {
    hide Landing;
    LandsThere(plt, f);
  }

  /** Only the displacement of a function lands there. */
  lemma LandsOnce(plt: bv64, f: bv64, d: bv64)
    requires Landing(plt, d) == f
    ensures d == Displacement(plt, f)
  {
    hide Displacement;
    LandsFrom(plt, d);
  }

  lemma WholeWord(d: bv64)
    ensures d & 3 == 0 <==> WholeWords(d) == d
  {
  }

  /** The function of a written entry is found again exactly when it is near and whole words away, or in
      the top 32 bits; the address 0 is found in the other cases, too. */
  lemma RoundTrip(words: seq<bv32>, plt: bv64, f: bv64)
    requires |words| == 8
    ensures Target(Patched(words, plt, f), plt) == f <==>
            if Near23(Displacement(plt, f)) then Displacement(plt, f) & 3 == 0 else Top32(f) || f == 0
  {
    hide Target, Patched, Near23, Top32, Landing, WholeWords, Displacement;
    WrittenIsRead(words, plt, f);
    WholeWord(Displacement(plt, f));
    LandsAt(plt, f);
    if Landing(plt, WholeWords(Displacement(plt, f))) == f {
      LandsOnce(plt, f, WholeWords(Displacement(plt, f)));
    }
  }

  /** A function more than 8 MB away, below the top 32 bits of the address space, is not read back. */
  lemma FarIsLost(words: seq<bv32>)
    requires |words| == 8
    ensures Target(Patched(words, 0x10_0000, 0x1_2345_6780), 0x10_0000) == 0
  {
    WrittenIsRead(words, 0x10_0000, 0x1_2345_6780);
    assert Displacement(0x10_0000, 0x1_2345_6780) == 0x1_2335_677c;
    assert !Near23(0x1_2335_677c) && !Top32(0x1_2345_6780);
  }

  /** The function that `InterceptFunction` reports for an entry. */
  predicate Decodable(plt: bv64, f: bv64) {
    if Near23(Displacement(plt, f)) then Displacement(plt, f) & 3 == 0 else Top32(f)
  }

  /** Makes an entry go to another function, and reports the one it went to. */
  method InterceptFunction(entry: array<bv32>, plt: bv64, f: bv64) returns (was: bv64)
    requires entry.Length == 8
    modifies entry
    ensures was == Target(old(entry[..]), plt) && entry[..] == Patched(old(entry[..]), plt, f)
  {
    hide Target, Patched;
    was := Target(entry[..], plt);
    SetFunctionPtr(entry, plt, f);
  }

  /** A second interception reports the function of the first one. */
  method InterceptTwice(entry: array<bv32>, plt: bv64, f: bv64, g: bv64) returns (first: bv64, second: bv64)
    requires entry.Length == 8
    modifies entry
    ensures first == Target(old(entry[..]), plt)
    ensures Decodable(plt, f) ==> second == f
  {
    hide Target, Patched, Near23, Top32, Displacement;
    ghost var words := entry[..];
    first := InterceptFunction(entry, plt, f);
    RoundTrip(words, plt, f);
    second := InterceptFunction(entry, plt, g);
  }

  // ---------------------------------------------------------------- call instructions

  /** A call instruction whose callee is known. */
  predicate IsBound(word: bv32) {
    word & 0xc000_0000 == M_CALL && word & 0x3fff_ffff != 0
  }

  /** The displacement of a call, in bytes. The 30 bits are taken as an unsigned number. */
  function CallDisplacement(word: bv32): bv64 {
    ((word & 0x3fff_ffff) as bv64) << 2
  }

  /** The callee of a call instruction, 0 when it is none or not bound. */
  function Callee(word: bv32, at: bv64): bv64 {
    if IsBound(word) then Landing(at, CallDisplacement(word)) else 0
  }

  /** The displacement fits in 30 bits as an unsigned number of words. */
  predicate InReach(d: bv64) {
    (d >> 2) & 0xffff_ffff_c000_0000 == 0
  }

  lemma ReachIs(d: bv64)
    ensures InReach(d) <==> d < 0x1_0000_0000
  {
  }

  function Call(d: bv64): bv32 {
    M_CALL | (((d >> 2) & 0x3fff_ffff) as bv32)
  }

  /** Makes a bound call instruction call `f`, when that is in reach, and reports the callee that was. */
  method FixCallLabel(code: array<bv32>, at: bv64, f: bv64) returns (ok: bool, was: bv64)
    requires code.Length > 0
    modifies code
    ensures ok <==> IsBound(old(code[0])) && Displacement(at, f) < 0x1_0000_0000
    ensures code[0] == if ok then Call(Displacement(at, f)) else old(code[0])
    ensures forall i | 1 <= i < code.Length :: code[i] == old(code[i])
    ensures ok ==> was == Callee(old(code[0]), at)
  {
    hide IsBound, InReach, CallDisplacement, Landing, Call, Displacement;
    ok, was := false, 0;
    ReachIs(Displacement(at, f));
    if IsBound(code[0]) {
      if InReach(Displacement(at, f)) {
        was := Landing(at, CallDisplacement(code[0]));
        code[0] := Call(Displacement(at, f));
        ok := true;
      }
    }
  }

  lemma CallBits(d: bv64)
    requires InReach(d)
    ensures IsBound(Call(d)) <==> d >> 2 != 0
    ensures CallDisplacement(Call(d)) == d & !3
  {
  }

  lemma WordsOf(d: bv64)
    ensures d & 3 == 0 ==> (d >> 2 != 0 <==> d != 0)
  {
  }

  /** The callee of a fixed call is found again exactly when it is whole words away, and not right behind
      the instruction, where the call looks as if it were not bound. */
  lemma CallRoundTrip(at: bv64, f: bv64)
    requires Displacement(at, f) < 0x1_0000_0000 && f != 0
    ensures Callee(Call(Displacement(at, f)), at) == f <==> Displacement(at, f) & 3 == 0 && Displacement(at, f) != 0
  {
    hide Landing, Displacement, InReach, IsBound, CallDisplacement, Call, WholeWords;
    var d := Displacement(at, f);
    ReachIs(d);
    CallBits(d);
    WordsOf(d);
    WholeWord(d);
    AsWholeWords(d);
    LandsAt(at, f);
    if Landing(at, WholeWords(d)) == f {
      LandsOnce(at, f, WholeWords(d));
    }
  }

  lemma AsWholeWords(d: bv64)
    ensures WholeWords(d) == d & !3
  {
  }
}
