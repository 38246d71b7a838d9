/** What the processor does with the instructions of an entry, told from the fields of the words alone. */
module SparcCpu {
  import opened SparcPlt

  /** The two registers that entries use. */
  datatype Registers = Registers(g1: bv64, g5: bv64)

  /** An instruction changes the registers, or goes elsewhere; others are not described here. */
  datatype Effect = Next(registers: Registers) | Goto(target: bv64) | Unknown

  // ---------------------------------------------------------------- fields

  function Format(w: bv32): bv32 { w >> 30 }

  /** Branches, and the loading of the upper part of a register, are told apart by three bits. */
  function Op2(w: bv32): bv32 { (w >> 22) & 7 }

  /** Arithmetic and jumps are told apart by six bits. */
  function Op3(w: bv32): bv32 { (w >> 19) & 0x3f }

  function Rd(w: bv32): bv32 { (w >> 25) & 0x1f }
  function Rs1(w: bv32): bv32 { (w >> 14) & 0x1f }
  function Rs2(w: bv32): bv32 { w & 0x1f }

  /** The second operand is in the instruction itself. */
  predicate Immediate(w: bv32) { w & 0x2000 != 0 }

  /** A shift of 64 bits, by a number in the instruction. */
  predicate LongShift(w: bv32) { w & 0x3000 == 0x3000 }
  function Count(w: bv32): bv6 { (w & 0x3f) as bv6 }

  /** A branch that is always taken and annuls the instruction behind it. */
  predicate AlwaysAnnul(w: bv32) { (w >> 25) & 0x1f == 0x18 }

  /** The upper 22 bits of a half of a register. */
  function Upper22(w: bv32): bv64 { ((w & 0x3f_ffff) as bv64) << 10 }

  function Signed13(w: bv32): bv64 {
    if w & 0x1000 != 0 then ((w & 0x1fff) as bv64) | 0xffff_ffff_ffff_e000 else (w & 0x1fff) as bv64
  }

  /** The distance of a branch in bytes, which the instruction has in words. */
  function Distance19(w: bv32): bv64 {
    (if w & 0x4_0000 != 0 then ((w & 0x7_ffff) as bv64) | 0xffff_ffff_fff8_0000 else (w & 0x7_ffff) as bv64) << 2
  }

  function Distance22(w: bv32): bv64 {
    (if w & 0x20_0000 != 0 then ((w & 0x3f_ffff) as bv64) | 0xffff_ffff_ffc0_0000 else (w & 0x3f_ffff) as bv64) << 2
  }

  function Distance30(w: bv32): bv64 {
    (if w & 0x2000_0000 != 0 then ((w & 0x3fff_ffff) as bv64) | 0xffff_ffff_c000_0000
     else (w & 0x3fff_ffff) as bv64) << 2
  }

  // ---------------------------------------------------------------- what is done with values

  function Plus(a: bv64, b: bv64): bv64 { a + b }
  function Or(a: bv64, b: bv64): bv64 { a | b }
  function Xnor(a: bv64, b: bv64): bv64 { !(a ^ b) }
  function ShiftLeft(a: bv64, n: bv6): bv64 { a << n }

  function Get(r: Registers, n: bv32): bv64 {
    if n == 1 then r.g1 else if n == 5 then r.g5 else 0
  }

  /** Register 0 stays 0, whatever is put into it. */
  function Set(r: Registers, n: bv32, v: bv64): Effect {
    if n == 0 then Next(r) else if n == 1 then Next(r.(g1 := v)) else if n == 5 then Next(r.(g5 := v)) else Unknown
  }

  // ---------------------------------------------------------------- instructions

  function Operand(w: bv32, r: Registers): bv64 {
    if Immediate(w) then Signed13(w) else Get(r, Rs2(w))
  }

  function Arithmetic(w: bv32, r: Registers): Effect {
    if Op3(w) == 0x02 then Set(r, Rd(w), Or(Get(r, Rs1(w)), Operand(w, r)))
    else if Op3(w) == 0x07 then Set(r, Rd(w), Xnor(Get(r, Rs1(w)), Operand(w, r)))
    else if Op3(w) == 0x25 && LongShift(w) then Set(r, Rd(w), ShiftLeft(Get(r, Rs1(w)), Count(w)))
    else if Op3(w) == 0x38 && Rd(w) == 0 then Goto(Plus(Get(r, Rs1(w)), Operand(w, r)))
    else Unknown
  }

  /** The instruction `w` at `pc`. */
  function Execute(w: bv32, r: Registers, pc: bv64): Effect {
    if Format(w) == 0 then
      if Op2(w) == 4 then Set(r, Rd(w), Upper22(w))
      else if Op2(w) == 2 && AlwaysAnnul(w) then Goto(Plus(pc, Distance22(w)))
      else if Op2(w) == 1 && AlwaysAnnul(w) then Goto(Plus(pc, Distance19(w)))
      else Unknown
    else if Format(w) == 1 then Goto(Plus(pc, Distance30(w)))
    else if Format(w) == 2 then Arithmetic(w, r)
    else Unknown
  }

  /** Where the words go from number `i` on, which is at `pc`. */
  function RunFrom(words: seq<bv32>, i: nat, r: Registers, pc: bv64): Effect
    requires i <= |words| <= 8
    decreases |words| - i
  {
    if i == |words| then Unknown
    else
      var e := Execute(words[i], r, pc);
      if e.Next? then RunFrom(words, i + 1, e.registers, Plus(pc, 4)) else e
  }

  // ---------------------------------------------------------------- the fields of entries

  lemma NopFields()
    ensures Format(M_NOP) == 0 && Op2(M_NOP) == 4 && Rd(M_NOP) == 0
  {
  }

  lemma SethiTop32Fields(f: bv64)
    ensures Format(SethiTop32(f)) == 0 && Op2(SethiTop32(f)) == 4 && Rd(SethiTop32(f)) == 5
    ensures Upper22(SethiTop32(f)) == ((!f >> 10) & 0x3f_ffff) << 10
  {
  }

  lemma SethiTop44Fields(f: bv64)
    ensures Format(SethiTop44(f)) == 0 && Op2(SethiTop44(f)) == 4 && Rd(SethiTop44(f)) == 5
    ensures Upper22(SethiTop44(f)) == ((!f >> 22) & 0x3f_ffff) << 10
  {
  }

  lemma SethiFarFields(f: bv64)
    ensures Format(SethiHigh(f)) == 0 && Op2(SethiHigh(f)) == 4 && Rd(SethiHigh(f)) == 1
    ensures Upper22(SethiHigh(f)) == ((f >> 42) & 0x3f_ffff) << 10
    ensures Format(SethiLow(f)) == 0 && Op2(SethiLow(f)) == 4 && Rd(SethiLow(f)) == 5
    ensures Upper22(SethiLow(f)) == ((f >> 10) & 0x3f_ffff) << 10
  {
  }

  lemma XnorFields(f: bv64)
    ensures var w := XnorTop32(f);
            && Format(w) == 2 && Op3(w) == 0x07 && Rd(w) == 1 && Rs1(w) == 5 && Immediate(w)
            && Signed13(w) == !f & 0x3ff
    ensures var w := XnorTop44(f);
            && Format(w) == 2 && Op3(w) == 0x07 && Rd(w) == 1 && Rs1(w) == 5 && Immediate(w)
            && Signed13(w) == (!f >> 12) & 0x3ff
  {
  }

  lemma OrFields(f: bv64)
    ensures var w := OrHigh(f);
            && Format(w) == 2 && Op3(w) == 0x02 && Rd(w) == 1 && Rs1(w) == 1 && Immediate(w)
            && Signed13(w) == (f >> 32) & 0x3ff
    ensures var w := M_OR_G1G5G5;
            Format(w) == 2 && Op3(w) == 0x02 && Rd(w) == 5 && Rs1(w) == 1 && !Immediate(w) && Rs2(w) == 5
  {
  }

  lemma ShiftFields()
    ensures var w := M_SLLX_G112G1;
            Format(w) == 2 && Op3(w) == 0x25 && Rd(w) == 1 && Rs1(w) == 1 && LongShift(w) && Count(w) == 12
    ensures var w := M_SLLX_G132G1;
            Format(w) == 2 && Op3(w) == 0x25 && Rd(w) == 1 && Rs1(w) == 1 && LongShift(w) && Count(w) == 32
  {
  }

  lemma JumpFields()
    ensures var w := M_JMPL_G1G0;
            Format(w) == 2 && Op3(w) == 0x38 && Rd(w) == 0 && Rs1(w) == 1 && Immediate(w) && Signed13(w) == 0
  {
  }

  lemma JumpTop44Fields(f: bv64)
    ensures var w := JmplTop44(f);
            && Format(w) == 2 && Op3(w) == 0x38 && Rd(w) == 0 && Rs1(w) == 1 && Immediate(w)
            && Signed13(w) == f & 0xfff
  {
  }

  lemma JumpLowFields(f: bv64)
    ensures var w := JmplLow(f);
            && Format(w) == 2 && Op3(w) == 0x38 && Rd(w) == 0 && Rs1(w) == 5 && Immediate(w)
            && Signed13(w) == f & 0x3ff
  {
  }

  lemma BranchFields(d: bv64)
    ensures Format(Branch19(d)) == 0 && Op2(Branch19(d)) == 1 && AlwaysAnnul(Branch19(d))
    ensures Format(Branch22(d)) == 0 && Op2(Branch22(d)) == 2 && AlwaysAnnul(Branch22(d))
  {
  }

  lemma Forward19s(d: bv64)
    requires d < 0x10_0000
    ensures Distance19(Branch19(d)) == d & !3
  {
  }

  lemma Backward19s(d: bv64)
    requires d >= 0xffff_ffff_fff0_0000
    ensures Distance19(Branch19(d)) == d & !3
  {
  }

  lemma Forward22s(d: bv64)
    requires d < 0x80_0000
    ensures Distance22(Branch22(d)) == d & !3
  {
  }

  lemma Backward22s(d: bv64)
    requires d >= 0xffff_ffff_ff80_0000
    ensures Distance22(Branch22(d)) == d & !3
  {
  }

  // ---------------------------------------------------------------- the values that are put together

  lemma Value32(f: bv64)
    requires Top32(f)
    ensures Plus(Xnor(((!f >> 10) & 0x3f_ffff) << 10, !f & 0x3ff), 0) == f
  {
  }

  lemma Value44(f: bv64)
    requires Top44(f)
    ensures Plus(ShiftLeft(Xnor(((!f >> 22) & 0x3f_ffff) << 10, (!f >> 12) & 0x3ff), 12), f & 0xfff) == f
  {
  }

  lemma Value64(f: bv64)
    ensures Plus(Or(ShiftLeft(Or(((f >> 42) & 0x3f_ffff) << 10, (f >> 32) & 0x3ff), 32), ((f >> 10) & 0x3f_ffff) << 10),
                 f & 0x3ff) == f
  {
  }

  // ---------------------------------------------------------------- running an entry

  lemma Steps(words: seq<bv32>, i: nat, r: Registers, pc: bv64)
    requires i < |words| <= 8
    ensures var e := Execute(words[i], r, pc);
            RunFrom(words, i, r, pc) == if e.Next? then RunFrom(words, i + 1, e.registers, Plus(pc, 4)) else e
  {
  }

  lemma SkipsNop(words: seq<bv32>, r: Registers, at: bv64)
    requires 0 < |words| <= 8 && words[0] == M_NOP
    ensures RunFrom(words, 0, r, at) == RunFrom(words, 1, r, Plus(at, 4))
  {
    hide Format, Op2, Rd, Upper22, Plus;
    NopFields();
    Steps(words, 0, r, at);
  }

  lemma Top32Goes(words: seq<bv32>, f: bv64, r: Registers, pc: bv64)
    requires |words| == 8 && Top32(f)
    requires words[1] == SethiTop32(f) && words[2] == XnorTop32(f) && words[3] == M_JMPL_G1G0
    ensures RunFrom(words, 1, r, pc) == Goto(f)
  {
    hide Format, Op2, Op3, Rd, Rs1, Rs2, Immediate, LongShift, Count, AlwaysAnnul, Upper22, Signed13;
    hide Distance19, Distance22, Distance30, Plus, Or, Xnor, ShiftLeft, SethiTop32, XnorTop32, Top32, RunFrom;
    SethiTop32Fields(f);
    XnorFields(f);
    JumpFields();
    Value32(f);
    var r1 := r.(g5 := ((!f >> 10) & 0x3f_ffff) << 10);
    var r2 := r1.(g1 := Xnor(r1.g5, !f & 0x3ff));
    Steps(words, 1, r, pc);
    Steps(words, 2, r1, Plus(pc, 4));
    Steps(words, 3, r2, Plus(Plus(pc, 4), 4));
  }

  lemma Top44Goes(words: seq<bv32>, f: bv64, r: Registers, pc: bv64)
    requires |words| == 8 && Top44(f)
    requires words[1] == SethiTop44(f) && words[2] == XnorTop44(f)
    requires words[3] == M_SLLX_G112G1 && words[4] == JmplTop44(f)
    ensures RunFrom(words, 1, r, pc) == Goto(f)
  {
    hide Format, Op2, Op3, Rd, Rs1, Rs2, Immediate, LongShift, Count, AlwaysAnnul, Upper22, Signed13;
    hide Distance19, Distance22, Distance30, Plus, Or, Xnor, ShiftLeft;
    hide SethiTop44, XnorTop44, JmplTop44, Top44, RunFrom;
    SethiTop44Fields(f);
    XnorFields(f);
    ShiftFields();
    JumpTop44Fields(f);
    Value44(f);
    var r1 := r.(g5 := ((!f >> 22) & 0x3f_ffff) << 10);
    var r2 := r1.(g1 := Xnor(r1.g5, (!f >> 12) & 0x3ff));
    var r3 := r2.(g1 := ShiftLeft(r2.g1, 12));
    Steps(words, 1, r, pc);
    Steps(words, 2, r1, Plus(pc, 4));
    Steps(words, 3, r2, Plus(Plus(pc, 4), 4));
    Steps(words, 4, r3, Plus(Plus(Plus(pc, 4), 4), 4));
  }

  /** Four of the six instructions that put a whole address together. */
  lemma FarLoads(words: seq<bv32>, f: bv64, r: Registers, pc: bv64)
    requires |words| == 8
    requires words[1] == SethiHigh(f) && words[2] == SethiLow(f) && words[3] == OrHigh(f) && words[4] == M_SLLX_G132G1
    ensures var high := ShiftLeft(Or(((f >> 42) & 0x3f_ffff) << 10, (f >> 32) & 0x3ff), 32);
            RunFrom(words, 1, r, pc) ==
            RunFrom(words, 5, Registers(high, ((f >> 10) & 0x3f_ffff) << 10), Plus(Plus(Plus(Plus(pc, 4), 4), 4), 4))
  {
    hide Format, Op2, Op3, Rd, Rs1, Rs2, Immediate, LongShift, Count, AlwaysAnnul, Upper22, Signed13;
    hide Distance19, Distance22, Distance30, Plus, Or, Xnor, ShiftLeft, SethiHigh, SethiLow, OrHigh, RunFrom;
    SethiFarFields(f);
    OrFields(f);
    ShiftFields();
    var r1 := r.(g1 := ((f >> 42) & 0x3f_ffff) << 10);
    var r2 := r1.(g5 := ((f >> 10) & 0x3f_ffff) << 10);
    var r3 := r2.(g1 := Or(r2.g1, (f >> 32) & 0x3ff));
    Steps(words, 1, r, pc);
    Steps(words, 2, r1, Plus(pc, 4));
    Steps(words, 3, r2, Plus(Plus(pc, 4), 4));
    Steps(words, 4, r3, Plus(Plus(Plus(pc, 4), 4), 4));
  }

  lemma FarGoes(words: seq<bv32>, f: bv64, r: Registers, pc: bv64)
    requires |words| == 8
    requires words[1] == SethiHigh(f) && words[2] == SethiLow(f) && words[3] == OrHigh(f) && words[4] == M_SLLX_G132G1
    requires words[5] == M_OR_G1G5G5 && words[6] == JmplLow(f)
    ensures RunFrom(words, 1, r, pc) == Goto(f)
  {
    hide Format, Op2, Op3, Rd, Rs1, Rs2, Immediate, LongShift, Count, AlwaysAnnul, Upper22, Signed13;
    hide Distance19, Distance22, Distance30, Plus, Or, Xnor, ShiftLeft, SethiHigh, SethiLow, OrHigh, JmplLow, RunFrom;
    FarLoads(words, f, r, pc);
    OrFields(f);
    JumpLowFields(f);
    Value64(f);
    var high := ShiftLeft(Or(((f >> 42) & 0x3f_ffff) << 10, (f >> 32) & 0x3ff), 32);
    var r1 := Registers(high, ((f >> 10) & 0x3f_ffff) << 10);
    var r2 := r1.(g5 := Or(r1.g1, r1.g5));
    Steps(words, 5, r1, Plus(Plus(Plus(Plus(pc, 4), 4), 4), 4));
    Steps(words, 6, r2, Plus(Plus(Plus(Plus(Plus(pc, 4), 4), 4), 4), 4));
  }

  lemma BranchGoes(words: seq<bv32>, d: bv64, r: Registers, at: bv64)
    requires |words| == 8 && Near23(d) && words[1] == (if Near20(d) then Branch19(d) else Branch22(d))
    ensures RunFrom(words, 1, r, Plus(at, 4)) == Goto(Landing(at, WholeWords(d)))
  {
    hide Format, Op2, Op3, Rd, Rs1, Rs2, Immediate, LongShift, Count, AlwaysAnnul, Upper22, Signed13;
    hide Distance19, Distance22, Distance30, Plus, Branch19, Branch22, Near20, Near23, WholeWords, Landing, RunFrom;
    BranchFields(d);
    Near22s(d);
    if Near20(d) {
      Near19s(d);
    }
    BehindFirst(at, WholeWords(d));
    Steps(words, 1, r, Plus(at, 4));
  }

  lemma Near19s(d: bv64)
    requires Near20(d)
    ensures Distance19(Branch19(d)) == WholeWords(d)
  {
    hide Distance19, Branch19, WholeWords;
    AsWholeWords(d);
    if d < 0x10_0000 {
      Forward19s(d);
    } else {
      Backward19s(d);
    }
  }

  lemma Near22s(d: bv64)
    requires Near23(d)
    ensures Distance22(Branch22(d)) == WholeWords(d)
  {
    hide Distance22, Branch22, WholeWords;
    AsWholeWords(d);
    if d < 0x80_0000 {
      Forward22s(d);
    } else {
      Backward22s(d);
    }
  }

  lemma BehindFirst(at: bv64, d: bv64)
    ensures Plus(Plus(at, 4), d) == Landing(at, d)
  {
    hide Plus, Landing;
    FourMore(at);
    LandsBehind(at, d);
  }

  lemma FourMore(at: bv64)
    ensures Plus(at, 4) == at + 4
  {
  }

  lemma LandsBehind(at: bv64, d: bv64)
    ensures forall x: bv64 :: x == at + 4 ==> Plus(x, d) == Landing(at, d)
  {
  }

  /** A patched entry goes where it should, whatever the registers and the old words are: to the function
      itself in the three forms that jump, and to the whole number of words of its distance in the two
      that branch. */
  lemma EntryGoes(words: seq<bv32>, plt: bv64, f: bv64, r: Registers)
    requires |words| == 8
    ensures RunFrom(Patched(words, plt, f), 0, r, plt) ==
            Goto(if Near23(Displacement(plt, f)) then Landing(plt, WholeWords(Displacement(plt, f))) else f)
  {
    hide Near20, Near23, Top32, Top44, Displacement, Branch19, Branch22, Landing, WholeWords, RunFrom;
    hide SethiTop32, XnorTop32, SethiTop44, XnorTop44, JmplTop44, SethiHigh, SethiLow, OrHigh, JmplLow, Plus;
    var patched, d := Patched(words, plt, f), Displacement(plt, f);
    SkipsNop(patched, r, plt);
    if Near23(d) {
      BranchGoes(patched, d, r, plt);
    } else if Top32(f) {
      Top32Goes(patched, f, r, Plus(plt, 4));
    } else if Top44(f) {
      Top44Goes(patched, f, r, Plus(plt, 4));
    } else {
      FarGoes(patched, f, r, Plus(plt, 4));
    }
  }

  /** It goes to the function iff that is far away or a whole number of words away. */
  lemma EntryGoesThere(words: seq<bv32>, plt: bv64, f: bv64, r: Registers)
    requires |words| == 8
    ensures RunFrom(Patched(words, plt, f), 0, r, plt) == Goto(f) <==>
            (Near23(Displacement(plt, f)) ==> Displacement(plt, f) & 3 == 0)
  {
    hide Patched, Near23, Displacement, Landing, WholeWords, RunFrom;
    EntryGoes(words, plt, f, r);
    LandsAt(plt, f);
    WholeWord(Displacement(plt, f));
    if Landing(plt, WholeWords(Displacement(plt, f))) == f {
      LandsOnce(plt, f, WholeWords(Displacement(plt, f)));
    }
  }

  // ---------------------------------------------------------------- reading

  /** An entry that branches: its words are told apart by all bits but those of the displacement. */
  predicate IsBranch22(words: seq<bv32>)
    requires |words| == 8
  {
    words[0] == M_NOP && words[1] & !0x3f_ffff == M_BA_A
  }

  predicate IsBranch19(words: seq<bv32>)
    requires |words| == 8
  {
    words[0] == M_NOP && words[1] & !0x7_ffff == M_BA_A_PT
  }

  /** An entry that jumps to the top 32 bits of the address space. */
  predicate IsTop32(words: seq<bv32>)
    requires |words| == 8
  {
    && words[0] == M_NOP && words[1] & !0x3f_ffff == M_SETHI_G5 && words[2] & !0x3ff == M_XNOR_G5G1
    && words[3] == M_JMPL
  }

  lemma Branch22Word(w: bv32)
    requires w & !0x3f_ffff == M_BA_A
    ensures Format(w) == 0 && Op2(w) == 2 && AlwaysAnnul(w) && HasOpcode(w, 0x3f_ffff, M_BA_A)
  {
  }

  lemma Branch19Word(w: bv32)
    requires w & !0x7_ffff == M_BA_A_PT
    ensures Format(w) == 0 && Op2(w) == 1 && AlwaysAnnul(w)
    ensures HasOpcode(w, 0x7_ffff, M_BA_A_PT) && !HasOpcode(w, 0x3f_ffff, M_BA_A)
  {
  }

  lemma Ahead22(w: bv32)
    requires w & 0x20_0000 == 0
    ensures Distance22(w) == ((w & 0x3f_ffff) as bv64) << 2
    ensures Displacement22(w) == ((w & 0x3f_ffff) as bv64) << 2
  {
  }

  lemma Back22(w: bv32)
    requires w & 0x20_0000 != 0
    ensures Distance22(w) == (((w & 0x3f_ffff) as bv64) | 0xffff_ffff_ffc0_0000) << 2
    ensures Displacement22(w) == (((w & 0x3f_ffff) as bv64) | 0xffff_ffff_ffc0_0000) << 2
  {
  }

  lemma Ahead19(w: bv32)
    requires w & 0x4_0000 == 0
    ensures Distance19(w) == ((w & 0x7_ffff) as bv64) << 2
    ensures Displacement19(w) == ((w & 0x7_ffff) as bv64) << 2
  {
  }

  lemma Back19(w: bv32)
    requires w & 0x4_0000 != 0
    ensures Distance19(w) == (((w & 0x7_ffff) as bv64) | 0xffff_ffff_fff8_0000) << 2
    ensures Displacement19(w) == (((w & 0x7_ffff) as bv64) | 0xffff_ffff_fff8_0000) << 2
  {
  }

  /** Shifting the field of a branch up and down again is taking it as a signed number. */
  lemma SameDistance(w: bv32)
    ensures Distance22(w) == Displacement22(w) && Distance19(w) == Displacement19(w)
  {
    hide Distance22, Displacement22, Distance19, Displacement19;
    if w & 0x20_0000 == 0 {
      Ahead22(w);
    } else {
      Back22(w);
    }
    if w & 0x4_0000 == 0 {
      Ahead19(w);
    } else {
      Back19(w);
    }
  }

  lemma SethiWord(w: bv32)
    requires w & !0x3f_ffff == M_SETHI_G5
    ensures Format(w) == 0 && Op2(w) == 4 && Rd(w) == 5
    ensures !HasOpcode(w, 0x3f_ffff, M_BA_A) && !HasOpcode(w, 0x7_ffff, M_BA_A_PT)
  {
  }

  lemma XnorWord(w: bv32)
    requires w & !0x3ff == M_XNOR_G5G1
    ensures Format(w) == 2 && Op3(w) == 0x07 && Rd(w) == 1 && Rs1(w) == 5 && Immediate(w)
    ensures Signed13(w) == (w & 0x3ff) as bv64
  {
  }

  lemma ReadTogether(sethi: bv32, xnor: bv32)
    ensures Plus(Xnor(Upper22(sethi), (xnor & 0x3ff) as bv64), 0) == LoadedTop32(sethi, xnor)
  {
  }

  lemma BranchRead(words: seq<bv32>, plt: bv64, r: Registers)
    requires |words| == 8 && (IsBranch22(words) || IsBranch19(words))
    ensures RunFrom(words, 0, r, plt) == Goto(Target(words, plt))
  {
    hide Format, Op2, Op3, Rd, Rs1, Rs2, Immediate, LongShift, Count, AlwaysAnnul, Upper22, Signed13, HasOpcode;
    hide Distance19, Distance22, Distance30, Plus, Displacement19, Displacement22, Landing, RunFrom;
    SkipsNop(words, r, plt);
    Steps(words, 1, r, Plus(plt, 4));
    SameDistance(words[1]);
    if IsBranch22(words) {
      Branch22Word(words[1]);
      BehindFirst(plt, Displacement22(words[1]));
    } else {
      Branch19Word(words[1]);
      BehindFirst(plt, Displacement19(words[1]));
    }
  }

  lemma Top32Read(words: seq<bv32>, plt: bv64, r: Registers)
    requires |words| == 8 && IsTop32(words)
    ensures RunFrom(words, 0, r, plt) == Goto(Target(words, plt))
  {
    hide Format, Op2, Op3, Rd, Rs1, Rs2, Immediate, LongShift, Count, AlwaysAnnul, Upper22, Signed13, HasOpcode;
    hide Distance19, Distance22, Distance30, Plus, Or, Xnor, ShiftLeft, Landing, LoadedTop32, RunFrom;
    SethiWord(words[1]);
    XnorWord(words[2]);
    JumpFields();
    NegativeOpcode(words[6]);
    ReadTogether(words[1], words[2]);
    SkipsNop(words, r, plt);
    var r1 := r.(g5 := Upper22(words[1]));
    var r2 := r1.(g1 := Xnor(r1.g5, (words[2] & 0x3ff) as bv64));
    Steps(words, 1, r, Plus(plt, 4));
    Steps(words, 2, r1, Plus(Plus(plt, 4), 4));
    Steps(words, 3, r2, Plus(Plus(Plus(plt, 4), 4), 4));
  }

  /** What is read off any entry, be it the linker's or a patched one: where it goes if it branches or jumps
      to the top 32 bits, and nothing if it does neither and has no jump of this kind as its fourth word. */
  lemma ReadGoes(words: seq<bv32>, plt: bv64, r: Registers)
    requires |words| == 8
    ensures IsBranch22(words) || IsBranch19(words) || IsTop32(words) ==>
              RunFrom(words, 0, r, plt) == Goto(Target(words, plt))
    ensures !IsBranch22(words) && !IsBranch19(words) && words[3] != M_JMPL ==> Target(words, plt) == 0
  {
    hide Target, HasOpcode, RunFrom;
    if IsBranch22(words) || IsBranch19(words) {
      BranchRead(words, plt, r);
    } else if IsTop32(words) {
      Top32Read(words, plt, r);
    } else if words[3] != M_JMPL {
      NothingRead(words, plt);
    }
  }

  lemma NothingRead(words: seq<bv32>, plt: bv64)
    requires |words| == 8 && !IsBranch22(words) && !IsBranch19(words) && words[3] != M_JMPL
    ensures Target(words, plt) == 0
  {
    hide HasOpcode, Landing, Loaded64, LoadedTop32, LoadedTop44, Displacement19, Displacement22;
    hide IsBranch22, IsBranch19;
    NegativeOpcode(words[6]);
    NegativeOpcode(words[2]);
    OpcodeIs(words);
  }

  lemma OpcodeIs(words: seq<bv32>)
    requires |words| == 8
    ensures IsBranch22(words) <==> words[0] == M_NOP && HasOpcode(words[1], 0x3f_ffff, M_BA_A)
    ensures IsBranch19(words) <==> words[0] == M_NOP && HasOpcode(words[1], 0x7_ffff, M_BA_A_PT)
  {
  }

  // ---------------------------------------------------------------- calls

  lemma CallFormat(d: bv64)
    ensures Format(Call(d)) == 1
  {
  }

  lemma CallForward(d: bv64)
    requires d < 0x8000_0000
    ensures Distance30(Call(d)) == d & !3
  {
  }

  lemma CallBackward(d: bv64)
    requires 0x8000_0000 <= d < 0x1_0000_0000
    ensures Distance30(Call(d)) == (d & !3) | 0xffff_ffff_0000_0000
  {
  }

  lemma CallExecutes(w: bv32, r: Registers, pc: bv64)
    requires Format(w) == 1
    ensures Execute(w, r, pc) == Goto(Plus(pc, Distance30(w)))
  {
    hide Format, Distance30, Plus;
  }

  /** A call to `f` that `FixCallLabel` has written at `at`: the processor counts from the call itself, so
      it gets to the word before `f` when `f` is a whole number of words ahead, by less than 2 GB ... */
  lemma CallGoesAhead(at: bv64, f: bv64, r: Registers)
    requires Displacement(at, f) < 0x8000_0000 && Displacement(at, f) & 3 == 0
    ensures Execute(Call(Displacement(at, f)), r, at) == Goto(f - 4)
  {
    hide Format, Distance30, Plus, Call, Displacement, Execute;
    CallFormat(Displacement(at, f));
    CallExecutes(Call(Displacement(at, f)), r, at);
    WholeWordsKept(Displacement(at, f));
    CallForward(Displacement(at, f));
    ShortOf(at, f);
  }

  /** ... and 4 GB before that when `f` is farther ahead, the distance being taken as a signed number. */
  lemma CallGoesBack(at: bv64, f: bv64, r: Registers)
    requires 0x8000_0000 <= Displacement(at, f) < 0x1_0000_0000 && Displacement(at, f) & 3 == 0
    ensures Execute(Call(Displacement(at, f)), r, at) == Goto(Plus(at, Displacement(at, f) | 0xffff_ffff_0000_0000))
  {
    hide Format, Distance30, Plus, Call, Displacement, Execute;
    CallFormat(Displacement(at, f));
    CallExecutes(Call(Displacement(at, f)), r, at);
    WholeWordsKept(Displacement(at, f));
    CallBackward(Displacement(at, f));
  }

  /** So no patched call gets to its function. */
  lemma CallGoesElsewhere(at: bv64, f: bv64, r: Registers)
    requires Displacement(at, f) < 0x1_0000_0000
    ensures Execute(Call(Displacement(at, f)), r, at) != Goto(f)
  {
    hide Format, Distance30, Plus, Call, Displacement, Execute;
    var w := Call(Displacement(at, f));
    CallFormat(Displacement(at, f));
    CallExecutes(w, r, at);
    NotWholeWords(Displacement(at, f));
    GoneBy(at, Distance30(w));
    if Displacement(at, f) < 0x8000_0000 {
      CallForward(Displacement(at, f));
    } else {
      CallBackward(Displacement(at, f));
    }
  }

  lemma GoneBy(at: bv64, d: bv64)
    ensures Displacement(at, Plus(at, d)) == d - 4
  {
    hide Displacement;
    GoneTo(at, d);
  }

  lemma GoneTo(at: bv64, d: bv64)
    ensures forall f: bv64 :: f == at + d ==> Displacement(at, f) == d - 4
  {
  }

  lemma NotWholeWords(d: bv64)
    requires d < 0x1_0000_0000
    ensures (d & !3) - 4 != d && ((d & !3) | 0xffff_ffff_0000_0000) - 4 != d
  {
  }

  lemma WholeWordsKept(d: bv64)
    requires d & 3 == 0
    ensures d & !3 == d
  {
  }

  lemma ShortOf(at: bv64, f: bv64)
    ensures Plus(at, Displacement(at, f)) == f - 4
  {
    hide Plus;
    ShortBy(at, f);
    DisplacementIs(at, f);
  }

  lemma ShortBy(at: bv64, f: bv64)
    ensures forall d: bv64 :: d == f - at - 4 ==> Plus(at, d) == f - 4
  {
  }

  lemma DisplacementIs(at: bv64, f: bv64)
    ensures Displacement(at, f) == f - at - 4
  {
  }
}
