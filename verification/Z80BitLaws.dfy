/** Laws of counting, rotating and single bits, with opcodes and flag bits written out. */
module Z80BitLaws {
  import opened Z80Cpu
  import opened Z80Laws
  import opened Z80DataLaws

  // ----- INC r, DEC r -----

  function More(v: bv8): bv8 {
    v + 1
  }

  function Fewer(v: bv8): bv8 {
    v - 1
  }

  /** The flags of INC: a half carry out of the low digit, an overflow into the sign, N clear, and the old carry. */
  predicate IncrementFlags(v: bv8, old_: bv8, f: bv8) {
    && (f & 0x80 != 0 <==> More(v) & 0x80 != 0) && (f & 0x40 != 0 <==> More(v) == 0)
    && (f & 0x10 != 0 <==> v & 15 == 15) && (f & 0x04 != 0 <==> v == 0x7f)
    && f & 0x02 == 0 && f & 0x01 == old_ & 0x01 && f & 0x28 == More(v) & 0x28
  }

  predicate DecrementFlags(v: bv8, old_: bv8, f: bv8) {
    && (f & 0x80 != 0 <==> Fewer(v) & 0x80 != 0) && (f & 0x40 != 0 <==> Fewer(v) == 0)
    && (f & 0x10 != 0 <==> v & 15 == 0) && (f & 0x04 != 0 <==> v == 0x80)
    && f & 0x02 != 0 && f & 0x01 == old_ & 0x01 && f & 0x28 == Fewer(v) & 0x28
  }

  lemma IncFlagsLaw(v: bv8, f: bv8)
    ensures IncrementFlags(v, f, IncFlags(f, Succ(v))) && Succ(v) == More(v)
  {
  }

  lemma DecFlagsLaw(v: bv8, f: bv8)
    ensures DecrementFlags(v, f, DecFlags(f, Pred(v))) && Pred(v) == Fewer(v)
  {
  }

  lemma CountOpcodes(c: Cpu, y: bv8)
    requires y < 8
    ensures Execute(c, 0x04 | (y << 3)) == Ran(IncReg(c, y)) && Execute(c, 0x05 | (y << 3)) == Ran(DecReg(c, y))
  {
    hide IncReg, DecReg;
    CountFields(y);
  }

  lemma CountFields(y: bv8)
    requires y < 8
    ensures Y(0x04 | (y << 3)) == y && Z(0x04 | (y << 3)) == 4 && 0x04 | (y << 3) < 0x40
    ensures Y(0x05 | (y << 3)) == y && Z(0x05 | (y << 3)) == 5 && 0x05 | (y << 3) < 0x40
  {
  }

  /** The state with other flags. */
  function WithFlags(c: Cpu, f: bv8): Cpu {
    c.(af := Joined(TopByte(c.af), f))
  }

  lemma CountedFlags(c: Cpu, y: bv8, r: bv8, f: bv8)
    requires y < 8
    ensures var c' := SetReg(c, y, r); var c2 := c'.(af := Word(Hi(c'.af), f));
            BottomByte(c2.af) == f && Stored(c, WithFlags(c2, BottomByte(c.af)), y, r)
  {
    var c' := SetReg(c, y, r);
    AllHalves();
    Parts(Hi(c'.af), f);
    SetRegIs(c, y, r);
    OldFlags(c, y, r);
    Again(c'.af);
    hide Hi, Lo, Word, TopByte, BottomByte, Joined;
  }

  lemma RegAnywhere(c: Cpu, y: bv8, pc: bv16)
    ensures Reg(c.(pc := pc), y) == Reg(c, y)
  {
  }

  lemma OldFlags(c: Cpu, y: bv8, r: bv8)
    requires y < 8
    ensures BottomByte(SetReg(c, y, r).af) == BottomByte(c.af)
  {
    hide Hi, Lo, Word, TopByte, BottomByte, Put;
    AllHalves();
    Parts(r, BottomByte(c.af));
  }

  lemma Again(w: bv16)
    ensures Joined(TopByte(w), BottomByte(w)) == w
  {
  }

  /** INC r, for registers and memory. */
  lemma IncLaw(c: Cpu, y: bv8, v: bv8)
    requires IsRegister(c, y, v) && c.mem(c.pc) == 0x04 | (y << 3)
    ensures StepOf(c).Ran? && IncrementFlags(v, BottomByte(c.af), BottomByte(StepOf(c).cpu.af))
    ensures Stored(c.(pc := Plus1(c.pc)), WithFlags(StepOf(c).cpu, BottomByte(c.af)), y, More(v))
  {
    RegIs(c, y, v);
    hide StepOf, Execute, Plus1, Stored, IsRegister, Reg, SetReg, Hi, Lo, Word, TopByte, BottomByte, Joined, WithFlags,
         IncrementFlags, IncFlags, Succ, More;
    var c1 := c.(pc := Plus1(c.pc));
    RegAnywhere(c, y, Plus1(c.pc));
    Fetched(c);
    Steps(c.pc);
    CountOpcodes(c1, y);
    Halves(c.af, 0, 0);
    IncFlagsLaw(v, BottomByte(c.af));
    CountedFlags(c1, y, More(v), IncFlags(BottomByte(c.af), More(v)));
  }

  /** DEC r, for registers and memory. */
  lemma DecLaw(c: Cpu, y: bv8, v: bv8)
    requires IsRegister(c, y, v) && c.mem(c.pc) == 0x05 | (y << 3)
    ensures StepOf(c).Ran? && DecrementFlags(v, BottomByte(c.af), BottomByte(StepOf(c).cpu.af))
    ensures Stored(c.(pc := Plus1(c.pc)), WithFlags(StepOf(c).cpu, BottomByte(c.af)), y, Fewer(v))
  {
    RegIs(c, y, v);
    hide StepOf, Execute, Plus1, Stored, IsRegister, Reg, SetReg, Hi, Lo, Word, TopByte, BottomByte, Joined, WithFlags,
         DecrementFlags, DecFlags, Pred, Fewer;
    var c1 := c.(pc := Plus1(c.pc));
    RegAnywhere(c, y, Plus1(c.pc));
    Fetched(c);
    Steps(c.pc);
    CountOpcodes(c1, y);
    Halves(c.af, 0, 0);
    DecFlagsLaw(v, BottomByte(c.af));
    CountedFlags(c1, y, Fewer(v), DecFlags(BottomByte(c.af), Fewer(v)));
  }

  // ----- Rotations of A, CPL, SCF, CCF -----

  lemma AccumulatorOpcodes(c: Cpu)
    ensures Execute(c, 0x07) == Ran(c.(af := Accumulator(0, c.af)))
            && Execute(c, 0x0f) == Ran(c.(af := Accumulator(1, c.af)))
    ensures Execute(c, 0x17) == Ran(c.(af := Accumulator(2, c.af)))
            && Execute(c, 0x1f) == Ran(c.(af := Accumulator(3, c.af)))
    ensures Execute(c, 0x27) == Ran(c.(af := Daa(c.af))) && Execute(c, 0x2f) == Ran(c.(af := Accumulator(5, c.af)))
    ensures Execute(c, 0x37) == Ran(c.(af := Accumulator(6, c.af)))
            && Execute(c, 0x3f) == Ran(c.(af := Accumulator(7, c.af)))
  {
    DaaOpcode(c.af);
    hide Accumulator, Daa;
  }

  lemma DaaOpcode(af: bv16)
    ensures Accumulator(4, af) == Daa(af)
  {
    hide Daa;
  }

  /** A rotation of A: sign, zero and parity stay, the bit shifted out is the carry. */
  predicate Rotated(af: bv16, af': bv16, r: bv8, out: bool) {
    var f, f' := BottomByte(af), BottomByte(af');
    && TopByte(af') == r && f' & 0xc4 == f & 0xc4 && f' & 0x12 == 0 && (f' & 0x01 != 0 <==> out)
        && f' & 0x28 == r & 0x28
  }

  lemma RlcaBits(af: bv16)
    ensures var a := TopByte(af); Rotated(af, Accumulator(0, af), (a << 1) | (a >> 7), a & 0x80 != 0)
  {
  }

  lemma RrcaBits(af: bv16)
    ensures var a := TopByte(af); Rotated(af, Accumulator(1, af), (a >> 1) | (a << 7), a & 0x01 != 0)
  {
  }

  lemma RlaBits(af: bv16)
    ensures var a := TopByte(af); Rotated(af, Accumulator(2, af), (a << 1) | CarryBit(af), a & 0x80 != 0)
  {
  }

  lemma RraBits(af: bv16)
    ensures var a := TopByte(af); Rotated(af, Accumulator(3, af), (a >> 1) | (CarryBit(af) << 7), a & 0x01 != 0)
  {
  }

  predicate Complemented(af: bv16, af': bv16) {
    var f, f' := BottomByte(af), BottomByte(af');
    TopByte(af') == !TopByte(af) && f' & 0xc5 == f & 0xc5 && f' & 0x12 == 0x12 && f' & 0x28 == !TopByte(af) & 0x28
  }

  /**
   * The carry is `carry`, the half carry `half`, N is clear, the rest stays but for bits 3 and 5, which come from A.
   */
  predicate CarryChanged(af: bv16, af': bv16, carry: bool, half: bool) {
    var f, f' := BottomByte(af), BottomByte(af');
    && TopByte(af') == TopByte(af) && f' & 0xc4 == f & 0xc4 && f' & 0x02 == 0
    && (f' & 0x01 != 0 <==> carry) && (f' & 0x10 != 0 <==> half) && f' & 0x28 == TopByte(af) & 0x28
  }

  lemma CplBits(af: bv16)
    ensures Complemented(af, Accumulator(5, af))
  {
  }

  lemma ScfBits(af: bv16)
    ensures CarryChanged(af, Accumulator(6, af), true, false)
  {
  }

  lemma CcfBits(af: bv16)
    ensures CarryChanged(af, Accumulator(7, af), CarryBit(af) == 0, CarryBit(af) != 0)
  {
  }

  /** RLCA, RRCA, RLA, RRA, CPL, SCF, CCF: only AF changes, and like this. */
  lemma AccumulatorLaw(c: Cpu)
    requires c.mem(c.pc) in {0x07, 0x0f, 0x17, 0x1f, 0x2f, 0x37, 0x3f}
    ensures StepOf(c).Ran? && StepOf(c).cpu.(af := c.af) == c.(pc := Plus1(c.pc))
    ensures var a, k, af' := TopByte(c.af), CarryBit(c.af), StepOf(c).cpu.af;
            && (c.mem(c.pc) == 0x07 ==> Rotated(c.af, af', (a << 1) | (a >> 7), a & 0x80 != 0))
            && (c.mem(c.pc) == 0x0f ==> Rotated(c.af, af', (a >> 1) | (a << 7), a & 0x01 != 0))
            && (c.mem(c.pc) == 0x17 ==> Rotated(c.af, af', (a << 1) | k, a & 0x80 != 0))
            && (c.mem(c.pc) == 0x1f ==> Rotated(c.af, af', (a >> 1) | (k << 7), a & 0x01 != 0))
            && (c.mem(c.pc) == 0x2f ==> Complemented(c.af, af'))
            && (c.mem(c.pc) == 0x37 ==> CarryChanged(c.af, af', true, false))
            && (c.mem(c.pc) == 0x3f ==> CarryChanged(c.af, af', k == 0, k != 0))
  {
    hide StepOf, Execute, Plus1, TopByte, CarryBit, Accumulator, Daa, Rotated, Complemented, CarryChanged;
    Fetched(c);
    Steps(c.pc);
    AccumulatorOpcodes(c.(pc := c.pc + 1));
    RlcaBits(c.af);
    RrcaBits(c.af);
    RlaBits(c.af);
    RraBits(c.af);
    CplBits(c.af);
    ScfBits(c.af);
    CcfBits(c.af);
  }

  // ----- The CB page -----

  lemma BitPrefix(c: Cpu)
    ensures Execute(c, 0xcb) == Ran(BitPage(Skip(c, 1), Get(c.mem, c.pc)))
  {
    hide BitPage, Skip, Get, Push, GetWord, TwoAbove, Jump;
  }

  lemma BitFetched(c: Cpu)
    requires c.mem(c.pc) == 0xcb
    ensures StepOf(c) == Ran(BitPage(c.(pc := Plus2(c.pc)), c.mem(Plus1(c.pc))))
  {
    hide StepOf, Execute, BitPage, Skip, Plus1, Plus2;
    Fetched(c);
    Steps(c.pc);
    SkipOne(c);
    BitPrefix(c.(pc := c.pc + 1));
  }

  /** What RLC, RRC, RL, RR, SLA, SRA, SLL and SRL make of a byte, and the bit that goes to the carry. */
  predicate IsShift(y: bv8, v: bv8, k: bv8, r: bv8, out: bool) {
    || (y == 0 && r == (v << 1) | (v >> 7) && out == (v & 0x80 != 0))
        || (y == 1 && r == (v >> 1) | (v << 7) && out == (v & 0x01 != 0))
    || (y == 2 && r == (v << 1) | k && out == (v & 0x80 != 0))
        || (y == 3 && r == (v >> 1) | (k << 7) && out == (v & 0x01 != 0))
    || (y == 4 && r == v << 1 && out == (v & 0x80 != 0))
        || (y == 5 && r == (v >> 1) | (v & 0x80) && out == (v & 0x01 != 0))
    || (y == 6 && r == (v << 1) | 1 && out == (v & 0x80 != 0)) || (y == 7 && r == v >> 1 && out == (v & 0x01 != 0))
  }

  /** The flags of a shifted byte. */
  predicate ShiftedFlags(r: bv8, out: bool, f: bv8) {
    && (f & 0x80 != 0 <==> r & 0x80 != 0) && (f & 0x40 != 0 <==> r == 0) && (f & 0x04 != 0 <==> EvenOnes(r))
    && f & 0x12 == 0 && (f & 0x01 != 0 <==> out) && f & 0x28 == r & 0x28
  }

  predicate OutOf(o: bv8) {
    o != 0
  }

  lemma ShiftValues(y: bv8, f: bv8, v: bv8)
    requires y < 8
    ensures IsShift(y, v, f & 1, Shifted(y, f, v), OutOf(ShiftedOut(y, v))) && ShiftedOut(y, v) <= 1
  {
  }

  lemma ShiftFlagsLaw(r: bv8, o: bv8)
    requires o <= 1
    ensures ShiftedFlags(r, OutOf(o), ShiftFlags(r, o))
  {
  }

  lemma PageFields(y: bv8, z: bv8)
    requires y < 8 && z < 8
    ensures Y((y << 3) | z) == y && Z((y << 3) | z) == z && (y << 3) | z < 0x40
    ensures Y(0x40 | (y << 3) | z) == y && Z(0x40 | (y << 3) | z) == z && 0x40 <= 0x40 | (y << 3) | z < 0x80
    ensures Y(0x80 | (y << 3) | z) == y && Z(0x80 | (y << 3) | z) == z && 0x80 <= 0x80 | (y << 3) | z < 0xc0
    ensures Y(0xc0 | (y << 3) | z) == y && Z(0xc0 | (y << 3) | z) == z && 0xc0 <= 0xc0 | (y << 3) | z
  {
  }

  lemma ShiftPage(c: Cpu, y: bv8, z: bv8)
    requires y < 8 && z < 8
    ensures var r := Shifted(y, Lo(c.af), Reg(c, z));
            BitPage(c, (y << 3) | z) == SetReg(c.(af := Word(Hi(c.af), ShiftFlags(r, ShiftedOut(y, Reg(c, z))))), z, r)
  {
    PageFields(y, z);
    hide Shifted, Lo, Hi, Word, Reg, SetReg, ShiftFlags, ShiftedOut, Y, Z, Mask, BitFlags, Reset, Set;
  }

  /** Rotations and shifts of registers and memory: the flags first, then the operand. */
  lemma ShiftLaw(c: Cpu, y: bv8, z: bv8, v: bv8) returns (r: bv8, out: bool, f: bv8)
    requires y < 8 && IsRegister(c, z, v) && c.mem(c.pc) == 0xcb && c.mem(Plus1(c.pc)) == (y << 3) | z
    ensures IsShift(y, v, CarryBit(c.af), r, out) && ShiftedFlags(r, out, f)
    ensures StepOf(c).Ran? && Stored(WithFlags(c.(pc := Plus2(c.pc)), f), StepOf(c).cpu, z, r)
  {
    RegIs(c, z, v);
    hide StepOf, BitPage, IsShift, ShiftedFlags, OutOf, Shifted, ShiftFlags, ShiftedOut, Reg, SetReg, Stored,
         IsRegister, Hi, Lo, Word,
         TopByte, BottomByte, Joined, Plus1, Plus2;
    var c2 := c.(pc := Plus2(c.pc));
    RegAnywhere(c, z, Plus2(c.pc));
    BitFetched(c);
    ShiftPage(c2, y, z);
    Halves(c.af, 0, 0);
    r, out := Shifted(y, Lo(c.af), v), OutOf(ShiftedOut(y, v));
    f := ShiftFlags(r, ShiftedOut(y, v));
    ShiftValues(y, Lo(c.af), v);
    ShiftFlagsLaw(r, ShiftedOut(y, v));
    AllHalves();
    SetRegIs(WithFlags(c2, f), z, r);
  }

  /** Bit `y` of a byte. */
  function BitOf(v: bv8, y: bv8): bv8
    requires y < 8
  {
    (v >> y) & 1
  }

  /** A byte with bit `y` given and all others as they were. */
  ghost predicate OneBit(v: bv8, y: bv8, r: bv8, b: bv8)
    requires y < 8
  {
    BitOf(r, y) == b && forall j: bv8 :: j < 8 && j != y ==> BitOf(r, j) == BitOf(v, j)
  }

  lemma ResetBit(v: bv8, y: bv8, j: bv8)
    requires y < 8 && j < 8
    ensures BitOf(Reset(v, y), j) == if j == y then 0 else BitOf(v, j)
  {
  }

  lemma SetBit(v: bv8, y: bv8, j: bv8)
    requires y < 8 && j < 8
    ensures BitOf(Set(v, y), j) == if j == y then 1 else BitOf(v, j)
  {
  }

  lemma ResetIs(v: bv8, y: bv8)
    requires y < 8
    ensures OneBit(v, y, Reset(v, y), 0)
  {
    hide BitOf, Reset;
    ResetBit(v, y, y);
    forall j: bv8 | j < 8 && j != y
      ensures BitOf(Reset(v, y), j) == BitOf(v, j)
    {
      ResetBit(v, y, j);
    }
  }

  lemma SetIs(v: bv8, y: bv8)
    requires y < 8
    ensures OneBit(v, y, Set(v, y), 1)
  {
    hide BitOf, Set;
    SetBit(v, y, y);
    forall j: bv8 | j < 8 && j != y
      ensures BitOf(Set(v, y), j) == BitOf(v, j)
    {
      SetBit(v, y, j);
    }
  }

  lemma ChangePages(c: Cpu, y: bv8, z: bv8)
    requires y < 8 && z < 8
    ensures BitPage(c, 0x80 | (y << 3) | z) == SetReg(c, z, Reset(Reg(c, z), y))
    ensures BitPage(c, 0xc0 | (y << 3) | z) == SetReg(c, z, Set(Reg(c, z), y))
  {
    PageFields(y, z);
    hide Shifted, Lo, Hi, Word, Reg, SetReg, ShiftFlags, ShiftedOut, Y, Z, Mask, BitFlags, Reset, Set;
  }

  /** RES: one bit of a register or of memory is cleared. */
  lemma ResLaw(c: Cpu, y: bv8, z: bv8, v: bv8) returns (r: bv8)
    requires y < 8 && IsRegister(c, z, v) && c.mem(c.pc) == 0xcb && c.mem(Plus1(c.pc)) == 0x80 | (y << 3) | z
    ensures OneBit(v, y, r, 0) && StepOf(c).Ran? && Stored(c.(pc := Plus2(c.pc)), StepOf(c).cpu, z, r)
  {
    RegIs(c, z, v);
    hide StepOf, BitPage, OneBit, Reset, Reg, SetReg, Stored, IsRegister, Plus1, Plus2;
    var c2 := c.(pc := Plus2(c.pc));
    RegAnywhere(c, z, Plus2(c.pc));
    BitFetched(c);
    ChangePages(c2, y, z);
    r := Reset(v, y);
    ResetIs(v, y);
    SetRegIs(c2, z, r);
  }

  /** SET: one bit of a register or of memory is set. */
  lemma SetLaw(c: Cpu, y: bv8, z: bv8, v: bv8) returns (r: bv8)
    requires y < 8 && IsRegister(c, z, v) && c.mem(c.pc) == 0xcb && c.mem(Plus1(c.pc)) == 0xc0 | (y << 3) | z
    ensures OneBit(v, y, r, 1) && StepOf(c).Ran? && Stored(c.(pc := Plus2(c.pc)), StepOf(c).cpu, z, r)
  {
    RegIs(c, z, v);
    hide StepOf, BitPage, OneBit, Set, Reg, SetReg, Stored, IsRegister, Plus1, Plus2;
    var c2 := c.(pc := Plus2(c.pc));
    RegAnywhere(c, z, Plus2(c.pc));
    BitFetched(c);
    ChangePages(c2, y, z);
    r := Set(v, y);
    SetIs(v, y);
    SetRegIs(c2, z, r);
  }

  /** The flags of BIT: Z and P for a clear bit, S for a set bit 7, H set, N clear, the old carry. */
  predicate TestedFlags(v: bv8, y: bv8, old_: bv8, f: bv8)
    requires y < 8
  {
    && (f & 0x40 != 0 <==> BitOf(v, y) == 0) && (f & 0x04 != 0 <==> BitOf(v, y) == 0)
    && (f & 0x80 != 0 <==> y == 7 && BitOf(v, y) == 1) && f & 0x12 == 0x10 && f & 0x01 == old_ & 0x01
  }

  lemma TestedFlagsAre(v: bv8, y: bv8, z: bv8, f: bv8)
    requires y < 8
    ensures TestedFlags(v, y, f, BitFlags(y, z, f, v))
  {
  }

  lemma TestPage(c: Cpu, y: bv8, z: bv8)
    requires y < 8 && z < 8
    ensures BitPage(c, 0x40 | (y << 3) | z)
            == SetReg(c.(af := Word(Hi(c.af), BitFlags(y, z, Lo(c.af), Reg(c, z)))), z, Reg(c, z))
  {
    PageFields(y, z);
    hide Shifted, Lo, Hi, Word, Reg, SetReg, ShiftFlags, ShiftedOut, Y, Z, Mask, BitFlags, Reset, Set;
  }

  /** BIT: the flags tell about one bit, and the operand is stored as it was. */
  lemma BitLaw(c: Cpu, y: bv8, z: bv8, v: bv8) returns (f: bv8)
    requires y < 8 && IsRegister(c, z, v) && c.mem(c.pc) == 0xcb && c.mem(Plus1(c.pc)) == 0x40 | (y << 3) | z
    ensures TestedFlags(v, y, BottomByte(c.af), f)
    ensures StepOf(c).Ran? && Stored(WithFlags(c.(pc := Plus2(c.pc)), f), StepOf(c).cpu, z, v)
  {
    RegIs(c, z, v);
    hide StepOf, BitPage, TestedFlags, BitFlags, Reg, SetReg, Stored, IsRegister, Hi, Lo, Word, TopByte, BottomByte,
         Joined,
         Plus1, Plus2;
    var c2 := c.(pc := Plus2(c.pc));
    RegAnywhere(c, z, Plus2(c.pc));
    BitFetched(c);
    TestPage(c2, y, z);
    AllHalves();
    f := BitFlags(y, z, Lo(c.af), v);
    TestedFlagsAre(v, y, z, Lo(c.af));
    SetRegIs(WithFlags(c2, f), z, v);
  }
}
