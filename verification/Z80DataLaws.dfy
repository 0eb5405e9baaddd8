/** Laws of the instructions that move and compute data, with opcodes and flag bits written out. */
module Z80DataLaws {
  import opened Z80Cpu
  import opened Z80Laws

  // ----- Registers -----

  /** Operand `i` of an opcode is B, C, D, E, H, L, the byte at HL, or A. */
  ghost predicate IsRegister(c: Cpu, i: bv8, v: bv8) {
    || (i == 0 && v == TopByte(c.bc)) || (i == 1 && v == BottomByte(c.bc))
    || (i == 2 && v == TopByte(c.de)) || (i == 3 && v == BottomByte(c.de))
    || (i == 4 && v == TopByte(c.hl)) || (i == 5 && v == BottomByte(c.hl))
    || (i == 6 && v == c.mem(c.hl)) || (i == 7 && v == TopByte(c.af))
  }

  /** One byte of memory has been written. */
  ghost predicate Written(c: Cpu, c': Cpu, a: bv16, v: bv8) {
    c'.(mem := c.mem) == c && c'.mem(a) == v && forall x: bv16 :: x != a ==> c'.mem(x) == c.mem(x)
  }

  /** Operand `i` has been set, and nothing else has changed. */
  ghost predicate Stored(c: Cpu, c': Cpu, i: bv8, v: bv8) {
    || (i == 0 && c' == c.(bc := Joined(v, BottomByte(c.bc)))) || (i == 1 && c' == c.(bc := Joined(TopByte(c.bc), v)))
    || (i == 2 && c' == c.(de := Joined(v, BottomByte(c.de)))) || (i == 3 && c' == c.(de := Joined(TopByte(c.de), v)))
    || (i == 4 && c' == c.(hl := Joined(v, BottomByte(c.hl)))) || (i == 5 && c' == c.(hl := Joined(TopByte(c.hl), v)))
    || (i == 6 && Written(c, c', c.hl, v)) || (i == 7 && c' == c.(af := Joined(v, BottomByte(c.af))))
  }

  lemma Halves(w: bv16, h: bv8, l: bv8)
    ensures Hi(w) == TopByte(w) && Lo(w) == BottomByte(w) && Word(h, l) == Joined(h, l)
  {
  }

  lemma AllHalves()
    ensures forall w: bv16 :: Hi(w) == TopByte(w) && Lo(w) == BottomByte(w)
    ensures forall h: bv8, l: bv8 :: Word(h, l) == Joined(h, l)
  {
    hide Hi, Lo, Word, TopByte, BottomByte, Joined;
    forall w: bv16
      ensures Hi(w) == TopByte(w) && Lo(w) == BottomByte(w)
    {
      Halves(w, 0, 0);
    }
    forall h: bv8, l: bv8
      ensures Word(h, l) == Joined(h, l)
    {
      Halves(0, h, l);
    }
  }

  lemma RegIs(c: Cpu, i: bv8, v: bv8)
    requires IsRegister(c, i, v)
    ensures Reg(c, i) == v && i < 8
  {
    hide Hi, Lo, Word, TopByte, BottomByte, Joined;
    AllHalves();
  }

  lemma SetRegIs(c: Cpu, i: bv8, v: bv8)
    requires i < 8
    ensures Stored(c, SetReg(c, i, v), i, v)
  {
    hide Hi, Lo, Word, TopByte, BottomByte, Joined;
    AllHalves();
  }

  // ----- LD -----

  lemma LoadOpcodes(c: Cpu, y: bv8, z: bv8)
    requires y < 8 && z < 8 && !(y == 6 && z == 6)
    ensures Execute(c, 0x40 | (y << 3) | z) == Ran(SetReg(c, y, Reg(c, z)))
  {
    hide SetReg, Reg, LowPage, HighPage, Alu;
    Fields(y, z);
    SmallOpcode(y, z);
  }

  lemma Fields(y: bv8, z: bv8)
    requires y < 8 && z < 8
    ensures Y(0x40 | (y << 3) | z) == y && Z(0x40 | (y << 3) | z) == z
  {
  }

  lemma SmallOpcode(y: bv8, z: bv8)
    requires y < 8 && z < 8
    ensures 0x40 <= 0x40 | (y << 3) | z < 0x80 && (0x40 | (y << 3) | z == 0x76 ==> y == 6 && z == 6)
  {
  }

  /** LD r,r': every register to every register, and to and from memory. */
  lemma LdLaw(c: Cpu, y: bv8, z: bv8, v: bv8)
    requires y < 8 && !(y == 6 && z == 6) && IsRegister(c, z, v) && c.mem(c.pc) == 0x40 | (y << 3) | z
    ensures StepOf(c).Ran? && Stored(c.(pc := Plus1(c.pc)), StepOf(c).cpu, y, v)
  {
    hide StepOf, Execute, Plus1, Stored, Reg, SetReg, IsRegister;
    var c1 := c.(pc := c.pc + 1);
    Fetched(c);
    Steps(c.pc);
    SameRegister(c, Plus1(c.pc), z, v);
    RegIs(c1, z, v);
    LoadOpcodes(c1, y, z);
    SetRegIs(c1, y, v);
  }

  lemma SameRegister(c: Cpu, pc: bv16, z: bv8, v: bv8)
    requires IsRegister(c, z, v)
    ensures IsRegister(c.(pc := pc), z, v)
  {
    hide TopByte, BottomByte;
  }

  lemma ImmediateOpcodes(c: Cpu, y: bv8)
    requires y < 8
    ensures Execute(c, 0x06 | (y << 3)) == Ran(SetReg(Skip(c, 1), y, Get(c.mem, c.pc)))
  {
    hide SetReg, Skip, Get;
    LowFields(y);
  }

  lemma LowFields(y: bv8)
    requires y < 8
    ensures Y(0x06 | (y << 3)) == y && Z(0x06 | (y << 3)) == 6 && 0x06 | (y << 3) < 0x40
  {
  }

  /** LD r,n. */
  lemma LdImmediateLaw(c: Cpu, y: bv8)
    requires y < 8 && c.mem(c.pc) == 0x06 | (y << 3)
    ensures StepOf(c).Ran? && Stored(c.(pc := Plus2(c.pc)), StepOf(c).cpu, y, c.mem(Plus1(c.pc)))
  {
    hide StepOf, Execute, Plus1, Plus2, Stored, SetReg, Skip;
    var c1 := c.(pc := c.pc + 1);
    Fetched(c);
    Steps(c.pc);
    SkipOne(c);
    ImmediateOpcodes(c1, y);
    SetRegIs(c.(pc := Plus2(c.pc)), y, c.mem(Plus1(c.pc)));
  }

  lemma SkipOne(c: Cpu)
    ensures Skip(c.(pc := c.pc + 1), 1) == c.(pc := Plus2(c.pc))
  {
  }

  lemma SkipTwo(c: Cpu)
    ensures Skip(c.(pc := c.pc + 1), 2) == c.(pc := Plus3(c.pc))
  {
  }

  // ----- Pairs: BC, DE, HL, SP -----

  lemma LoadPairOpcodes(c: Cpu)
    ensures Execute(c, 0x01) == Ran(Skip(c, 2).(bc := GetWord(c.mem, c.pc)))
    ensures Execute(c, 0x11) == Ran(Skip(c, 2).(de := GetWord(c.mem, c.pc)))
    ensures Execute(c, 0x21) == Ran(Skip(c, 2).(hl := GetWord(c.mem, c.pc)))
    ensures Execute(c, 0x31) == Ran(Skip(c, 2).(sp := GetWord(c.mem, c.pc)))
  {
    hide Skip, GetWord, WordAdd, Add16Flags, Word, Hi, Lo;
  }

  /** LD rr,nn. */
  lemma LoadPairLaw(c: Cpu)
    ensures c.mem(c.pc) == 0x01 ==> StepOf(c) == Ran(c.(pc := Plus3(c.pc), bc := Operand(c)))
    ensures c.mem(c.pc) == 0x11 ==> StepOf(c) == Ran(c.(pc := Plus3(c.pc), de := Operand(c)))
    ensures c.mem(c.pc) == 0x21 ==> StepOf(c) == Ran(c.(pc := Plus3(c.pc), hl := Operand(c)))
    ensures c.mem(c.pc) == 0x31 ==> StepOf(c) == Ran(c.(pc := Plus3(c.pc), sp := Operand(c)))
  {
    hide StepOf, Execute, Plus3, Operand, GetWord, Skip;
    Fetched(c);
    SkipTwo(c);
    WordAt(c);
    LoadPairOpcodes(c.(pc := c.pc + 1));
  }

  lemma StepPairOpcodes(c: Cpu)
    ensures Execute(c, 0x03) == Ran(c.(bc := Stepped(c.bc, true)))
            && Execute(c, 0x0b) == Ran(c.(bc := Stepped(c.bc, false)))
    ensures Execute(c, 0x13) == Ran(c.(de := Stepped(c.de, true)))
            && Execute(c, 0x1b) == Ran(c.(de := Stepped(c.de, false)))
    ensures Execute(c, 0x23) == Ran(c.(hl := Stepped(c.hl, true)))
            && Execute(c, 0x2b) == Ran(c.(hl := Stepped(c.hl, false)))
    ensures Execute(c, 0x33) == Ran(c.(sp := Stepped(c.sp, true)))
            && Execute(c, 0x3b) == Ran(c.(sp := Stepped(c.sp, false)))
  {
    hide Stepped, GetWord, Skip;
  }

  lemma SteppedIs(w: bv16)
    ensures Stepped(w, true) == Plus1(w) && Stepped(w, false) == Minus1(w)
  {
  }

  /** INC rr and DEC rr change no flag. */
  lemma StepPairLaw(c: Cpu)
    ensures c.mem(c.pc) == 0x03 ==> StepOf(c) == Ran(c.(pc := Plus1(c.pc), bc := Plus1(c.bc)))
    ensures c.mem(c.pc) == 0x13 ==> StepOf(c) == Ran(c.(pc := Plus1(c.pc), de := Plus1(c.de)))
    ensures c.mem(c.pc) == 0x23 ==> StepOf(c) == Ran(c.(pc := Plus1(c.pc), hl := Plus1(c.hl)))
    ensures c.mem(c.pc) == 0x33 ==> StepOf(c) == Ran(c.(pc := Plus1(c.pc), sp := Plus1(c.sp)))
    ensures c.mem(c.pc) == 0x0b ==> StepOf(c) == Ran(c.(pc := Plus1(c.pc), bc := Minus1(c.bc)))
    ensures c.mem(c.pc) == 0x1b ==> StepOf(c) == Ran(c.(pc := Plus1(c.pc), de := Minus1(c.de)))
    ensures c.mem(c.pc) == 0x2b ==> StepOf(c) == Ran(c.(pc := Plus1(c.pc), hl := Minus1(c.hl)))
    ensures c.mem(c.pc) == 0x3b ==> StepOf(c) == Ran(c.(pc := Plus1(c.pc), sp := Minus1(c.sp)))
  {
    hide StepOf, Execute, Plus1, Minus1, Stepped;
    Fetched(c);
    Steps(c.pc);
    StepPairOpcodes(c.(pc := c.pc + 1));
    SteppedIs(c.bc);
    SteppedIs(c.de);
    SteppedIs(c.hl);
    SteppedIs(c.sp);
  }

  // ----- Loads through pairs and addresses -----

  lemma IndirectOpcodes(c: Cpu)
    ensures Execute(c, 0x02) == Ran(c.(mem := Put(c.mem, c.bc, Hi(c.af))))
            && Execute(c, 0x12) == Ran(c.(mem := Put(c.mem, c.de, Hi(c.af))))
    ensures Execute(c, 0x0a) == Ran(c.(af := Word(Get(c.mem, c.bc), Lo(c.af))))
            && Execute(c, 0x1a) == Ran(c.(af := Word(Get(c.mem, c.de), Lo(c.af))))
  {
    hide Put, Get, Hi, Lo, Word, GetWord;
  }

  lemma AddressOpcodes(c: Cpu)
    ensures var nn, c2 := GetWord(c.mem, c.pc), Skip(c, 2);
            && Execute(c, 0x22) == Ran(c2.(mem := PutWord(c.mem, nn, c.hl)))
                && Execute(c, 0x2a) == Ran(c2.(hl := GetWord(c.mem, nn)))
            && Execute(c, 0x32) == Ran(c2.(mem := Put(c.mem, nn, Hi(c.af))))
            && Execute(c, 0x3a) == Ran(c2.(af := Word(Get(c.mem, nn), Lo(c.af))))
  {
    hide Put, PutWord, Get, Hi, Lo, Word, GetWord;
  }

  /** LD (BC),A; LD (DE),A. */
  lemma IndirectStoreLaw(c: Cpu)
    ensures var next := c.(pc := Plus1(c.pc));
            && (c.mem(c.pc) == 0x02 ==> StepOf(c).Ran? && Written(next, StepOf(c).cpu, c.bc, TopByte(c.af)))
            && (c.mem(c.pc) == 0x12 ==> StepOf(c).Ran? && Written(next, StepOf(c).cpu, c.de, TopByte(c.af)))
  {
    hide StepOf, Execute, Plus1, Hi, Lo, Word, TopByte, BottomByte, Joined, Written, Put, Get;
    Fetched(c);
    Steps(c.pc);
    IndirectOpcodes(c.(pc := c.pc + 1));
    AllHalves();
    PutWrites(c.(pc := Plus1(c.pc)), c.bc, TopByte(c.af));
    PutWrites(c.(pc := Plus1(c.pc)), c.de, TopByte(c.af));
  }

  /** LD A,(BC); LD A,(DE). */
  lemma IndirectLoadLaw(c: Cpu)
    ensures var next := c.(pc := Plus1(c.pc));
            && (c.mem(c.pc) == 0x0a ==> StepOf(c) == Ran(next.(af := Joined(c.mem(c.bc), BottomByte(c.af)))))
            && (c.mem(c.pc) == 0x1a ==> StepOf(c) == Ran(next.(af := Joined(c.mem(c.de), BottomByte(c.af)))))
  {
    hide StepOf, Execute, Plus1, Hi, Lo, Word, TopByte, BottomByte, Joined, Put;
    Fetched(c);
    Steps(c.pc);
    IndirectOpcodes(c.(pc := c.pc + 1));
    AllHalves();
  }

  lemma PutWrites(c: Cpu, a: bv16, v: bv8)
    ensures Written(c, c.(mem := Put(c.mem, a, v)), a, v)
  {
  }

  /** A word has been written, low byte first. */
  ghost predicate WordWritten(c: Cpu, c': Cpu, a: bv16, w: bv16) {
    && c'.(mem := c.mem) == c && c'.mem(a) == BottomByte(w) && c'.mem(Plus1(a)) == TopByte(w)
    && forall x: bv16 :: x != a && x != Plus1(a) ==> c'.mem(x) == c.mem(x)
  }

  lemma PutWordWrites(c: Cpu, a: bv16, w: bv16)
    ensures WordWritten(c, c.(mem := PutWord(c.mem, a, w)), a, w)
  {
    hide Hi, Lo, TopByte, BottomByte;
    Halves(w, 0, 0);
    NextDiffers(a);
  }

  lemma NextDiffers(a: bv16)
    ensures a + 1 == Plus1(a) && Plus1(a) != a
  {
  }

  /** LD (nn),HL; LD HL,(nn); LD (nn),A; LD A,(nn). */
  lemma AddressLaw(c: Cpu)
    ensures var nn, next := Operand(c), c.(pc := Plus3(c.pc));
            && (c.mem(c.pc) == 0x22 ==> StepOf(c).Ran? && WordWritten(next, StepOf(c).cpu, nn, c.hl))
            && (c.mem(c.pc) == 0x2a ==> StepOf(c) == Ran(next.(hl := Joined(c.mem(Plus1(nn)), c.mem(nn)))))
            && (c.mem(c.pc) == 0x32 ==> StepOf(c).Ran? && Written(next, StepOf(c).cpu, nn, TopByte(c.af)))
            && (c.mem(c.pc) == 0x3a ==> StepOf(c) == Ran(next.(af := Joined(c.mem(nn), BottomByte(c.af)))))
  {
    hide StepOf, Execute, Skip, GetWord, Operand, Plus1, Plus3, Hi, Lo, Word, TopByte, BottomByte, Joined, Written,
         WordWritten, Put, PutWord;
    var c1 := c.(pc := c.pc + 1);
    Fetched(c);
    SkipTwo(c);
    WordAt(c);
    AddressOpcodes(c1);
    AllHalves();
    WordIs(c.mem, Operand(c));
    PutWrites(c.(pc := Plus3(c.pc)), Operand(c), TopByte(c.af));
    PutWordWrites(c.(pc := Plus3(c.pc)), Operand(c), c.hl);
  }

  // ----- Sums, differences and logic on A -----

  /**
   * The flags of a sum of two bytes and a carry: sign and zero of the result, half carry and carry where the result
   * has wrapped around, overflow where two operands of one sign have a result of the other, N clear.
   */
  predicate SumFlags(a: bv8, v: bv8, k: bv8, r: bv8, f: bv8) {
    && (f & 0x80 != 0 <==> r & 0x80 != 0) && (f & 0x40 != 0 <==> r == 0)
    && (f & 0x10 != 0 <==> r & 15 < a & 15 || (k == 1 && r & 15 == a & 15))
    && (f & 0x04 != 0 <==> a & 0x80 == v & 0x80 && r & 0x80 != a & 0x80)
    && f & 0x02 == 0
    && (f & 0x01 != 0 <==> r < a || (k == 1 && r == a))
    && f & 0x28 == r & 0x28
  }

  /** The flags of a difference: borrows where the subtrahend is larger, N set. */
  predicate DifferenceFlags(a: bv8, v: bv8, k: bv8, r: bv8, f: bv8) {
    && (f & 0x80 != 0 <==> r & 0x80 != 0) && (f & 0x40 != 0 <==> r == 0)
    && (f & 0x10 != 0 <==> a & 15 < v & 15 || (k == 1 && a & 15 == v & 15))
    && (f & 0x04 != 0 <==> a & 0x80 != v & 0x80 && r & 0x80 != a & 0x80)
    && f & 0x02 != 0
    && (f & 0x01 != 0 <==> a < v || (k == 1 && a == v))
  }

  /** Whether the number of one bits is even. */
  predicate EvenOnes(r: bv8) {
    (r ^ (r >> 1) ^ (r >> 2) ^ (r >> 3) ^ (r >> 4) ^ (r >> 5) ^ (r >> 6) ^ (r >> 7)) & 1 == 0
  }

  /** The flags of a logic operation. */
  predicate LogicalFlags(r: bv8, half: bool, f: bv8) {
    && (f & 0x80 != 0 <==> r & 0x80 != 0) && (f & 0x40 != 0 <==> r == 0) && (f & 0x04 != 0 <==> EvenOnes(r))
    && (f & 0x10 != 0 <==> half) && f & 0x03 == 0 && f & 0x28 == r & 0x28
  }

  lemma AddFlagsLaw(a: bv8, v: bv8, k: bv8)
    requires k <= 1
    ensures SumFlags(a, v, k, AddByte(a, v, k), AddFlags(a, v, k))
  {
  }

  lemma SubFlagsLaw(a: bv8, v: bv8, k: bv8)
    requires k <= 1
    ensures DifferenceFlags(a, v, k, SubByte(a, v, k), SubFlags(a, v, k))
            && SubFlags(a, v, k) & 0x28 == SubByte(a, v, k) & 0x28
  {
  }

  lemma CompareFlagsLaw(a: bv8, v: bv8)
    ensures DifferenceFlags(a, v, 0, SubByte(a, v, 0), CompareFlags(a, v, 0))
            && CompareFlags(a, v, 0) & 0x28 == v & 0x28
  {
  }

  lemma LogicFlagsLaw(r: bv8)
    ensures LogicalFlags(r, false, LogicFlags(r)) && LogicalFlags(r, true, LogicFlags(r) | FLAG_H)
  {
  }

  function Plus(a: bv8, v: bv8, k: bv8): bv8 {
    a + v + k
  }

  function Minus(a: bv8, v: bv8, k: bv8): bv8 {
    a - v - k
  }

  function CarryBit(af: bv16): bv8 {
    BottomByte(af) & 1
  }

  /** Bits 3 and 5 of the flags come from this byte. */
  predicate CopiedBits(f: bv8, v: bv8) {
    f & 0x28 == v & 0x28
  }

  /** ADD, ADC, SUB, SBC, AND, XOR, OR, CP: the new A and the new flags. */
  predicate AluDone(y: bv8, af: bv16, v: bv8, af': bv16) {
    var a, k, r, f := TopByte(af), CarryBit(af), TopByte(af'), BottomByte(af');
    && (y == 0 ==> r == Plus(a, v, 0) && SumFlags(a, v, 0, r, f))
    && (y == 1 ==> r == Plus(a, v, k) && SumFlags(a, v, k, r, f))
    && (y == 2 ==> r == Minus(a, v, 0) && DifferenceFlags(a, v, 0, r, f) && CopiedBits(f, r))
    && (y == 3 ==> r == Minus(a, v, k) && DifferenceFlags(a, v, k, r, f) && CopiedBits(f, r))
    && (y == 4 ==> r == And(a, v) && LogicalFlags(r, true, f))
    && (y == 5 ==> r == Xor(a, v) && LogicalFlags(r, false, f))
    && (y == 6 ==> r == Or(a, v) && LogicalFlags(r, false, f))
    && (y == 7 ==> r == a && DifferenceFlags(a, v, 0, Minus(a, v, 0), f) && CopiedBits(f, v))
  }

  lemma Parts(h: bv8, l: bv8)
    ensures TopByte(Word(h, l)) == h && BottomByte(Word(h, l)) == l
  {
  }

  lemma CarryIs(af: bv16)
    ensures Carry(Lo(af)) == CarryBit(af) && CarryBit(af) <= 1
  {
  }

  lemma ByteIs(a: bv8, v: bv8, k: bv8)
    ensures AddByte(a, v, k) == Plus(a, v, k) && SubByte(a, v, k) == Minus(a, v, k)
  {
  }

  lemma SumLaw(y: bv8, af: bv16, v: bv8)
    requires y == 0 || y == 1
    ensures AluDone(y, af, v, Alu(y, af, v))
  {
    hide Hi, Lo, Word, TopByte, BottomByte, Joined, SumFlags, AddFlags, AddByte, Plus, CarryBit, Carry;
    var k := if y == 0 then 0 else CarryBit(af);
    Halves(af, 0, 0);
    CarryIs(af);
    ByteIs(TopByte(af), v, k);
    AddFlagsLaw(TopByte(af), v, k);
    Parts(AddByte(TopByte(af), v, k), AddFlags(TopByte(af), v, k));
  }

  lemma DifferenceLaw(y: bv8, af: bv16, v: bv8)
    requires y == 2 || y == 3
    ensures AluDone(y, af, v, Alu(y, af, v))
  {
    hide Hi, Lo, Word, TopByte, BottomByte, Joined, DifferenceFlags, SubFlags, SubByte, Minus, CarryBit, Carry;
    var k := if y == 2 then 0 else CarryBit(af);
    Halves(af, 0, 0);
    CarryIs(af);
    ByteIs(TopByte(af), v, k);
    SubFlagsLaw(TopByte(af), v, k);
    Parts(SubByte(TopByte(af), v, k), SubFlags(TopByte(af), v, k));
  }

  lemma LogicALaw(r: bv8)
    ensures TopByte(LogicA(r, FLAG_H)) == r && LogicalFlags(r, true, BottomByte(LogicA(r, FLAG_H)))
    ensures TopByte(LogicA(r, 0)) == r && LogicalFlags(r, false, BottomByte(LogicA(r, 0)))
  {
    hide Word, TopByte, BottomByte, LogicalFlags, LogicFlags;
    LogicFlagsLaw(r);
    OrZero(LogicFlags(r));
    Parts(r, LogicFlags(r) | FLAG_H);
    Parts(r, LogicFlags(r));
  }

  lemma OrZero(f: bv8)
    ensures f | 0 == f
  {
  }

  function And(a: bv8, v: bv8): bv8 {
    a & v
  }

  function Xor(a: bv8, v: bv8): bv8 {
    a ^ v
  }

  function Or(a: bv8, v: bv8): bv8 {
    a | v
  }

  lemma AndOp(af: bv16, v: bv8)
    ensures Alu(4, af, v) == LogicA(And(TopByte(af), v), FLAG_H)
  {
    hide LogicA;
  }

  lemma XorOp(af: bv16, v: bv8)
    ensures Alu(5, af, v) == LogicA(Xor(TopByte(af), v), 0)
  {
    hide LogicA;
  }

  lemma OrOp(af: bv16, v: bv8)
    ensures Alu(6, af, v) == LogicA(Or(TopByte(af), v), 0)
  {
    hide LogicA;
  }

  lemma LogicLaw(y: bv8, af: bv16, v: bv8)
    requires y == 4 || y == 5 || y == 6
    ensures AluDone(y, af, v, Alu(y, af, v))
  {
    hide Alu, And, Xor, Or, LogicA, TopByte, BottomByte, LogicalFlags, CarryBit;
    var a := TopByte(af);
    AndOp(af, v);
    XorOp(af, v);
    OrOp(af, v);
    LogicALaw(And(a, v));
    LogicALaw(Xor(a, v));
    LogicALaw(Or(a, v));
  }

  lemma CompareLaw(af: bv16, v: bv8)
    ensures AluDone(7, af, v, Alu(7, af, v))
  {
    hide Hi, Lo, Word, TopByte, BottomByte, Joined, DifferenceFlags, CompareFlags, SubByte, Minus, CarryBit, Carry;
    Halves(af, 0, 0);
    ByteIs(TopByte(af), v, 0);
    CompareFlagsLaw(TopByte(af), v);
    Parts(TopByte(af), CompareFlags(TopByte(af), v, 0));
  }

  lemma AluLaw(y: bv8, af: bv16, v: bv8)
    requires y < 8
    ensures AluDone(y, af, v, Alu(y, af, v))
  {
    hide AluDone, Alu;
    if y == 0 || y == 1 {
      SumLaw(y, af, v);
    } else if y == 2 || y == 3 {
      DifferenceLaw(y, af, v);
    } else if y < 7 {
      LogicLaw(y, af, v);
    } else {
      CompareLaw(af, v);
    }
  }

  lemma AluOpcodes(c: Cpu, y: bv8, z: bv8)
    requires y < 8 && z < 8
    ensures Execute(c, 0x80 | (y << 3) | z) == Ran(c.(af := Alu(y, c.af, Reg(c, z))))
    ensures Execute(c, 0xc6 | (y << 3)) == Ran(Skip(c, 1).(af := Alu(y, c.af, Get(c.mem, c.pc))))
  {
    hide Alu, Reg, Skip, Get;
    AluFields(y, z);
  }

  lemma AluFields(y: bv8, z: bv8)
    requires y < 8 && z < 8
    ensures Y(0x80 | (y << 3) | z) == y && Z(0x80 | (y << 3) | z) == z && 0x80 <= 0x80 | (y << 3) | z < 0xc0
    ensures Y(0xc6 | (y << 3)) == y && Z(0xc6 | (y << 3)) == 6 && 0xc6 | (y << 3) >= 0xc0
  {
  }

  /** The eight operations on A with a register or the byte at HL. */
  lemma AluRegisterLaw(c: Cpu, y: bv8, z: bv8, v: bv8)
    requires y < 8 && IsRegister(c, z, v) && c.mem(c.pc) == 0x80 | (y << 3) | z
    ensures StepOf(c).Ran? && StepOf(c).cpu.(af := c.af) == c.(pc := Plus1(c.pc))
            && AluDone(y, c.af, v, StepOf(c).cpu.af)
  {
    hide StepOf, Execute, Plus1, Reg, IsRegister, Alu, AluDone;
    var c1 := c.(pc := c.pc + 1);
    Fetched(c);
    Steps(c.pc);
    SameRegister(c, Plus1(c.pc), z, v);
    RegIs(c1, z, v);
    AluOpcodes(c1, y, z);
    AluLaw(y, c.af, v);
  }

  /** The eight operations on A with a byte behind the opcode. */
  lemma AluImmediateLaw(c: Cpu, y: bv8)
    requires y < 8 && c.mem(c.pc) == 0xc6 | (y << 3)
    ensures StepOf(c).Ran? && StepOf(c).cpu.(af := c.af) == c.(pc := Plus2(c.pc))
    ensures AluDone(y, c.af, c.mem(Plus1(c.pc)), StepOf(c).cpu.af)
  {
    hide StepOf, Execute, Plus1, Plus2, Skip, Alu, AluDone;
    Fetched(c);
    Steps(c.pc);
    SkipOne(c);
    AluOpcodes(c.(pc := c.pc + 1), y, 0);
    AluLaw(y, c.af, c.mem(Plus1(c.pc)));
  }

  /** CP n and then JR Z: the jump is taken exactly if A is n; with JR C, if A is smaller. */
  lemma CompareAndJump(c: Cpu, c1: Cpu)
    requires c.mem(c.pc) == 0xfe && StepOf(c) == Ran(c1)
    ensures var a, n, d := TopByte(c.af), c.mem(Plus1(c.pc)), Displacement(c.mem(Plus1(c1.pc)));
            && c1.pc == Plus2(c.pc) && TopByte(c1.af) == a
            && (c.mem(c1.pc) == 0x28 ==>
                StepOf(c1) == Ran(c1.(pc := if a == n then Jumped(c1.pc, d) else Plus2(c1.pc))))
            && (c.mem(c1.pc) == 0x38 ==> StepOf(c1) == Ran(c1.(pc := if a < n then Jumped(c1.pc, d) else Plus2(c1.pc))))
  {
    hide StepOf, AluDone, Holds, Jumped, Displacement, Plus1, Plus2, TopByte;
    AluImmediateLaw(c, 7);
    CompareFlagBits(c.af, c1.af, c.mem(Plus1(c.pc)));
    if c.mem(c1.pc) == 0x28 {
      JrLaw(c1, 1, 0x40, true);
    }
    if c.mem(c1.pc) == 0x38 {
      JrLaw(c1, 3, 0x01, true);
    }
  }

  lemma CompareFlagBits(af: bv16, af': bv16, v: bv8)
    requires AluDone(7, af, v, af')
    ensures Holds(af', 0x40, true) <==> TopByte(af) == v
    ensures Holds(af', 0x01, true) <==> TopByte(af) < v
    ensures TopByte(af') == TopByte(af)
  {
    FlagOfWord(af');
    Same(TopByte(af), v);
    hide TopByte, BottomByte, CopiedBits, SumFlags, LogicalFlags;
  }

  lemma FlagOfWord(af: bv16)
    ensures Holds(af, 0x40, true) <==> BottomByte(af) & 0x40 != 0
    ensures Holds(af, 0x01, true) <==> BottomByte(af) & 0x01 != 0
  {
  }

  lemma Same(a: bv8, v: bv8)
    ensures Minus(a, v, 0) == 0 <==> a == v
  {
  }
}
