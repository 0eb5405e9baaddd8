/** Laws of the single block instructions and of the index registers, with opcodes and flag bits written out. */
module Z80IndexLaws {
  import opened Z80Cpu
  import opened Z80Laws
  import opened Z80DataLaws
  import opened Z80BitLaws
  import opened Z80WordLaws

  // ----- LDI, LDD, CPI, CPD -----

  lemma BlockOpcodes(c: Cpu)
    ensures ExtendedPage(c, 0xa0) == Ran(MoveStep(c, true)) && ExtendedPage(c, 0xa8) == Ran(MoveStep(c, false))
    ensures ExtendedPage(c, 0xa1) == Ran(SearchStep(c, true)) && ExtendedPage(c, 0xa9) == Ran(SearchStep(c, false))
  {
    hide MoveStep, SearchStep, MoveTimes, SearchUntil, WordPage, SystemPage;
  }

  /** The flags of a single move of `v`: P tells of more to come. */
  predicate MoveFlags(a: bv8, v: bv8, old_: bv8, more: bool, f: bv8) {
    && f & 0xc1 == old_ & 0xc1 && f & 0x12 == 0 && (f & 0x04 != 0 <==> more)
    && (f & 0x08 != 0 <==> Plus(a, v, 0) & 0x08 != 0) && (f & 0x20 != 0 <==> Plus(a, v, 0) & 0x02 != 0)
  }

  lemma MoveFlagsAre(a: bv8, v: bv8, f: bv8, more: bool)
    ensures MoveFlags(a, v, f, more, MovedFlags(a, f, v) | When(more, FLAG_P))
  {
  }

  /** One byte has moved, the pointers have stepped, the count has gone down. */
  ghost predicate MovedOne(c: Cpu, c': Cpu, hl: bv16, de: bv16) {
    && c'.hl == hl && c'.de == de && c'.bc == Minus1(c.bc) && TopByte(c'.af) == TopByte(c.af)
    && MoveFlags(TopByte(c.af), c.mem(c.hl), BottomByte(c.af), Minus1(c.bc) != 0, BottomByte(c'.af))
    && Written(c, c'.(af := c.af, bc := c.bc, de := c.de, hl := c.hl), c.de, c.mem(c.hl))
  }

  lemma BelowIs(w: bv16)
    ensures Below(w) == Minus1(w)
  {
  }

  lemma MoveStepIs(c: Cpu, up: bool)
    ensures MovedOne(c, MoveStep(c, up), if up then Plus1(c.hl) else Minus1(c.hl),
                     if up then Plus1(c.de) else Minus1(c.de))
  {
    hide Word, Hi, Lo, TopByte, BottomByte, MovedFlags, When, MoveFlags, Below, Stepped, Plus1, Minus1, Put, Written;
    Halves(c.af, 0, 0);
    BelowIs(c.bc);
    SteppedIs(c.hl);
    SteppedIs(c.de);
    MoveFlagsAre(Hi(c.af), c.mem(c.hl), Lo(c.af), Below(c.bc) != 0);
    Parts(Hi(c.af), MovedFlags(Hi(c.af), Lo(c.af), c.mem(c.hl)) | When(Below(c.bc) != 0, FLAG_P));
    PutWrites(c, c.de, c.mem(c.hl));
  }

  /** LDI and LDD. */
  lemma MoveLaw(c: Cpu)
    requires c.mem(c.pc) == 0xed
    ensures var next := c.(pc := Plus2(c.pc));
            && (c.mem(Plus1(c.pc)) == 0xa0 ==>
                StepOf(c).Ran? && MovedOne(next, StepOf(c).cpu, Plus1(c.hl), Plus1(c.de)))
            && (c.mem(Plus1(c.pc)) == 0xa8 ==>
                StepOf(c).Ran? && MovedOne(next, StepOf(c).cpu, Minus1(c.hl), Minus1(c.de)))
  {
    hide StepOf, ExtendedPage, MoveStep, SearchStep, MovedOne, Plus1, Plus2, Minus1;
    var next := c.(pc := Plus2(c.pc));
    ExtendedFetched(c);
    BlockOpcodes(next);
    MoveStepIs(next, true);
    MoveStepIs(next, false);
  }

  /** The flags of a single comparison: as for a difference, but that P tells of more to come, and the old carry. */
  predicate CompareOne(a: bv8, v: bv8, old_: bv8, more: bool, f: bv8) {
    && (f & 0x80 != 0 <==> Minus(a, v, 0) & 0x80 != 0) && (f & 0x40 != 0 <==> a == v)
        && (f & 0x10 != 0 <==> a & 15 < v & 15)
    && (f & 0x04 != 0 <==> more) && f & 0x02 != 0 && f & 0x01 == old_ & 0x01
  }

  lemma SearchBits(a: bv8, v: bv8)
    ensures SearchSign(a, v) == Minus(a, v, 0) & 0x80 && (SearchZero(a, v) == if a == v then 0x40 else 0)
    ensures (SearchHalf(a, v) == if a & 15 < v & 15 then 0x10 else 0)
    ensures SearchThree(a, v) & 0xd7 == 0 && SearchFive(a, v) & 0xd7 == 0
  {
  }

  lemma JoinedBits(k: bv8, s: bv8, z: bv8, h: bv8, x3: bv8, x5: bv8, p: bv8)
    requires s & 0x7f == 0 && z & 0xbf == 0 && h & 0xef == 0 && x3 & 0xd7 == 0 && x5 & 0xd7 == 0 && p & 0xfb == 0
             && k & 0xfe == 0
    ensures var f := JoinSearch(k, s, z, h, x3, x5, p);
            && f & 0x80 == s && f & 0x40 == z && f & 0x10 == h && f & 0x04 == p && f & 0x02 != 0 && f & 0x01 == k
  {
  }

  lemma PlainBits(more: bool, f: bv8)
    ensures When(more, FLAG_P) == (if more then 4 else 0) && Carry(f) == f & 0x01 && Carry(f) & 0xfe == 0
  {
  }

  lemma CompareOneIs(a: bv8, f: bv8, v: bv8, more: bool)
    ensures CompareOne(a, v, f, more, SearchFlags(a, f, v, more))
  {
    hide SearchSign, SearchZero, SearchHalf, SearchThree, SearchFive, JoinSearch, When, Carry, Minus;
    SearchBits(a, v);
    PlainBits(more, f);
    SignBits(Minus(a, v, 0));
    JoinedBits(Carry(f), SearchSign(a, v), SearchZero(a, v), SearchHalf(a, v), SearchThree(a, v), SearchFive(a, v),
               When(more, FLAG_P));
  }

  lemma SignBits(d: bv8)
    ensures (d & 0x80) & 0x7f == 0
  {
  }

  ghost predicate SearchedOne(c: Cpu, c': Cpu, hl: bv16) {
    && c'.hl == hl && c'.bc == Minus1(c.bc) && TopByte(c'.af) == TopByte(c.af)
    && CompareOne(TopByte(c.af), c.mem(c.hl), BottomByte(c.af), Minus1(c.bc) != 0, BottomByte(c'.af))
    && c'.(af := c.af, bc := c.bc, hl := c.hl) == c
  }

  lemma SearchStepIs(c: Cpu, up: bool)
    ensures SearchedOne(c, SearchStep(c, up), if up then Plus1(c.hl) else Minus1(c.hl))
  {
    hide Word, Hi, Lo, TopByte, BottomByte, SearchFlags, CompareOne, Below, Stepped, Plus1, Minus1;
    Halves(c.af, 0, 0);
    BelowIs(c.bc);
    SteppedIs(c.hl);
    CompareOneIs(Hi(c.af), Lo(c.af), c.mem(c.hl), Below(c.bc) != 0);
    Parts(Hi(c.af), SearchFlags(Hi(c.af), Lo(c.af), c.mem(c.hl), Below(c.bc) != 0));
  }

  /** CPI and CPD. */
  lemma SearchLaw(c: Cpu)
    requires c.mem(c.pc) == 0xed
    ensures var next := c.(pc := Plus2(c.pc));
            && (c.mem(Plus1(c.pc)) == 0xa1 ==> StepOf(c).Ran? && SearchedOne(next, StepOf(c).cpu, Plus1(c.hl)))
            && (c.mem(Plus1(c.pc)) == 0xa9 ==> StepOf(c).Ran? && SearchedOne(next, StepOf(c).cpu, Minus1(c.hl)))
  {
    hide StepOf, ExtendedPage, MoveStep, SearchStep, SearchedOne, Plus1, Plus2, Minus1;
    var next := c.(pc := Plus2(c.pc));
    ExtendedFetched(c);
    BlockOpcodes(next);
    SearchStepIs(next, true);
    SearchStepIs(next, false);
  }

  // ----- The DD and FD prefixes -----

  lemma IndexOpcodes(c: Cpu)
    ensures Execute(c, 0xdd) == Ran(IndexPrefix(c, false)) && Execute(c, 0xfd) == Ran(IndexPrefix(c, true))
  {
    hide IndexPrefix, ExtendedPage, Call, Push;
  }

  lemma IndexFetched(c: Cpu, iy: bool)
    requires c.mem(c.pc) == if iy then 0xfd else 0xdd
    ensures StepOf(c) == Ran(IndexPrefix(c.(pc := Plus1(c.pc)), iy))
  {
    hide StepOf, Execute, IndexPrefix, Plus1;
    Fetched(c);
    Steps(c.pc);
    IndexOpcodes(c.(pc := c.pc + 1));
  }

  /** The opcodes behind a prefix in which the index register stands in for HL. */
  predicate TakesIndex(op: bv8) {
    || op in {0x09, 0x19, 0x21, 0x22, 0x23, 0x24, 0x25, 0x26, 0x29, 0x2a, 0x2b, 0x2c, 0x2d, 0x2e, 0x39}
    || op in {0x44, 0x45, 0x4c, 0x4d, 0x54, 0x55, 0x5c, 0x5d, 0x60, 0x61, 0x62, 0x63, 0x64, 0x65, 0x67}
    || op in {0x68, 0x69, 0x6a, 0x6b, 0x6c, 0x6d, 0x6f, 0x7c, 0x7d}
    || op in {0x84, 0x85, 0x8c, 0x8d, 0x94, 0x95, 0x9c, 0x9d, 0xa4, 0xa5, 0xac, 0xad, 0xb4, 0xb5, 0xbc, 0xbd}
    || op in {0xe1, 0xe3, 0xe5, 0xe9, 0xf9}
  }

  /** The opcodes behind a prefix that take a displacement byte. */
  predicate TakesDisplacement(op: bv8) {
    || op in {0x34, 0x35, 0x36, 0x46, 0x4e, 0x56, 0x5e, 0x66, 0x6e, 0x7e, 0x70, 0x71, 0x72, 0x73, 0x74, 0x75, 0x77}
    || op in {0x86, 0x8e, 0x96, 0x9e, 0xa6, 0xae, 0xb6, 0xbe}
  }

  lemma TakesIndexIs(op: bv8)
    ensures IsIndexOp(op) <==> TakesIndex(op)
  {
  }

  lemma TakesDisplacementIs(op: bv8)
    ensures IsIndexedOp(op) <==> TakesDisplacement(op)
  {
  }

  /** HL and the index register have changed places. */
  function Traded(c: Cpu, iy: bool): Cpu {
    if iy then c.(hl := c.iy, iy := c.hl) else c.(hl := c.ix, ix := c.hl)
  }

  lemma TradedIs(c: Cpu, iy: bool)
    ensures Swap(c, iy) == Traded(c, iy)
  {
  }

  lemma LowIsMain(c: Cpu, op: bv8)
    requires op < 0x40
    ensures Execute(c, op) == Ran(IndexOp(c, op))
  {
    hide LowPage;
  }

  lemma MiddleIsMain(c: Cpu, op: bv8)
    requires 0x40 <= op < 0xc0 && op != 0x76
    ensures Execute(c, op) == Ran(IndexOp(c, op))
  {
    hide SetReg, Reg, Alu, Y, Z;
  }

  lemma HighIsMain(c: Cpu, op: bv8)
    requires op in {0xe1, 0xe3, 0xe5, 0xe9, 0xf9}
    ensures Execute(c, op) == Ran(IndexOp(c, op))
  {
    hide Push, GetWord, TwoAbove;
  }

  lemma IndexParts(op: bv8)
    requires TakesIndex(op)
    ensures op < 0x40 || (0x40 <= op < 0xc0 && op != 0x76) || op in {0xe1, 0xe3, 0xe5, 0xe9, 0xf9}
  {
  }

  lemma IndexIsMain(c: Cpu, op: bv8)
    requires TakesIndex(op)
    ensures Execute(c, op) == Ran(IndexOp(c, op))
  {
    IndexParts(op);
    hide Execute, IndexOp, TakesIndex;
    if op < 0x40 {
      LowIsMain(c, op);
    } else if op < 0xc0 {
      MiddleIsMain(c, op);
    } else {
      HighIsMain(c, op);
    }
  }

  /**
   * DD and FD before these opcodes: what the opcode alone does to HL it does to the index register. The state without
   * the prefix, and with HL and the index register in each other's place, makes the same step.
   */
  lemma IndexLaw(c: Cpu, iy: bool)
    requires c.mem(c.pc) == (if iy then 0xfd else 0xdd) && TakesIndex(c.mem(Plus1(c.pc)))
    ensures var d := Traded(c.(pc := Plus1(c.pc)), iy);
            StepOf(d).Ran? && StepOf(c) == Ran(Traded(StepOf(d).cpu, iy))
  {
    hide StepOf, Execute, IndexOp, IndexPrefix, TakesIndex, IsIndexOp, Swap, Skip, Plus1, Plus2, Traded;
    var op := c.mem(Plus1(c.pc));
    var d := Traded(c.(pc := Plus1(c.pc)), iy);
    IndexFetched(c, iy);
    TakesIndexIs(op);
    IndexStep(c, iy, op);
    FetchedPlus(d);
    TradedFields(c.(pc := Plus1(c.pc)), iy);
    IndexIsMain(d.(pc := Plus1(d.pc)), op);
    TradedIs(IndexOp(d.(pc := Plus1(d.pc)), op), iy);
  }

  lemma FetchedPlus(c: Cpu)
    ensures StepOf(c) == Execute(c.(pc := Plus1(c.pc)), c.mem(c.pc))
  {
    hide StepOf, Execute, Plus1;
    Fetched(c);
    Steps(c.pc);
  }

  lemma TradedFields(c: Cpu, iy: bool)
    ensures Traded(c, iy).pc == c.pc && Traded(c, iy).mem == c.mem
  {
  }

  lemma IndexBranch(c: Cpu, iy: bool)
    requires IsIndexOp(c.mem(c.pc))
    ensures IndexPrefix(c, iy) == Swap(IndexOp(Swap(Skip(c, 1), iy), c.mem(c.pc)), iy)
  {
    hide IndexOp, IndexedOp, IndexedBits, IsIndexOp, IsIndexedOp, Swap, Skip, WordAdd, Signed, Index;
  }

  lemma TradedOn(c: Cpu, iy: bool)
    ensures Swap(Skip(c, 1), iy) == var d := Traded(c, iy); d.(pc := Plus1(d.pc))
  {
    hide Plus1, Skip;
    SkipPlus(c);
  }

  lemma IndexStep(c: Cpu, iy: bool, op: bv8)
    requires op == c.mem(Plus1(c.pc)) && IsIndexOp(op)
    ensures var d := Traded(c.(pc := Plus1(c.pc)), iy);
            IndexPrefix(c.(pc := Plus1(c.pc)), iy) == Swap(IndexOp(d.(pc := Plus1(d.pc)), op), iy)
  {
    hide IndexPrefix, IndexOp, IsIndexOp, Swap, Traded, Skip, Plus1;
    IndexBranch(c.(pc := Plus1(c.pc)), iy);
    TradedOn(c.(pc := Plus1(c.pc)), iy);
  }

  lemma SkipPlus(c: Cpu)
    ensures Skip(c, 1) == c.(pc := Plus1(c.pc))
  {
  }

  /** Before all other opcodes but CB the prefix is ignored. */
  lemma PrefixIgnored(c: Cpu, iy: bool)
    requires c.mem(c.pc) == if iy then 0xfd else 0xdd
    requires var op := c.mem(Plus1(c.pc)); !TakesIndex(op) && !TakesDisplacement(op) && op != 0xcb
    ensures StepOf(c) == Ran(c.(pc := Plus1(c.pc)))
  {
    hide StepOf, IndexOp, IndexedOp, IndexedBits, TakesIndex, TakesDisplacement, IsIndexOp, IsIndexedOp, Swap, Skip,
         Plus1, WordAdd, Signed, Index;
    IndexFetched(c, iy);
    TakesIndexIs(c.mem(Plus1(c.pc)));
    TakesDisplacementIs(c.mem(Plus1(c.pc)));
  }

  // ----- Operands at IX+d and IY+d -----

  function IndexOf(c: Cpu, iy: bool): bv16 {
    if iy then c.iy else c.ix
  }

  /** The address of the operand, modulo 2^16. */
  function At(c: Cpu, iy: bool): bv16 {
    Sum(IndexOf(c, iy), Displacement(c.mem(Plus2(c.pc))))
  }

  lemma DisplacedBranch(c: Cpu, iy: bool)
    requires IsIndexedOp(c.mem(c.pc)) && !IsIndexOp(c.mem(c.pc))
    ensures IndexPrefix(c, iy)
            == IndexedOp(Skip(Skip(c, 1), 1), c.mem(c.pc), WordAdd(Index(c, iy), Signed(Get(c.mem, Skip(c, 1).pc))))
  {
    hide IndexOp, IndexedOp, IndexedBits, IsIndexOp, IsIndexedOp, Swap, Skip, WordAdd, Signed, Index;
  }

  lemma NotBoth(op: bv8)
    ensures TakesDisplacement(op) ==> !IsIndexOp(op) && IsIndexedOp(op)
  {
  }

  lemma SumIs(x: bv16, w: bv16)
    ensures WordAdd(x, w) == Sum(x, w)
  {
  }

  lemma TwoOn(w: bv16)
    ensures Plus1(Plus1(w)) == Plus2(w)
  {
  }

  lemma ThreeOn(w: bv16)
    ensures Plus1(Plus2(w)) == Plus3(w)
  {
  }

  lemma FourOn(w: bv16)
    ensures Plus1(Plus3(w)) == Plus4(w)
  {
  }

  lemma SkipsTwo(c: Cpu)
    ensures var c1 := c.(pc := Plus1(c.pc));
            Skip(c1, 1) == c.(pc := Plus2(c.pc)) && Skip(Skip(c1, 1), 1) == c.(pc := Plus3(c.pc))
  {
    hide Skip, Plus1, Plus2, Plus3;
    SkipPlus(c.(pc := Plus1(c.pc)));
    TwoOn(c.pc);
    ThreeOn(c.pc);
    SkipPlus(c.(pc := Plus2(c.pc)));
  }

  lemma AtIs(c: Cpu, iy: bool)
    ensures WordAdd(Index(c, iy), Signed(c.mem(Plus2(c.pc)))) == At(c, iy)
  {
    hide WordAdd, Sum, Signed, Displacement, Plus2;
    SignedIs(c.mem(Plus2(c.pc)));
    SumIs(IndexOf(c, iy), Displacement(c.mem(Plus2(c.pc))));
  }

  lemma IndexedFetched(c: Cpu, iy: bool)
    requires c.mem(c.pc) == (if iy then 0xfd else 0xdd) && TakesDisplacement(c.mem(Plus1(c.pc)))
    ensures StepOf(c) == Ran(IndexedOp(c.(pc := Plus3(c.pc)), c.mem(Plus1(c.pc)), At(c, iy)))
  {
    hide StepOf, IndexPrefix, IndexedOp, TakesDisplacement, IsIndexOp, IsIndexedOp, Skip, WordAdd, Signed, Index, At,
         Plus1, Plus2, Plus3;
    var c1 := c.(pc := Plus1(c.pc));
    IndexFetched(c, iy);
    NotBoth(c.mem(Plus1(c.pc)));
    DisplacedBranch(c1, iy);
    SkipsTwo(c);
    AtIs(c, iy);
    IndexAnywhere(c, iy, Plus1(c.pc));
  }

  lemma IndexAnywhere(c: Cpu, iy: bool, pc: bv16)
    ensures Index(c.(pc := pc), iy) == Index(c, iy)
  {
  }

  lemma DisplacedFields(y: bv8)
    requires y < 8 && y != 6
    ensures var op := 0x46 | (y << 3); Y(op) == y && 0x40 <= op < 0x80 && TakesDisplacement(op)
    ensures var op := 0x70 | y; Y(op) == 6 && Z(op) == y && 0x40 <= op < 0x80 && TakesDisplacement(op)
  {
  }

  lemma AluDisplaced(y: bv8)
    requires y < 8
    ensures var op := 0x86 | (y << 3); Y(op) == y && 0x80 <= op && TakesDisplacement(op)
  {
  }

  lemma LoadDisplaced(c: Cpu, y: bv8, a: bv16)
    requires y < 8 && y != 6
    ensures IndexedOp(c, 0x46 | (y << 3), a) == SetReg(c, y, c.mem(a))
    ensures IndexedOp(c, 0x70 | y, a) == c.(mem := Put(c.mem, a, Reg(c, y)))
  {
    DisplacedFields(y);
    hide Y, Z, SetReg, Reg, Put, IncReg, DecReg, Alu, TakesDisplacement;
  }

  /** LD r,(IX+d) and LD r,(IY+d): every register but (HL), H and L meaning themselves. */
  lemma LoadIndexedLaw(c: Cpu, iy: bool, y: bv8)
    requires y < 8 && y != 6 && c.mem(c.pc) == (if iy then 0xfd else 0xdd) && c.mem(Plus1(c.pc)) == 0x46 | (y << 3)
    ensures StepOf(c).Ran? && Stored(c.(pc := Plus3(c.pc)), StepOf(c).cpu, y, c.mem(At(c, iy)))
  {
    DisplacedFields(y);
    hide StepOf, IndexedOp, TakesDisplacement, SetReg, Stored, At, Plus1, Plus3;
    IndexedFetched(c, iy);
    LoadDisplaced(c.(pc := Plus3(c.pc)), y, At(c, iy));
    SetRegIs(c.(pc := Plus3(c.pc)), y, c.mem(At(c, iy)));
  }

  /** LD (IX+d),r and LD (IY+d),r. */
  lemma StoreIndexedLaw(c: Cpu, iy: bool, z: bv8, v: bv8)
    requires z != 6 && IsRegister(c, z, v) && c.mem(c.pc) == (if iy then 0xfd else 0xdd)
             && c.mem(Plus1(c.pc)) == 0x70 | z
    ensures StepOf(c).Ran? && Written(c.(pc := Plus3(c.pc)), StepOf(c).cpu, At(c, iy), v)
  {
    RegIs(c, z, v);
    DisplacedFields(z);
    hide StepOf, IndexedOp, TakesDisplacement, Reg, IsRegister, Put, Written, At, Plus1, Plus3;
    var next := c.(pc := Plus3(c.pc));
    IndexedFetched(c, iy);
    LoadDisplaced(next, z, At(c, iy));
    RegAnywhere(c, z, Plus3(c.pc));
    PutWrites(next, At(c, iy), v);
  }

  lemma OtherDisplaced(c: Cpu, a: bv16)
    ensures IndexedOp(c, 0x34, a) == IncReg(c.(hl := a), 6).(hl := c.hl)
            && IndexedOp(c, 0x35, a) == DecReg(c.(hl := a), 6).(hl := c.hl)
    ensures IndexedOp(c, 0x36, a) == Skip(c, 1).(mem := Put(c.mem, a, Get(c.mem, c.pc)))
  {
    hide IncReg, DecReg, Skip, Put, Get;
  }

  lemma AluOfDisplaced(c: Cpu, y: bv8, a: bv16)
    requires y < 8
    ensures IndexedOp(c, 0x86 | (y << 3), a) == c.(af := Alu(y, c.af, c.mem(a)))
  {
    AluDisplaced(y);
    hide Y, Z, SetReg, Reg, Put, IncReg, DecReg, Alu, TakesDisplacement;
  }

  /** The eight operations on A with (IX+d) or (IY+d). */
  lemma AluIndexedLaw(c: Cpu, iy: bool, y: bv8)
    requires y < 8 && c.mem(c.pc) == (if iy then 0xfd else 0xdd) && c.mem(Plus1(c.pc)) == 0x86 | (y << 3)
    ensures StepOf(c).Ran? && StepOf(c).cpu.(af := c.af) == c.(pc := Plus3(c.pc))
    ensures AluDone(y, c.af, c.mem(At(c, iy)), StepOf(c).cpu.af)
  {
    AluDisplaced(y);
    hide StepOf, IndexedOp, TakesDisplacement, Alu, AluDone, At, Plus1, Plus3;
    IndexedFetched(c, iy);
    AluOfDisplaced(c.(pc := Plus3(c.pc)), y, At(c, iy));
    AluLaw(y, c.af, c.mem(At(c, iy)));
  }

  /** LD (IX+d),n and LD (IY+d),n. */
  lemma StoreByteIndexedLaw(c: Cpu, iy: bool)
    requires c.mem(c.pc) == (if iy then 0xfd else 0xdd) && c.mem(Plus1(c.pc)) == 0x36
    ensures StepOf(c).Ran? && Written(c.(pc := Plus4(c.pc)), StepOf(c).cpu, At(c, iy), c.mem(Plus3(c.pc)))
  {
    hide StepOf, IndexedOp, Put, Written, Skip, At, Plus1, Plus3, Plus4;
    IndexedFetched(c, iy);
    OtherDisplaced(c.(pc := Plus3(c.pc)), At(c, iy));
    SkipPlus(c.(pc := Plus3(c.pc)));
    FourOn(c.pc);
    PutWrites(c.(pc := Plus4(c.pc)), At(c, iy), c.mem(Plus3(c.pc)));
  }

  lemma FlagsOnly(c: Cpu, a: bv16, r: bv8, f: bv8)
    ensures var c' := c.(mem := Put(c.mem, a, r), af := Word(Hi(c.af), f));
            BottomByte(c'.af) == f && Written(c, WithFlags(c', BottomByte(c.af)), a, r)
  {
    hide Hi, Lo, Word, TopByte, BottomByte, Joined, Put, Written;
    AllHalves();
    Parts(Hi(c.af), f);
    Again(c.af);
    PutWrites(c, a, r);
  }

  lemma CountsAt(c: Cpu, a: bv16)
    ensures var v, f := c.mem(a), BottomByte(c.af);
            && IncReg(c.(hl := a), 6).(hl := c.hl)
                == c.(mem := Put(c.mem, a, Succ(v)), af := Word(Hi(c.af), IncFlags(f, Succ(v))))
            && DecReg(c.(hl := a), 6).(hl := c.hl)
                == c.(mem := Put(c.mem, a, Pred(v)), af := Word(Hi(c.af), DecFlags(f, Pred(v))))
  {
    hide Hi, Lo, Word, BottomByte, IncFlags, DecFlags, Succ, Pred, Put;
    AllHalves();
  }

  lemma CountedAt(c: Cpu, a: bv16)
    ensures var v, c' := c.mem(a), IncReg(c.(hl := a), 6).(hl := c.hl);
            && Written(c, WithFlags(c', BottomByte(c.af)), a, More(v))
                && IncrementFlags(v, BottomByte(c.af), BottomByte(c'.af))
    ensures var v, c' := c.mem(a), DecReg(c.(hl := a), 6).(hl := c.hl);
            && Written(c, WithFlags(c', BottomByte(c.af)), a, Fewer(v))
                && DecrementFlags(v, BottomByte(c.af), BottomByte(c'.af))
  {
    var v, f := c.mem(a), BottomByte(c.af);
    hide *;
    CountsAt(c, a);
    IncFlagsLaw(v, f);
    DecFlagsLaw(v, f);
    FlagsOnly(c, a, More(v), IncFlags(f, More(v)));
    FlagsOnly(c, a, Fewer(v), DecFlags(f, Fewer(v)));
  }

  /** INC (IX+d) and DEC (IX+d), and with IY. */
  lemma CountIndexedLaw(c: Cpu, iy: bool)
    requires c.mem(c.pc) == if iy then 0xfd else 0xdd
    ensures var a, next, f := At(c, iy), c.(pc := Plus3(c.pc)), BottomByte(c.af); var v := c.mem(a);
            && (c.mem(Plus1(c.pc)) == 0x34 ==>
                  && StepOf(c).Ran? && Written(next, WithFlags(StepOf(c).cpu, f), a, More(v))
                  && IncrementFlags(v, f, BottomByte(StepOf(c).cpu.af)))
            && (c.mem(Plus1(c.pc)) == 0x35 ==>
                  && StepOf(c).Ran? && Written(next, WithFlags(StepOf(c).cpu, f), a, Fewer(v))
                  && DecrementFlags(v, f, BottomByte(StepOf(c).cpu.af)))
  {
    hide StepOf, IndexedOp, IncReg, DecReg, Written, WithFlags, IncrementFlags, DecrementFlags, More, Fewer,
         BottomByte, At, Plus1, Plus3;
    var next := c.(pc := Plus3(c.pc));
    if c.mem(Plus1(c.pc)) == 0x34 || c.mem(Plus1(c.pc)) == 0x35 {
      IndexedFetched(c, iy);
    }
    OtherDisplaced(next, At(c, iy));
    CountedAt(next, At(c, iy));
  }

  lemma OwnPage()
    ensures !IsIndexOp(0xcb) && !IsIndexedOp(0xcb)
  {
  }

  lemma BitsBranch(c: Cpu, iy: bool)
    requires c.mem(c.pc) == 0xcb
    ensures IndexPrefix(c, iy)
            == IndexedBits(Skip(Skip(Skip(c, 1), 1), 1), Get(c.mem, Skip(Skip(c, 1), 1).pc),
                           WordAdd(Index(c, iy), Signed(Get(c.mem, Skip(c, 1).pc))))
  {
    OwnPage();
    hide IndexOp, IndexedOp, IndexedBits, IsIndexOp, IsIndexedOp, Swap, Skip, WordAdd, Signed, Index;
  }

  /**
   * DD CB and FD CB: the CB page with the memory operand at IX+d or IY+d; opcode and displacement are behind the CB.
   */
  lemma IndexedBitsLaw(c: Cpu, iy: bool, z: bv8)
    requires c.mem(c.pc) == (if iy then 0xfd else 0xdd) && c.mem(Plus1(c.pc)) == 0xcb && z == c.mem(Plus3(c.pc)) & 7
    ensures var op, next := c.mem(Plus3(c.pc)), c.(pc := Plus4(c.pc));
            StepOf(c) == Ran(if z == 6 then BitPage(next.(hl := At(c, iy)), op).(hl := c.hl) else BitPage(next, op))
  {
    hide StepOf, IndexPrefix, BitPage, Skip, WordAdd, Signed, Index, At, Plus1, Plus2, Plus3, Plus4;
    var c1 := c.(pc := Plus1(c.pc));
    IndexFetched(c, iy);
    BitsBranch(c1, iy);
    SkipsTwo(c);
    SkipPlus(c.(pc := Plus3(c.pc)));
    FourOn(c.pc);
    AtIs(c, iy);
    IndexAnywhere(c, iy, Plus1(c.pc));
  }
}
