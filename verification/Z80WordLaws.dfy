/** Laws of the 16-bit sums with carry and the long loads, with opcodes and flag bits written out. */
module Z80WordLaws {
  import opened Z80Cpu
  import opened Z80Laws
  import opened Z80DataLaws

  // ----- ADD HL,rr -----

  function Sum(x: bv16, w: bv16): bv16 {
    x + w
  }

  /** The carries out of the bits of a sum, and the borrows of a difference. */
  function CarriesOut(x: bv16, w: bv16, r: bv16): bv16 {
    (x & w) | ((x | w) & !r)
  }

  function BorrowsOut(x: bv16, w: bv16, r: bv16): bv16 {
    (!x & w) | ((!x | w) & r)
  }

  /** ADD HL: half carry out of bit 11, carry out of bit 15, N clear; sign, zero and parity stay. */
  predicate Sum16(old_: bv8, x: bv16, w: bv16, f: bv8) {
    var r := Sum(x, w);
    && f & 0xc4 == old_ & 0xc4 && f & 0x02 == 0 && f & 0x28 == TopByte(r) & 0x28
    && (f & 0x01 != 0 <==> CarriesOut(x, w, r) & 0x8000 != 0) && (f & 0x10 != 0 <==> CarriesOut(x, w, r) & 0x0800 != 0)
  }

  lemma Add16Law(old_: bv8, x: bv16, w: bv16)
    ensures Sum16(old_, x, w, Add16Flags(old_, x, w)) && WordAdd(x, w) == Sum(x, w)
  {
  }

  lemma AddOpcodes(c: Cpu)
    ensures Execute(c, 0x09) == Ran(c.(hl := WordAdd(c.hl, c.bc),
                                       af := Word(Hi(c.af), Add16Flags(Lo(c.af), c.hl, c.bc))))
    ensures Execute(c, 0x19) == Ran(c.(hl := WordAdd(c.hl, c.de),
                                       af := Word(Hi(c.af), Add16Flags(Lo(c.af), c.hl, c.de))))
    ensures Execute(c, 0x29) == Ran(c.(hl := WordAdd(c.hl, c.hl),
                                       af := Word(Hi(c.af), Add16Flags(Lo(c.af), c.hl, c.hl))))
    ensures Execute(c, 0x39) == Ran(c.(hl := WordAdd(c.hl, c.sp),
                                       af := Word(Hi(c.af), Add16Flags(Lo(c.af), c.hl, c.sp))))
  {
    hide WordAdd, Add16Flags, Word, Hi, Lo, GetWord, Skip;
  }

  /** HL is the sum, the flags tell how it came about, and nothing else has changed. */
  ghost predicate Added(c: Cpu, o: Outcome, w: bv16) {
    && o.Ran? && o.cpu.hl == Sum(c.hl, w) && TopByte(o.cpu.af) == TopByte(c.af)
    && Sum16(BottomByte(c.af), c.hl, w, BottomByte(o.cpu.af)) && o.cpu.(hl := c.hl, af := c.af) == c.(pc := Plus1(c.pc))
  }

  lemma AddedIs(c: Cpu, w: bv16)
    ensures Added(c, Ran(c.(pc := Plus1(c.pc), hl := WordAdd(c.hl, w),
                            af := Word(Hi(c.af), Add16Flags(Lo(c.af), c.hl, w)))), w)
  {
    hide Hi, Lo, Word, TopByte, BottomByte, Sum, WordAdd, Sum16, Add16Flags, Plus1;
    Halves(c.af, 0, 0);
    Add16Law(Lo(c.af), c.hl, w);
    Parts(Hi(c.af), Add16Flags(Lo(c.af), c.hl, w));
  }

  /** ADD HL,rr. */
  lemma AddPairLaw(c: Cpu)
    ensures c.mem(c.pc) == 0x09 ==> Added(c, StepOf(c), c.bc)
    ensures c.mem(c.pc) == 0x19 ==> Added(c, StepOf(c), c.de)
    ensures c.mem(c.pc) == 0x29 ==> Added(c, StepOf(c), c.hl)
    ensures c.mem(c.pc) == 0x39 ==> Added(c, StepOf(c), c.sp)
  {
    hide StepOf, Execute, Plus1, Added, WordAdd, Word, Hi, Lo, Add16Flags;
    Fetched(c);
    Steps(c.pc);
    AddOpcodes(c.(pc := c.pc + 1));
    AddedIs(c, c.bc);
    AddedIs(c, c.de);
    AddedIs(c, c.hl);
    AddedIs(c, c.sp);
  }

  // ----- ADC HL,rr, SBC HL,rr -----

  function Ample(x: bv16): bv32 {
    x as bv32
  }

  function Bit32(k: bv8): bv32 {
    k as bv32
  }

  /** The sum and the difference with room for a carry. */
  function Long(x: bv16, w: bv16, k: bv8, up: bool): bv32 {
    if up then Total(Ample(x), Ample(w), Bit32(k)) else Remaining(Ample(x), Ample(w), Bit32(k))
  }

  function Total(x: bv32, w: bv32, k: bv32): bv32 {
    x + w + k
  }

  function Remaining(x: bv32, w: bv32, k: bv32): bv32 {
    x - w - k
  }

  function LowWord(s: bv32): bv16 {
    (s & 0xffff) as bv16
  }

  /** Overflow: a sign that the operands cannot have given. */
  predicate Overflow16(x: bv32, w: bv32, s: bv32, up: bool) {
    (((x ^ s) & (if up then w ^ s else x ^ w)) >> 15) & 1 != 0
  }

  /** The flags of a 16-bit sum or difference with carry: carries into bit 12 and bit 16. */
  predicate Flags16(x: bv32, w: bv32, s: bv32, up: bool, f: bv8) {
    && (f & 0x80 != 0 <==> s & 0x8000 != 0) && (f & 0x40 != 0 <==> s & 0xffff == 0)
    && (f & 0x10 != 0 <==> (x ^ w ^ s) & 0x1000 != 0) && (f & 0x01 != 0 <==> s & 0x10000 != 0)
    && (f & 0x04 != 0 <==> Overflow16(x, w, s, up)) && (f & 0x02 != 0 <==> !up)
  }

  predicate CarriesDiffer(x: bv32, w: bv32, s: bv32) {
    ((s >> 16) & 1) ^ (((x ^ w ^ s) >> 15) & 1) != 0
  }

  lemma OverflowUp(x: bv32, w: bv32, k: bv32)
    requires x <= 0xffff && w <= 0xffff && k <= 1
    ensures CarriesDiffer(x, w, Total(x, w, k)) <==> Overflow16(x, w, Total(x, w, k), true)
  {
  }

  lemma OverflowBits(x: bv32, w: bv32, k: bv32)
    requires x <= 0xffff && w <= 0xffff && k <= 1
    ensures var s := Remaining(x, w, k); ((s >> 16) & 1) ^ (((x ^ w ^ s) >> 15) & 1) == (((x ^ s) & (x ^ w)) >> 15) & 1
  {
  }

  lemma SameBits(x: bv32, w: bv32, s: bv32)
    requires ((s >> 16) & 1) ^ (((x ^ w ^ s) >> 15) & 1) == (((x ^ s) & (x ^ w)) >> 15) & 1
    ensures CarriesDiffer(x, w, s) <==> Overflow16(x, w, s, false)
  {
  }

  lemma OverflowDown(x: bv32, w: bv32, k: bv32)
    requires x <= 0xffff && w <= 0xffff && k <= 1
    ensures CarriesDiffer(x, w, Remaining(x, w, k)) <==> Overflow16(x, w, Remaining(x, w, k), false)
  {
    OverflowBits(x, w, k);
    hide CarriesDiffer, Overflow16;
    SameBits(x, w, Remaining(x, w, k));
  }

  lemma FlagsOf(x: bv16, w: bv16, s: bv32, up: bool)
    requires CarriesDiffer(Ample(x), Ample(w), s) <==> Overflow16(Ample(x), Ample(w), s, up)
    ensures Flags16(Ample(x), Ample(w), s, up, Sum16Flags(x, w, s, if up then 0 else FLAG_N))
  {
  }

  lemma NoMoreThan(x: bv16, k: bv8)
    ensures Ample(x) <= 0xffff && (k <= 1 ==> Bit32(k) <= 1)
  {
  }

  lemma LongFlags(x: bv16, w: bv16, k: bv8, up: bool)
    requires k <= 1
    ensures var s := Long(x, w, k, up);
            CarriesDiffer(Ample(x), Ample(w), s) <==> Overflow16(Ample(x), Ample(w), s, up)
  {
    hide CarriesDiffer, Overflow16, Total, Remaining, Ample, Bit32;
    NoMoreThan(x, k);
    NoMoreThan(w, k);
    if up {
      OverflowUp(Ample(x), Ample(w), Bit32(k));
    } else {
      OverflowDown(Ample(x), Ample(w), Bit32(k));
    }
  }

  /** HL is the sum or difference with the carry, the flags tell how it came about, and nothing else has changed. */
  ghost predicate Added16(c: Cpu, c': Cpu, w: bv16, up: bool) {
    var s := Long(c.hl, w, CarryBit(c.af), up);
    && c'.hl == LowWord(s) && TopByte(c'.af) == TopByte(c.af) && c'.(hl := c.hl, af := c.af) == c
    && Flags16(Ample(c.hl), Ample(w), s, up, BottomByte(c'.af))
  }

  lemma SumIs(x: bv32, w: bv32, k: bv32)
    ensures Sum17(x, w, k) == Total(x, w, k) && Diff17(x, w, k) == Remaining(x, w, k)
  {
  }

  lemma WideIs(x: bv16, k: bv8)
    ensures Wide16(x) == Ample(x) && Wide(k) == Bit32(k)
  {
  }

  lemma LowIs(s: bv32)
    ensures Low16(s) == LowWord(s)
  {
  }

  lemma SumHLIs(c: Cpu, p: bv8, up: bool)
    ensures Added16(c, SumHL(c, p, up), Pair(c, p), up)
  {
    var w, k := Pair(c, p), CarryBit(c.af);
    CarryIs(c.af);
    WideIs(c.hl, k);
    WideIs(w, k);
    SumIs(Wide16(c.hl), Wide16(w), Wide(k));
    hide Pair, Ample, Bit32, CarryBit, Carry, Sum17, Diff17, Wide16, Wide, Low16, LowWord, Total, Remaining,
         Sum16Flags, Flags16, Hi, Lo, Word, TopByte,
         BottomByte, CarriesDiffer, Overflow16;
    var s := Long(c.hl, w, k, up);
    LowIs(s);
    Halves(c.af, 0, 0);
    LongFlags(c.hl, w, k, up);
    FlagsOf(c.hl, w, s, up);
    Parts(Hi(c.af), Sum16Flags(c.hl, w, s, if up then 0 else FLAG_N));
  }

  // ----- The ED page -----

  lemma ExtendedPrefix(c: Cpu)
    ensures Execute(c, 0xed) == ExtendedPage(Skip(c, 1), Get(c.mem, c.pc))
  {
    hide LowPage, SetReg, Reg, Alu, ExtendedPage, Skip, Get;
    assert Z(0xed) == 5 && 0xed as bv8 & 8 != 0;
  }

  lemma ExtendedFetched(c: Cpu)
    requires c.mem(c.pc) == 0xed
    ensures StepOf(c) == ExtendedPage(c.(pc := Plus2(c.pc)), c.mem(Plus1(c.pc)))
  {
    hide StepOf, Execute, ExtendedPage, Skip, Plus1, Plus2;
    Fetched(c);
    Steps(c.pc);
    SkipOne(c);
    ExtendedPrefix(c.(pc := c.pc + 1));
  }

  lemma SumOpcodes(c: Cpu)
    ensures ExtendedPage(c, 0x42) == Ran(SumHL(c, 0, false)) && ExtendedPage(c, 0x4a) == Ran(SumHL(c, 0, true))
    ensures ExtendedPage(c, 0x52) == Ran(SumHL(c, 1, false)) && ExtendedPage(c, 0x5a) == Ran(SumHL(c, 1, true))
    ensures ExtendedPage(c, 0x62) == Ran(SumHL(c, 2, false)) && ExtendedPage(c, 0x6a) == Ran(SumHL(c, 2, true))
    ensures ExtendedPage(c, 0x72) == Ran(SumHL(c, 3, false)) && ExtendedPage(c, 0x7a) == Ran(SumHL(c, 3, true))
  {
    hide SumHL, BlockPage, SystemPage, GetWord, Skip;
  }

  lemma PairValues(c: Cpu)
    ensures Pair(c, 0) == c.bc && Pair(c, 1) == c.de && Pair(c, 2) == c.hl && Pair(c, 3) == c.sp
  {
  }

  /** SBC HL,rr and ADC HL,rr. */
  lemma SumWithCarryLaw(c: Cpu, op: bv8)
    requires c.mem(c.pc) == 0xed && op == c.mem(Plus1(c.pc))
    ensures var next := c.(pc := Plus2(c.pc));
            && (op == 0x42 ==> StepOf(c).Ran? && Added16(next, StepOf(c).cpu, c.bc, false))
            && (op == 0x52 ==> StepOf(c).Ran? && Added16(next, StepOf(c).cpu, c.de, false))
            && (op == 0x62 ==> StepOf(c).Ran? && Added16(next, StepOf(c).cpu, c.hl, false))
            && (op == 0x72 ==> StepOf(c).Ran? && Added16(next, StepOf(c).cpu, c.sp, false))
            && (op == 0x4a ==> StepOf(c).Ran? && Added16(next, StepOf(c).cpu, c.bc, true))
            && (op == 0x5a ==> StepOf(c).Ran? && Added16(next, StepOf(c).cpu, c.de, true))
            && (op == 0x6a ==> StepOf(c).Ran? && Added16(next, StepOf(c).cpu, c.hl, true))
            && (op == 0x7a ==> StepOf(c).Ran? && Added16(next, StepOf(c).cpu, c.sp, true))
  {
    hide StepOf, ExtendedPage, SumHL, Added16, Pair, Plus1, Plus2;
    var next := c.(pc := Plus2(c.pc));
    ExtendedFetched(c);
    SumOpcodes(next);
    PairValues(next);
    var up := op == 0x4a || op == 0x5a || op == 0x6a || op == 0x7a;
    SumHLIs(next, 0, up);
    SumHLIs(next, 1, up);
    SumHLIs(next, 2, up);
    SumHLIs(next, 3, up);
  }

  lemma LongLoadOpcodes(c: Cpu)
    ensures var nn, c2 := GetWord(c.mem, c.pc), Skip(c, 2);
            && ExtendedPage(c, 0x43) == Ran(c2.(mem := PutWord(c.mem, nn, c.bc)))
                && ExtendedPage(c, 0x4b) == Ran(c2.(bc := GetWord(c.mem, nn)))
            && ExtendedPage(c, 0x53) == Ran(c2.(mem := PutWord(c.mem, nn, c.de)))
                && ExtendedPage(c, 0x5b) == Ran(c2.(de := GetWord(c.mem, nn)))
            && ExtendedPage(c, 0x63) == Ran(c2.(mem := PutWord(c.mem, nn, c.hl)))
                && ExtendedPage(c, 0x6b) == Ran(c2.(hl := GetWord(c.mem, nn)))
            && ExtendedPage(c, 0x73) == Ran(c2.(mem := PutWord(c.mem, nn, c.sp)))
                && ExtendedPage(c, 0x7b) == Ran(c2.(sp := GetWord(c.mem, nn)))
  {
    hide SumHL, BlockPage, SystemPage, GetWord, PutWord;
  }

  function Plus4(w: bv16): bv16 {
    w + 4
  }

  /** The operand behind a prefix and an opcode. */
  function LongOperand(c: Cpu): bv16 {
    Joined(c.mem(Plus3(c.pc)), c.mem(Plus2(c.pc)))
  }

  lemma LongWordAt(c: Cpu)
    ensures GetWord(c.mem, Plus2(c.pc)) == LongOperand(c)
  {
    hide GetWord, Plus1, Plus2, Plus3, Joined;
    WordIs(c.mem, Plus2(c.pc));
    OneAndTwo(c.pc);
  }

  lemma OneAndTwo(w: bv16)
    ensures Plus1(Plus2(w)) == Plus3(w)
  {
  }

  lemma SkipFour(c: Cpu)
    ensures Skip(c.(pc := Plus2(c.pc)), 2) == c.(pc := Plus4(c.pc))
  {
  }

  /** LD rr,(nn). */
  lemma LongLoadLaw(c: Cpu, op: bv8)
    requires c.mem(c.pc) == 0xed && op == c.mem(Plus1(c.pc))
    ensures var nn, next := LongOperand(c), c.(pc := Plus4(c.pc));
            var w := Joined(c.mem(Plus1(nn)), c.mem(nn));
            && (op == 0x4b ==> StepOf(c) == Ran(next.(bc := w))) && (op == 0x5b ==> StepOf(c) == Ran(next.(de := w)))
            && (op == 0x6b ==> StepOf(c) == Ran(next.(hl := w))) && (op == 0x7b ==> StepOf(c) == Ran(next.(sp := w)))
  {
    hide StepOf, ExtendedPage, Skip, GetWord, PutWord, LongOperand, Joined, Plus1, Plus2, Plus4;
    ExtendedFetched(c);
    LongLoadOpcodes(c.(pc := Plus2(c.pc)));
    LongWordAt(c);
    SkipFour(c);
    WordIs(c.mem, LongOperand(c));
  }

  /** LD (nn),rr. */
  lemma LongStoreLaw(c: Cpu, op: bv8)
    requires c.mem(c.pc) == 0xed && op == c.mem(Plus1(c.pc))
    ensures var nn, next := LongOperand(c), c.(pc := Plus4(c.pc));
            && (op == 0x43 ==> StepOf(c).Ran? && WordWritten(next, StepOf(c).cpu, nn, c.bc))
            && (op == 0x53 ==> StepOf(c).Ran? && WordWritten(next, StepOf(c).cpu, nn, c.de))
            && (op == 0x63 ==> StepOf(c).Ran? && WordWritten(next, StepOf(c).cpu, nn, c.hl))
            && (op == 0x73 ==> StepOf(c).Ran? && WordWritten(next, StepOf(c).cpu, nn, c.sp))
  {
    hide StepOf, ExtendedPage, Skip, GetWord, PutWord, LongOperand, WordWritten, Plus1, Plus2, Plus4;
    var next := c.(pc := Plus4(c.pc));
    ExtendedFetched(c);
    LongLoadOpcodes(c.(pc := Plus2(c.pc)));
    LongWordAt(c);
    SkipFour(c);
    PutWordWrites(next, LongOperand(c), c.bc);
    PutWordWrites(next, LongOperand(c), c.de);
    PutWordWrites(next, LongOperand(c), c.hl);
    PutWordWrites(next, LongOperand(c), c.sp);
  }
}
