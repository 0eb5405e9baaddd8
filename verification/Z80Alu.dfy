/**
 * The arithmetic instructions of the simulator compute what the instruction descriptions say, whatever the high bits
 * hold.
 */
module Z80Alu {
  import opened Z80Cpu
  import opened Z80Flags

  /** TSTFLAG(C) */
  function CarryIn(AF: word32): word32 {
    AF & 1
  }

  /** Adding and subtracting with and without carry. */
  function Added(acu: word32, temp: word32, c: word32): word32 {
    acu + temp + c
  }

  function Subtracted(acu: word32, temp: word32, c: word32): word32 {
    acu - temp - c
  }

  function Logic(op: bv8, AF: word32, temp: word32): word32 {
    (if op == 4 then (AF >> 8) & temp else if op == 5 then (AF >> 8) ^ temp else (AF >> 8) | temp) & 0xff
  }

  /** ADD, ADC, SUB, SBC, AND, XOR, OR, CP with an operand byte. */
  function AluResult(op: bv8, AF: word32, temp: word32): word32 {
    var acu := hreg(AF);
    if op == 0 then SumResult(acu, temp, Added(acu, temp, 0), 0)
    else if op == 1 then SumResult(acu, temp, Added(acu, temp, CarryIn(AF)), 0)
    else if op == 2 then SumResult(acu, temp, Subtracted(acu, temp, 0), 2)
    else if op == 3 then SumResult(acu, temp, Subtracted(acu, temp, CarryIn(AF)), 2)
    else if op < 7 then LogicResult(Logic(op, AF, temp), if op == 4 then 0x10 else 0)
    else CompareResult(AF, acu, temp, Subtracted(acu, temp, 0))
  }

  lemma CarryInIs(AF: word32)
    ensures CarryIn(AF) == Wide(Carry(Lo(Low(AF)))) && Carry(Lo(Low(AF))) <= 1
  {
  }

  lemma ZeroIs()
    ensures Wide(0) == 0 && Wide(0x10) == 0x10
  {
  }

  lemma SumIsAdded(a: bv8, b: bv8, c: bv8)
    ensures Sum(a, b, c) == Added(Wide(a), Wide(b), Wide(c))
  {
    hide Wide;
  }

  lemma DiffIsSubtracted(a: bv8, b: bv8, c: bv8)
    ensures Diff(a, b, c) == Subtracted(Wide(a), Wide(b), Wide(c))
  {
    hide Wide;
  }

  lemma AddIsA(AF: word32, b: bv8, c: bv8)
    requires c <= 1
    ensures Low(SumResult(hreg(AF), Wide(b), Added(hreg(AF), Wide(b), Wide(c)), 0)) == AddA(Low(AF), b, c)
  {
    hide Low, Wide, Hi, Word, SumResult, AddFlags, hreg, Sum, Added;
    HighIs(AF);
    SumIsAdded(Hi(Low(AF)), b, c);
    AddIs(Hi(Low(AF)), b, c);
  }

  lemma SubIsA(AF: word32, b: bv8, c: bv8)
    requires c <= 1
    ensures Low(SumResult(hreg(AF), Wide(b), Subtracted(hreg(AF), Wide(b), Wide(c)), 2)) == SubA(Low(AF), b, c)
  {
    hide Low, Wide, Hi, Word, SumResult, SubFlags, hreg, Diff, Subtracted;
    HighIs(AF);
    DiffIsSubtracted(Hi(Low(AF)), b, c);
    SubIs(Hi(Low(AF)), b, c);
  }

  lemma HighIs(x: word32)
    ensures hreg(x) == Wide(Hi(Low(x)))
  {
  }

  lemma AndIs(AF: word32, b: bv8)
    ensures ((AF >> 8) & Wide(b)) & 0xff == Wide(Hi(Low(AF)) & b)
  {
  }

  lemma XorIs(AF: word32, b: bv8)
    ensures ((AF >> 8) ^ Wide(b)) & 0xff == Wide(Hi(Low(AF)) ^ b)
  {
  }

  lemma OrIs(AF: word32, b: bv8)
    ensures ((AF >> 8) | Wide(b)) & 0xff == Wide(Hi(Low(AF)) | b)
  {
  }

  lemma AddCase(AF: word32, b: bv8)
    ensures Low(AluResult(0, AF, Wide(b))) == Alu(0, Low(AF), b)
  {
    hide Low, Wide, Hi, Lo, Word, SumResult, CompareResult, LogicResult, LogicFlags, CompareFlags, hreg, CarryIn,
         Carry, AddA, SubA, Added, Subtracted;
    ZeroIs();
    AddIsA(AF, b, 0);
  }

  lemma AdcCase(AF: word32, b: bv8)
    ensures Low(AluResult(1, AF, Wide(b))) == Alu(1, Low(AF), b)
  {
    hide Low, Wide, Hi, Lo, Word, SumResult, CompareResult, LogicResult, LogicFlags, CompareFlags, hreg, CarryIn,
         Carry, AddA, SubA, Added, Subtracted;
    CarryInIs(AF);
    AddIsA(AF, b, Carry(Lo(Low(AF))));
  }

  lemma SubCase(AF: word32, b: bv8)
    ensures Low(AluResult(2, AF, Wide(b))) == Alu(2, Low(AF), b)
  {
    hide Low, Wide, Hi, Lo, Word, SumResult, CompareResult, LogicResult, LogicFlags, CompareFlags, hreg, CarryIn,
         Carry, AddA, SubA, Added, Subtracted;
    ZeroIs();
    SubIsA(AF, b, 0);
  }

  lemma SbcCase(AF: word32, b: bv8)
    ensures Low(AluResult(3, AF, Wide(b))) == Alu(3, Low(AF), b)
  {
    hide Low, Wide, Hi, Lo, Word, SumResult, CompareResult, LogicResult, LogicFlags, CompareFlags, hreg, CarryIn,
         Carry, AddA, SubA, Added, Subtracted;
    CarryInIs(AF);
    SubIsA(AF, b, Carry(Lo(Low(AF))));
  }

  lemma AndCase(AF: word32, b: bv8)
    ensures Low(AluResult(4, AF, Wide(b))) == Alu(4, Low(AF), b)
  {
    hide Low, Wide, Hi, Lo, Word, SumResult, CompareResult, LogicResult, LogicFlags, CompareFlags, hreg, CarryIn,
         Carry, AddA, SubA;
    ZeroIs();
    AndIs(AF, b);
    LogicIs(Hi(Low(AF)) & b, 0x10);
  }

  lemma XorCase(AF: word32, b: bv8)
    ensures Low(AluResult(5, AF, Wide(b))) == Alu(5, Low(AF), b)
  {
    hide Low, Wide, Hi, Lo, Word, SumResult, CompareResult, LogicResult, LogicFlags, CompareFlags, hreg, CarryIn,
         Carry, AddA, SubA;
    ZeroIs();
    XorIs(AF, b);
    LogicIs(Hi(Low(AF)) ^ b, 0);
  }

  lemma OrCase(AF: word32, b: bv8)
    ensures Low(AluResult(6, AF, Wide(b))) == Alu(6, Low(AF), b)
  {
    hide Low, Wide, Hi, Lo, Word, SumResult, CompareResult, LogicResult, LogicFlags, CompareFlags, hreg, CarryIn,
         Carry, AddA, SubA;
    ZeroIs();
    OrIs(AF, b);
    LogicIs(Hi(Low(AF)) | b, 0);
  }

  lemma CpCase(AF: word32, b: bv8)
    ensures Low(AluResult(7, AF, Wide(b))) == Alu(7, Low(AF), b)
  {
    hide Low, Wide, Hi, Lo, Word, SumResult, CompareResult, LogicResult, LogicFlags, CompareFlags, hreg, CarryIn,
         Carry, AddA, SubA, Diff, Subtracted;
    HighIs(AF);
    ZeroIs();
    DiffIsSubtracted(Hi(Low(AF)), b, 0);
    CompareIs(AF, Hi(Low(AF)), b, 0);
  }

  lemma AluIs(op: bv8, AF: word32, b: bv8)
    requires op < 8
    ensures Low(AluResult(op, AF, Wide(b))) == Alu(op, Low(AF), b)
  {
    hide *;
    if op == 0 {
      AddCase(AF, b);
    } else if op == 1 {
      AdcCase(AF, b);
    } else if op == 2 {
      SubCase(AF, b);
    } else if op == 3 {
      SbcCase(AF, b);
    } else if op == 4 {
      AndCase(AF, b);
    } else if op == 5 {
      XorCase(AF, b);
    } else if op == 6 {
      OrCase(AF, b);
    } else {
      CpCase(AF, b);
    }
  }

  // ----- The accumulator instructions -----

  /** AF after DAA. */
  function DaaResult(AF: word32): word32 {
    var (sum, AF') := DaaSteps(AF, hreg(AF));
    var cbits := Truth(AF & 1 != 0) | ((sum >> 8) & 1);
    JoinDaa(sum & 0xff, AF' & 0x12, cbits)
  }

  function JoinDaa(acu: word32, hn: word32, cbits: word32): word32 {
    (acu << 8) | (acu & 0xa8) | (Truth(acu == 0) << 6) | hn | Wide(Partab(Byte(acu))) | cbits
  }

  lemma JoinDaaParts(r: bv8, s: bv8, z: bv8, hn: bv8, p: bv8, c: bv8)
    ensures Low((Wide(r) << 8) | Wide(s) | Wide(z) | Wide(hn) | Wide(p) | Wide(c)) == Word(r, s | z | p | hn | c)
  {
  }

  lemma JoinDaaIs(r: bv8, hn: bv8, c: bv8)
    ensures Low(JoinDaa(Wide(r), Wide(hn), Wide(c))) == Word(r, SignZero(r) | Parity(r) | hn | c)
  {
    hide Low, Wide, Byte, Word, When, Parity, Partab, Truth;
    ByteWide(r);
    ZeroBit(r);
    PartabIs(r);
    JoinDaaParts(r, r & 0xa8, When(r == 0, FLAG_Z), hn, Parity(r), c);
  }

  lemma DaaIs(AF: word32)
    ensures Low(DaaResult(AF)) == Daa(Low(AF))
  {
    hide Low, Wide, Hi, Lo, Word, DaaSteps, JoinDaa, SignZero, Parity, Truth, DaaByte, DaaHN, DaaC, hreg;
    var a, f := Hi(Low(AF)), Lo(Low(AF));
    HighIs(AF);
    DaaValue(AF, a, f);
    DaaCarry(AF, a, f);
    DaaHalf(AF, a, f);
    JoinDaaIs(DaaByte(a, f), DaaHN(a, f), DaaC(a, f));
  }

  function CcfResult(AF: word32): word32 {
    (AF & !0x3b) | ((AF >> 8) & 0x28) | ((AF & 1) << 4) | (!AF & 1)
  }

  /** RLCA, RRCA, RLA, RRA, DAA, CPL, SCF, CCF */
  function AccumulatorResult(op: bv8, AF: word32): word32 {
    var temp := (AF >> 8) & 0xff;
    var sum := temp >> 1;
    if op == 0 then ((AF >> 7) & 0x0128) | ((AF << 1) & !0x1ff) | (AF & 0xc4) | ((AF >> 15) & 1)
    else if op == 1 then ((temp & 1) << 15) | (sum << 8) | (sum & 0x28) | (AF & 0xc4) | (temp & 1)
    else if op == 2
        then ((AF << 8) & 0x0100) | ((AF >> 7) & 0x28) | ((AF << 1) & !0x01ff) | (AF & 0xc4) | ((AF >> 15) & 1)
    else if op == 3 then ((AF & 1) << 15) | (sum << 8) | (sum & 0x28) | (AF & 0xc4) | (temp & 1)
    else if op == 4 then DaaResult(AF)
    else if op == 5 then (!AF & !0xff) | (AF & 0xc5) | ((!AF >> 8) & 0x28) | 0x12
    else if op == 6 then (AF & !0x3b) | ((AF >> 8) & 0x28) | 1
    else CcfResult(AF)
  }

  lemma RlcaCase(AF: word32)
    ensures Low(AccumulatorResult(0, AF)) == Accumulator(0, Low(AF))
  {
    hide Low, Accumulator, DaaResult, Daa;
    RlcaIs(AF);
  }

  lemma RrcaCase(AF: word32)
    ensures Low(AccumulatorResult(1, AF)) == Accumulator(1, Low(AF))
  {
    hide Low, Accumulator, DaaResult, Daa;
    RrcaIs(AF, (AF >> 8) & 0xff, ((AF >> 8) & 0xff) >> 1);
  }

  lemma RlaCase(AF: word32)
    ensures Low(AccumulatorResult(2, AF)) == Accumulator(2, Low(AF))
  {
    hide Low, Accumulator, DaaResult, Daa;
    RlaIs(AF);
  }

  lemma RraCase(AF: word32)
    ensures Low(AccumulatorResult(3, AF)) == Accumulator(3, Low(AF))
  {
    hide Low, Accumulator, DaaResult, Daa;
    RraIs(AF, (AF >> 8) & 0xff, ((AF >> 8) & 0xff) >> 1);
  }

  lemma DaaCase(AF: word32)
    ensures Low(AccumulatorResult(4, AF)) == Accumulator(4, Low(AF))
  {
    hide Low, Accumulator, DaaResult, Daa;
    DaaIs(AF);
    DaaIsFour(Low(AF));
  }

  lemma CplCase(AF: word32)
    ensures Low(AccumulatorResult(5, AF)) == Accumulator(5, Low(AF))
  {
    hide Low, Accumulator, DaaResult, Daa;
    CplIs(AF);
  }

  lemma ScfCase(AF: word32)
    ensures Low(AccumulatorResult(6, AF)) == Accumulator(6, Low(AF))
  {
    hide Low, Accumulator, DaaResult, Daa;
    ScfIs(AF);
  }

  lemma CcfCase(AF: word32)
    ensures Low(AccumulatorResult(7, AF)) == Accumulator(7, Low(AF))
  {
    hide Low, Accumulator, DaaResult, Daa, CcfResult;
    CcfResultIs(AF);
  }

  lemma CcfResultIs(AF: word32)
    ensures Low(CcfResult(AF)) == Accumulator(7, Low(AF))
  {
    hide Low, Accumulator;
    CcfIs(AF);
  }

  lemma DaaIsFour(af: bv16)
    ensures Accumulator(4, af) == Daa(af)
  {
    hide Daa;
  }

  lemma AccumulatorIs(op: bv8, AF: word32)
    requires op < 8
    ensures Low(AccumulatorResult(op, AF)) == Accumulator(op, Low(AF))
  {
    hide *;
    if op == 0 {
      RlcaCase(AF);
    } else if op == 1 {
      RrcaCase(AF);
    } else if op == 2 {
      RlaCase(AF);
    } else if op == 3 {
      RraCase(AF);
    } else if op == 4 {
      DaaCase(AF);
    } else if op == 5 {
      CplCase(AF);
    } else if op == 6 {
      ScfCase(AF);
    } else {
      CcfCase(AF);
    }
  }
}
