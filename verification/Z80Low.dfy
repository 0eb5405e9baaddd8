/** Opcodes 00 to 3F, on host registers. */
module Z80Low {
  import opened Z80Cpu
  import opened Z80Flags
  import opened Z80Alu
  import opened Z80
  import opened Z80Step

  // ----- Relative jumps -----

  /** (signed char) */
  function SignExtend(d: word32): word32 {
    if d & 0x80 != 0 then d | 0xffff_ff00 else d
  }

  function JumpBy(pc: word32, d: word32): word32 {
    Next(PlainSum(pc, d))
  }

  function PlainSum(x: word32, y: word32): word32 {
    x + y
  }

  function HostJumpRelative(s: Host, taken: bool): Host {
    s.(PC := if taken then JumpBy(s.PC, SignExtend(GetBYTE(s, s.PC))) else Next(s.PC))
  }

  lemma SignExtendIs(d: bv8)
    ensures Low(SignExtend(Wide(d))) == Signed(d)
  {
  }

  lemma MaskedSum(x: word32, y: word32)
    ensures (x + y) & 0xffff == ((x & 0xffff) + (y & 0xffff)) & 0xffff
  {
  }

  lemma CutSum(x: word32, y: word32)
    ensures Cut(PlainSum(x, y)) == Cut(PlainSum(Cut(x), Cut(y)))
  {
    MaskedSum(x, y);
  }

  lemma SameLow(x: word32, y: word32)
    requires Cut(x) == Cut(y)
    ensures Low(x) == Low(y)
  {
  }

  lemma CutWord(x: word32)
    ensures Cut(x) == Wide16(Low(x))
  {
  }

  lemma CutLow(x: word32)
    ensures Low(Cut(x)) == Low(x)
  {
  }

  lemma WordSum(x: bv16, y: bv16)
    ensures Low(PlainSum(Wide16(x), Wide16(y))) == WordAdd(x, y)
  {
  }

  lemma SumLow(x: word32, y: word32)
    ensures Low(PlainSum(x, y)) == WordAdd(Low(x), Low(y))
  {
    hide *;
    CutSum(x, y);
    SameLow(PlainSum(x, y), PlainSum(Cut(x), Cut(y)));
    CutWord(x);
    CutWord(y);
    WordSum(Low(x), Low(y));
  }

  lemma JumpByIs(pc: word32, d: word32)
    ensures Low(JumpBy(pc, d)) == Target(Low(pc), Low(d))
  {
    hide Low, WordAdd, PlainSum, Next;
    SumLow(pc, d);
    NextIs(PlainSum(pc, d));
  }

  lemma JumpTakenIs(s: Host)
    ensures Low(JumpBy(s.PC, SignExtend(GetBYTE(s, s.PC)))) == Target(Low(s.PC), Signed(Get(s.ram, Low(s.PC))))
  {
    hide Low, Wide, SignExtend, Signed, JumpBy, Get, Target;
    SignExtendIs(Get(s.ram, Low(s.PC)));
    JumpByIs(s.PC, SignExtend(GetBYTE(s, s.PC)));
  }

  lemma JumpRelativeIs(s: Host, taken: bool)
    ensures State(HostJumpRelative(s, taken)) == JumpRelative(State(s), taken)
  {
    hide Low, SignExtend, Signed, JumpBy, Next, Get, GetBYTE, Target;
    if taken {
      JumpTakenIs(s);
    } else {
      NextIs(s.PC);
    }
  }

  /** BC -= 0x100 */
  function LessB(BC: word32): word32 {
    BC - 0x100
  }

  lemma LessBIs(BC: word32)
    ensures Low(BC - 0x100) == Word(Hi(Low(BC)) - 1, Lo(Low(BC)))
  {
  }

  lemma ZeroB(BC: word32)
    ensures (BC - 0x100) & 0xff00 != 0 <==> Hi(Low(BC)) - 1 != 0
  {
  }

  function Djnz(s: Host): Host {
    var t := s.(BC := LessB(s.BC));
    HostJumpRelative(t, t.BC & 0xff00 != 0)
  }

  lemma DjnzIs(s: Host)
    ensures State(Djnz(s)) == Relative(State(s), 2)
  {
    hide Low, Word, Hi, Lo, HostJumpRelative, JumpRelative;
    LessBIs(s.BC);
    ZeroB(s.BC);
    JumpRelativeIs(s.(BC := LessB(s.BC)), LessB(s.BC) & 0xff00 != 0);
  }

  lemma WideLow(w: bv16)
    ensures Low(w as bv32) == w
  {
  }

  /** NOP, EX AF,AF', DJNZ, JR, and JR NZ, Z, NC, C */
  function HostRelative(s: Host, y: bv8): Host {
    if y == 0 then s
    else if y == 1 then s.(AF := s.af2 as bv32, af2 := Low(s.AF))
    else if y == 2 then Djnz(s)
    else HostJumpRelative(s, y == 3 || Test(s.AF, y - 4))
  }

  lemma JrIs(s: Host, y: bv8)
    requires y > 2
    ensures State(HostJumpRelative(s, y == 3 || Test(s.AF, y - 4)))
            == JumpRelative(State(s), y == 3 || Condition(Low(s.AF), y - 4))
  {
    hide Low, HostJumpRelative, JumpRelative, Test, Condition;
    TestIs(s.AF, y - 4);
    JumpRelativeIs(s, y == 3 || Test(s.AF, y - 4));
  }

  lemma ExchangeIs(s: Host)
    ensures State(HostRelative(s, 1)) == Relative(State(s), 1)
  {
    hide Low, Djnz, HostJumpRelative, JumpRelative, Test, Condition, Word, Hi, Lo;
    WideLow(s.af2);
  }

  lemma RelativeIs(s: Host, y: bv8)
    ensures State(HostRelative(s, y)) == Relative(State(s), y)
  {
    hide State, Djnz, HostJumpRelative, JumpRelative, Test, Condition, Word, Hi, Lo, Low;
    StateAf(s);
    if y == 1 {
      ExchangeIs(s);
    } else if y == 2 {
      DjnzIs(s);
    } else if y != 0 {
      AboveTwo(y);
      JrIs(s, y);
    }
  }

  lemma StateAf(s: Host)
    ensures State(s).af == Low(s.AF)
  {
  }

  lemma AboveTwo(y: bv8)
    requires y != 0 && y != 1 && y != 2
    ensures y > 2
  {
  }

  // ----- 16-bit loads and arithmetic -----

  function LoadPair(s: Host, p: bv8): Host {
    SetHostPair(SkipWord(s), p, GetWORD(s, s.PC))
  }

  lemma LoadPairIs(s: Host, p: bv8)
    ensures State(LoadPair(s, p)) == SetPair(Skip(State(s), 2), p, GetWord(s.ram, Low(s.PC)))
  {
    hide SkipWord, GetWORD, GetWord, SetHostPair, SetPair, Skip, Low;
    SkipWordIs(s);
    GetWordIs(s, s.PC);
    SetPairIs(SkipWord(s), p, GetWORD(s, s.PC));
  }

  /** ADD HL,rr: both registers are cut to 16 bits first, the sum is not. */
  function AddHL(s: Host, p: bv8): Host {
    var t := SetHostPair(s, p, Cut(HostPair(s, p)));
    var y := Cut(HostPair(s, p));
    t.(AF := Add16Result(s.AF, Cut(s.HL), y), HL := PlainSum(Cut(s.HL), y))
  }

  lemma Add16Wide(AF: word32, x: bv16, y: bv16)
    ensures Low(Add16Result(AF, Wide16(x), Wide16(y))) == Word(Hi(Low(AF)), Add16Flags(Lo(Low(AF)), x, y))
  {
    hide Low, Add16Result, Add16Flags, Word, Hi, Lo;
    Add16Is(AF, x, y);
  }

  lemma AddHLParts(s: Host, p: bv8)
    ensures var x, y := Low(s.HL), Pair(State(s), p);
            && Low(PlainSum(Cut(s.HL), Cut(HostPair(s, p)))) == WordAdd(x, y)
            && Low(Add16Result(s.AF, Cut(s.HL), Cut(HostPair(s, p))))
                == Word(Hi(Low(s.AF)), Add16Flags(Lo(Low(s.AF)), x, y))
  {
    hide *;
    CutWord(s.HL);
    CutWord(HostPair(s, p));
    PairIs(s, p);
    WordSum(Low(s.HL), Pair(State(s), p));
    Add16Wide(s.AF, Low(s.HL), Pair(State(s), p));
  }

  lemma CutPairIs(s: Host, p: bv8)
    ensures State(SetHostPair(s, p, Cut(HostPair(s, p)))) == State(s)
  {
    hide Low, Cut;
    CutLow(HostPair(s, p));
  }

  lemma AddHLIs(s: Host, p: bv8)
    ensures var c := State(s);
            State(AddHL(s, p)) == c.(hl := WordAdd(c.hl, Pair(c, p)),
                                     af := Word(Hi(c.af), Add16Flags(Lo(c.af), c.hl, Pair(c, p))))
  {
    hide Low, Cut, Add16Result, Add16Flags, Word, Hi, Lo, PlainSum, WordAdd, Pair, HostPair, SetHostPair;
    AddHLParts(s, p);
    CutPairIs(s, p);
  }

  function StepPair(s: Host, p: bv8, up: bool): Host {
    SetHostPair(s, p, if up then Next(HostPair(s, p)) else Before(HostPair(s, p)))
  }

  lemma StepPairIs(s: Host, p: bv8, up: bool)
    ensures State(StepPair(s, p, up))
            == SetPair(State(s), p, Stepped(Pair(State(s), p), up))
  {
    hide Low, Next, Before, SetHostPair, SetPair, HostPair, Pair;
    PairIs(s, p);
    NextIs(HostPair(s, p));
    BeforeIs(HostPair(s, p));
    SetPairIs(s, p, if up then Next(HostPair(s, p)) else Before(HostPair(s, p)));
  }

  // ----- Indirect loads -----

  /** LD (BC),A; LD A,(BC); LD (DE),A; LD A,(DE); LD (nn),HL; LD HL,(nn); LD (nn),A; LD A,(nn) */
  function HostIndirect(s: Host, y: bv8): Host {
    var temp := GetWORD(s, s.PC);
    if y == 0 then PutBYTE(s, s.BC, hreg(s.AF))
    else if y == 1 then SetOperand(s, 7, GetBYTE(s, s.BC))
    else if y == 2 then PutBYTE(s, s.DE, hreg(s.AF))
    else if y == 3 then SetOperand(s, 7, GetBYTE(s, s.DE))
    else if y == 4 then SkipWord(PutWORD(s, temp, s.HL))
    else if y == 5 then SkipWord(s.(HL := GetWORD(s, temp)))
    else if y == 6 then SkipWord(PutBYTE(s, temp, hreg(s.AF)))
    else SkipWord(SetOperand(s, 7, GetBYTE(s, temp)))
  }

  lemma PutAIs(s: Host, a: word32)
    ensures State(PutBYTE(s, a, hreg(s.AF))) == State(s).(mem := Put(s.ram, Low(a), Hi(Low(s.AF))))
  {
    hide Low, Hi, Put, Byte, hreg, Wide;
    HalvesIs(s.AF);
    ByteWide(Hi(Low(s.AF)));
  }

  lemma GetAIs(s: Host, a: word32)
    ensures State(SetOperand(s, 7, GetBYTE(s, a))) == SetReg(State(s), 7, Get(s.ram, Low(a)))
  {
    hide Low, Get, Wide, Byte, SetOperand, SetReg, State;
    SetOperandIs(s, 7, GetBYTE(s, a));
    ByteWide(Get(s.ram, Low(a)));
  }

  lemma SkipSetA(c: Cpu, v: bv8)
    ensures Skip(SetReg(c, 7, v), 2) == SetReg(Skip(c, 2), 7, v)
  {
    hide Word, Lo;
  }

  lemma Indirect0(s: Host)
    ensures State(HostIndirect(s, 0)) == Indirect(State(s), 0)
  {
    hide Low, Hi, hreg, Get, Put, GetWord, PutWord, SkipWord, SetOperand, SetReg, GetWORD, PutWORD, PutBYTE, GetBYTE;
    PutAIs(s, s.BC);
  }

  lemma Indirect1(s: Host)
    ensures State(HostIndirect(s, 1)) == Indirect(State(s), 1)
  {
    hide Low, Hi, hreg, Get, Put, GetWord, PutWord, SkipWord, SetOperand, SetReg, GetWORD, PutWORD, PutBYTE, GetBYTE;
    GetAIs(s, s.BC);
  }

  lemma Indirect2(s: Host)
    ensures State(HostIndirect(s, 2)) == Indirect(State(s), 2)
  {
    hide Low, Hi, hreg, Get, Put, GetWord, PutWord, SkipWord, SetOperand, SetReg, GetWORD, PutWORD, PutBYTE, GetBYTE;
    PutAIs(s, s.DE);
  }

  lemma Indirect3(s: Host)
    ensures State(HostIndirect(s, 3)) == Indirect(State(s), 3)
  {
    hide Low, Hi, hreg, Get, Put, GetWord, PutWord, SkipWord, SetOperand, SetReg, GetWORD, PutWORD, PutBYTE, GetBYTE;
    GetAIs(s, s.DE);
  }

  lemma Indirect4(s: Host)
    ensures State(HostIndirect(s, 4)) == Indirect(State(s), 4)
  {
    hide Low, Hi, hreg, Get, Put, GetWord, PutWord, SkipWord, SetOperand, SetReg, GetWORD, PutWORD, PutBYTE, GetBYTE;
    var temp := GetWORD(s, s.PC);
    GetWordIs(s, s.PC);
    PutWordIs(s, temp, s.HL);
    SkipWordIs(PutWORD(s, temp, s.HL));
  }

  lemma Indirect5(s: Host)
    ensures State(HostIndirect(s, 5)) == Indirect(State(s), 5)
  {
    hide Low, Hi, hreg, Get, Put, GetWord, PutWord, SkipWord, SetOperand, SetReg, GetWORD, PutWORD, PutBYTE, GetBYTE;
    var temp := GetWORD(s, s.PC);
    GetWordIs(s, s.PC);
    GetWordIs(s, temp);
    SkipWordIs(s.(HL := GetWORD(s, temp)));
  }

  lemma Indirect6(s: Host)
    ensures State(HostIndirect(s, 6)) == Indirect(State(s), 6)
  {
    hide Low, Hi, hreg, Get, Put, GetWord, PutWord, SkipWord, SetOperand, SetReg, GetWORD, PutWORD, PutBYTE, GetBYTE;
    var temp := GetWORD(s, s.PC);
    GetWordIs(s, s.PC);
    PutAIs(s, temp);
    SkipWordIs(PutBYTE(s, temp, hreg(s.AF)));
  }

  lemma Indirect7(s: Host)
    ensures State(HostIndirect(s, 7)) == Indirect(State(s), 7)
  {
    hide Low, Hi, hreg, Get, Put, GetWord, PutWord, SkipWord, SetOperand, SetReg, GetWORD, PutWORD, PutBYTE, GetBYTE;
    var temp := GetWORD(s, s.PC);
    GetWordIs(s, s.PC);
    GetAIs(s, temp);
    SkipWordIs(SetOperand(s, 7, GetBYTE(s, temp)));
    SkipSetA(State(s), Get(s.ram, Low(temp)));
  }

  lemma IndirectIs(s: Host, y: bv8)
    requires y < 8
    ensures State(HostIndirect(s, y)) == Indirect(State(s), y)
  {
    hide *;
    if y == 0 {
      Indirect0(s);
    } else if y == 1 {
      Indirect1(s);
    } else if y == 2 {
      Indirect2(s);
    } else if y == 3 {
      Indirect3(s);
    } else if y == 4 {
      Indirect4(s);
    } else if y == 5 {
      Indirect5(s);
    } else if y == 6 {
      Indirect6(s);
    } else {
      Indirect7(s);
    }
  }

  // ----- INC r and DEC r -----

  /** INC of a high half adds to the whole register, and lets a carry out of it. */
  function IncHigh(x: word32): word32 {
    x + 0x100
  }

  function DecHigh(x: word32): word32 {
    x - 0x100
  }

  function More(v: word32): word32 {
    v + 1
  }

  function Less(v: word32): word32 {
    v - 1
  }

  lemma IncHighIs(x: word32)
    ensures Low(IncHigh(x)) == Word(Succ(Hi(Low(x))), Lo(Low(x)))
  {
  }

  lemma DecHighIs(x: word32)
    ensures Low(DecHigh(x)) == Word(Pred(Hi(Low(x))), Lo(Low(x)))
  {
  }

  lemma IncHighByte(x: word32)
    ensures hreg(IncHigh(x)) == Wide(Succ(Hi(Low(x))))
  {
  }

  lemma DecHighByte(x: word32)
    ensures hreg(DecHigh(x)) == Wide(Pred(Hi(Low(x))))
  {
  }

  lemma MoreByte(v: bv8)
    ensures Byte(More(Wide(v))) == Succ(v)
  {
  }

  lemma LessByte(v: bv8)
    ensures Byte(Less(Wide(v))) == Pred(v)
  {
  }

  /** A byte that may carry, or borrow, beyond its eight bits. */
  predicate OneMore(temp: word32, r: bv8) {
    temp == Wide(r) || (r == 0 && temp == 0x100)
  }

  predicate OneLess(temp: word32, r: bv8) {
    temp == Wide(r) || (r == 0xff && temp == 0xffff_ffff)
  }

  lemma MoreIs(v: bv8)
    ensures OneMore(More(Wide(v)), Succ(v))
  {
  }

  lemma LessIs(v: bv8)
    ensures OneLess(Less(Wide(v)), Pred(v))
  {
  }

  /** The registers in high halves are counted in place, the others through a temporary. */
  function Counted(s: Host, y: bv8, up: bool): Host {
    if IsHigh(y) then SetHolder(s, y, if up then IncHigh(Holder(s, y)) else DecHigh(Holder(s, y)))
    else SetOperand(s, y, if up then More(Operand(s, y)) else Less(Operand(s, y)))
  }

  /** What the flags are computed from. */
  function CountTemp(s: Host, y: bv8, up: bool): word32 {
    if IsHigh(y) then hreg(if up then IncHigh(Holder(s, y)) else DecHigh(Holder(s, y)))
    else if up then More(Operand(s, y)) else Less(Operand(s, y))
  }

  function HostCount(s: Host, y: bv8, up: bool): Host {
    var t := Counted(s, y, up);
    t.(AF := if up then IncResult(t.AF, CountTemp(s, y, up)) else DecResult(t.AF, CountTemp(s, y, up)))
  }

  function Bumped(v: bv8, up: bool): bv8 {
    if up then Succ(v) else Pred(v)
  }

  lemma HighPartOf(w: bv16, y: bv8)
    requires IsHigh(y)
    ensures PartOf(w, y) == Hi(w) && y < 8 && y != 6
  {
    hide Hi;
  }

  lemma WithHighPart(w: bv16, y: bv8, v: bv8)
    requires IsHigh(y)
    ensures WithPart(w, y, v) == Word(v, Lo(w))
  {
    hide Lo, Word;
  }

  lemma CountedIs(s: Host, y: bv8, up: bool)
    requires y < 8
    ensures State(Counted(s, y, up)) == SetReg(State(s), y, Bumped(Reg(State(s), y), up))
  {
    hide Low, Wide, Byte, Hi, Lo, Word, Succ, Pred, Reg, SetReg, State, Operand, SetOperand, Holder, SetHolder,
         PartOf, WithPart, IncHigh, DecHigh, More, Less, IsHigh;
    if IsHigh(y) {
      HighPartOf(Low(Holder(s, y)), y);
      RegIsPart(s, y);
      IncHighIs(Holder(s, y));
      DecHighIs(Holder(s, y));
      var v := Bumped(Reg(State(s), y), up);
      WithHighPart(Low(Holder(s, y)), y, v);
      SetRegIsPart(s, y, if up then IncHigh(Holder(s, y)) else DecHigh(Holder(s, y)), v);
    } else {
      OperandIs(s, y);
      MoreByte(Reg(State(s), y));
      LessByte(Reg(State(s), y));
      SetOperandIs(s, y, if up then More(Operand(s, y)) else Less(Operand(s, y)));
    }
  }

  lemma WideMore(r: bv8)
    ensures OneMore(Wide(r), r) && OneLess(Wide(r), r)
  {
  }

  lemma CountTempIs(s: Host, y: bv8, up: bool)
    requires y < 8
    ensures up ==> OneMore(CountTemp(s, y, up), Succ(Reg(State(s), y)))
    ensures !up ==> OneLess(CountTemp(s, y, up), Pred(Reg(State(s), y)))
  {
    hide Low, Wide, Hi, Succ, Pred, Reg, State, Operand, Holder, PartOf, IncHigh, DecHigh, More, Less, IsHigh, hreg,
         OneMore, OneLess;
    if IsHigh(y) {
      HighPartOf(Low(Holder(s, y)), y);
      RegIsPart(s, y);
      IncHighByte(Holder(s, y));
      DecHighByte(Holder(s, y));
      WideMore(Succ(Reg(State(s), y)));
      WideMore(Pred(Reg(State(s), y)));
    } else {
      OperandIs(s, y);
      MoreIs(Reg(State(s), y));
      LessIs(Reg(State(s), y));
    }
  }

  lemma IncFlagsIs(AF: word32, r: bv8, temp: word32)
    requires OneMore(temp, r)
    ensures Low(IncResult(AF, temp)) == Word(Hi(Low(AF)), IncFlags(Lo(Low(AF)), r))
  {
    hide Low, Hi, Lo, Word, IncFlags, IncResult, Wide;
    IncIs(AF, r, temp);
  }

  lemma DecFlagsIs(AF: word32, r: bv8, temp: word32)
    requires OneLess(temp, r)
    ensures Low(DecResult(AF, temp)) == Word(Hi(Low(AF)), DecFlags(Lo(Low(AF)), r))
  {
    hide Low, Hi, Lo, Word, DecFlags, DecResult, Wide;
    DecIs(AF, r, temp);
  }

  lemma SetAFlags(c: Cpu, v: bv8)
    ensures Lo(SetReg(c, 7, v).af) == Lo(c.af)
  {
    hide Hi, Lo, Word, Put;
    WordParts(v, Lo(c.af));
  }

  lemma OtherAf(c: Cpu, y: bv8, v: bv8)
    requires y < 7
    ensures SetReg(c, y, v).af == c.af
  {
    hide Hi, Lo, Word, Put;
  }

  lemma SameFlags(c: Cpu, y: bv8, v: bv8)
    requires y < 8
    ensures Lo(SetReg(c, y, v).af) == Lo(c.af)
  {
    hide *;
    if y < 7 {
      OtherAf(c, y, v);
    } else {
      SetAFlags(c, v);
    }
  }

  lemma HostCountIs(s: Host, y: bv8, up: bool)
    requires y < 8
    ensures State(HostCount(s, y, up)) == if up then IncReg(State(s), y) else DecReg(State(s), y)
  {
    hide Low, Hi, Lo, Word, Succ, Pred, Reg, SetReg, Counted, CountTemp, IncResult, DecResult, IncFlags, DecFlags,
         OneMore, OneLess;
    var t, r := Counted(s, y, up), Bumped(Reg(State(s), y), up);
    CountedIs(s, y, up);
    CountTempIs(s, y, up);
    SameFlags(State(s), y, r);
    if up {
      IncFlagsIs(t.AF, r, CountTemp(s, y, up));
    } else {
      DecFlagsIs(t.AF, r, CountTemp(s, y, up));
    }
  }

  // ----- The page -----

  lemma Fields(op: bv8)
    ensures Y(op) < 8 && Z(op) < 8 && P(op) < 4
  {
  }

  function LoadByte(s: Host, y: bv8): Host {
    SetOperand(SkipByte(s), y, GetBYTE(s, s.PC))
  }

  lemma LoadByteIs(s: Host, y: bv8)
    requires y < 8
    ensures State(LoadByte(s, y)) == SetReg(Skip(State(s), 1), y, Get(s.ram, Low(s.PC)))
  {
    hide Low, Get, Wide, Byte, SetOperand, SetReg, State, SkipByte, Skip;
    SkipByteIs(s);
    SetOperandIs(SkipByte(s), y, GetBYTE(s, s.PC));
    ByteWide(Get(s.ram, Low(s.PC)));
  }

  /** Opcodes 00 to 3F. */
  function HostLowPage(s: Host, op: bv8): Host {
    var z := Z(op);
    if z == 0 then HostRelative(s, Y(op))
    else if z == 1 then if op & 8 == 0 then LoadPair(s, P(op)) else AddHL(s, P(op))
    else if z == 2 then HostIndirect(s, Y(op))
    else if z == 3 then StepPair(s, P(op), op & 8 == 0)
    else if z == 4 then HostCount(s, Y(op), true)
    else if z == 5 then HostCount(s, Y(op), false)
    else if z == 6 then LoadByte(s, Y(op))
    else s.(AF := AccumulatorResult(Y(op), s.AF))
  }

  lemma AccumulatorStep(s: Host, y: bv8)
    requires y < 8
    ensures State(s.(AF := AccumulatorResult(y, s.AF))) == State(s).(af := Accumulator(y, State(s).af))
  {
    hide Low, AccumulatorResult, Accumulator;
    AccumulatorIs(y, s.AF);
  }

  lemma StateFields(s: Host)
    ensures State(s).mem == s.ram && State(s).pc == Low(s.PC)
  {
  }

  lemma HostLowPageIs(s: Host, op: bv8)
    ensures State(HostLowPage(s, op)) == LowPage(State(s), op)
  {
    hide Stepped, State, HostRelative, Relative, LoadPair, AddHL, HostIndirect, Indirect, StepPair, HostCount, IncReg,
         DecReg,
         LoadByte, SetReg, SetPair, Pair,
         AccumulatorResult, Accumulator, GetWord, Get, Word, Hi, Lo, Low, Add16Flags, WordAdd, Skip, Y, Z, P;
    Fields(op);
    StateFields(s);
    var z := Z(op);
    if z == 0 {
      RelativeIs(s, Y(op));
    } else if z == 1 && op & 8 == 0 {
      LoadPairIs(s, P(op));
    } else if z == 1 {
      AddHLIs(s, P(op));
    } else if z == 2 {
      IndirectIs(s, Y(op));
    } else if z == 3 {
      StepPairIs(s, P(op), op & 8 == 0);
    } else if z == 4 {
      HostCountIs(s, Y(op), true);
    } else if z == 5 {
      HostCountIs(s, Y(op), false);
    } else if z == 6 {
      LoadByteIs(s, Y(op));
    } else {
      AccumulatorStep(s, Y(op));
    }
  }
}
