/** The DD and FD prefixes, on host registers: the index registers drift just like the others. */
module Z80Index {
  import opened Z80Cpu
  import opened Z80Flags
  import opened Z80Alu
  import opened Z80
  import opened Z80Step
  import opened Z80Low
  import opened Z80Bits
  import opened Z80High

  function HostIndex(s: Host, iy: bool): word32 {
    if iy then s.IY else s.IX
  }

  /** IX or IY in place of HL, and the other way round. */
  function HostSwap(s: Host, iy: bool): Host {
    if iy then s.(HL := s.IY, IY := s.HL) else s.(HL := s.IX, IX := s.HL)
  }

  lemma HostSwapIs(s: Host, iy: bool)
    ensures State(HostSwap(s, iy)) == Swap(State(s), iy)
  {
    hide Low;
  }

  // ----- The index register in place of HL -----

  /** LD between halves masks what it moves, other than on the main page. */
  function LoadHalf(s: Host, y: bv8, z: bv8): Host {
    if y == z then s else SetOperand(s, y, Operand(s, z))
  }

  lemma LoadHalfIs(s: Host, y: bv8, z: bv8)
    requires y < 8 && z < 8 && y != 6 && z != 6
    ensures State(LoadHalf(s, y, z)) == SetReg(State(s), y, Reg(State(s), z))
  {
    hide Low, Wide, Byte, State, Reg, SetReg, Operand, SetOperand;
    if y == z {
      SameRegister(State(s), y);
    } else {
      OperandIs(s, z);
      SetOperandIs(s, y, Operand(s, z));
      ByteWide(Reg(State(s), z));
    }
  }

  function HostAlu(s: Host, y: bv8, temp: word32): Host {
    s.(AF := AluResult(y, s.AF, temp))
  }

  lemma HostAluIs(s: Host, y: bv8, v: bv8)
    requires y < 8
    ensures State(HostAlu(s, y, Wide(v))) == State(s).(af := Alu(y, State(s).af, v))
  {
    hide Low, Wide, AluResult, Alu;
    AluIs(y, s.AF, v);
  }

  /** On swapped registers. */
  function HostIndexOp(s: Host, op: bv8): Host {
    if op < 0x40 then HostLowPage(s, op)
    else if op < 0x80 then LoadHalf(s, Y(op), Z(op))
    else if op < 0xc0 then HostAlu(s, Y(op), Operand(s, Z(op)))
    else if op == 0xe1 then PopHL(s)
    else if op == 0xe3 then ExchangeTop(s)
    else if op == 0xe5 then HostPush(s, s.HL)
    else if op == 0xe9 then s.(PC := s.HL)
    else s.(SP := s.HL)
  }

  lemma MiddleOps(s: Host, op: bv8)
    requires 0x40 <= op < 0xc0 && IsIndexOp(op)
    ensures State(HostIndexOp(s, op)) == IndexOp(State(s), op)
  {
    hide State, Wide, LoadHalf, HostAlu, Operand, Reg, SetReg, Alu, Y, Z;
    Fields(op);
    if op < 0x80 {
      LoadHalfIs(s, Y(op), Z(op));
    } else {
      OperandIs(s, Z(op));
      HostAluIs(s, Y(op), Reg(State(s), Z(op)));
    }
  }

  function PopHL(s: Host): Host {
    DropWord(s).(HL := Popped(s))
  }

  lemma PopHLIs(s: Host)
    ensures State(PopHL(s)) == State(s).(hl := GetWord(s.ram, Low(s.SP)), sp := TwoAbove(Low(s.SP)))
  {
    hide Low, DropWord, GetWORD, GetWord, TwoAbove;
    DropWordIs(s);
    GetWordIs(s, s.SP);
  }

  lemma HighOps(s: Host, op: bv8)
    requires op == 0xe1 || op == 0xe3 || op == 0xe5 || op == 0xe9 || op == 0xf9
    ensures State(HostIndexOp(s, op)) == IndexOp(State(s), op)
  {
    hide Low, HostLowPage, LowPage, LoadHalf, HostAlu, PopHL, GetWord, ExchangeTop, HostPush, Push, TwoAbove, SetReg,
         Reg, Alu, Operand, Y, Z;
    if op == 0xe1 {
      PopHLIs(s);
    } else if op == 0xe3 {
      ExchangeTopIs(s);
    } else if op == 0xe5 {
      HostPushIs(s, s.HL);
    }
  }

  lemma LowOps(s: Host, op: bv8)
    requires op < 0x40
    ensures State(HostIndexOp(s, op)) == IndexOp(State(s), op)
  {
    hide State, HostLowPage, LowPage;
    HostLowPageIs(s, op);
  }

  lemma HostIndexOpIs(s: Host, op: bv8, iy: bool)
    requires IsIndexOp(op)
    ensures State(HostSwap(HostIndexOp(HostSwap(s, iy), op), iy)) == Swap(IndexOp(Swap(State(s), iy), op), iy)
  {
    hide State, HostSwap, Swap, HostIndexOp, IndexOp;
    var t := HostSwap(s, iy);
    HostSwapIs(s, iy);
    if op < 0x40 {
      LowOps(t, op);
    } else if op < 0xc0 {
      MiddleOps(t, op);
    } else {
      HighOps(t, op);
    }
    HostSwapIs(HostIndexOp(t, op), iy);
  }

  // ----- Memory at an index register and a displacement -----

  /** adr = IX + (signed char) d */
  function Displaced(s: Host, iy: bool): word32 {
    PlainSum(HostIndex(s, iy), SignExtend(GetBYTE(s, s.PC)))
  }

  lemma DisplacedIs(s: Host, iy: bool)
    ensures Low(Displaced(s, iy)) == WordAdd(Index(State(s), iy), Signed(Get(State(s).mem, State(s).pc)))
  {
    hide Low, Wide, SignExtend, Signed, PlainSum, WordAdd, Get;
    SumLow(HostIndex(s, iy), SignExtend(GetBYTE(s, s.PC)));
    SignExtendIs(Get(s.ram, Low(s.PC)));
  }

  /** An instruction with the operand (HL), on the operand at `adr`. */
  function PointAt(s: Host, adr: word32): Host {
    s.(HL := adr)
  }

  lemma PointAtIs(s: Host, adr: word32)
    ensures State(PointAt(s, adr)) == State(s).(hl := Low(adr))
  {
    hide Low;
  }

  function HostIndexedOp(s: Host, op: bv8, adr: word32): Host {
    if op == 0x34 then PointAt(HostCount(PointAt(s, adr), 6, true), s.HL)
    else if op == 0x35 then PointAt(HostCount(PointAt(s, adr), 6, false), s.HL)
    else if op == 0x36 then PutBYTE(SkipByte(s), adr, GetBYTE(s, s.PC))
    else if op >= 0x80 then HostAlu(s, Y(op), GetBYTE(s, adr))
    else if Y(op) == 6 then PutBYTE(s, adr, Operand(s, Z(op)))
    else SetOperand(s, Y(op), GetBYTE(s, adr))
  }

  lemma CountAt(s: Host, adr: word32, up: bool)
    ensures State(PointAt(HostCount(PointAt(s, adr), 6, up), s.HL))
            == var c := State(s).(hl := Low(adr)); (if up then IncReg(c, 6) else DecReg(c, 6)).(hl := State(s).hl)
  {
    hide State, Low, HostCount, IncReg, DecReg, PointAt;
    PointAtIs(s, adr);
    HostCountIs(PointAt(s, adr), 6, up);
    PointAtIs(HostCount(PointAt(s, adr), 6, up), s.HL);
    StateHL(s);
  }

  lemma StateHL(s: Host)
    ensures State(s).hl == Low(s.HL)
  {
  }

  lemma StoreByteAt(s: Host, adr: word32)
    ensures State(PutBYTE(SkipByte(s), adr, GetBYTE(s, s.PC)))
            == var c := State(s); Skip(c, 1).(mem := Put(c.mem, Low(adr), Get(c.mem, c.pc)))
  {
    hide Low, Wide, Byte, Get, Put, Next;
    SkipByteIs(s);
    ByteWide(Get(s.ram, Low(s.PC)));
  }

  lemma AluAt(s: Host, y: bv8, adr: word32)
    requires y < 8
    ensures State(HostAlu(s, y, GetBYTE(s, adr))) == var c := State(s); c.(af := Alu(y, c.af, Get(c.mem, Low(adr))))
  {
    hide Low, Wide, HostAlu, Alu, Get;
    HostAluIs(s, y, Get(s.ram, Low(adr)));
  }

  lemma StoreAt(s: Host, z: bv8, adr: word32)
    requires z < 8
    ensures State(PutBYTE(s, adr, Operand(s, z))) == var c := State(s); c.(mem := Put(c.mem, Low(adr), Reg(c, z)))
  {
    hide Low, Wide, Byte, Operand, Reg, Put;
    OperandIs(s, z);
    ByteWide(Reg(State(s), z));
  }

  lemma LoadAt(s: Host, y: bv8, adr: word32)
    requires y < 8
    ensures State(SetOperand(s, y, GetBYTE(s, adr))) == SetReg(State(s), y, Get(State(s).mem, Low(adr)))
  {
    hide Low, Wide, Byte, Get, SetOperand, SetReg;
    SetOperandIs(s, y, GetBYTE(s, adr));
    ByteWide(Get(s.ram, Low(adr)));
  }

  lemma HostIndexedOpIs(s: Host, op: bv8, adr: word32)
    ensures State(HostIndexedOp(s, op, adr)) == IndexedOp(State(s), op, Low(adr))
  {
    hide State, Low, HostCount, IncReg, DecReg, PointAt, PutBYTE, GetBYTE, SkipByte, Skip, HostAlu, Alu, Operand,
         SetOperand, Reg, SetReg, Put, Get, Y, Z;
    Fields(op);
    if op == 0x34 {
      CountAt(s, adr, true);
    } else if op == 0x35 {
      CountAt(s, adr, false);
    } else if op == 0x36 {
      StoreByteAt(s, adr);
    } else if op >= 0x80 {
      AluAt(s, Y(op), adr);
    } else if Y(op) == 6 {
      StoreAt(s, Z(op), adr);
    } else {
      LoadAt(s, Y(op), adr);
    }
  }

  function HostIndexedBits(s: Host, op: bv8, adr: word32): Host {
    if Z(op) == 6 then PointAt(HostBitPage(PointAt(s, adr), op), s.HL) else HostBitPage(s, op)
  }

  lemma HostIndexedBitsIs(s: Host, op: bv8, adr: word32)
    ensures State(HostIndexedBits(s, op, adr)) == IndexedBits(State(s), op, Low(adr))
  {
    hide State, Low, HostBitPage, BitPage, PointAt, Z;
    PointAtIs(s, adr);
    HostBitPageIs(PointAt(s, adr), op);
    HostBitPageIs(s, op);
    PointAtIs(HostBitPage(PointAt(s, adr), op), s.HL);
    StateHL(s);
  }

  // ----- The prefixes -----

  function Opcode(s: Host): bv8 {
    Byte(GetBYTE(s, s.PC))
  }

  lemma OpcodeIs(s: Host)
    ensures Opcode(s) == Get(State(s).mem, State(s).pc)
  {
    hide Low, Wide, Byte, Get;
    ByteWide(Get(s.ram, Low(s.PC)));
  }

  /** A prefix that is ignored: PC-- takes back the step over the opcode. */
  function StepBack(s: Host): Host {
    s.(PC := Before(s.PC))
  }

  lemma StepBackIs(s: Host)
    ensures State(StepBack(SkipByte(s))) == State(s)
  {
    hide Low, Before, Next;
    NextIs(s.PC);
    BeforeIs(Next(s.PC));
    BackAgain(Low(s.PC));
  }

  lemma BackAgain(w: bv16)
    ensures w + 1 - 1 == w
  {
  }

  function HostIndexPrefix(s: Host, iy: bool): Host {
    var op, s1 := Opcode(s), SkipByte(s);
    var adr := Displaced(s1, iy);
    if IsIndexOp(op) then HostSwap(HostIndexOp(HostSwap(s1, iy), op), iy)
    else if IsIndexedOp(op) then HostIndexedOp(SkipByte(s1), op, adr)
    else if op == 0xcb then HostIndexedBits(SkipByte(SkipByte(s1)), Opcode(SkipByte(s1)), adr)
    else StepBack(s1)
  }

  lemma IndexAfter(c: Cpu, iy: bool)
    ensures Index(Skip(c, 1), iy) == Index(c, iy) && Skip(c, 1).mem == c.mem
  {
  }

  lemma HostIndexPrefixIs(s: Host, iy: bool)
    ensures State(HostIndexPrefix(s, iy)) == IndexPrefix(State(s), iy)
  {
    hide State, Low, Opcode, SkipByte, Skip, Displaced, Index, WordAdd, Signed, Get, IsIndexOp, IsIndexedOp, HostSwap,
         Swap, HostIndexOp, IndexOp,
         HostIndexedOp, IndexedOp, HostIndexedBits, IndexedBits, StepBack;
    var op, s1 := Opcode(s), SkipByte(s);
    var adr := Displaced(s1, iy);
    OpcodeIs(s);
    SkipByteIs(s);
    DisplacedIs(s1, iy);
    IndexAfter(State(s), iy);
    SkipByteIs(s1);
    if IsIndexOp(op) {
      HostIndexOpIs(s1, op, iy);
    } else if IsIndexedOp(op) {
      HostIndexedOpIs(SkipByte(s1), op, adr);
    } else if op == 0xcb {
      var s2 := SkipByte(s1);
      OpcodeIs(s2);
      SkipByteIs(s2);
      HostIndexedBitsIs(SkipByte(s2), Opcode(s2), adr);
      IndexAfter(State(s1), iy);
    } else {
      StepBackIs(s);
    }
  }
}
