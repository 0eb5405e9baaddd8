/** The simulator's step: registers live in host words that may drift above 16 bits. */
module Z80 {
  import opened Z80Cpu
  import opened Z80Flags

  /** The host registers of the step loop, the RAM, and the register banks that are not selected. */
  datatype Host = Host(AF: word32, BC: word32, DE: word32, HL: word32, IX: word32, IY: word32, SP: word32, PC: word32,
                       ir: bv16, iff: bv16, af2: bv16, bc2: bv16, de2: bv16, hl2: bv16, ram: Memory)

  /** The Z80 that the host registers stand for. */
  function State(s: Host): Cpu {
    Cpu(Low(s.AF), Low(s.BC), Low(s.DE), Low(s.HL), Low(s.IX), Low(s.IY), Low(s.SP), Low(s.PC),
        s.af2, s.bc2, s.de2, s.hl2, s.ir, s.iff, s.ram)
  }

  // ----- Macros -----

  function GetBYTE(s: Host, a: word32): word32 {
    Wide(Get(s.ram, Low(a)))
  }

  function PutBYTE(s: Host, a: word32, v: word32): Host {
    s.(ram := Put(s.ram, Low(a), Byte(v)))
  }

  /** RAM(a) | (RAM(a + 1) << 8) */
  function GetWORD(s: Host, a: word32): word32 {
    BytesToWord(GetBYTE(s, a), GetBYTE(s, Next(a)))
  }

  function BytesToWord(l: word32, h: word32): word32 {
    l | (h << 8)
  }

  function PutWORD(s: Host, a: word32, v: word32): Host {
    PutBYTE(PutBYTE(s, a, v), Next(a), HighPart(v))
  }

  function HighPart(v: word32): word32 {
    v >> 8
  }

  function Next(a: word32): word32 {
    a + 1
  }

  function Sethreg(x: word32, v: word32): word32 {
    (x & 0xff) | ((v & 0xff) << 8)
  }

  function Setlreg(x: word32, v: word32): word32 {
    (x & 0xff00) | (v & 0xff)
  }

  lemma PlusOne(a: word32)
    ensures Low(a + 1) == Low(a) + 1
  {
  }

  lemma NextIs(a: word32)
    ensures Low(Next(a)) == Low(a) + 1
  {
    hide Low;
    PlusOne(a);
  }

  lemma SethregIs(x: word32, v: word32)
    ensures Low(Sethreg(x, v)) == Word(Byte(v), Lo(Low(x)))
  {
    hide Low, Word, Byte, Lo;
    SetHigh(x, v);
  }

  lemma SetlregIs(x: word32, v: word32)
    ensures Low(Setlreg(x, v)) == Word(Hi(Low(x)), Byte(v))
  {
    hide Low, Word, Byte, Hi;
    SetLow(x, v);
  }

  lemma BytesToWordIs(l: bv8, h: bv8)
    ensures Low(Wide(l) | (Wide(h) << 8)) == Word(h, l)
  {
  }

  lemma HighPartIs(v: word32)
    ensures Byte(HighPart(v)) == Hi(Low(v)) && Byte(v) == Lo(Low(v))
  {
  }

  lemma GetWordIs(s: Host, a: word32)
    ensures Low(GetWORD(s, a)) == GetWord(s.ram, Low(a))
  {
    hide Low, Word, Wide, Get, Next;
    NextIs(a);
    BytesToWordIs(Get(s.ram, Low(a)), Get(s.ram, Low(Next(a))));
  }

  lemma PutWordIs(s: Host, a: word32, v: word32)
    ensures PutWORD(s, a, v) == s.(ram := PutWord(s.ram, Low(a), Low(v)))
  {
    hide Low, Byte, Put, Next, HighPart, Hi, Lo;
    NextIs(a);
    HighPartIs(v);
  }

  // ----- Operands -----

  /** hreg or lreg of a register, or the byte at HL: B, C, D, E, H, L, (HL), A */
  function Operand(s: Host, i: bv8): word32 {
    if i == 0 then hreg(s.BC) else if i == 1 then lreg(s.BC)
    else if i == 2 then hreg(s.DE) else if i == 3 then lreg(s.DE)
    else if i == 4 then hreg(s.HL) else if i == 5 then lreg(s.HL)
    else if i == 6 then GetBYTE(s, s.HL) else hreg(s.AF)
  }

  /** Sethreg, Setlreg or PutBYTE(HL, v) */
  function SetOperand(s: Host, i: bv8, v: word32): Host {
    if i == 0 then s.(BC := Sethreg(s.BC, v)) else if i == 1 then s.(BC := Setlreg(s.BC, v))
    else if i == 2 then s.(DE := Sethreg(s.DE, v)) else if i == 3 then s.(DE := Setlreg(s.DE, v))
    else if i == 4 then s.(HL := Sethreg(s.HL, v)) else if i == 5 then s.(HL := Setlreg(s.HL, v))
    else if i == 6 then PutBYTE(s, s.HL, v) else s.(AF := Sethreg(s.AF, v))
  }

  lemma HalvesIs(x: word32)
    ensures hreg(x) == Wide(Hi(Low(x))) && lreg(x) == Wide(Lo(Low(x)))
  {
    Halves(x);
  }

  lemma OperandIs(s: Host, i: bv8)
    ensures Operand(s, i) == Wide(Reg(State(s), i))
  {
    hide Low, Wide, Hi, Lo, Get, hreg, lreg;
    HalvesIs(s.AF);
    HalvesIs(s.BC);
    HalvesIs(s.DE);
    HalvesIs(s.HL);
  }

  lemma SetB(s: Host, v: word32)
    ensures State(SetOperand(s, 0, v)) == SetReg(State(s), 0, Byte(v))
  {
    hide Low, Byte, Hi, Lo, Word, Put, Sethreg, Setlreg;
    SethregIs(s.BC, v);
  }

  lemma SetC(s: Host, v: word32)
    ensures State(SetOperand(s, 1, v)) == SetReg(State(s), 1, Byte(v))
  {
    hide Low, Byte, Hi, Lo, Word, Put, Sethreg, Setlreg;
    SetlregIs(s.BC, v);
  }

  lemma SetD(s: Host, v: word32)
    ensures State(SetOperand(s, 2, v)) == SetReg(State(s), 2, Byte(v))
  {
    hide Low, Byte, Hi, Lo, Word, Put, Sethreg, Setlreg;
    SethregIs(s.DE, v);
  }

  lemma SetE(s: Host, v: word32)
    ensures State(SetOperand(s, 3, v)) == SetReg(State(s), 3, Byte(v))
  {
    hide Low, Byte, Hi, Lo, Word, Put, Sethreg, Setlreg;
    SetlregIs(s.DE, v);
  }

  lemma SetH(s: Host, v: word32)
    ensures State(SetOperand(s, 4, v)) == SetReg(State(s), 4, Byte(v))
  {
    hide Low, Byte, Hi, Lo, Word, Put, Sethreg, Setlreg;
    SethregIs(s.HL, v);
  }

  lemma SetL(s: Host, v: word32)
    ensures State(SetOperand(s, 5, v)) == SetReg(State(s), 5, Byte(v))
  {
    hide Low, Byte, Hi, Lo, Word, Put, Sethreg, Setlreg;
    SetlregIs(s.HL, v);
  }

  lemma SetM(s: Host, v: word32)
    ensures State(SetOperand(s, 6, v)) == SetReg(State(s), 6, Byte(v))
  {
    hide Low, Byte, Hi, Lo, Word, Put, Sethreg, Setlreg;
  }

  lemma SetA(s: Host, v: word32)
    ensures State(SetOperand(s, 7, v)) == SetReg(State(s), 7, Byte(v))
  {
    hide Low, Byte, Hi, Lo, Word, Put, Sethreg, Setlreg;
    SethregIs(s.AF, v);
  }

  lemma SetOperandIs(s: Host, i: bv8, v: word32)
    requires i < 8
    ensures State(SetOperand(s, i, v)) == SetReg(State(s), i, Byte(v))
  {
    hide *;
    if i == 0 {
      SetB(s, v);
    } else if i == 1 {
      SetC(s, v);
    } else if i == 2 {
      SetD(s, v);
    } else if i == 3 {
      SetE(s, v);
    } else if i == 4 {
      SetH(s, v);
    } else if i == 5 {
      SetL(s, v);
    } else if i == 6 {
      SetM(s, v);
    } else {
      SetA(s, v);
    }
  }
}
