/** The CB page, on host registers: rotations, shifts and single bits. */
module Z80Bits {
  import opened Z80Cpu
  import opened Z80Flags
  import opened Z80Alu
  import opened Z80
  import opened Z80Step
  import opened Z80Low

  // ----- Rotating and shifting -----

  /** `temp` before it is cut to a byte. */
  function ShiftTemp(y: bv8, AF: word32, acu: word32): word32 {
    if y == 0 then (acu << 1) | (acu >> 7)
    else if y == 1 then (acu >> 1) | (acu << 7)
    else if y == 2 then (acu << 1) | CarryIn(AF)
    else if y == 3 then (acu >> 1) | (CarryIn(AF) << 7)
    else if y == 4 then acu << 1
    else if y == 5 then (acu >> 1) | (acu & 0x80)
    else if y == 6 then (acu << 1) | 1
    else acu >> 1
  }

  function ShiftBits(y: bv8, acu: word32, temp: word32): word32 {
    if y == 0 then temp & 1 else if y == 1 then temp & 0x80
    else if ShiftsLeft(y) then acu & 0x80 else acu & 1
  }

  function ShiftResult(AF: word32, temp: word32, cbits: word32): word32 {
    JoinShift(AF, temp & 0xa8, Truth(temp & 0xff == 0) << 6, Wide(Partab(Byte(temp))), Truth(cbits != 0))
  }

  function JoinShift(AF: word32, s: word32, z: word32, p: word32, c: word32): word32 {
    (AF & !0xff) | s | z | p | c
  }

  lemma Shift0(AF: word32, v: bv8)
    ensures Byte(ShiftTemp(0, AF, Wide(v))) == Shifted(0, Lo(Low(AF)), v)
  {
  }

  lemma Shift1(AF: word32, v: bv8)
    ensures Byte(ShiftTemp(1, AF, Wide(v))) == Shifted(1, Lo(Low(AF)), v)
  {
  }

  lemma Shift2(AF: word32, v: bv8)
    ensures Byte(ShiftTemp(2, AF, Wide(v))) == Shifted(2, Lo(Low(AF)), v)
  {
  }

  lemma Shift3(AF: word32, v: bv8)
    ensures Byte(ShiftTemp(3, AF, Wide(v))) == Shifted(3, Lo(Low(AF)), v)
  {
  }

  lemma ShiftOther(y: bv8, AF: word32, v: bv8)
    requires y > 3
    ensures Byte(ShiftTemp(y, AF, Wide(v))) == Shifted(y, Lo(Low(AF)), v)
  {
  }

  lemma ShiftTempIs(y: bv8, AF: word32, v: bv8)
    ensures Byte(ShiftTemp(y, AF, Wide(v))) == Shifted(y, Lo(Low(AF)), v)
  {
    hide *;
    if y == 0 {
      Shift0(AF, v);
    } else if y == 1 {
      Shift1(AF, v);
    } else if y == 2 {
      Shift2(AF, v);
    } else if y == 3 {
      Shift3(AF, v);
    } else {
      AboveThree(y);
      ShiftOther(y, AF, v);
    }
  }

  lemma AboveThree(y: bv8)
    requires y != 0 && y != 1 && y != 2 && y != 3
    ensures y > 3
  {
  }

  lemma Out0(AF: word32, v: bv8)
    ensures Truth(ShiftBits(0, Wide(v), ShiftTemp(0, AF, Wide(v))) != 0) == Wide(ShiftedOut(0, v))
  {
  }

  lemma Out1(AF: word32, v: bv8)
    ensures Truth(ShiftBits(1, Wide(v), ShiftTemp(1, AF, Wide(v))) != 0) == Wide(ShiftedOut(1, v))
  {
  }

  lemma OutOther(y: bv8, v: bv8, temp: word32)
    requires y != 0 && y != 1
    ensures Truth(ShiftBits(y, Wide(v), temp) != 0) == Wide(ShiftedOut(y, v))
  {
  }

  lemma ShiftBitsIs(y: bv8, AF: word32, v: bv8)
    ensures Truth(ShiftBits(y, Wide(v), ShiftTemp(y, AF, Wide(v))) != 0) == Wide(ShiftedOut(y, v))
  {
    hide *;
    if y == 0 {
      Out0(AF, v);
    } else if y == 1 {
      Out1(AF, v);
    } else {
      OutOther(y, v, ShiftTemp(y, AF, Wide(v)));
    }
  }

  lemma CutSign(temp: word32)
    ensures temp & 0xa8 == Wide(Byte(temp) & 0xa8)
  {
  }

  lemma CutZero(temp: word32)
    ensures Truth(temp & 0xff == 0) << 6 == Wide(When(Byte(temp) == 0, FLAG_Z))
  {
  }

  lemma JoinShiftParts(AF: word32, s: bv8, z: bv8, p: bv8, c: bv8)
    ensures Low((AF & !0xff) | Wide(s) | Wide(z) | Wide(p) | Wide(c)) == Word(Hi(Low(AF)), s | z | p | c)
  {
  }

  lemma JoinShiftIs(AF: word32, s: bv8, z: bv8, p: bv8, c: bv8)
    ensures Low(JoinShift(AF, Wide(s), Wide(z), Wide(p), Wide(c))) == Word(Hi(Low(AF)), s | z | p | c)
  {
    hide Low, Wide, Word, Hi;
    JoinShiftParts(AF, s, z, p, c);
  }

  lemma ShiftResultIs(y: bv8, AF: word32, v: bv8)
    ensures var temp := ShiftTemp(y, AF, Wide(v)); var r := Shifted(y, Lo(Low(AF)), v);
            Low(ShiftResult(AF, temp, ShiftBits(y, Wide(v), temp)))
                == Word(Hi(Low(AF)), ShiftFlags(r, ShiftedOut(y, v)))
  {
    hide Low, Wide, Byte, Word, Hi, Lo, When, Truth, Parity, Partab, ShiftTemp, ShiftBits, Shifted, ShiftedOut,
         JoinShift;
    var temp := ShiftTemp(y, AF, Wide(v));
    ShiftTempIs(y, AF, v);
    ShiftBitsIs(y, AF, v);
    CutSign(temp);
    CutZero(temp);
    PartabIs(Byte(temp));
    JoinShiftIs(AF, Byte(temp) & 0xa8, When(Byte(temp) == 0, FLAG_Z), Parity(Byte(temp)), ShiftedOut(y, v));
  }

  // ----- BIT, RES, SET -----

  function WideMask(y: bv8): word32 {
    1 << (y & 7)
  }

  function TestResult(AF: word32, y: bv8, isSet: bool): word32 {
    if isSet then (AF & !0xfe) | 0x10 | (Truth(y == 7) << 7) else (AF & !0xfe) | 0x54
  }

  function MoreBits(t: word32, acu: word32): word32 {
    t | (acu & 0x28)
  }

  function BitResult(AF: word32, y: bv8, z: bv8, acu: word32): word32 {
    var t := TestResult(AF, y, acu & WideMask(y) != 0);
    if z != 6 then MoreBits(t, acu) else t
  }

  lemma MaskIs(y: bv8, v: bv8)
    ensures Wide(v) & WideMask(y) != 0 <==> v & Mask(y) != 0
  {
  }

  lemma TestResultIs(AF: word32, y: bv8, isSet: bool)
    ensures Low(TestResult(AF, y, isSet)) == Word(Hi(Low(AF)), TestFlags(y, Lo(Low(AF)), isSet))
  {
  }

  lemma OrBits(t: word32, x: bv8)
    ensures Low(t | Wide(x)) == Word(Hi(Low(t)), Lo(Low(t)) | x)
  {
  }

  lemma MoreBitsIs(t: word32, v: bv8)
    ensures Low(MoreBits(t, Wide(v))) == Word(Hi(Low(t)), Lo(Low(t)) | (v & 0x28))
  {
    hide Low, Wide, Word, Hi, Lo;
    OperandBits(v);
    OrBits(t, v & 0x28);
  }

  lemma OrNothing(f: bv8)
    ensures f | 0 == f
  {
  }

  lemma BitResultIs(AF: word32, y: bv8, z: bv8, v: bv8)
    ensures Low(BitResult(AF, y, z, Wide(v))) == Word(Hi(Low(AF)), BitFlags(y, z, Lo(Low(AF)), v))
  {
    hide Low, Wide, Word, Hi, Lo, TestResult, TestFlags, MoreBits, Mask, WideMask;
    MaskIs(y, v);
    var isSet := v & Mask(y) != 0;
    var f := TestFlags(y, Lo(Low(AF)), isSet);
    TestResultIs(AF, y, isSet);
    MoreBitsIs(TestResult(AF, y, isSet), v);
    WordParts(Hi(Low(AF)), f);
    OrNothing(f);
  }

  function Without(acu: word32, y: bv8): word32 {
    acu & !WideMask(y)
  }

  function With(acu: word32, y: bv8): word32 {
    acu | WideMask(y)
  }

  lemma WithoutIs(v: bv8, y: bv8)
    ensures Byte(Without(Wide(v), y)) == Reset(v, y)
  {
  }

  lemma WithIs(v: bv8, y: bv8)
    ensures Byte(With(Wide(v), y)) == Set(v, y)
  {
  }

  // ----- The page -----

  /** Even BIT writes its operand back. */
  function HostBitPage(s: Host, op: bv8): Host {
    var y, z := Y(op), Z(op);
    var acu := Operand(s, z);
    if op < 0x40 then
      var temp := ShiftTemp(y, s.AF, acu);
      SetOperand(s.(AF := ShiftResult(s.AF, temp, ShiftBits(y, acu, temp))), z, temp)
    else if op < 0x80 then SetOperand(s.(AF := BitResult(s.AF, y, z, acu)), z, acu)
    else if op < 0xc0 then SetOperand(s, z, Without(acu, y))
    else SetOperand(s, z, With(acu, y))
  }

  /** Setting AF first and a register afterwards. */
  lemma ThenSet(s: Host, AF: word32, z: bv8, temp: word32)
    requires z < 8
    ensures State(SetOperand(s.(AF := AF), z, temp)) == SetReg(State(s).(af := Low(AF)), z, Byte(temp))
  {
    hide Low, Byte, SetOperand, SetReg;
    SetOperandIs(s.(AF := AF), z, temp);
  }

  lemma HostBitPageIs(s: Host, op: bv8)
    ensures State(HostBitPage(s, op)) == BitPage(State(s), op)
  {
    hide State, Low, Wide, Byte, Word, Hi, Lo, Y, Z, Operand, SetOperand, Reg, SetReg, ShiftTemp, ShiftBits,
         ShiftResult, Shifted, ShiftedOut,
         Z80Cpu.ShiftFlags, BitResult, BitFlags, Without, With, Reset, Set;
    var y, z := Y(op), Z(op);
    var v := Reg(State(s), z);
    Fields(op);
    OperandIs(s, z);
    StateAf(s);
    if op < 0x40 {
      ShiftResultIs(y, s.AF, v);
      var temp := ShiftTemp(y, s.AF, Wide(v));
      ShiftTempIs(y, s.AF, v);
      ThenSet(s, ShiftResult(s.AF, temp, ShiftBits(y, Wide(v), temp)), z, temp);
    } else if op < 0x80 {
      BitResultIs(s.AF, y, z, v);
      ByteWide(v);
      ThenSet(s, BitResult(s.AF, y, z, Wide(v)), z, Wide(v));
    } else if op < 0xc0 {
      WithoutIs(v, y);
      SetOperandIs(s, z, Without(Wide(v), y));
    } else {
      WithIs(v, y);
      SetOperandIs(s, z, With(Wide(v), y));
    }
  }

  /** Storing the operand as it was changes no byte. */
  lemma StoredAsItWas(m: Memory, a: bv16, x: bv16)
    ensures Put(m, a, Get(m, a))(x) == m(x)
  {
  }

  /** So BIT changes nothing but the flags, although it writes its operand back. */
  lemma BitKeeps(c: Cpu, op: bv8)
    requires 0x40 <= op < 0x80
    ensures var c' := BitPage(c, op);
            && c'.(af := c.af, mem := c.mem) == c && Hi(c'.af) == Hi(c.af) && forall x: bv16 :: c'.mem(x) == c.mem(x)
  {
    hide Hi, Lo, Word, BitFlags, Y, Z, Put, Get;
    var z, f := Z(op), BitFlags(Y(op), Z(op), Lo(c.af), Reg(c, Z(op)));
    Fields(op);
    WordParts(Hi(c.af), f);
    WordAgain(c.bc);
    WordAgain(c.de);
    WordAgain(c.hl);
    WordAgain(c.af);
    WordAgain(Word(Hi(c.af), f));
    forall x: bv16
      ensures Put(c.mem, c.hl, Get(c.mem, c.hl))(x) == c.mem(x)
    {
      StoredAsItWas(c.mem, c.hl, x);
    }
  }
}
