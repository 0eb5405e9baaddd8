/** The rest of the ED page, on host registers: NEG, digit rotations, the I and R registers, returns from interrupts. */
module Z80System {
  import opened Z80Cpu
  import opened Z80Flags
  import opened Z80
  import opened Z80Step
  import opened Z80High

  // ----- NEG -----

  function Negated(AF: word32): word32 {
    (0 - (AF & 0xff00)) & 0xff00
  }

  function JoinNeg(t: word32, s: word32, z: word32, h: word32, v: word32, c: word32): word32 {
    t | s | z | h | v | 2 | c
  }

  function TopByte(r: bv8): word32 {
    Wide(r) << 8
  }

  function SignOf(t: word32): word32 {
    (t >> 8) & 0xa8
  }

  function ZeroOf(t: word32): word32 {
    Truth(t & 0xff00 == 0) << 6
  }

  function HalfOf(temp: word32): word32 {
    Truth(temp & 0x0f != 0) << 4
  }

  function OverflowOf(temp: word32): word32 {
    Truth(temp == 0x80) << 2
  }

  function CarryOf(temp: word32): word32 {
    Truth(temp != 0)
  }

  function NegResult(AF: word32): word32 {
    var t, temp := Negated(AF), hreg(AF);
    JoinNeg(t, SignOf(t), ZeroOf(t), HalfOf(temp), OverflowOf(temp), CarryOf(temp))
  }

  /** One flag. */
  function Only(f: bv8, m: bv8): bv8 {
    f & m
  }

  function FlagsOf(s: bv8, z: bv8, h: bv8, v: bv8, c: bv8): bv8 {
    s | z | h | v | FLAG_N | c
  }

  lemma NegByte(AF: word32)
    ensures Negated(AF) == TopByte(SubByte(0, Hi(Low(AF)), 0))
  {
  }

  lemma NegSign(r: bv8)
    ensures SignOf(TopByte(r)) == Wide(Only(r, 0xa8))
  {
  }

  lemma NegZero(r: bv8)
    ensures ZeroOf(TopByte(r)) == Wide(When(r == 0, FLAG_Z))
  {
  }

  lemma NegHalf(a: bv8)
    ensures HalfOf(Wide(a)) == Wide(Only(SubFlags(0, a, 0), FLAG_H))
  {
  }

  lemma NegOverflow(a: bv8)
    ensures OverflowOf(Wide(a)) == Wide(Only(SubFlags(0, a, 0), FLAG_P))
  {
  }

  lemma NegCarry(a: bv8)
    ensures CarryOf(Wide(a)) == Wide(Only(SubFlags(0, a, 0), FLAG_C))
  {
  }

  lemma NegFlags(a: bv8)
    ensures var f := SubFlags(0, a, 0);
            FlagsOf(Only(SubByte(0, a, 0), 0xa8), When(SubByte(0, a, 0) == 0, FLAG_Z), Only(f, FLAG_H),
                    Only(f, FLAG_P), Only(f, FLAG_C)) == f
  {
  }

  lemma JoinNegIs(r: bv8, s: bv8, z: bv8, h: bv8, v: bv8, c: bv8)
    ensures Low(JoinNeg(TopByte(r), Wide(s), Wide(z), Wide(h), Wide(v), Wide(c))) == Word(r, FlagsOf(s, z, h, v, c))
  {
  }

  lemma NegIs(AF: word32)
    ensures Low(NegResult(AF)) == SubA(Word(0, Lo(Low(AF))), Hi(Low(AF)), 0)
  {
    hide Low, Wide, Hi, Lo, Word, hreg, When, Negated, JoinNeg, SubByte, SubFlags, TopByte, Only, FlagsOf, SignOf,
         ZeroOf, HalfOf, OverflowOf, CarryOf;
    var a, f := Hi(Low(AF)), SubFlags(0, Hi(Low(AF)), 0);
    var r := SubByte(0, a, 0);
    WordParts(0, Lo(Low(AF)));
    HalvesIs(AF);
    NegByte(AF);
    NegSign(r);
    NegZero(r);
    NegHalf(a);
    NegOverflow(a);
    NegCarry(a);
    NegFlags(a);
    JoinNegIs(r, Only(r, 0xa8), When(r == 0, FLAG_Z), Only(f, FLAG_H), Only(f, FLAG_P), Only(f, FLAG_C));
  }

  // ----- RRD, RLD -----

  function ldig(x: word32): word32 {
    x & 0xf
  }

  function hdig(x: word32): word32 {
    (x >> 4) & 0xf
  }

  function DigitsResult(AF: word32, acu: word32): word32 {
    (acu << 8) | (acu & 0xa8) | (Truth(acu & 0xff == 0) << 6) | Wide(Partab(Byte(acu))) | (AF & 1)
  }

  lemma DigitParts(a: bv8, s: bv8, z: bv8, p: bv8, AF: word32)
    ensures Low((Wide(a) << 8) | Wide(s) | Wide(z) | Wide(p) | (AF & 1)) == Word(a, s | z | p | Carry(Lo(Low(AF))))
  {
  }

  lemma DigitsResultIs(AF: word32, a: bv8)
    ensures Low(DigitsResult(AF, Wide(a))) == Word(a, SignZero(a) | Parity(a) | Carry(Lo(Low(AF))))
  {
    hide Low, Wide, Byte, Word, Lo, When, Parity, Partab, Truth, Carry;
    ByteWide(a);
    ZeroBit(a);
    PartabIs(a);
    DigitParts(a, a & 0xa8, When(a == 0, FLAG_Z), Parity(a), AF);
  }

  function RightA(acu: word32, temp: word32): word32 {
    (acu & 0xf0) | ldig(temp)
  }

  function RightM(acu: word32, temp: word32): word32 {
    hdig(temp) | (ldig(acu) << 4)
  }

  function LeftA(acu: word32, temp: word32): word32 {
    (acu & 0xf0) | hdig(temp)
  }

  function LeftM(acu: word32, temp: word32): word32 {
    (ldig(temp) << 4) | ldig(acu)
  }

  lemma RightAIs(a: bv8, v: bv8)
    ensures RightA(Wide(a), Wide(v)) == Wide(BothDigits(HighDigit(a), LowDigit(v)))
  {
  }

  lemma RightMIs(a: bv8, v: bv8)
    ensures Byte(RightM(Wide(a), Wide(v))) == BothDigits(Downward(v), Upward(LowDigit(a)))
  {
  }

  lemma LeftAIs(a: bv8, v: bv8)
    ensures LeftA(Wide(a), Wide(v)) == Wide(BothDigits(HighDigit(a), Downward(v)))
  {
  }

  lemma LeftMIs(a: bv8, v: bv8)
    ensures Byte(LeftM(Wide(a), Wide(v))) == BothDigits(Upward(LowDigit(v)), LowDigit(a))
  {
  }

  function HostRotateDigits(s: Host, acu: word32, m: word32): Host {
    PutBYTE(s, s.HL, m).(AF := DigitsResult(s.AF, acu))
  }

  lemma HostRotateDigitsIs(s: Host, a: bv8, m: word32)
    ensures State(HostRotateDigits(s, Wide(a), m)) == RotateDigits(State(s), a, Byte(m))
  {
    hide Low, Wide, Byte, Lo, Word, Put, DigitsResult, SignZero, Parity, Carry;
    DigitsResultIs(s.AF, a);
  }

  // ----- I and R -----

  function FromI(AF: word32, ir: word32, IFF: word32): word32 {
    (AF & 0x29) | (ir & !255) | ((ir >> 8) & 0x80) | (Truth(ir & !255 == 0) << 6) | ((IFF & 2) << 1)
  }

  function FromR(AF: word32, ir: word32, IFF: word32): word32 {
    (AF & 0x29) | ((ir & 255) << 8) | (ir & 0x80) | (Truth(ir & 255 == 0) << 6) | ((IFF & 2) << 1)
  }

  function NewI(AF: word32, ir: word32): word32 {
    (ir & 255) | (AF & !255)
  }

  function NewR(AF: word32, ir: word32): word32 {
    (ir & !255) | ((AF >> 8) & 255)
  }

  lemma FromIIs(AF: word32, ir: bv16, iff: bv16)
    ensures Low(FromI(AF, Wide16(ir), Wide16(iff)))
            == Word(Hi(ir), FlagsFrom(Lo(Low(AF)), Hi(ir), iff))
  {
  }

  lemma FromRIs(AF: word32, ir: bv16, iff: bv16)
    ensures Low(FromR(AF, Wide16(ir), Wide16(iff)))
            == Word(Lo(ir), FlagsFrom(Lo(Low(AF)), Lo(ir), iff))
  {
  }

  lemma IParts(AF: word32, ir: bv16)
    ensures Low(((ir as bv32) & 255) | (AF & !255)) == Word(Hi(Low(AF)), Lo(ir))
  {
  }

  lemma RParts(AF: word32, ir: bv16)
    ensures Low(((ir as bv32) & !255) | ((AF >> 8) & 255)) == Word(Hi(ir), Hi(Low(AF)))
  {
  }

  lemma NewIIs(AF: word32, ir: bv16)
    ensures Low(NewI(AF, Wide16(ir))) == Word(Hi(Low(AF)), Lo(ir))
  {
    hide Low, Word, Hi, Lo;
    IParts(AF, ir);
  }

  lemma NewRIs(AF: word32, ir: bv16)
    ensures Low(NewR(AF, Wide16(ir))) == Word(Hi(ir), Hi(Low(AF)))
  {
    hide Low, Word, Hi, Lo;
    RParts(AF, ir);
  }

  // ----- The page -----

  /** Registers and memory behind an opcode of the ED page that is no port, block or word instruction. */
  function HostSystemPage(s: Host, op: bv8): Host {
    var acu, temp := hreg(s.AF), GetBYTE(s, s.HL);
    if op == 0x44 then s.(AF := NegResult(s.AF))
    else if op == 0x45 || op == 0x4d then HostReturn(s.(iff := Restored(s.iff)), true)
    else if op == 0x47 then s.(ir := Low(NewI(s.AF, Wide16(s.ir))))
    else if op == 0x4f then s.(ir := Low(NewR(s.AF, Wide16(s.ir))))
    else if op == 0x57 then s.(AF := FromI(s.AF, Wide16(s.ir), Wide16(s.iff)))
    else if op == 0x5f then s.(AF := FromR(s.AF, Wide16(s.ir), Wide16(s.iff)))
    else if op == 0x67 then HostRotateDigits(s, RightA(acu, temp), RightM(acu, temp))
    else if op == 0x6f then HostRotateDigits(s, LeftA(acu, temp), LeftM(acu, temp))
    else if op == 0x46 || op == 0x56 || op == 0x5e || !(0x40 <= op < 0x80) then s
    else s.(PC := Before(s.PC))
  }

  lemma NegCase(s: Host)
    ensures State(HostSystemPage(s, 0x44)) == SystemPage(State(s), 0x44)
  {
    hide Low, Hi, Lo, Word, Get, NegResult, SubA;
    NegIs(s.AF);
  }

  lemma ReturnCase(s: Host, op: bv8)
    requires op == 0x45 || op == 0x4d
    ensures State(HostSystemPage(s, op)) == SystemPage(State(s), op)
  {
    hide Low, Hi, Lo, Word, Get, HostReturn, GetWord, TwoAbove, Restored;
    HostReturnIs(s.(iff := Restored(s.iff)), true);
  }

  lemma IrCases(s: Host, op: bv8)
    requires op == 0x47 || op == 0x4f || op == 0x57 || op == 0x5f
    ensures State(HostSystemPage(s, op)) == SystemPage(State(s), op)
  {
    hide Low, Hi, Lo, Word, Get, FlagsFrom, NewI, NewR, FromI, FromR, Wide16;
    NewIIs(s.AF, s.ir);
    NewRIs(s.AF, s.ir);
    FromIIs(s.AF, s.ir, s.iff);
    FromRIs(s.AF, s.ir, s.iff);
  }

  lemma DigitCases(s: Host, op: bv8)
    requires op == 0x67 || op == 0x6f
    ensures State(HostSystemPage(s, op)) == SystemPage(State(s), op)
  {
    hide Low, Wide, Byte, Hi, Lo, Word, Get, HostRotateDigits, RotateDigits, RightA, RightM, LeftA, LeftM, BothDigits,
         HighDigit, LowDigit, Upward, Downward, hreg;
    var a, v := Hi(Low(s.AF)), Get(s.ram, Low(s.HL));
    HalvesIs(s.AF);
    RightAIs(a, v);
    RightMIs(a, v);
    LeftAIs(a, v);
    LeftMIs(a, v);
    HostRotateDigitsIs(s, BothDigits(HighDigit(a), LowDigit(v)), RightM(Wide(a), Wide(v)));
    HostRotateDigitsIs(s, BothDigits(HighDigit(a), Downward(v)), LeftM(Wide(a), Wide(v)));
  }

  lemma OtherCases(s: Host, op: bv8)
    requires op !in {0x44, 0x45, 0x4d, 0x47, 0x4f, 0x57, 0x5f, 0x67, 0x6f}
    ensures State(HostSystemPage(s, op)) == SystemPage(State(s), op)
  {
    hide Low, Hi, Lo, Word, Get, hreg, Wide, Before, Below, NegResult, SubA, HostReturn, Return, HostRotateDigits,
         RotateDigits;
    BelowIs(s.PC);
  }

  lemma HostSystemPageIs(s: Host, op: bv8)
    ensures State(HostSystemPage(s, op)) == SystemPage(State(s), op)
  {
    hide *;
    if op == 0x44 {
      NegCase(s);
    } else if op == 0x45 || op == 0x4d {
      ReturnCase(s, op);
    } else if op == 0x47 || op == 0x4f || op == 0x57 || op == 0x5f {
      IrCases(s, op);
    } else if op == 0x67 || op == 0x6f {
      DigitCases(s, op);
    } else {
      OtherCases(s, op);
    }
  }
}
