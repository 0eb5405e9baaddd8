/** Register pairs, conditions and register moves, on host registers. */
module Z80Step {
  import opened Z80Cpu
  import opened Z80Flags
  import opened Z80

  // ----- Words, pairs, conditions -----

  function Cut(x: word32): word32 {
    x & 0xffff
  }

  /** BC, DE, HL, SP */
  function HostPair(s: Host, p: bv8): word32 {
    if p == 0 then s.BC else if p == 1 then s.DE else if p == 2 then s.HL else s.SP
  }

  function SetHostPair(s: Host, p: bv8, w: word32): Host {
    if p == 0 then s.(BC := w) else if p == 1 then s.(DE := w) else if p == 2 then s.(HL := w) else s.(SP := w)
  }

  lemma PairIs(s: Host, p: bv8)
    ensures Low(HostPair(s, p)) == Pair(State(s), p)
  {
    hide Low;
  }

  lemma SetPairIs(s: Host, p: bv8, w: word32)
    ensures State(SetHostPair(s, p, w)) == SetPair(State(s), p, Low(w))
  {
    hide Low;
  }

  /** TSTFLAG with the flags Z, C, P, S, or its negation. */
  function Test(AF: word32, i: bv8): bool {
    if i == 0 then AF & 64 == 0 else if i == 1 then AF & 64 != 0
    else if i == 2 then AF & 1 == 0 else if i == 3 then AF & 1 != 0
    else if i == 4 then AF & 4 == 0 else if i == 5 then AF & 4 != 0
    else if i == 6 then AF & 128 == 0 else AF & 128 != 0
  }

  lemma FlagIs(AF: word32, m: bv8)
    ensures AF & Wide(m) == Wide(Lo(Low(AF)) & m)
  {
  }

  lemma WideZero(v: bv8)
    ensures Wide(v) == 0 <==> v == 0
    ensures Wide(64) == 64 && Wide(1) == 1 && Wide(4) == 4 && Wide(128) == 128
  {
  }

  lemma TestIs(AF: word32, i: bv8)
    ensures Test(AF, i) == Condition(Low(AF), i)
  {
    hide Low, Lo, Wide;
    FlagIs(AF, 64);
    FlagIs(AF, 1);
    FlagIs(AF, 4);
    FlagIs(AF, 128);
    WideZero(Lo(Low(AF)) & 64);
    WideZero(Lo(Low(AF)) & 1);
    WideZero(Lo(Low(AF)) & 4);
    WideZero(Lo(Low(AF)) & 128);
  }

  lemma TwoNext(a: word32)
    ensures Low(Next(Next(a))) == Low(a) + 2
  {
    hide Low, Next;
    NextIs(a);
    NextIs(Next(a));
    OneAndOne(Low(a));
  }

  lemma OneAndOne(w: bv16)
    ensures w + 1 + 1 == w + 2 && w - 1 - 1 == w - 2
  {
  }

  function Before(a: word32): word32 {
    a - 1
  }

  lemma MinusOne(a: word32)
    ensures Low(a - 1) == Low(a) - 1
  {
  }

  lemma BeforeIs(a: word32)
    ensures Low(Before(a)) == Low(a) - 1
  {
    hide Low;
    MinusOne(a);
  }

  /** PC += 2 */
  function SkipWord(s: Host): Host {
    s.(PC := Next(Next(s.PC)))
  }

  lemma SkipWordIs(s: Host)
    ensures State(SkipWord(s)) == Skip(State(s), 2)
  {
    hide Low, Next;
    TwoNext(s.PC);
  }

  function SkipByte(s: Host): Host {
    s.(PC := Next(s.PC))
  }

  lemma SkipByteIs(s: Host)
    ensures State(SkipByte(s)) == Skip(State(s), 1)
  {
    hide Low, Next;
    NextIs(s.PC);
  }

  // ----- LD r,r' -----

  predicate IsHigh(i: bv8) {
    i == 0 || i == 2 || i == 4 || i == 7
  }

  /** The register pair that holds register `i`. */
  function Holder(s: Host, i: bv8): word32 {
    if i == 0 || i == 1 then s.BC else if i == 2 || i == 3 then s.DE else if i == 4 || i == 5 then s.HL else s.AF
  }

  function SetHolder(s: Host, i: bv8, w: word32): Host {
    if i == 0 || i == 1 then s.(BC := w) else if i == 2 || i == 3 then s.(DE := w)
    else if i == 4 || i == 5 then s.(HL := w) else s.(AF := w)
  }

  /** The moves do not mask: bits above 15 come along from the source or stay behind. */
  function HighHigh(to: word32, from: word32): word32 {
    (to & 255) | (from & !255)
  }

  function HighLow(to: word32, from: word32): word32 {
    (to & 255) | ((from & 255) << 8)
  }

  function LowHigh(to: word32, from: word32): word32 {
    (to & !255) | ((from >> 8) & 255)
  }

  function LowLow(to: word32, from: word32): word32 {
    (to & !255) | (from & 255)
  }

  function Moved(to: word32, from: word32, y: bv8, z: bv8): word32 {
    if IsHigh(y) then if IsHigh(z) then HighHigh(to, from) else HighLow(to, from)
    else if IsHigh(z) then LowHigh(to, from) else LowLow(to, from)
  }

  function LoadRegister(s: Host, y: bv8, z: bv8): Host {
    if y == 6 || z == 6 then SetOperand(s, y, Operand(s, z))
    else if y == z then s
    else SetHolder(s, y, Moved(Holder(s, y), Holder(s, z), y, z))
  }

  lemma HighHighIs(to: word32, from: word32)
    ensures Low((to & 255) | (from & !255)) == Word(Hi(Low(from)), Lo(Low(to)))
  {
  }

  lemma HighLowIs(to: word32, from: word32)
    ensures Low((to & 255) | ((from & 255) << 8)) == Word(Lo(Low(from)), Lo(Low(to)))
  {
  }

  lemma LowHighIs(to: word32, from: word32)
    ensures Low((to & !255) | ((from >> 8) & 255)) == Word(Hi(Low(to)), Hi(Low(from)))
  {
  }

  lemma LowLowIs(to: word32, from: word32)
    ensures Low((to & !255) | (from & 255)) == Word(Hi(Low(to)), Lo(Low(from)))
  {
  }

  /** The byte of register `i` in its pair, and a new byte put there. */
  function PartOf(w: bv16, i: bv8): bv8 {
    if IsHigh(i) then Hi(w) else Lo(w)
  }

  function WithPart(w: bv16, i: bv8, v: bv8): bv16 {
    if IsHigh(i) then Word(v, Lo(w)) else Word(Hi(w), v)
  }

  lemma MovedIs(to: word32, from: word32, y: bv8, z: bv8)
    ensures Low(Moved(to, from, y, z)) == WithPart(Low(to), y, PartOf(Low(from), z))
  {
    hide Low, Hi, Lo, Word, IsHigh;
    HighHighIs(to, from);
    HighLowIs(to, from);
    LowHighIs(to, from);
    LowLowIs(to, from);
  }

  lemma RegIsPart(s: Host, z: bv8)
    requires z < 8 && z != 6
    ensures Reg(State(s), z) == PartOf(Low(Holder(s, z)), z)
  {
    hide Low, Hi, Lo;
  }

  lemma SetRegIsPart(s: Host, y: bv8, w: word32, v: bv8)
    requires y < 8 && y != 6 && Low(w) == WithPart(Low(Holder(s, y)), y, v)
    ensures State(SetHolder(s, y, w)) == SetReg(State(s), y, v)
  {
    hide Low, Hi, Lo, Word;
  }

  lemma SameRegister(c: Cpu, y: bv8)
    requires y < 8 && y != 6
    ensures SetReg(c, y, Reg(c, y)) == c
  {
    hide Hi, Lo, Word;
    WordAgain(c.bc);
    WordAgain(c.de);
    WordAgain(c.hl);
    WordAgain(c.af);
  }

  lemma WordAgain(w: bv16)
    ensures Word(Hi(w), Lo(w)) == w
  {
  }

  lemma LoadRegisterIs(s: Host, y: bv8, z: bv8)
    requires y < 8 && z < 8
    ensures State(LoadRegister(s, y, z)) == SetReg(State(s), y, Reg(State(s), z))
  {
    hide Low, Wide, Byte, State, Reg, SetReg, Operand, SetOperand, Holder, SetHolder, Moved, PartOf, WithPart;
    if y == 6 || z == 6 {
      OperandIs(s, z);
      SetOperandIs(s, y, Operand(s, z));
      ByteWide(Reg(State(s), z));
    } else if y == z {
      SameRegister(State(s), y);
    } else {
      MovedIs(Holder(s, y), Holder(s, z), y, z);
      RegIsPart(s, z);
      SetRegIsPart(s, y, Moved(Holder(s, y), Holder(s, z), y, z), Reg(State(s), z));
    }
  }
}
