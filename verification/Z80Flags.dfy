/** The flag computations of the simulator, on host words, yield the flags of the instruction descriptions. */
module Z80Flags {
  import opened Z80Cpu

  /** A host register: its low 16 bits are the Z80 register, the rest may be anything. */
  type word32 = bv32

  function Low(x: word32): bv16 {
    (x & 0xffff) as bv16
  }

  function lreg(x: word32): word32 {
    x & 0xff
  }

  function hreg(x: word32): word32 {
    (x >> 8) & 0xff
  }

  function Byte(x: word32): bv8 {
    (x & 0xff) as bv8
  }

  /** A C truth value. */
  function Truth(b: bool): word32 {
    if b then 1 else 0
  }

  lemma Halves(x: word32)
    ensures hreg(x) == Wide(Hi(Low(x))) && lreg(x) == Wide(Lo(Low(x)))
    ensures Low(x) == Word(Hi(Low(x)), Lo(Low(x)))
  {
  }

  lemma SetHigh(x: word32, v: word32)
    ensures Low((x & 0xff) | ((v & 0xff) << 8)) == Word(Byte(v), Lo(Low(x)))
  {
  }

  lemma SetLow(x: word32, v: word32)
    ensures Low((x & 0xff00) | (v & 0xff)) == Word(Hi(Low(x)), Byte(v))
  {
  }

  lemma WordParts(h: bv8, l: bv8)
    ensures Hi(Word(h, l)) == h && Lo(Word(h, l)) == l
  {
  }

  // ----- ADD, ADC, SUB, SBC, CP -----

  /** The parts of AF after an addition or subtraction: result, sign, zero, half carry, overflow, subtraction, carry. */
  function Assemble(r: word32, s: word32, z: word32, h: word32, v: word32, n: word32, c: word32): word32 {
    (r << 8) | s | z | h | v | n | c
  }

  function Overflow(cbits: word32): word32 {
    ((cbits >> 6) ^ (cbits >> 5)) & 4
  }

  /** AF after an addition (n = 0) or subtraction (n = 2). */
  function SumResult(acu: word32, temp: word32, sum: word32, n: word32): word32 {
    var cbits := acu ^ temp ^ sum;
    Assemble(sum & 0xff, sum & 0xa8, Truth(sum & 0xff == 0) << 6, cbits & 0x10, Overflow(cbits), n, (cbits >> 8) & 1)
  }

  /** AF with a new F put together from parts. */
  function NewFlags(AF: word32, s: word32, z: word32, t: word32, v: word32, h: word32, n: word32, c: word32): word32 {
    (AF & !0xff) | s | z | t | v | h | n | c
  }

  /** AF after CP: A stays, and two flag bits come from the operand. */
  function CompareResult(AF: word32, acu: word32, temp: word32, sum: word32): word32 {
    var cbits := acu ^ temp ^ sum;
    NewFlags(AF, sum & 0x80, Truth(sum & 0xff == 0) << 6, temp & 0x28, Overflow(cbits), cbits & 0x10, 2,
             (cbits >> 8) & 1)
  }

  function Sum(a: bv8, b: bv8, c: bv8): word32 {
    Wide(a) + Wide(b) + Wide(c)
  }

  function SumBits(a: bv8, b: bv8, c: bv8): word32 {
    Wide(a) ^ Wide(b) ^ Sum(a, b, c)
  }

  function Diff(a: bv8, b: bv8, c: bv8): word32 {
    Wide(a) - Wide(b) - Wide(c)
  }

  function DiffBits(a: bv8, b: bv8, c: bv8): word32 {
    Wide(a) ^ Wide(b) ^ Diff(a, b, c)
  }

  lemma SumByte(a: bv8, b: bv8, c: bv8)
    requires c <= 1
    ensures Sum(a, b, c) & 0xff == Wide(a + b + c)
  {
  }

  lemma SumSign(a: bv8, b: bv8, c: bv8)
    requires c <= 1
    ensures Sum(a, b, c) & 0xa8 == Wide((a + b + c) & 0xa8)
  {
  }

  lemma SumHalf(a: bv8, b: bv8, c: bv8)
    requires c <= 1
    ensures SumBits(a, b, c) & 0x10 == Wide(When((a & 15) + (b & 15) + c > 15, FLAG_H))
  {
  }

  lemma SumOverflow(a: bv8, b: bv8, c: bv8)
    requires c <= 1
    ensures Overflow(SumBits(a, b, c))
            == Wide(When((a ^ (a + b + c)) & (b ^ (a + b + c)) & 0x80 != 0, FLAG_P))
  {
  }

  lemma SumCarry(a: bv8, b: bv8, c: bv8)
    requires c <= 1
    ensures (SumBits(a, b, c) >> 8) & 1 == Wide(When((a as bv16) + (b as bv16) + (c as bv16) > 0xff, FLAG_C))
  {
  }

  lemma DiffByte(a: bv8, b: bv8, c: bv8)
    requires c <= 1
    ensures Diff(a, b, c) & 0xff == Wide(a - b - c)
  {
  }

  lemma DiffSign(a: bv8, b: bv8, c: bv8)
    requires c <= 1
    ensures Diff(a, b, c) & 0xa8 == Wide((a - b - c) & 0xa8)
  {
  }

  lemma DiffHalf(a: bv8, b: bv8, c: bv8)
    requires c <= 1
    ensures DiffBits(a, b, c) & 0x10 == Wide(When((a & 15) < (b & 15) + c, FLAG_H))
  {
  }

  lemma DiffOverflow(a: bv8, b: bv8, c: bv8)
    requires c <= 1
    ensures Overflow(DiffBits(a, b, c))
            == Wide(When((a ^ b) & (a ^ (a - b - c)) & 0x80 != 0, FLAG_P))
  {
  }

  lemma DiffCarry(a: bv8, b: bv8, c: bv8)
    requires c <= 1
    ensures (DiffBits(a, b, c) >> 8) & 1 == Wide(When((a as bv16) < (b as bv16) + (c as bv16), FLAG_C))
  {
  }

  lemma ZeroBit(r: bv8)
    ensures Truth(Wide(r) == 0) << 6 == Wide(When(r == 0, FLAG_Z))
  {
  }

  lemma JoinParts(r: bv8, s: bv8, z: bv8, h: bv8, v: bv8, n: bv8, c: bv8)
    ensures Low((Wide(r) << 8) | Wide(s) | Wide(z) | Wide(h) | Wide(v) | Wide(n) | Wide(c))
            == Word(r, s | z | h | v | n | c)
  {
  }

  lemma AssembleIs(r: bv8, s: bv8, z: bv8, h: bv8, v: bv8, n: bv8, c: bv8)
    ensures Low(Assemble(Wide(r), Wide(s), Wide(z), Wide(h), Wide(v), Wide(n), Wide(c)))
            == Word(r, s | z | h | v | n | c)
  {
    hide Low, Wide, Word;
    JoinParts(r, s, z, h, v, n, c);
  }

  lemma NoFlagN(s: bv8, z: bv8, h: bv8, v: bv8, c: bv8)
    ensures s | z | h | v | 0 | c == s | z | h | v | c
  {
  }

  lemma SmallWords()
    ensures Wide(0) == 0 && Wide(FLAG_N) == 2
  {
  }

  lemma AddIs(a: bv8, b: bv8, c: bv8)
    requires c <= 1
    ensures Low(SumResult(Wide(a), Wide(b), Sum(a, b, c), 0)) == Word(a + b + c, AddFlags(a, b, c))
  {
    hide Low, Wide, When, Truth, Word, Sum, Assemble, Overflow;
    SumByte(a, b, c);
    SumSign(a, b, c);
    SumHalf(a, b, c);
    SumOverflow(a, b, c);
    SumCarry(a, b, c);
    var r := a + b + c;
    ZeroBit(r);
    SmallWords();
    var h, v := When((a & 15) + (b & 15) + c > 15, FLAG_H), When((a ^ r) & (b ^ r) & 0x80 != 0, FLAG_P);
    var k := When((a as bv16) + (b as bv16) + (c as bv16) > 0xff, FLAG_C);
    AssembleIs(r, r & 0xa8, When(r == 0, FLAG_Z), h, v, 0, k);
    NoFlagN(r & 0xa8, When(r == 0, FLAG_Z), h, v, k);
  }

  lemma SubIs(a: bv8, b: bv8, c: bv8)
    requires c <= 1
    ensures Low(SumResult(Wide(a), Wide(b), Diff(a, b, c), 2)) == Word(a - b - c, SubFlags(a, b, c))
  {
    hide Low, Wide, When, Truth, Word, Diff, Assemble, Overflow;
    DiffByte(a, b, c);
    DiffSign(a, b, c);
    DiffHalf(a, b, c);
    DiffOverflow(a, b, c);
    DiffCarry(a, b, c);
    var r := a - b - c;
    ZeroBit(r);
    SmallWords();
    AssembleIs(r, r & 0xa8, When(r == 0, FLAG_Z), When((a & 15) < (b & 15) + c, FLAG_H),
               When((a ^ b) & (a ^ r) & 0x80 != 0, FLAG_P), FLAG_N,
                   When((a as bv16) < (b as bv16) + (c as bv16), FLAG_C));
  }

  lemma NewFlagParts(AF: word32, s: bv8, z: bv8, t: bv8, v: bv8, h: bv8, n: bv8, c: bv8)
    ensures Low((AF & !0xff) | Wide(s) | Wide(z) | Wide(t) | Wide(v) | Wide(h) | Wide(n) | Wide(c))
            == Word(Hi(Low(AF)), s | z | t | v | h | n | c)
  {
  }

  lemma NewFlagsIs(AF: word32, s: bv8, z: bv8, t: bv8, v: bv8, h: bv8, n: bv8, c: bv8)
    ensures Low(NewFlags(AF, Wide(s), Wide(z), Wide(t), Wide(v), Wide(h), Wide(n), Wide(c)))
            == Word(Hi(Low(AF)), s | z | t | v | h | n | c)
  {
    hide Low, Wide, Word, Hi;
    NewFlagParts(AF, s, z, t, v, h, n, c);
  }

  lemma DiffTop(a: bv8, b: bv8, c: bv8)
    requires c <= 1
    ensures Diff(a, b, c) & 0x80 == Wide((a - b - c) & 0x80)
  {
  }

  lemma CompareParts(AF: word32, a: bv8, b: bv8, c: bv8)
    requires c <= 1
    ensures var r := a - b - c;
            CompareResult(AF, Wide(a), Wide(b), Diff(a, b, c))
            == NewFlags(AF, Wide(r & 0x80), Wide(When(r == 0, FLAG_Z)), Wide(b & 0x28),
                        Wide(When((a ^ b) & (a ^ r) & 0x80 != 0, FLAG_P)),
                        Wide(When((a & 15) < (b & 15) + c, FLAG_H)), Wide(FLAG_N),
                            Wide(When((a as bv16) < (b as bv16) + (c as bv16), FLAG_C)))
  {
    hide Wide, When, Truth, Diff, NewFlags, Overflow;
    DiffByte(a, b, c);
    DiffTop(a, b, c);
    DiffHalf(a, b, c);
    DiffOverflow(a, b, c);
    DiffCarry(a, b, c);
    ZeroBit(a - b - c);
    SmallWords();
    OperandBits(b);
  }

  lemma OperandBits(b: bv8)
    ensures Wide(b) & 0x28 == Wide(b & 0x28)
  {
  }

  lemma CompareIs(AF: word32, a: bv8, b: bv8, c: bv8)
    requires c <= 1
    ensures Low(CompareResult(AF, Wide(a), Wide(b), Diff(a, b, c))) == Word(Hi(Low(AF)), CompareFlags(a, b, c))
  {
    hide Low, Hi, Wide, When, Word, Diff, NewFlags, CompareResult;
    var r := a - b - c;
    CompareParts(AF, a, b, c);
    NewFlagsIs(AF, r & 0x80, When(r == 0, FLAG_Z), b & 0x28, When((a ^ b) & (a ^ r) & 0x80 != 0, FLAG_P),
               When((a & 15) < (b & 15) + c, FLAG_H), FLAG_N, When((a as bv16) < (b as bv16) + (c as bv16), FLAG_C));
  }

  // ----- The parity table -----

  /** The rows of partab: sixteen entries each, the first one in the lowest bit. */
  function Row(r: bv8): bv16 {
    if r == 0 then 0x9669 else if r == 1 then 0x6996 else if r == 2 then 0x6996 else if r == 3 then 0x9669
    else if r == 4 then 0x6996 else if r == 5 then 0x9669 else if r == 6 then 0x9669 else if r == 7 then 0x6996
    else if r == 8 then 0x6996 else if r == 9 then 0x9669 else if r == 10 then 0x9669 else if r == 11 then 0x6996
    else if r == 12 then 0x9669 else if r == 13 then 0x6996 else if r == 14 then 0x6996 else 0x9669
  }

  function Partab(i: bv8): bv8 {
    if (Row(i >> 4) >> (i & 15)) & 1 != 0 then 4 else 0
  }

  /** The table holds the parity flag of every byte. */
  lemma PartabIs(v: bv8)
    ensures Partab(v) == Parity(v)
  {
  }

  // ----- AND, XOR, OR; INC, DEC -----

  /** AF after a logic operation; `h` is 0x10 for AND. */
  function LogicResult(sum: word32, h: word32): word32 {
    (sum << 8) | (sum & 0xa8) | (Truth(sum == 0) << 6) | h | Wide(Partab(Byte(sum)))
  }

  lemma LogicParts(r: bv8, s: bv8, z: bv8, h: bv8, p: bv8)
    ensures Low((Wide(r) << 8) | Wide(s) | Wide(z) | Wide(h) | Wide(p)) == Word(r, s | z | p | h)
  {
  }

  lemma ByteWide(r: bv8)
    ensures Byte(Wide(r)) == r && Wide(r) & 0xff == Wide(r) && Wide(r) & 0xa8 == Wide(r & 0xa8)
  {
  }

  lemma LogicIs(r: bv8, h: bv8)
    ensures Low(LogicResult(Wide(r), Wide(h))) == Word(r, LogicFlags(r) | h)
  {
    hide Low, Wide, Byte, Word, When, Parity, Partab, Truth;
    ByteWide(r);
    ZeroBit(r);
    PartabIs(r);
    LogicParts(r, r & 0xa8, When(r == 0, FLAG_Z), h, Parity(r));
  }

  /** AF after INC; `temp` may have a bit above the byte. */
  function IncResult(AF: word32, temp: word32): word32 {
    (AF & !0xfe) | (temp & 0xa8) | (Truth(temp & 0xff == 0) << 6) | (Truth(temp & 0xf == 0) << 4) | (Truth(temp
        == 0x80) << 2)
  }

  function DecResult(AF: word32, temp: word32): word32 {
    (AF & !0xfe) | (temp & 0xa8) | (Truth(temp & 0xff == 0) << 6) | (Truth(temp & 0xf == 0xf) << 4) | (Truth(temp
        == 0x7f) << 2) | 2
  }

  lemma IncIs(AF: word32, r: bv8, temp: word32)
    requires temp == Wide(r) || (r == 0 && temp == 0x100)
    ensures Low(IncResult(AF, temp)) == Word(Hi(Low(AF)), IncFlags(Lo(Low(AF)), r))
  {
  }

  lemma DecIs(AF: word32, r: bv8, temp: word32)
    requires temp == Wide(r) || (r == 0xff && temp == 0xffff_ffff)
    ensures Low(DecResult(AF, temp)) == Word(Hi(Low(AF)), DecFlags(Lo(Low(AF)), r))
  {
  }

  // ----- 16-bit arithmetic -----

  /** AF with bits 2, 6 and 7 of F kept. */
  function KeptFlags(AF: word32, s: word32, h: word32, c: word32): word32 {
    (AF & !0x3b) | s | h | c
  }

  lemma KeptFlagParts(AF: word32, s: bv8, h: bv8, c: bv8)
    ensures Low((AF & !0x3b) | Wide(s) | Wide(h) | Wide(c)) == Word(Hi(Low(AF)), (Lo(Low(AF)) & 0xc4) | s | (h | c))
  {
  }

  lemma KeptFlagsIs(AF: word32, s: bv8, h: bv8, c: bv8)
    ensures Low(KeptFlags(AF, Wide(s), Wide(h), Wide(c))) == Word(Hi(Low(AF)), (Lo(Low(AF)) & 0xc4) | s | (h | c))
  {
    hide Low, Wide, Word, Hi, Lo;
    KeptFlagParts(AF, s, h, c);
  }

  /** AF after ADD HL,rr; both operands have been cut to 16 bits. */
  function Add16Result(AF: word32, x: word32, y: word32): word32 {
    var sum := x + y;
    var cbits := (x ^ y ^ sum) >> 8;
    KeptFlags(AF, (sum >> 8) & 0x28, cbits & 0x10, (cbits >> 8) & 1)
  }

  /** AF after ADC HL,rr (n = 0) and SBC HL,rr (n = 2). */
  function Sum16Result(AF: word32, x: word32, y: word32, sum: word32, n: word32): word32 {
    var cbits := (x ^ y ^ sum) >> 8;
    NewFlags(AF, (sum >> 8) & 0xa8, Truth(sum & 0xffff == 0) << 6, 0, Overflow(cbits), cbits & 0x10, n,
             (cbits >> 8) & 1)
  }

  lemma SumBits16(x: bv16, y: bv16)
    ensures (((x as bv32) + (y as bv32)) >> 8) & 0x28 == Wide(Hi(x + y) & 0x28)
  {
  }

  lemma Add16Is(AF: word32, x: bv16, y: bv16)
    ensures Low(Add16Result(AF, x as bv32, y as bv32)) == Word(Hi(Low(AF)), Add16Flags(Lo(Low(AF)), x, y))
  {
    hide Low, Hi, Lo, Wide, Word, KeptFlags, CarryFlags, Overflow;
    var k := Carries(x, y, (x as bv32) + (y as bv32));
    SumBits16(x, y);
    CarryParts(k);
    KeptFlagsIs(AF, Hi(x + y) & 0x28, (k & 0x10) as bv8, ((k >> 8) & 1) as bv8);
  }

  lemma Sum16Parts(sum: word32)
    ensures (sum >> 8) & 0xa8 == Wide(Hi((sum & 0xffff) as bv16) & 0xa8)
    ensures Truth(sum & 0xffff == 0) << 6 == Wide(When((sum & 0xffff) as bv16 == 0, FLAG_Z))
  {
  }

  lemma CarryParts(k: word32)
    ensures Overflow(k) == Wide(When((k >> 8) & 1 != (k >> 7) & 1, FLAG_P))
    ensures k & 0x10 == Wide((k & 0x10) as bv8) && (k >> 8) & 1 == Wide(((k >> 8) & 1) as bv8)
    ensures CarryFlags(k) == ((k & 0x10) as bv8) | (((k >> 8) & 1) as bv8)
  {
  }

  lemma FlagOrder(s: bv8, z: bv8, v: bv8, h: bv8, n: bv8, c: bv8)
    ensures s | z | 0 | v | h | n | c == s | z | v | (h | c) | n
  {
  }

  lemma Sum16Is(AF: word32, x: bv16, y: bv16, sum: word32, n: bv8)
    ensures Low(Sum16Result(AF, x as bv32, y as bv32, sum, Wide(n))) == Word(Hi(Low(AF)), Sum16Flags(x, y, sum, n))
  {
    hide Low, Hi, Wide, When, Truth, Word, NewFlags, Overflow, CarryFlags;
    var k, r := Carries(x, y, sum), (sum & 0xffff) as bv16;
    Sum16Parts(sum);
    CarryParts(k);
    SmallWords();
    var s, z, v, h, c := Hi(r) & 0xa8, When(r == 0, FLAG_Z), When((k >> 8) & 1 != (k >> 7) & 1, FLAG_P),
        (k & 0x10) as bv8, ((k >> 8) & 1) as bv8;
    NewFlagsIs(AF, s, z, 0, v, h, n, c);
    FlagOrder(s, z, v, h, n, c);
  }

  // ----- The accumulator: rotates, CPL, SCF, CCF, DAA -----

  lemma RlcaIs(AF: word32)
    ensures Low(((AF >> 7) & 0x0128) | ((AF << 1) & !0x1ff) | (AF & 0xc4) | ((AF >> 15) & 1)) == Accumulator(0, Low(AF))
  {
  }

  lemma RrcaIs(AF: word32, temp: word32, sum: word32)
    requires temp == (AF >> 8) & 0xff && sum == temp >> 1
    ensures Low(((temp & 1) << 15) | (sum << 8) | (sum & 0x28) | (AF & 0xc4) | (temp & 1)) == Accumulator(1, Low(AF))
  {
  }

  lemma RlaIs(AF: word32)
    ensures Low(((AF << 8) & 0x0100) | ((AF >> 7) & 0x28) | ((AF << 1) & !0x01ff) | (AF & 0xc4) | ((AF >> 15) & 1))
            == Accumulator(2, Low(AF))
  {
  }

  lemma RraIs(AF: word32, temp: word32, sum: word32)
    requires temp == (AF >> 8) & 0xff && sum == temp >> 1
    ensures Low(((AF & 1) << 15) | (sum << 8) | (sum & 0x28) | (AF & 0xc4) | (temp & 1)) == Accumulator(3, Low(AF))
  {
  }

  lemma CplIs(AF: word32)
    ensures Low((!AF & !0xff) | (AF & 0xc5) | ((!AF >> 8) & 0x28) | 0x12) == Accumulator(5, Low(AF))
  {
  }

  lemma ScfIs(AF: word32)
    ensures Low((AF & !0x3b) | ((AF >> 8) & 0x28) | 1) == Accumulator(6, Low(AF))
  {
  }

  lemma CcfIs(AF: word32)
    ensures Low((AF & !0x3b) | ((AF >> 8) & 0x28) | ((AF & 1) << 4) | (!AF & 1)) == Accumulator(7, Low(AF))
  {
  }

  /** The adjusted accumulator (with the carry in bit 8) and AF with the new half carry, as DAA computes them. */
  function DaaSteps(AF: word32, acu: word32): (word32, word32) {
    var temp := acu & 15;
    if AF & 2 != 0 then
      var hd := AF & 1 != 0 || acu > 0x99;
      var low := AF & 16 != 0 || temp > 9;
      var AF' := if low && temp > 5 then AF & !16 else AF;
      var acu' := if low then (acu - 6) & 0xff else acu;
      (if hd then acu' - 0x160 else acu', AF')
    else
      var low := AF & 16 != 0 || temp > 9;
      var AF' := if low then (if temp > 9 then AF | 16 else AF & !16) else AF;
      var acu' := if low then acu + 6 else acu;
      (if AF & 1 != 0 || acu' & 0x1f0 > 0x90 then acu' + 0x60 else acu', AF')
  }

  lemma DaaValue(AF: word32, a: bv8, f: bv8)
    requires f == Lo(Low(AF))
    ensures DaaSteps(AF, Wide(a)).0 & 0xff == Wide(DaaByte(a, f))
  {
  }

  lemma DaaCarry(AF: word32, a: bv8, f: bv8)
    requires f == Lo(Low(AF))
    ensures Truth(AF & 1 != 0) | ((DaaSteps(AF, Wide(a)).0 >> 8) & 1) == Wide(DaaC(a, f))
  {
  }

  lemma DaaHalf(AF: word32, a: bv8, f: bv8)
    requires f == Lo(Low(AF))
    ensures DaaSteps(AF, Wide(a)).1 & 0x12 == Wide(DaaHN(a, f))
  {
  }
}
