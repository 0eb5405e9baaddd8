/** The Z80 with proper 8-bit and 16-bit registers: what each instruction does, from its description. */
module Z80Cpu {

  /** 64K of RAM: a byte at each 16-bit address. */
  type Memory = bv16 -> bv8

  datatype Cpu = Cpu(af: bv16, bc: bv16, de: bv16, hl: bv16, ix: bv16, iy: bv16, sp: bv16, pc: bv16,
                     af2: bv16, bc2: bv16, de2: bv16, hl2: bv16, ir: bv16, iff: bv16, mem: Memory)

  datatype Outcome = Ran(cpu: Cpu) | Halted(cpu: Cpu) | NotModelled

  const FLAG_C: bv8 := 1
  const FLAG_N: bv8 := 2
  const FLAG_P: bv8 := 4
  const FLAG_H: bv8 := 16
  const FLAG_Z: bv8 := 64
  const FLAG_S: bv8 := 128

  // ----- Words, bytes, memory -----

  function Hi(w: bv16): bv8 {
    (w >> 8) as bv8
  }

  function Lo(w: bv16): bv8 {
    (w & 0xff) as bv8
  }

  function Word(h: bv8, l: bv8): bv16 {
    ((h as bv16) << 8) | (l as bv16)
  }

  function Wide(v: bv8): bv32 {
    v as bv32
  }

  function Wide16(w: bv16): bv32 {
    w as bv32
  }

  function Get(m: Memory, a: bv16): bv8 {
    m(a)
  }

  function Put(m: Memory, a: bv16, v: bv8): Memory {
    (x: bv16) => if x == a then v else m(x)
  }

  function GetWord(m: Memory, a: bv16): bv16 {
    Word(Get(m, a + 1), Get(m, a))
  }

  function PutWord(m: Memory, a: bv16, w: bv16): Memory {
    Put(Put(m, a, Lo(w)), a + 1, Hi(w))
  }

  /** A displacement byte is signed. */
  function Signed(d: bv8): bv16 {
    if d < 0x80 then d as bv16 else (d as bv16) | 0xff00
  }

  // ----- Flags -----

  function When(b: bool, v: bv8): bv8 {
    if b then v else 0
  }

  /** Set for an even number of one bits. */
  function Parity(v: bv8): bv8 {
    var x := v ^ (v >> 4);
    var y := x ^ (x >> 2);
    var z := y ^ (y >> 1);
    When(z & 1 == 0, FLAG_P)
  }

  /** Sign and the two undocumented bits come from the result. */
  function SignZero(r: bv8): bv8 {
    (r & 0xa8) | When(r == 0, FLAG_Z)
  }

  function AddFlags(a: bv8, b: bv8, c: bv8): bv8 {
    var r := a + b + c;
    SignZero(r)
    | When((a & 15) + (b & 15) + c > 15, FLAG_H)
    | When((a ^ r) & (b ^ r) & 0x80 != 0, FLAG_P)
    | When((a as bv16) + (b as bv16) + (c as bv16) > 0xff, FLAG_C)
  }

  function SubFlags(a: bv8, b: bv8, c: bv8): bv8 {
    var r := a - b - c;
    SignZero(r)
    | When((a & 15) < (b & 15) + c, FLAG_H)
    | When((a ^ b) & (a ^ r) & 0x80 != 0, FLAG_P)
    | FLAG_N
    | When((a as bv16) < (b as bv16) + (c as bv16), FLAG_C)
  }

  /** CP: as for SUB, but the undocumented bits come from the operand. */
  function CompareFlags(a: bv8, b: bv8, c: bv8): bv8 {
    var r := a - b - c;
    (r & 0x80) | When(r == 0, FLAG_Z) | (b & 0x28)
    | When((a ^ b) & (a ^ r) & 0x80 != 0, FLAG_P)
    | When((a & 15) < (b & 15) + c, FLAG_H)
    | FLAG_N
    | When((a as bv16) < (b as bv16) + (c as bv16), FLAG_C)
  }

  function LogicFlags(r: bv8): bv8 {
    SignZero(r) | Parity(r)
  }

  function Carry(f: bv8): bv8 {
    f & FLAG_C
  }

  function AddByte(a: bv8, b: bv8, c: bv8): bv8 {
    a + b + c
  }

  function SubByte(a: bv8, b: bv8, c: bv8): bv8 {
    a - b - c
  }

  function AddA(af: bv16, b: bv8, c: bv8): bv16 {
    Word(AddByte(Hi(af), b, c), AddFlags(Hi(af), b, c))
  }

  function SubA(af: bv16, b: bv8, c: bv8): bv16 {
    Word(SubByte(Hi(af), b, c), SubFlags(Hi(af), b, c))
  }

  function LogicA(r: bv8, h: bv8): bv16 {
    Word(r, LogicFlags(r) | h)
  }

  /** The eight operations on A: ADD, ADC, SUB, SBC, AND, XOR, OR, CP. */
  function Alu(op: bv8, af: bv16, b: bv8): bv16 {
    if op == 0 then AddA(af, b, 0)
    else if op == 1 then AddA(af, b, Carry(Lo(af)))
    else if op == 2 then SubA(af, b, 0)
    else if op == 3 then SubA(af, b, Carry(Lo(af)))
    else if op == 4 then LogicA(Hi(af) & b, FLAG_H)
    else if op == 5 then LogicA(Hi(af) ^ b, 0)
    else if op == 6 then LogicA(Hi(af) | b, 0)
    else Word(Hi(af), CompareFlags(Hi(af), b, 0))
  }

  function IncFlags(f: bv8, r: bv8): bv8 {
    Carry(f) | SignZero(r) | When(r & 15 == 0, FLAG_H) | When(r == 0x80, FLAG_P)
  }

  function DecFlags(f: bv8, r: bv8): bv8 {
    Carry(f) | SignZero(r) | When(r & 15 == 15, FLAG_H) | When(r == 0x7f, FLAG_P) | FLAG_N
  }

  /** The carries into bits 8 to 16 of a 16-bit sum or difference, eight places down. */
  function Carries(x: bv16, y: bv16, sum: bv32): bv32 {
    ((x as bv32) ^ (y as bv32) ^ sum) >> 8
  }

  /** Half carry out of bit 11, carry out of bit 15. */
  function CarryFlags(k: bv32): bv8 {
    ((k & 0x10) | ((k >> 8) & 1)) as bv8
  }

  /** ADD HL,rr */
  function Add16Flags(f: bv8, x: bv16, y: bv16): bv8 {
    (f & 0xc4) | (Hi(x + y) & 0x28) | CarryFlags(Carries(x, y, (x as bv32) + (y as bv32)))
  }

  /** ADC HL,rr and SBC HL,rr: the flags of the 17-bit sum or difference. */
  function Sum16Flags(x: bv16, y: bv16, sum: bv32, n: bv8): bv8 {
    var k, r := Carries(x, y, sum), (sum & 0xffff) as bv16;
    (Hi(r) & 0xa8) | When(r == 0, FLAG_Z) | When((k >> 8) & 1 != (k >> 7) & 1, FLAG_P) | CarryFlags(k) | n
  }

  /** Decimal adjustment: six for a low digit above nine, sixty hexadecimal for a high digit or a carry. */
  function DaaAdjust(a: bv8, f: bv8): bv8 {
    When(f & FLAG_H != 0 || a & 15 > 9, 6) | When(f & FLAG_C != 0 || a > 0x99, 0x60)
  }

  function DaaByte(a: bv8, f: bv8): bv8 {
    if f & FLAG_N != 0 then a - DaaAdjust(a, f) else a + DaaAdjust(a, f)
  }

  /** The half carry and N after DAA. */
  function DaaHN(a: bv8, f: bv8): bv8 {
    (f & FLAG_N)
    | if !(f & FLAG_H != 0 || a & 15 > 9) then f & FLAG_H
      else if f & FLAG_N != 0 then When(f & FLAG_H != 0 && a & 15 <= 5, FLAG_H)
      else When(a & 15 > 9, FLAG_H)
  }

  function DaaC(a: bv8, f: bv8): bv8 {
    When(f & FLAG_C != 0 || a > 0x99, FLAG_C)
  }

  function Daa(af: bv16): bv16 {
    var a, f := Hi(af), Lo(af);
    var r := DaaByte(a, f);
    Word(r, SignZero(r) | Parity(r) | DaaHN(a, f) | DaaC(a, f))
  }

  /** RLCA, RRCA, RLA, RRA, DAA, CPL, SCF, CCF */
  function Accumulator(op: bv8, af: bv16): bv16 {
    var a, f := Hi(af), Lo(af);
    if op == 0 then RotateA(f, (a << 1) | (a >> 7), a >> 7)
    else if op == 1 then RotateA(f, (a >> 1) | (a << 7), a & 1)
    else if op == 2 then RotateA(f, (a << 1) | Carry(f), a >> 7)
    else if op == 3 then RotateA(f, (a >> 1) | (Carry(f) << 7), a & 1)
    else if op == 4 then Daa(af)
    else if op == 5 then Word(!a, (f & 0xc5) | (!a & 0x28) | FLAG_H | FLAG_N)
    else if op == 6 then Word(a, (f & 0xc4) | (a & 0x28) | FLAG_C)
    else Word(a, (f & 0xc4) | (a & 0x28) | (Carry(f) << 4) | (1 - Carry(f)))
  }

  function RotateA(f: bv8, r: bv8, c: bv8): bv16 {
    Word(r, (f & 0xc4) | (r & 0x28) | c)
  }

  // ----- Rotating, shifting and bits -----

  /** RLC, RRC, RL, RR, SLA, SRA, SLL, SRL: the byte, and the bit that goes to the carry. */
  function Shifted(y: bv8, f: bv8, v: bv8): bv8 {
    if y == 0 then (v << 1) | (v >> 7)
    else if y == 1 then (v >> 1) | (v << 7)
    else if y == 2 then (v << 1) | Carry(f)
    else if y == 3 then (v >> 1) | (Carry(f) << 7)
    else if y == 4 then v << 1
    else if y == 5 then (v >> 1) | (v & 0x80)
    else if y == 6 then (v << 1) | 1
    else v >> 1
  }

  predicate ShiftsLeft(y: bv8) {
    y == 0 || y == 2 || y == 4 || y == 6
  }

  function ShiftedOut(y: bv8, v: bv8): bv8 {
    if ShiftsLeft(y) then v >> 7 else v & 1
  }

  function ShiftFlags(r: bv8, k: bv8): bv8 {
    SignZero(r) | Parity(r) | k
  }

  function Mask(y: bv8): bv8 {
    1 << (y & 7)
  }

  /** BIT: a clear bit sets Z and P; the undocumented bits come from a register operand. */
  function BitFlags(y: bv8, z: bv8, f: bv8, v: bv8): bv8 {
    TestFlags(y, f, v & Mask(y) != 0) | FromOperand(z, v)
  }

  function TestFlags(y: bv8, f: bv8, isSet: bool): bv8 {
    Carry(f) | FLAG_H | if isSet then When(y == 7, FLAG_S) else FLAG_Z | FLAG_P
  }

  function FromOperand(z: bv8, v: bv8): bv8 {
    if z != 6 then v & 0x28 else 0
  }

  function Reset(v: bv8, y: bv8): bv8 {
    v & !Mask(y)
  }

  function Set(v: bv8, y: bv8): bv8 {
    v | Mask(y)
  }

  /** The CB page: rotations and shifts, BIT (which stores its operand as it was), RES, SET. */
  function BitPage(c: Cpu, op: bv8): Cpu {
    var y, z, f := Y(op), Z(op), Lo(c.af);
    var v := Reg(c, z);
    if op < 0x40 then
      var r := Shifted(y, f, v);
      SetReg(c.(af := Word(Hi(c.af), ShiftFlags(r, ShiftedOut(y, v)))), z, r)
    else if op < 0x80 then SetReg(c.(af := Word(Hi(c.af), BitFlags(y, z, f, v))), z, v)
    else if op < 0xc0 then SetReg(c, z, Reset(v, y))
    else SetReg(c, z, Set(v, y))
  }

  // ----- Operands -----

  /** B, C, D, E, H, L, (HL), A */
  function Reg(c: Cpu, i: bv8): bv8 {
    if i == 0 then Hi(c.bc) else if i == 1 then Lo(c.bc)
    else if i == 2 then Hi(c.de) else if i == 3 then Lo(c.de)
    else if i == 4 then Hi(c.hl) else if i == 5 then Lo(c.hl)
    else if i == 6 then Get(c.mem, c.hl) else Hi(c.af)
  }

  function SetReg(c: Cpu, i: bv8, v: bv8): Cpu {
    if i == 0 then c.(bc := Word(v, Lo(c.bc))) else if i == 1 then c.(bc := Word(Hi(c.bc), v))
    else if i == 2 then c.(de := Word(v, Lo(c.de))) else if i == 3 then c.(de := Word(Hi(c.de), v))
    else if i == 4 then c.(hl := Word(v, Lo(c.hl))) else if i == 5 then c.(hl := Word(Hi(c.hl), v))
    else if i == 6 then c.(mem := Put(c.mem, c.hl, v)) else c.(af := Word(v, Lo(c.af)))
  }

  /** BC, DE, HL, SP */
  function Pair(c: Cpu, i: bv8): bv16 {
    if i == 0 then c.bc else if i == 1 then c.de else if i == 2 then c.hl else c.sp
  }

  function SetPair(c: Cpu, i: bv8, w: bv16): Cpu {
    if i == 0 then c.(bc := w) else if i == 1 then c.(de := w) else if i == 2 then c.(hl := w) else c.(sp := w)
  }

  /** NZ, Z, NC, C, PO, PE, P, M */
  predicate Condition(af: bv16, i: bv8) {
    var f := Lo(af);
    if i == 0 then f & FLAG_Z == 0 else if i == 1 then f & FLAG_Z != 0
    else if i == 2 then f & FLAG_C == 0 else if i == 3 then f & FLAG_C != 0
    else if i == 4 then f & FLAG_P == 0 else if i == 5 then f & FLAG_P != 0
    else if i == 6 then f & FLAG_S == 0 else f & FLAG_S != 0
  }

  function Push(c: Cpu, w: bv16): Cpu {
    var a := Below(c.sp);
    c.(sp := Below(a), mem := Put(Put(c.mem, a, Hi(w)), Below(a), Lo(w)))
  }

  function Below(w: bv16): bv16 {
    w - 1
  }

  function TwoAbove(w: bv16): bv16 {
    w + 2
  }

  function Skip(c: Cpu, n: bv16): Cpu {
    c.(pc := c.pc + n)
  }

  /** The target of a relative jump with displacement `d` at `pc`. */
  function Target(pc: bv16, d: bv16): bv16 {
    WordAdd(pc, d) + 1
  }

  function WordAdd(x: bv16, y: bv16): bv16 {
    x + y
  }

  function JumpRelative(c: Cpu, taken: bool): Cpu {
    c.(pc := if taken then Target(c.pc, Signed(Get(c.mem, c.pc))) else c.pc + 1)
  }

  function Jump(c: Cpu, taken: bool): Cpu {
    c.(pc := if taken then GetWord(c.mem, c.pc) else c.pc + 2)
  }

  function Call(c: Cpu, taken: bool): Cpu {
    if taken then Push(c, c.pc + 2).(pc := GetWord(c.mem, c.pc)) else Skip(c, 2)
  }

  function Return(c: Cpu, taken: bool): Cpu {
    if taken then c.(pc := GetWord(c.mem, c.sp), sp := TwoAbove(c.sp)) else c
  }

  // ----- Block transfer and search -----

  function Stepped(w: bv16, up: bool): bv16 {
    if up then w + 1 else w - 1
  }

  /** The flags after moving `v`, but for the count. */
  function MovedFlags(a: bv8, f: bv8, v: bv8): bv8 {
    (f & 0xc1) | ((v + a) & 8) | (((v + a) & 2) << 4)
  }

  /** LDI and LDD: moves one byte, steps both pointers, counts down. */
  function MoveStep(c: Cpu, up: bool): Cpu {
    var v, n := Get(c.mem, c.hl), Below(c.bc);
    c.(mem := Put(c.mem, c.de, v), hl := Stepped(c.hl, up), de := Stepped(c.de, up), bc := n,
       af := Word(Hi(c.af), MovedFlags(Hi(c.af), Lo(c.af), v) | When(n != 0, FLAG_P)))
  }

  function HalfBorrow(a: bv8, v: bv8): bool {
    a & 15 < v & 15
  }

  /** The difference less the half borrow: two undocumented flag bits come from it. */
  function Adjusted(a: bv8, v: bv8): bv8 {
    if HalfBorrow(a, v) then a - v - 1 else a - v
  }

  function SearchSign(a: bv8, v: bv8): bv8 {
    (a - v) & 0x80
  }

  function SearchZero(a: bv8, v: bv8): bv8 {
    When(a - v == 0, FLAG_Z)
  }

  function SearchHalf(a: bv8, v: bv8): bv8 {
    When(HalfBorrow(a, v), FLAG_H)
  }

  function SearchThree(a: bv8, v: bv8): bv8 {
    Adjusted(a, v) & 8
  }

  function SearchFive(a: bv8, v: bv8): bv8 {
    (Adjusted(a, v) & 2) << 4
  }

  /** The flags after comparing with `v`; `more` tells whether the count has not run out. */
  function SearchFlags(a: bv8, f: bv8, v: bv8, more: bool): bv8 {
    JoinSearch(Carry(f), SearchSign(a, v), SearchZero(a, v), SearchHalf(a, v), SearchThree(a, v), SearchFive(a, v),
               When(more, FLAG_P))
  }

  function JoinSearch(k: bv8, s: bv8, z: bv8, h: bv8, x3: bv8, x5: bv8, p: bv8): bv8 {
    k | s | z | h | x3 | x5 | FLAG_N | p
  }

  /** CPI and CPD: compares one byte with A, steps the pointer, counts down. */
  function SearchStep(c: Cpu, up: bool): Cpu {
    var v, n := Get(c.mem, c.hl), Below(c.bc);
    c.(hl := Stepped(c.hl, up), bc := n, af := Word(Hi(c.af), SearchFlags(Hi(c.af), Lo(c.af), v, n != 0)))
  }

  /** A count of 0 stands for 65536. */
  function Count(bc: bv16): bv32 {
    if bc == 0 then 0x10000 else bc as bv32
  }

  /** The single instruction, `n` times. */
  function MoveTimes(c: Cpu, up: bool, n: bv32): Cpu
    decreases n
  {
    if n == 0 then c else MoveTimes(MoveStep(c, up), up, n - 1)
  }

  /** The single instruction, until it finds the byte or the count is used up. */
  function SearchUntil(c: Cpu, up: bool): Cpu
    decreases Count(c.bc)
  {
    var c' := SearchStep(c, up);
    if c'.bc == 0 || Get(c.mem, c.hl) == Hi(c.af) then c' else SearchUntil(c', up)
  }

  /** LDI, CPI, LDD, CPD, LDIR, CPIR, LDDR, CPDR */
  predicate IsBlockOp(op: bv8) {
    op & 0xe6 == 0xa0
  }

  function BlockPage(c: Cpu, op: bv8): Cpu {
    var up := op & 8 == 0;
    if op & 0x11 == 0 then MoveStep(c, up)
    else if op & 0x11 == 1 then SearchStep(c, up)
    else if op & 0x11 == 0x10 then MoveTimes(c, up, Count(c.bc))
    else SearchUntil(c, up)
  }

  // ----- The rest of the ED page -----

  /** IN r,(C), OUT (C),r, and the block instructions on ports. */
  predicate IsPortOp(op: bv8) {
    (0x40 <= op < 0x80 && Z(op) <= 1) || op & 0xe6 == 0xa2
  }

  /** LD A,I and LD A,R: P shows the second interrupt flip-flop. */
  function LoadAFrom(c: Cpu, v: bv8): Cpu {
    c.(af := Word(v, FlagsFrom(Lo(c.af), v, c.iff)))
  }

  function FlagsFrom(f: bv8, v: bv8, iff: bv16): bv8 {
    (f & 0x29) | (v & 0x80) | When(v == 0, FLAG_Z) | When(iff & 2 != 0, FLAG_P)
  }

  /** The first interrupt flip-flop becomes what the second one has kept. */
  function Restored(iff: bv16): bv16 {
    iff | (iff >> 1)
  }

  /** RRD and RLD: four bits of A and the two halves of the byte at HL change places; `a` and `v` are the new values. */
  function RotateDigits(c: Cpu, a: bv8, v: bv8): Cpu {
    c.(mem := Put(c.mem, c.hl, v), af := Word(a, SignZero(a) | Parity(a) | Carry(Lo(c.af))))
  }

  function HighDigit(v: bv8): bv8 {
    v & 0xf0
  }

  function LowDigit(v: bv8): bv8 {
    v & 0x0f
  }

  function Upward(v: bv8): bv8 {
    v << 4
  }

  function Downward(v: bv8): bv8 {
    v >> 4
  }

  function BothDigits(h: bv8, l: bv8): bv8 {
    h | l
  }

  /** NEG, RETN and RETI, IM, LD I,A, LD R,A, LD A,I, LD A,R, RRD, RLD. */
  function SystemPage(c: Cpu, op: bv8): Cpu {
    var a, v := Hi(c.af), Get(c.mem, c.hl);
    if op == 0x44 then c.(af := SubA(Word(0, Lo(c.af)), a, 0))
    else if op == 0x45 || op == 0x4d then Return(c, true).(iff := Restored(c.iff))
    else if op == 0x47 then c.(ir := Word(a, Lo(c.ir)))
    else if op == 0x4f then c.(ir := Word(Hi(c.ir), a))
    else if op == 0x57 then LoadAFrom(c, Hi(c.ir))
    else if op == 0x5f then LoadAFrom(c, Lo(c.ir))
    else if op == 0x67 then
      RotateDigits(c, BothDigits(HighDigit(a), LowDigit(v)), BothDigits(Downward(v), Upward(LowDigit(a))))
    else if op == 0x6f then
      RotateDigits(c, BothDigits(HighDigit(a), Downward(v)), BothDigits(Upward(LowDigit(v)), LowDigit(a)))
    else if op == 0x46 || op == 0x56 || op == 0x5e || !(0x40 <= op < 0x80) then c
    else c.(pc := Below(c.pc))
  }

  // ----- Decoding: xx yyy zzz, with yyy = pp q -----

  function Y(op: bv8): bv8 {
    (op >> 3) & 7
  }

  function Z(op: bv8): bv8 {
    op & 7
  }

  function P(op: bv8): bv8 {
    (op >> 4) & 3
  }

  /** Opcodes 00 to 3F. */
  function LowPage(c: Cpu, op: bv8): Cpu {
    var z := Z(op);
    if z == 0 then Relative(c, Y(op))
    else if z == 1 then
      if op & 8 == 0 then SetPair(Skip(c, 2), P(op), GetWord(c.mem, c.pc))
      else c.(hl := WordAdd(c.hl, Pair(c, P(op))), af := Word(Hi(c.af), Add16Flags(Lo(c.af), c.hl, Pair(c, P(op)))))
    else if z == 2 then Indirect(c, Y(op))
    else if z == 3 then SetPair(c, P(op), Stepped(Pair(c, P(op)), op & 8 == 0))
    else if z == 4 then IncReg(c, Y(op))
    else if z == 5 then DecReg(c, Y(op))
    else if z == 6 then SetReg(Skip(c, 1), Y(op), Get(c.mem, c.pc))
    else c.(af := Accumulator(Y(op), c.af))
  }

  function Succ(v: bv8): bv8 {
    v + 1
  }

  function Pred(v: bv8): bv8 {
    v - 1
  }

  function IncReg(c: Cpu, y: bv8): Cpu {
    var r := Succ(Reg(c, y));
    var c' := SetReg(c, y, r);
    c'.(af := Word(Hi(c'.af), IncFlags(Lo(c.af), r)))
  }

  function DecReg(c: Cpu, y: bv8): Cpu {
    var r := Pred(Reg(c, y));
    var c' := SetReg(c, y, r);
    c'.(af := Word(Hi(c'.af), DecFlags(Lo(c.af), r)))
  }

  /** NOP, EX AF,AF', DJNZ, JR, and JR NZ, Z, NC, C */
  function Relative(c: Cpu, y: bv8): Cpu {
    if y == 0 then c
    else if y == 1 then c.(af := c.af2, af2 := c.af)
    else if y == 2 then
      var b := Hi(c.bc) - 1;
      JumpRelative(c.(bc := Word(b, Lo(c.bc))), b != 0)
    else JumpRelative(c, y == 3 || Condition(c.af, y - 4))
  }

  /** LD (BC),A; LD A,(BC); LD (DE),A; LD A,(DE); LD (nn),HL; LD HL,(nn); LD (nn),A; LD A,(nn) */
  function Indirect(c: Cpu, y: bv8): Cpu {
    var a, nn := Hi(c.af), GetWord(c.mem, c.pc);
    if y == 0 then c.(mem := Put(c.mem, c.bc, a))
    else if y == 1 then SetReg(c, 7, Get(c.mem, c.bc))
    else if y == 2 then c.(mem := Put(c.mem, c.de, a))
    else if y == 3 then SetReg(c, 7, Get(c.mem, c.de))
    else if y == 4 then Skip(c, 2).(mem := PutWord(c.mem, nn, c.hl))
    else if y == 5 then Skip(c, 2).(hl := GetWord(c.mem, nn))
    else if y == 6 then Skip(c, 2).(mem := Put(c.mem, nn, a))
    else SetReg(Skip(c, 2), 7, Get(c.mem, nn))
  }

  /** ADC HL,rr and SBC HL,rr; LD (nn),rr and LD rr,(nn). */
  predicate IsWordOp(op: bv8) {
    0x40 <= op < 0x80 && (Z(op) == 2 || Z(op) == 3)
  }

  function SumHL(c: Cpu, p: bv8, up: bool): Cpu {
    var k := Carry(Lo(c.af));
    var x, y := Wide16(c.hl), Wide16(Pair(c, p));
    var sum := if up then Sum17(x, y, Wide(k)) else Diff17(x, y, Wide(k));
    c.(hl := Low16(sum), af := Word(Hi(c.af), Sum16Flags(c.hl, Pair(c, p), sum, if up then 0 else FLAG_N)))
  }

  function Sum17(x: bv32, y: bv32, k: bv32): bv32 {
    x + y + k
  }

  function Diff17(x: bv32, y: bv32, k: bv32): bv32 {
    x - y - k
  }

  function Low16(x: bv32): bv16 {
    (x & 0xffff) as bv16
  }

  function WordPage(c: Cpu, op: bv8): Cpu {
    var nn := GetWord(c.mem, c.pc);
    if Z(op) == 2 then SumHL(c, P(op), op & 8 != 0)
    else if op & 8 == 0 then Skip(c, 2).(mem := PutWord(c.mem, nn, Pair(c, P(op))))
    else SetPair(Skip(c, 2), P(op), GetWord(c.mem, nn))
  }

  /** Opcodes C0 to FF. */
  function HighPage(c: Cpu, op: bv8): Outcome {
    var y, z := Y(op), Z(op);
    if z == 0 then Ran(Return(c, Condition(c.af, y)))
    else if z == 1 then
      if op & 8 == 0 then PopPair(c, P(op)) else Special(c, P(op))
    else if z == 2 then Ran(Jump(c, Condition(c.af, y)))
    else if z == 3 then Miscellaneous(c, y)
    else if z == 4 then Ran(Call(c, Condition(c.af, y)))
    else if z == 5 then
      if op & 8 == 0 then Ran(Push(c, if P(op) == 3 then c.af else Pair(c, P(op))))
      else if op == 0xcd then Ran(Call(c, true))
      else if op == 0xed then ExtendedPage(Skip(c, 1), Get(c.mem, c.pc))
      else Ran(IndexPrefix(c, op == 0xfd))
    else if z == 6 then Ran(Skip(c, 1).(af := Alu(y, c.af, Get(c.mem, c.pc))))
    else Ran(Push(c, c.pc).(pc := (y << 3) as bv16))
  }

  /** The ED page: 16-bit sums and loads, block transfer and search, and the rest. */
  function ExtendedPage(c: Cpu, op: bv8): Outcome {
    if IsWordOp(op) then Ran(WordPage(c, op))
    else if IsBlockOp(op) then Ran(BlockPage(c, op))
    else if IsPortOp(op) then NotModelled
    else Ran(SystemPage(c, op))
  }

  // ----- The DD and FD prefixes -----

  function Index(c: Cpu, iy: bool): bv16 {
    if iy then c.iy else c.ix
  }

  /** HL and the index register have changed places. */
  function Swap(c: Cpu, iy: bool): Cpu {
    if iy then c.(hl := c.iy, iy := c.hl) else c.(hl := c.ix, ix := c.hl)
  }

  /** H or L, in an instruction that has no memory operand. */
  predicate UsesHalf(i: bv8) {
    i == 4 || i == 5
  }

  /** The instructions in which the index register stands in for HL. */
  predicate IsIndexOp(op: bv8) {
    if op < 0x40 then op & 0xcf == 0x09 || 0x21 <= op <= 0x26 || 0x2a <= op <= 0x2e
    else if op < 0x80 then Y(op) != 6 && Z(op) != 6 && (UsesHalf(Y(op)) || UsesHalf(Z(op)))
    else if op < 0xc0 then UsesHalf(Z(op))
    else op == 0xe1 || op == 0xe3 || op == 0xe5 || op == 0xe9 || op == 0xf9
  }

  /** What such an instruction does to HL. */
  function IndexOp(c: Cpu, op: bv8): Cpu {
    if op < 0x40 then LowPage(c, op)
    else if op < 0x80 then SetReg(c, Y(op), Reg(c, Z(op)))
    else if op < 0xc0 then c.(af := Alu(Y(op), c.af, Reg(c, Z(op))))
    else if op == 0xe1 then c.(hl := GetWord(c.mem, c.sp), sp := TwoAbove(c.sp))
    else if op == 0xe3 then Push(c.(sp := TwoAbove(c.sp), hl := GetWord(c.mem, c.sp)), c.hl)
    else if op == 0xe5 then Push(c, c.hl)
    else if op == 0xe9 then c.(pc := c.hl)
    else c.(sp := c.hl)
  }

  /** The instructions with the memory operand (IX+d) or (IY+d). */
  predicate IsIndexedOp(op: bv8) {
    if op < 0x40 then 0x34 <= op <= 0x36
    else if op < 0x80 then op != 0x76 && (Y(op) == 6 || Z(op) == 6)
    else op < 0xc0 && Z(op) == 6
  }

  /** What such an instruction does, behind its displacement byte, with the byte at address `a`. */
  function IndexedOp(c: Cpu, op: bv8, a: bv16): Cpu {
    if op == 0x34 then IncReg(c.(hl := a), 6).(hl := c.hl)
    else if op == 0x35 then DecReg(c.(hl := a), 6).(hl := c.hl)
    else if op == 0x36 then Skip(c, 1).(mem := Put(c.mem, a, Get(c.mem, c.pc)))
    else if op >= 0x80 then c.(af := Alu(Y(op), c.af, Get(c.mem, a)))
    else if Y(op) == 6 then c.(mem := Put(c.mem, a, Reg(c, Z(op))))
    else SetReg(c, Y(op), Get(c.mem, a))
  }

  /** DD CB and FD CB: the memory operand is at `a`; the other operands are the registers, as on the CB page. */
  function IndexedBits(c: Cpu, op: bv8, a: bv16): Cpu {
    if Z(op) == 6 then BitPage(c.(hl := a), op).(hl := c.hl) else BitPage(c, op)
  }

  /** Behind a DD or FD prefix; before any other opcode the prefix is ignored. */
  function IndexPrefix(c: Cpu, iy: bool): Cpu {
    var op, c1 := Get(c.mem, c.pc), Skip(c, 1);
    var a := WordAdd(Index(c, iy), Signed(Get(c.mem, c1.pc)));
    if IsIndexOp(op) then Swap(IndexOp(Swap(c1, iy), op), iy)
    else if IsIndexedOp(op) then IndexedOp(Skip(c1, 1), op, a)
    else if op == 0xcb then var c2 := Skip(c1, 1); IndexedBits(Skip(c2, 1), Get(c.mem, c2.pc), a)
    else c
  }

  function PopPair(c: Cpu, p: bv8): Outcome {
    var w, c' := GetWord(c.mem, c.sp), c.(sp := TwoAbove(c.sp));
    Ran(if p == 3 then c'.(af := w) else SetPair(c', p, w))
  }

  /** RET, EXX, JP (HL), LD SP,HL */
  function Special(c: Cpu, p: bv8): Outcome {
    if p == 0 then Ran(Return(c, true))
    else if p == 1 then Ran(c.(bc := c.bc2, de := c.de2, hl := c.hl2, bc2 := c.bc, de2 := c.de, hl2 := c.hl))
    else if p == 2 then Ran(c.(pc := c.hl))
    else Ran(c.(sp := c.hl))
  }

  /** JP nn, the CB prefix, EX (SP),HL, EX DE,HL, DI, EI; not the ports. */
  function Miscellaneous(c: Cpu, y: bv8): Outcome {
    if y == 0 then Ran(Jump(c, true))
    else if y == 1 then Ran(BitPage(Skip(c, 1), Get(c.mem, c.pc)))
    else if y == 4 then Ran(Push(c.(sp := TwoAbove(c.sp), hl := GetWord(c.mem, c.sp)), c.hl))
    else if y == 5 then Ran(c.(de := c.hl, hl := c.de))
    else if y == 6 then Ran(c.(iff := 0))
    else if y == 7 then Ran(c.(iff := 3))
    else NotModelled
  }

  /** One instruction, behind its first opcode byte. */
  function Execute(c: Cpu, op: bv8): Outcome {
    if op < 0x40 then Ran(LowPage(c, op))
    else if op == 0x76 then Halted(c)
    else if op < 0x80 then Ran(SetReg(c, Y(op), Reg(c, Z(op))))
    else if op < 0xc0 then Ran(c.(af := Alu(Y(op), c.af, Reg(c, Z(op)))))
    else HighPage(c, op)
  }

  // ----- Runs -----

  /** One instruction. */
  function StepOf(c: Cpu): Outcome {
    Execute(Skip(c, 1), Get(c.mem, c.pc))
  }

  /** At most `n` instructions. */
  function RunOf(c: Cpu, n: nat): Outcome
    decreases n
  {
    if n == 0 then Ran(c)
    else
      var o := StepOf(c);
      if o.Ran? then RunOf(o.cpu, n - 1) else o
  }
}
