/** Laws of NEG, the digit rotations, I and R, and the interrupt returns, with opcodes and flag bits written out. */
module Z80SystemLaws {
  import opened Z80Cpu
  import opened Z80Laws
  import opened Z80DataLaws
  import opened Z80WordLaws

  lemma SystemOpcodes(c: Cpu, op: bv8)
    requires op in {0x44, 0x45, 0x4d, 0x46, 0x56, 0x5e, 0x47, 0x4f, 0x57, 0x5f, 0x67, 0x6f}
    ensures ExtendedPage(c, op) == Ran(SystemPage(c, op))
  {
    hide SystemPage, WordPage, BlockPage;
  }

  lemma SystemFetched(c: Cpu, op: bv8)
    requires c.mem(c.pc) == 0xed && c.mem(Plus1(c.pc)) == op
    requires op in {0x44, 0x45, 0x4d, 0x46, 0x56, 0x5e, 0x47, 0x4f, 0x57, 0x5f, 0x67, 0x6f}
    ensures StepOf(c) == Ran(SystemPage(c.(pc := Plus2(c.pc)), op))
  {
    hide StepOf, ExtendedPage, SystemPage, Plus1, Plus2;
    ExtendedFetched(c);
    SystemOpcodes(c.(pc := Plus2(c.pc)), op);
  }

  // ----- NEG -----

  lemma NegOpcode(c: Cpu)
    ensures SystemPage(c, 0x44) == c.(af := Alu(2, Word(0, Lo(c.af)), Hi(c.af)))
  {
    hide Word, Hi, Lo, SubA, Get;
    assert Alu(2, Word(0, Lo(c.af)), Hi(c.af)) == SubA(Word(0, Lo(c.af)), Hi(c.af), 0);
  }

  /** NEG is the subtraction of A from 0. */
  lemma NegLaw(c: Cpu)
    requires c.mem(c.pc) == 0xed && c.mem(Plus1(c.pc)) == 0x44
    ensures StepOf(c).Ran? && StepOf(c).cpu.(af := c.af) == c.(pc := Plus2(c.pc))
    ensures AluDone(2, Joined(0, BottomByte(c.af)), TopByte(c.af), StepOf(c).cpu.af)
  {
    hide StepOf, SystemPage, Alu, AluDone, Word, Hi, Lo, TopByte, BottomByte, Joined, Plus1, Plus2;
    SystemFetched(c, 0x44);
    NegOpcode(c.(pc := Plus2(c.pc)));
    AllHalves();
    AluLaw(2, Joined(0, BottomByte(c.af)), TopByte(c.af));
  }

  // ----- RRD, RLD -----

  /** The flags of A after a digit rotation: sign, zero and parity of A, and the old carry. */
  predicate DigitFlags(a: bv8, old_: bv8, f: bv8) {
    && (f & 0x80 != 0 <==> a & 0x80 != 0) && (f & 0x40 != 0 <==> a == 0) && (f & 0x04 != 0 <==> EvenOnes(a))
    && f & 0x12 == 0 && f & 0x01 == old_ & 0x01 && f & 0x28 == a & 0x28
  }

  lemma DigitFlagsAre(a: bv8, f: bv8)
    ensures DigitFlags(a, f, SignZero(a) | Parity(a) | Carry(f))
  {
  }

  function KeepHigh(a: bv8, l: bv8): bv8 {
    (a & 0xf0) | (l & 0x0f)
  }

  function Right(v: bv8, a: bv8): bv8 {
    (v >> 4) | (a << 4)
  }

  function Left(v: bv8, a: bv8): bv8 {
    (v << 4) | (a & 0x0f)
  }

  lemma DigitValues(a: bv8, v: bv8)
    ensures BothDigits(HighDigit(a), LowDigit(v)) == KeepHigh(a, v)
    ensures BothDigits(Downward(v), Upward(LowDigit(a))) == Right(v, a)
    ensures BothDigits(HighDigit(a), Downward(v)) == KeepHigh(a, v >> 4)
    ensures BothDigits(Upward(LowDigit(v)), LowDigit(a)) == Left(v, a)
  {
  }

  lemma DigitOpcodes(c: Cpu)
    ensures var a, v := Hi(c.af), Get(c.mem, c.hl);
            && SystemPage(c, 0x67) == RotateDigits(c, BothDigits(HighDigit(a), LowDigit(v)),
                                                   BothDigits(Downward(v), Upward(LowDigit(a))))
            && SystemPage(c, 0x6f) == RotateDigits(c, BothDigits(HighDigit(a), Downward(v)),
                                                   BothDigits(Upward(LowDigit(v)), LowDigit(a)))
  {
    hide RotateDigits, BothDigits, HighDigit, LowDigit, Upward, Downward, Hi, Get;
  }

  /** A and the byte at HL have these values, and the flags tell about A. */
  ghost predicate DigitsRotated(c: Cpu, c': Cpu, a: bv8, v: bv8) {
    && TopByte(c'.af) == a && DigitFlags(a, BottomByte(c.af), BottomByte(c'.af)) && Written(c, c'.(af := c.af), c.hl, v)
  }

  lemma RotateDigitsIs(c: Cpu, a: bv8, v: bv8)
    ensures DigitsRotated(c, RotateDigits(c, a, v), a, v)
  {
    hide Word, Lo, TopByte, BottomByte, SignZero, Parity, Carry, DigitFlags, Put, Written;
    Halves(c.af, 0, 0);
    DigitFlagsAre(a, Lo(c.af));
    Parts(a, SignZero(a) | Parity(a) | Carry(Lo(c.af)));
    PutWrites(c, c.hl, v);
  }

  /** RRD and RLD: the three digits move one place to the right, or to the left. */
  lemma DigitLaw(c: Cpu)
    requires c.mem(c.pc) == 0xed
    ensures var a, v, next := TopByte(c.af), c.mem(c.hl), c.(pc := Plus2(c.pc));
            && (c.mem(Plus1(c.pc)) == 0x67 ==>
                StepOf(c).Ran? && DigitsRotated(next, StepOf(c).cpu, KeepHigh(a, v), Right(v, a)))
            && (c.mem(Plus1(c.pc)) == 0x6f ==>
                StepOf(c).Ran? && DigitsRotated(next, StepOf(c).cpu, KeepHigh(a, v >> 4), Left(v, a)))
  {
    hide StepOf, SystemPage, RotateDigits, DigitsRotated, KeepHigh, Right, Left, Hi, TopByte, Plus1, Plus2,
         BothDigits, HighDigit, LowDigit,
         Upward, Downward;
    var a, v, next := TopByte(c.af), c.mem(c.hl), c.(pc := Plus2(c.pc));
    Halves(c.af, 0, 0);
    DigitOpcodes(next);
    DigitValues(a, v);
    if c.mem(Plus1(c.pc)) == 0x67 {
      SystemFetched(c, 0x67);
      RotateDigitsIs(next, KeepHigh(a, v), Right(v, a));
    }
    if c.mem(Plus1(c.pc)) == 0x6f {
      SystemFetched(c, 0x6f);
      RotateDigitsIs(next, KeepHigh(a, v >> 4), Left(v, a));
    }
  }

  /** RLD undoes RRD. */
  lemma DigitsBack(a: bv8, v: bv8)
    ensures KeepHigh(KeepHigh(a, v), Right(v, a) >> 4) == a && Left(Right(v, a), KeepHigh(a, v)) == v
  {
  }

  // ----- I, R, interrupt returns -----

  lemma RegisterOpcodes(c: Cpu)
    ensures SystemPage(c, 0x47) == c.(ir := Word(Hi(c.af), Lo(c.ir)))
            && SystemPage(c, 0x4f) == c.(ir := Word(Hi(c.ir), Hi(c.af)))
    ensures SystemPage(c, 0x57) == LoadAFrom(c, Hi(c.ir)) && SystemPage(c, 0x5f) == LoadAFrom(c, Lo(c.ir))
    ensures SystemPage(c, 0x46) == c && SystemPage(c, 0x56) == c && SystemPage(c, 0x5e) == c
  {
    hide LoadAFrom, Word, Hi, Lo, Get;
  }

  lemma ReturnOpcodes(c: Cpu)
    ensures SystemPage(c, 0x45) == Return(c, true).(iff := Restored(c.iff))
            && SystemPage(c, 0x4d) == Return(c, true).(iff := Restored(c.iff))
  {
    hide Return, Restored, Hi, Get;
  }

  /** The flags after LD A,I and LD A,R: P shows the second interrupt flip-flop. */
  predicate FromFlags(v: bv8, old_: bv8, iff: bv16, f: bv8) {
    && (f & 0x80 != 0 <==> v & 0x80 != 0) && (f & 0x40 != 0 <==> v == 0) && (f & 0x04 != 0 <==> iff & 2 != 0)
    && f & 0x12 == 0 && f & 0x29 == old_ & 0x29
  }

  lemma FromFlagsAre(v: bv8, f: bv8, iff: bv16)
    ensures FromFlags(v, f, iff, FlagsFrom(f, v, iff))
  {
  }

  ghost predicate LoadedA(c: Cpu, c': Cpu, v: bv8) {
    TopByte(c'.af) == v && FromFlags(v, BottomByte(c.af), c.iff, BottomByte(c'.af)) && c'.(af := c.af) == c
  }

  lemma LoadAFromIs(c: Cpu, v: bv8)
    ensures LoadedA(c, LoadAFrom(c, v), v)
  {
    hide Word, Lo, TopByte, BottomByte, FlagsFrom, FromFlags;
    Halves(c.af, 0, 0);
    FromFlagsAre(v, Lo(c.af), c.iff);
    Parts(v, FlagsFrom(Lo(c.af), v, c.iff));
  }

  /** LD I,A; LD R,A; LD A,I; LD A,R; IM. */
  lemma RegisterLaw(c: Cpu, op: bv8)
    requires c.mem(c.pc) == 0xed && op == c.mem(Plus1(c.pc)) && op in {0x46, 0x56, 0x5e, 0x47, 0x4f, 0x57, 0x5f}
    ensures var next := c.(pc := Plus2(c.pc));
            && StepOf(c).Ran?
            && (op == 0x47 ==> StepOf(c).cpu == next.(ir := Joined(TopByte(c.af), BottomByte(c.ir))))
            && (op == 0x4f ==> StepOf(c).cpu == next.(ir := Joined(TopByte(c.ir), TopByte(c.af))))
            && (op == 0x57 ==> LoadedA(next, StepOf(c).cpu, TopByte(c.ir)))
            && (op == 0x5f ==> LoadedA(next, StepOf(c).cpu, BottomByte(c.ir)))
            && (op in {0x46, 0x56, 0x5e} ==> StepOf(c).cpu == next)
  {
    hide StepOf, SystemPage, LoadAFrom, LoadedA, Word, Hi, Lo, TopByte, BottomByte, Joined, Plus1, Plus2;
    var next := c.(pc := Plus2(c.pc));
    SystemFetched(c, op);
    RegisterOpcodes(next);
    AllHalves();
    LoadAFromIs(next, TopByte(c.ir));
    LoadAFromIs(next, BottomByte(c.ir));
  }

  predicate FirstFlop(iff: bv16) {
    iff & 1 != 0
  }

  predicate EitherFlop(iff: bv16) {
    iff & 3 != 0
  }

  lemma RestoredIs(iff: bv16)
    ensures FirstFlop(Restored(iff)) <==> EitherFlop(iff)
  {
  }

  /** RETN and RETI: a return, and interrupts are on afterwards if either flip-flop was set. */
  lemma InterruptReturnLaw(c: Cpu, op: bv8)
    requires c.mem(c.pc) == 0xed && op == c.mem(Plus1(c.pc)) && (op == 0x45 || op == 0x4d)
    ensures StepOf(c).Ran?
    ensures var c' := StepOf(c).cpu;
            c'.(iff := c.iff) == c.(pc := Top(c), sp := Plus2(c.sp)) && (FirstFlop(c'.iff) <==> EitherFlop(c.iff))
  {
    hide StepOf, SystemPage, Restored, FirstFlop, EitherFlop, Top, TwoAbove, GetWord, Plus1, Plus2;
    SystemFetched(c, op);
    ReturnOpcodes(c.(pc := Plus2(c.pc)));
    TopIs(c);
    TwoAboveIs(c.sp);
    RestoredIs(c.iff);
  }

  /** The opcodes behind ED that mean nothing. */
  predicate Undefined(op: bv8) {
    op in {0x4c, 0x4e, 0x54, 0x55, 0x5c, 0x5d, 0x64, 0x65, 0x66, 0x6c, 0x6d, 0x6e, 0x74, 0x75, 0x76, 0x77, 0x7c, 0x7d,
           0x7e, 0x7f}
  }

  lemma UndefinedKind(op: bv8)
    ensures Undefined(op) ==> 0x40 <= op < 0x80 && !IsWordOp(op) && !IsBlockOp(op) && !IsPortOp(op)
    ensures Undefined(op) ==> op !in {0x44, 0x45, 0x46, 0x47, 0x4d, 0x4f, 0x56, 0x57, 0x5e, 0x5f, 0x67, 0x6f}
  {
  }

  lemma OutsideKind(op: bv8)
    requires op < 0x40 || op >= 0xc0
    ensures !IsWordOp(op) && !IsBlockOp(op) && !IsPortOp(op)
  {
  }

  lemma UndefinedOpcodes(c: Cpu, op: bv8)
    ensures Undefined(op) ==> ExtendedPage(c, op) == Ran(c.(pc := Below(c.pc)))
    ensures op < 0x40 || op >= 0xc0 ==> ExtendedPage(c, op) == Ran(c)
  {
    hide WordPage, BlockPage, Below, Undefined, IsWordOp, IsBlockOp, IsPortOp, Hi, Lo, Get;
    UndefinedKind(op);
    if op < 0x40 || op >= 0xc0 {
      OutsideKind(op);
    }
  }

  lemma OneBack(w: bv16)
    ensures Below(Plus2(w)) == Plus1(w)
  {
  }

  /**
   * Of the others those from 40 to 7F are run again without the ED in front, and those outside the pages are skipped.
   */
  lemma UndefinedLaw(c: Cpu)
    requires c.mem(c.pc) == 0xed
    ensures var op := c.mem(Plus1(c.pc));
            && (Undefined(op) ==> StepOf(c) == Ran(c.(pc := Plus1(c.pc))))
            && (op < 0x40 || op >= 0xc0 ==> StepOf(c) == Ran(c.(pc := Plus2(c.pc))))
  {
    hide StepOf, ExtendedPage, Undefined, Below, Plus1, Plus2;
    ExtendedFetched(c);
    UndefinedOpcodes(c.(pc := Plus2(c.pc)), c.mem(Plus1(c.pc)));
    OneBack(c.pc);
  }
}
