/** The step loop: any run of the simulator stands for a run of the Z80. */
module Z80Run {
  import opened Z80Cpu
  import opened Z80Flags
  import opened Z80
  import opened Z80Step
  import opened Z80Low
  import opened Z80Bits
  import opened Z80High
  import opened Z80System
  import opened Z80Index
  import opened Z80Block

  datatype HostOutcome = HostRan(s: Host) | HostHalted(s: Host) | HostNotModelled

  function OutcomeOf(o: HostOutcome): Outcome {
    match o
    case HostRan(s) => Ran(State(s))
    case HostHalted(s) => Halted(State(s))
    case HostNotModelled => NotModelled
  }

  // ----- Opcodes C0 to FF -----

  /** JP nn, the CB prefix, EX (SP),HL, EX DE,HL, DI, EI */
  function HostMiscellaneous(s: Host, y: bv8): HostOutcome {
    if y == 0 then HostRan(HostJump(s, true))
    else if y == 1 then HostRan(HostBitPage(SkipByte(s), Opcode(s)))
    else if y == 4 then HostRan(ExchangeTop(s))
    else if y == 5 then HostRan(s.(HL := s.DE, DE := s.HL))
    else if y == 6 then HostRan(s.(iff := 0))
    else if y == 7 then HostRan(s.(iff := 3))
    else HostNotModelled
  }

  lemma HostMiscellaneousIs(s: Host, y: bv8)
    ensures OutcomeOf(HostMiscellaneous(s, y)) == Miscellaneous(State(s), y)
  {
    hide *;
    if y == 0 {
      JumpCase(s);
    } else if y == 1 {
      BitCase(s);
    } else {
      OtherCases(s, y);
    }
  }

  lemma JumpCase(s: Host)
    ensures OutcomeOf(HostMiscellaneous(s, 0)) == Miscellaneous(State(s), 0)
  {
    hide Low, State, HostJump, Jump;
    HostJumpIs(s, true);
  }

  lemma BitCase(s: Host)
    ensures OutcomeOf(HostMiscellaneous(s, 1)) == Miscellaneous(State(s), 1)
  {
    hide Low, State, HostBitPage, BitPage, SkipByte, Skip, Opcode, Get;
    HostBitPageIs(SkipByte(s), Opcode(s));
    SkipByteIs(s);
    OpcodeIs(s);
  }

  lemma OtherCases(s: Host, y: bv8)
    requires y != 0 && y != 1
    ensures OutcomeOf(HostMiscellaneous(s, y)) == Miscellaneous(State(s), y)
  {
    hide Low, HostJump, Jump, HostBitPage, BitPage, SkipByte, Skip, ExchangeTop, Push, GetWord, TwoAbove;
    ExchangeTopIs(s);
  }

  function HostPushPair(s: Host, p: bv8): Host {
    HostPush(s, if p == 3 then s.AF else HostPair(s, p))
  }

  lemma HostPushPairIs(s: Host, p: bv8)
    ensures State(HostPushPair(s, p)) == Push(State(s), if p == 3 then State(s).af else Pair(State(s), p))
  {
    hide Low, HostPush, Push, HostPair, Pair;
    PairIs(s, p);
    HostPushIs(s, if p == 3 then s.AF else HostPair(s, p));
  }

  function HostAluByte(s: Host, y: bv8): Host {
    HostAlu(SkipByte(s), y, GetBYTE(s, s.PC))
  }

  lemma HostAluByteIs(s: Host, y: bv8)
    requires y < 8
    ensures var c := State(s);
            State(HostAluByte(s, y)) == Skip(c, 1).(af := Alu(y, c.af, Get(c.mem, c.pc)))
  {
    hide Low, Wide, HostAlu, Alu, Get, SkipByte;
    SkipByteIs(s);
    HostAluIs(SkipByte(s), y, Get(s.ram, Low(s.PC)));
  }

  /** Opcodes C0 to FF but for the ED prefix. */
  function HostHighPage(s: Host, op: bv8): HostOutcome {
    var y, z := Y(op), Z(op);
    if z == 0 then HostRan(HostReturn(s, Test(s.AF, y)))
    else if z == 1 then HostRan(if op & 8 == 0 then HostPop(s, P(op)) else HostSpecial(s, P(op)))
    else if z == 2 then HostRan(HostJump(s, Test(s.AF, y)))
    else if z == 3 then HostMiscellaneous(s, y)
    else if z == 4 then HostRan(HostCall(s, Test(s.AF, y)))
    else if z == 5 then
      if op & 8 == 0 then HostRan(HostPushPair(s, P(op)))
      else if op == 0xcd then HostRan(HostCall(s, true))
      else HostRan(HostIndexPrefix(s, op == 0xfd))
    else if z == 6 then HostRan(HostAluByte(s, y))
    else HostRan(HostRestart(s, y))
  }

  lemma ConditionIs(s: Host, y: bv8)
    ensures Test(s.AF, y) == Condition(State(s).af, y)
  {
    hide Low, Test, Condition;
    TestIs(s.AF, y);
  }

  lemma HostHighPageIs(s: Host, op: bv8)
    requires op != 0xed
    ensures OutcomeOf(HostHighPage(s, op)) == HighPage(State(s), op)
  {
    hide Low, State, Y, Z, P, HostReturn, Return, HostPop, PopPair, HostSpecial, Special, HostJump, Jump,
         HostMiscellaneous, Miscellaneous, HostCall, Call,
         HostPushPair, Push, HostAluByte, HostRestart, Test, Condition, Alu, Get, Skip, Pair, ExtendedPage,
         HostIndexPrefix, IndexPrefix;
    var y, z := Y(op), Z(op);
    Fields(op);
    ConditionIs(s, y);
    if z == 0 {
      HostReturnIs(s, Test(s.AF, y));
    } else if z == 1 {
      HostPopIs(s, P(op));
      HostSpecialIs(s, P(op));
    } else if z == 2 {
      HostJumpIs(s, Test(s.AF, y));
    } else if z == 3 {
      HostMiscellaneousIs(s, y);
    } else if z == 4 {
      HostCallIs(s, Test(s.AF, y));
    } else if z == 5 {
      HostPushPairIs(s, P(op));
      HostCallIs(s, true);
      HostIndexPrefixIs(s, op == 0xfd);
    } else if z == 6 {
      HostAluByteIs(s, y);
    } else {
      HostRestartIs(s, y);
    }
  }

  // ----- The ED page -----

  method BlockInstruction(s: Host, op: bv8) returns (t: Host)
    ensures State(t) == BlockPage(State(s), op)
  {
    hide State, HostMove, MoveStep, HostSearch, SearchStep, MoveTimes, SearchUntil, Count;
    var up := op & 8 == 0;
    if op & 0x11 == 0 {
      HostMoveIs(s, up);
      t := HostMove(s, up);
    } else if op & 0x11 == 1 {
      HostSearchIs(s, up);
      t := HostSearch(s, up);
    } else if op & 0x11 == 0x10 {
      t := RepeatMove(s, up);
    } else {
      t := RepeatSearch(s, up);
    }
  }

  method Extended(s: Host, op: bv8) returns (o: HostOutcome)
    ensures OutcomeOf(o) == ExtendedPage(State(s), op)
  {
    hide State, HostWordPage, WordPage, BlockPage, HostSystemPage, SystemPage, IsWordOp, IsBlockOp, IsPortOp;
    if IsWordOp(op) {
      HostWordPageIs(s, op);
      o := HostRan(HostWordPage(s, op));
    } else if IsBlockOp(op) {
      var t := BlockInstruction(s, op);
      o := HostRan(t);
    } else if IsPortOp(op) {
      o := HostNotModelled;
    } else {
      HostSystemPageIs(s, op);
      o := HostRan(HostSystemPage(s, op));
    }
  }

  // ----- One step -----

  /** LD r,r' and the operations on A with a register. */
  function HostMiddle(s: Host, op: bv8): Host {
    if op < 0x80 then LoadRegister(s, Y(op), Z(op)) else HostAlu(s, Y(op), Operand(s, Z(op)))
  }

  lemma HostMiddleIs(s: Host, op: bv8)
    ensures var c := State(s);
            State(HostMiddle(s, op)) ==
            if op < 0x80 then SetReg(c, Y(op), Reg(c, Z(op))) else c.(af := Alu(Y(op), c.af, Reg(c, Z(op))))
  {
    hide State, Wide, LoadRegister, HostAlu, Operand, Reg, SetReg, Alu, Y, Z;
    Fields(op);
    if op < 0x80 {
      LoadRegisterIs(s, Y(op), Z(op));
    } else {
      OperandIs(s, Z(op));
      HostAluIs(s, Y(op), Reg(State(s), Z(op)));
    }
  }

  lemma ExtendedIs(c: Cpu)
    ensures HighPage(c, 0xed) == ExtendedPage(Skip(c, 1), Get(c.mem, c.pc))
  {
    hide ExtendedPage, Skip, Get;
    assert Z(0xed) == 5 && 0xed as bv8 & 8 != 0;
  }

  /** The loop body: fetch, decode, execute. */
  method Step(s: Host) returns (o: HostOutcome)
    ensures OutcomeOf(o) == StepOf(State(s))
  {
    hide State, Opcode, Get, Skip, SkipByte, HostLowPage, LowPage, HostMiddle, HostHighPage, HighPage, ExtendedPage,
         SetReg, Reg, Alu, Y, Z;
    OpcodeIs(s);
    SkipByteIs(s);
    var op, t := Opcode(s), SkipByte(s);
    if op < 0x40 {
      HostLowPageIs(t, op);
      o := HostRan(HostLowPage(t, op));
    } else if op == 0x76 {
      o := HostHalted(t);
    } else if op < 0xc0 {
      HostMiddleIs(t, op);
      o := HostRan(HostMiddle(t, op));
    } else if op == 0xed {
      OpcodeIs(t);
      SkipByteIs(t);
      ExtendedIs(State(t));
      o := Extended(SkipByte(t), Opcode(t));
    } else {
      HostHighPageIs(t, op);
      o := HostHighPage(t, op);
    }
  }

  // ----- Runs -----

  /** Whatever the high bits of the host registers hold, the run is that of the Z80 they stand for. */
  method Run(s: Host, n: nat) returns (o: HostOutcome)
    ensures OutcomeOf(o) == RunOf(State(s), n)
  {
    hide State, StepOf;
    o := HostRan(s);
    var k := 0;
    while k < n && o.HostRan?
      invariant k <= n
      invariant o.HostRan? ==> RunOf(State(o.s), n - k) == RunOf(State(s), n)
      invariant !o.HostRan? ==> OutcomeOf(o) == RunOf(State(s), n)
    {
      o := Step(o.s);
      k := k + 1;
    }
  }
}
