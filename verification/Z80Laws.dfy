/** Laws of the instructions that move the program counter and the stack, with opcodes and flag bits written out. */
module Z80Laws {
  import opened Z80Cpu

  // ----- Fetching -----

  lemma Fetched(c: Cpu)
    ensures StepOf(c) == Execute(c.(pc := c.pc + 1), c.mem(c.pc))
  {
    hide Execute;
  }

  function Plus1(w: bv16): bv16 {
    w + 1
  }

  function Plus2(w: bv16): bv16 {
    w + 2
  }

  function Plus3(w: bv16): bv16 {
    w + 3
  }

  function Minus1(w: bv16): bv16 {
    w - 1
  }

  function Minus2(w: bv16): bv16 {
    w - 2
  }

  function TopByte(w: bv16): bv8 {
    (w >> 8) as bv8
  }

  function BottomByte(w: bv16): bv8 {
    (w & 0xff) as bv8
  }

  function Joined(h: bv8, l: bv8): bv16 {
    ((h as bv16) << 8) | (l as bv16)
  }

  /** The 16-bit operand behind the opcode, and the word on top of the stack: low byte first. */
  function Operand(c: Cpu): bv16 {
    Joined(c.mem(Plus2(c.pc)), c.mem(Plus1(c.pc)))
  }

  function Top(c: Cpu): bv16 {
    Joined(c.mem(Plus1(c.sp)), c.mem(c.sp))
  }

  /** A displacement byte is a signed number. */
  function Displacement(d: bv8): bv16 {
    if d & 0x80 == 0 then d as bv16 else (d as bv16) - 0x100
  }

  /** The word has been pushed, high byte at the higher address, and no other byte has changed. */
  ghost predicate Pushed(c: Cpu, c': Cpu, w: bv16) {
    && c'.sp == Minus2(c.sp)
    && c'.mem(Minus1(c.sp)) == TopByte(w) && c'.mem(Minus2(c.sp)) == BottomByte(w)
    && forall a: bv16 :: a != Minus1(c.sp) && a != Minus2(c.sp) ==> c'.mem(a) == c.mem(a)
  }

  /** The states agree but for PC, SP and memory. */
  ghost predicate SameRegisters(c: Cpu, c': Cpu) {
    c'.(pc := c.pc, sp := c.sp, mem := c.mem) == c
  }

  /**
   * Condition `i` of an opcode: NZ and Z look at bit 6 of F, NC and C at bit 0, PO and PE at bit 2, P and M at bit 7;
   * the first of each pair wants it clear.
   */
  predicate Tests(i: bv8, mask: bv16, isSet: bool) {
    || (i == 0 && mask == 0x40 && !isSet) || (i == 1 && mask == 0x40 && isSet)
    || (i == 2 && mask == 0x01 && !isSet) || (i == 3 && mask == 0x01 && isSet)
    || (i == 4 && mask == 0x04 && !isSet) || (i == 5 && mask == 0x04 && isSet)
    || (i == 6 && mask == 0x80 && !isSet) || (i == 7 && mask == 0x80 && isSet)
  }

  predicate Holds(af: bv16, mask: bv16, isSet: bool) {
    (af & mask != 0) == isSet
  }

  lemma ConditionIs(af: bv16, i: bv8, mask: bv16, isSet: bool)
    requires Tests(i, mask, isSet)
    ensures Condition(af, i) <==> Holds(af, mask, isSet)
  {
  }

  // ----- Jumps -----

  /** Behind a two-byte instruction at `pc`, and the displacement from there. */
  function Jumped(pc: bv16, d: bv16): bv16 {
    pc + 2 + d
  }

  lemma TargetIs(pc: bv16, d: bv16)
    ensures pc + 1 + d + 1 == pc + 2 + d
  {
  }

  lemma JumpedIs(pc: bv16, d: bv16)
    ensures Target(pc + 1, d) == Jumped(pc, d)
  {
    TargetIs(pc, d);
  }

  lemma SignedIs(d: bv8)
    ensures Signed(d) == Displacement(d)
  {
  }

  lemma TwoOn(pc: bv16)
    ensures pc + 1 + 1 == Plus2(pc)
  {
  }

  lemma NotTaken(c: Cpu)
    ensures JumpRelative(c.(pc := c.pc + 1), false) == c.(pc := Plus2(c.pc))
  {
    hide Target, Signed, Get;
    TwoOn(c.pc);
  }

  lemma Taken(c: Cpu)
    ensures JumpRelative(c.(pc := c.pc + 1), true) == c.(pc := Jumped(c.pc, Displacement(c.mem(c.pc + 1))))
  {
    hide Target, Signed, Jumped, Displacement;
    JumpedIs(c.pc, Displacement(c.mem(c.pc + 1)));
    SignedIs(c.mem(c.pc + 1));
  }

  lemma JumpRelativeIs(c: Cpu, taken: bool)
    ensures JumpRelative(c.(pc := c.pc + 1), taken)
            == c.(pc := if taken then Jumped(c.pc, Displacement(c.mem(Plus1(c.pc)))) else Plus2(c.pc))
  {
    hide JumpRelative, Jumped, Displacement, Plus1, Plus2;
    Steps(c.pc);
    if taken {
      Taken(c);
    } else {
      NotTaken(c);
    }
  }

  lemma RelativeOpcodes(c: Cpu, i: bv8)
    requires i < 4
    ensures Execute(c, 0x20 + 8 * i) == Ran(JumpRelative(c, Condition(c.af, i)))
    ensures Execute(c, 0x18) == Ran(JumpRelative(c, true))
  {
    hide JumpRelative, Condition;
  }

  /** JR NZ, JR Z, JR NC, JR C: taken exactly if the flag is as wanted. */
  lemma JrLaw(c: Cpu, i: bv8, mask: bv16, isSet: bool)
    requires i < 4 && Tests(i, mask, isSet) && c.mem(c.pc) == 0x20 + 8 * i
    ensures StepOf(c) == Ran(c.(pc := if Holds(c.af, mask, isSet) then Jumped(c.pc, Displacement(c.mem(Plus1(c.pc))))
                                else Plus2(c.pc)))
  {
    hide StepOf, Execute, Condition, Tests, Holds, JumpRelative, Jumped, Plus2, Displacement;
    Fetched(c);
    RelativeOpcodes(c.(pc := c.pc + 1), i);
    ConditionIs(c.af, i, mask, isSet);
    JumpRelativeIs(c, Holds(c.af, mask, isSet));
  }

  /** JR: always. */
  lemma JrAlways(c: Cpu)
    requires c.mem(c.pc) == 0x18
    ensures StepOf(c) == Ran(c.(pc := Jumped(c.pc, Displacement(c.mem(Plus1(c.pc))))))
  {
    hide StepOf, Execute, JumpRelative, Jumped, Plus2, Displacement;
    Fetched(c);
    RelativeOpcodes(c.(pc := c.pc + 1), 0);
    JumpRelativeIs(c, true);
  }

  function OneLess(b: bv8): bv8 {
    b - 1
  }

  /** B has not got to 0 when it counts down. */
  predicate MoreB(bc: bv16) {
    OneLess(TopByte(bc)) != 0
  }

  function LessB(bc: bv16): bv16 {
    Joined(OneLess(TopByte(bc)), BottomByte(bc))
  }

  /** DJNZ: B counts down, and the jump is taken until it gets to 0. */
  lemma DjnzLaw(c: Cpu)
    requires c.mem(c.pc) == 0x10
    ensures StepOf(c) == Ran(c.(bc := LessB(c.bc),
                                pc := if MoreB(c.bc) then Jumped(c.pc, Displacement(c.mem(Plus1(c.pc))))
                                    else Plus2(c.pc)))
  {
    hide StepOf, Execute, JumpRelative, Jumped, Plus2, Displacement, CountedB, LessB, MoreB;
    Fetched(c);
    DjnzOpcode(c.(pc := c.pc + 1));
    JumpRelativeIs(c.(bc := LessB(c.bc)), MoreB(c.bc));
    CountedBIs(c.bc);
  }

  function CountedB(bc: bv16): bv16 {
    Word(Hi(bc) - 1, Lo(bc))
  }

  lemma CountedBIs(bc: bv16)
    ensures CountedB(bc) == LessB(bc)
  {
  }

  lemma DjnzOpcode(c: Cpu)
    ensures Execute(c, 0x10) == Ran(JumpRelative(c.(bc := CountedB(c.bc)), MoreB(c.bc)))
  {
    hide JumpRelative, Word, Lo;
  }

  // ----- JP, CALL, RET -----

  lemma ConditionOpcodes(c: Cpu, i: bv8)
    requires i < 8
    ensures Execute(c, 0xc2 + 8 * i) == Ran(Jump(c, Condition(c.af, i)))
    ensures Execute(c, 0xc4 + 8 * i) == Ran(Call(c, Condition(c.af, i)))
    ensures Execute(c, 0xc0 + 8 * i) == Ran(Return(c, Condition(c.af, i)))
  {
    hide Jump, Call, Return, Condition;
  }

  lemma AlwaysOpcodes(c: Cpu)
    ensures Execute(c, 0xc3) == Ran(Jump(c, true))
    ensures Execute(c, 0xcd) == Ran(Call(c, true))
    ensures Execute(c, 0xc9) == Ran(Return(c, true))
  {
    hide Jump, Call, Return, Condition;
  }

  lemma Steps(w: bv16)
    ensures w + 1 == Plus1(w)
  {
  }

  lemma JoinedIs(h: bv8, l: bv8)
    ensures Word(h, l) == Joined(h, l)
  {
  }

  lemma StepTwice(w: bv16)
    ensures Plus1(Plus1(w)) == Plus2(w)
  {
  }

  lemma WordIs(m: Memory, a: bv16)
    ensures GetWord(m, a) == Joined(m(Plus1(a)), m(a))
  {
    hide Word, Joined;
    JoinedIs(m(Plus1(a)), m(a));
  }

  lemma WordAt(c: Cpu)
    ensures GetWord(c.mem, c.pc + 1) == Operand(c)
  {
    hide GetWord, Plus1, Plus2, Joined;
    Steps(c.pc);
    StepTwice(c.pc);
    WordIs(c.mem, Plus1(c.pc));
  }

  lemma ThreeOn(pc: bv16)
    ensures pc + 1 + 2 == Plus3(pc)
  {
  }

  lemma JumpIs(c: Cpu, taken: bool)
    ensures Jump(c.(pc := c.pc + 1), taken) == c.(pc := if taken then Operand(c) else Plus3(c.pc))
  {
    hide GetWord, Operand, Plus3;
    WordAt(c);
    ThreeOn(c.pc);
  }

  /** JP on a condition: taken exactly if the flag is as wanted. */
  lemma JpLaw(c: Cpu, i: bv8, mask: bv16, isSet: bool)
    requires Tests(i, mask, isSet) && c.mem(c.pc) == 0xc2 + 8 * i
    ensures StepOf(c) == Ran(c.(pc := if Holds(c.af, mask, isSet) then Operand(c) else Plus3(c.pc)))
  {
    TestsEight(i, mask, isSet);
    hide StepOf, Execute, Condition, Tests, Holds, Jump, Operand, Plus3;
    Fetched(c);
    ConditionOpcodes(c.(pc := c.pc + 1), i);
    ConditionIs(c.af, i, mask, isSet);
    JumpIs(c, Holds(c.af, mask, isSet));
  }

  lemma TestsEight(i: bv8, mask: bv16, isSet: bool)
    requires Tests(i, mask, isSet)
    ensures i < 8
  {
  }

  /** JP: always. */
  lemma JpAlways(c: Cpu)
    requires c.mem(c.pc) == 0xc3
    ensures StepOf(c) == Ran(c.(pc := Operand(c)))
  {
    hide StepOf, Execute, Jump, Operand;
    Fetched(c);
    AlwaysOpcodes(c.(pc := c.pc + 1));
    JumpIs(c, true);
  }

  lemma StackSteps(sp: bv16)
    ensures Below(sp) == Minus1(sp) && Below(Minus1(sp)) == Minus2(sp) && Minus1(sp) != Minus2(sp)
  {
  }

  lemma HalvesOf(w: bv16)
    ensures Hi(w) == TopByte(w) && Lo(w) == BottomByte(w)
  {
  }

  lemma PushIs(c: Cpu, w: bv16)
    ensures Pushed(c, Push(c, w), w) && SameRegisters(c, Push(c, w)) && Push(c, w).pc == c.pc
  {
    hide Below, Hi, Lo, Minus1, Minus2, TopByte, BottomByte;
    StackSteps(c.sp);
    HalvesOf(w);
  }

  /** The instruction has put a word on the stack and goes on at `pc`. */
  ghost predicate Stacked(c: Cpu, o: Outcome, w: bv16, pc: bv16) {
    o.Ran? && o.cpu.pc == pc && Pushed(c, o.cpu, w) && SameRegisters(c, o.cpu)
  }

  lemma PushStacks(c: Cpu, pc1: bv16, w: bv16, pc: bv16)
    ensures Stacked(c, Ran(Push(c.(pc := pc1), w).(pc := pc)), w, pc)
    ensures Push(c.(pc := pc1), w).(pc := pc1) == Push(c.(pc := pc1), w)
  {
    hide Push, Minus1, Minus2, TopByte, BottomByte;
    PushIs(c.(pc := pc1), w);
  }

  /** CALL: the address behind the instruction goes on the stack. */
  ghost predicate Called(c: Cpu, o: Outcome) {
    Stacked(c, o, Plus3(c.pc), Operand(c))
  }

  lemma CallIs(c: Cpu, taken: bool)
    ensures taken ==> Called(c, Ran(Call(c.(pc := c.pc + 1), taken)))
    ensures !taken ==> Call(c.(pc := c.pc + 1), taken) == c.(pc := Plus3(c.pc))
  {
    hide Push, GetWord, Operand, Plus3, Stacked;
    WordAt(c);
    ThreeOn(c.pc);
    PushStacks(c, c.pc + 1, Plus3(c.pc), Operand(c));
  }

  /** CALL on a condition. */
  lemma CallLaw(c: Cpu, i: bv8, mask: bv16, isSet: bool)
    requires Tests(i, mask, isSet) && c.mem(c.pc) == 0xc4 + 8 * i
    ensures if Holds(c.af, mask, isSet) then Called(c, StepOf(c)) else StepOf(c) == Ran(c.(pc := Plus3(c.pc)))
  {
    TestsEight(i, mask, isSet);
    hide StepOf, Execute, Condition, Tests, Holds, Call, Called, Plus3;
    Fetched(c);
    ConditionOpcodes(c.(pc := c.pc + 1), i);
    ConditionIs(c.af, i, mask, isSet);
    CallIs(c, Holds(c.af, mask, isSet));
  }

  lemma CallAlways(c: Cpu)
    requires c.mem(c.pc) == 0xcd
    ensures Called(c, StepOf(c))
  {
    hide StepOf, Execute, Call, Called, Plus3;
    Fetched(c);
    AlwaysOpcodes(c.(pc := c.pc + 1));
    CallIs(c, true);
  }

  lemma ReturnIs(c: Cpu, taken: bool)
    ensures Return(c.(pc := c.pc + 1), taken)
            == if taken then c.(pc := Top(c), sp := Plus2(c.sp)) else c.(pc := Plus1(c.pc))
  {
    hide GetWord, Joined, TwoAbove, Plus1, Plus2;
    WordIs(c.mem, c.sp);
    Steps(c.pc);
    TwoAboveIs(c.sp);
  }

  lemma TwoAboveIs(w: bv16)
    ensures TwoAbove(w) == Plus2(w)
  {
  }

  /** RET on a condition. */
  lemma RetLaw(c: Cpu, i: bv8, mask: bv16, isSet: bool)
    requires Tests(i, mask, isSet) && c.mem(c.pc) == 0xc0 + 8 * i
    ensures StepOf(c) == Ran(if Holds(c.af, mask, isSet) then c.(pc := Top(c), sp := Plus2(c.sp))
                             else c.(pc := Plus1(c.pc)))
  {
    TestsEight(i, mask, isSet);
    hide StepOf, Execute, Condition, Tests, Holds, Return, Top, Plus1, Plus2;
    Fetched(c);
    ConditionOpcodes(c.(pc := c.pc + 1), i);
    ConditionIs(c.af, i, mask, isSet);
    ReturnIs(c, Holds(c.af, mask, isSet));
  }

  lemma RetAlways(c: Cpu)
    requires c.mem(c.pc) == 0xc9
    ensures StepOf(c) == Ran(c.(pc := Top(c), sp := Plus2(c.sp)))
  {
    hide StepOf, Execute, Return, Top, Plus2;
    Fetched(c);
    AlwaysOpcodes(c.(pc := c.pc + 1));
    ReturnIs(c, true);
  }

  /** What has been pushed is what comes off the stack, and the stack pointer is back. */
  lemma PushedIsTop(c: Cpu, c': Cpu, w: bv16)
    requires Pushed(c, c', w)
    ensures Top(c') == w && Plus2(c'.sp) == c.sp
  {
    hide TopByte, BottomByte, Joined;
    UpAgain(c.sp);
    Rejoined(w);
  }

  lemma UpAgain(sp: bv16)
    ensures Plus1(Minus2(sp)) == Minus1(sp) && Plus2(Minus2(sp)) == sp
  {
  }

  lemma Rejoined(w: bv16)
    ensures Joined(TopByte(w), BottomByte(w)) == w
  {
  }

  /** CALL and then RET: back behind the call, and everything but the two bytes below the stack is as before. */
  lemma CallReturns(c: Cpu, c1: Cpu)
    requires c.mem(c.pc) == 0xcd && StepOf(c) == Ran(c1) && c1.mem(c1.pc) == 0xc9
    ensures StepOf(c1) == Ran(c.(pc := Plus3(c.pc), mem := c1.mem))
    ensures forall a: bv16 :: a != Minus1(c.sp) && a != Minus2(c.sp) ==> c1.mem(a) == c.mem(a)
  {
    hide StepOf, Top, Operand, Plus2, Plus3, Minus1, Minus2, TopByte, BottomByte;
    CallAlways(c);
    RetAlways(c1);
    PushedIsTop(c, c1, Plus3(c.pc));
  }

  // ----- RST, PUSH, POP -----

  lemma RestartOpcodes(c: Cpu, i: bv8)
    requires i < 8
    ensures Execute(c, 0xc7 + 8 * i) == Ran(Push(c, c.pc).(pc := Restart(i)))
  {
    hide Push;
  }

  /** The eight restart addresses. */
  function Restart(i: bv8): bv16 {
    if i == 0 then 0x00 else if i == 1 then 0x08 else if i == 2 then 0x10 else if i == 3 then 0x18
    else if i == 4 then 0x20 else if i == 5 then 0x28 else if i == 6 then 0x30 else 0x38
  }

  /** RST: a call of one of eight fixed addresses. */
  lemma RstLaw(c: Cpu, i: bv8)
    requires i < 8 && c.mem(c.pc) == 0xc7 + 8 * i
    ensures Stacked(c, StepOf(c), Plus1(c.pc), Restart(i))
  {
    hide StepOf, Execute, Push, Restart, Plus1, Stacked;
    Fetched(c);
    RestartOpcodes(c.(pc := c.pc + 1), i);
    Steps(c.pc);
    PushStacks(c, c.pc + 1, Plus1(c.pc), Restart(i));
  }

  /** BC, DE, HL, AF */
  lemma PushOpcodes(c: Cpu)
    ensures Execute(c, 0xc5) == Ran(Push(c, c.bc)) && Execute(c, 0xd5) == Ran(Push(c, c.de))
    ensures Execute(c, 0xe5) == Ran(Push(c, c.hl)) && Execute(c, 0xf5) == Ran(Push(c, c.af))
  {
    hide Push;
  }

  lemma PopOpcodes(c: Cpu)
    ensures Execute(c, 0xc1) == Ran(c.(bc := GetWord(c.mem, c.sp), sp := TwoAbove(c.sp)))
    ensures Execute(c, 0xd1) == Ran(c.(de := GetWord(c.mem, c.sp), sp := TwoAbove(c.sp)))
    ensures Execute(c, 0xe1) == Ran(c.(hl := GetWord(c.mem, c.sp), sp := TwoAbove(c.sp)))
    ensures Execute(c, 0xf1) == Ran(c.(af := GetWord(c.mem, c.sp), sp := TwoAbove(c.sp)))
  {
    hide GetWord, TwoAbove;
  }

  /** Which pair a PUSH takes. */
  predicate IsPushOf(op: bv8, c: Cpu, w: bv16) {
    || (op == 0xc5 && w == c.bc) || (op == 0xd5 && w == c.de) || (op == 0xe5 && w == c.hl) || (op == 0xf5 && w == c.af)
  }

  lemma PushOpcode(c: Cpu, op: bv8, w: bv16)
    requires IsPushOf(op, c, w)
    ensures Execute(c, op) == Ran(Push(c, w))
  {
    hide Execute, Push;
    PushOpcodes(c);
  }

  /** PUSH BC, DE, HL, AF. */
  lemma PushLaw(c: Cpu, w: bv16)
    requires IsPushOf(c.mem(c.pc), c, w)
    ensures Stacked(c, StepOf(c), w, Plus1(c.pc))
  {
    hide StepOf, Execute, Push, Plus1, Stacked;
    Fetched(c);
    PushOpcode(c.(pc := c.pc + 1), c.mem(c.pc), w);
    Steps(c.pc);
    PushStacks(c, c.pc + 1, w, c.pc + 1);
  }

  /** POP BC, DE, HL, AF. */
  lemma PopLaw(c: Cpu)
    ensures c.mem(c.pc) == 0xc1 ==> StepOf(c) == Ran(c.(pc := Plus1(c.pc), bc := Top(c), sp := Plus2(c.sp)))
    ensures c.mem(c.pc) == 0xd1 ==> StepOf(c) == Ran(c.(pc := Plus1(c.pc), de := Top(c), sp := Plus2(c.sp)))
    ensures c.mem(c.pc) == 0xe1 ==> StepOf(c) == Ran(c.(pc := Plus1(c.pc), hl := Top(c), sp := Plus2(c.sp)))
    ensures c.mem(c.pc) == 0xf1 ==> StepOf(c) == Ran(c.(pc := Plus1(c.pc), af := Top(c), sp := Plus2(c.sp)))
  {
    hide StepOf, Execute, GetWord, TwoAbove, Joined, Plus1, Plus2;
    Fetched(c);
    PopOpcodes(c.(pc := c.pc + 1));
    Steps(c.pc);
    WordIs(c.mem, c.sp);
    TwoAboveIs(c.sp);
  }

  /** PUSH and POP of the same pair: nothing has changed but the two bytes below the stack. */
  lemma PushPops(c: Cpu, c1: Cpu, w: bv16)
    requires IsPushOf(c.mem(c.pc), c, w) && StepOf(c) == Ran(c1) && c1.mem(c1.pc) == c.mem(c.pc) - 4
    ensures StepOf(c1) == Ran(c.(pc := Plus2(c.pc), mem := c1.mem))
    ensures forall a: bv16 :: a != Minus1(c.sp) && a != Minus2(c.sp) ==> c1.mem(a) == c.mem(a)
  {
    hide StepOf, Top, Plus1, Plus2, Minus1, Minus2, TopByte, BottomByte;
    PushLaw(c, w);
    PopLaw(c1);
    PushedIsTop(c, c1, w);
    StepTwice(c.pc);
  }

  // ----- Exchanges -----

  lemma ExchangeOpcodes(c: Cpu)
    ensures Execute(c, 0x08) == Ran(c.(af := c.af2, af2 := c.af))
    ensures Execute(c, 0xd9) == Ran(c.(bc := c.bc2, de := c.de2, hl := c.hl2, bc2 := c.bc, de2 := c.de, hl2 := c.hl))
    ensures Execute(c, 0xeb) == Ran(c.(de := c.hl, hl := c.de))
    ensures Execute(c, 0xe9) == Ran(c.(pc := c.hl))
    ensures Execute(c, 0xf9) == Ran(c.(sp := c.hl))
    ensures Execute(c, 0xf3) == Ran(c.(iff := 0)) && Execute(c, 0xfb) == Ran(c.(iff := 3))
    ensures Execute(c, 0x00) == Ran(c) && Execute(c, 0x76) == Halted(c)
  {
    hide Return;
  }

  lemma TopExchangeOpcode(c: Cpu)
    ensures Execute(c, 0xe3) == Ran(Push(c.(sp := TwoAbove(c.sp), hl := GetWord(c.mem, c.sp)), c.hl))
  {
    hide Push, GetWord, TwoAbove;
  }

  /** EX AF,AF'; EXX; EX DE,HL; JP (HL); LD SP,HL; DI; EI; NOP; HALT. */
  lemma ExchangeLaws(c: Cpu)
    ensures var next := Plus1(c.pc);
            && (c.mem(c.pc) == 0x08 ==> StepOf(c) == Ran(c.(pc := next, af := c.af2, af2 := c.af)))
            && (c.mem(c.pc) == 0xd9 ==>
                  StepOf(c) == Ran(c.(pc := next, bc := c.bc2, de := c.de2, hl := c.hl2, bc2 := c.bc, de2 := c.de,
                                      hl2 := c.hl)))
            && (c.mem(c.pc) == 0xeb ==> StepOf(c) == Ran(c.(pc := next, de := c.hl, hl := c.de)))
            && (c.mem(c.pc) == 0xe9 ==> StepOf(c) == Ran(c.(pc := c.hl)))
            && (c.mem(c.pc) == 0xf9 ==> StepOf(c) == Ran(c.(pc := next, sp := c.hl)))
            && (c.mem(c.pc) == 0xf3 ==> StepOf(c) == Ran(c.(pc := next, iff := 0)))
            && (c.mem(c.pc) == 0xfb ==> StepOf(c) == Ran(c.(pc := next, iff := 3)))
            && (c.mem(c.pc) == 0x00 ==> StepOf(c) == Ran(c.(pc := next)))
            && (c.mem(c.pc) == 0x76 ==> StepOf(c) == Halted(c.(pc := next)))
  {
    hide StepOf, Execute, Plus1;
    Fetched(c);
    ExchangeOpcodes(c.(pc := c.pc + 1));
    Steps(c.pc);
  }

  /** What EX AF,AF', EXX and EX DE,HL exchange. */
  function Exchanged(c: Cpu, op: bv8): Cpu {
    if op == 0x08 then c.(af := c.af2, af2 := c.af)
    else if op == 0xd9 then c.(bc := c.bc2, de := c.de2, hl := c.hl2, bc2 := c.bc, de2 := c.de, hl2 := c.hl)
    else c.(de := c.hl, hl := c.de)
  }

  lemma ExchangeStep(c: Cpu, op: bv8)
    requires (op == 0x08 || op == 0xd9 || op == 0xeb) && c.mem(c.pc) == op
    ensures StepOf(c) == Ran(Exchanged(c, op).(pc := Plus1(c.pc)))
  {
    hide StepOf, Plus1;
    ExchangeLaws(c);
  }

  lemma ExchangedBack(c: Cpu, op: bv8, pc: bv16, pc': bv16)
    ensures Exchanged(Exchanged(c, op).(pc := pc), op).(pc := pc') == c.(pc := pc')
  {
    if op == 0x08 {
    } else if op == 0xd9 {
    } else {
    }
  }

  /** EX AF,AF', EXX and EX DE,HL done twice are the identity. */
  lemma ExchangedTwice(c: Cpu, c1: Cpu, op: bv8)
    requires op == 0x08 || op == 0xd9 || op == 0xeb
    requires c.mem(c.pc) == op && StepOf(c) == Ran(c1) && c1.mem(c1.pc) == op
    ensures StepOf(c1) == Ran(c.(pc := Plus2(c.pc)))
  {
    hide StepOf, Exchanged, Plus1, Plus2;
    ExchangeStep(c, op);
    ExchangeStep(c1, op);
    StepTwice(c.pc);
    ExchangedBack(c, op, Plus1(c.pc), Plus2(c.pc));
  }

  /** EX (SP),HL: HL gets the word on top of the stack, which gets the old HL; nothing else changes. */
  lemma ExchangeTopLaw(c: Cpu)
    requires c.mem(c.pc) == 0xe3
    ensures StepOf(c).Ran?
    ensures var c' := StepOf(c).cpu;
            && c'.hl == Top(c) && Top(c') == c.hl && c'.(hl := c.hl, mem := c.mem, pc := c.pc) == c
            && forall a: bv16 :: a != c.sp && a != Plus1(c.sp) ==> c'.mem(a) == c.mem(a)
  {
    hide StepOf, Execute, Push, GetWord, TwoAbove, Joined, Plus1, Plus2, Minus1, Minus2, TopByte, BottomByte, Top;
    Fetched(c);
    var c0 := c.(pc := c.pc + 1);
    TopExchangeOpcode(c0);
    var c1 := c0.(sp := TwoAbove(c.sp), hl := GetWord(c.mem, c.sp));
    PushIs(c1, c.hl);
    TwoAboveIs(c.sp);
    DownAgain(c.sp);
    PushedIsTop(c1, StepOf(c).cpu, c.hl);
    TopIs(c);
  }

  lemma TopIs(c: Cpu)
    ensures GetWord(c.mem, c.sp) == Top(c)
  {
    hide GetWord, Joined;
    WordIs(c.mem, c.sp);
  }

  lemma DownAgain(sp: bv16)
    ensures Minus2(Plus2(sp)) == sp && Minus1(Plus2(sp)) == Plus1(sp)
  {
  }

  // ----- Runs -----

  /** A run is one instruction after another: any run may be cut in two, and stops where its first part stops. */
  lemma {:induction false} RunTogether(c: Cpu, m: nat, n: nat)
    ensures RunOf(c, 0) == Ran(c) && RunOf(c, 1) == StepOf(c)
    ensures RunOf(c, m + n) == if RunOf(c, m).Ran? then RunOf(RunOf(c, m).cpu, n) else RunOf(c, m)
    decreases m
  {
    hide StepOf;
    if m > 0 && StepOf(c).Ran? {
      RunTogether(StepOf(c).cpu, m - 1, n);
    }
    assert StepOf(c).Ran? ==> RunOf(StepOf(c).cpu, 0) == StepOf(c);
  }
}
