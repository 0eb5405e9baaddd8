/** Stack, jumps, exchanges and the 16-bit page, on host registers. */
module Z80High {
  import opened Z80Cpu
  import opened Z80Flags
  import opened Z80Alu
  import opened Z80
  import opened Z80Step
  import opened Z80Low

  // ----- The stack -----

  /** PUSH: the high byte first, both truncated. */
  function HostPush(s: Host, w: word32): Host {
    var t := PutBYTE(s.(SP := Before(s.SP)), Before(s.SP), HighPart(w));
    PutBYTE(t.(SP := Before(t.SP)), Before(t.SP), w)
  }

  lemma BelowIs(a: word32)
    ensures Low(Before(a)) == Below(Low(a))
  {
    hide Low, Before;
    BeforeIs(a);
  }

  lemma HostPushIs(s: Host, w: word32)
    ensures State(HostPush(s, w)) == Push(State(s), Low(w))
  {
    hide Low, Before, HighPart, Hi, Lo, Put, Byte, Below;
    BelowIs(s.SP);
    BelowIs(Before(s.SP));
    HighPartIs(w);
  }

  function Popped(s: Host): word32 {
    GetWORD(s, s.SP)
  }

  function DropWord(s: Host): Host {
    s.(SP := Next(Next(s.SP)))
  }

  lemma DropWordIs(s: Host)
    ensures State(DropWord(s)) == State(s).(sp := TwoAbove(Low(s.SP)))
  {
    hide Low, Next;
    TwoNext(s.SP);
  }

  function HostReturn(s: Host, taken: bool): Host {
    if taken then DropWord(s).(PC := Popped(s)) else s
  }

  lemma HostReturnIs(s: Host, taken: bool)
    ensures State(HostReturn(s, taken)) == Return(State(s), taken)
  {
    hide Low, DropWord, GetWORD, GetWord, TwoAbove;
    DropWordIs(s);
    GetWordIs(s, s.SP);
  }

  /** JPC */
  function HostJump(s: Host, taken: bool): Host {
    s.(PC := if taken then GetWORD(s, s.PC) else Next(Next(s.PC)))
  }

  lemma HostJumpIs(s: Host, taken: bool)
    ensures State(HostJump(s, taken)) == Jump(State(s), taken)
  {
    hide Low, GetWORD, GetWord, Next;
    TwoNext(s.PC);
    GetWordIs(s, s.PC);
  }

  /** CALLC */
  function HostCall(s: Host, taken: bool): Host {
    if taken then HostPush(s, Next(Next(s.PC))).(PC := GetWORD(s, s.PC)) else SkipWord(s)
  }

  lemma HostCallIs(s: Host, taken: bool)
    ensures State(HostCall(s, taken)) == Call(State(s), taken)
  {
    hide Low, GetWORD, GetWord, Next, HostPush, Push, Skip, SkipWord;
    TwoNext(s.PC);
    GetWordIs(s, s.PC);
    HostPushIs(s, Next(Next(s.PC)));
    SkipWordIs(s);
  }

  function HostPop(s: Host, p: bv8): Host {
    if p == 3 then DropWord(s).(AF := Popped(s)) else SetHostPair(DropWord(s), p, Popped(s))
  }

  lemma HostPopIs(s: Host, p: bv8)
    ensures Ran(State(HostPop(s, p))) == PopPair(State(s), p)
  {
    hide Low, DropWord, GetWORD, GetWord, SetHostPair, SetPair, TwoAbove;
    DropWordIs(s);
    GetWordIs(s, s.SP);
    SetPairIs(DropWord(s), p, Popped(s));
  }

  /** RST: the target is the middle of the opcode. */
  function HostRestart(s: Host, y: bv8): Host {
    HostPush(s, s.PC).(PC := Wide(y << 3))
  }

  lemma RestartTarget(v: bv8)
    ensures Low(Wide(v)) == v as bv16
  {
  }

  lemma HostRestartIs(s: Host, y: bv8)
    ensures State(HostRestart(s, y)) == Push(State(s), State(s).pc).(pc := (y << 3) as bv16)
  {
    hide Low, Wide, HostPush, Push;
    HostPushIs(s, s.PC);
    RestartTarget(y << 3);
  }

  // ----- Exchanges -----

  /** RET, EXX, JP (HL), LD SP,HL */
  function HostSpecial(s: Host, p: bv8): Host {
    if p == 0 then HostReturn(s, true)
    else if p == 1 then s.(BC := Wide16(s.bc2), DE := Wide16(s.de2), HL := Wide16(s.hl2), bc2 := Low(s.BC),
                           de2 := Low(s.DE), hl2 := Low(s.HL))
    else if p == 2 then s.(PC := s.HL)
    else s.(SP := s.HL)
  }

  lemma BankIs(w: bv16)
    ensures Low(Wide16(w)) == w
  {
  }

  lemma ExxIs(s: Host)
    ensures Ran(State(HostSpecial(s, 1))) == Special(State(s), 1)
  {
    hide Low, HostReturn, Return, Wide16;
    BankIs(s.bc2);
    BankIs(s.de2);
    BankIs(s.hl2);
  }

  lemma HostSpecialIs(s: Host, p: bv8)
    ensures Ran(State(HostSpecial(s, p))) == Special(State(s), p)
  {
    hide Low, HostReturn, Return;
    if p == 0 {
      HostReturnIs(s, true);
    } else if p == 1 {
      ExxIs(s);
    }
  }

  /** EX (SP),HL */
  function ExchangeTop(s: Host): Host {
    HostPush(DropWord(s).(HL := Popped(s)), s.HL)
  }

  lemma ExchangeTopIs(s: Host)
    ensures State(ExchangeTop(s))
            == Push(State(s).(sp := TwoAbove(Low(s.SP)), hl := GetWord(s.ram, Low(s.SP))), Low(s.HL))
  {
    hide Low, DropWord, GetWORD, GetWord, HostPush, Push, TwoAbove;
    DropWordIs(s);
    GetWordIs(s, s.SP);
    HostPushIs(DropWord(s).(HL := Popped(s)), s.HL);
  }

  // ----- ADC HL,rr, SBC HL,rr and the long loads -----

  function HostSumHL(s: Host, p: bv8, up: bool): Host {
    var t := SetHostPair(s, p, Cut(HostPair(s, p)));
    var x, y := Cut(s.HL), Cut(HostPair(s, p));
    var sum := if up then Sum17(x, y, CarryIn(s.AF)) else Diff17(x, y, CarryIn(s.AF));
    t.(AF := Sum16Result(s.AF, x, y, sum, if up then 0 else 2), HL := sum)
  }

  lemma Sum16Wide(AF: word32, x: bv16, y: bv16, sum: word32, n: bv8)
    ensures Low(Sum16Result(AF, Wide16(x), Wide16(y), sum, Wide(n))) == Word(Hi(Low(AF)), Sum16Flags(x, y, sum, n))
  {
    hide Low, Sum16Result, Sum16Flags, Word, Hi, Wide;
    Sum16Is(AF, x, y, sum, n);
  }

  lemma LowAgain(x: word32)
    ensures Low(x) == Low16(x)
  {
  }

  lemma HostSumHLIs(s: Host, p: bv8, up: bool)
    ensures State(HostSumHL(s, p, up)) == SumHL(State(s), p, up)
  {
    hide Low, Low16, Cut, Wide, Wide16, Word, Hi, Lo, Carry, CarryIn, Sum17, Diff17, Sum16Result, Sum16Flags, Pair,
         HostPair, SetHostPair;
    var x, y, k := Low(s.HL), Pair(State(s), p), Carry(Lo(Low(s.AF)));
    CutWord(s.HL);
    CutWord(HostPair(s, p));
    PairIs(s, p);
    CutPairIs(s, p);
    CarryInIs(s.AF);
    SmallWords();
    var sum := if up then Sum17(Wide16(x), Wide16(y), Wide(k)) else Diff17(Wide16(x), Wide16(y), Wide(k));
    LowAgain(sum);
    Sum16Wide(s.AF, x, y, sum, if up then 0 else FLAG_N);
  }

  function StorePair(s: Host, p: bv8): Host {
    SkipWord(PutWORD(s, GetWORD(s, s.PC), HostPair(s, p)))
  }

  lemma StorePairIs(s: Host, p: bv8)
    ensures var c := State(s);
            State(StorePair(s, p)) == Skip(c, 2).(mem := PutWord(c.mem, GetWord(c.mem, c.pc), Pair(c, p)))
  {
    hide Low, SkipWord, GetWORD, GetWord, PutWORD, PutWord, HostPair, Pair;
    GetWordIs(s, s.PC);
    PairIs(s, p);
    PutWordIs(s, GetWORD(s, s.PC), HostPair(s, p));
    SkipWordIs(PutWORD(s, GetWORD(s, s.PC), HostPair(s, p)));
  }

  function FetchPair(s: Host, p: bv8): Host {
    SetHostPair(SkipWord(s), p, GetWORD(s, GetWORD(s, s.PC)))
  }

  lemma FetchPairIs(s: Host, p: bv8)
    ensures var c := State(s);
            State(FetchPair(s, p)) == SetPair(Skip(c, 2), p, GetWord(c.mem, GetWord(c.mem, c.pc)))
  {
    hide Low, SkipWord, GetWORD, GetWord, SetHostPair, SetPair, Skip;
    GetWordIs(s, s.PC);
    GetWordIs(s, GetWORD(s, s.PC));
    SkipWordIs(s);
    SetPairIs(SkipWord(s), p, GetWORD(s, GetWORD(s, s.PC)));
  }

  function HostWordPage(s: Host, op: bv8): Host {
    if Z(op) == 2 then HostSumHL(s, P(op), op & 8 != 0)
    else if op & 8 == 0 then StorePair(s, P(op)) else FetchPair(s, P(op))
  }

  lemma HostWordPageIs(s: Host, op: bv8)
    ensures State(HostWordPage(s, op)) == WordPage(State(s), op)
  {
    hide Low, HostSumHL, SumHL, StorePair, FetchPair, SetPair, Pair, GetWord, PutWord, P, Z, Skip;
    if Z(op) == 2 {
      HostSumHLIs(s, P(op), op & 8 != 0);
    } else if op & 8 == 0 {
      StorePairIs(s, P(op));
    } else {
      FetchPairIs(s, P(op));
    }
  }
}
