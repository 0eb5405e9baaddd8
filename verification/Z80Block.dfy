/** The block instructions: fused loops that do what repeating the single instructions does. */
module Z80Block {
  import opened Z80Cpu
  import opened Z80Flags
  import opened Z80
  import opened Z80Step

  // ----- Moving -----

  function Step16(a: word32, up: bool): word32 {
    if up then Next(a) else Before(a)
  }

  lemma Step16Is(a: word32, up: bool)
    ensures Low(Step16(a, up)) == Stepped(Low(a), up)
  {
    hide Low, Next, Before;
    if up {
      NextIs(a);
    } else {
      BeforeIs(a);
    }
  }

  /** PutBYTE_pp(DE, GetBYTE_pp(HL)) and its counterpart for LDD. */
  function MoveByte(s: Host, up: bool): Host {
    PutBYTE(s, s.DE, GetBYTE(s, s.HL)).(HL := Step16(s.HL, up), DE := Step16(s.DE, up))
  }

  /** AF after LDI or LDD, without the flag for a remaining count. */
  function MoveFlags(AF: word32, v: word32): word32 {
    var acu := v + hreg(AF);
    (AF & !0x3e) | (acu & 8) | ((acu & 2) << 4)
  }

  function LessOne(BC: word32): word32 {
    BC - 1
  }

  /** LDI, LDD */
  function HostMove(s: Host, up: bool): Host {
    var t := MoveByte(s, up);
    t.(BC := LessOne(s.BC), AF := MoveFlags(s.AF, GetBYTE(s, s.HL)) | (Truth(LessOne(s.BC) & 0xffff != 0) << 2))
  }

  lemma MoveFlagsIs(AF: word32, v: bv8)
    ensures Low(MoveFlags(AF, Wide(v))) == Word(Hi(Low(AF)), MovedFlags(Hi(Low(AF)), Lo(Low(AF)), v))
  {
  }

  lemma OrFlag(x: word32, p: bool)
    ensures Low(x | (Truth(p) << 2)) == Word(Hi(Low(x)), Lo(Low(x)) | When(p, FLAG_P))
  {
  }

  lemma LessOneIs(BC: word32)
    ensures Low(LessOne(BC)) == Below(Low(BC))
  {
  }

  lemma MoreToCome(BC: word32)
    ensures LessOne(BC) & 0xffff != 0 <==> Below(Low(BC)) != 0
  {
  }

  lemma MoveByteIs(s: Host, up: bool)
    ensures State(MoveByte(s, up)) == State(s).(mem := Put(s.ram, Low(s.DE), Get(s.ram, Low(s.HL))),
                                                hl := Stepped(Low(s.HL), up), de := Stepped(Low(s.DE), up))
  {
    hide Low, Wide, Byte, Get, Put, Step16, Stepped;
    Step16Is(s.HL, up);
    Step16Is(s.DE, up);
    ByteWide(Get(s.ram, Low(s.HL)));
  }

  lemma MoveAfIs(AF: word32, v: bv8, BC: word32)
    ensures Low(MoveFlags(AF, Wide(v)) | (Truth(LessOne(BC) & 0xffff != 0) << 2))
            == Word(Hi(Low(AF)), MovedFlags(Hi(Low(AF)), Lo(Low(AF)), v) | When(Below(Low(BC)) != 0, FLAG_P))
  {
    hide Low, Wide, Hi, Lo, Word, MoveFlags, MovedFlags, When, Truth, LessOne;
    var x := MoveFlags(AF, Wide(v));
    MoveFlagsIs(AF, v);
    OrFlag(x, LessOne(BC) & 0xffff != 0);
    WordParts(Hi(Low(AF)), MovedFlags(Hi(Low(AF)), Lo(Low(AF)), v));
    MoreToCome(BC);
  }

  lemma HostMoveIs(s: Host, up: bool)
    ensures State(HostMove(s, up)) == MoveStep(State(s), up)
  {
    hide Low, Wide, Byte, Hi, Lo, Word, Get, Put, When, Truth, MoveByte, MoveFlags, MovedFlags, LessOne, Stepped, Below;
    MoveByteIs(s, up);
    LessOneIs(s.BC);
    MoveAfIs(s.AF, Get(s.ram, Low(s.HL)), s.BC);
  }

  // ----- LDIR, LDDR -----

  /** The count in the host register; 0 counts as 65536. */
  function CountWord(BC: word32): word32 {
    if BC & 0xffff == 0 then 0x10000 else BC & 0xffff
  }

  lemma CountWordIs(BC: word32)
    ensures CountWord(BC) == Count(Low(BC)) && 0 < CountWord(BC) <= 0x10000
  {
  }

  lemma CountWordLow(BC: word32)
    ensures Low(CountWord(BC)) == Low(BC)
  {
  }

  lemma MoveByteKeeps(s: Host, up: bool)
    ensures MoveByte(s, up).AF == s.AF && MoveByte(s, up).BC == s.BC
  {
    hide Step16, Byte, Wide, Low, Get, Put;
  }

  /** The flags that LDI and LDD leave alone. */
  function Kept(f: bv8): bv8 {
    f & 0xc1
  }

  /** The host in the loop and the Z80 between two single instructions agree on everything but the flags. */
  ghost predicate InLoop(s: Host, t: Host, m: Cpu) {
    && State(t).(af := m.af) == m && t.AF == s.AF
    && Hi(m.af) == Hi(Low(s.AF)) && Kept(Lo(m.af)) == Kept(Lo(Low(s.AF)))
  }

  lemma KeptBits(a: bv8, f: bv8, v: bv8, p: bool, g: bv8)
    requires Kept(f) == Kept(g)
    ensures Kept(MovedFlags(a, f, v) | When(p, FLAG_P)) == Kept(g)
    ensures MovedFlags(a, f, v) == MovedFlags(a, g, v)
  {
  }

  lemma LoopState(t: Host, m: Cpu, up: bool)
    requires State(t).(af := m.af) == m
    ensures var t', m' := MoveByte(t, up).(BC := LessOne(t.BC)), MoveStep(m, up);
            State(t').(af := m'.af) == m' && t'.AF == t.AF
  {
    hide Low, Hi, Lo, Word, Get, Put, When, MoveByte, MovedFlags, LessOne, Stepped, Below;
    MoveByteIs(t, up);
    MoveByteKeeps(t, up);
    LessOneIs(t.BC);
  }

  lemma LoopFlags(m: Cpu, up: bool, g: bv8)
    requires Kept(Lo(m.af)) == Kept(g)
    ensures Hi(MoveStep(m, up).af) == Hi(m.af) && Kept(Lo(MoveStep(m, up).af)) == Kept(g)
  {
    hide Hi, Lo, Word, Get, Put, When, MovedFlags, Stepped, Below, Kept;
    var v, p := Get(m.mem, m.hl), Below(m.bc) != 0;
    KeptBits(Hi(m.af), Lo(m.af), v, p, g);
    WordParts(Hi(m.af), MovedFlags(Hi(m.af), Lo(m.af), v) | When(p, FLAG_P));
  }

  lemma LoopStep(s: Host, t: Host, m: Cpu, up: bool)
    requires InLoop(s, t, m)
    ensures InLoop(s, MoveByte(t, up).(BC := LessOne(t.BC)), MoveStep(m, up))
  {
    hide Kept, State, Low, Hi, Lo, MoveByte, MoveStep, LessOne;
    LoopState(t, m, up);
    LoopFlags(m, up, Lo(Low(s.AF)));
  }

  lemma CountStep(BC: word32)
    requires 0 < BC <= 0x10000
    ensures LessOne(BC) < BC && LessOne(BC) <= 0x10000 && (LessOne(BC) == 0 <==> Below(Low(BC)) == 0)
  {
  }

  lemma LastFlags(f: bv8)
    ensures f | When(false, FLAG_P) == f
  {
  }

  lemma LoopEnds(s: Host, t: Host, m: Cpu, v: bv8, f: bv8)
    requires InLoop(s, t, m) && t.BC == 0
    requires m.af == Word(Hi(Low(s.AF)), MovedFlags(Hi(Low(s.AF)), f, v)) && Kept(f) == Kept(Lo(Low(s.AF)))
    ensures State(t.(AF := MoveFlags(t.AF, Wide(v)))) == m
  {
    hide Kept, Low, Wide, Hi, Lo, Word, MoveFlags, MovedFlags;
    KeptBits(Hi(Low(s.AF)), f, v, false, Lo(Low(s.AF)));
    MoveFlagsIs(s.AF, v);
  }

  /** The loop of LDIR and LDDR: what is left to do leads to the same end; `v` and `f` are of the last round. */
  ghost predicate Moving(s: Host, t: Host, m: Cpu, up: bool, more: bool, acu: word32, v: bv8, f: bv8) {
    && InLoop(s, t, m) && t.BC <= 0x10000 && (more <==> t.BC != 0)
    && MoveTimes(State(s), up, Count(State(s).bc)) == MoveTimes(m, up, t.BC)
    && (!more ==> acu == Wide(v) && m.af == Word(Hi(Low(s.AF)), MovedFlags(Hi(Low(s.AF)), f, v))
                  && Kept(f) == Kept(Lo(Low(s.AF))))
  }

  lemma MovingStarts(s: Host, up: bool)
    ensures Moving(s, s.(BC := CountWord(s.BC)), State(s), up, true, 0, 0, 0)
  {
    hide Kept, Low, Wide, Hi, Lo, Word, MovedFlags, Count, CountWord, InLoop;
    CountWordIs(s.BC);
    LoopStarts(s);
  }

  lemma MovingStep(s: Host, t: Host, m: Cpu, up: bool, acu: word32, v: bv8, f: bv8)
    requires Moving(s, t, m, up, true, acu, v, f)
    ensures var t' := MoveByte(t, up).(BC := LessOne(t.BC));
            Moving(s, t', MoveStep(m, up), up, t'.BC != 0, GetBYTE(t, t.HL), Get(m.mem, m.hl), Lo(m.af)) && t'.BC < t.BC
  {
    hide Kept, Low, Wide, Hi, Lo, Word, Get, GetBYTE, When, MoveByte, MovedFlags, LessOne, Below, Count, InLoop,
         MoveStep, MoveTimes, State;
    LoopStep(s, t, m, up);
    CountStep(t.BC);
    Unroll(m, up, t.BC);
    StepFacts(s, t, m, up);
  }

  lemma MovingEnds(s: Host, t: Host, m: Cpu, up: bool, acu: word32, v: bv8, f: bv8)
    requires Moving(s, t, m, up, false, acu, v, f)
    ensures State(t.(AF := MoveFlags(t.AF, acu))) == MoveTimes(State(s), up, Count(State(s).bc))
  {
    hide Kept, Low, Wide, Hi, Lo, Word, MoveFlags, MovedFlags, Count, InLoop, State;
    LoopEnds(s, t, m, v, f);
  }

  /** LDIR and LDDR: one loop that computes the flags only once. */
  method RepeatMove(s: Host, up: bool) returns (t: Host)
    ensures State(t) == MoveTimes(State(s), up, Count(State(s).bc))
  {
    hide *;
    t := s.(BC := CountWord(s.BC));
    MovingStarts(s, up);
    ghost var m := State(s);
    var acu := 0;
    ghost var v: bv8, f: bv8 := 0, 0;
    var more := true;
    while more
      invariant Moving(s, t, m, up, more, acu, v, f)
      decreases more, t.BC
    {
      MovingStep(s, t, m, up, acu, v, f);
      acu := GetBYTE(t, t.HL);
      t := MoveByte(t, up).(BC := LessOne(t.BC));
      v, f := Get(m.mem, m.hl), Lo(m.af);
      m := MoveStep(m, up);
      more := t.BC != 0;
    }
    MovingEnds(s, t, m, up, acu, v, f);
    t := t.(AF := MoveFlags(t.AF, acu));
  }

  lemma LoopStarts(s: Host)
    ensures InLoop(s, s.(BC := CountWord(s.BC)), State(s))
  {
    hide Hi, Lo, Low, CountWord;
    CountWordLow(s.BC);
  }

  lemma Unroll(m: Cpu, up: bool, n: word32)
    requires n != 0
    ensures MoveTimes(m, up, n) == MoveTimes(MoveStep(m, up), up, LessOne(n))
  {
    hide MoveStep;
  }

  lemma StepFacts(s: Host, t: Host, m: Cpu, up: bool)
    requires InLoop(s, t, m) && 0 < t.BC <= 0x10000
    ensures GetBYTE(t, t.HL) == Wide(Get(m.mem, m.hl)) && Kept(Lo(m.af)) == Kept(Lo(Low(s.AF)))
    ensures LessOne(t.BC) == 0 ==>
            MoveStep(m, up).af == Word(Hi(Low(s.AF)), MovedFlags(Hi(Low(s.AF)), Lo(m.af), Get(m.mem, m.hl)))
  {
    hide Kept, Low, Wide, Hi, Lo, Word, Get, Put, When, MovedFlags, LessOne, Below, Stepped;
    CountStep(t.BC);
    LastFlags(MovedFlags(Hi(m.af), Lo(m.af), Get(m.mem, m.hl)));
  }

  // ----- Searching -----

  /** acu - temp, and the carries into its bits. */
  function Difference(AF: word32, temp: word32): word32 {
    hreg(AF) - temp
  }

  function Borrows(AF: word32, temp: word32): word32 {
    hreg(AF) ^ temp ^ Difference(AF, temp)
  }

  function SearchJoin(AF: word32, s: word32, z: word32, h: word32, x3: word32, x5: word32, more: word32): word32 {
    (AF & !0xfe) | s | z | x5 | h | x3 | more | 2
  }

  function BitThree(AF: word32, temp: word32): word32 {
    (Difference(AF, temp) - ((Borrows(AF, temp) >> 4) & 1)) & 8
  }

  function BitFive(AF: word32, temp: word32): word32 {
    ((Difference(AF, temp) - ((Borrows(AF, temp) & 16) >> 4)) & 2) << 4
  }

  predicate NeedsFix(AF: word32, temp: word32) {
    Difference(AF, temp) & 15 == 8 && Borrows(AF, temp) & 16 != 0
  }

  function HostSign(AF: word32, temp: word32): word32 {
    Difference(AF, temp) & 0x80
  }

  function HostZero(AF: word32, temp: word32): word32 {
    Truth(Difference(AF, temp) & 0xff == 0) << 6
  }

  function HostHalf(AF: word32, temp: word32): word32 {
    Borrows(AF, temp) & 16
  }

  function HostMore(more: bool): word32 {
    Truth(more) << 2
  }

  function Joined(AF: word32, temp: word32, more: bool): word32 {
    SearchJoin(AF, HostSign(AF, temp), HostZero(AF, temp), HostHalf(AF, temp), BitThree(AF, temp), BitFive(AF, temp),
               HostMore(more))
  }

  function ClearedThree(x: word32): word32 {
    x & !8
  }

  /** AF after comparing with `temp`; `more` tells whether the count has not run out. */
  function SearchResult(AF: word32, temp: word32, more: bool): word32 {
    if NeedsFix(AF, temp) then ClearedThree(Joined(AF, temp, more)) else Joined(AF, temp, more)
  }

  lemma HostSignIs(AF: word32, v: bv8)
    ensures HostSign(AF, Wide(v)) == Wide(SearchSign(Hi(Low(AF)), v))
  {
  }

  lemma HostZeroIs(AF: word32, v: bv8)
    ensures HostZero(AF, Wide(v)) == Wide(SearchZero(Hi(Low(AF)), v))
  {
  }

  lemma HostHalfIs(AF: word32, v: bv8)
    ensures HostHalf(AF, Wide(v)) == Wide(SearchHalf(Hi(Low(AF)), v))
  {
  }

  lemma BitThreeIs(AF: word32, v: bv8)
    ensures BitThree(AF, Wide(v)) == Wide(SearchThree(Hi(Low(AF)), v))
  {
  }

  lemma BitFiveIs(AF: word32, v: bv8)
    ensures BitFive(AF, Wide(v)) == Wide(SearchFive(Hi(Low(AF)), v))
  {
  }

  lemma HostMoreIs(more: bool)
    ensures HostMore(more) == Wide(When(more, FLAG_P))
  {
  }

  lemma SearchJoinParts(AF: word32, s: bv8, z: bv8, h: bv8, x3: bv8, x5: bv8, p: bv8)
    ensures Low((AF & !0xfe) | Wide(s) | Wide(z) | Wide(x5) | Wide(h) | Wide(x3) | Wide(p) | 2)
            == Word(Hi(Low(AF)), Carry(Lo(Low(AF))) | s | z | h | x3 | x5 | FLAG_N | p)
  {
  }

  lemma SearchJoinIs(AF: word32, s: bv8, z: bv8, h: bv8, x3: bv8, x5: bv8, p: bv8)
    ensures Low(SearchJoin(AF, Wide(s), Wide(z), Wide(h), Wide(x3), Wide(x5), Wide(p)))
            == Word(Hi(Low(AF)), JoinSearch(Carry(Lo(Low(AF))), s, z, h, x3, x5, p))
  {
    hide Low, Wide, Word, Hi, Lo, Carry;
    SearchJoinParts(AF, s, z, h, x3, x5, p);
  }

  lemma JoinedIs(AF: word32, v: bv8, more: bool)
    ensures Low(Joined(AF, Wide(v), more)) == Word(Hi(Low(AF)), SearchFlags(Hi(Low(AF)), Lo(Low(AF)), v, more))
  {
    hide Low, Wide, Word, Hi, Lo, Carry, When, HostSign, HostZero, HostHalf, BitThree, BitFive, HostMore, SearchJoin,
         JoinSearch;
    hide SearchSign, SearchZero, SearchHalf, SearchThree, SearchFive;
    var a := Hi(Low(AF));
    HostSignIs(AF, v);
    HostZeroIs(AF, v);
    HostHalfIs(AF, v);
    BitThreeIs(AF, v);
    BitFiveIs(AF, v);
    HostMoreIs(more);
    SearchJoinIs(AF, SearchSign(a, v), SearchZero(a, v), SearchHalf(a, v), SearchThree(a, v), SearchFive(a, v),
                 When(more, FLAG_P));
  }

  lemma WithoutBit(x: word32)
    ensures Low(x & !8) == Word(Hi(Low(x)), Lo(Low(x)) & 0xf7)
  {
  }

  lemma ClearThree(x: word32)
    ensures Low(ClearedThree(x)) == Word(Hi(Low(x)), WithoutThree(Lo(Low(x))))
  {
    hide Low, Word, Hi, Lo;
    WithoutBit(x);
  }

  function WithoutThree(f: bv8): bv8 {
    f & 0xf7
  }

  lemma NoBitThree(AF: word32, v: bv8)
    requires NeedsFix(AF, Wide(v))
    ensures SearchThree(Hi(Low(AF)), v) == 0
  {
  }

  lemma OnlyThree(a: bv8, f: bv8, v: bv8, more: bool)
    requires SearchThree(a, v) == 0
    ensures WithoutThree(SearchFlags(a, f, v, more)) == SearchFlags(a, f, v, more)
  {
    PartBits(a, v, f, more);
    hide SearchSign, SearchZero, SearchHalf, SearchFive, When, Carry;
  }

  lemma PartBits(a: bv8, v: bv8, f: bv8, more: bool)
    ensures SearchSign(a, v) & 8 == 0 && SearchZero(a, v) & 8 == 0 && SearchHalf(a, v) & 8 == 0
            && SearchFive(a, v) & 8 == 0
    ensures When(more, FLAG_P) & 8 == 0 && Carry(f) & 8 == 0
  {
  }

  /** Clearing the bit again where the simulator does so changes nothing. */
  lemma SearchResultIs(AF: word32, v: bv8, more: bool)
    ensures Low(SearchResult(AF, Wide(v), more)) == Word(Hi(Low(AF)), SearchFlags(Hi(Low(AF)), Lo(Low(AF)), v, more))
  {
    hide Low, Wide, Word, Hi, Lo, Joined, NeedsFix, ClearedThree, WithoutThree, SearchFlags, SearchThree;
    JoinedIs(AF, v, more);
    if NeedsFix(AF, Wide(v)) {
      var f := SearchFlags(Hi(Low(AF)), Lo(Low(AF)), v, more);
      ClearThree(Joined(AF, Wide(v), more));
      WordParts(Hi(Low(AF)), f);
      NoBitThree(AF, v);
      OnlyThree(Hi(Low(AF)), Lo(Low(AF)), v, more);
    }
  }

  /** CPI, CPD */
  function HostSearch(s: Host, up: bool): Host {
    var n := LessOne(s.BC);
    s.(HL := Step16(s.HL, up), BC := n, AF := SearchResult(s.AF, GetBYTE(s, s.HL), CutNonzero(n)))
  }

  function CutNonzero(n: word32): bool {
    n & 0xffff != 0
  }

  lemma CutNonzeroIs(BC: word32)
    ensures CutNonzero(LessOne(BC)) <==> Below(Low(BC)) != 0
  {
  }

  lemma HostSearchIs(s: Host, up: bool)
    ensures State(HostSearch(s, up)) == SearchStep(State(s), up)
  {
    hide Low, Wide, Hi, Lo, Word, Get, Step16, Stepped, LessOne, Below, SearchResult, SearchFlags, CutNonzero;
    Step16Is(s.HL, up);
    LessOneIs(s.BC);
    CutNonzeroIs(s.BC);
    SearchResultIs(s.AF, Get(s.ram, Low(s.HL)), Below(Low(s.BC)) != 0);
  }

  // ----- CPIR, CPDR -----

  /** One round of the search loop: the pointer steps, the count goes down, the flags wait. */
  function SearchRound(t: Host, up: bool): Host {
    t.(HL := Step16(t.HL, up), BC := LessOne(t.BC))
  }

  /** The host in the loop and the Z80 between two single searches agree on all but the flags a search sets. */
  ghost predicate Searching(s: Host, t: Host, m: Cpu) {
    && State(t).(af := m.af) == m && t.AF == s.AF
    && Hi(m.af) == Hi(Low(s.AF)) && Carry(Lo(m.af)) == Carry(Lo(Low(s.AF)))
  }

  lemma CarryKept(a: bv8, f: bv8, v: bv8, more: bool)
    ensures Carry(SearchFlags(a, f, v, more)) == Carry(f)
  {
    NoCarryBits(a, v, more);
    hide SearchSign, SearchZero, SearchHalf, SearchThree, SearchFive, When;
  }

  lemma NoCarryBits(a: bv8, v: bv8, more: bool)
    ensures SearchSign(a, v) & 1 == 0 && SearchZero(a, v) & 1 == 0 && SearchHalf(a, v) & 1 == 0
    ensures SearchThree(a, v) & 1 == 0 && SearchFive(a, v) & 1 == 0 && When(more, FLAG_P) & 1 == 0
  {
  }

  lemma SearchState(t: Host, m: Cpu, up: bool)
    requires State(t).(af := m.af) == m
    ensures State(SearchRound(t, up)).(af := SearchStep(m, up).af) == SearchStep(m, up)
  {
    hide Low, Hi, Lo, Word, Get, Step16, Stepped, LessOne, Below, SearchFlags;
    Step16Is(t.HL, up);
    LessOneIs(t.BC);
  }

  lemma SearchAf(m: Cpu, up: bool)
    ensures Hi(SearchStep(m, up).af) == Hi(m.af) && Carry(Lo(SearchStep(m, up).af)) == Carry(Lo(m.af))
  {
    hide Hi, Lo, Word, Get, Stepped, Below, SearchFlags, Carry;
    var v, more := Get(m.mem, m.hl), Below(m.bc) != 0;
    WordParts(Hi(m.af), SearchFlags(Hi(m.af), Lo(m.af), v, more));
    CarryKept(Hi(m.af), Lo(m.af), v, more);
  }

  lemma SearchingStep(s: Host, t: Host, m: Cpu, up: bool)
    requires Searching(s, t, m)
    ensures Searching(s, SearchRound(t, up), SearchStep(m, up))
  {
    hide State, Low, Hi, Lo, Carry, Step16, LessOne, SearchStep;
    SearchState(t, m, up);
    SearchAf(m, up);
  }

  lemma FlagsFromCarry(a: bv8, f: bv8, g: bv8, v: bv8, more: bool)
    requires Carry(f) == Carry(g)
    ensures SearchFlags(a, f, v, more) == SearchFlags(a, g, v, more)
  {
    hide Carry, JoinSearch;
  }

  /** After the last round the flags of that round are the flags of the single instruction. */
  lemma SearchEnds(s: Host, t: Host, m: Cpu, up: bool)
    requires Searching(s, t, m) && 0 < t.BC <= 0x10000
    ensures State(SearchRound(t, up).(AF := SearchResult(s.AF, GetBYTE(t, t.HL), LessOne(t.BC) != 0)))
            == SearchStep(m, up)
  {
    hide Low, Wide, Hi, Lo, Word, Get, Step16, Stepped, LessOne, Below, Carry, SearchResult, SearchFlags;
    var v, more := Get(m.mem, m.hl), Below(m.bc) != 0;
    CountStep(t.BC);
    Step16Is(t.HL, up);
    LessOneIs(t.BC);
    SearchResultIs(s.AF, v, more);
    FlagsFromCarry(Hi(m.af), Lo(m.af), Lo(Low(s.AF)), v, more);
  }

  lemma FoundIs(AF: word32, v: bv8)
    ensures Difference(AF, Wide(v)) == 0 <==> v == Hi(Low(AF))
  {
  }

  /** What the search loop keeps: the rest of the search ends where the whole one does. */
  ghost predicate Seeking(s: Host, t: Host, m: Cpu, up: bool) {
    Searching(s, t, m) && 0 < t.BC <= 0x10000 && SearchUntil(State(s), up) == SearchUntil(m, up)
  }

  lemma SeekingStarts(s: Host, up: bool)
    ensures Seeking(s, s.(BC := CountWord(s.BC)), State(s), up)
  {
    hide Low, Hi, Lo, CountWord, Carry, SearchUntil;
    CountWordIs(s.BC);
    CountWordLow(s.BC);
  }

  /** The search loop stops when the count has run out or the byte has been found. */
  function Stops(AF: word32, temp: word32, n: word32): bool {
    n == 0 || Difference(AF, temp) == 0
  }

  function Remains(n: word32): bool {
    n != 0
  }

  /** The registers after the last round. */
  function SearchDone(s: Host, t: Host, up: bool): Host {
    SearchRound(t, up).(AF := SearchResult(s.AF, GetBYTE(t, t.HL), Remains(LessOne(t.BC))))
  }

  /** The single search ends the whole one. */
  predicate LastSearch(m: Cpu, up: bool) {
    SearchStep(m, up).bc == 0 || Get(m.mem, m.hl) == Hi(m.af)
  }

  lemma UnrollSearch(m: Cpu, up: bool)
    ensures SearchUntil(m, up) == if LastSearch(m, up) then SearchStep(m, up) else SearchUntil(SearchStep(m, up), up)
  {
    hide SearchStep, Get, Hi;
  }

  lemma StopsIs(s: Host, t: Host, m: Cpu, up: bool)
    requires Searching(s, t, m) && 0 < t.BC <= 0x10000
    ensures Stops(s.AF, GetBYTE(t, t.HL), LessOne(t.BC)) <==> LastSearch(m, up)
    ensures GetBYTE(t, t.HL) == Wide(Get(m.mem, m.hl))
  {
    hide Low, Wide, Hi, Lo, Word, Get, Stepped, LessOne, Below, Carry, SearchFlags, Difference;
    CountStep(t.BC);
    FoundIs(s.AF, Get(m.mem, m.hl));
  }

  lemma RoundCount(t: Host, up: bool)
    requires 0 < t.BC <= 0x10000
    ensures LessOne(t.BC) < t.BC && LessOne(t.BC) <= 0x10000 && SearchRound(t, up).BC == LessOne(t.BC)
  {
    hide Step16, LessOne;
    CountStep(t.BC);
  }

  lemma SeekingStep(s: Host, t: Host, m: Cpu, up: bool)
    requires Seeking(s, t, m, up)
    ensures LessOne(t.BC) < t.BC && SearchRound(t, up).BC == LessOne(t.BC)
    ensures Stops(s.AF, GetBYTE(t, t.HL), LessOne(t.BC)) ==> State(SearchDone(s, t, up)) == SearchUntil(State(s), up)
    ensures !Stops(s.AF, GetBYTE(t, t.HL), LessOne(t.BC)) ==> Seeking(s, SearchRound(t, up), SearchStep(m, up), up)
  {
    hide State, GetBYTE, SearchRound, LessOne, SearchResult, Searching, LastSearch, SearchStep, SearchUntil, Difference;
    RoundCount(t, up);
    StopsIs(s, t, m, up);
    UnrollSearch(m, up);
    SearchEnds(s, t, m, up);
    SearchingStep(s, t, m, up);
  }

  /** CPIR and CPDR: one loop that computes the flags only once. */
  method RepeatSearch(s: Host, up: bool) returns (t: Host)
    ensures State(t) == SearchUntil(State(s), up)
  {
    hide *;
    var u := s.(BC := CountWord(s.BC));
    SeekingStarts(s, up);
    ghost var m := State(s);
    SeekingStep(s, u, m, up);
    while !Stops(s.AF, GetBYTE(u, u.HL), LessOne(u.BC))
      invariant Seeking(s, u, m, up)
      decreases u.BC
    {
      SeekingStep(s, u, m, up);
      u := SearchRound(u, up);
      m := SearchStep(m, up);
    }
    SeekingStep(s, u, m, up);
    t := SearchDone(s, u, up);
  }
}
