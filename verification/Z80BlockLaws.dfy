/** What the repeating block instructions do to memory, in plain addresses. */
module Z80BlockLaws {
  import opened Z80Cpu
  import opened Z80Flags
  import opened Z80Block
  import opened Z80Copy

  // ----- Fetching -----

  lemma Prefix(c: Cpu)
    ensures Execute(c, 0xed) == ExtendedPage(Skip(c, 1), Get(c.mem, c.pc))
  {
    hide LowPage, SetReg, Reg, Alu, ExtendedPage, Skip, Get;
    assert Z(0xed) == 5 && 0xed as bv8 & 8 != 0;
  }

  /** Behind the prefix and the opcode. */
  function Behind(c: Cpu): Cpu {
    Skip(Skip(c, 1), 1)
  }

  lemma BehindIs(c: Cpu)
    ensures Behind(c) == c.(pc := c.pc + 2)
  {
  }

  lemma BehindCount(c: Cpu)
    ensures Behind(c).bc == c.bc
  {
  }

  lemma Fetched(c: Cpu, op: bv8)
    requires c.mem(c.pc) == 0xed && c.mem(c.pc + 1) == op
    ensures StepOf(c) == ExtendedPage(Behind(c), op)
  {
    hide Execute, ExtendedPage;
    Prefix(Skip(c, 1));
  }

  lemma BlockOpcodes(c: Cpu)
    ensures ExtendedPage(c, 0xb0) == Ran(MoveTimes(c, true, Count(c.bc)))
    ensures ExtendedPage(c, 0xb8) == Ran(MoveTimes(c, false, Count(c.bc)))
    ensures ExtendedPage(c, 0xb1) == Ran(SearchUntil(c, true))
    ensures ExtendedPage(c, 0xb9) == Ran(SearchUntil(c, false))
  {
    hide MoveTimes, Count, MoveStep, SearchStep, SearchUntil, WordPage, SystemPage;
  }

  // ----- LDIR, LDDR -----

  /** The address `k` above, and below. */
  function Above(w: bv16, k: bv16): bv16 {
    w + k
  }

  function Under(w: bv16, k: bv16): bv16 {
    w - k
  }

  lemma Offsets(w: bv16, k: bv16)
    ensures Offset(w, k, true) == Above(w, k) && Offset(w, k, false) == Under(w, k)
  {
  }

  lemma AllOffsets()
    ensures forall w: bv16, k: bv16 :: Offset(w, k, true) == Above(w, k)
    ensures forall w: bv16, k: bv16 :: Offset(w, k, false) == Under(w, k)
  {
    hide Offset, Above, Under;
    forall w: bv16, k: bv16
      ensures Offset(w, k, true) == Above(w, k) && Offset(w, k, false) == Under(w, k)
    {
      Offsets(w, k);
    }
  }

  /** The block of BC bytes (all of them for 0) from HL on has arrived at DE, and nothing else has changed. */
  ghost predicate CopiedUp(c: Cpu, c': Cpu) {
    && (forall k: bv16 :: InBlock(k, c.bc) ==> c'.mem(Above(c.de, k)) == c.mem(Above(c.hl, k)))
    && (forall a: bv16 :: (forall k: bv16 :: InBlock(k, c.bc) ==> a != Above(c.de, k)) ==> c'.mem(a) == c.mem(a))
  }

  ghost predicate CopiedDown(c: Cpu, c': Cpu) {
    && (forall k: bv16 :: InBlock(k, c.bc) ==> c'.mem(Under(c.de, k)) == c.mem(Under(c.hl, k)))
    && (forall a: bv16 :: (forall k: bv16 :: InBlock(k, c.bc) ==> a != Under(c.de, k)) ==> c'.mem(a) == c.mem(a))
  }

  /** The destination does not start strictly inside the source. */
  ghost predicate ApartUp(c: Cpu) {
    forall k: bv16 :: Inside(k, c.bc) ==> Above(c.hl, k) != c.de
  }

  ghost predicate ApartDown(c: Cpu) {
    forall k: bv16 :: Inside(k, c.bc) ==> Under(c.hl, k) != c.de
  }

  lemma UpIs(c: Cpu, c': Cpu)
    ensures CopiedUp(c, c') <==> Copied(c, c', true)
    ensures ApartUp(c) <==> StartsOutside(c, true)
  {
    hide InBlock, Inside, Offset, Above, Under;
    AllOffsets();
  }

  lemma DownIs(c: Cpu, c': Cpu)
    ensures CopiedDown(c, c') <==> Copied(c, c', false)
    ensures ApartDown(c) <==> StartsOutside(c, false)
  {
    hide InBlock, Inside, Offset, Above, Under;
    AllOffsets();
  }

  /** Which registers LDIR and LDDR change. A and the flags S, Z, C stay, and H, P, N are clear. */
  ghost predicate BlockDone(c: Cpu, c': Cpu, hl: bv16, de: bv16) {
    && c'.hl == hl && c'.de == de && c'.bc == 0 && c'.pc == c.pc + 2 && FlagsDone(c.af, c'.af)
    && c'.(af := c.af, bc := c.bc, de := c.de, hl := c.hl, pc := c.pc, mem := c.mem) == c
  }

  predicate FlagsDone(af: bv16, af': bv16) {
    af' & 0xffc1 == af & 0xffc1 && af' & 0x0016 == 0
  }

  /** What one move or several do to AF: P tells of more to come. */
  predicate FlagsMoved(af: bv16, af': bv16, more: bool) {
    af' & 0xffc1 == af & 0xffc1 && af' & 0x0012 == 0 && (af' & 0x0004 != 0 <==> more)
  }

  lemma MovedAf(af: bv16, v: bv8, more: bool)
    ensures FlagsMoved(af, Word(Hi(af), MovedFlags(Hi(af), Lo(af), v) | When(more, FLAG_P)), more)
  {
  }

  lemma FlagsOn(af: bv16, af1: bv16, af2: bv16, m1: bool, m2: bool)
    requires FlagsMoved(af, af1, m1) && FlagsMoved(af1, af2, m2)
    ensures FlagsMoved(af, af2, m2)
  {
  }

  lemma FlagsAtEnd(af: bv16, af': bv16)
    requires FlagsMoved(af, af', false)
    ensures FlagsDone(af, af')
  {
  }

  lemma {:induction false} FlagsAfter(c: Cpu, up: bool, n: bv32)
    requires n != 0
    ensures var c' := MoveTimes(c, up, n); FlagsMoved(c.af, c'.af, c'.bc != 0)
    decreases n
  {
    OneThenMore(c, up, n);
    hide MoveTimes, FlagsMoved, Put, Below, Stepped, Word, Hi, Lo, MovedFlags, When;
    MovedAf(c.af, Get(c.mem, c.hl), Below(c.bc) != 0);
    var c1 := MoveStep(c, up);
    if n != 1 {
      FlagsAfter(c1, up, n - 1);
      var c2 := MoveTimes(c1, up, n - 1);
      FlagsOn(c.af, c1.af, c2.af, c1.bc != 0, c2.bc != 0);
    }
  }

  lemma OneThenMore(c: Cpu, up: bool, n: bv32)
    requires n != 0
    ensures n == 1 ==> MoveTimes(c, up, n) == MoveStep(c, up)
    ensures n != 1 ==> MoveTimes(c, up, n) == MoveTimes(MoveStep(c, up), up, n - 1)
  {
    hide MoveStep;
  }

  lemma CountPositive(bc: bv16)
    ensures Count(bc) != 0
  {
  }

  lemma BlockLaw(c: Cpu, c': Cpu, up: bool)
    requires c' == MoveTimes(Behind(c), up, Count(c.bc))
    ensures BlockDone(c, c', Offset(c.hl, c.bc, up), Offset(c.de, c.bc, up))
    ensures StartsOutside(c, up) ==> Copied(c, c', up)
    ensures c.mem(c.hl) != c.mem(c.de) ==> (Copied(c, c', up) <==> StartsOutside(c, up))
  {
    hide MoveTimes, Count, InBlock, Offset, Behind, FlagsMoved, FlagsDone;
    BehindIs(c);
    BlockCopies(Behind(c), up);
    CountPositive(c.bc);
    FlagsAfter(Behind(c), up, Count(c.bc));
    FlagsAtEnd(c.af, c'.af);
  }

  /**
   * LDIR: the block arrives if the destination does not start strictly inside the source, counting addresses modulo
   * 2^16; with different bytes at the two pointers, only then. The pointers are left behind the blocks.
   */
  lemma LdirLaw(c: Cpu)
    requires c.mem(c.pc) == 0xed && c.mem(c.pc + 1) == 0xb0
    ensures StepOf(c).Ran? && BlockDone(c, StepOf(c).cpu, Above(c.hl, c.bc), Above(c.de, c.bc))
    ensures ApartUp(c) ==> CopiedUp(c, StepOf(c).cpu)
    ensures c.mem(c.hl) != c.mem(c.de) ==> (CopiedUp(c, StepOf(c).cpu) <==> ApartUp(c))
  {
    hide MoveTimes, Count, ExtendedPage, Offset, Above, Under, StepOf, Behind, BlockDone, CopiedUp, ApartUp, Copied,
         StartsOutside;
    Fetched(c, 0xb0);
    BehindCount(c);
    BlockOpcodes(Behind(c));
    BlockLaw(c, StepOf(c).cpu, true);
    UpIs(c, StepOf(c).cpu);
    AllOffsets();
  }

  /** LDDR likewise, counting down from the pointers. */
  lemma LddrLaw(c: Cpu)
    requires c.mem(c.pc) == 0xed && c.mem(c.pc + 1) == 0xb8
    ensures StepOf(c).Ran? && BlockDone(c, StepOf(c).cpu, Under(c.hl, c.bc), Under(c.de, c.bc))
    ensures ApartDown(c) ==> CopiedDown(c, StepOf(c).cpu)
    ensures c.mem(c.hl) != c.mem(c.de) ==> (CopiedDown(c, StepOf(c).cpu) <==> ApartDown(c))
  {
    hide MoveTimes, Count, ExtendedPage, Offset, Above, Under, StepOf, Behind, BlockDone, CopiedDown, ApartDown, Copied,
         StartsOutside;
    Fetched(c, 0xb8);
    BehindCount(c);
    BlockOpcodes(Behind(c));
    BlockLaw(c, StepOf(c).cpu, false);
    DownIs(c, StepOf(c).cpu);
    AllOffsets();
  }

  // ----- CPIR, CPDR -----

  /** The address one beyond the `n`-th in the direction of the search. */
  lemma {:induction false} SearchEnd(c: Cpu, up: bool) returns (n: nat)
    ensures n < Length(c.bc)
    ensures var c' := SearchUntil(c, up);
            && c'.hl == Ptr(c.hl, n + 1, up) && c'.bc == Ptr(c.bc, n + 1, false) && Hi(c'.af) == Hi(c.af)
            && c'.(af := c.af, bc := c.bc, hl := c.hl) == c
            && (c.mem(Ptr(c.hl, n, up)) == Hi(c.af) || n + 1 == Length(c.bc))
            && (c.mem(Ptr(c.hl, n, up)) == Hi(c.af) <==> c'.af & 0x40 != 0)
    ensures forall j: nat :: j < n ==> c.mem(Ptr(c.hl, j, up)) != Hi(c.af)
    decreases Count(c.bc)
  {
    hide Beside, Hi, Length, Count, SearchUntil, SearchStep, Num;
    var c1 := SearchStep(c, up);
    OneSearch(c, up);
    if LastSearch(c, up) {
      n := 0;
    } else {
      var m := SearchEnd(c1, up);
      n := m + 1;
      forall j: nat | j < n
        ensures c.mem(Ptr(c.hl, j, up)) != Hi(c.af)
      {
        if j > 0 {
          assert Ptr(c.hl, j, up) == Ptr(c1.hl, j - 1, up);
        }
      }
    }
  }

  lemma ZeroFlag(h: bv8, f: bv8)
    ensures Word(h, f) & 0x40 != 0 <==> f & 0x40 != 0
  {
  }

  lemma OnlyZero(a: bv8, v: bv8, f: bv8, more: bool)
    ensures SearchSign(a, v) & 0x40 == 0 && SearchHalf(a, v) & 0x40 == 0 && SearchThree(a, v) & 0x40 == 0
    ensures SearchFive(a, v) & 0x40 == 0 && When(more, FLAG_P) & 0x40 == 0 && Carry(f) & 0x40 == 0
    ensures SearchZero(a, v) & 0x40 != 0 <==> v == a
  {
  }

  lemma ZeroOfJoin(k: bv8, s: bv8, z: bv8, h: bv8, x3: bv8, x5: bv8, p: bv8)
    requires k & 0x40 == 0 && s & 0x40 == 0 && h & 0x40 == 0 && x3 & 0x40 == 0 && x5 & 0x40 == 0 && p & 0x40 == 0
    ensures JoinSearch(k, s, z, h, x3, x5, p) & 0x40 == z & 0x40
  {
  }

  /** Z tells whether the byte has been found. */
  lemma FoundFlag(a: bv8, f: bv8, v: bv8, more: bool)
    ensures Word(a, SearchFlags(a, f, v, more)) & 0x40 != 0 <==> v == a
  {
    hide SearchSign, SearchZero, SearchHalf, SearchThree, SearchFive, When, Carry, JoinSearch, Word;
    OnlyZero(a, v, f, more);
    ZeroOfJoin(Carry(f), SearchSign(a, v), SearchZero(a, v), SearchHalf(a, v), SearchThree(a, v), SearchFive(a, v),
               When(more, FLAG_P));
    ZeroFlag(a, SearchFlags(a, f, v, more));
  }

  lemma LengthNext(bc: bv16)
    ensures Below(bc) == 0 <==> Length(bc) == 1
    ensures Below(bc) != 0 ==> Length(bc) == 1 + Length(Below(bc))
  {
    NumZero();
    BelowIs(bc);
    NotZero(0xffff);
    if bc != 0 && Below(bc) != 0 {
      NotZero(Below(bc));
    }
    hide Num;
  }

  lemma CountNext(bc: bv16)
    ensures Below(bc) != 0 ==> Count(Below(bc)) < Count(bc)
  {
  }

  lemma OneSearch(c: Cpu, up: bool)
    ensures var c1 := SearchStep(c, up);
            && c1.hl == Beside(c.hl, up) && c1.bc == Beside(c.bc, false) && Hi(c1.af) == Hi(c.af)
            && c1.(af := c.af, bc := c.bc, hl := c.hl) == c
            && (c.mem(c.hl) == Hi(c.af) <==> c1.af & 0x40 != 0)
            && (c1.bc == 0 <==> Length(c.bc) == 1) && (c1.bc != 0 ==> Length(c.bc) == 1 + Length(c1.bc))
            && (c1.bc != 0 ==> Count(c1.bc) < Count(c.bc))
            && (LastSearch(c, up) <==> c1.bc == 0 || c.mem(c.hl) == Hi(c.af))
    ensures SearchUntil(c, up) == if LastSearch(c, up) then SearchStep(c, up) else SearchUntil(SearchStep(c, up), up)
  {
    UnrollSearch(c, up);
    LengthNext(c.bc);
    CountNext(c.bc);
    var v, f, more := c.mem(c.hl), Lo(c.af), Below(c.bc) != 0;
    FoundFlag(Hi(c.af), f, v, more);
    WordParts(Hi(c.af), SearchFlags(Hi(c.af), f, v, more));
    hide SearchUntil, Length, Count, SearchFlags, Word, Hi, Lo;
  }

  /**
   * The search has stopped behind offset `k`: the first byte equal to A in the direction of the search, or the last
   * byte of the block if there is none. Z tells which.
   */
  ghost predicate StoppedAt(c: Cpu, c': Cpu, k: bv16, up: bool) {
    && InBlock(k, c.bc)
    && c'.hl == Beside(Offset(c.hl, k, up), up) && c'.bc == Beside(Offset(c.bc, k, false), false)
    && (c.mem(Offset(c.hl, k, up)) == Hi(c.af) || c'.bc == 0)
    && (c.mem(Offset(c.hl, k, up)) == Hi(c.af) <==> c'.af & 0x40 != 0)
    && (forall j: bv16 :: Num(j) < Num(k) ==> c.mem(Offset(c.hl, j, up)) != Hi(c.af))
    && Hi(c'.af) == Hi(c.af) && c'.(af := c.af, bc := c.bc, hl := c.hl) == c
  }

  lemma SearchStops(c: Cpu, up: bool) returns (k: bv16)
    ensures StoppedAt(c, SearchUntil(c, up), k, up)
  {
    hide Beside, Hi, Count, SearchUntil, Num, Ptr, Offset, Length;
    var n := SearchEnd(c, up);
    LengthBound(c.bc);
    k := OffsetOf(n);
    OffsetOfPtr(c.hl, n, k, up);
    OffsetOfPtr(c.bc, n, k, false);
    PtrNext(c.hl, n, up);
    PtrNext(c.bc, n, false);
    if n + 1 == Length(c.bc) {
      BehindBlock(c.bc, c.bc, false);
      Exhausted(c.bc);
    }
    forall j: bv16 | Num(j) < Num(k)
      ensures c.mem(Offset(c.hl, j, up)) != Hi(c.af)
    {
      PtrIs(c.hl, j, up);
    }
  }

  /** CPIR, upwards from HL. */
  lemma CpirLaw(c: Cpu) returns (k: bv16)
    requires c.mem(c.pc) == 0xed && c.mem(c.pc + 1) == 0xb1
    ensures StepOf(c).Ran?
    ensures var c' := StepOf(c).cpu;
            && c'.hl == Above(Above(c.hl, k), 1) && c'.bc == Under(Under(c.bc, k), 1) && c'.pc == c.pc + 2
                && InBlock(k, c.bc)
            && (c.mem(Above(c.hl, k)) == Hi(c.af) <==> c'.af & 0x40 != 0)
            && (c.mem(Above(c.hl, k)) == Hi(c.af) || c'.bc == 0)
            && c'.(af := c.af, bc := c.bc, hl := c.hl, pc := c.pc) == c && Hi(c'.af) == Hi(c.af)
    ensures forall j: bv16 :: Num(j) < Num(k) ==> c.mem(Above(c.hl, j)) != Hi(c.af)
  {
    hide SearchUntil, ExtendedPage, Offset, Above, Under, StepOf, Behind, Beside, Hi, Num, InBlock;
    Fetched(c, 0xb1);
    BehindIs(c);
    BlockOpcodes(Behind(c));
    k := SearchStops(Behind(c), true);
    AllOffsets();
    AllBesides();
  }

  /** CPDR, downwards from HL. */
  lemma CpdrLaw(c: Cpu) returns (k: bv16)
    requires c.mem(c.pc) == 0xed && c.mem(c.pc + 1) == 0xb9
    ensures StepOf(c).Ran?
    ensures var c' := StepOf(c).cpu;
            && c'.hl == Under(Under(c.hl, k), 1) && c'.bc == Under(Under(c.bc, k), 1) && c'.pc == c.pc + 2
                && InBlock(k, c.bc)
            && (c.mem(Under(c.hl, k)) == Hi(c.af) <==> c'.af & 0x40 != 0)
            && (c.mem(Under(c.hl, k)) == Hi(c.af) || c'.bc == 0)
            && c'.(af := c.af, bc := c.bc, hl := c.hl, pc := c.pc) == c && Hi(c'.af) == Hi(c.af)
    ensures forall j: bv16 :: Num(j) < Num(k) ==> c.mem(Under(c.hl, j)) != Hi(c.af)
  {
    hide SearchUntil, ExtendedPage, Offset, Above, Under, StepOf, Behind, Beside, Hi, Num, InBlock;
    Fetched(c, 0xb9);
    BehindIs(c);
    BlockOpcodes(Behind(c));
    k := SearchStops(Behind(c), false);
    AllOffsets();
    AllBesides();
  }

  lemma Besides(w: bv16)
    ensures Beside(w, true) == Above(w, 1) && Beside(w, false) == Under(w, 1)
  {
  }

  lemma AllBesides()
    ensures forall w: bv16 :: Beside(w, true) == Above(w, 1) && Beside(w, false) == Under(w, 1)
  {
    hide Beside, Above, Under;
    forall w: bv16
      ensures Beside(w, true) == Above(w, 1) && Beside(w, false) == Under(w, 1)
    {
      Besides(w);
    }
  }
}
