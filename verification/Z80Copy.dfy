/** What LDIR and LDDR amount to: a copy of the block, unless the destination starts inside the source. */
module Z80Copy {
  import opened Z80Cpu

  // ----- Counting in bit vectors -----

  /** The number a 16-bit word stands for. */
  function Num(w: bv16): nat
    decreases w
  {
    if w == 0 then 0 else 1 + Num(w - 1)
  }

  /** The number of addresses. */
  function Addresses(): nat {
    Num(0xffff) + 1
  }

  lemma NumNext(w: bv16)
    requires w != 0xffff
    ensures Num(w + 1) == Num(w) + 1
  {
  }

  lemma {:induction false} NumBound(w: bv16)
    ensures Num(w) < Addresses()
    decreases !w
  {
    if w != 0xffff {
      NumNext(w);
      Complement(w);
      NumBound(w + 1);
    }
  }

  lemma Complement(w: bv16)
    requires w != 0xffff
    ensures !(w + 1) < !w
  {
  }

  // ----- Addresses -----

  /** One address on, or back. */
  function Beside(w: bv16, up: bool): bv16 {
    if up then w + 1 else w - 1
  }

  /** The address `k` steps on, or back. */
  function Ptr(w: bv16, k: nat, up: bool): bv16
    decreases k
  {
    if k == 0 then w else Ptr(Beside(w, up), k - 1, up)
  }

  lemma {:induction false} PtrNext(w: bv16, k: nat, up: bool)
    ensures Ptr(w, k + 1, up) == Beside(Ptr(w, k, up), up)
    decreases k
  {
    hide Beside;
    if k > 0 {
      PtrNext(Beside(w, up), k - 1, up);
    }
  }

  function Offset(w: bv16, k: bv16, up: bool): bv16 {
    if up then w + k else w - k
  }

  lemma OnByOne(w: bv16, k: bv16)
    ensures Offset(w + 1, k - 1, true) == w + k
  {
  }

  lemma BackByOne(w: bv16, k: bv16)
    ensures Offset(w - 1, k - 1, false) == w - k
  {
  }

  lemma OffsetUp(w: bv16, k: bv16)
    ensures Offset(w, k, true) == w + k
  {
  }

  lemma OffsetDown(w: bv16, k: bv16)
    ensures Offset(w, k, false) == w - k
  {
  }

  lemma OffsetZero(w: bv16, up: bool)
    ensures Offset(w, 0, up) == w
  {
  }

  lemma BesideIs(w: bv16)
    ensures Beside(w, true) == w + 1 && Beside(w, false) == w - 1
  {
  }

  lemma BelowIs(k: bv16)
    ensures Below(k) == k - 1 && (k != 0 ==> Num(k) == 1 + Num(Below(k)) && Below(k) < k)
  {
  }

  lemma OffsetNext(w: bv16, k: bv16, up: bool)
    ensures Offset(Beside(w, up), Below(k), up) == Offset(w, k, up)
  {
    hide *;
    BesideIs(w);
    BelowIs(k);
    OffsetUp(w, k);
    OffsetDown(w, k);
    OnByOne(w, k);
    BackByOne(w, k);
  }

  lemma NumZero()
    ensures Num(0) == 0
  {
  }

  /** The offset as a word: just what is added or subtracted. */
  lemma {:induction false} PtrIs(w: bv16, k: bv16, up: bool)
    ensures Ptr(w, Num(k), up) == Offset(w, k, up)
    decreases k
  {
    hide Num, Offset, Beside, Below;
    OffsetZero(w, up);
    NumZero();
    if k != 0 {
      BelowIs(k);
      PtrIs(Beside(w, up), Below(k), up);
      OffsetNext(w, k, up);
    }
  }

  /** The pointer advances by one each time, and starts over behind the last address. */
  lemma {:induction false} NumPtr(w: bv16, k: nat)
    requires k < Addresses()
    ensures Num(Ptr(w, k, true)) == if Num(w) + k < Addresses() then Num(w) + k else Num(w) + k - Addresses()
    decreases k
  {
    NumBound(w);
    if k > 0 {
      if w == 0xffff {
        assert w + 1 == 0;
      } else {
        NumNext(w);
      }
      NumPtr(w + 1, k - 1);
    }
  }

  lemma BackAndForth(w: bv16, up: bool)
    ensures Beside(Beside(w, up), !up) == w
  {
  }

  lemma {:induction false} Return(w: bv16, k: nat, up: bool)
    ensures Ptr(Ptr(w, k, up), k, !up) == w
    decreases k
  {
    if k > 0 {
      PtrNext(w, k - 1, up);
      BackAndForth(Ptr(w, k - 1, up), up);
      hide Beside;
      Return(w, k - 1, up);
    }
  }

  lemma NoReturn(w: bv16, k: nat, up: bool)
    requires 0 < k < Addresses()
    ensures Ptr(w, k, up) != w
  {
    NumPtr(w, k);
    NumBound(w);
    hide Num, Ptr;
    Return(w, k, up);
  }

  // ----- Many moves -----

  /** LDI or LDD, `n` times. */
  function Moves(c: Cpu, n: nat, up: bool): Cpu
    decreases n
  {
    if n == 0 then c else Moves(MoveStep(c, up), n - 1, up)
  }

  lemma {:induction false} MovesAdd(c: Cpu, j: nat, k: nat, up: bool)
    ensures Moves(Moves(c, j, up), k, up) == Moves(c, j + k, up)
    decreases j
  {
    hide MoveStep;
    if j > 0 {
      MovesAdd(MoveStep(c, up), j - 1, k, up);
    }
  }

  /** One move: the pointers step, the byte arrives, nothing else changes. */
  lemma OneMove(c: Cpu, up: bool)
    ensures var c1 := MoveStep(c, up);
            && c1.hl == Beside(c.hl, up) && c1.de == Beside(c.de, up) && c1.bc == Beside(c.bc, false) && Rest(c1, c)
            && c1.mem(c.de) == c.mem(c.hl) && forall a: bv16 :: a != c.de ==> c1.mem(a) == c.mem(a)
  {
    hide Hi, Lo, Word, MovedFlags, When;
  }

  /** What block transfers leave alone. */
  ghost predicate Rest(c': Cpu, c: Cpu) {
    c'.(af := c.af, bc := c.bc, de := c.de, hl := c.hl, mem := c.mem) == c
  }

  lemma {:induction false} Pointers(c: Cpu, n: nat, up: bool)
    ensures Moves(c, n, up).hl == Ptr(c.hl, n, up) && Moves(c, n, up).de == Ptr(c.de, n, up)
    ensures Moves(c, n, up).bc == Ptr(c.bc, n, false) && Rest(Moves(c, n, up), c)
    decreases n
  {
    hide MoveStep, Beside;
    if n > 0 {
      OneMove(c, up);
      Pointers(MoveStep(c, up), n - 1, up);
    }
  }

  /** `a` is none of the `n` addresses from `w` on. */
  ghost predicate Avoids(a: bv16, w: bv16, n: nat, up: bool) {
    forall k: nat :: k < n ==> a != Ptr(w, k, up)
  }

  lemma AvoidsNext(a: bv16, w: bv16, n: nat, up: bool)
    requires n > 0 && Avoids(a, w, n, up)
    ensures a != w && Avoids(a, Beside(w, up), n - 1, up)
  {
    hide Beside;
    var v := Beside(w, up);
    assert Ptr(w, 0, up) == w;
    forall k: nat | k < n - 1
      ensures a != Ptr(v, k, up)
    {
      assert Ptr(w, k + 1, up) == Ptr(v, k, up);
    }
  }

  lemma StartAvoided(w: bv16, n: nat, up: bool)
    requires 0 < n <= Addresses()
    ensures Avoids(w, Beside(w, up), n - 1, up)
  {
    hide Beside, Num;
    var v := Beside(w, up);
    forall k: nat | k < n - 1
      ensures w != Ptr(v, k, up)
    {
      assert Ptr(w, k + 1, up) == Ptr(v, k, up);
      NoReturn(w, k + 1, up);
    }
  }

  /** A byte that none of the moves writes keeps its value. */
  lemma {:induction false} OtherByte(c: Cpu, n: nat, a: bv16, up: bool)
    requires Avoids(a, c.de, n, up)
    ensures Moves(c, n, up).mem(a) == c.mem(a)
    decreases n
  {
    hide MoveStep, Beside;
    if n > 0 {
      OneMove(c, up);
      AvoidsNext(a, c.de, n, up);
      OtherByte(MoveStep(c, up), n - 1, a, up);
    }
  }

  /** The reading pointer does not reach the start of the destination in its first `k` steps. */
  ghost predicate Clear(hl: bv16, de: bv16, k: nat, up: bool) {
    forall j: nat :: 0 < j <= k ==> Ptr(hl, j, up) != de
  }

  lemma ClearNext(hl: bv16, de: bv16, k: nat, up: bool)
    requires k > 0 && Clear(hl, de, k, up)
    ensures Clear(Beside(hl, up), Beside(de, up), k - 1, up)
  {
    hide Beside;
    var next := Beside(hl, up);
    forall j: nat | 0 < j <= k - 1
      ensures Ptr(next, j, up) != Beside(de, up)
    {
      PtrNext(hl, j, up);
      assert Ptr(hl, j + 1, up) == Ptr(next, j, up);
      SameBeside(Ptr(hl, j, up), de, up);
    }
  }

  lemma SameBeside(v: bv16, w: bv16, up: bool)
    requires v != w
    ensures Beside(v, up) != Beside(w, up)
  {
  }

  /** As long as the reading pointer has not met the destination, bytes arrive as they were at the start. */
  lemma {:induction false} MovedByte(c: Cpu, n: nat, k: nat, up: bool)
    requires k < n <= Addresses() && Clear(c.hl, c.de, k, up)
    ensures Moves(c, n, up).mem(Ptr(c.de, k, up)) == c.mem(Ptr(c.hl, k, up))
    decreases n
  {
    hide MoveStep, Beside, Num;
    OneMove(c, up);
    var c1 := MoveStep(c, up);
    if k == 0 {
      StartAvoided(c.de, n, up);
      OtherByte(c1, n - 1, c.de, up);
    } else {
      ClearNext(c.hl, c.de, k, up);
      MovedByte(c1, n - 1, k - 1, up);
      assert Ptr(c.hl, k, up) != c.de;
    }
  }

  /** The destination does not start strictly inside the source. */
  ghost predicate Copyable(c: Cpu, n: nat, up: bool) {
    forall j: nat :: 0 < j < n ==> Ptr(c.hl, j, up) != c.de
  }

  /** The block has arrived and nothing else has changed. */
  ghost predicate IsCopy(c: Cpu, c': Cpu, n: nat, up: bool) {
    && (forall k: nat :: k < n ==> c'.mem(Ptr(c.de, k, up)) == c.mem(Ptr(c.hl, k, up)))
    && (forall a: bv16 :: Avoids(a, c.de, n, up) ==> c'.mem(a) == c.mem(a))
  }

  lemma CopiesBlock(c: Cpu, n: nat, up: bool)
    requires n <= Addresses() && Copyable(c, n, up)
    ensures IsCopy(c, Moves(c, n, up), n, up)
  {
    hide Moves, Num;
    forall k: nat | k < n
      ensures Moves(c, n, up).mem(Ptr(c.de, k, up)) == c.mem(Ptr(c.hl, k, up))
    {
      MovedByte(c, n, k, up);
    }
    forall a: bv16 | Avoids(a, c.de, n, up)
      ensures Moves(c, n, up).mem(a) == c.mem(a)
    {
      OtherByte(c, n, a, up);
    }
  }

  /** Otherwise the first byte of the source comes round again where the source meets the destination. */
  lemma FirstByteAgain(c: Cpu, n: nat, j: nat, up: bool)
    requires 0 < j < n <= Addresses() && Ptr(c.hl, j, up) == c.de && Clear(c.hl, c.de, j - 1, up)
    ensures Moves(c, n, up).mem(Ptr(c.de, j, up)) == c.mem(c.hl)
  {
    hide Moves, Num, Beside;
    var c2 := Moves(c, j, up);
    MovesAdd(c, j, n - j, up);
    Pointers(c, j, up);
    MovedByte(c, j, 0, up);
    MovedByte(c2, n - j, 0, up);
    assert Ptr(c.de, 0, up) == c.de && Ptr(c.hl, 0, up) == c.hl && Ptr(c2.de, 0, up) == c2.de
           && Ptr(c2.hl, 0, up) == c2.hl;
  }

  /** So with different bytes at the two pointers the result is a copy exactly when the condition holds. */
  lemma CopyIff(c: Cpu, n: nat, up: bool)
    requires n <= Addresses() && c.mem(c.hl) != c.mem(c.de)
    ensures IsCopy(c, Moves(c, n, up), n, up) <==> Copyable(c, n, up)
  {
    hide Moves, Num;
    if Copyable(c, n, up) {
      CopiesBlock(c, n, up);
    } else {
      var j := FirstMeeting(c, n, up);
      FirstByteAgain(c, n, j, up);
    }
  }

  lemma FirstMeeting(c: Cpu, n: nat, up: bool) returns (j: nat)
    requires !Copyable(c, n, up)
    ensures 0 < j < n && Ptr(c.hl, j, up) == c.de && Clear(c.hl, c.de, j - 1, up)
  {
    var m: nat :| 0 < m < n && Ptr(c.hl, m, up) == c.de;
    j := 1;
    while Ptr(c.hl, j, up) != c.de
      invariant 0 < j <= m && Clear(c.hl, c.de, j - 1, up)
      decreases m - j
    {
      j := j + 1;
    }
  }

  // ----- The count register -----

  /** The number of bytes LDIR and LDDR move. */
  function Length(bc: bv16): nat {
    if bc == 0 then Addresses() else Num(bc)
  }

  lemma {:induction false} TimesIsMoves(c: Cpu, w: bv16, up: bool)
    ensures MoveTimes(c, up, Wide16(w)) == Moves(c, Num(w), up)
    decreases w
  {
    hide Wide16, MoveStep, MoveTimes, Moves, Num, Below;
    CountDown(c, w, up);
    if w != 0 {
      BelowIs(w);
      TimesIsMoves(MoveStep(c, up), Below(w), up);
    }
  }

  /** Both counts go down by one. */
  lemma CountDown(c: Cpu, w: bv16, up: bool)
    ensures w == 0 ==> MoveTimes(c, up, Wide16(w)) == c == Moves(c, Num(w), up)
    ensures w != 0 ==> MoveTimes(c, up, Wide16(w)) == MoveTimes(MoveStep(c, up), up, Wide16(Below(w)))
    ensures w != 0 ==> Moves(c, Num(w), up) == Moves(MoveStep(c, up), Num(Below(w)), up)
  {
    hide MoveStep, Wide16;
    WideLess(w);
  }

  lemma WideLess(w: bv16)
    ensures w == 0 <==> Wide16(w) == 0
    ensures w != 0 ==> Wide16(w) - 1 == Wide16(Below(w))
  {
  }

  /** As many moves as the count says; 0 counts as all addresses. */
  lemma BlockMoves(c: Cpu, up: bool)
    ensures MoveTimes(c, up, Count(c.bc)) == Moves(c, Length(c.bc), up) && Length(c.bc) <= Addresses()
  {
    hide MoveStep, MoveTimes, Moves, Num;
    if c.bc == 0 {
      FullCount(c, up);
      TimesIsMoves(MoveStep(c, up), 0xffff, up);
    } else {
      TimesIsMoves(c, c.bc, up);
      NumBound(c.bc);
    }
  }

  lemma FullCount(c: Cpu, up: bool)
    ensures MoveTimes(c, up, 0x10000) == MoveTimes(MoveStep(c, up), up, Wide16(0xffff))
    ensures Moves(c, Addresses(), up) == Moves(MoveStep(c, up), Num(0xffff), up)
  {
    hide MoveStep, Num;
  }

  /** Behind the whole block, from any start: the count as a word. */
  lemma BehindBlock(w: bv16, bc: bv16, up: bool)
    ensures Ptr(w, Length(bc), up) == Offset(w, bc, up)
  {
    hide Num, Ptr, Offset, Beside;
    PtrIs(w, bc, up);
    if bc == 0 {
      PtrIs(w, 0xffff, up);
      PtrNext(w, Num(0xffff), up);
      OffsetZero(w, up);
      LastOffset(w, up);
    }
  }

  lemma LastOffset(w: bv16, up: bool)
    ensures Beside(Offset(w, 0xffff, up), up) == w
  {
  }

  // ----- The instructions -----

  /** The offsets of the bytes in the block. */
  predicate InBlock(k: bv16, bc: bv16) {
    Num(k) < Length(bc)
  }

  /** Every step has an offset. */
  lemma OffsetOf(k: nat) returns (o: bv16)
    requires k < Addresses()
    ensures Num(o) == k
  {
    o := Ptr(0, k, true);
    NumPtr(0, k);
  }

  /** The offsets from 1 on, in which the destination must not start. */
  predicate Inside(k: bv16, bc: bv16) {
    k != 0 && InBlock(k, bc)
  }

  /** What has been written where, and nowhere else. */
  ghost predicate Copied(c: Cpu, c': Cpu, up: bool) {
    && (forall k: bv16 :: InBlock(k, c.bc) ==> c'.mem(Offset(c.de, k, up)) == c.mem(Offset(c.hl, k, up)))
    && (forall a: bv16 :: (forall k: bv16 :: InBlock(k, c.bc) ==> a != Offset(c.de, k, up)) ==> c'.mem(a) == c.mem(a))
  }

  ghost predicate StartsOutside(c: Cpu, up: bool) {
    forall k: bv16 :: Inside(k, c.bc) ==> Offset(c.hl, k, up) != c.de
  }

  lemma OffsetOfPtr(w: bv16, j: nat, o: bv16, up: bool)
    requires Num(o) == j
    ensures Ptr(w, j, up) == Offset(w, o, up)
  {
    hide Num, Ptr, Offset;
    PtrIs(w, o, up);
  }

  lemma LengthBound(bc: bv16)
    ensures Length(bc) <= Addresses()
  {
    NumBound(bc);
  }

  lemma OutsideIsCopyable(c: Cpu, up: bool)
    ensures StartsOutside(c, up) <==> Copyable(c, Length(c.bc), up)
  {
    hide Num, Ptr, Offset, Length, Addresses;
    LengthBound(c.bc);
    NumZero();
    if StartsOutside(c, up) {
      forall j: nat | 0 < j < Length(c.bc)
        ensures Ptr(c.hl, j, up) != c.de
      {
        var o := OffsetOf(j);
        OffsetOfPtr(c.hl, j, o, up);
        assert Inside(o, c.bc);
      }
    }
    if Copyable(c, Length(c.bc), up) {
      forall k: bv16 | Inside(k, c.bc)
        ensures Offset(c.hl, k, up) != c.de
      {
        NotZero(k);
        PtrIs(c.hl, k, up);
      }
    }
  }

  lemma NotZero(k: bv16)
    requires k != 0
    ensures Num(k) > 0
  {
  }

  lemma CopiedIsCopy(c: Cpu, c': Cpu, up: bool)
    ensures Copied(c, c', up) <==> IsCopy(c, c', Length(c.bc), up)
  {
    hide Num, Ptr, Offset, Length, Addresses;
    LengthBound(c.bc);
    if Copied(c, c', up) {
      forall j: nat | j < Length(c.bc)
        ensures c'.mem(Ptr(c.de, j, up)) == c.mem(Ptr(c.hl, j, up))
      {
        var o := OffsetOf(j);
        OffsetOfPtr(c.hl, j, o, up);
        OffsetOfPtr(c.de, j, o, up);
        assert InBlock(o, c.bc);
      }
      forall a: bv16 | Avoids(a, c.de, Length(c.bc), up)
        ensures c'.mem(a) == c.mem(a)
      {
        forall k: bv16 | InBlock(k, c.bc)
          ensures a != Offset(c.de, k, up)
        {
          PtrIs(c.de, k, up);
        }
      }
    }
    if IsCopy(c, c', Length(c.bc), up) {
      forall k: bv16 | InBlock(k, c.bc)
        ensures c'.mem(Offset(c.de, k, up)) == c.mem(Offset(c.hl, k, up))
      {
        PtrIs(c.hl, k, up);
        PtrIs(c.de, k, up);
      }
      forall a: bv16 | forall k: bv16 :: InBlock(k, c.bc) ==> a != Offset(c.de, k, up)
        ensures c'.mem(a) == c.mem(a)
      {
        AvoidsOffsets(c.de, c.bc, a, up);
      }
    }
  }

  lemma AvoidsOffsets(w: bv16, bc: bv16, a: bv16, up: bool)
    requires forall k: bv16 :: InBlock(k, bc) ==> a != Offset(w, k, up)
    ensures Avoids(a, w, Length(bc), up)
  {
    hide Num, Ptr, Offset, Length, Addresses;
    LengthBound(bc);
    forall j: nat | j < Length(bc)
      ensures a != Ptr(w, j, up)
    {
      var o := OffsetOf(j);
      OffsetOfPtr(w, j, o, up);
      assert InBlock(o, bc);
    }
  }

  lemma Exhausted(bc: bv16)
    ensures Offset(bc, bc, false) == 0
  {
  }

  lemma BlockCopies(c: Cpu, up: bool)
    ensures var c' := MoveTimes(c, up, Count(c.bc));
            && c'.hl == Offset(c.hl, c.bc, up) && c'.de == Offset(c.de, c.bc, up) && c'.bc == 0 && Rest(c', c)
            && (StartsOutside(c, up) ==> Copied(c, c', up))
            && (c.mem(c.hl) != c.mem(c.de) ==> (Copied(c, c', up) <==> StartsOutside(c, up)))
  {
    hide MoveTimes, Moves, Count, Length, IsCopy, Copyable, Copied, StartsOutside, Addresses, Offset, Ptr;
    BlockMoves(c, up);
    var n := Length(c.bc);
    var c' := Moves(c, n, up);
    Pointers(c, n, up);
    BehindBlock(c.hl, c.bc, up);
    BehindBlock(c.de, c.bc, up);
    BehindBlock(c.bc, c.bc, false);
    Exhausted(c.bc);
    OutsideIsCopyable(c, up);
    CopiedIsCopy(c, c', up);
    if Copyable(c, n, up) {
      CopiesBlock(c, n, up);
    }
    if c.mem(c.hl) != c.mem(c.de) {
      CopyIff(c, n, up);
    }
  }

  /** With a count of 0 all addresses are in the block; otherwise as many as it says. */
  lemma InBlockIs(k: bv16, bc: bv16)
    ensures InBlock(k, bc) <==> bc == 0 || Num(k) < Num(bc)
  {
    NumBound(k);
  }
}
