/** Decimal arithmetic on byte strings: ADC or SBC and then DAA, byte by byte, with the carry threaded through. */
module Z80Bcd {
  import opened Z80Cpu
  import opened Z80Flags

  // ----- Digits -----

  /** The number a small byte stands for. */
  function Num(d: bv8): nat
    decreases d
  {
    if d == 0 then 0 else 1 + Num(d - 1)
  }

  function Less(d: bv8): bv8 {
    d - 1
  }

  function Plus(d: bv8, e: bv8): bv8 {
    d + e
  }

  /** Too small to make a sum of two wrap around. */
  predicate Small(d: bv8) {
    d & 0xc0 == 0
  }

  lemma NumLess(d: bv8)
    requires d != 0
    ensures Num(d) == 1 + Num(Less(d))
  {
  }

  lemma SmallLess(d: bv8)
    requires Small(d) && d != 0
    ensures Small(Less(d))
  {
  }

  lemma LessIsLess(d: bv8)
    requires d != 0
    ensures Less(d) < d
  {
  }

  lemma NumZero()
    ensures Num(0) == 0
  {
  }

  lemma PlusZero(d: bv8)
    ensures Plus(d, 0) == d
  {
  }

  lemma PlusLess(d: bv8, e: bv8)
    ensures Less(Plus(d, e)) == Plus(d, Less(e))
  {
  }

  lemma PlusNotZero(d: bv8, e: bv8)
    requires d & 0x80 == 0 && Small(e) && e != 0
    ensures Plus(d, e) != 0
  {
  }

  lemma {:induction false} NumPlus(d: bv8, e: bv8)
    requires d & 0x80 == 0 && Small(e)
    ensures Num(Plus(d, e)) == Num(d) + Num(e)
    decreases e
  {
    hide *;
    NumZero();
    PlusZero(d);
    if e != 0 {
      SmallLess(e);
      LessIsLess(e);
      PlusNotZero(d, e);
      PlusLess(d, e);
      NumLess(e);
      NumLess(Plus(d, e));
      NumPlus(d, Less(e));
    }
  }

  lemma {:induction false} NumInjective(d: bv8, e: bv8)
    requires Num(d) == Num(e)
    ensures d == e
    decreases d
  {
    hide *;
    NumZero();
    if d != 0 {
      NumLess(d);
    }
    if e != 0 {
      NumLess(e);
    }
    if d != 0 && e != 0 {
      LessIsLess(d);
      NumInjective(Less(d), Less(e));
      SameLess(d, e);
    }
  }

  lemma SameLess(d: bv8, e: bv8)
    requires Less(d) == Less(e)
    ensures d == e
  {
  }

  function Units(b: bv8): bv8 {
    b & 15
  }

  function Tens(b: bv8): bv8 {
    b >> 4
  }

  /** Two decimal digits in a byte. */
  predicate IsBcd(b: bv8) {
    Units(b) <= 9 && Tens(b) <= 9
  }

  /** The number that two decimal digits stand for. */
  function Value(b: bv8): nat {
    10 * Num(Tens(b)) + Num(Units(b))
  }

  lemma Ten()
    ensures Num(9) == 9 && Num(10) == 10 && Num(1) == 1 && Num(0) == 0
  {
    assert Num(5) == 5;
  }

  lemma DigitBound(d: bv8)
    requires d <= 9
    ensures Num(d) <= 9
  {
    hide *;
    Ten();
    NineLess(d);
    NumPlus(d, NineMinus(d));
  }

  function NineMinus(d: bv8): bv8 {
    9 - d
  }

  lemma NineLess(d: bv8)
    requires d <= 9
    ensures Plus(d, NineMinus(d)) == 9 && d & 0x80 == 0 && Small(NineMinus(d))
  {
  }

  lemma ValueBound(b: bv8)
    requires IsBcd(b)
    ensures Value(b) < 100
  {
    hide Num, Units, Tens;
    DigitBound(Units(b));
    DigitBound(Tens(b));
  }

  lemma ValueInjective(a: bv8, b: bv8)
    requires IsBcd(a) && IsBcd(b) && Value(a) == Value(b)
    ensures a == b
  {
    hide Num, Units, Tens;
    DigitBound(Units(a));
    DigitBound(Units(b));
    NumInjective(Units(a), Units(b));
    NumInjective(Tens(a), Tens(b));
    SameDigits(a, b);
  }

  lemma SameDigits(a: bv8, b: bv8)
    requires Units(a) == Units(b) && Tens(a) == Tens(b)
    ensures a == b
  {
  }

  // ----- One byte -----

  /** The corrections of DAA: six for the low digit, sixty hexadecimal for the high one. */
  function Adjustment(h: bool, k: bool): bv8 {
    When(h, 6) | When(k, 0x60)
  }

  function Raised(s: bv8, d: bv8): bv8 {
    s + d
  }

  function Lowered(s: bv8, d: bv8): bv8 {
    s - d
  }

  predicate LowCorrected(s: bv8, h: bool) {
    h || s & 15 > 9
  }

  predicate HighCorrected(s: bv8, k: bool) {
    k || s > 0x99
  }

  predicate HalfCarries(a: bv8, b: bv8, c: bv8) {
    (a & 15) + (b & 15) + c > 15
  }

  predicate Carries8(a: bv8, b: bv8, c: bv8) {
    (a as bv16) + (b as bv16) + (c as bv16) > 0xff
  }

  predicate HalfBorrows(a: bv8, b: bv8, c: bv8) {
    a & 15 < (b & 15) + c
  }

  predicate Borrows8(a: bv8, b: bv8, c: bv8) {
    (a as bv16) < (b as bv16) + (c as bv16)
  }

  /** The carry between the digits of a sum, and out of it. */
  predicate AddHalf(a: bv8, b: bv8, c: bv8) {
    LowCorrected(AddByte(a, b, c), HalfCarries(a, b, c))
  }

  predicate AddCarry(a: bv8, b: bv8, c: bv8) {
    HighCorrected(AddByte(a, b, c), Carries8(a, b, c))
  }

  function DecimalSum(a: bv8, b: bv8, c: bv8): bv8 {
    Raised(AddByte(a, b, c), Adjustment(AddHalf(a, b, c), AddCarry(a, b, c)))
  }

  lemma SumUnits(a: bv8, b: bv8, c: bv8)
    requires IsBcd(a) && IsBcd(b) && c <= 1
    ensures Plus(Units(DecimalSum(a, b, c)), When(AddHalf(a, b, c), 10)) == Plus(Plus(Units(a), Units(b)), c)
  {
  }

  lemma SumTens(a: bv8, b: bv8, c: bv8)
    requires IsBcd(a) && IsBcd(b) && c <= 1
    ensures Plus(Tens(DecimalSum(a, b, c)), When(AddCarry(a, b, c), 10))
            == Plus(Plus(Tens(a), Tens(b)), When(AddHalf(a, b, c), 1))
  {
  }

  lemma SumBcd(a: bv8, b: bv8, c: bv8)
    requires IsBcd(a) && IsBcd(b) && c <= 1
    ensures IsBcd(DecimalSum(a, b, c))
  {
  }

  /** The borrow between the digits of a difference, and out of it. */
  predicate SubHalf(a: bv8, b: bv8, c: bv8) {
    LowCorrected(SubByte(a, b, c), HalfBorrows(a, b, c))
  }

  predicate SubBorrow(a: bv8, b: bv8, c: bv8) {
    HighCorrected(SubByte(a, b, c), Borrows8(a, b, c))
  }

  function DecimalDiff(a: bv8, b: bv8, c: bv8): bv8 {
    Lowered(SubByte(a, b, c), Adjustment(SubHalf(a, b, c), SubBorrow(a, b, c)))
  }

  lemma DiffUnits(a: bv8, b: bv8, c: bv8)
    requires IsBcd(a) && IsBcd(b) && c <= 1
    ensures Plus(Plus(Units(DecimalDiff(a, b, c)), Units(b)), c) == Plus(Units(a), When(SubHalf(a, b, c), 10))
  {
  }

  lemma DiffTens(a: bv8, b: bv8, c: bv8)
    requires IsBcd(a) && IsBcd(b) && c <= 1
    ensures Plus(Plus(Tens(DecimalDiff(a, b, c)), Tens(b)), When(SubHalf(a, b, c), 1))
            == Plus(Tens(a), When(SubBorrow(a, b, c), 10))
  {
  }

  lemma DiffBcd(a: bv8, b: bv8, c: bv8)
    requires IsBcd(a) && IsBcd(b) && c <= 1
    ensures IsBcd(DecimalDiff(a, b, c))
  {
  }

  // ----- One byte, in numbers -----

  function Bit(k: bool): nat {
    if k then 1 else 0
  }

  lemma NumWhen(k: bool)
    ensures Num(When(k, 10)) == 10 * Bit(k) && Num(When(k, 1)) == Bit(k)
  {
    hide Num;
    Ten();
  }

  predicate Digit(d: bv8) {
    d <= 9
  }

  /** One digit less ten or a carry. */
  predicate TenOrLess(d: bv8) {
    d <= 10
  }

  lemma TwoDigits(d: bv8, e: bv8)
    requires Digit(d) && TenOrLess(e)
    ensures Num(Plus(d, e)) == Num(d) + Num(e)
  {
    DigitsAreSmall(d, e);
    hide *;
    NumPlus(d, e);
  }

  lemma DigitsAreSmall(d: bv8, e: bv8)
    requires Digit(d) && TenOrLess(e)
    ensures d & 0x80 == 0 && Small(e)
  {
  }

  lemma ThreeAreSmall(d: bv8, e: bv8, f: bv8)
    requires Digit(d) && Digit(e) && TenOrLess(f)
    ensures Plus(d, e) & 0x80 == 0 && Small(f)
  {
  }

  lemma ThreeDigits(d: bv8, e: bv8, f: bv8)
    requires Digit(d) && Digit(e) && TenOrLess(f)
    ensures Num(Plus(Plus(d, e), f)) == Num(d) + Num(e) + Num(f)
  {
    ThreeAreSmall(d, e, f);
    DigitsAreSmall(d, e);
    hide *;
    NumPlus(Plus(d, e), f);
    NumPlus(d, e);
  }

  lemma Digits(b: bv8)
    requires IsBcd(b)
    ensures Digit(Units(b)) && TenOrLess(Units(b)) && Digit(Tens(b)) && TenOrLess(Tens(b))
  {
  }

  lemma WhenIsSmall(k: bool)
    ensures TenOrLess(When(k, 10)) && TenOrLess(When(k, 1)) && When(k, 1) <= 1
  {
  }

  /** The sum of two decimal bytes and a carry, and the carry out of it. */
  lemma ByteSum(a: bv8, b: bv8, k: bool)
    requires IsBcd(a) && IsBcd(b)
    ensures var c := When(k, 1); var r := DecimalSum(a, b, c);
            IsBcd(r) && Value(r) + 100 * Bit(AddCarry(a, b, c)) == Value(a) + Value(b) + Bit(k)
  {
    hide Num, IsBcd, Units, Tens, Plus, When, Bit, DecimalSum, AddHalf, AddCarry;
    WhenIsSmall(k);
    var c := When(k, 1);
    var r, h, k' := DecimalSum(a, b, c), AddHalf(a, b, c), AddCarry(a, b, c);
    SumBcd(a, b, c);
    SumUnits(a, b, c);
    SumTens(a, b, c);
    Digits(a);
    Digits(b);
    Digits(r);
    WhenIsSmall(h);
    WhenIsSmall(k');
    NumWhen(k);
    NumWhen(h);
    NumWhen(k');
    TwoDigits(Units(r), When(h, 10));
    ThreeDigits(Units(a), Units(b), c);
    TwoDigits(Tens(r), When(k', 10));
    ThreeDigits(Tens(a), Tens(b), When(h, 1));
  }

  /** The difference of two decimal bytes and a borrow, and the borrow out of it. */
  lemma ByteDiff(a: bv8, b: bv8, k: bool)
    requires IsBcd(a) && IsBcd(b)
    ensures var c := When(k, 1); var r := DecimalDiff(a, b, c);
            IsBcd(r) && Value(r) + Value(b) + Bit(k) == Value(a) + 100 * Bit(SubBorrow(a, b, c))
  {
    hide Num, IsBcd, Units, Tens, Plus, When, Bit, DecimalDiff, SubHalf, SubBorrow;
    WhenIsSmall(k);
    var c := When(k, 1);
    var r, h, k' := DecimalDiff(a, b, c), SubHalf(a, b, c), SubBorrow(a, b, c);
    DiffBcd(a, b, c);
    DiffUnits(a, b, c);
    DiffTens(a, b, c);
    Digits(a);
    Digits(b);
    Digits(r);
    WhenIsSmall(h);
    WhenIsSmall(k');
    NumWhen(k);
    NumWhen(h);
    NumWhen(k');
    ThreeDigits(Units(r), Units(b), c);
    TwoDigits(Units(a), When(h, 10));
    ThreeDigits(Tens(r), Tens(b), When(h, 1));
    TwoDigits(Tens(a), When(k', 10));
  }

  // ----- The two instructions -----

  predicate CarrySet(af: bv16) {
    Carry(Lo(af)) != 0
  }

  lemma CarryBit(af: bv16)
    ensures Carry(Lo(af)) == When(CarrySet(af), 1)
  {
  }

  lemma AddHalfFlag(a: bv8, b: bv8, c: bv8)
    ensures AddFlags(a, b, c) & FLAG_H == When(HalfCarries(a, b, c), FLAG_H)
  {
  }

  lemma AddCarryFlag(a: bv8, b: bv8, c: bv8)
    ensures AddFlags(a, b, c) & FLAG_C == When(Carries8(a, b, c), FLAG_C)
  {
  }

  lemma AddNoN(a: bv8, b: bv8, c: bv8)
    ensures AddFlags(a, b, c) & FLAG_N == 0
  {
  }

  lemma SubHalfFlag(a: bv8, b: bv8, c: bv8)
    ensures SubFlags(a, b, c) & FLAG_H == When(HalfBorrows(a, b, c), FLAG_H)
  {
  }

  lemma SubCarryFlag(a: bv8, b: bv8, c: bv8)
    ensures SubFlags(a, b, c) & FLAG_C == When(Borrows8(a, b, c), FLAG_C)
  {
  }

  lemma SubN(a: bv8, b: bv8, c: bv8)
    ensures SubFlags(a, b, c) & FLAG_N != 0
  {
  }

  /** The half carry and the carry, with N clear after a sum and set after a difference. */
  predicate FlagsAre(f: bv8, n: bool, h: bool, k: bool) {
    (f & FLAG_N != 0) == n && f & FLAG_H == When(h, FLAG_H) && f & FLAG_C == When(k, FLAG_C)
  }

  lemma DaaByteIs(s: bv8, f: bv8, n: bool, h: bool, k: bool)
    requires FlagsAre(f, n, h, k)
    ensures var d := Adjustment(LowCorrected(s, h), HighCorrected(s, k));
            DaaByte(s, f) == if n then Lowered(s, d) else Raised(s, d)
  {
  }

  lemma DaaCarryIs(s: bv8, f: bv8, n: bool, h: bool, k: bool)
    requires FlagsAre(f, n, h, k)
    ensures DaaC(s, f) == When(HighCorrected(s, k), 1)
  {
  }

  lemma NoCarryBits(r: bv8, a: bv8, f: bv8)
    ensures SignZero(r) & 1 == 0 && Parity(r) & 1 == 0 && DaaHN(a, f) & 1 == 0 && DaaC(a, f) & 1 == DaaC(a, f)
  {
  }

  lemma OnlyCarry(s: bv8, p: bv8, hn: bv8, c: bv8)
    requires s & 1 == 0 && p & 1 == 0 && hn & 1 == 0 && c & 1 == c
    ensures Carry(s | p | hn | c) == c
  {
  }

  lemma DaaParts(af: bv16)
    ensures Hi(Daa(af)) == DaaByte(Hi(af), Lo(af)) && Carry(Lo(Daa(af))) == DaaC(Hi(af), Lo(af))
  {
    hide Hi, Lo, Word, DaaByte, SignZero, Parity, DaaHN, DaaC, Carry;
    var a, f := Hi(af), Lo(af);
    var r := DaaByte(a, f);
    WordParts(r, SignZero(r) | Parity(r) | DaaHN(a, f) | DaaC(a, f));
    NoCarryBits(r, a, f);
    OnlyCarry(SignZero(r), Parity(r), DaaHN(a, f), DaaC(a, f));
  }

  /** ADC A,b and DAA. */
  function AdcDaa(af: bv16, b: bv8): bv16 {
    Daa(Alu(1, af, b))
  }

  /** SBC A,b and DAA. */
  function SbcDaa(af: bv16, b: bv8): bv16 {
    Daa(Alu(3, af, b))
  }

  lemma AdcParts(af: bv16, b: bv8)
    ensures var a, c := Hi(af), Carry(Lo(af));
            Hi(Alu(1, af, b)) == AddByte(a, b, c) && Lo(Alu(1, af, b)) == AddFlags(a, b, c)
  {
    hide Hi, Lo, Word, AddFlags, AddByte, Carry;
    WordParts(AddByte(Hi(af), b, Carry(Lo(af))), AddFlags(Hi(af), b, Carry(Lo(af))));
  }

  lemma SbcParts(af: bv16, b: bv8)
    ensures var a, c := Hi(af), Carry(Lo(af));
            Hi(Alu(3, af, b)) == SubByte(a, b, c) && Lo(Alu(3, af, b)) == SubFlags(a, b, c)
  {
    hide Hi, Lo, Word, SubFlags, SubByte, Carry;
    WordParts(SubByte(Hi(af), b, Carry(Lo(af))), SubFlags(Hi(af), b, Carry(Lo(af))));
  }

  lemma SumFlags(a: bv8, b: bv8, c: bv8)
    ensures FlagsAre(AddFlags(a, b, c), false, HalfCarries(a, b, c), Carries8(a, b, c))
  {
    hide AddFlags, HalfCarries, Carries8, When;
    AddNoN(a, b, c);
    AddHalfFlag(a, b, c);
    AddCarryFlag(a, b, c);
  }

  lemma DiffFlags(a: bv8, b: bv8, c: bv8)
    ensures FlagsAre(SubFlags(a, b, c), true, HalfBorrows(a, b, c), Borrows8(a, b, c))
  {
    hide SubFlags, HalfBorrows, Borrows8, When;
    SubN(a, b, c);
    SubHalfFlag(a, b, c);
    SubCarryFlag(a, b, c);
  }

  lemma CarryFromWhen(af: bv16, k: bool)
    requires Carry(Lo(af)) == When(k, 1)
    ensures CarrySet(af) == k
  {
    hide Lo, Carry;
  }

  /** ADC and DAA add decimal bytes, with the carry flag as the carry in and out. */
  lemma AdcDaaAdds(af: bv16, b: bv8)
    requires IsBcd(Hi(af)) && IsBcd(b)
    ensures var r := AdcDaa(af, b);
            IsBcd(Hi(r)) && Value(Hi(r)) + 100 * Bit(CarrySet(r)) == Value(Hi(af)) + Value(b) + Bit(CarrySet(af))
  {
    hide Hi, Lo, IsBcd, Value, Bit, CarrySet, AddFlags, Alu, Daa, DaaByte, DaaC, AddByte, Raised, Lowered,
         LowCorrected, HighCorrected, HalfCarries,
         Carries8, Adjustment, FlagsAre, Carry, When;
    var a, c := Hi(af), Carry(Lo(af));
    CarryBit(af);
    AdcParts(af, b);
    DaaParts(Alu(1, af, b));
    SumFlags(a, b, c);
    DaaByteIs(AddByte(a, b, c), AddFlags(a, b, c), false, HalfCarries(a, b, c), Carries8(a, b, c));
    DaaCarryIs(AddByte(a, b, c), AddFlags(a, b, c), false, HalfCarries(a, b, c), Carries8(a, b, c));
    CarryFromWhen(AdcDaa(af, b), AddCarry(a, b, c));
    ByteSum(a, b, CarrySet(af));
  }

  /** SBC and DAA subtract decimal bytes, with the carry flag as the borrow in and out. */
  lemma SbcDaaSubtracts(af: bv16, b: bv8)
    requires IsBcd(Hi(af)) && IsBcd(b)
    ensures var r := SbcDaa(af, b);
            IsBcd(Hi(r)) && Value(Hi(r)) + Value(b) + Bit(CarrySet(af)) == Value(Hi(af)) + 100 * Bit(CarrySet(r))
  {
    hide Hi, Lo, IsBcd, Value, Bit, CarrySet, SubFlags, Alu, Daa, DaaByte, DaaC, SubByte, Raised, Lowered,
         LowCorrected, HighCorrected, HalfBorrows,
         Borrows8, Adjustment, FlagsAre, Carry, When;
    var a, c := Hi(af), Carry(Lo(af));
    CarryBit(af);
    SbcParts(af, b);
    DaaParts(Alu(3, af, b));
    DiffFlags(a, b, c);
    DaaByteIs(SubByte(a, b, c), SubFlags(a, b, c), true, HalfBorrows(a, b, c), Borrows8(a, b, c));
    DaaCarryIs(SubByte(a, b, c), SubFlags(a, b, c), true, HalfBorrows(a, b, c), Borrows8(a, b, c));
    CarryFromWhen(SbcDaa(af, b), SubBorrow(a, b, c));
    ByteDiff(a, b, CarrySet(af));
  }
}
