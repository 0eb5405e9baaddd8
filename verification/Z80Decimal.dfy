/** Decimal numbers of any length: ADC or SBC and then DAA, byte by byte, with the carry threaded through. */
module Z80Decimal {
  import opened Z80Cpu
  import opened Z80Flags
  import opened Z80Alu
  import opened Z80
  import opened Z80Bcd

  predicate AllBcd(s: seq<bv8>) {
    forall i :: 0 <= i < |s| ==> IsBcd(s[i])
  }

  /** 100 to the power of `n` */
  function Hundreds(n: nat): nat {
    if n == 0 then 1 else 100 * Hundreds(n - 1)
  }

  /** The number that the digits stand for, the lowest byte first. */
  function Number(s: seq<bv8>): nat {
    if s == [] then 0 else Value(s[0]) + 100 * Number(s[1..])
  }

  lemma {:induction false} NumberBound(s: seq<bv8>)
    requires AllBcd(s)
    ensures Number(s) < Hundreds(|s|)
  {
    hide IsBcd, Value;
    if s != [] {
      ValueBound(s[0]);
      NumberBound(s[1..]);
    }
  }

  lemma {:induction false} NumberInjective(s: seq<bv8>, t: seq<bv8>)
    requires AllBcd(s) && AllBcd(t) && |s| == |t| && Number(s) == Number(t)
    ensures s == t
  {
    hide IsBcd, Value;
    if s != [] {
      ValueBound(s[0]);
      ValueBound(t[0]);
      ValueInjective(s[0], t[0]);
      NumberInjective(s[1..], t[1..]);
      assert s == [s[0]] + s[1..] && t == [t[0]] + t[1..];
    }
  }

  lemma {:induction false} NumberAppend(s: seq<bv8>, b: bv8)
    ensures Number(s + [b]) == Number(s) + Hundreds(|s|) * Value(b)
  {
    hide Value;
    if s != [] {
      assert (s + [b])[1..] == s[1..] + [b];
      NumberAppend(s[1..], b);
      Times(Hundreds(|s| - 1), Value(b));
    } else {
      assert [b][1..] == [];
    }
  }

  lemma Times(p: nat, v: nat)
    ensures 100 * (p * v) == (100 * p) * v
  {
  }

  // ----- Sums and differences -----

  /** `r` are the digits of x + y plus the carry `k`, and `k'` tells whether there was one more place. */
  ghost predicate IsSum(x: seq<bv8>, y: seq<bv8>, k: bool, r: seq<bv8>, k': bool) {
    && |r| == |x| && AllBcd(r)
    && Number(r) + Hundreds(|x|) * Bit(k') == Number(x) + Number(y) + Bit(k)
  }

  /** `r` are the digits of x - y less the borrow `k`; with a borrow `k'` they are its ten's complement. */
  ghost predicate IsDifference(x: seq<bv8>, y: seq<bv8>, k: bool, r: seq<bv8>, k': bool) {
    && |r| == |x| && AllBcd(r)
    && Number(r) + Number(y) + Bit(k) == Number(x) + Hundreds(|x|) * Bit(k')
  }

  lemma SumNext(x: seq<bv8>, y: seq<bv8>, k: bool, r: seq<bv8>, k': bool, a: bv8, b: bv8, d: bv8, k'': bool)
    requires |x| == |y| && IsSum(x, y, k, r, k') && IsBcd(d)
    requires Value(d) + 100 * Bit(k'') == Value(a) + Value(b) + Bit(k')
    ensures IsSum(x + [a], y + [b], k, r + [d], k'')
  {
    hide IsBcd, Value, Bit;
    NumberAppend(x, a);
    NumberAppend(y, b);
    NumberAppend(r, d);
    var p := Hundreds(|x|);
    Weigh(p, Value(d), Bit(k''), Value(a), Value(b), Bit(k'));
  }

  lemma Weigh(p: nat, d: nat, k'': nat, a: nat, b: nat, k': nat)
    requires d + 100 * k'' == a + b + k'
    ensures p * d + 100 * p * k'' == p * a + p * b + p * k'
  {
    assert p * (d + 100 * k'') == p * (a + b + k');
  }

  lemma DifferenceNext(x: seq<bv8>, y: seq<bv8>, k: bool, r: seq<bv8>, k': bool, a: bv8, b: bv8, d: bv8, k'': bool)
    requires |x| == |y| && IsDifference(x, y, k, r, k') && IsBcd(d)
    requires Value(d) + Value(b) + Bit(k') == Value(a) + 100 * Bit(k'')
    ensures IsDifference(x + [a], y + [b], k, r + [d], k'')
  {
    hide IsBcd, Value, Bit;
    NumberAppend(x, a);
    NumberAppend(y, b);
    NumberAppend(r, d);
    var p := Hundreds(|x|);
    Weigh(p, Value(a), Bit(k''), Value(d), Value(b), Bit(k'));
  }

  // ----- On the host registers -----

  /** LD A,a; ADC A,b; DAA */
  function AddByteDecimal(AF: word32, a: bv8, b: bv8): word32 {
    AccumulatorResult(4, AluResult(1, Sethreg(AF, Wide(a)), Wide(b)))
  }

  /** LD A,a; SBC A,b; DAA */
  function SubByteDecimal(AF: word32, a: bv8, b: bv8): word32 {
    AccumulatorResult(4, AluResult(3, Sethreg(AF, Wide(a)), Wide(b)))
  }

  lemma LoadA(AF: word32, a: bv8)
    ensures var af := Low(Sethreg(AF, Wide(a)));
            Hi(af) == a && CarrySet(af) == CarrySet(Low(AF))
  {
    hide Low, Hi, Lo, Word, Wide, Byte, Carry, Sethreg;
    SethregIs(AF, Wide(a));
    ByteWide(a);
    WordParts(a, Lo(Low(AF)));
  }

  lemma AddByteDecimalIs(AF: word32, a: bv8, b: bv8)
    requires IsBcd(a) && IsBcd(b)
    ensures var r := Low(AddByteDecimal(AF, a, b));
            IsBcd(Hi(r)) && Value(Hi(r)) + 100 * Bit(CarrySet(r)) == Value(a) + Value(b) + Bit(CarrySet(Low(AF)))
  {
    hide Low, Hi, Wide, Sethreg, AluResult, Alu, AccumulatorResult, Accumulator, Daa, IsBcd, Value, Bit, CarrySet;
    var AF' := Sethreg(AF, Wide(a));
    LoadA(AF, a);
    AluIs(1, AF', b);
    AccumulatorIs(4, AluResult(1, AF', Wide(b)));
    DaaIsFour(Alu(1, Low(AF'), b));
    AdcDaaAdds(Low(AF'), b);
  }

  lemma SubByteDecimalIs(AF: word32, a: bv8, b: bv8)
    requires IsBcd(a) && IsBcd(b)
    ensures var r := Low(SubByteDecimal(AF, a, b));
            IsBcd(Hi(r)) && Value(Hi(r)) + Value(b) + Bit(CarrySet(Low(AF))) == Value(a) + 100 * Bit(CarrySet(r))
  {
    hide Low, Hi, Wide, Sethreg, AluResult, Alu, AccumulatorResult, Accumulator, Daa, IsBcd, Value, Bit, CarrySet;
    var AF' := Sethreg(AF, Wide(a));
    LoadA(AF, a);
    AluIs(3, AF', b);
    AccumulatorIs(4, AluResult(3, AF', Wide(b)));
    DaaIsFour(Alu(3, Low(AF'), b));
    SbcDaaSubtracts(Low(AF'), b);
  }

  /** Adds two decimal numbers with the instructions of the simulator, the lowest byte first. */
  method AddDecimal(AF: word32, x: seq<bv8>, y: seq<bv8>) returns (AF': word32, r: seq<bv8>)
    requires |x| == |y| && AllBcd(x) && AllBcd(y)
    ensures IsSum(x, y, CarrySet(Low(AF)), r, CarrySet(Low(AF')))
  {
    hide Low, Hi, IsBcd, CarrySet, IsSum, AddByteDecimal, Value, Bit;
    AF', r := AF, [];
    NoDigits(CarrySet(Low(AF)));
    for i := 0 to |x|
      invariant IsSum(x[..i], y[..i], CarrySet(Low(AF)), r, CarrySet(Low(AF')))
    {
      AddByteDecimalIs(AF', x[i], y[i]);
      ghost var k := CarrySet(Low(AF'));
      AF' := AddByteDecimal(AF', x[i], y[i]);
      SumNext(x[..i], y[..i], CarrySet(Low(AF)), r, k, x[i], y[i], Hi(Low(AF')), CarrySet(Low(AF')));
      assert x[..i + 1] == x[..i] + [x[i]] && y[..i + 1] == y[..i] + [y[i]];
      r := r + [Hi(Low(AF'))];
    }
    assert x[..|x|] == x && y[..|x|] == y;
  }

  /** Subtracts a decimal number in the same way. */
  method SubtractDecimal(AF: word32, x: seq<bv8>, y: seq<bv8>) returns (AF': word32, r: seq<bv8>)
    requires |x| == |y| && AllBcd(x) && AllBcd(y)
    ensures IsDifference(x, y, CarrySet(Low(AF)), r, CarrySet(Low(AF')))
  {
    hide Low, Hi, IsBcd, CarrySet, IsDifference, SubByteDecimal, Value, Bit;
    AF', r := AF, [];
    NoDigits(CarrySet(Low(AF)));
    for i := 0 to |x|
      invariant IsDifference(x[..i], y[..i], CarrySet(Low(AF)), r, CarrySet(Low(AF')))
    {
      SubByteDecimalIs(AF', x[i], y[i]);
      ghost var k := CarrySet(Low(AF'));
      AF' := SubByteDecimal(AF', x[i], y[i]);
      DifferenceNext(x[..i], y[..i], CarrySet(Low(AF)), r, k, x[i], y[i], Hi(Low(AF')), CarrySet(Low(AF')));
      assert x[..i + 1] == x[..i] + [x[i]] && y[..i + 1] == y[..i] + [y[i]];
      r := r + [Hi(Low(AF'))];
    }
    assert x[..|x|] == x && y[..|x|] == y;
  }

  lemma NoDigits(k: bool)
    ensures IsSum([], [], k, [], k) && IsDifference([], [], k, [], k)
  {
  }

  // ----- What sums and differences mean -----

  /** There is a carry exactly if the sum needs another place; the digits are the sum without it. */
  lemma SumModulo(x: seq<bv8>, y: seq<bv8>, k: bool, r: seq<bv8>, k': bool)
    requires |x| == |y| && IsSum(x, y, k, r, k')
    ensures var total, p := Number(x) + Number(y) + Bit(k), Hundreds(|x|);
            (k' <==> total >= p) && Number(r) == if k' then total - p else total
  {
    hide Number, Hundreds, IsBcd;
    NumberBound(r);
  }

  /**
   * There is a borrow exactly if the subtrahend, with the borrow in, is the larger number; the digits are the ten's
   * complement then.
   */
  lemma DifferenceModulo(x: seq<bv8>, y: seq<bv8>, k: bool, r: seq<bv8>, k': bool)
    requires |x| == |y| && AllBcd(x) && AllBcd(y) && IsDifference(x, y, k, r, k')
    ensures var total, p := Number(x) - Number(y) - Bit(k), Hundreds(|x|);
            (k' <==> total < 0) && Number(r) == if k' then total + p else total
  {
    NumberBound(r);
    NumberBound(x);
    NumberBound(y);
  }

  /**
   * Subtracting what has been added, with the same carry in, gives the number back, and a borrow where there was a
   * carry.
   */
  lemma SubtractionUndoesAddition(x: seq<bv8>, y: seq<bv8>, k: bool, r: seq<bv8>, k': bool, s: seq<bv8>, k'': bool)
    requires |x| == |y| && AllBcd(x) && AllBcd(y)
    requires IsSum(x, y, k, r, k') && IsDifference(r, y, k, s, k'')
    ensures s == x && k'' == k'
  {
    NumberBound(x);
    NumberBound(s);
    NumberInjective(s, x);
  }
}
