/** Single bits of machine words. Words are natural numbers below a power of two. */
module Bits {

  function Pow2(j: nat): (p: nat)
    ensures p > 0
  {
    if j == 0 then 1 else 2 * Pow2(j - 1)
  }

  lemma {:induction false} Pow2Add(a: nat, b: nat)
    ensures Pow2(a + b) == Pow2(a) * Pow2(b)
  {
    if a > 0 {
      Pow2Add(a - 1, b);
    }
  }

  /** Bit `j` of `w`, counted from the least significant end: (w >> j) & 1. */
  function TestBit(w: nat, j: nat): bool {
    if j == 0 then w % 2 == 1 else TestBit(w / 2, j - 1)
  }

  /** w | (1 << j) */
  function SetBit(w: nat, j: nat): nat {
    if TestBit(w, j) then w else w + Pow2(j)
  }

  /** w & ~(1 << j) */
  function ClearBit(w: nat, j: nat): int {
    if TestBit(w, j) then w - Pow2(j) else w
  }

  lemma {:induction false} TestSetBit(w: nat, j: nat, k: nat)
    ensures TestBit(SetBit(w, j), k) <==> TestBit(w, k) || j == k
  {
    if !TestBit(w, j) && j > 0 {
      assert SetBit(w, j) / 2 == SetBit(w / 2, j - 1) && SetBit(w, j) % 2 == w % 2;
      if k > 0 {
        TestSetBit(w / 2, j - 1, k - 1);
      }
    } else if j == 0 && !TestBit(w, 0) {
      assert (w + 1) / 2 == w / 2;
    }
  }

  lemma {:induction false} ClearBitNat(w: nat, j: nat)
    ensures ClearBit(w, j) >= 0
  {
    if j > 0 {
      ClearBitNat(w / 2, j - 1);
    }
  }

  lemma {:induction false} TestClearBit(w: nat, j: nat, k: nat)
    ensures ClearBit(w, j) >= 0
    ensures TestBit(ClearBit(w, j), k) <==> TestBit(w, k) && j != k
  {
    ClearBitNat(w, j);
    if TestBit(w, j) && j > 0 {
      ClearBitNat(w / 2, j - 1);
      assert ClearBit(w, j) / 2 == ClearBit(w / 2, j - 1) && ClearBit(w, j) % 2 == w % 2;
      if k > 0 {
        TestClearBit(w / 2, j - 1, k - 1);
      }
    } else if j == 0 && TestBit(w, 0) {
      assert (w - 1) / 2 == w / 2;
    }
  }

  /** Setting a bit inside the word does not overflow the word. */
  lemma {:induction false} SetBitFits(w: nat, j: nat, n: nat)
    requires w < Pow2(n) && j < n
    ensures SetBit(w, j) < Pow2(n)
  {
    if j > 0 && !TestBit(w, j) {
      SetBitFits(w / 2, j - 1, n - 1);
      assert SetBit(w, j) == 2 * SetBit(w / 2, j - 1) + w % 2;
    }
  }

  lemma {:induction false} ZeroHasNoBits(k: nat)
    ensures !TestBit(0, k)
  {
    if k > 0 {
      ZeroHasNoBits(k - 1);
    }
  }

  /** Words with the same bits are equal. */
  lemma {:induction false} BitsDetermineWord(v: nat, w: nat, n: nat)
    requires v < Pow2(n) && w < Pow2(n)
    requires forall k :: 0 <= k < n ==> TestBit(v, k) == TestBit(w, k)
    ensures v == w
  {
    if n > 0 {
      assert TestBit(v, 0) == TestBit(w, 0);
      forall k | 0 <= k < n - 1
        ensures TestBit(v / 2, k) == TestBit(w / 2, k)
      {
        assert TestBit(v, k + 1) == TestBit(w, k + 1);
      }
      BitsDetermineWord(v / 2, w / 2, n - 1);
    }
  }
}
