/** The packed block allocation bitmap: bit `b % 32` of word `b / 32` stands for block `b`. */
module AllocVector {
  import opened Bits

  const INTBITS := 32

  type word = w: nat | w < 0x1_0000_0000

  lemma WordRange()
    ensures Pow2(INTBITS) == 0x1_0000_0000
  {
    Pow2Add(16, 16);
    Pow2Add(8, 8);
    assert Pow2(8) == 0x100;
  }

  /** Is block `b` marked as allocated? */
  function InUse(alv: seq<word>, b: nat): bool
    requires b < INTBITS * |alv|
  {
    TestBit(alv[b / INTBITS], b % INTBITS)
  }

  function MarkWord(w: word, j: nat): word
    requires j < INTBITS
  {
    WordRange();
    SetBitFits(w, j, INTBITS);
    SetBit(w, j)
  }

  function Mark(alv: seq<word>, b: nat): seq<word>
    requires b < INTBITS * |alv|
  {
    alv[b / INTBITS := MarkWord(alv[b / INTBITS], b % INTBITS)]
  }

  /** Marking a block changes the bit of that block only. */
  lemma MarkOne(alv: seq<word>, b: nat)
    requires b < INTBITS * |alv|
    ensures forall c: nat :: c < INTBITS * |alv| ==> InUse(Mark(alv, b), c) == (InUse(alv, c) || c == b)
  {
    forall c: nat | c < INTBITS * |alv|
      ensures InUse(Mark(alv, b), c) == (InUse(alv, c) || c == b)
    {
      TestSetBit(alv[b / INTBITS], b % INTBITS, c % INTBITS);
    }
  }
}
