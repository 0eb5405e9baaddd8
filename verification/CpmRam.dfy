/** cpmalloc and cpmfree: a first-fit allocator for the CP/M RAM between the BIOS and the disk parameter table. */
module CpmRam {
  import opened Arithmetic
  import opened Bits
  import opened Geometry

  // ----- The bitmap, most significant bit first -----

  function Used(alv: seq<byte>, k: nat): bool
    requires k < 8 * |alv|
  {
    TestBit(alv[k / 8], 7 - k % 8)
  }

  lemma ByteBits()
    ensures Pow2(8) == 0x100
  {
    Pow2Add(4, 4);
    assert Pow2(4) == 16;
  }

  /** alv[k >> 3] | (0x80 >> (k & 7)) */
  function SetAt(alv: seq<byte>, k: nat): seq<byte>
    requires k < 8 * |alv|
  {
    ByteBits();
    SetBitFits(alv[k / 8], 7 - k % 8, 8);
    alv[k / 8 := SetBit(alv[k / 8], 7 - k % 8)]
  }

  function ClearAt(alv: seq<byte>, k: nat): seq<byte>
    requires k < 8 * |alv|
  {
    ClearBitNat(alv[k / 8], 7 - k % 8);
    alv[k / 8 := ClearBit(alv[k / 8], 7 - k % 8)]
  }

  lemma SetAtUsed(alv: seq<byte>, k: nat)
    requires k < 8 * |alv|
    ensures |SetAt(alv, k)| == |alv|
    ensures forall m: nat :: m < 8 * |alv| ==> Used(SetAt(alv, k), m) == (Used(alv, m) || m == k)
  {
    hide TestBit, SetBit;
    forall m: nat | m < 8 * |alv|
      ensures Used(SetAt(alv, k), m) == (Used(alv, m) || m == k)
    {
      TestSetBit(alv[k / 8], 7 - k % 8, 7 - m % 8);
    }
  }

  lemma ClearAtUsed(alv: seq<byte>, k: nat)
    requires k < 8 * |alv|
    ensures |ClearAt(alv, k)| == |alv|
    ensures forall m: nat :: m < 8 * |alv| ==> Used(ClearAt(alv, k), m) == (Used(alv, m) && m != k)
  {
    hide TestBit, ClearBit;
    forall m: nat | m < 8 * |alv|
      ensures Used(ClearAt(alv, k), m) == (Used(alv, m) && m != k)
    {
      TestClearBit(alv[k / 8], 7 - k % 8, 7 - m % 8);
    }
  }

  /** The bits determine the bytes. */
  lemma SameBitmap(a: seq<byte>, b: seq<byte>)
    requires |a| == |b| && forall k: nat :: k < 8 * |a| ==> Used(a, k) == Used(b, k)
    ensures a == b
  {
    hide TestBit;
    forall i | 0 <= i < |a|
      ensures a[i] == b[i]
    {
      forall j | 0 <= j < 8
        ensures TestBit(a[i], j) == TestBit(b[i], j)
      {
        assert Used(a, 8 * i + 7 - j) == Used(b, 8 * i + 7 - j);
      }
      ByteBits();
      BitsDetermineWord(a[i], b[i], 8);
    }
  }

  /** Exactly the bits lo..lo+n-1 have been added. */
  ghost predicate IsMarked(a: seq<byte>, b: seq<byte>, lo: nat, n: nat) {
    |b| == |a| && forall k: nat :: k < 8 * |a| ==> Used(b, k) == (Used(a, k) || lo <= k < lo + n)
  }

  /** Exactly the bits lo..lo+n-1 have been taken away. */
  ghost predicate IsCleared(a: seq<byte>, b: seq<byte>, lo: nat, n: nat) {
    |b| == |a| && forall k: nat :: k < 8 * |a| ==> Used(b, k) == (Used(a, k) && !(lo <= k < lo + n))
  }

  /** Freeing a region gives back, bit for bit, the bitmap from before its allocation. */
  lemma FreeRestores(a: seq<byte>, b: seq<byte>, c: seq<byte>, lo: nat, n: nat)
    requires IsMarked(a, b, lo, n) && IsCleared(b, c, lo, n)
    requires forall k: nat :: lo <= k < lo + n && k < 8 * |a| ==> !Used(a, k)
    ensures c == a
  {
    hide Used;
    SameBitmap(c, a);
  }

  method MarkRange(alv: array<byte>, lo: nat, n: nat)
    requires lo + n <= 8 * alv.Length
    modifies alv
    ensures IsMarked(old(alv[..]), alv[..], lo, n)
  {
    hide Used, SetAt;
    var p, len := lo, n;
    while len > 0
      invariant p + len == lo + n && IsMarked(old(alv[..]), alv[..], lo, n - len)
    {
      SetAtUsed(alv[..], p);
      ghost var before := alv[..];
      SetBitAt(alv, p);
      p := p + 1;
      len := len - 1;
    }
  }

  method SetBitAt(alv: array<byte>, p: nat)
    requires p < 8 * alv.Length
    modifies alv
    ensures alv[..] == SetAt(old(alv[..]), p)
  {
    ByteBits();
    SetBitFits(alv[p / 8], 7 - p % 8, 8);
    alv[p / 8] := SetBit(alv[p / 8], 7 - p % 8);
  }

  method ClearRange(alv: array<byte>, lo: nat, n: nat)
    requires lo + n <= 8 * alv.Length
    modifies alv
    ensures IsCleared(old(alv[..]), alv[..], lo, n)
  {
    hide Used, ClearAt;
    var p, len := lo, n;
    while len > 0
      invariant p + len == lo + n && IsCleared(old(alv[..]), alv[..], lo, n - len)
    {
      ClearAtUsed(alv[..], p);
      ClearBitAt(alv, p);
      p := p + 1;
      len := len - 1;
    }
  }

  method ClearBitAt(alv: array<byte>, p: nat)
    requires p < 8 * alv.Length
    modifies alv
    ensures alv[..] == ClearAt(old(alv[..]), p)
  {
    ClearBitNat(alv[p / 8], 7 - p % 8);
    alv[p / 8] := ClearBit(alv[p / 8], 7 - p % 8);
  }

  // ----- The allocator -----

  /** Bytes adr..adr+len-1 of the CP/M address space. */
  datatype Region = Region(adr: nat, len: nat)
  {
    predicate Has(x: nat) {
      adr <= x < adr + len
    }
  }

  /** The limits of the pool: behind the BIOS, below the disk parameter table. */
  datatype Pool = Pool(biosTop: nat, dptable: nat)
  {
    ghost predicate Holds(alv: seq<byte>) {
      0 < biosTop <= dptable < 0x1_0000 && |alv| == (dptable - biosTop + 7) / 8
    }

    function Taken(alv: seq<byte>, x: nat): bool
      requires Holds(alv) && biosTop <= x < dptable
    {
      Used(alv, x - biosTop)
    }

    /** No byte of the region is in use, and it ends before the last byte below the table. */
    ghost predicate Fits(alv: seq<byte>, adr: nat, len: nat)
      requires Holds(alv)
    {
      biosTop <= adr && adr + len < dptable && forall x: nat :: adr <= x < adr + len ==> !Taken(alv, x)
    }

    ghost predicate Contains(r: Region) {
      r.len > 0 && biosTop <= r.adr && r.adr + r.len < dptable
    }

    /** The live regions are disjoint, and the bitmap is exactly their union. */
    ghost predicate Accounts(alv: seq<byte>, live: seq<Region>)
      requires Holds(alv)
    {
      && (forall i :: 0 <= i < |live| ==> Contains(live[i]))
      && (forall i, k, x: nat :: 0 <= i < k < |live| ==> !(live[i].Has(x) && live[k].Has(x)))
      && (forall x: nat :: biosTop <= x < dptable ==>
                           (Taken(alv, x) <==> exists i :: 0 <= i < |live| && live[i].Has(x)))
    }
  }

  lemma AllocAccounts(pool: Pool, a: seq<byte>, b: seq<byte>, live: seq<Region>, adr: nat, len: nat)
    requires pool.Holds(a) && pool.Accounts(a, live) && len > 0 && pool.Fits(a, adr, len)
    requires IsMarked(a, b, adr - pool.biosTop, len)
    ensures pool.Accounts(b, live + [Region(adr, len)])
  {
    hide Used;
    var live' := live + [Region(adr, len)];
    assert live'[|live|] == Region(adr, len);
    forall x: nat | pool.biosTop <= x < pool.dptable
      ensures pool.Taken(b, x) <==> exists i :: 0 <= i < |live'| && live'[i].Has(x)
    {
      if pool.Taken(a, x) {
        var i :| 0 <= i < |live| && live[i].Has(x);
        assert live'[i].Has(x);
      } else if live'[|live|].Has(x) {
        assert pool.Taken(b, x);
      }
    }
    forall i, k, x: nat | 0 <= i < k < |live'|
      ensures !(live'[i].Has(x) && live'[k].Has(x))
    {
      if k == |live| && live'[k].Has(x) {
        assert !pool.Taken(a, x);
      }
    }
  }

  lemma FreeAccounts(pool: Pool, a: seq<byte>, b: seq<byte>, live: seq<Region>, m: nat)
    requires pool.Holds(a) && pool.Accounts(a, live) && m < |live|
    requires IsCleared(a, b, live[m].adr - pool.biosTop, live[m].len)
    ensures pool.Accounts(b, live[..m] + live[m + 1..])
  {
    hide Used;
    var live' := live[..m] + live[m + 1..];
    assert forall i :: 0 <= i < |live'| ==> live'[i] == live[if i < m then i else i + 1];
    forall x: nat | pool.biosTop <= x < pool.dptable
      ensures pool.Taken(b, x) <==> exists i :: 0 <= i < |live'| && live'[i].Has(x)
    {
      assert pool.Taken(b, x) <==> pool.Taken(a, x) && !live[m].Has(x);
      if pool.Taken(b, x) {
        var i :| 0 <= i < |live| && live[i].Has(x);
        assert live'[if i < m then i else i - 1].Has(x);
      }
      if exists i :: 0 <= i < |live'| && live'[i].Has(x) {
        var i :| 0 <= i < |live'| && live'[i].Has(x);
        assert live[if i < m then i else i + 1].Has(x);
      }
    }
  }

  /** The bitmap, eight bytes of the pool to a byte, from its most significant bit on. */
  lemma UsedLaw(alv: seq<byte>, k: nat)
    requires k < 8 * |alv|
    ensures Used(alv, k) <==> alv[k / 8] / Pow2(7 - k % 8) % 2 == 1
  {
    TestBitIs(alv[k / 8], 7 - k % 8);
  }

  lemma {:induction false} TestBitIs(w: nat, j: nat)
    ensures TestBit(w, j) <==> w / Pow2(j) % 2 == 1
  {
    if j > 0 {
      TestBitIs(w / 2, j - 1);
      DivSplit(w, 2, Pow2(j - 1));
    }
  }

  /** What can be handed out, in bits. A region that ends at the disk parameter table cannot. */
  lemma FitsLaw(pool: Pool, alv: seq<byte>, adr: nat, len: nat)
    requires pool.Holds(alv)
    ensures pool.Fits(alv, adr, len) <==>
            && pool.biosTop <= adr && adr + len <= pool.dptable - 1
            && forall k: nat :: adr <= pool.biosTop + k < adr + len && k < 8 * |alv| ==>
                                  alv[k / 8] / Pow2(7 - k % 8) % 2 == 0
  {
    forall k: nat | k < 8 * |alv|
      ensures Used(alv, k) <==> alv[k / 8] / Pow2(7 - k % 8) % 2 == 1
    {
      UsedLaw(alv, k);
    }
    hide Used;
    if pool.biosTop <= adr && adr + len < pool.dptable {
      assert pool.Fits(alv, adr, len) <==>
             forall k: nat :: adr <= pool.biosTop + k < adr + len && k < 8 * |alv| ==> !Used(alv, k) by {
        if pool.Fits(alv, adr, len) {
          forall k: nat | adr <= pool.biosTop + k < adr + len && k < 8 * |alv|
            ensures !Used(alv, k)
          {
            assert !pool.Taken(alv, pool.biosTop + k);
          }
        } else {
          var x: nat :| adr <= x < adr + len && pool.Taken(alv, x);
          assert Used(alv, x - pool.biosTop);
        }
      }
    }
  }

  /** A used byte inside the candidate rules out every start up to that byte. */
  lemma SkipAhead(pool: Pool, alv: seq<byte>, p: nat, i: nat, len: nat)
    requires pool.Holds(alv) && pool.biosTop <= p && i < len && p + i < pool.dptable && pool.Taken(alv, p + i)
    ensures forall a: nat :: p <= a <= p + i ==> !pool.Fits(alv, a, len)
  {
  }

  class Bank {
    const pool: Pool
    const alv: array<byte>

    /** The regions handed out and not given back yet. */
    ghost var live: seq<Region>

    ghost predicate Valid()
      reads this, alv
    {
      pool.Holds(alv[..]) && pool.Accounts(alv[..], live)
    }

    constructor (biosTop: nat, dptable: nat)
      requires 0 < biosTop <= dptable < 0x1_0000
      ensures Valid() && live == [] && pool == Pool(biosTop, dptable)
    {
      pool := Pool(biosTop, dptable);
      alv := new byte[(dptable - biosTop + 7) / 8](_ => 0);
      live := [];
      new;
      forall k: nat | k < 8 * |alv[..]|
        ensures !Used(alv[..], k)
      {
        ZeroHasNoBits(7 - k % 8);
      }
    }

    /** First fit: the lowest region of `len` free bytes, or 0 if there is none. */
    method CpmAlloc(len: nat) returns (p: nat)
      requires Valid() && len < 0x1_0000
      modifies alv, this`live
      ensures Valid()
      ensures p == 0 <==> len == 0 || forall a: nat :: !pool.Fits(old(alv[..]), a, len)
      ensures p != 0 ==> pool.Fits(old(alv[..]), p, len) && forall a: nat :: a < p ==> !pool.Fits(old(alv[..]), a, len)
      ensures p != 0 ==> live == old(live) + [Region(p, len)] && IsMarked(old(alv[..]), alv[..], p - pool.biosTop, len)
      ensures p == 0 ==> live == old(live) && alv[..] == old(alv[..])
    {
      hide Used, Pool.Accounts;
      p := pool.biosTop;
      while p < pool.dptable - len
        invariant pool.biosTop <= p && alv[..] == old(alv[..]) && live == old(live)
        invariant len > 0 ==> forall a: nat :: a < p ==> !pool.Fits(alv[..], a, len)
        invariant len == 0 ==> p <= pool.dptable
        decreases pool.dptable - p
      {
        if Used(alv[..], p - pool.biosTop) {
          if len > 0 {
            SkipAhead(pool, alv[..], p, 0, len);
          }
          p := p + 1;
        } else {
          var i := 1;
          while i < len && !Used(alv[..], p + i - pool.biosTop)
            invariant alv[..] == old(alv[..]) && live == old(live) && 1 <= i && (len > 0 ==> i <= len)
                      && (len == 0 ==> i == 1)
            invariant forall x: nat :: p <= x < p + i && len > 0 ==> !pool.Taken(alv[..], x)
          {
            i := i + 1;
          }
          if i == len {
            assert pool.Fits(alv[..], p, len);
            MarkRange(alv, p - pool.biosTop, len);
            AllocAccounts(pool, old(alv[..]), alv[..], live, p, len);
            live := live + [Region(p, len)];
            return p;
          }
          if len > 0 {
            SkipAhead(pool, alv[..], p, i, len);
          }
          p := p + i;
        }
      }
      return 0;
    }

    /** Gives back a region that was handed out. */
    method CpmFree(adr: nat, len: nat, ghost m: nat)
      requires Valid() && m < |live| && live[m] == Region(adr, len)
      modifies alv, this`live
      ensures Valid() && live == old(live[..m] + live[m + 1..])
      ensures IsCleared(old(alv[..]), alv[..], adr - pool.biosTop, len)
    {
      hide Used, Pool.Accounts;
      RegionInPool(pool, alv[..], live, m);
      ClearRange(alv, adr - pool.biosTop, len);
      FreeAccounts(pool, old(alv[..]), alv[..], live, m);
      live := live[..m] + live[m + 1..];
    }
  }

  lemma RegionInPool(pool: Pool, alv: seq<byte>, live: seq<Region>, m: nat)
    requires pool.Holds(alv) && pool.Accounts(alv, live) && m < |live|
    ensures pool.Contains(live[m])
  {
  }
}
