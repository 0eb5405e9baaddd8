/** From a position in a file to the byte on the device that holds it. */
module FileData {
  import opened Arithmetic
  import opened Geometry
  import opened Directory
  import opened DirectoryChanges

  function BlockNo(g: DiskShape, p: nat): nat
    requires g.Basic()
  {
    p / g.blksiz
  }

  function BlockOff(g: DiskShape, p: nat): nat
    requires g.Basic()
  {
    p % g.blksiz
  }

  /** The position at which the `q`-th block of a file starts. */
  function BlockStart(g: DiskShape, q: nat): nat {
    q * g.blksiz
  }

  lemma BlockRange(g: DiskShape, p: nat, q: nat)
    requires g.Basic()
    ensures BlockNo(g, p) == q <==> BlockStart(g, q) <= p < BlockStart(g, q + 1)
    ensures BlockNo(g, p) == q ==> BlockOff(g, p) == p - BlockStart(g, q)
    ensures BlockStart(g, q + 1) == BlockStart(g, q) + g.blksiz
  {
    MulDistributes(g.blksiz, q, 1);
    DivRange(p, g.blksiz, q);
  }

  lemma BlockStartMono(g: DiskShape, q: nat, r: nat)
    requires q <= r
    ensures BlockStart(g, q) <= BlockStart(g, r)
  {
    MulMono(g.blksiz, q, r);
  }

  /** Blocks needed for `n` bytes. */
  function BlockCount(g: DiskShape, n: nat): nat
    requires g.Basic()
  {
    Cover(n, g.blksiz)
  }

  lemma BlockCountIs(g: DiskShape, n: nat, q: nat)
    requires g.Basic()
    ensures q < BlockCount(g, n) <==> BlockStart(g, q) < n
  {
    CoverStep(n, g.blksiz, q);
  }

  /** The extent and slot that cpmRead and cpmWrite compute from a position. */
  lemma PositionSlot(g: DiskShape, p: nat)
    requires g.Valid()
    ensures (p / 16384) / g.extents == SlotExtent(g, BlockNo(g, p))
    ensures p / g.ExtCap() == SlotExtent(g, BlockNo(g, p))
    ensures (p % g.ExtCap()) / g.blksiz == SlotIndex(g, BlockNo(g, p))
  {
    var cap, n, b := g.ExtCap(), g.Slots(), g.blksiz;
    assert cap == 16384 * g.extents && cap == n * b;
    hide DiskShape.Valid;
    assert n * b > 0;
    DivSplit(p, b, n);
    assert g.extents * 16384 > 0;
    DivSplit(p, 16384, g.extents);
    assert g.extents * 16384 == n * b;
  }

  /** Where cpmRead and cpmWrite expect the next extent to begin. */
  lemma NextExtentStart(g: DiskShape, p: nat)
    requires g.Valid()
    ensures p / g.ExtCap() * g.ExtCap() + g.ExtCap() == ExtentStart(g, SlotExtent(g, BlockNo(g, p)) + 1)
    ensures ExtentStart(g, SlotExtent(g, BlockNo(g, p))) <= p < ExtentStart(g, SlotExtent(g, BlockNo(g, p)) + 1)
  {
    PositionSlot(g, p);
    SlotRowBounds(p, g.Slots(), g.blksiz);
    hide DiskShape.Valid;
  }

  /** Rows of `n` blocks of `b` bytes. */
  lemma SlotRowBounds(p: nat, n: nat, b: nat)
    requires n > 0 && b > 0 && n * b > 0
    ensures p / (n * b) * (n * b) + n * b == (n * (p / (n * b)) + n) * b
    ensures (n * (p / (n * b))) * b <= p < (n * (p / (n * b)) + n) * b
  {
    var cap := n * b;
    var x := p / cap;
    assert p == cap * x + p % cap;
    calc {
      x * cap;
      { MulRotate(n, x, b); }
      (n * x) * b;
    }
    MulDistributes(b, n * x, n);
  }

  /** Byte `p` of a file: the byte of the block its slot points to, and zero where there is no block. */
  function FileByte(g: DiskShape, dir: seq<Entry>, dev: seq<Sector>, key: Key, p: nat): byte
    requires g.Basic()
  {
    var b := FileBlock(g, dir, key, BlockNo(g, p));
    if b == 0 then 0 else BlockByte(g, dev, b, BlockOff(g, p))
  }

  /** Bytes lo..hi-1 of a file. */
  function FileBytes(g: DiskShape, dir: seq<Entry>, dev: seq<Sector>, key: Key, lo: nat, hi: nat): (s: seq<byte>)
    requires g.Basic() && lo <= hi
    ensures |s| == hi - lo
    ensures forall k :: 0 <= k < hi - lo ==> s[k] == FileByte(g, dir, dev, key, lo + k)
  {
    seq<byte>(hi - lo, k requires 0 <= k < hi - lo => FileByte(g, dir, dev, key, lo + k))
  }

  /** The position at which extent `x` of a file starts. */
  function ExtentStart(g: DiskShape, x: nat): nat {
    BlockStart(g, SlotNumber(g, x, 0))
  }

  /** Until the next extent starts, the next block belongs to the same extent. */
  lemma NextBlockExtent(g: DiskShape, q: nat)
    ensures BlockStart(g, q + 1) <= ExtentStart(g, SlotExtent(g, q) + 1)
    ensures BlockStart(g, q + 1) < ExtentStart(g, SlotExtent(g, q) + 1) ==> SlotExtent(g, q + 1) == SlotExtent(g, q)
  {
    var r := SlotNumber(g, SlotExtent(g, q) + 1, 0);
    BlockStartMono(g, q + 1, r);
    hide BlockStart;
    if SlotExtent(g, q + 1) != SlotExtent(g, q) {
      assert q + 1 == r;
    }
  }

  /** Isolation, seen by a reader: no byte of any other file changes. */
  lemma OtherFilesRead(g: DiskShape, dir: seq<Entry>, dev: seq<Sector>, dir': seq<Entry>, dev': seq<Sector>, key: Key,
                       other: Key)
    requires g.Basic() && PointersInRange(g, dir) && other != key
    requires OtherEntriesKept(g, dir, dir', key) && OtherBytesKept(g, dir, dev, dev', key)
    ensures forall p: nat :: FileByte(g, dir', dev', other, p) == FileByte(g, dir, dev, other, p)
  {
    assert SameEntries(g, dir, dir', other);
    OtherBlocksKept(g, dir, dir', other);
    hide BlockByte, Ptr, DeviceOk, DiskShape.DirBlocks, KeyOf, BlockNo, BlockOff;
    forall p: nat
      ensures FileByte(g, dir', dev', other, p) == FileByte(g, dir, dev, other, p)
    {
      var q := BlockNo(g, p);
      var i := Find(g, dir, other, 0, SlotExtent(g, q));
      var b := FileBlock(g, dir, other, q);
      if b != 0 {
        assert Ptr(g, dir[i], SlotIndex(g, q)) == b && KeyOf(dir[i]) != key;
        assert ForeignBlock(g, dir, key, b);
        BlockRange(g, p, q);
      }
    }
  }

  lemma BlockStartBoundary(g: DiskShape, q: nat)
    requires g.Basic()
    ensures BlockNo(g, BlockStart(g, q)) == q && BlockOff(g, BlockStart(g, q)) == 0
  {
    DivModUnique(BlockStart(g, q), g.blksiz, q, 0);
  }
}
