/** The shape of a CP/M disk: blocks, sectors, tracks, and where each block lives on the device. */
module Geometry {
  import opened Arithmetic
  import Skew

  type byte = x: int | 0 <= x < 256

  type Sector = seq<byte>

  /** The disk parameters of struct cpmSuperBlock. `size` counts the blocks behind the boot tracks. */
  datatype DiskShape = DiskShape(
    secLength: nat,
    tracks: nat,
    sectrk: nat,
    blksiz: nat,
    maxdir: nat,
    boottrk: nat,
    size: nat,
    extents: nat,
    hiUser: bool,
    exactSize: bool,
    skewtab: seq<nat>)
  {
    /** Sectors per block. */
    function Spb(): nat
      requires secLength > 0
    {
      blksiz / secLength
    }

    /** Block pointers in a directory entry: single bytes on small disks, words otherwise. */
    function Slots(): nat {
      if size < 256 then 16 else 8
    }

    /** Bytes described by one directory entry. */
    function ExtCap(): nat {
      Slots() * blksiz
    }

    function DirBlocks(): nat
      requires blksiz > 0
    {
      (maxdir * 32 + blksiz - 1) / blksiz
    }

    function MaxUser(): nat {
      if hiUser then 31 else 15
    }

    ghost predicate Basic() {
      && secLength > 0 && sectrk > 0 && maxdir > 0 && extents > 0
      && boottrk <= tracks
      && 0 < blksiz <= 16384
      && size <= 65536
      && Skew.IsPermutation(skewtab, sectrk)
    }

    /** What a disk definition has to satisfy: the derived values agree and the directory fits on the disk. */
    ghost predicate Valid()
      ensures Valid() ==> Basic() && ExtCap() == 16384 * extents && DirBlocks() <= size
    {
      && Basic()
      && blksiz % secLength == 0
      && size == (secLength * sectrk * (tracks - boottrk)) / blksiz
      && DirBlocks() <= size
      && ExtCap() == 16384 * extents
    }
  }

  /**
   * The eight-inch single-density disk, with any skew table, is such a definition; so is a disk with 16-bit block
   * pointers.
   */
  lemma Definitions(tab: seq<nat>, tab': seq<nat>)
    requires Skew.IsPermutation(tab, 26) && Skew.IsPermutation(tab', 64)
    ensures DiskShape(128, 77, 26, 1024, 64, 2, 243, 1, false, false, tab).Valid()
    ensures DiskShape(512, 130, 64, 4096, 1024, 2, 1024, 2, true, true, tab').Valid()
  {
  }

  /** A block is one of the directory exactly if it holds a byte of the table, 32 bytes for every entry. */
  lemma DirectoryBlocks(g: DiskShape, b: nat)
    requires g.blksiz > 0
    ensures b < g.DirBlocks() <==> b * g.blksiz < 32 * g.maxdir
  {
    CeilingIs(32 * g.maxdir, g.blksiz, b);
  }

  lemma CeilingIs(n: nat, c: nat, b: nat)
    requires c > 0
    ensures b < (n + c - 1) / c <==> b * c < n
  {
    var q := (n + c - 1) / c;
    assert n + c - 1 == c * q + (n + c - 1) % c;
    if b < q {
      MulMono(c, b + 1, q);
      MulDistributes(c, b, 1);
    } else {
      MulMono(c, q, b);
    }
  }

  /** Device sectors are numbered track by track. */
  function DeviceIndex(g: DiskShape, track: nat, sector: nat): nat {
    track * g.sectrk + sector
  }

  /** Device index of sector `c` of block `b`. */
  function Loc(g: DiskShape, b: nat, c: nat): nat
    requires g.Basic()
  {
    SkewedIndex(g, b * g.Spb() + c)
  }

  /** Device index of the `l`-th data sector in logical order. */
  function SkewedIndex(g: DiskShape, l: nat): nat
    requires g.Basic()
  {
    DeviceIndex(g, l / g.sectrk + g.boottrk, g.skewtab[l % g.sectrk])
  }

  lemma SkewedIndexInRange(g: DiskShape, l: nat)
    requires g.Basic() && l < (g.tracks - g.boottrk) * g.sectrk
    ensures g.boottrk <= l / g.sectrk + g.boottrk < g.tracks
    ensures g.boottrk * g.sectrk <= SkewedIndex(g, l) < g.tracks * g.sectrk
  {
    RowMajorSplit(l, g.tracks - g.boottrk, g.sectrk);
    var track := l / g.sectrk + g.boottrk;
    RowMajorBound(track, g.skewtab[l % g.sectrk], g.tracks, g.sectrk);
    MulMono(g.sectrk, g.boottrk, track);
  }

  lemma SkewedIndexInjective(g: DiskShape, l: nat, l': nat)
    requires g.Basic() && SkewedIndex(g, l) == SkewedIndex(g, l')
    ensures l == l'
  {
    hide DeviceIndex;
    SkewedSlotInjective(g, l / g.sectrk, l % g.sectrk, l' / g.sectrk, l' % g.sectrk);
    SameQuotientRemainder(l, l', g.sectrk);
  }

  lemma SkewedSlotInjective(g: DiskShape, row: nat, col: nat, row': nat, col': nat)
    requires g.Basic() && col < g.sectrk && col' < g.sectrk
    requires DeviceIndex(g, row + g.boottrk, g.skewtab[col]) == DeviceIndex(g, row' + g.boottrk, g.skewtab[col'])
    ensures row == row' && col == col'
  {
    hide DeviceIndex;
    DeviceIndexInjective(g, row + g.boottrk, g.skewtab[col], row' + g.boottrk, g.skewtab[col']);
  }

  lemma DeviceIndexInjective(g: DiskShape, track: nat, sector: nat, track': nat, sector': nat)
    requires sector < g.sectrk && sector' < g.sectrk
    requires DeviceIndex(g, track, sector) == DeviceIndex(g, track', sector')
    ensures track == track' && sector == sector'
  {
    RowMajorInjective(track, sector, track', sector', g.sectrk);
  }

  lemma SectorsPerBlock(g: DiskShape)
    requires g.Valid()
    ensures g.Spb() > 0 && g.Spb() * g.secLength == g.blksiz
  {
  }

  /** All sectors of all blocks fit between the boot tracks and the end of the device. */
  lemma LinearBound(g: DiskShape, b: nat, c: nat)
    requires g.Valid() && b < g.size && c < g.Spb()
    ensures b * g.Spb() + c < (g.tracks - g.boottrk) * g.sectrk
  {
    SectorsPerBlock(g);
    BlocksFit(g.secLength, g.sectrk, g.tracks - g.boottrk, g.blksiz, g.Spb(), g.size);
    hide DiskShape.Valid, DiskShape.Spb;
    RowMajorBound(b, c, g.size, g.Spb());
  }

  lemma BlocksFit(secLength: nat, sectrk: nat, t: nat, blksiz: nat, spb: nat, size: nat)
    requires blksiz > 0 && spb * secLength == blksiz && size == (secLength * sectrk * t) / blksiz
    ensures size * spb <= t * sectrk
  {
    var bytes := secLength * sectrk * t;
    assert blksiz * size <= bytes;
    MulRotate(secLength, sectrk, t);
    MulRotate(size, spb, secLength);
    CancelFactor(secLength, size * spb, sectrk * t);
  }

  lemma CancelFactor(c: nat, a: nat, b: nat)
    requires c > 0 && a * c <= c * b
    ensures a <= b
  {
    if a > b {
      MulMono(c, b + 1, a);
      MulDistributes(c, b, 1);
    }
  }

  /** A block sector lies on a data track: behind the boot tracks and before the end of the device. */
  lemma LocInRange(g: DiskShape, b: nat, c: nat)
    requires g.Valid() && b < g.size && c < g.Spb()
    ensures g.boottrk <= (b * g.Spb() + c) / g.sectrk + g.boottrk < g.tracks
    ensures g.boottrk * g.sectrk <= Loc(g, b, c) < g.tracks * g.sectrk
  {
    LinearBound(g, b, c);
    SkewedIndexInRange(g, b * g.Spb() + c);
  }

  /** Different (block, sector) pairs live in different device sectors. */
  lemma LocInjective(g: DiskShape, b: nat, c: nat, b': nat, c': nat)
    requires g.Basic() && c < g.Spb() && c' < g.Spb()
    requires Loc(g, b, c) == Loc(g, b', c')
    ensures b == b' && c == c'
  {
    hide SkewedIndex, DiskShape.Spb;
    SkewedIndexInjective(g, b * g.Spb() + c, b' * g.Spb() + c');
    RowMajorInjective(b, c, b', c', g.Spb());
  }

  // ----- Reading a block byte by byte -----

  ghost predicate DeviceOk(g: DiskShape, dev: seq<Sector>) {
    && |dev| == g.tracks * g.sectrk
    && forall t :: 0 <= t < |dev| ==> |dev[t]| == g.secLength
  }

  /** Byte `o` of block `b`. */
  function BlockByte(g: DiskShape, dev: seq<Sector>, b: nat, o: nat): byte
    requires g.Basic()
  {
    SectorByte(dev, Loc(g, b, SectorIndex(g, o)), SectorOffset(g, o))
  }

  function SectorByte(dev: seq<Sector>, t: nat, k: nat): byte {
    if t < |dev| && k < |dev[t]| then dev[t][k] else 0
  }

  /** The place of the first byte of sector `c` in its block. */
  function SectorStart(g: DiskShape, c: nat): nat {
    g.secLength * c
  }

  lemma SectorStartNext(g: DiskShape, c: nat)
    ensures SectorStart(g, c + 1) == SectorStart(g, c) + g.secLength
    ensures SectorStart(g, 0) == 0
  {
    MulDistributes(g.secLength, c, 1);
  }

  lemma SectorStartMono(g: DiskShape, c: nat, c': nat)
    requires c <= c'
    ensures SectorStart(g, c) <= SectorStart(g, c')
    ensures c < c' ==> SectorStart(g, c) + g.secLength <= SectorStart(g, c')
  {
    MulMono(g.secLength, c, c');
    if c < c' {
      MulMono(g.secLength, c + 1, c');
      MulDistributes(g.secLength, c, 1);
    }
  }

  /** A byte belongs to sector `c` exactly when it lies in the sector's range. */
  lemma SectorRange(g: DiskShape, o: nat, c: nat)
    requires g.Basic()
    ensures SectorIndex(g, o) == c <==> SectorStart(g, c) <= o < SectorStart(g, c) + g.secLength
    ensures SectorIndex(g, o) == c ==> SectorOffset(g, o) == o - SectorStart(g, c)
  {
    DivRange(o, g.secLength, c);
  }

  /** The sectors of a block cover it exactly. */
  lemma SectorStartEnd(g: DiskShape, c: nat)
    requires g.Valid()
    ensures SectorStart(g, g.Spb()) == g.blksiz
    ensures c < g.Spb() ==> SectorStart(g, c) + g.secLength <= g.blksiz
  {
    SectorsPerBlock(g);
    hide DiskShape.Spb, DiskShape.Valid;
    if c < g.Spb() {
      SectorStartMono(g, c, g.Spb());
    }
  }

  /** The sector of a block that holds byte `o`, and the place of the byte in it. */
  function SectorIndex(g: DiskShape, o: nat): nat
    requires g.Basic()
  {
    o / g.secLength
  }

  function SectorOffset(g: DiskShape, o: nat): nat
    requires g.Basic()
  {
    o % g.secLength
  }

  lemma LocOnDevice(g: DiskShape, dev: seq<Sector>, b: nat, c: nat)
    requires g.Valid() && DeviceOk(g, dev) && b < g.size && c < g.Spb()
    ensures Loc(g, b, c) < |dev| && |dev[Loc(g, b, c)]| == g.secLength
  {
    LocInRange(g, b, c);
  }

  lemma OffsetInBlock(g: DiskShape, o: nat)
    requires g.Valid() && o < g.blksiz
    ensures SectorIndex(g, o) < g.Spb() && SectorOffset(g, o) < g.secLength
  {
    SectorsPerBlock(g);
    RowMajorSplit(o, g.Spb(), g.secLength);
  }
}
