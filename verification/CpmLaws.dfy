/** The layout of a CP/M disk with bytes, bits and device sectors written out. */
module CpmLaws {
  import opened Arithmetic
  import opened Geometry
  import opened Directory
  import opened FileData
  import opened RecordedSize
  import opened NameOps
  import opened CpmNames
  import opened CpmListing
  import opened Names

  // ----- Where a byte of a file is -----

  /** Sectors on tracks, and bytes in blocks, are numbered row by row, `n` in each. */
  function Place(row: nat, n: nat, column: nat): nat {
    row * n + column
  }

  /** Data byte `n` of the device, counted from the end of the boot tracks in logical order. */
  function DataByte(g: DiskShape, dev: seq<Sector>, n: nat): byte
    requires g.Basic()
  {
    var l := n / g.secLength;
    SectorByte(dev, Place(l / g.sectrk + g.boottrk, g.sectrk, g.skewtab[l % g.sectrk]), n % g.secLength)
  }

  /** The blocks follow each other behind the boot tracks, in the order of the skew table. */
  lemma BlockByteLaw(g: DiskShape, dev: seq<Sector>, b: nat, o: nat)
    requires g.Valid() && o < g.blksiz
    ensures BlockByte(g, dev, b, o) == DataByte(g, dev, Place(b, g.blksiz, o))
  {
    SectorsPerBlock(g);
    hide DiskShape.Valid, DiskShape.Spb;
    InSectors(b, g.Spb(), g.secLength, o);
  }

  lemma InSectors(b: nat, spb: nat, len: nat, o: nat)
    requires len > 0
    ensures (b * (spb * len) + o) / len == b * spb + o / len && (b * (spb * len) + o) % len == o % len
  {
    assert b * (spb * len) == len * (b * spb);
    assert o == len * (o / len) + o % len;
    MulDistributes(len, b * spb, o / len);
    DivModUnique(b * (spb * len) + o, len, b * spb + o / len, o % len);
  }

  /** Live, with the name and user number of the file; the top bits of the name are attributes. */
  ghost predicate IsEntryOf(g: DiskShape, key: Key, e: Entry) {
    && e.status == key.user <= (if g.hiUser then 31 else 15) && |key.name| == 8 && |key.ext| == 3
    && (forall i :: 0 <= i < 8 ==> key.name[i] == e.name[i] % 128)
    && (forall i :: 0 <= i < 3 ==> key.ext[i] == e.ext[i] % 128)
  }

  lemma OwnsLaw(g: DiskShape, key: Key, e: Entry)
    ensures Owns(g, key, e) <==> IsEntryOf(g, key, e)
  {
    if IsEntryOf(g, key, e) {
      assert Strip(e.name) == key.name && Strip(e.ext) == key.ext;
    }
  }

  /** Five bits of the number are in `ex`, six in `s2`; an entry stands for `extents` of 16K each. */
  lemma PhysLaw(g: DiskShape, e: Entry)
    requires g.Basic()
    ensures Phys(g, e) == (e.extnol % 32 + 32 * (e.extnoh % 64)) / g.extents
  {
  }

  /** Pointers are bytes on disks of fewer than 256 blocks, and otherwise words with the low byte in front. */
  lemma PtrLaw(g: DiskShape, e: Entry, s: nat)
    requires s < g.Slots()
    ensures g.size < 256 ==> s < 16 && Ptr(g, e, s) == e.pointers[s]
    ensures g.size >= 256 ==> s < 8 && Ptr(g, e, s) % 256 == e.pointers[2 * s]
                              && Ptr(g, e, s) / 256 == e.pointers[2 * s + 1]
  {
  }

  /** The byte that pointer `s` of an entry leads to, `o` bytes into the block; zero if there is no block. */
  ghost predicate Leads(g: DiskShape, dev: seq<Sector>, e: Entry, s: nat, o: nat, x: byte)
    requires g.Basic()
  {
    && s < (if g.size < 256 then 16 else 8)
    && var block: nat := if g.size < 256 then e.pointers[s]
        else e.pointers[2 * s] + 256 * (e.pointers[2 * s + 1] as int);
       x == if block == 0 then 0 else DataByte(g, dev, Place(block, g.blksiz, o))
  }

  ghost predicate Reaches(g: DiskShape, dev: seq<Sector>, e: Entry, p: nat, x: byte)
    requires g.Basic()
  {
    Leads(g, dev, e, p % (16384 * g.extents) / g.blksiz, p % g.blksiz, x)
  }

  /**
   * Byte `p` of a file: the entry with the number of the 16K stretch, or the group of them, that `p` lies in,
       its pointer
   * for the block, and the byte of that block on the device. Without such an entry it is zero.
   */
  lemma FileByteLaw(g: DiskShape, dir: seq<Entry>, dev: seq<Sector>, key: Key, p: nat)
    requires g.Valid() && ExtentsDistinct(g, dir)
    ensures forall i :: 0 <= i < |dir| && IsEntryOf(g, key, dir[i])
                        && (dir[i].extnol % 32 + 32 * (dir[i].extnoh % 64)) / g.extents == p / (16384 * g.extents) ==>
                          Reaches(g, dev, dir[i], p, FileByte(g, dir, dev, key, p))
    ensures (forall i :: 0 <= i < |dir| && IsEntryOf(g, key, dir[i]) ==>
                           (dir[i].extnol % 32 + 32 * (dir[i].extnoh % 64)) / g.extents != p / (16384 * g.extents)) ==>
              FileByte(g, dir, dev, key, p) == 0
  {
    var x := p / (16384 * g.extents);
    ExtentIs(g, p);
    hide DiskShape.Valid, ExtentsDistinct, IsEntryOf, Reaches, FileByte, BlockNo, SlotExtent, Phys;
    forall i | 0 <= i < |dir| && IsEntryOf(g, key, dir[i])
               && (dir[i].extnol % 32 + 32 * (dir[i].extnoh % 64)) / g.extents == x
      ensures Reaches(g, dev, dir[i], p, FileByte(g, dir, dev, key, p))
    {
      OwnsLaw(g, key, dir[i]);
      PhysLaw(g, dir[i]);
      FindUnique(g, dir, key, i);
      FoundByte(g, dir, dev, key, p, i);
    }
    if forall i :: 0 <= i < |dir| && IsEntryOf(g, key, dir[i]) ==>
                     (dir[i].extnol % 32 + 32 * (dir[i].extnoh % 64)) / g.extents != x
    {
      forall i | 0 <= i < |dir|
        ensures !Matches(g, key, x, dir[i])
      {
        OwnsLaw(g, key, dir[i]);
        PhysLaw(g, dir[i]);
      }
      NoByte(g, dir, dev, key, p);
    }
  }

  lemma ExtentIs(g: DiskShape, p: nat)
    requires g.Valid()
    ensures SlotExtent(g, BlockNo(g, p)) == p / (16384 * g.extents)
    ensures SlotIndex(g, BlockNo(g, p)) == p % (16384 * g.extents) / g.blksiz
  {
    PositionSlot(g, p);
  }

  lemma NoByte(g: DiskShape, dir: seq<Entry>, dev: seq<Sector>, key: Key, p: nat)
    requires g.Basic() && Find(g, dir, key, 0, SlotExtent(g, BlockNo(g, p))) < 0
    ensures FileByte(g, dir, dev, key, p) == 0
  {
  }

  lemma FoundByte(g: DiskShape, dir: seq<Entry>, dev: seq<Sector>, key: Key, p: nat, i: nat)
    requires g.Valid() && i < |dir| && Find(g, dir, key, 0, SlotExtent(g, BlockNo(g, p))) == i
    ensures Reaches(g, dev, dir[i], p, FileByte(g, dir, dev, key, p))
  {
    ExtentIs(g, p);
    var s, o := SlotIndex(g, BlockNo(g, p)), BlockOff(g, p);
    var b := Ptr(g, dir[i], s);
    BlockByteLaw(g, dev, b, o);
    hide DiskShape.Valid, SlotExtent, BlockNo, DataByte, BlockByte, SlotIndex;
  }

  // ----- Sizes -----

  /** What an append leaves: the records in use cover the last 16K exactly, and the count for the last record fits. */
  lemma StampedLaw(g: DiskShape, e: Entry, n: nat, extentno: nat)
    requires n > 0 && Stamped(g, e, n, extentno)
    ensures var used := (n - 1) % 16384 + 1;
            && 128 * (e.blkcnt - 1) < used <= 128 * e.blkcnt
            && (g.exactSize ==> used == 128 * e.blkcnt - e.lrc && e.lrc < 128)
            && (!g.exactSize ==> used == if e.lrc == 0 then 128 * e.blkcnt else 128 * (e.blkcnt - 1) + e.lrc)
  {
    RecordDigits(n - 1);
  }

  /** The size read back. The count for the last record is a signed byte if it counts the bytes left over. */
  lemma SizeLaw(g: DiskShape, e: Entry)
    ensures var start := 16384 * (e.extnol % 32 + 32 * (e.extnoh % 64));
            && (e.blkcnt == 0 ==> RecordedBytes(g, e) == start)
            && (e.blkcnt > 0 && !g.exactSize ==>
                  RecordedBytes(g, e) == start + if e.lrc == 0 then 128 * e.blkcnt else 128 * (e.blkcnt - 1) + e.lrc)
            && (e.blkcnt > 0 && g.exactSize ==>
                  RecordedBytes(g, e) == start + 128 * e.blkcnt - if e.lrc < 128 then e.lrc as int else e.lrc - 256)
  {
  }

  // ----- Entries -----

  /** What creation writes: the name, and no extents, records or blocks. */
  lemma NewFileLaw(key: Key)
    requires |key.name| == 8 && |key.ext| == 3
    ensures var e := NewFileEntry(key);
            && e.status == key.user && e.name == key.name && e.ext == key.ext
            && e.extnol == e.extnoh == e.blkcnt == e.lrc == 0 && forall i :: 0 <= i < 16 ==> e.pointers[i] == 0
  {
  }

  /** What unlinking does to an entry: E5 in front for those of the file, nothing else. */
  lemma EraseLaw(g: DiskShape, key: Key, e: Entry)
    ensures var e' := Erase(g, key, e);
            && (IsEntryOf(g, key, e) ==> e'.status == 0xe5 && e' == e.(status := e'.status))
            && (!IsEntryOf(g, key, e) ==> e' == e)
  {
    hide IsEntryOf;
    OwnsLaw(g, key, e);
  }

  /** The entry number of a listed file: entry 0 has inode 1. */
  lemma ListedInode(g: DiskShape, dir: seq<Entry>, i: nat)
    requires i < |dir| && Live(g, dir[i])
    ensures DirentAt(g, dir, i).ino == i + 1 && DirentAt(g, dir, i).name == FormatName(KeyOf(dir[i]))
  {
  }
}
