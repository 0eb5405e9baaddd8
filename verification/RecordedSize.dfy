/** The extent number, record count and last record byte count that a write leaves in the directory. */
module RecordedSize {
  import opened Arithmetic
  import opened Geometry
  import opened Directory
  import opened DirectoryChanges
  import opened FileData

  /** Bytes used in the last record; ISX disks count the unused bytes instead. */
  function LastRecordCount(g: DiskShape, n: nat): byte {
    if g.exactSize then (128 - n % 128) % 128 else n % 128
  }

  /** Records used in the last 16K, at most 128. */
  function RecordCount(n: nat): byte
    requires n > 0
  {
    (n - 1) % 16384 / 128 + 1
  }

  /** The entry after a write that has reached position `n` in extent `extentno`. */
  function Stamp(g: DiskShape, e: Entry, n: nat, extentno: nat): Entry
    requires n > 0
  {
    e.(extnol := extentno % 32, extnoh := extentno / 32 % 64, blkcnt := RecordCount(n), lrc := LastRecordCount(g, n))
  }

  ghost predicate Stamped(g: DiskShape, e: Entry, n: nat, extentno: nat)
    requires n > 0
  {
    Extent(e) == extentno && e.blkcnt == RecordCount(n) && e.lrc == LastRecordCount(g, n)
  }

  lemma StampExtent(g: DiskShape, e: Entry, n: nat, extentno: nat)
    requires n > 0 && extentno < 2048
    ensures Extent(Stamp(g, e, n, extentno)) == extentno
  {
  }

  /** Stamping keeps the file, the physical extent and the blocks of the entry. */
  lemma StampKeepsSlots(g: DiskShape, dir: seq<Entry>, i: nat, n: nat, extentno: nat)
    requires g.Basic() && i < |dir| && Live(g, dir[i]) && n > 0 && extentno < 2048
    requires extentno / g.extents == Phys(g, dir[i])
    ensures Stamped(g, Stamp(g, dir[i], n, extentno), n, extentno)
    ensures OnlySlotChanged(g, dir, dir[i := Stamp(g, dir[i], n, extentno)], i, 0, Ptr(g, dir[i], 0))
  {
    var e := Stamp(g, dir[i], n, extentno);
    StampExtent(g, dir[i], n, extentno);
    hide Extent;
    assert Phys(g, e) == Phys(g, dir[i]);
    hide Phys;
    assert forall t: nat :: t < g.Slots() ==> Ptr(g, e, t) == Ptr(g, dir[i], t);
  }

  /** The slot number of the last block in an entry never reaches the next extent. */
  lemma LastSlotSameExtent(g: DiskShape, last: nat)
    requires g.Valid() && last < g.Slots()
    ensures last * g.blksiz / g.ExtCap() == 0
  {
    MulMono(g.blksiz, last + 1, g.Slots());
    MulDistributes(g.blksiz, last, 1);
    hide DiskShape.Valid;
    SmallMod(last * g.blksiz, g.ExtCap());
  }

  /**
   * What the last extent of a file of `n` bytes records: nothing if it holds no block yet, and otherwise the
   * position `n` under the extent number `extentno` of the write that got there.
   */
  ghost predicate LastExtentRecords(g: DiskShape, dir: seq<Entry>, key: Key, nx: nat, n: nat, extentno: nat)
    requires g.Basic() && nx > 0
  {
    var i := Find(g, dir, key, 0, nx - 1);
    && i >= 0
    && if SlotNumber(g, nx - 1, 0) == BlockCount(g, n) then Extent(dir[i]) * 16384 == n && dir[i].blkcnt == 0
       else n > 0 && Stamped(g, dir[i], n, extentno)
  }

  /** The directory describes a file of `n` bytes that was written front to back. */
  ghost predicate FileState(g: DiskShape, dir: seq<Entry>, key: Key, n: nat, nx: nat, extentno: nat)
    requires g.Basic()
  {
    FileShape(g, dir, key, nx, BlockCount(g, n)) && LastExtentRecords(g, dir, key, nx, n, extentno)
  }

  lemma ExtentStartIs(g: DiskShape, x: nat)
    requires g.Valid()
    ensures ExtentStart(g, x) % 16384 == 0 && ExtentStart(g, x) == x * g.ExtCap()
  {
    assert g.ExtCap() == 16384 * g.extents;
    MulRotate(x, g.Slots(), g.blksiz);
    MulRotate(x, 16384, g.extents);
    hide DiskShape.Valid;
    DivModUnique(ExtentStart(g, x), 16384, x * g.extents, 0);
  }

  /** Appending continues in the last extent the file has. */
  lemma AppendsToLastExtent(g: DiskShape, dir: seq<Entry>, key: Key, n: nat, nx: nat, r: nat, i: nat)
    requires g.Valid() && FileState(g, dir, key, n, nx, r)
    requires i < |dir| && Owns(g, key, dir[i]) && Phys(g, dir[i]) == SlotExtent(g, BlockNo(g, n))
    ensures SlotExtent(g, BlockNo(g, n)) == nx - 1
  {
    PositionSlot(g, n);
    AppendSlot(g, n);
    hide DiskShape.Valid, DiskShape.ExtCap, BlockNo, BlockCount;
    var top := Find(g, dir, key, 0, nx - 1);
    if SlotNumber(g, nx - 1, 0) == BlockCount(g, n) {
      DivModUnique(n, 16384, Extent(dir[top]), 0);
    } else {
      assert BlockNo(g, n) >= SlotNumber(g, nx - 1, 0);
    }
  }

  /** The position to append at lies in the last block in use, or at the start of the next one. */
  lemma AppendSlot(g: DiskShape, pos: nat)
    requires g.Basic()
    ensures BlockNo(g, pos) <= BlockCount(g, pos) <= BlockNo(g, pos) + 1
    ensures BlockCount(g, pos) == BlockNo(g, pos) <==> BlockOff(g, pos) == 0
  {
    var q := BlockNo(g, pos);
    BlockRange(g, pos, q);
    BlockCountIs(g, pos, q);
    BlockCountIs(g, pos, q + 1);
    hide BlockNo, BlockCount, BlockStart, BlockOff;
    if q > 0 {
      BlockCountIs(g, pos, q - 1);
      BlockRange(g, pos, q - 1);
    }
  }

  /** A position behind the start of block `q`, up to its end, needs q + 1 blocks. */
  lemma CountWithin(g: DiskShape, n: nat, q: nat)
    requires g.Basic() && BlockStart(g, q) < n <= BlockStart(g, q + 1)
    ensures BlockCount(g, n) == q + 1
  {
    BlockCountIs(g, n, q);
    BlockCountIs(g, n, q + 1);
  }

  /** A new, empty last extent records the position it starts at. */
  lemma EmptyExtentRecords(g: DiskShape, dir: seq<Entry>, key: Key, n: nat, nx: nat, r: nat, i: nat)
    requires g.Valid() && ExtentsDistinct(g, dir) && FileShape(g, dir, key, nx + 1, BlockCount(g, n))
    requires i < |dir| && Owns(g, key, dir[i]) && Phys(g, dir[i]) == nx
    requires BlockCount(g, n) == SlotNumber(g, nx, 0) == BlockNo(g, n)
    requires Extent(dir[i]) == n / 16384 && dir[i].blkcnt == 0
    ensures FileState(g, dir, key, n, nx + 1, r)
  {
    FindUnique(g, dir, key, i);
    AppendSlot(g, n);
    BlockRange(g, n, BlockNo(g, n));
    ExtentStartIs(g, nx);
    hide DiskShape.Valid, BlockNo, BlockCount, BlockStart, BlockOff, FileShape;
    assert n == ExtentStart(g, nx);
  }

  /** After a block has been written the last extent records the new end. */
  lemma WrittenExtentRecords(g: DiskShape, dir: seq<Entry>, key: Key, n: nat, nx: nat, extentno: nat, i: nat, q: nat)
    requires g.Basic() && ExtentsDistinct(g, dir) && FileShape(g, dir, key, nx, q + 1)
    requires BlockStart(g, q) < n <= BlockStart(g, q + 1) && SlotExtent(g, q) == nx - 1
    requires i < |dir| && Owns(g, key, dir[i]) && Phys(g, dir[i]) == nx - 1 && Stamped(g, dir[i], n, extentno)
    ensures FileState(g, dir, key, n, nx, extentno)
  {
    CountWithin(g, n, q);
    FindUnique(g, dir, key, i);
    hide BlockNo, BlockCount, BlockStart, FileShape, Stamped;
  }

  function Max(a: int, b: int): (m: int)
    ensures m >= a && m >= b && (m == a || m == b)
  {
    if a < b then b else a
  }

  /** The extent number a call leaves behind that has appended bytes n0..n1-1: that of its last extent lookup. */
  function RecordedExtent(g: DiskShape, n0: nat, n1: nat): nat
    requires g.Basic() && n1 > 0
  {
    Max(n0, ExtentStart(g, SlotExtent(g, BlockNo(g, n1 - 1)))) / 16384
  }
}
