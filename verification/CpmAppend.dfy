/** Appending to a file (cpmWrite), one block at a time. */
module CpmAppend {
  import opened Arithmetic
  import opened Geometry
  import opened BlockIO
  import opened AllocVector
  import opened Directory
  import opened DirectoryChanges
  import opened FileData
  import opened CpmFs
  import opened CpmFiles
  import opened AppendSteps
  import opened RecordedSize

  /** Extent numbers have eleven bits, so a file ends at 32 megabytes. */
  const MAXFILE := 2048 * 16384

  function NoPointers(): (p: seq<byte>)
    ensures |p| == 16 && forall i :: 0 <= i < 16 ==> p[i] == 0
  {
    seq<byte>(16, i => 0)
  }

  /** A copy of an entry of the file that describes extent `extentno` and has no blocks yet. */
  function NewExtentEntry(e: Entry, extentno: nat): Entry {
    e.(pointers := NoPointers(), extnol := extentno % 32, extnoh := extentno / 32 % 64, blkcnt := 0, lrc := 0)
  }

  lemma NewExtentEntryFits(g: DiskShape, e: Entry, extentno: nat)
    requires g.Basic() && extentno < 2048 && Live(g, e)
    ensures var e' := NewExtentEntry(e, extentno);
            && Live(g, e') && KeyOf(e') == KeyOf(e) && Extent(e') == extentno
            && (forall s: nat :: s < g.Slots() ==> Ptr(g, e', s) == 0)
  {
  }

  /** A missing extent is the next one, and every slot before it is in use. */
  lemma MissingExtent(g: DiskShape, dir: seq<Entry>, key: Key, nx: nat, pos: nat)
    requires g.Basic() && FileShape(g, dir, key, nx, BlockCount(g, pos))
    requires Find(g, dir, key, 0, SlotExtent(g, BlockNo(g, pos))) == -1
    ensures SlotExtent(g, BlockNo(g, pos)) == nx
    ensures BlockCount(g, pos) == SlotNumber(g, nx, 0) == BlockNo(g, pos)
  {
    AppendSlot(g, pos);
    hide BlockNo, BlockCount;
    var q, nb := BlockNo(g, pos), BlockCount(g, pos);
    var x := SlotExtent(g, q);
    assert x >= nx;
    assert q >= SlotNumber(g, nx, 0);
  }

  /** The directory part of the first step of cpmWrite: find the extent for `pos`, or create it. */
  method OpenExtent(sb: SuperBlock, ino: nat, pos: nat, ghost nx: nat) returns (extent: int, ghost nx': nat)
    requires sb.Valid() && ino < sb.g.maxdir && Live(sb.g, sb.dir[ino]) && pos < MAXFILE
    requires FileShape(sb.g, sb.dir, KeyOf(sb.dir[ino]), nx, BlockCount(sb.g, pos))
    modifies sb`dir
    ensures sb.Valid() && Live(sb.g, sb.dir[ino]) && KeyOf(sb.dir[ino]) == old(KeyOf(sb.dir[ino]))
    ensures extent < 0 ==> sb.dir == old(sb.dir) && forall i :: 0 <= i < sb.g.maxdir ==> sb.dir[i].status != ERASED
    ensures extent >= 0 ==> extent < sb.g.maxdir && Owns(sb.g, KeyOf(sb.dir[ino]), sb.dir[extent])
    ensures extent >= 0 ==> Phys(sb.g, sb.dir[extent]) == SlotExtent(sb.g, BlockNo(sb.g, pos))
    ensures FileShape(sb.g, sb.dir, KeyOf(sb.dir[ino]), nx', BlockCount(sb.g, pos))
    ensures forall q: nat :: FileBlock(sb.g, sb.dir, KeyOf(sb.dir[ino]), q)
                             == FileBlock(sb.g, old(sb.dir), KeyOf(sb.dir[ino]), q)
    ensures OtherEntriesKept(sb.g, old(sb.dir), sb.dir, KeyOf(sb.dir[ino])) && KeysKept(sb.g, old(sb.dir), sb.dir)
    ensures || (sb.dir == old(sb.dir) && nx' == nx)
            || (nx' == nx + 1 && BlockCount(sb.g, pos) == SlotNumber(sb.g, nx, 0) == BlockNo(sb.g, pos) && extent >= 0
                && Extent(sb.dir[extent]) == pos / 16384 && sb.dir[extent].blkcnt == 0)
  {
    var g := sb.g;
    ghost var dir := sb.dir;
    var key := KeyOf(sb.dir[ino]);
    var extentno := pos / 16384;
    nx' := nx;
    extent := sb.FindFileExtent(key, 0, extentno);
    PositionSlot(g, pos);
    hide DiskShape.Valid, DiskShape.ExtCap, DiskShape.DirBlocks, DeviceOk, BlockNo, BlockCount;
    if extent == -1 {
      MissingExtent(g, dir, key, nx, pos);
      extent := sb.FindFreeExtent();
      if extent == -1 {
        return;
      }
      NewExtentEntryFits(g, sb.dir[ino], extentno);
      sb.dir := sb.dir[extent := NewExtentEntry(sb.dir[ino], extentno)];
      assert ExtentAdded(g, dir, sb.dir, key, extent, nx);
      AddExtent(g, dir, sb.dir, sb.alv, key, extent, nx);
      AddExtentShape(g, dir, sb.dir, key, nx, BlockCount(g, pos), extent);
      nx' := nx + 1;
    }
  }

  // ----- The misplaced read -----

  /** The buffer of cpmWrite. */
  const BUFFER: nat := 16384

  /**
   * cpmWrite reads the last sector of a partial block, if it is not the first one and the transfer ends in the first
   * block of the file.
   */
  predicate TailRead(g: DiskShape, pos: nat, count: int)
    requires g.Basic()
  {
    count > 0 && BlockOff(g, pos) != 0 && pos + count <= g.blksiz
        && SectorIndex(g, pos) != SectorIndex(g, pos + count - 1)
  }

  /** The sector goes to its own offset behind its own offset; byte `k` of it lands here. */
  function Landing(g: DiskShape, end: nat, k: nat): nat {
    SectorStart(g, end) + SectorStart(g, end) + k
  }

  function LandingEnd(g: DiskShape, end: nat): nat {
    SectorStart(g, end) + SectorStart(g, end + 1)
  }

  function LastSector(g: DiskShape, pos: nat, count: int): nat
    requires g.Basic() && count > 0
  {
    SectorIndex(g, pos + count - 1)
  }

  predicate TailReadFits(g: DiskShape, pos: nat, count: int)
    requires g.Basic()
  {
    TailRead(g, pos, count) ==> LandingEnd(g, LastSector(g, pos, count)) <= BUFFER
  }

  ghost predicate LandsInside(g: DiskShape, end: nat) {
    forall k: nat :: k < g.secLength ==> Landing(g, end, k) < BUFFER
  }

  lemma LandsInsideIff(g: DiskShape, end: nat)
    requires g.Basic()
    ensures LandsInside(g, end) <==> LandingEnd(g, end) <= BUFFER
  {
    SectorStartNext(g, end);
    hide SectorStart;
    if LandsInside(g, end) {
      var last: nat := g.secLength - 1;
      assert Landing(g, end, last) < BUFFER;
    }
  }

  /** That is just what keeps every byte the read stores inside the buffer. */
  lemma TailReadFitsIff(g: DiskShape, pos: nat, count: int)
    requires g.Basic()
    ensures TailReadFits(g, pos, count) <==> (TailRead(g, pos, count) ==> LandsInside(g, LastSector(g, pos, count)))
  {
    hide LandsInside, LandingEnd, LastSector, SectorIndex, BlockOff;
    if TailRead(g, pos, count) {
      LandsInsideIff(g, LastSector(g, pos, count));
    }
  }

  /** On disks with blocks of at most 8K the read always stays in the buffer. */
  lemma SmallBlocksFit(g: DiskShape, pos: nat, count: int)
    requires g.Valid() && g.blksiz <= 8192
    ensures TailReadFits(g, pos, count)
  {
    if TailRead(g, pos, count) {
      SmallBlockLanding(g, pos + count - 1);
    }
  }

  lemma SmallBlockLanding(g: DiskShape, o: nat)
    requires g.Valid() && g.blksiz <= 8192 && o < g.blksiz
    ensures LandingEnd(g, SectorIndex(g, o)) <= BUFFER
  {
    hide DiskShape.Valid, DiskShape.Spb, SectorIndex, SectorStart;
    var end := SectorIndex(g, o);
    OffsetInBlock(g, o);
    SectorStartEnd(g, end);
    SectorStartNext(g, end);
  }

  /**
   * With blocks of 16K it may not: appending 2048 bytes at 8192 reads behind the buffer, appending 100 bytes at 100
   * does not.
   */
  lemma LargeBlocksMayOverflow(g: DiskShape)
    requires g.Valid() && g.blksiz == 16384 && g.secLength == 128
    ensures !TailReadFits(g, 8192, 2048) && LandingEnd(g, LastSector(g, 8192, 2048)) == 20352
    ensures TailRead(g, 100, 100) && TailReadFits(g, 100, 100)
  {
  }

  /** The buffer holds the bytes that precede `off` in the first sector of the transfer. */
  ghost predicate HeadBuffered(g: DiskShape, dev: seq<Sector>, block: nat, buffer: seq<byte>, start: nat, off: nat)
    requires g.Basic()
  {
    forall o: nat :: SectorStart(g, start) <= o < off && o < |buffer| ==> buffer[o] == BlockByte(g, dev, block, o)
  }

  /** Sectors start..end cover the bytes off..off+count-1 of a block, as far as they belong to it. */
  ghost predicate CoversTransfer(g: DiskShape, start: nat, end: nat, off: nat, count: nat)
    requires g.Basic()
  {
    && start <= end < g.Spb()
    && SectorStart(g, start) <= off
    && TransferEnd(g, off, count) <= SectorStart(g, end + 1) <= g.blksiz
  }

  lemma TailLands(g: DiskShape, pos: nat, count: nat, start: nat, end: nat)
    requires g.Basic() && count > 0 && BlockOff(g, pos) != 0 && TailReadFits(g, pos, count)
    requires start == SectorIndex(g, BlockOff(g, pos))
             && end == SectorIndex(g, TransferEnd(g, BlockOff(g, pos), count) - 1)
    ensures end != start && pos + count <= g.blksiz ==> LandingEnd(g, end) <= BUFFER
  {
    hide SectorIndex, LandingEnd;
    if pos + count <= g.blksiz {
      SmallMod(pos, g.blksiz);
    }
  }

  /** Reads what cpmWrite keeps of an existing block: its first sector, and (misplaced) its last one. */
  method ReadPartialBlock(sb: SuperBlock, block: nat, pos: nat, count: nat, buffer: array<byte>)
    returns (start: nat, end: nat)
    requires sb.Ready() && block < sb.g.size && count > 0 && buffer.Length == BUFFER
    requires BlockOff(sb.g, pos) != 0 && TailReadFits(sb.g, pos, count)
    modifies buffer
    ensures CoversTransfer(sb.g, start, end, BlockOff(sb.g, pos), count)
    ensures HeadBuffered(sb.g, sb.dev, block, buffer[..], start, BlockOff(sb.g, pos))
  {
    var g := sb.g;
    var off := pos % g.blksiz;
    start := SectorIndex(g, off);
    end := SectorIndex(g, TransferEnd(g, off, count) - 1);
    TransferSectors(g, off, count);
    FirstSectorPart(g, pos, start);
    TailLands(g, pos, count, start, end);
    var partial := pos % g.secLength != 0;
    hide DiskShape.Valid, DeviceOk, SectorIndex, SectorOffset, SectorStart, DiskShape.Spb, BlockByte, TransferEnd,
         LandingEnd, TailReadFits;
    SectorStartNext(g, start);
    SectorStartEnd(g, start);
    SectorStartMono(g, start + 1, end + 1);
    if partial {
      var rc := sb.ReadBlock(block, buffer, 0, start, start);
    }
    assert HeadBuffered(g, sb.dev, block, buffer[..], start, off);
    if end != start && pos + count - 1 < g.blksiz {
      ghost var head := buffer[..];
      ReadTail(sb, block, end, buffer);
      assert forall o: nat :: o < off ==> buffer[..][o] == head[o];
    }
  }

  /** The read of the last sector lands behind everything the transfer uses. */
  method ReadTail(sb: SuperBlock, block: nat, end: nat, buffer: array<byte>)
    requires sb.Ready() && block < sb.g.size && 0 < end < sb.g.Spb()
    requires LandingEnd(sb.g, end) <= buffer.Length
    modifies buffer
    ensures SectorStart(sb.g, end + 1) <= sb.g.blksiz
    ensures forall o: nat :: o < SectorStart(sb.g, end + 1) ==> buffer[o] == old(buffer[o])
  {
    var g := sb.g;
    SectorStartEnd(g, end);
    SectorStartNext(g, end);
    SectorStartMono(g, 1, end);
    SectorStartNext(g, 0);
    hide DiskShape.Valid, DeviceOk, SectorStart, DiskShape.Spb, BlockByte;
    var rc := sb.ReadBlock(block, buffer, SectorStart(g, end), end, end);
  }

  /** Whether the first sector of a transfer is a partial one shows in the file position. */
  lemma FirstSectorPart(g: DiskShape, pos: nat, start: nat)
    requires g.Valid() && start == SectorIndex(g, BlockOff(g, pos))
    ensures pos % g.secLength == 0 <==> SectorStart(g, start) == BlockOff(g, pos)
    ensures SectorStart(g, start) <= BlockOff(g, pos) < SectorStart(g, start + 1)
  {
    SectorsPerBlock(g);
    hide DiskShape.Valid;
    var off := BlockOff(g, pos);
    DivSplit(pos, g.secLength, g.Spb());
    SectorRange(g, off, start);
    SectorStartNext(g, start);
  }

  /** All blocks of the disk are taken. */
  ghost predicate DiskFull(sb: SuperBlock)
    requires sb.Ready()
    reads sb`dir, sb`alv, sb`dev
  {
    forall b: nat :: b < sb.g.size ==> InUse(sb.alv, b)
  }

  /** The directory blocks are always marked, so the allocator never hands out one of them. */
  lemma FreeBlockIsData(g: DiskShape, dir: seq<Entry>, alv: seq<word>, b: nat)
    requires g.Valid() && Consistent(g, dir, alv) && b < g.size && !InUse(alv, b)
    ensures g.DirBlocks() <= b && b != 0
  {
    assert g.DirBlocks() > 0 by {
      var k := Cover(g.maxdir * 32, g.blksiz);
      assert k == g.DirBlocks();
    }
  }

  /** Allocates a block for an empty slot. */
  method NewBlock(sb: SuperBlock, key: Key, extent: nat, s: nat, ghost nx: nat, ghost q: nat)
    returns (block: int)
    requires sb.Valid() && extent < sb.g.maxdir && Owns(sb.g, key, sb.dir[extent])
    requires s < sb.g.Slots() && SlotNumber(sb.g, Phys(sb.g, sb.dir[extent]), s) == q
    requires FileShape(sb.g, sb.dir, key, nx, q)
    modifies sb`dir, sb`alv
    ensures block < 0 ==> sb.Valid() && DiskFull(sb) && sb.dir == old(sb.dir)
    ensures block >= 0 ==> sb.Valid() && FileShape(sb.g, sb.dir, key, nx, q + 1) && block < sb.g.size
    ensures block >= 0 ==> forall r: nat ::
              FileBlock(sb.g, sb.dir, key, r) == if r == q then block else FileBlock(sb.g, old(sb.dir), key, r)
    ensures block >= 0 ==> Owns(sb.g, key, sb.dir[extent])
                           && Phys(sb.g, sb.dir[extent]) == old(Phys(sb.g, sb.dir[extent]))
    ensures block >= 0 ==> OtherEntriesKept(sb.g, old(sb.dir), sb.dir, key) && KeysKept(sb.g, old(sb.dir), sb.dir)
  {
    var g := sb.g;
    ghost var dir, alv := sb.dir, sb.alv;
    assert Ptr(g, dir[extent], s) == 0;
    block := sb.AllocBlock();
    if block < 0 {
      return;
    }
    FreeBlockIsData(g, dir, alv, block);
    SetPtrPtr(g, dir[extent], s, block);
    sb.dir := sb.dir[extent := SetPtr(g, sb.dir[extent], s, block)];
    assert OnlySlotChanged(g, dir, sb.dir, extent, s, block);
    assert OtherEntriesKept(g, dir, sb.dir, key) && KeysKept(g, dir, sb.dir);
    hide DiskShape.Valid, DeviceOk, SetPtr, Ptr, DiskShape.DirBlocks, DiskShape.ExtCap, BitmapAgrees, PointersInRange,
         PointersDistinct, ExtentsDistinct;
    AddPointer(g, dir, sb.dir, alv, extent, s, block);
    AddPointerShape(g, dir, sb.dir, key, nx, q, extent, s, block);
  }

  /** Copies bytes into the buffer until the block or the input ends. */
  method FillBuffer(g: DiskShape, pos: nat, buf: seq<byte>, from: nat, nextblockpos: nat, buffer: array<byte>,
                    ghost q: nat) returns (n: nat)
    requires g.Basic() && buffer.Length == BUFFER && from <= |buf|
    requires BlockNo(g, pos) == q && nextblockpos == BlockStart(g, q + 1)
    modifies buffer
    ensures n == Min(|buf| - from, nextblockpos - pos)
    ensures forall o :: 0 <= o < 16384 ==>
              buffer[o] == if BlockOff(g, pos) <= o < BlockOff(g, pos) + n then buf[from + o - BlockOff(g, pos)]
                  else old(buffer[o])
  {
    BlockRange(g, pos, q);
    ghost var off := BlockOff(g, pos);
    n := 0;
    hide BlockNo, BlockOff, BlockStart;
    while pos + n != nextblockpos && from + n < |buf|
      invariant 0 <= n <= |buf| - from && pos + n <= nextblockpos
      invariant forall o :: 0 <= o < 16384 ==>
                  buffer[o] == if off <= o < off + n then buf[from + o - off] else old(buffer[o])
    {
      BlockRange(g, pos + n, q);
      buffer[BlockOff(g, pos + n)] := buf[from + n];
      n := n + 1;
    }
  }

  /** An entry of the file in hand: the extent that holds the append position. */
  ghost predicate AtExtent(sb: SuperBlock, key: Key, extent: nat, pos: nat)
    requires sb.Ready()
    reads sb`dir, sb`alv, sb`dev
  {
    extent < sb.g.maxdir && Owns(sb.g, key, sb.dir[extent])
        && Phys(sb.g, sb.dir[extent]) == SlotExtent(sb.g, BlockNo(sb.g, pos))
  }

  /** The slot for an append position is empty exactly at a block boundary. */
  lemma SlotAtPosition(g: DiskShape, dir: seq<Entry>, key: Key, nx: nat, extent: nat, pos: nat)
    requires g.Basic() && FileShape(g, dir, key, nx, BlockCount(g, pos)) && ExtentsDistinct(g, dir)
    requires extent < |dir| && Owns(g, key, dir[extent]) && Phys(g, dir[extent]) == SlotExtent(g, BlockNo(g, pos))
    ensures var b := Ptr(g, dir[extent], SlotIndex(g, BlockNo(g, pos)));
            && FileBlock(g, dir, key, BlockNo(g, pos)) == b
            && (b == 0 <==> BlockOff(g, pos) == 0)
            && BlockCount(g, pos) == if b == 0 then BlockNo(g, pos) else BlockNo(g, pos) + 1
  {
    AppendSlot(g, pos);
    hide BlockNo, BlockOff, BlockCount, Ptr;
    FindUnique(g, dir, key, extent);
  }

  /** The second step of cpmWrite: allocate the block at `pos`, or load the part of it that stays. */
  method OpenBlock(sb: SuperBlock, key: Key, extent: nat, pos: nat, count: nat, buffer: array<byte>, ghost nx: nat)
    returns (block: int, start: nat, end: nat)
    requires sb.Valid() && AtExtent(sb, key, extent, pos) && count > 0 && buffer.Length == BUFFER
    requires FileShape(sb.g, sb.dir, key, nx, BlockCount(sb.g, pos)) && TailReadFits(sb.g, pos, count)
    modifies sb`dir, sb`alv, buffer
    ensures sb.Valid()
    ensures block < 0 ==> DiskFull(sb) && sb.dir == old(sb.dir)
    ensures block >= 0 ==> 0 < block < sb.g.size && AtExtent(sb, key, extent, pos)
    ensures block >= 0 ==> FileShape(sb.g, sb.dir, key, nx, BlockNo(sb.g, pos) + 1)
    ensures block >= 0 ==> FileBlock(sb.g, sb.dir, key, BlockNo(sb.g, pos)) == block
    ensures block >= 0 ==> forall r: nat :: r != BlockNo(sb.g, pos) || BlockOff(sb.g, pos) != 0 ==>
              FileBlock(sb.g, sb.dir, key, r) == FileBlock(sb.g, old(sb.dir), key, r)
    ensures block >= 0 ==> OtherEntriesKept(sb.g, old(sb.dir), sb.dir, key) && KeysKept(sb.g, old(sb.dir), sb.dir)
    ensures block >= 0 ==> CoversTransfer(sb.g, start, end, BlockOff(sb.g, pos), count)
    ensures block >= 0 ==> HeadBuffered(sb.g, sb.dev, block, buffer[..], start, BlockOff(sb.g, pos))
  {
    var g := sb.g;
    ghost var dir := sb.dir;
    ghost var q := BlockNo(g, pos);
    PositionSlot(g, pos);
    var ptr := (pos % g.ExtCap()) / g.blksiz;
    assert ptr == SlotIndex(g, q);
    block := Ptr(g, sb.dir[extent], ptr);
    SlotAtPosition(g, dir, key, nx, extent, pos);
    assert block != 0 ==> block < g.size;
    start, end := 0, 0;
    hide DiskShape.Valid, DeviceOk, DiskShape.DirBlocks, DiskShape.ExtCap, Consistent, FileShape;
    hide BlockNo, BlockOff, BlockCount, Ptr, BlockByte, SlotIndex, SlotExtent, FileBlock;
    if block == 0 {
      block := NewBlock(sb, key, extent, ptr, nx, q);
      if block < 0 {
        return;
      }
      end := SectorIndex(g, g.blksiz - 1);
      WholeBlock(g, count);
      ClearBuffer(buffer);
    } else {
      start, end := ReadPartialBlock(sb, block, pos, count, buffer);
    }
  }

  /** No entry changes its status or its name. */
  ghost predicate KeysKept(g: DiskShape, dir: seq<Entry>, dir': seq<Entry>) {
    |dir'| == |dir| && forall k ::
        0 <= k < |dir| && Live(g, dir[k]) ==> Live(g, dir'[k]) && KeyOf(dir'[k]) == KeyOf(dir[k])
  }

  method ClearBuffer(buffer: array<byte>)
    modifies buffer
    ensures forall o :: 0 <= o < buffer.Length ==> buffer[o] == 0
  {
    forall o | 0 <= o < buffer.Length {
      buffer[o] := 0;
    }
  }

  lemma WholeBlock(g: DiskShape, count: nat)
    requires g.Valid() && count > 0
    ensures CoversTransfer(g, 0, SectorIndex(g, g.blksiz - 1), 0, count)
  {
    TransferSectors(g, 0, g.blksiz);
    SectorStartNext(g, 0);
  }

  /** The highest slot of an entry in use; -1 or 0 when there is none. */
  method LastUsedSlot(sb: SuperBlock, extent: nat) returns (last: int)
    requires sb.g.Basic() && extent < |sb.dir|
    ensures -1 <= last < sb.g.Slots()
  {
    var p := sb.dir[extent].pointers;
    if sb.g.size < 256 {
      last := 15;
      while last >= 0 && p[last] == 0
        invariant -1 <= last <= 15
      {
        last := last - 1;
      }
    } else {
      last := 14;
      while last > 0 && p[last] == 0 && p[last + 1] == 0
        invariant 0 <= last <= 14 && last % 2 == 0
      {
        last := last - 2;
      }
      last := last / 2;
    }
  }

  /** Writes the buffer to the block and records the new end of the file in the entry. */
  method FlushBlock(sb: SuperBlock, key: Key, extent: nat, extentno: nat, block: nat, start: nat, end: nat, n: nat,
                    buffer: array<byte>,
                    ghost nx: nat, ghost nb: nat)
    requires sb.Valid() && extent < sb.g.maxdir && Owns(sb.g, key, sb.dir[extent])
    requires n > 0 && extentno < 2048 && extentno / sb.g.extents == Phys(sb.g, sb.dir[extent])
    requires block < sb.g.size && end < sb.g.Spb() && SectorStart(sb.g, end + 1) <= buffer.Length
    requires FileShape(sb.g, sb.dir, key, nx, nb)
    modifies sb`dir, sb`dev
    ensures sb.Valid() && FileShape(sb.g, sb.dir, key, nx, nb)
    ensures Owns(sb.g, key, sb.dir[extent]) && Phys(sb.g, sb.dir[extent]) == old(Phys(sb.g, sb.dir[extent]))
    ensures Stamped(sb.g, sb.dir[extent], n, extentno)
    ensures forall q: nat :: FileBlock(sb.g, sb.dir, key, q) == FileBlock(sb.g, old(sb.dir), key, q)
    ensures OtherEntriesKept(sb.g, old(sb.dir), sb.dir, key) && KeysKept(sb.g, old(sb.dir), sb.dir)
    ensures OnlyBlockWritten(sb.g, old(sb.dev), sb.dev, block)
    ensures forall o: nat :: o < sb.g.blksiz ==>
              BlockByte(sb.g, sb.dev, block, o) ==
              if SectorStart(sb.g, start) <= o < SectorStart(sb.g, end + 1) && o < buffer.Length then buffer[o]
              else BlockByte(sb.g, old(sb.dev), block, o)
  {
    var g := sb.g;
    ghost var dir := sb.dir;
    hide DiskShape.Valid, DiskShape.DirBlocks, DeviceOk, FileShape, Consistent, FileBlock, BlockByte, SectorStart,
         DiskShape.Spb;
    sb.WriteBlock(block, buffer, start, end);
    var last := LastUsedSlot(sb, extent);
    var no := extentno;
    if last > 0 {
      LastSlotSameExtent(g, last);
      no := no + last * g.blksiz / g.ExtCap();
    }
    StampKeepsSlots(g, dir, extent, n, no);
    sb.dir := sb.dir[extent := Stamp(g, sb.dir[extent], n, no)];
    assert sb.dir == dir[extent := Stamp(g, dir[extent], n, no)];
    hide Phys, Stamp, Stamped, KeyOf, Ptr;
    KeepPointers(g, dir, sb.dir, sb.alv, extent);
    KeepPointersShape(g, dir, sb.dir, key, nx, nb, extent);
  }

  /** The bytes of the block in front of `off` stay, and the chunk follows them. */
  ghost predicate BlockExtended(g: DiskShape, dev: seq<Sector>, dev': seq<Sector>, block: nat, off: nat,
                                chunk: seq<byte>)
    requires g.Basic()
  {
    && OnlyBlockWritten(g, dev, dev', block)
    && off + |chunk| <= g.blksiz
    && (forall o: nat :: o < off ==> BlockByte(g, dev', block, o) == BlockByte(g, dev, block, o))
    && (forall o: nat :: off <= o < off + |chunk| ==> BlockByte(g, dev', block, o) == chunk[o - off])
  }

  lemma BufferExtendsBlock(g: DiskShape, dev: seq<Sector>, dev': seq<Sector>, block: nat, off: nat, chunk: seq<byte>,
                           loaded: seq<byte>, filled: seq<byte>, start: nat, end: nat, count: nat)
    requires g.Basic() && off < g.blksiz && OnlyBlockWritten(g, dev, dev', block)
    requires |loaded| == |filled| == 16384 && |chunk| == Min(count, g.blksiz - off)
    requires CoversTransfer(g, start, end, off, count) && HeadBuffered(g, dev, block, loaded, start, off)
    requires forall o :: 0 <= o < 16384 ==> filled[o] == if off <= o < off + |chunk| then chunk[o - off] else loaded[o]
    requires forall o: nat :: o < g.blksiz ==>
               BlockByte(g, dev', block, o) ==
               if SectorStart(g, start) <= o < SectorStart(g, end + 1)
                   && o < |filled| then filled[o] else BlockByte(g, dev, block, o)
    ensures BlockExtended(g, dev, dev', block, off, chunk)
  {
    hide SectorStart, DiskShape.Spb, BlockByte, OnlyBlockWritten;
  }

  /** The last step of cpmWrite for one block: fill it from the input and write it. */
  method WriteChunk(sb: SuperBlock, key: Key, pos: nat, buf: seq<byte>, from: nat, extent: nat, extentno: nat,
                    block: nat, start: nat, end: nat, buffer: array<byte>, ghost nx: nat, ghost q: nat)
    returns (n: nat)
    requires sb.Valid() && from < |buf| && buffer.Length == BUFFER
    requires q == BlockNo(sb.g, pos) && AtExtent(sb, key, extent, pos)
    requires extentno < 2048 && extentno / sb.g.extents == SlotExtent(sb.g, q)
    requires FileShape(sb.g, sb.dir, key, nx, q + 1) && 0 < block < sb.g.size
    requires CoversTransfer(sb.g, start, end, BlockOff(sb.g, pos), |buf| - from)
    requires HeadBuffered(sb.g, sb.dev, block, buffer[..], start, BlockOff(sb.g, pos))
    modifies buffer, sb`dir, sb`dev
    ensures sb.Valid() && AtExtent(sb, key, extent, pos)
    ensures 0 < n == Min(|buf| - from, BlockStart(sb.g, q + 1) - pos)
    ensures FileShape(sb.g, sb.dir, key, nx, q + 1)
    ensures Stamped(sb.g, sb.dir[extent], pos + n, extentno)
    ensures forall r: nat :: FileBlock(sb.g, sb.dir, key, r) == FileBlock(sb.g, old(sb.dir), key, r)
    ensures OtherEntriesKept(sb.g, old(sb.dir), sb.dir, key) && KeysKept(sb.g, old(sb.dir), sb.dir)
    ensures BlockExtended(sb.g, old(sb.dev), sb.dev, block, BlockOff(sb.g, pos), buf[from..from + n])
  {
    var g := sb.g;
    ghost var dev, off, loaded := sb.dev, BlockOff(g, pos), buffer[..];
    BlockRange(g, pos, q);
    var nextblockpos := pos / g.blksiz * g.blksiz + g.blksiz;
    assert nextblockpos == BlockStart(g, q + 1);
    hide DiskShape.Valid, DiskShape.DirBlocks, DeviceOk, FileShape, Consistent, FileBlock, BlockByte, SectorStart,
         DiskShape.Spb;
    hide BlockNo, BlockOff, BlockStart, SlotExtent, Phys, KeyOf, Stamped, CoversTransfer, HeadBuffered, BlockExtended;
    n := FillBuffer(g, pos, buf, from, nextblockpos, buffer, q);
    CoveredSectors(g, start, end, off, |buf| - from);
    FlushBlock(sb, key, extent, extentno, block, start, end, pos + n, buffer, nx, q + 1);
    BufferExtendsBlock(g, dev, sb.dev, block, off, buf[from..from + n], loaded, buffer[..], start, end, |buf| - from);
  }

  lemma CoveredSectors(g: DiskShape, start: nat, end: nat, off: nat, count: nat)
    requires g.Basic() && CoversTransfer(g, start, end, off, count)
    ensures end < g.Spb() && SectorStart(g, end + 1) <= 16384
  {
  }

  /** Growing the block that holds the append position is an append to the file. */
  lemma BlockExtendedAppends(g: DiskShape, dir: seq<Entry>, dev: seq<Sector>, dir': seq<Entry>, dev': seq<Sector>,
                             key: Key, pos: nat, block: nat, chunk: seq<byte>)
    requires g.Valid() && DirOk(g, dir') && 0 < block < g.size
    requires FileBlock(g, dir', key, BlockNo(g, pos)) == block
    requires forall r: nat :: r != BlockNo(g, pos) || BlockOff(g, pos) != 0 ==>
               FileBlock(g, dir', key, r) == FileBlock(g, dir, key, r)
    requires BlockExtended(g, dev, dev', block, BlockOff(g, pos), chunk)
    requires OtherEntriesKept(g, dir, dir', key) && KeysKept(g, dir, dir')
    ensures Appended(g, dir, dev, dir', dev', key, pos, chunk)
  {
    var q, off := BlockNo(g, pos), BlockOff(g, pos);
    BlockRange(g, pos, q);
    hide DiskShape.Valid, DiskShape.DirBlocks, DeviceOk, FileBlock, BlockByte, BlockNo, BlockOff, BlockStart,
         PointersDistinct, PointersInRange, ExtentsDistinct;
    assert ChunkWritten(g, dir, dev, dir', dev', key, q, block, off, chunk);
    hide ChunkWritten;
    ChunkAppended(g, dir, dev, dir', dev', key, q, block, off, chunk);
    ChunkLeavesOthers(g, dir, dev, dir', dev', key, q, block, off, chunk);
  }

  /** One round of cpmWrite behind the extent lookup: open the block at the position, fill it, write it. */
  method AppendBlock(sb: SuperBlock, key: Key, pos: nat, buf: seq<byte>, from: nat, extent: nat, extentno: nat,
                     buffer: array<byte>, ghost nx: nat)
    returns (n: int)
    requires sb.Valid() && from < |buf| && buffer.Length == BUFFER
    requires AtExtent(sb, key, extent, pos) && TailReadFits(sb.g, pos, |buf| - from)
    requires extentno < 2048 && extentno / sb.g.extents == SlotExtent(sb.g, BlockNo(sb.g, pos))
    requires FileShape(sb.g, sb.dir, key, nx, BlockCount(sb.g, pos))
    modifies buffer, sb`dir, sb`alv, sb`dev
    ensures sb.Valid()
    ensures n < 0 ==> DiskFull(sb) && sb.dir == old(sb.dir) && sb.dev == old(sb.dev)
    ensures n >= 0 ==> 0 < n == Min(|buf| - from, BlockStart(sb.g, BlockNo(sb.g, pos) + 1) - pos)
    ensures n >= 0 ==> Appended(sb.g, old(sb.dir), old(sb.dev), sb.dir, sb.dev, key, pos, buf[from..from + n])
    ensures n >= 0 ==> FileShape(sb.g, sb.dir, key, nx, BlockNo(sb.g, pos) + 1)
    ensures n >= 0 ==> AtExtent(sb, key, extent, pos) && Stamped(sb.g, sb.dir[extent], pos + n, extentno)
  {
    hide DiskShape.Valid, DiskShape.DirBlocks, DiskShape.ExtCap, DeviceOk, FileShape, FileBlock, BlockByte,
         SectorStart, DiskShape.Spb, AtExtent, DiskFull;
    hide BlockNo, BlockOff, BlockStart, BlockCount, SlotExtent, Phys, KeyOf, Stamped, CoversTransfer, HeadBuffered,
         TailReadFits, BlockExtended;
    hide PointersInRange, PointersDistinct, ExtentsDistinct, BitmapAgrees, Appended;
    ghost var dir, dev := sb.dir, sb.dev;
    ghost var q := BlockNo(sb.g, pos);
    var block, start, end := OpenBlock(sb, key, extent, pos, |buf| - from, buffer, nx);
    if block < 0 {
      return -1;
    }
    n := WriteChunk(sb, key, pos, buf, from, extent, extentno, block, start, end, buffer, nx, q);
    BlockExtendedAppends(sb.g, dir, dev, sb.dir, sb.dev, key, pos, block, buf[from..from + n]);
  }

  /** The effect of appending `data` at position `n`: the file grows by exactly that, everything else stays. */
  ghost predicate Appended(g: DiskShape, dir: seq<Entry>, dev: seq<Sector>, dir': seq<Entry>, dev': seq<Sector>,
                           key: Key, n: nat, data: seq<byte>)
    requires g.Basic()
  {
    && FileBytes(g, dir', dev', key, 0, n + |data|) == FileBytes(g, dir, dev, key, 0, n) + data
    && OtherEntriesKept(g, dir, dir', key)
    && OtherBytesKept(g, dir, dev, dev', key)
    && KeysKept(g, dir, dir')
  }

  lemma AppendedKeepsOwner(g: DiskShape, dir: seq<Entry>, dev: seq<Sector>, dir': seq<Entry>, dev': seq<Sector>,
                           key: Key, n: nat, data: seq<byte>, i: nat)
    requires g.Basic() && Appended(g, dir, dev, dir', dev', key, n, data)
    requires i < |dir| && Owns(g, key, dir[i])
    ensures |dir'| == |dir| && Owns(g, key, dir'[i])
  {
  }

  lemma AppendedTransitive(g: DiskShape, dir: seq<Entry>, dev: seq<Sector>, dir': seq<Entry>, dev': seq<Sector>,
                           dir'': seq<Entry>, dev'': seq<Sector>, key: Key, n: nat, a: seq<byte>, b: seq<byte>)
    requires g.Basic()
    requires Appended(g, dir, dev, dir', dev', key, n, a)
    requires Appended(g, dir', dev', dir'', dev'', key, n + |a|, b)
    ensures Appended(g, dir, dev, dir'', dev'', key, n, a + b)
  {
    OthersKeptTransitive(g, dir, dev, dir', dev', dir'', dev'', key);
    hide FileBytes, OtherEntriesKept, OtherBytesKept;
    assert FileBytes(g, dir, dev, key, 0, n) + a + b == FileBytes(g, dir, dev, key, 0, n) + (a + b);
  }

  /** Appending the next `k` bytes of `buf` after the first `got`. */
  lemma AppendedMore(g: DiskShape, dir: seq<Entry>, dev: seq<Sector>, dir': seq<Entry>, dev': seq<Sector>,
                     dir'': seq<Entry>, dev'': seq<Sector>, key: Key, n: nat, buf: seq<byte>, got: nat, k: nat)
    requires g.Basic() && got + k <= |buf|
    requires Appended(g, dir, dev, dir', dev', key, n, buf[..got])
    requires Appended(g, dir', dev', dir'', dev'', key, n + got, buf[got..got + k])
    ensures Appended(g, dir, dev, dir'', dev'', key, n, buf[..got + k])
  {
    AppendedTransitive(g, dir, dev, dir', dev', dir'', dev'', key, n, buf[..got], buf[got..got + k]);
    hide Appended;
    assert buf[..got] + buf[got..got + k] == buf[..got + k];
  }

  lemma AppendedThenNothing(g: DiskShape, dir: seq<Entry>, dev: seq<Sector>, dir': seq<Entry>, dev': seq<Sector>,
                            dir'': seq<Entry>, dev'': seq<Sector>, key: Key, n: nat, data: seq<byte>)
    requires g.Basic()
    requires Appended(g, dir, dev, dir', dev', key, n, data)
    requires Appended(g, dir', dev', dir'', dev'', key, n + |data|, [])
    ensures Appended(g, dir, dev, dir'', dev'', key, n, data)
  {
    AppendedTransitive(g, dir, dev, dir', dev', dir'', dev'', key, n, data, []);
    hide Appended;
    assert data + [] == data;
  }

  /** A new extent without blocks appends nothing. */
  lemma NothingAppended(g: DiskShape, dir: seq<Entry>, dev: seq<Sector>, dir': seq<Entry>, key: Key, n: nat)
    requires g.Basic() && DeviceOk(g, dev)
    requires forall q: nat :: FileBlock(g, dir', key, q) == FileBlock(g, dir, key, q)
    requires OtherEntriesKept(g, dir, dir', key) && KeysKept(g, dir, dir')
    ensures Appended(g, dir, dev, dir', dev, key, n, [])
  {
    hide FileBlock, DeviceOk;
    assert FileBytes(g, dir', dev, key, 0, n) == FileBytes(g, dir, dev, key, 0, n) + [];
  }

  /** No directory entry is free. */
  ghost predicate DirectoryFull(sb: SuperBlock)
    reads sb`dir
  {
    forall i :: 0 <= i < |sb.dir| ==> sb.dir[i].status != ERASED
  }

  /** The first step of cpmWrite: the extent for `pos`, its number, and where the next one begins. */
  method EnterAppendExtent(sb: SuperBlock, ino: nat, key: Key, pos: nat, ghost nx: nat, ghost r: nat)
    returns (extent: int, extentno: nat, nextextpos: nat, ghost nx': nat)
    requires sb.Valid() && ino < sb.g.maxdir && Owns(sb.g, key, sb.dir[ino]) && pos < MAXFILE
    requires FileState(sb.g, sb.dir, key, pos, nx, r)
    modifies sb`dir
    ensures sb.Valid() && FileState(sb.g, sb.dir, key, pos, nx', r)
    ensures Appended(sb.g, old(sb.dir), sb.dev, sb.dir, sb.dev, key, pos, [])
    ensures extent < 0 ==> DirectoryFull(sb)
    ensures extent >= 0 ==> AtExtent(sb, key, extent, pos)
    ensures extentno == pos / 16384 < 2048 && extentno / sb.g.extents == SlotExtent(sb.g, BlockNo(sb.g, pos))
    ensures pos < nextextpos == ExtentStart(sb.g, SlotExtent(sb.g, BlockNo(sb.g, pos)) + 1)
  {
    hide DiskShape.Valid, DiskShape.DirBlocks, DiskShape.ExtCap, BlockNo, BlockCount, BlockStart, ExtentStart,
         FileShape, LastExtentRecords, FileBlock;
    hide SlotExtent, Phys, KeyOf, PointersInRange, PointersDistinct, ExtentsDistinct, BitmapAgrees, DeviceOk,
         OtherEntriesKept, KeysKept, Appended;
    var g := sb.g;
    ghost var dir := sb.dir;
    PositionSlot(g, pos);
    NextExtentStart(g, pos);
    extentno := pos / 16384;
    nextextpos := pos / g.ExtCap() * g.ExtCap() + g.ExtCap();
    extent, nx' := OpenExtent(sb, ino, pos, nx);
    NothingAppended(g, dir, sb.dev, sb.dir, key, pos);
    if nx' != nx {
      EmptyExtentRecords(g, sb.dir, key, pos, nx, r, extent);
    }
  }

  /** One block's worth of writing in the extent in hand. */
  method AppendRound(sb: SuperBlock, key: Key, pos: nat, buf: seq<byte>, from: nat, extent: nat, extentno: nat,
                     buffer: array<byte>, ghost nx: nat, ghost r: nat)
    returns (n: int)
    requires sb.Valid() && from < |buf| && buffer.Length == BUFFER
    requires AtExtent(sb, key, extent, pos) && TailReadFits(sb.g, pos, |buf| - from)
    requires extentno < 2048 && extentno / sb.g.extents == SlotExtent(sb.g, BlockNo(sb.g, pos))
    requires FileState(sb.g, sb.dir, key, pos, nx, r)
    modifies buffer, sb`dir, sb`alv, sb`dev
    ensures sb.Valid()
    ensures n < 0 ==> DiskFull(sb) && sb.dir == old(sb.dir) && sb.dev == old(sb.dev)
    ensures n >= 0 ==> 0 < n == Min(|buf| - from, BlockStart(sb.g, BlockNo(sb.g, pos) + 1) - pos)
    ensures n >= 0 ==> Appended(sb.g, old(sb.dir), old(sb.dev), sb.dir, sb.dev, key, pos, buf[from..from + n])
    ensures n >= 0 ==> FileState(sb.g, sb.dir, key, pos + n, nx, extentno)
    ensures n >= 0 ==> AtExtent(sb, key, extent, pos)
  {
    ghost var q := BlockNo(sb.g, pos);
    BlockRange(sb.g, pos, q);
    AppendsToLastExtent(sb.g, sb.dir, key, pos, nx, r, extent);
    hide DiskShape.Valid, DiskShape.DirBlocks, DiskShape.ExtCap, DeviceOk, BlockNo, BlockCount, BlockStart, FileShape,
         Stamped, LastExtentRecords, SlotExtent, Phys, KeyOf;
    hide PointersInRange, PointersDistinct, BitmapAgrees, ExtentsDistinct, TailReadFits, Appended;
    n := AppendBlock(sb, key, pos, buf, from, extent, extentno, buffer, nx);
    if n >= 0 {
      WrittenExtentRecords(sb.g, sb.dir, key, pos + n, nx, extentno, extent, q);
    }
  }

  /** The variables that cpmWrite carries from one round to the next. */
  datatype WriteCursor = WriteCursor(findext: bool, extent: int, extentno: nat, nextextpos: nat)

  /** The extent for `pos` is in hand, entered by the call that started at `pos0`. */
  ghost predicate InHand(sb: SuperBlock, key: Key, pos0: nat, pos: nat, c: WriteCursor)
    requires sb.Ready()
    reads sb`dir, sb`alv, sb`dev
  {
    && c.extent >= 0 && AtExtent(sb, key, c.extent, pos)
    && c.extentno < 2048 && c.extentno / sb.g.extents == SlotExtent(sb.g, BlockNo(sb.g, pos))
    && c.extentno == Max(pos0, ExtentStart(sb.g, SlotExtent(sb.g, BlockNo(sb.g, pos)))) / 16384
    && pos < c.nextextpos == ExtentStart(sb.g, SlotExtent(sb.g, BlockNo(sb.g, pos)) + 1)
  }

  ghost predicate WriteCursorOk(sb: SuperBlock, key: Key, pos0: nat, pos: nat, c: WriteCursor)
    requires sb.Ready()
    reads sb`dir, sb`alv, sb`dev
  {
    if c.findext then pos0 <= pos && (pos == pos0 || pos == ExtentStart(sb.g, SlotExtent(sb.g, BlockNo(sb.g, pos))))
    else InHand(sb, key, pos0, pos, c)
  }

  /** Bookkeeping at the end of a round that appended `n` bytes at `pos`. */
  lemma RoundEnds(sb: SuperBlock, key: Key, pos0: nat, pos: nat, n: nat, c: WriteCursor, nextblockpos: nat)
    requires sb.Ready() && !c.findext && InHand(sb, key, pos0, pos, c) && pos0 <= pos
    requires nextblockpos == BlockStart(sb.g, BlockNo(sb.g, pos) + 1) && 0 < n <= nextblockpos - pos
    ensures RecordedExtent(sb.g, pos0, pos + n) == c.extentno
    ensures pos + n == nextblockpos ==> BlockOff(sb.g, pos + n) == 0
    ensures pos + n == nextblockpos ==> WriteCursorOk(sb, key, pos0, pos + n, c.(findext := pos + n == c.nextextpos))
  {
    hide BlockStart, BlockNo, BlockOff, DiskShape.Valid, DeviceOk, DiskShape.DirBlocks, DiskShape.ExtCap, KeyOf, Phys;
    var g := sb.g;
    var q := BlockNo(g, pos);
    BlockRange(g, pos, q);
    BlockRange(g, pos + n - 1, q);
    NextBlockExtent(g, q);
    BlockStartBoundary(g, q + 1);
    BlockRange(g, nextblockpos, q + 1);
    BlockStartBoundary(g, SlotNumber(g, SlotExtent(g, q) + 1, 0));
  }

  /** Takes the extent for `pos` in hand, unless the previous round left it there. */
  method TakeInHand(sb: SuperBlock, ino: nat, key: Key, ghost pos0: nat, pos: nat, c: WriteCursor, ghost nx: nat,
                    ghost r: nat)
    returns (c': WriteCursor, ghost nx': nat)
    requires sb.Valid() && ino < sb.g.maxdir && Owns(sb.g, key, sb.dir[ino]) && pos0 <= pos < MAXFILE
    requires FileState(sb.g, sb.dir, key, pos, nx, r) && WriteCursorOk(sb, key, pos0, pos, c)
    modifies sb`dir
    ensures sb.Valid() && FileState(sb.g, sb.dir, key, pos, nx', r)
    ensures Appended(sb.g, old(sb.dir), sb.dev, sb.dir, sb.dev, key, pos, [])
    ensures !c'.findext
    ensures c'.extent < 0 ==> DirectoryFull(sb)
    ensures c'.extent >= 0 ==> InHand(sb, key, pos0, pos, c')
  {
    c', nx' := c, nx;
    if c.findext {
      NextExtentStart(sb.g, pos);
      hide DiskShape.Valid, DiskShape.DirBlocks, DiskShape.ExtCap, DeviceOk, Consistent, KeyOf, Phys, FileState,
           Appended, BlockNo, ExtentStart, SlotExtent;
      var extent, extentno, nextextpos;
      extent, extentno, nextextpos, nx' := EnterAppendExtent(sb, ino, key, pos, nx, r);
      c' := WriteCursor(false, extent, extentno, nextextpos);
    } else {
      NothingAppended(sb.g, sb.dir, sb.dev, sb.dir, key, pos);
    }
  }

  /**
   * A call of cpmWrite that started in the state (dir0, dev0) has appended the first `got` bytes of `buf` at `pos0`.
   */
  ghost predicate Written(sb: SuperBlock, ino: nat, key: Key, dir0: seq<Entry>, dev0: seq<Sector>, pos0: nat,
                          buf: seq<byte>, got: nat, nx: nat, r0: nat, r: nat)
    reads sb
  {
    && sb.Valid() && ino < sb.g.maxdir && Owns(sb.g, key, sb.dir[ino])
    && got <= |buf| && pos0 + |buf| <= MAXFILE
    && FileState(sb.g, sb.dir, key, pos0 + got, nx, r)
    && Appended(sb.g, dir0, dev0, sb.dir, sb.dev, key, pos0, buf[..got])
    && r == if got == 0 then r0 else RecordedExtent(sb.g, pos0, pos0 + got)
  }

  /** The next round can start: the cursor is good and the misplaced read of the last sector stays in the buffer. */
  ghost predicate MoreToWrite(sb: SuperBlock, key: Key, pos0: nat, buf: seq<byte>, got: nat, c: WriteCursor)
    reads sb
  {
    && sb.Ready() && got <= |buf|
    && (got < |buf| ==> TailReadFits(sb.g, pos0 + got, |buf| - got) && WriteCursorOk(sb, key, pos0, pos0 + got, c))
  }

  lemma WrittenMeans(sb: SuperBlock, ino: nat, key: Key, dir0: seq<Entry>, dev0: seq<Sector>, pos0: nat,
                     buf: seq<byte>, got: nat, nx: nat, r0: nat, r: nat)
    requires Written(sb, ino, key, dir0, dev0, pos0, buf, got, nx, r0, r)
    ensures sb.Valid() && ino < sb.g.maxdir && |sb.dir| == sb.g.maxdir && Owns(sb.g, key, sb.dir[ino])
    ensures got <= |buf| && pos0 + |buf| <= MAXFILE
    ensures FileState(sb.g, sb.dir, key, pos0 + got, nx, r)
    ensures Appended(sb.g, dir0, dev0, sb.dir, sb.dev, key, pos0, buf[..got])
    ensures r == if got == 0 then r0 else RecordedExtent(sb.g, pos0, pos0 + got)
  {
  }

  lemma CanContinue(sb: SuperBlock, key: Key, pos0: nat, buf: seq<byte>, got: nat, c: WriteCursor)
    requires sb.Ready() && MoreToWrite(sb, key, pos0, buf, got, c) && got < |buf|
    ensures TailReadFits(sb.g, pos0 + got, |buf| - got) && WriteCursorOk(sb, key, pos0, pos0 + got, c)
  {
  }

  lemma InHandMeans(sb: SuperBlock, key: Key, pos0: nat, pos: nat, c: WriteCursor)
    requires sb.Ready() && InHand(sb, key, pos0, pos, c)
    ensures AtExtent(sb, key, c.extent, pos)
    ensures c.extentno < 2048 && c.extentno / sb.g.extents == SlotExtent(sb.g, BlockNo(sb.g, pos))
    ensures c.extentno == Max(pos0, ExtentStart(sb.g, SlotExtent(sb.g, BlockNo(sb.g, pos)))) / 16384
    ensures pos < c.nextextpos == ExtentStart(sb.g, SlotExtent(sb.g, BlockNo(sb.g, pos)) + 1)
  {
  }

  lemma InHandIs(sb: SuperBlock, key: Key, pos0: nat, pos: nat, c: WriteCursor)
    requires sb.Ready() && c.extent >= 0 && AtExtent(sb, key, c.extent, pos)
    requires c.extentno < 2048 && c.extentno / sb.g.extents == SlotExtent(sb.g, BlockNo(sb.g, pos))
    requires c.extentno == Max(pos0, ExtentStart(sb.g, SlotExtent(sb.g, BlockNo(sb.g, pos)))) / 16384
    requires pos < c.nextextpos == ExtentStart(sb.g, SlotExtent(sb.g, BlockNo(sb.g, pos)) + 1)
    ensures InHand(sb, key, pos0, pos, c)
  {
  }

  lemma WrittenIs(sb: SuperBlock, ino: nat, key: Key, dir0: seq<Entry>, dev0: seq<Sector>, pos0: nat,
                  buf: seq<byte>, got: nat, nx: nat, r0: nat, r: nat)
    requires sb.Valid() && ino < |sb.dir| && Owns(sb.g, key, sb.dir[ino]) && got <= |buf| && pos0 + |buf| <= MAXFILE
    requires FileState(sb.g, sb.dir, key, pos0 + got, nx, r)
    requires Appended(sb.g, dir0, dev0, sb.dir, sb.dev, key, pos0, buf[..got])
    requires r == if got == 0 then r0 else RecordedExtent(sb.g, pos0, pos0 + got)
    ensures Written(sb, ino, key, dir0, dev0, pos0, buf, got, nx, r0, r)
  {
  }

  /** Taking an extent in hand does not disturb what has been written. */
  lemma StillWritten(sb: SuperBlock, ino: nat, key: Key, dir0: seq<Entry>, dev0: seq<Sector>, pos0: nat,
                     buf: seq<byte>, got: nat, nx: nat, r0: nat, r: nat, dir: seq<Entry>, dev: seq<Sector>)
    requires sb.Valid() && ino < |dir| && Owns(sb.g, key, dir[ino]) && got <= |buf| && pos0 + |buf| <= MAXFILE
    requires FileState(sb.g, sb.dir, key, pos0 + got, nx, r)
    requires Appended(sb.g, dir0, dev0, dir, dev, key, pos0, buf[..got])
    requires Appended(sb.g, dir, dev, sb.dir, sb.dev, key, pos0 + got, [])
    requires r == if got == 0 then r0 else RecordedExtent(sb.g, pos0, pos0 + got)
    ensures Written(sb, ino, key, dir0, dev0, pos0, buf, got, nx, r0, r)
  {
    hide DiskShape.Valid, DiskShape.DirBlocks, DiskShape.ExtCap, Consistent, KeyOf, FileState, Appended, RecordedExtent;
    AppendedKeepsOwner(sb.g, dir, dev, sb.dir, sb.dev, key, pos0 + got, [], ino);
    AppendedThenNothing(sb.g, dir0, dev0, dir, dev, sb.dir, sb.dev, key, pos0, buf[..got]);
  }

  /** A round that wrote `n` bytes adds them to what has been written. */
  lemma MoreWritten(sb: SuperBlock, ino: nat, key: Key, dir0: seq<Entry>, dev0: seq<Sector>, pos0: nat,
                    buf: seq<byte>, got: nat, n: nat, nx: nat, r0: nat, c: WriteCursor, dir: seq<Entry>,
                        dev: seq<Sector>)
    requires sb.Valid() && ino < |dir| && Owns(sb.g, key, dir[ino]) && got + n <= |buf| && pos0 + |buf| <= MAXFILE
    requires FileState(sb.g, sb.dir, key, pos0 + got + n, nx, c.extentno)
    requires Appended(sb.g, dir0, dev0, dir, dev, key, pos0, buf[..got])
    requires Appended(sb.g, dir, dev, sb.dir, sb.dev, key, pos0 + got, buf[got..got + n])
    requires !c.findext && InHand(sb, key, pos0, pos0 + got, c)
    requires 0 < n == Min(|buf| - got, BlockStart(sb.g, BlockNo(sb.g, pos0 + got) + 1) - (pos0 + got))
    ensures Written(sb, ino, key, dir0, dev0, pos0, buf, got + n, nx, r0, c.extentno)
    ensures MoreToWrite(sb, key, pos0, buf, got + n, c.(findext := pos0 + got + n == c.nextextpos))
  {
    hide DiskShape.Valid, DiskShape.DirBlocks, DiskShape.ExtCap, Consistent, KeyOf, FileState, Appended,
         RecordedExtent, BlockStart, BlockNo, WriteCursorOk, InHand, BlockOff;
    AppendedKeepsOwner(sb.g, dir, dev, sb.dir, sb.dev, key, pos0 + got, buf[got..got + n], ino);
    AppendedMore(sb.g, dir0, dev0, dir, dev, sb.dir, sb.dev, key, pos0, buf, got, n);
    RoundEnds(sb, key, pos0, pos0 + got, n, c, BlockStart(sb.g, BlockNo(sb.g, pos0 + got) + 1));
  }

  /** One round of cpmWrite: enter the extent if necessary, then write one block's worth. */
  method WriteRound(sb: SuperBlock, ino: nat, key: Key, ghost dir0: seq<Entry>, ghost dev0: seq<Sector>, pos0: nat,
                    buf: seq<byte>, got: nat, c: WriteCursor, buffer: array<byte>, ghost nx: nat, ghost r0: nat,
                        ghost r: nat)
    returns (n: int, c': WriteCursor, ghost nx': nat, ghost r': nat)
    requires Written(sb, ino, key, dir0, dev0, pos0, buf, got, nx, r0, r)
    requires got < |buf| && MoreToWrite(sb, key, pos0, buf, got, c) && buffer.Length == BUFFER
    modifies buffer, sb`dir, sb`alv, sb`dev
    ensures n < 0 ==> Written(sb, ino, key, dir0, dev0, pos0, buf, got, nx', r0, r')
                      && (DiskFull(sb) || DirectoryFull(sb))
    ensures n >= 0 ==> 0 < n <= |buf| - got && Written(sb, ino, key, dir0, dev0, pos0, buf, got + n, nx', r0, r')
    ensures n >= 0 ==> MoreToWrite(sb, key, pos0, buf, got + n, c')
  {
    hide *;
    ghost var pos, dir, dev := pos0 + got, sb.dir, sb.dev;
    WrittenMeans(sb, ino, key, dir0, dev0, pos0, buf, got, nx, r0, r);
    CanContinue(sb, key, pos0, buf, got, c);
    c', nx' := TakeInHand(sb, ino, key, pos0, pos0 + got, c, nx, r);
    r', n := r, -1;
    StillWritten(sb, ino, key, dir0, dev0, pos0, buf, got, nx', r0, r, dir, dev);
    if c'.extent < 0 {
      return;
    }
    ghost var dir1 := sb.dir;
    WrittenMeans(sb, ino, key, dir0, dev0, pos0, buf, got, nx', r0, r);
    InHandMeans(sb, key, pos0, pos, c');
    n := AppendRound(sb, key, pos0 + got, buf, got, c'.extent, c'.extentno, buffer, nx', r);
    if n >= 0 {
      InHandIs(sb, key, pos0, pos, c');
      MoreWritten(sb, ino, key, dir0, dev0, pos0, buf, got, n, nx', r0, c', dir1, dev);
      r' := c'.extentno;
      c' := c'.(findext := pos0 + got + n == c'.nextextpos);
    } else {
      WrittenIs(sb, ino, key, dir0, dev0, pos0, buf, got, nx', r0, r);
    }
  }

  /** A file that was created by cpmCreat and has only been appended to since. */
  ghost predicate Grown(inode: Inode, r: nat)
    requires inode.Valid()
    reads inode, inode.sb`dir, inode.sb`alv, inode.sb`dev
  {
    exists nx: nat :: FileState(inode.sb.g, inode.sb.dir, inode.FileKey(), inode.size, nx, r)
  }

  lemma NothingWritten(sb: SuperBlock, ino: nat, key: Key, pos0: nat, buf: seq<byte>, nx: nat, r: nat, c: WriteCursor)
    requires sb.Valid() && ino < sb.g.maxdir && Owns(sb.g, key, sb.dir[ino]) && c.findext
    requires FileState(sb.g, sb.dir, key, pos0, nx, r) && pos0 + |buf| <= MAXFILE && TailReadFits(sb.g, pos0, |buf|)
    ensures Written(sb, ino, key, sb.dir, sb.dev, pos0, buf, 0, nx, r, r) && MoreToWrite(sb, key, pos0, buf, 0, c)
  {
    hide DiskShape.Valid, DiskShape.DirBlocks, DiskShape.ExtCap, Consistent, KeyOf, FileState, TailReadFits;
    NothingAppended(sb.g, sb.dir, sb.dev, sb.dir, key, pos0);
  }

  /** The loop of cpmWrite: appends the bytes of `buf` at `pos0`. */
  method WriteAll(sb: SuperBlock, ino: nat, key: Key, pos0: nat, buf: seq<byte>, ghost nx: nat, ghost r: nat)
    returns (got: int, ghost nx': nat, ghost r': nat)
    requires sb.Valid() && ino < sb.g.maxdir && Owns(sb.g, key, sb.dir[ino])
    requires FileState(sb.g, sb.dir, key, pos0, nx, r) && pos0 + |buf| <= MAXFILE && TailReadFits(sb.g, pos0, |buf|)
    modifies sb`dir, sb`alv, sb`dev
    ensures -1 <= got <= |buf| && (got == -1 ==> buf != [])
    ensures Written(sb, ino, key, old(sb.dir), old(sb.dev), pos0, buf, if got < 0 then 0 else got, nx', r, r')
    ensures sb.Ready() && (got < |buf| ==> DiskFull(sb) || DirectoryFull(sb))
  {
    hide *;
    ghost var dir0, dev0 := sb.dir, sb.dev;
    var c := WriteCursor(true, -1, 0, 0);
    var buffer := new byte[BUFFER];
    got, nx', r' := 0, nx, r;
    NothingWritten(sb, ino, key, pos0, buf, nx, r, c);
    while got < |buf|
      invariant 0 <= got <= |buf|
      invariant Written(sb, ino, key, dir0, dev0, pos0, buf, got, nx', r, r')
      invariant MoreToWrite(sb, key, pos0, buf, got, c)
    {
      var n;
      n, c, nx', r' := WriteRound(sb, ino, key, dir0, dev0, pos0, buf, got, c, buffer, nx', r, r');
      if n < 0 {
        WrittenMeans(sb, ino, key, dir0, dev0, pos0, buf, got, nx', r, r');
        got := if got == 0 then -1 else got;
        return;
      }
      got := got + n;
    }
    WrittenMeans(sb, ino, key, dir0, dev0, pos0, buf, got, nx', r, r');
  }

  /**
   * Appends the bytes of `buf` to an open file. `r` is the extent number its last entry records; it only shows in
   * the size that a later lookup by name computes.
   */
  method CpmWrite(file: OpenFile, buf: seq<byte>, ghost r: nat) returns (got: int, ghost r': nat)
    requires file.inode.Valid() && Grown(file.inode, r)
    requires file.pos == file.inode.size && file.pos + |buf| <= MAXFILE
    requires TailReadFits(file.inode.sb.g, file.pos, |buf|)
    modifies file`pos, file.inode`size, file.inode.sb`dir, file.inode.sb`alv, file.inode.sb`dev
    ensures file.inode.Valid() && file.inode.FileKey() == old(file.inode.FileKey())
    ensures -1 <= got <= |buf| && (got == -1 ==> buf != [])
    ensures got < |buf| ==> DiskFull(file.inode.sb) || DirectoryFull(file.inode.sb)
    ensures file.pos == file.inode.size == old(file.pos) + Max(got, 0)
    ensures Appended(file.inode.sb.g, old(file.inode.sb.dir), old(file.inode.sb.dev), file.inode.sb.dir,
                     file.inode.sb.dev,
                     file.inode.FileKey(), old(file.pos), buf[..Max(got, 0)])
    ensures Grown(file.inode, r')
    ensures r' == if got <= 0 then r else RecordedExtent(file.inode.sb.g, old(file.pos), file.pos)
  {
    hide DiskShape.Valid, DiskShape.DirBlocks, DiskShape.ExtCap, DeviceOk, Consistent, KeyOf;
    hide FileState, Appended, TailReadFits, RecordedExtent, DiskFull, DirectoryFull, Written;
    var sb, ino, key := file.inode.sb, file.inode.ino, file.inode.FileKey();
    ghost var dir, dev, pos := sb.dir, sb.dev, file.pos;
    ghost var nx: nat :| FileState(sb.g, dir, key, pos, nx, r);
    got, nx, r' := WriteAll(sb, ino, key, file.pos, buf, nx, r);
    WrittenMeans(sb, ino, key, dir, dev, pos, buf, Max(got, 0), nx, r, r');
    file.pos := file.pos + Max(got, 0);
    file.inode.size := file.pos;
  }
}
