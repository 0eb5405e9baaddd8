/** The CP/M file system engine: an in-core directory, a packed allocation bitmap and a skewed sector store. */
module CpmFs {
  import opened Arithmetic
  import opened Bits
  import opened Geometry
  import opened BlockIO
  import opened AllocVector
  import opened Directory

  class SuperBlock {
    const g: DiskShape
    var dir: seq<Entry>
    var alv: seq<word>
    var dev: seq<Sector>

    /** Geometry, device and array sizes; nothing about what the directory says. */
    ghost predicate Ready()
      reads `dir, `alv, `dev
    {
      && g.Valid()
      && |dir| == g.maxdir
      && g.size <= INTBITS * |alv| < g.size + INTBITS
      && DeviceOk(g, dev)
    }

    ghost predicate Valid()
      reads `dir, `alv, `dev
      ensures Valid() ==> Ready()
    {
      Ready() && Consistent(g, dir, alv)
    }

    /** The end of cpmReadSuper for a device that has not been opened: an empty directory and its bitmap. */
    constructor (g: DiskShape, dev: seq<Sector>)
      requires g.Valid() && DeviceOk(g, dev)
      ensures Valid() && this.g == g && this.dev == dev
      ensures forall i :: 0 <= i < |dir| ==> !Live(g, dir[i])
    {
      hide DiskShape.DirBlocks, BitmapAgrees, DeviceOk;
      this.g := g;
      this.dev := dev;
      dir := seq(g.maxdir, _ => ErasedEntry());
      alv := seq((g.size + INTBITS - 1) / INTBITS, _ => 0);
      new;
      AlvInit();
      NoLiveEntries(g, dir);
    }

    // ----- Allocation bitmap -----

    method SetAlvBit(block: nat)
      requires block < INTBITS * |alv|
      modifies `alv
      ensures alv == Mark(old(alv), block)
    {
      var offset := block / INTBITS;
      alv := alv[offset := MarkWord(alv[offset], block % INTBITS)];
    }

    /** Marks every block an entry points to; pointers off the disk are ignored. */
    method MarkEntry(i: nat)
      requires Ready() && i < g.maxdir
      modifies `alv
      ensures |alv| == old(|alv|)
      ensures forall b: nat :: b < INTBITS * |alv| ==>
                (InUse(alv, b) <==> old(InUse(alv, b)) || (b < g.size && PointsTo(g, dir[i], g.Slots(), b)))
    {
      hide DiskShape.Valid, DeviceOk;
      var j := 0;
      ghost var s := 0;
      while j < 16
        invariant |alv| == old(|alv|)
        invariant 0 <= j <= 16 && s <= g.Slots() && j == if g.size < 256 then s else 2 * s
        invariant forall b: nat :: b < INTBITS * |alv| ==>
                    (InUse(alv, b) <==> old(InUse(alv, b)) || (b < g.size && PointsTo(g, dir[i], s, b)))
      {
        var block: nat := dir[i].pointers[j];
        if g.size >= 256 {
          j := j + 1;
          var high: nat := dir[i].pointers[j];
          block := block + high * 256;
        }
        assert block == Ptr(g, dir[i], s);
        if block != 0 && block < g.size {
          MarkOne(alv, block);
          SetAlvBit(block);
        }
        j, s := j + 1, s + 1;
      }
    }

    /** Rebuilds the bitmap from the directory. */
    method AlvInit()
      requires Ready()
      modifies `alv
      ensures Ready()
      ensures BitmapAgrees(g, dir, alv)
    {
      hide DiskShape.Valid;
      var n := 0;
      while n < |alv|
        invariant 0 <= n <= |alv| == old(|alv|)
        invariant forall k :: 0 <= k < n ==> alv[k] == 0
      {
        alv := alv[n := 0];
        n := n + 1;
      }
      AllClear(alv);
      var block := 0;
      while block < g.DirBlocks()
        invariant 0 <= block <= g.DirBlocks() && |alv| == old(|alv|)
        invariant forall b: nat :: b < INTBITS * |alv| ==> (InUse(alv, b) <==> b < block)
      {
        MarkOne(alv, block);
        SetAlvBit(block);
        block := block + 1;
      }
      var i := 0;
      while i < g.maxdir
        invariant 0 <= i <= g.maxdir && |alv| == old(|alv|)
        invariant forall b: nat :: b < INTBITS * |alv| ==>
                    (InUse(alv, b) <==> b < g.size && (b < g.DirBlocks() || Referenced(g, dir[..i], b)))
      {
        if Live(g, dir[i]) {
          MarkEntry(i);
        }
        ReferencedPrefix(g, dir, i);
        i := i + 1;
      }
      assert dir[..i] == dir;
    }

    /** Shifts the word right until a zero bit shows up; -1 if all bits are set. */
    method FirstClearBit(w: word) returns (j: int)
      ensures -1 <= j < INTBITS
      ensures j >= 0 ==> !TestBit(w, j)
      ensures forall k: nat :: k < (if j < 0 then INTBITS else j) ==> TestBit(w, k)
    {
      j := 0;
      var bits: nat := w;
      while j < INTBITS
        invariant 0 <= j <= INTBITS
        invariant forall m: nat :: TestBit(bits, m) == TestBit(w, j + m)
        invariant forall k: nat :: k < j ==> TestBit(w, k)
      {
        assert TestBit(bits, 0) == TestBit(w, j + 0);
        if bits % 2 == 0 {
          return;
        }
        forall m: nat
          ensures TestBit(bits / 2, m) == TestBit(w, j + 1 + m)
        {
          assert TestBit(bits, m + 1) == TestBit(w, j + (m + 1));
        }
        bits := bits / 2;
        j := j + 1;
      }
      return -1;
    }

    /** First fit: the lowest unmarked block, or -1 when the disk is full. */
    method AllocBlock() returns (block: int)
      requires Ready()
      modifies `alv
      ensures block < 0 ==> block == -1 && alv == old(alv)
      ensures block < 0 ==> forall b: nat :: b < g.size ==> InUse(alv, b)
      ensures block >= 0 ==> block < g.size && !old(InUse(alv, block))
      ensures block >= 0 ==> alv == Mark(old(alv), block)
      ensures block >= 0 ==> forall b: nat :: b < block ==> old(InUse(alv, b))
    {
      hide DiskShape.Valid, DeviceOk;
      var i := 0;
      while i < |alv|
        invariant 0 <= i <= |alv|
        invariant alv == old(alv)
        invariant forall b: nat :: b < INTBITS * i ==> InUse(alv, b)
      {
        var j := FirstClearBit(alv[i]);
        forall b: nat | b < INTBITS * i + (if j < 0 then INTBITS else j)
          ensures InUse(alv, b)
        {
          DivRange(b, INTBITS, i);
        }
        if j >= 0 {
          block := i * INTBITS + j;
          DivRange(block, INTBITS, i);
          if block >= g.size {
            return -1;
          }
          SetAlvBit(block);
          return;
        }
        i := i + 1;
      }
      return -1;
    }

    // ----- Logical block I/O -----

    method DeviceReadSector(track: nat, sector: nat, buffer: array<byte>, at: nat)
      requires Ready() && at + g.secLength <= buffer.Length
      requires track < g.tracks && sector < g.sectrk && DeviceIndex(g, track, sector) < |dev|
      modifies buffer
      ensures forall k :: 0 <= k < buffer.Length ==>
                buffer[k] == if at <= k < at + g.secLength then dev[DeviceIndex(g, track, sector)][k - at]
                    else old(buffer[k])
    {
      hide DiskShape.Valid;
      var t := DeviceIndex(g, track, sector);
      hide DeviceIndex;
      forall o | 0 <= o < g.secLength {
        buffer[at + o] := dev[t][o];
      }
    }

    method DeviceWriteSector(track: nat, sector: nat, buffer: array<byte>, at: nat)
      requires Ready() && at + g.secLength <= buffer.Length
      requires track < g.tracks && sector < g.sectrk && DeviceIndex(g, track, sector) < |dev|
      modifies `dev
      ensures dev == old(dev)[DeviceIndex(g, track, sector) := buffer[at..at + g.secLength]]
    {
      hide DiskShape.Valid;
      dev := dev[DeviceIndex(g, track, sector) := buffer[at..at + g.secLength]];
    }

    /** Reads sectors start..end of a block into the buffer at `base`; a negative `end` means the whole block. */
    method ReadBlock(blockno: nat, buffer: array<byte>, base: nat, start: nat, end: int) returns (rc: int)
      requires Ready()
      requires end < g.Spb() && base + SectorStart(g, EndSector(g, end)) <= buffer.Length
      modifies buffer
      ensures blockno >= g.size ==> rc == -1 && buffer[..] == old(buffer[..])
      ensures blockno < g.size ==> rc == 0
      ensures blockno < g.size ==> forall k :: 0 <= k < buffer.Length ==>
                buffer[k] == if SectorStart(g, start) <= k - base < SectorStart(g, EndSector(g, end))
                             then BlockByte(g, dev, blockno, k - base) else old(buffer[k])
    {
      if blockno >= g.size {
        return -1;
      }
      var last: int := if end < 0 then g.Spb() - 1 else end;
      assert last + 1 == EndSector(g, end);
      var (track, sect) := ReadStart(g, blockno);
      var counter, at := 0, base;
      hide DiskShape.Valid, DiskShape.Spb, DeviceOk, DeviceIndex, Loc, BlockByte, SectorStart, AtSector, ReadStart;
      SectorStartNext(g, 0);
      while counter <= last
        invariant 0 <= counter <= last + 1
        invariant at == base + SectorStart(g, counter)
        invariant AtSector(g, blockno, counter, track, sect)
        invariant forall k :: 0 <= k < buffer.Length ==>
                    buffer[k] == if SectorStart(g, start) <= k - base < SectorStart(g, counter)
                                 then BlockByte(g, dev, blockno, k - base) else old(buffer[k])
      {
        SectorStartNext(g, counter);
        SectorStartMono(g, counter + 1, last + 1);
        if counter >= start {
          SectorStartMono(g, start, counter);
          TrackAndSector(g, dev, blockno, counter, track, sect);
          SectorBytes(g, dev, blockno, counter);
          DeviceReadSector(track, g.skewtab[sect], buffer, at);
        } else {
          SectorStartMono(g, counter + 1, start);
        }
        NextSector(g, blockno, counter, track, sect);
        sect := sect + 1;
        if sect >= g.sectrk {
          sect := 0;
          track := track + 1;
        }
        at := at + g.secLength;
        counter := counter + 1;
      }
      return 0;
    }

    /** Writes sectors start..end of a block from the buffer. */
    method WriteBlock(blockno: nat, buffer: array<byte>, start: nat, end: int)
      requires Ready() && blockno < g.size
      requires end < g.Spb() && SectorStart(g, EndSector(g, end)) <= buffer.Length
      modifies `dev
      ensures Ready()
      ensures OnlyBlockWritten(g, old(dev), dev, blockno)
      ensures forall o: nat :: o < g.blksiz ==>
                BlockByte(g, dev, blockno, o) ==
                if SectorStart(g, start) <= o < SectorStart(g, EndSector(g, end)) && o < buffer.Length then buffer[o]
                else BlockByte(g, old(dev), blockno, o)
    {
      var last: int := if end < 0 then g.Spb() - 1 else end;
      assert last + 1 == EndSector(g, end);
      var (track, sect) := WriteStart(g, blockno);
      var counter, at := 0, 0;
      hide DiskShape.Valid, DiskShape.Spb, DeviceOk, DeviceIndex, Loc, BlockByte, SectorStart, AtSector, WriteStart;
      SectorStartNext(g, 0);
      while counter <= last
        invariant 0 <= counter <= last + 1
        invariant at == SectorStart(g, counter)
        invariant AtSector(g, blockno, counter, track, sect)
        invariant DeviceOk(g, dev) && OnlyBlockWritten(g, old(dev), dev, blockno)
        invariant forall o: nat :: o < g.blksiz ==>
                    BlockByte(g, dev, blockno, o) ==
                    if SectorStart(g, start) <= o < SectorStart(g, counter) && o < buffer.Length then buffer[o]
                    else BlockByte(g, old(dev), blockno, o)
      {
        SectorStartNext(g, counter);
        SectorStartMono(g, counter + 1, last + 1);
        if counter >= start {
          SectorStartMono(g, start, counter);
          ghost var before, data := dev, buffer[at..at + g.secLength];
          TrackAndSector(g, before, blockno, counter, track, sect);
          SectorStored(g, before, blockno, counter, data);
          DeviceWriteSector(track, g.skewtab[sect], buffer, at);
          SectorsWritten(g, before, dev, blockno, counter, data);
        } else {
          SectorStartMono(g, counter + 1, start);
        }
        NextSector(g, blockno, counter, track, sect);
        sect := sect + 1;
        if sect >= g.sectrk {
          sect := 0;
          track := track + 1;
        }
        at := at + g.secLength;
        counter := counter + 1;
      }
    }

    // ----- Directory search -----

    /** The first entry at or behind `start` that belongs to the file; with `extno` >= 0 only its physical extent. */
    method FindFileExtent(key: Key, start: nat, extno: int) returns (r: int)
      requires Ready() && start <= g.maxdir
      ensures r == Find(g, dir, key, start, if extno < 0 then -1 else extno / g.extents)
    {
      hide DiskShape.Valid, DeviceOk, DiskShape.DirBlocks, DiskShape.ExtCap, Phys, KeyOf;
      ghost var x := if extno < 0 then -1 else extno / g.extents;
      ghost var entries := dir;
      r := start;
      while r < g.maxdir
        invariant start <= r <= g.maxdir
        invariant Find(g, entries, key, start, x) == Find(g, entries, key, r, x)
      {
        assert dir[r] == entries[r];
        if Live(g, dir[r]) && (extno < 0 || Phys(g, dir[r]) == extno / g.extents) && KeyOf(dir[r]) == key {
          return;
        }
        r := r + 1;
      }
      return -1;
    }

    method FindFreeExtent() returns (r: int)
      requires |dir| == g.maxdir
      ensures r == -1 || 0 <= r < g.maxdir
      ensures r >= 0 ==> dir[r].status == ERASED
      ensures forall i :: 0 <= i < (if r < 0 then g.maxdir else r) ==> dir[i].status != ERASED
    {
      r := 0;
      while r < g.maxdir
        invariant 0 <= r <= g.maxdir
        invariant forall i :: 0 <= i < r ==> dir[i].status != ERASED
      {
        if dir[r].status == ERASED {
          return;
        }
        r := r + 1;
      }
      return -1;
    }
  }

  /** What the bitmap says in bytes: a block is taken if it holds a byte of the directory table or a file. */
  lemma MarkedBlocks(g: DiskShape, dir: seq<Entry>, alv: seq<word>, b: nat)
    requires g.Basic() && BitmapAgrees(g, dir, alv) && b < g.size
    ensures b < INTBITS * |alv| && (InUse(alv, b) <==> b * g.blksiz < 32 * g.maxdir || Referenced(g, dir, b))
  {
    hide DiskShape.DirBlocks, Referenced, InUse;
    DirectoryBlocks(g, b);
  }

  lemma NothingReferenced(g: DiskShape, dir: seq<Entry>, b: nat)
    requires forall i :: 0 <= i < |dir| ==> !Live(g, dir[i])
    ensures !Referenced(g, dir, b)
  {
  }

  /**
   * The block handed out first on a disk without files: the lowest one that starts at or behind the end of the
   * directory table. There is none only if the table reaches into the last block.
   */
  method FirstBlock(g: DiskShape, dev: seq<Sector>) returns (block: int)
    requires g.Valid() && DeviceOk(g, dev)
    ensures block >= 0 ==> block < g.size && 32 * g.maxdir <= block * g.blksiz
    ensures block > 0 ==> (block - 1) * g.blksiz < 32 * g.maxdir
    ensures block < 0 ==> block == -1 && forall b: nat :: b < g.size ==> b * g.blksiz < 32 * g.maxdir
  {
    hide DiskShape.Valid, DiskShape.DirBlocks, DiskShape.ExtCap, DeviceOk, InUse, Live, DirOk;
    var sb := new SuperBlock(g, dev);
    ghost var dir, alv := sb.dir, sb.alv;
    block := sb.AllocBlock();
    forall b: nat | b < g.size
      ensures b < INTBITS * |alv| && (InUse(alv, b) <==> b * g.blksiz < 32 * g.maxdir)
    {
      MarkedBlocks(g, dir, alv, b);
      NothingReferenced(g, dir, b);
    }
    hide BitmapAgrees;
    assert block > 0 ==> InUse(alv, block - 1);
    if block < 0 {
      forall b: nat | b < g.size
        ensures b * g.blksiz < 32 * g.maxdir
      {
        assert InUse(alv, b);
      }
    }
  }

  /** One past the last sector of a transfer; a negative `end` stands for the end of the block. */
  function EndSector(g: DiskShape, end: int): nat
    requires g.Basic() && end < g.Spb()
  {
    if end < 0 then g.Spb() else end + 1
  }

  ghost predicate PointsTo(g: DiskShape, e: Entry, n: nat, b: nat)
    requires n <= g.Slots()
  {
    exists s: nat :: s < n && Ptr(g, e, s) == b && b != 0
  }

  lemma ReferencedPrefix(g: DiskShape, dir: seq<Entry>, i: nat)
    requires i < |dir|
    ensures forall b: nat :: Referenced(g, dir[..i + 1], b) <==>
              Referenced(g, dir[..i], b) || (Live(g, dir[i]) && PointsTo(g, dir[i], g.Slots(), b))
  {
    forall b: nat
      ensures Referenced(g, dir[..i + 1], b) <==>
              Referenced(g, dir[..i], b) || (Live(g, dir[i]) && PointsTo(g, dir[i], g.Slots(), b))
    {
      var more, less := dir[..i + 1], dir[..i];
      if Referenced(g, less, b) {
        var k, s: nat :| 0 <= k < |less| && Live(g, less[k]) && s < g.Slots() && Ptr(g, less[k], s) == b && b != 0;
        assert more[k] == less[k];
      }
      if Live(g, dir[i]) && PointsTo(g, dir[i], g.Slots(), b) {
        var s: nat :| s < g.Slots() && Ptr(g, dir[i], s) == b && b != 0;
        assert more[i] == dir[i];
      }
      if Referenced(g, more, b) {
        var k, s: nat :| 0 <= k < |more| && Live(g, more[k]) && s < g.Slots() && Ptr(g, more[k], s) == b && b != 0;
        assert k < i ==> less[k] == more[k];
      }
    }
  }

  function ErasedEntry(): Entry {
    RawEntry(ERASED, seq(8, _ => ERASED), seq(3, _ => ERASED), ERASED, ERASED, ERASED, ERASED, seq(16, _ => ERASED))
  }

  lemma NoLiveEntries(g: DiskShape, dir: seq<Entry>)
    requires g.Basic() && |dir| == g.maxdir && forall i :: 0 <= i < |dir| ==> !Live(g, dir[i])
    ensures DirOk(g, dir)
  {
  }

  lemma AllClear(alv: seq<word>)
    requires forall k :: 0 <= k < |alv| ==> alv[k] == 0
    ensures forall b: nat :: b < INTBITS * |alv| ==> !InUse(alv, b)
  {
    forall b: nat | b < INTBITS * |alv|
      ensures !InUse(alv, b)
    {
      ZeroHasNoBits(b % INTBITS);
    }
  }
}
