/** Reading and writing open files (cpmRead, cpmWrite, cpmCreat). */
module CpmFiles {
  import opened Geometry
  import opened BlockIO
  import opened Directory
  import opened FileData
  import opened CpmFs

  /** struct cpmInode: a directory entry of the file and the size of the file. */
  class Inode {
    const sb: SuperBlock
    var ino: nat
    var size: nat

    constructor (sb: SuperBlock, ino: nat, size: nat)
      ensures this.sb == sb && this.ino == ino && this.size == size
    {
      this.sb, this.ino, this.size := sb, ino, size;
    }

    /** The inode stands for a file of a consistent file system. */
    ghost predicate Valid()
      reads this, sb`dir, sb`alv, sb`dev
    {
      sb.Valid() && ino < sb.g.maxdir && Live(sb.g, sb.dir[ino])
    }

    function FileKey(): Key
      requires ino < |sb.dir|
      reads this, sb`dir
    {
      KeyOf(sb.dir[ino])
    }

    ghost function Bytes(lo: nat, hi: nat): seq<byte>
      requires Valid() && lo <= hi
      reads this, sb`dir, sb`alv, sb`dev
    {
      FileBytes(sb.g, sb.dir, sb.dev, FileKey(), lo, hi)
    }
  }

  /** struct cpmFile */
  class OpenFile {
    const inode: Inode
    var pos: nat

    constructor (inode: Inode)
      ensures this.inode == inode && pos == 0
    {
      this.inode, pos := inode, 0;
    }
  }

  /** Finds the directory entry for the extent that holds `pos`, and where the next extent begins. */
  method EnterExtent(sb: SuperBlock, key: Key, pos: nat) returns (extent: int, nextextpos: nat)
    requires sb.Ready()
    ensures extent == Find(sb.g, sb.dir, key, 0, SlotExtent(sb.g, BlockNo(sb.g, pos)))
    ensures pos < nextextpos == ExtentStart(sb.g, SlotExtent(sb.g, BlockNo(sb.g, pos)) + 1)
  {
    var extentno := pos / 16384;
    extent := sb.FindFileExtent(key, 0, extentno);
    nextextpos := pos / sb.g.ExtCap() * sb.g.ExtCap() + sb.g.ExtCap();
    PositionSlot(sb.g, pos);
    NextExtentStart(sb.g, pos);
  }

  /** Loads the sectors of a file block that the next `count` bytes from `pos` on fall into. */
  method LoadBlock(sb: SuperBlock, extent: nat, pos: nat, count: int, buffer: array<byte>) returns (rc: int)
    requires sb.Valid() && extent < sb.g.maxdir && Live(sb.g, sb.dir[extent])
    requires count > 0 && buffer.Length == 16384
    modifies buffer
    ensures rc == 0
    ensures var b := Ptr(sb.g, sb.dir[extent], SlotIndex(sb.g, BlockNo(sb.g, pos)));
            forall o :: BlockOff(sb.g, pos) <= o < sb.g.blksiz && o < BlockOff(sb.g, pos) + count ==>
              buffer[o] == if b == 0 then 0 else BlockByte(sb.g, sb.dev, b, o)
  {
    var g := sb.g;
    PositionSlot(g, pos);
    var ptr := (pos % g.ExtCap()) / g.blksiz;
    var block := Ptr(g, sb.dir[extent], ptr);
    assert block != 0 ==> block < g.size;
    hide DiskShape.Valid, DiskShape.ExtCap, DiskShape.DirBlocks, BlockByte, Ptr, DeviceOk, Consistent;
    if block == 0 {
      forall o | 0 <= o < g.blksiz {
        buffer[o] := 0;
      }
      rc := 0;
    } else {
      var off := pos % g.blksiz;
      var start := off / g.secLength;
      var end := (if off + count > g.blksiz then g.blksiz - 1 else off + count - 1) / g.secLength;
      assert start == SectorIndex(g, off) && end == SectorIndex(g, TransferEnd(g, off, count) - 1);
      TransferSectors(g, off, count);
      hide SectorIndex, SectorStart, DiskShape.Spb;
      rc := sb.ReadBlock(block, buffer, 0, start, end);
    }
  }

  /** What the buffer holds once the block has been loaded, in terms of the bytes of the file. */
  lemma BlockLoaded(g: DiskShape, dir: seq<Entry>, dev: seq<Sector>, key: Key, extent: nat, q: nat, p: nat)
    requires g.Basic() && extent < |dir| && BlockNo(g, p) == q
    requires extent == Find(g, dir, key, 0, SlotExtent(g, q))
    ensures FileByte(g, dir, dev, key, p) ==
            var b := Ptr(g, dir[extent], SlotIndex(g, q)); if b == 0 then 0 else BlockByte(g, dev, b, BlockOff(g, p))
  {
  }

  /** Makes the buffer hold the bytes that the next `count` positions of the block need. */
  method EnterBlock(sb: SuperBlock, key: Key, extent: int, pos: nat, count: int, buffer: array<byte>)
    returns (nextblockpos: nat, ghost q: nat)
    requires sb.Valid() && count > 0 && buffer.Length == 16384
    requires extent == Find(sb.g, sb.dir, key, 0, SlotExtent(sb.g, BlockNo(sb.g, pos)))
    modifies buffer
    ensures q == BlockNo(sb.g, pos)
    ensures BlockStart(sb.g, q) <= pos < nextblockpos == BlockStart(sb.g, q + 1) == BlockStart(sb.g, q) + sb.g.blksiz
    ensures extent != -1 ==> forall p: nat :: pos <= p < nextblockpos && p < pos + count ==>
              buffer[p - BlockStart(sb.g, q)] == FileByte(sb.g, sb.dir, sb.dev, key, p)
  {
    var g := sb.g;
    q := BlockNo(g, pos);
    BlockRange(g, pos, q);
    nextblockpos := pos / g.blksiz * g.blksiz + g.blksiz;
    assert nextblockpos == BlockStart(g, q + 1);
    hide DiskShape.Valid, DiskShape.ExtCap, DiskShape.DirBlocks, BlockByte, DeviceOk, Consistent, BlockStart, BlockNo,
         BlockOff, FileByte, SlotExtent;
    if extent != -1 {
      assert extent == Find(g, sb.dir, key, 0, SlotExtent(g, q));
      var rc := LoadBlock(sb, extent, pos, count, buffer);
      forall p: nat | pos <= p < nextblockpos && p < pos + count
        ensures buffer[p - BlockStart(g, q)] == FileByte(g, sb.dir, sb.dev, key, p)
      {
        BlockRange(g, p, q);
        BlockLoaded(g, sb.dir, sb.dev, key, extent, q, p);
      }
    }
  }

  /** A file without an entry for an extent reads as zeros there. */
  lemma HoleByte(g: DiskShape, dir: seq<Entry>, dev: seq<Sector>, key: Key, p: nat)
    requires g.Basic() && Find(g, dir, key, 0, SlotExtent(g, BlockNo(g, p))) == -1
    ensures FileByte(g, dir, dev, key, p) == 0
  {
  }

  /** The local variables that cpmRead carries from one step to the next. */
  datatype ReadCursor = ReadCursor(findext: bool, findblock: bool, extent: int, nextextpos: int, nextblockpos: int)

  /** The extent belongs to block `q` of the file, and the next extent begins at nextextpos. */
  ghost predicate ExtentFound(g: DiskShape, dir: seq<Entry>, key: Key, q: nat, c: ReadCursor)
    requires g.Basic()
  {
    c.extent == Find(g, dir, key, 0, SlotExtent(g, q)) && c.nextextpos == ExtentStart(g, SlotExtent(g, q) + 1)
  }

  /** The buffer holds the bytes of block `q` that lie in lo..hi-1. */
  ghost predicate Buffered(g: DiskShape, dir: seq<Entry>, dev: seq<Sector>, key: Key, q: nat, buffer: seq<byte>,
                           lo: nat, hi: int)
    requires g.Basic()
  {
    forall p: nat :: BlockStart(g, q) <= lo <= p < hi && p < BlockStart(g, q) + |buffer| ==>
      buffer[p - BlockStart(g, q)] == FileByte(g, dir, dev, key, p)
  }

  /** What the cursor means: block `q` is being read, `pos` lies in it or just behind it, and the buffer is good. */
  ghost predicate CursorOk(g: DiskShape, dir: seq<Entry>, dev: seq<Sector>, key: Key, q: nat,
                           c: ReadCursor, buffer: seq<byte>, pos: nat, count: int)
    requires g.Basic()
  {
    && |buffer| == 16384
    && (!c.findext ==> ExtentFound(g, dir, key, q, c))
    && (!c.findext && c.findblock ==> pos == BlockStart(g, q + 1) < c.nextextpos)
    && (!c.findext && !c.findblock ==>
          && BlockStart(g, q) <= pos <= c.nextblockpos == BlockStart(g, q + 1)
          && (c.extent != -1 ==> Buffered(g, dir, dev, key, q, buffer, pos, Min(pos + count, c.nextblockpos))))
  }

  function Min(a: int, b: int): (m: int)
    ensures m <= a && m <= b && (m == a || m == b)
  {
    if a < b then a else b
  }

  /** Moves to the block that holds `pos`, looking up its extent first when `findext` is set. */
  method Reposition(sb: SuperBlock, key: Key, pos: nat, count: int, c: ReadCursor, ghost q: nat, buffer: array<byte>)
    returns (c': ReadCursor, ghost q': nat)
    requires sb.Valid() && count > 0 && (c.findext || c.findblock)
    requires CursorOk(sb.g, sb.dir, sb.dev, key, q, c, buffer[..], pos, count)
    modifies buffer
    ensures CursorOk(sb.g, sb.dir, sb.dev, key, q', c', buffer[..], pos, count)
    ensures !c'.findext && !c'.findblock && pos < c'.nextblockpos
  {
    hide DiskShape.Valid, DiskShape.ExtCap, DiskShape.DirBlocks, BlockByte, DeviceOk, Consistent;
    hide BlockStart, ExtentStart, BlockNo, BlockOff, SlotExtent, FileByte;
    var extent, nextextpos := c.extent, c.nextextpos;
    if c.findext {
      extent, nextextpos := EnterExtent(sb, key, pos);
    } else {
      NextBlockExtent(sb.g, q);
      BlockRange(sb.g, pos, q + 1);
      BlockRange(sb.g, pos, q + 2);
    }
    var nextblockpos;
    nextblockpos, q' := EnterBlock(sb, key, extent, pos, count, buffer);
    c' := ReadCursor(false, false, extent, nextextpos, nextblockpos);
  }

  /** The byte to deliver at `pos`: from the buffer, or zero where the file has no extent. */
  method NextByte(sb: SuperBlock, key: Key, pos: nat, count: int, c: ReadCursor, ghost q: nat, buffer: array<byte>)
    returns (b: byte)
    requires sb.Valid() && count > 0 && !c.findext && !c.findblock && pos < c.nextblockpos
    requires CursorOk(sb.g, sb.dir, sb.dev, key, q, c, buffer[..], pos, count)
    ensures b == FileByte(sb.g, sb.dir, sb.dev, key, pos)
    ensures CursorOk(sb.g, sb.dir, sb.dev, key, q, c, buffer[..], pos + 1, count - 1)
  {
    BlockRange(sb.g, pos, q);
    if c.extent == -1 {
      HoleByte(sb.g, sb.dir, sb.dev, key, pos);
      b := 0;
    } else {
      b := buffer[pos % sb.g.blksiz];
    }
  }

  /** At the end of a block: on to the next extent, or to the next block of the same extent. */
  lemma EndOfBlock(g: DiskShape, dir: seq<Entry>, dev: seq<Sector>, key: Key, q: nat,
                   c: ReadCursor, buffer: seq<byte>, pos: nat, count: int)
    requires g.Basic() && !c.findext && !c.findblock && pos >= c.nextblockpos
    requires CursorOk(g, dir, dev, key, q, c, buffer, pos, count)
    ensures CursorOk(g, dir, dev, key, q, c.(findext := true), buffer, pos, count)
    ensures pos != c.nextextpos ==> CursorOk(g, dir, dev, key, q, c.(findblock := true), buffer, pos, count)
  {
    hide BlockStart, ExtentStart, FileByte, SlotExtent, Buffered;
    NextBlockExtent(g, q);
  }

  /** Reads up to `limit` bytes at the file position. */
  method CpmRead(file: OpenFile, limit: int) returns (got: int, data: seq<byte>)
    requires file.inode.Valid()
    modifies file`pos
    ensures got == |data|
    ensures got == if file.inode.size <= old(file.pos) || limit <= 0 then 0
                   else Min(limit, file.inode.size - old(file.pos))
    ensures file.pos == old(file.pos) + got
    ensures data == file.inode.Bytes(old(file.pos), file.pos)
  {
    var sb := file.inode.sb;
    var g := sb.g;
    var key := file.inode.FileKey();
    ghost var dir, dev := sb.dir, sb.dev;
    var count := limit;
    var c := ReadCursor(true, true, -1, -1, -1);
    var buffer := new byte[16384];
    got, data := 0, [];
    ghost var q := 0;
    assert CursorOk(g, dir, dev, key, q, c, buffer[..], file.pos, count);
    hide DiskShape.Valid, DiskShape.ExtCap, DiskShape.DirBlocks, BlockByte, DeviceOk, Consistent, FileByte, CursorOk;
    while count > 0 && file.pos < file.inode.size
      invariant got == |data| && file.pos == old(file.pos) + got && count == limit - got
      invariant got > 0 ==> file.pos <= file.inode.size && count >= 0
      invariant data == FileBytes(g, dir, dev, key, old(file.pos), file.pos)
      invariant CursorOk(g, dir, dev, key, q, c, buffer[..], file.pos, count)
      decreases count, if !c.findext && !c.findblock && file.pos >= c.nextblockpos then 1 else 0
    {
      if c.findext || c.findblock {
        c, q := Reposition(sb, key, file.pos, count, c, q, buffer);
      }
      if file.pos < c.nextblockpos {
        var b := NextByte(sb, key, file.pos, count, c, q, buffer);
        data := data + [b];
        file.pos, got, count := file.pos + 1, got + 1, count - 1;
      } else {
        EndOfBlock(g, dir, dev, key, q, c, buffer[..], file.pos, count);
        c := if file.pos == c.nextextpos then c.(findext := true) else c.(findblock := true);
      }
    }
  }
}
