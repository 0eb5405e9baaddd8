/** What one block's worth of appending does to the bytes of all files. */
module AppendSteps {
  import opened Geometry
  import opened BlockIO
  import opened Directory
  import opened DirectoryChanges
  import opened FileData

  /** Two slots of a file never share a block. */
  lemma FileBlocksDiffer(g: DiskShape, dir: seq<Entry>, key: Key, q: nat, r: nat)
    requires g.Basic() && PointersDistinct(g, dir) && q != r && FileBlock(g, dir, key, q) != 0
    ensures FileBlock(g, dir, key, q) != FileBlock(g, dir, key, r)
  {
    var x, y := SlotExtent(g, q), SlotExtent(g, r);
    var i, k := Find(g, dir, key, 0, x), Find(g, dir, key, 0, y);
    assert i >= 0 && k >= 0 && x != y ==> i != k;
    assert SlotNumber(g, x, SlotIndex(g, q)) == q && SlotNumber(g, y, SlotIndex(g, r)) == r;
  }

  /** The directory gained at most block `q` of the file, and only that block was written, from `off` on. */
  ghost predicate ChunkWritten(g: DiskShape, dir: seq<Entry>, dev: seq<Sector>, dir': seq<Entry>, dev': seq<Sector>,
                               key: Key, q: nat, block: nat, off: nat, chunk: seq<byte>)
    requires g.Basic()
  {
    && (forall r: nat :: r != q ==> FileBlock(g, dir', key, r) == FileBlock(g, dir, key, r))
    && FileBlock(g, dir', key, q) == block && 0 < block < g.size
    && (off != 0 ==> FileBlock(g, dir, key, q) == block)
    && off + |chunk| <= g.blksiz
    && OnlyBlockWritten(g, dev, dev', block)
    && (forall o: nat :: o < off ==> BlockByte(g, dev', block, o) == BlockByte(g, dev, block, o))
    && (forall o: nat :: off <= o < off + |chunk| ==> BlockByte(g, dev', block, o) == chunk[o - off])
  }

  /** The bytes in front of the chunk stay, and the chunk follows them. */
  lemma ChunkByte(g: DiskShape, dir: seq<Entry>, dev: seq<Sector>, dir': seq<Entry>, dev': seq<Sector>,
                  key: Key, q: nat, block: nat, off: nat, chunk: seq<byte>, p: nat)
    requires g.Valid() && PointersDistinct(g, dir') && PointersInRange(g, dir')
    requires ChunkWritten(g, dir, dev, dir', dev', key, q, block, off, chunk)
    requires p < BlockStart(g, q) + off + |chunk|
    ensures FileByte(g, dir', dev', key, p) ==
            if p < BlockStart(g, q) + off then FileByte(g, dir, dev, key, p) else chunk[p - BlockStart(g, q) - off]
  {
    hide DiskShape.Valid, DiskShape.DirBlocks, BlockByte, BlockStart, BlockNo, BlockOff, PointersDistinct, Ptr;
    var r := BlockNo(g, p);
    BlockRange(g, p, r);
    BlockRange(g, p, q);
    if r == q {
    } else {
      if r > q {
        BlockStartMono(g, q + 1, r);
      }
      var b := FileBlock(g, dir', key, r);
      if b != 0 {
        FileBlocksDiffer(g, dir', key, r, q);
        FileBlockInRange(g, dir', key, r);
        OtherByteUntouched(g, dev, dev', block, b, BlockOff(g, p));
      }
    }
  }

  lemma FileBlockInRange(g: DiskShape, dir: seq<Entry>, key: Key, q: nat)
    requires g.Basic() && PointersInRange(g, dir) && FileBlock(g, dir, key, q) != 0
    ensures g.DirBlocks() <= FileBlock(g, dir, key, q) < g.size
  {
    hide Ptr, DiskShape.DirBlocks;
    var i := Find(g, dir, key, 0, SlotExtent(g, q));
    assert Ptr(g, dir[i], SlotIndex(g, q)) == FileBlock(g, dir, key, q);
  }

  /** The file grows by exactly the chunk. */
  lemma ChunkAppended(g: DiskShape, dir: seq<Entry>, dev: seq<Sector>, dir': seq<Entry>, dev': seq<Sector>,
                      key: Key, q: nat, block: nat, off: nat, chunk: seq<byte>)
    requires g.Valid() && PointersDistinct(g, dir') && PointersInRange(g, dir')
    requires ChunkWritten(g, dir, dev, dir', dev', key, q, block, off, chunk)
    ensures var n := BlockStart(g, q) + off;
            FileBytes(g, dir', dev', key, 0, n + |chunk|) == FileBytes(g, dir, dev, key, 0, n) + chunk
  {
    hide DiskShape.Valid, DiskShape.DirBlocks, BlockStart, PointersDistinct, PointersInRange, ChunkWritten, FileByte;
    var n := BlockStart(g, q) + off;
    forall p: nat | p < n + |chunk|
      ensures FileByte(g, dir', dev', key, p) == if p < n then FileByte(g, dir, dev, key, p) else chunk[p - n]
    {
      ChunkByte(g, dir, dev, dir', dev', key, q, block, off, chunk, p);
    }
  }

  /** The block that was written belongs to this file: nothing else notices. */
  lemma ChunkLeavesOthers(g: DiskShape, dir: seq<Entry>, dev: seq<Sector>, dir': seq<Entry>, dev': seq<Sector>,
                          key: Key, q: nat, block: nat, off: nat, chunk: seq<byte>)
    requires g.Valid() && PointersDistinct(g, dir') && PointersInRange(g, dir')
    requires OtherEntriesKept(g, dir, dir', key)
    requires ChunkWritten(g, dir, dev, dir', dev', key, q, block, off, chunk)
    ensures OtherBytesKept(g, dir, dev, dev', key)
  {
    hide DiskShape.Valid, DiskShape.DirBlocks, BlockStart, Ptr;
    FileBlockInRange(g, dir', key, q);
    OtherBlocksUntouched(g, dev, dev', block);
    var e := Find(g, dir', key, 0, SlotExtent(g, q));
    assert Ptr(g, dir'[e], SlotIndex(g, q)) == block;
    forall b: nat, o: nat | b < g.size && o < g.blksiz && (b < g.DirBlocks() || ForeignBlock(g, dir, key, b))
      ensures BlockByte(g, dev', b, o) == BlockByte(g, dev, b, o)
    {
      if ForeignBlock(g, dir, key, b) {
        var i, s: nat :| 0 <= i < |dir| && Live(g, dir[i]) && KeyOf(dir[i]) != key && s < g.Slots()
            && Ptr(g, dir[i], s) == b && b != 0;
        assert i != e && Ptr(g, dir'[i], s) == b;
      }
    }
  }
}
