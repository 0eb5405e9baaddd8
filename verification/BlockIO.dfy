/** What reading and writing one sector means for the bytes of the blocks. */
module BlockIO {
  import opened Arithmetic
  import opened Geometry

  /** The running track and skew table index of a transfer that has reached sector `c` of block `b`. */
  ghost predicate AtSector(g: DiskShape, b: nat, c: nat, track: nat, sect: nat)
    requires g.Basic()
  {
    var l := b * g.Spb() + c;
    sect == l % g.sectrk && track == l / g.sectrk + g.boottrk
  }

  /** readBlock counts sectors from the start of the device ... */
  function ReadStart(g: DiskShape, b: nat): (at: (nat, nat))
    requires g.Basic()
    ensures AtSector(g, b, 0, at.0, at.1)
  {
    var l := b * g.Spb();
    WholeTracks(l, g.sectrk, g.boottrk);
    ((l + g.sectrk * g.boottrk) / g.sectrk, (l + g.sectrk * g.boottrk) % g.sectrk)
  }

  /** ... and writeBlock from the first data track: they agree. */
  function WriteStart(g: DiskShape, b: nat): (at: (nat, nat))
    requires g.Basic()
    ensures AtSector(g, b, 0, at.0, at.1)
  {
    var l := b * g.Spb();
    (l / g.sectrk + g.boottrk, l % g.sectrk)
  }

  lemma WholeTracks(l: nat, n: nat, tracks: nat)
    requires n > 0
    ensures (l + n * tracks) % n == l % n
    ensures (l + n * tracks) / n == l / n + tracks
  {
    MulDistributes(n, l / n, tracks);
    DivModUnique(l + n * tracks, n, l / n + tracks, l % n);
  }

  lemma NextSector(g: DiskShape, b: nat, c: nat, track: nat, sect: nat)
    requires g.Basic() && AtSector(g, b, c, track, sect)
    ensures sect + 1 < g.sectrk ==> AtSector(g, b, c + 1, track, sect + 1)
    ensures sect + 1 >= g.sectrk ==> AtSector(g, b, c + 1, track + 1, 0)
  {
    hide DiskShape.Spb;
    NextQuotient(b * g.Spb() + c, g.sectrk);
  }

  /** The transfer stays on the data tracks and touches sector `c` of the block. */
  lemma TrackAndSector(g: DiskShape, dev: seq<Sector>, b: nat, c: nat, track: nat, sect: nat)
    requires g.Valid() && DeviceOk(g, dev) && b < g.size && c < g.Spb() && AtSector(g, b, c, track, sect)
    ensures sect < g.sectrk && g.boottrk <= track < g.tracks
    ensures DeviceIndex(g, track, g.skewtab[sect]) == Loc(g, b, c) < |dev|
  {
    LocInRange(g, b, c);
    LocOnDevice(g, dev, b, c);
  }

  /** Sector `c` holds the bytes of the block from SectorStart(g, c) on. */
  lemma SectorBytes(g: DiskShape, dev: seq<Sector>, b: nat, c: nat)
    requires g.Valid() && DeviceOk(g, dev) && b < g.size && c < g.Spb()
    ensures Loc(g, b, c) < |dev| && |dev[Loc(g, b, c)]| == g.secLength
    ensures forall o: nat :: SectorStart(g, c) <= o < SectorStart(g, c) + g.secLength ==>
              BlockByte(g, dev, b, o) == dev[Loc(g, b, c)][o - SectorStart(g, c)]
  {
    hide DiskShape.Valid, DiskShape.Spb, DeviceOk, Loc, SectorStart, SectorIndex, SectorOffset;
    LocOnDevice(g, dev, b, c);
    forall o: nat | SectorStart(g, c) <= o < SectorStart(g, c) + g.secLength
      ensures BlockByte(g, dev, b, o) == dev[Loc(g, b, c)][o - SectorStart(g, c)]
    {
      SectorRange(g, o, c);
    }
  }

  /** Only sectors of block `b` may differ between the two devices. */
  ghost predicate OnlyBlockWritten(g: DiskShape, dev: seq<Sector>, dev': seq<Sector>, b: nat)
    requires g.Basic()
  {
    && DeviceOk(g, dev) && DeviceOk(g, dev')
    && forall t :: 0 <= t < |dev| && dev'[t] != dev[t] ==> InBlock(g, b, t)
  }

  ghost predicate InBlock(g: DiskShape, b: nat, t: nat)
    requires g.Basic()
  {
    exists c: nat :: c < g.Spb() && t == Loc(g, b, c)
  }

  /** Blocks share no sectors, and none of them reaches into the boot tracks. */
  lemma OtherBlocksUntouched(g: DiskShape, dev: seq<Sector>, dev': seq<Sector>, b: nat)
    requires g.Valid() && b < g.size && OnlyBlockWritten(g, dev, dev', b)
    ensures forall b': nat, o: nat :: b' < g.size && b' != b && o < g.blksiz ==>
              BlockByte(g, dev', b', o) == BlockByte(g, dev, b', o)
    ensures forall t :: 0 <= t < g.boottrk * g.sectrk && t < |dev| ==> dev'[t] == dev[t]
  {
    hide DiskShape.Valid, Loc, BlockByte;
    forall b': nat, o: nat | b' < g.size && b' != b && o < g.blksiz
      ensures BlockByte(g, dev', b', o) == BlockByte(g, dev, b', o)
    {
      OtherByteUntouched(g, dev, dev', b, b', o);
    }
    forall t | 0 <= t < g.boottrk * g.sectrk && t < |dev|
      ensures dev'[t] == dev[t]
    {
      if dev'[t] != dev[t] {
        var c: nat :| c < g.Spb() && t == Loc(g, b, c);
        LocInRange(g, b, c);
      }
    }
  }

  lemma OtherByteUntouched(g: DiskShape, dev: seq<Sector>, dev': seq<Sector>, b: nat, b': nat, o: nat)
    requires g.Valid() && b < g.size && OnlyBlockWritten(g, dev, dev', b)
    requires b' < g.size && b' != b && o < g.blksiz
    ensures BlockByte(g, dev', b', o) == BlockByte(g, dev, b', o)
  {
    hide DiskShape.Valid, Loc, SectorIndex, SectorOffset;
    OffsetInBlock(g, o);
    var c' := SectorIndex(g, o);
    LocInRange(g, b', c');
    if InBlock(g, b, Loc(g, b', c')) {
      var c: nat :| c < g.Spb() && Loc(g, b', c') == Loc(g, b, c);
      LocInjective(g, b', c', b, c);
    }
  }

  lemma SectorStored(g: DiskShape, dev: seq<Sector>, b: nat, c: nat, data: Sector)
    requires g.Valid() && DeviceOk(g, dev) && b < g.size && c < g.Spb() && |data| == g.secLength
    ensures Loc(g, b, c) < |dev|
    ensures DeviceOk(g, dev[Loc(g, b, c) := data])
  {
    hide DiskShape.Valid, Loc;
    LocInRange(g, b, c);
  }

  /** Writing one sector replaces exactly its bytes of the block. */
  lemma SectorWritten(g: DiskShape, dev: seq<Sector>, b: nat, c: nat, data: Sector, o: nat)
    requires g.Valid() && DeviceOk(g, dev)
    requires b < g.size && c < g.Spb() && |data| == g.secLength && o < g.blksiz
    requires Loc(g, b, c) < |dev|
    ensures BlockByte(g, dev[Loc(g, b, c) := data], b, o) ==
            if SectorStart(g, c) <= o < SectorStart(g, c) + g.secLength then data[o - SectorStart(g, c)]
            else BlockByte(g, dev, b, o)
  {
    hide DiskShape.Valid, DiskShape.Spb, DeviceOk, Loc, SectorStart, SectorIndex, SectorOffset;
    OffsetInBlock(g, o);
    SectorRange(g, o, c);
    if Loc(g, b, SectorIndex(g, o)) == Loc(g, b, c) {
      LocInjective(g, b, SectorIndex(g, o), b, c);
    }
  }

  lemma SectorsWritten(g: DiskShape, dev: seq<Sector>, dev': seq<Sector>, b: nat, c: nat, data: Sector)
    requires g.Valid() && DeviceOk(g, dev) && b < g.size && c < g.Spb() && |data| == g.secLength
    requires Loc(g, b, c) < |dev| && dev' == dev[Loc(g, b, c) := data]
    ensures forall o: nat :: o < g.blksiz ==>
              BlockByte(g, dev', b, o) ==
              if SectorStart(g, c) <= o < SectorStart(g, c) + g.secLength then data[o - SectorStart(g, c)]
              else BlockByte(g, dev, b, o)
    ensures forall t :: 0 <= t < |dev| && dev'[t] != dev[t] ==> InBlock(g, b, t)
  {
    hide DiskShape.Valid, DiskShape.Spb, DeviceOk, Loc, SectorStart, BlockByte;
    forall o: nat | o < g.blksiz
      ensures BlockByte(g, dev', b, o) ==
              if SectorStart(g, c) <= o < SectorStart(g, c) + g.secLength then data[o - SectorStart(g, c)]
              else BlockByte(g, dev, b, o)
    {
      SectorWritten(g, dev, b, c, data, o);
    }
  }

  /** The first byte past a transfer of `count` bytes from offset `off` that stays within its block. */
  function TransferEnd(g: DiskShape, off: nat, count: nat): nat {
    if off + count > g.blksiz then g.blksiz else off + count
  }

  /** The sectors start..end computed from an offset and a byte count cover the transfer. */
  lemma TransferSectors(g: DiskShape, off: nat, count: nat)
    requires g.Valid() && off < g.blksiz && count > 0
    ensures SectorIndex(g, off) <= SectorIndex(g, TransferEnd(g, off, count) - 1) < g.Spb()
    ensures SectorStart(g, SectorIndex(g, off)) <= off
    ensures TransferEnd(g, off, count) <= SectorStart(g, SectorIndex(g, TransferEnd(g, off, count) - 1) + 1) <= g.blksiz
  {
    hide DiskShape.Valid, DiskShape.Spb, SectorIndex, SectorOffset, SectorStart;
    var last := TransferEnd(g, off, count) - 1;
    var start, end := SectorIndex(g, off), SectorIndex(g, last);
    OffsetInBlock(g, last);
    SectorRange(g, off, start);
    SectorRange(g, last, end);
    SectorStartNext(g, end);
    SectorStartEnd(g, end);
    if end < start {
      SectorStartMono(g, end, start);
    }
  }
}
