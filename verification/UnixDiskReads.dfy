/** End to end: reading a file record by record through the made-up directory and the file cache. */
module UnixDiskReads {
  import opened Options
  import opened Arithmetic
  import opened Geometry
  import opened Directory
  import opened UnixDir
  import opened UnixDirFacts
  import opened MountDir
  import opened FileCache

  /** What MountDir promises about a mounted directory. */
  ghost predicate Mounted(d: UnixDisk, l: Layout) {
    && Describes(d.dsm, View(d), l.ps, l.p, l.b) && FdsMatch(d.fds, l.ps)
    && |d.data| == N_ENTRIES && d.nde % 4 == 0 && d.nde <= N_ENTRIES
  }

  /** The blocks of the files do not overlap, so the cache may be used on the disk. */
  lemma MountedDiskOk(d: UnixDisk, l: Layout)
    requires Mounted(d, l)
    ensures DiskOk(d)
  {
    hide Shape, View, TableHolds;
    forall j, k | 0 <= j < k < |d.fds|
      ensures d.fds[j].lastblock < d.fds[k].firstblock
    {
      ChainOrdered(l.ps, l.p, l.b, j, k);
      assert DescribesFile(d.fds[j], l.ps[j]) && DescribesFile(d.fds[k], l.ps[k]);
    }
  }

  /** Record `r` of a file: the 128 bytes from 128r on, with 1A for those behind the end. */
  ghost predicate IsRecord(a: Option<seq<byte>>, content: seq<byte>, r: nat) {
    && a.Some? && |a.value| == 128
    && forall i :: 0 <= i < 128 ==> a.value[i] == if 128 * r + i < |content| then content[128 * r + i] else 0x1a
  }

  lemma FileSectorIs(content: seq<byte>, r: nat)
    ensures IsRecord(Some(FileSector(content, 128 * r)), content, r)
  {
  }

  lemma RecordRead(host: Host, d: UnixDisk, l: Layout, k: nat, r: nat)
    requires Mounted(d, l) && k < |l.ps| && l.ps[k].Ok()
    requires l.ps[k].file.path in host && |host[l.ps[k].file.path]| == l.ps[k].file.size
    requires r < Cover(l.ps[k].file.size, 128)
    ensures Shape(d.dsm).Basic()
    ensures var b := FileBlock(Shape(d.dsm), View(d), l.ps[k].file.FileKey(), r / 32);
            DirectRead(host, d, b * 32 + r % 32) == Some(FileSector(host[l.ps[k].file.path], 128 * r))
  {
    var b := l.ps[k].first + r / 32;
    RecordInFile(l.ps[k].file.size, r);
    hide Shape, View, FileBlock, FileSector, FdsMatch, Owner, DescribesFile, Placed.Ok, DirectRead;
    FileListed(d.dsm, View(d), l.ps, l.p, l.b, k);
    BlockOwned(d, l, k, r / 32);
    OwnerRead(host, d, b, r % 32, k);
    assert 4096 * (r / 32) + 128 * (r % 32) == 128 * r;
  }

  lemma OwnerRead(host: Host, d: UnixDisk, b: nat, m: nat, j: nat)
    requires m < 32 && b >= DIR_BLOCKS && Owner(d.fds, b, 0) == j && j < |d.fds| && d.fds[j].fullname in host
    requires d.fds[j].firstblock <= b
    ensures DirectRead(host, d, b * 32 + m)
            == Some(FileSector(host[d.fds[j].fullname], 4096 * (b - d.fds[j].firstblock) + 128 * m))
  {
    hide FileSector, DirSector;
    assert (b * 32 + m) / 32 == b;
  }

  lemma BlockOwned(d: UnixDisk, l: Layout, k: nat, q: nat)
    requires Mounted(d, l) && k < |l.ps| && l.ps[k].Ok() && q <= (l.ps[k].file.size - 1) / BLOCK_SIZE
    ensures k < |d.fds| && d.fds[k].fullname == l.ps[k].file.path && d.fds[k].firstblock == l.ps[k].first >= DIR_BLOCKS
    ensures Owner(d.fds, l.ps[k].first + q, 0) == k
  {
    MountedDiskOk(d, l);
    hide Describes, View, Shape;
    assert DescribesFile(d.fds[k], l.ps[k]);
    assert InFile(d.fds[k], l.ps[k].first + q);
  }

  /**
   * Record `r` of a listed file, found through the block pointers of the directory, is bytes 128r..128r+127 of the
   * host file, padded with end-of-file characters.
   */
  lemma RecordServed(host: Host, d: UnixDisk, l: Layout, k: nat, r: nat)
    requires Mounted(d, l) && k < |l.ps| && l.ps[k].Ok()
    requires l.ps[k].file.path in host && |host[l.ps[k].file.path]| == l.ps[k].file.size
    requires r < Cover(l.ps[k].file.size, 128)
    ensures Shape(d.dsm).Basic()
    ensures var b := FileBlock(Shape(d.dsm), View(d), l.ps[k].file.FileKey(), r / 32);
            IsRecord(DirectRead(host, d, b * 32 + r % 32), host[l.ps[k].file.path], r)
  {
    hide Mounted, Placed.Ok, Shape, View, FileBlock, DirectRead, IsRecord, FileSector;
    RecordRead(host, d, l, k, r);
    FileSectorIs(host[l.ps[k].file.path], r);
  }

  /** The same through the commands: 256 sectors a track, 32 of them a block. */
  lemma RecordAnswered(host: Host, s: Drives, d: UnixDisk, l: Layout, k: nat, r: nat, track: nat, sector: nat)
    requires s.HasDisk(s.curdisk) && s.mnttab[s.curdisk] == Some(d)
    requires Mounted(d, l) && k < |l.ps| && l.ps[k].Ok()
    requires l.ps[k].file.path in host && |host[l.ps[k].file.path]| == l.ps[k].file.size
    requires r < Cover(l.ps[k].file.size, 128)
    ensures Shape(d.dsm).Basic()
    ensures var b := FileBlock(Shape(d.dsm), View(d), l.ps[k].file.FileKey(), r / 32);
            256 * track + sector == 32 * b + r % 32 ==>
              IsRecord(Answer(host, s, ReadSector(track, sector)), host[l.ps[k].file.path], r)
  {
    hide Mounted, Placed.Ok, Shape, View, FileBlock, DirectRead, IsRecord;
    RecordServed(host, d, l, k, r);
  }

  // ----- Commands in front of a read -----

  /** Reading sector n after one other command. */
  ghost predicate ReadsNext(host: Host, s: Drives, c: Command, track: nat, sector: nat, answer: Option<seq<byte>>) {
    Answers(host, s, [c, ReadSector(track, sector)]) == [None, answer]
  }

  lemma TwoAnswers(host: Host, s: Drives, c: Command, track: nat, sector: nat)
    requires !c.ReadSector?
    ensures ReadsNext(host, s, c, track, sector, Answer(host, After(s, c), ReadSector(track, sector)))
  {
    hide After;
    var cs := [c, ReadSector(track, sector)];
    assert cs[1..] == [ReadSector(track, sector)] && cs[1..][1..] == [];
    assert Answers(host, After(s, c), cs[1..]) == [Answer(host, After(s, c), ReadSector(track, sector))]
                                                  + Answers(host, After(After(s, c), cs[1]), cs[1..][1..]);
  }

  /**
   * Selecting: reads go to the disk selected, remounted if it is the first selection. Without a disk there, and if the
   * remount fails, the old one stays selected, unless it is the one that is gone.
   */
  lemma SelectThenRead(host: Host, s: Drives, drive: nat, again: bool, made: Option<UnixDisk>, track: nat, sector: nat)
    ensures var mounted := drive < |s.mnttab| && s.mnttab[drive].Some?; var n := 256 * track + sector;
            ReadsNext(host, s, SelectDisk(drive, again, made), track, sector,
                      if mounted && again then DirectRead(host, s.mnttab[drive].value, n)
                      else if mounted && made.Some? then DirectRead(host, made.value, n)
                      else if mounted && s.curdisk == drive then None
                      else Answer(host, s, ReadSector(track, sector)))
  {
    hide DirectRead;
    TwoAnswers(host, s, SelectDisk(drive, again, made), track, sector);
  }

  /** Mounting and unmounting change what is read exactly if it is the selected disk. */
  lemma MountThenRead(host: Host, s: Drives, disk: nat, made: Option<UnixDisk>, track: nat, sector: nat)
    requires disk < |s.mnttab|
    ensures ReadsNext(host, s, MountDisk(disk, made), track, sector,
                      if s.curdisk != disk then Answer(host, s, ReadSector(track, sector))
                      else if made.Some? then DirectRead(host, made.value, 256 * track + sector) else None)
    ensures ReadsNext(host, s, UnmountDisk(disk), track, sector,
                      if s.curdisk != disk then Answer(host, s, ReadSector(track, sector)) else None)
  {
    hide DirectRead;
    TwoAnswers(host, s, MountDisk(disk, made), track, sector);
    TwoAnswers(host, s, UnmountDisk(disk), track, sector);
  }

  // ----- The directory sectors in bytes -----

  /** A directory sector is four entries of 32 bytes, laid out as on a CP/M disk. */
  ghost predicate ShowsEntry(a: seq<byte>, at: nat, e: Entry) {
    && at + 32 <= |a|
    && a[at] == e.status && a[at + 12] == e.extnol && a[at + 13] == e.lrc && a[at + 14] == e.extnoh
        && a[at + 15] == e.blkcnt
    && (forall i :: 0 <= i < 8 ==> a[at + 1 + i] == e.name[i])
    && (forall i :: 0 <= i < 3 ==> a[at + 9 + i] == e.ext[i])
    && (forall i :: 0 <= i < 16 ==> a[at + 16 + i] == e.pointers[i])
  }

  lemma EntryShown(a: seq<byte>, at: nat, e: Entry)
    requires at + 32 <= |a| && a[at..at + 32] == EntryBytes(e)
    ensures ShowsEntry(a, at, e)
  {
    var s := EntryBytes(e);
    assert forall i :: 0 <= i < 32 ==> a[at + i] == s[i];
    assert forall i :: 0 <= i < 8 ==> s[1 + i] == e.name[i];
    assert forall i :: 0 <= i < 3 ==> s[9 + i] == e.ext[i];
    assert forall i :: 0 <= i < 16 ==> s[16 + i] == e.pointers[i];
  }

  lemma SectorEntry(d: UnixDisk, s: nat)
    requires s < N_ENTRIES
    ensures DirSector(d, s / 4)[s % 4 * 32..s % 4 * 32 + 32] == EntryBytes(View(d)[s])
  {
    hide EntryBytes, View;
    assert s == 4 * (s / 4) + s % 4;
  }

  /** Slot `s` of the directory is read in sector s / 4; the four sectors left of its 16 blocks hold nothing but E5. */
  lemma DirectoryServed(host: Host, d: UnixDisk, s: nat)
    ensures s < 2032 ==> var a := DirectRead(host, d, s / 4);
                         a.Some? && |a.value| == 128 && ShowsEntry(a.value, s % 4 * 32, View(d)[s])
    ensures 508 <= s < 512 ==> var a := DirectRead(host, d, s);
                               a.Some? && |a.value| == 128 && forall i :: 0 <= i < 128 ==> a.value[i] == 0xe5
  {
    hide DirSector, EntryBytes, ShowsEntry, View;
    if s < N_ENTRIES {
      SectorEntry(d, s);
      EntryShown(DirSector(d, s / 4), s % 4 * 32, View(d)[s]);
    }
  }

  /**
   * Entry `i` of a file of `size` bytes whose blocks start at `first`: user 0, one logical extent of 16K in front of
   * another, and all records of 128 bytes in use, but for the last entry, which stops with the file.
   */
  ghost predicate DescribesPart(a: seq<byte>, at: nat, size: nat, first: nat, i: nat)
    requires size > 0 && at + 32 <= |a|
  {
    var last := i == (size - 1) / 32768;
    var x := if last then (size - 1) / 16384 else 2 * i + 1;
    && a[at] == 0 && a[at + 12] == x % 32 && a[at + 13] == 0 && a[at + 14] == x / 32
    && a[at + 15] == (if last then (size - 1) % 16384 / 128 + 1 else 128)
    && ListsBlocks(a, at, size, first, i)
  }

  /** The eight pointers, low byte first; zero behind the end of the file. */
  ghost predicate ListsBlocks(a: seq<byte>, at: nat, size: nat, first: nat, i: nat)
    requires size > 0 && at + 32 <= |a|
  {
    forall j :: 0 <= j < 8 ==>
                  var b := if 8 * i + j <= (size - 1) / 4096 then first + 8 * i + j else 0;
                  a[at + 16 + 2 * j] == b % 256 && a[at + 17 + 2 * j] == b / 256
  }

  lemma PointersShown(c: Cell, a: seq<byte>, at: nat)
    requires c.Ok() && at + 32 <= |a| && forall i :: 0 <= i < 16 ==> a[at + 16 + i] == PointerBytes(c)[i]
    ensures ListsBlocks(a, at, c.file.size, c.first, c.i)
  {
    forall j | 0 <= j < 8
      ensures var b := if 8 * c.i + j <= (c.file.size - 1) / 4096 then c.first + 8 * c.i + j else 0;
              a[at + 16 + 2 * j] == b % 256 && a[at + 17 + 2 * j] == b / 256
    {
      assert c.Block(j) == if 8 * c.i + j <= (c.file.size - 1) / 4096 then c.first + 8 * c.i + j else 0;
      assert a[at + 16 + 2 * j] == PointerBytes(c)[2 * j] && a[at + 16 + (2 * j + 1)] == PointerBytes(c)[2 * j + 1];
    }
  }

  lemma LastExtentIs(c: Cell)
    requires c.Ok()
    ensures c.LastExtent() <==> c.i == (c.file.size - 1) / 32768
  {
  }

  lemma CellDescribes(c: Cell, a: seq<byte>, at: nat)
    requires c.Ok() && at + 32 <= |a| && ShowsEntry(a, at, CellEntry(c))
    ensures DescribesPart(a, at, c.file.size, c.first, c.i)
  {
    LastExtentIs(c);
    hide PointerBytes, ListsBlocks, Cell.LastExtent;
    PointersShown(c, a, at);
  }

  /** What a program sees of a listed file when it reads the directory. Every fourth slot is left to the date stamps. */
  lemma FileInDirectory(host: Host, d: UnixDisk, l: Layout, k: nat, i: nat)
    requires Mounted(d, l) && k < |l.ps| && l.ps[k].Ok() && i <= (l.ps[k].file.size - 1) / 32768
    ensures var f, q := l.ps[k].file, l.ps[k].p + i; var s := q + q / 3;
            && s < 2032 && DirectRead(host, d, s / 4).Some?
            && var a, at := DirectRead(host, d, s / 4).value, s % 4 * 32;
               && |a| == 128 && DescribesPart(a, at, f.size, l.ps[k].first, i)
               && (forall m :: 0 <= m < 8 ==> a[at + 1 + m] == f.name[m])
               && (forall m :: 0 <= m < 3 ==> a[at + 9 + m] == f.ext[m])
  {
    hide Shape, View, DescribesPart, CellEntry, DirectRead, ShowsEntry;
    ChainOrdered(l.ps, l.p, l.b, k, k);
    CellStored(View(d), l.ps, l.p, k, i);
    var s := SlotOf(l.ps[k].p + i);
    DirectoryServed(host, d, s);
    var a := DirectRead(host, d, s / 4).value;
    var c := Cell(l.ps[k].file, l.ps[k].first, i);
    CellDescribes(c, a, s % 4 * 32);
    NameShown(a, s % 4 * 32, c);
  }

  lemma NameShown(a: seq<byte>, at: nat, c: Cell)
    requires c.Ok() && at + 32 <= |a| && ShowsEntry(a, at, CellEntry(c))
    ensures forall m :: 0 <= m < 8 ==> a[at + 1 + m] == c.file.name[m]
    ensures forall m :: 0 <= m < 3 ==> a[at + 9 + m] == c.file.ext[m]
  {
    hide PointerBytes, Cell.ExtentNumber, Cell.Records;
  }

  lemma RecordInFile(size: nat, r: nat)
    requires r < Cover(size, 128)
    ensures size > 0 && r / 32 < (size - 1) / BLOCK_SIZE + 1
  {
    CoverStep(size, 128, r);
    assert (size - 1) / 128 / 32 == (size - 1) / 4096;
  }
}
