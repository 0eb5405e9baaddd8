/** The operations that take a file name: create, unlink, rename, look up, list; and the statistics. */
module CpmNames {
  import opened Options
  import opened Arithmetic
  import opened Geometry
  import opened AllocVector
  import opened Bits
  import opened Directory
  import opened DirectoryChanges
  import opened FileData
  import opened RecordedSize
  import opened Names
  import opened NameOps
  import opened CpmFs
  import opened CpmFiles
  import opened CpmAppend

  /** cpmCreat: a new, empty file; fails for an illegal or existing name and when the directory is full. */
  method CpmCreat(sb: SuperBlock, fname: seq<byte>) returns (r: Option<Inode>)
    requires sb.Valid()
    modifies sb`dir
    ensures sb.Valid()
    ensures r.None? ==> sb.dir == old(sb.dir)
    ensures r.None? <==> ParseName(sb.g, fname).None?
                         || Find(sb.g, old(sb.dir), ParseName(sb.g, fname).value, 0, -1) >= 0
                         || (forall i :: 0 <= i < |old(sb.dir)| ==> old(sb.dir[i]).status != ERASED)
    ensures r.Some? ==> fresh(r.value) && r.value.sb == sb && r.value.Valid()
                        && r.value.FileKey() == ParseName(sb.g, fname).value
    ensures r.Some? ==> r.value.size == 0 && Grown(r.value, 0)
    ensures r.Some? ==> KeyOk(sb.g, ParseName(sb.g, fname).value) && r.value.ino < |old(sb.dir)|
                        && old(sb.dir)[r.value.ino].status == ERASED
    ensures r.Some? ==> sb.dir == old(sb.dir)[r.value.ino := NewFileEntry(ParseName(sb.g, fname).value)]
    ensures r.Some? ==> OtherEntriesKept(sb.g, old(sb.dir), sb.dir, ParseName(sb.g, fname).value)
  {
    hide DiskShape.Valid, DiskShape.DirBlocks, DiskShape.ExtCap, DeviceOk, Consistent, KeyOf, ParseName, FileState,
         NewFileEntry;
    var g := sb.g;
    var parsed := SplitFilename(g, fname);
    if parsed.None? {
      return None;
    }
    var key := parsed.value;
    ParsedKeyOk(g, fname);
    var found := sb.FindFileExtent(key, 0, -1);
    if found != -1 {
      return None;
    }
    var i := sb.FindFreeExtent();
    if i == -1 {
      return None;
    }
    CreateKeeps(g, sb.dir, sb.alv, key, i);
    sb.dir := sb.dir[i := NewFileEntry(key)];
    var inode := new Inode(sb, i, 0);
    return Some(inode);
  }

  /** Has the entry been reached? Entries below `m` have, the others are as before. */
  ghost predicate ErasedUpTo(g: DiskShape, dir: seq<Entry>, dir': seq<Entry>, key: Key, m: nat) {
    && |dir'| == |dir|
    && forall i :: 0 <= i < |dir| ==> dir'[i] == if i < m then Erase(g, key, dir[i]) else dir[i]
  }

  /** cpmUnlink: erases every entry of the file and rebuilds the bitmap. */
  method CpmUnlink(sb: SuperBlock, fname: seq<byte>) returns (rc: int)
    requires sb.Valid()
    modifies sb`dir, sb`alv
    ensures sb.Valid()
    ensures rc == 0 || rc == -1
    ensures rc == -1 <==> ParseName(sb.g, fname).None?
                          || Find(sb.g, old(sb.dir), ParseName(sb.g, fname).value, 0, -1) == -1
    ensures rc == -1 ==> sb.dir == old(sb.dir)
    ensures rc == 0 ==> sb.dir == Unlinked(sb.g, old(sb.dir), ParseName(sb.g, fname).value)
  {
    hide DiskShape.Valid, DiskShape.DirBlocks, DiskShape.ExtCap, DeviceOk, KeyOf, ParseName, DirOk, BitmapAgrees;
    MaxUserBound(sb.g);
    var g := sb.g;
    var parsed := SplitFilename(g, fname);
    if parsed.None? {
      return -1;
    }
    var key := parsed.value;
    ghost var dir := sb.dir;
    var extent := sb.FindFileExtent(key, 0, -1);
    if extent == -1 {
      return -1;
    }
    UnlinkKeeps(g, dir, key);
    ghost var m := extent;
    while extent >= 0
      invariant sb.Ready() && -1 <= extent < g.maxdir
      invariant extent >= 0 ==> m == extent && Owns(g, key, sb.dir[extent])
      invariant extent < 0 ==> m == |dir|
      invariant ErasedUpTo(g, dir, sb.dir, key, m)
      decreases g.maxdir - m
    {
      sb.dir := sb.dir[extent := sb.dir[extent].(status := ERASED)];
      ghost var at := extent + 1;
      extent := sb.FindFileExtent(key, extent + 1, -1);
      ErasedFurther(g, dir, sb.dir, key, at, if extent >= 0 then extent else |dir|);
      m := if extent >= 0 then extent else |dir|;
    }
    assert sb.dir == Unlinked(g, dir, key);
    sb.AlvInit();
    return 0;
  }

  lemma MaxUserBound(g: DiskShape)
    ensures g.MaxUser() < ERASED
  {
  }

  /** Entries between two hits do not belong to the file, so skipping them is erasing them. */
  lemma ErasedFurther(g: DiskShape, dir: seq<Entry>, dir': seq<Entry>, key: Key, m: nat, m': nat)
    requires g.Basic() && ErasedUpTo(g, dir, dir', key, m) && m <= m' <= |dir|
    requires forall i :: m <= i < m' ==> !Matches(g, key, -1, dir'[i])
    ensures ErasedUpTo(g, dir, dir', key, m')
  {
  }

  ghost predicate MovedUpTo(g: DiskShape, dir: seq<Entry>, dir': seq<Entry>, key: Key, newKey: Key, m: nat)
    requires |newKey.name| == 8 && |newKey.ext| == 3
  {
    && |dir'| == |dir|
    && forall i :: 0 <= i < |dir| ==>
                   dir'[i] == if i < m && Owns(g, key, dir[i]) then Relabel(dir[i], newKey) else dir[i]
  }

  lemma MovedFurther(g: DiskShape, dir: seq<Entry>, dir': seq<Entry>, key: Key, newKey: Key, m: nat, m': nat)
    requires g.Basic() && KeyOk(g, newKey) && MovedUpTo(g, dir, dir', key, newKey, m) && m <= m' <= |dir|
    requires forall i :: m <= i < m' ==> !Matches(g, key, -1, dir'[i])
    ensures MovedUpTo(g, dir, dir', key, newKey, m')
  {
  }

  /** cpmRename: fails unless the old name exists and the new one does not. */
  method CpmRename(sb: SuperBlock, old_: seq<byte>, new_: seq<byte>) returns (rc: int)
    requires sb.Valid()
    modifies sb`dir
    ensures sb.Valid()
    ensures rc == 0 || rc == -1
    ensures rc == -1 <==> || ParseName(sb.g, old_).None? || ParseName(sb.g, new_).None?
                          || Find(sb.g, old(sb.dir), ParseName(sb.g, old_).value, 0, -1) == -1
                          || Find(sb.g, old(sb.dir), ParseName(sb.g, new_).value, 0, -1) >= 0
    ensures rc == -1 ==> sb.dir == old(sb.dir)
    ensures rc == 0 ==> KeyOk(sb.g, ParseName(sb.g, new_).value)
    ensures rc == 0 ==> OwnersMoved(sb.g, old(sb.dir), sb.dir, ParseName(sb.g, old_).value, ParseName(sb.g, new_).value)
  {
    hide DiskShape.Valid, DiskShape.DirBlocks, DiskShape.ExtCap, DeviceOk, KeyOf, ParseName, Consistent, OwnersMoved;
    var g := sb.g;
    var oldName := SplitFilename(g, old_);
    if oldName.None? {
      return -1;
    }
    var newName := SplitFilename(g, new_);
    if newName.None? {
      return -1;
    }
    var key, newKey := oldName.value, newName.value;
    ParsedKeyOk(g, new_);
    ghost var dir := sb.dir;
    var extent := sb.FindFileExtent(key, 0, -1);
    if extent == -1 {
      return -1;
    }
    var existing := sb.FindFileExtent(newKey, 0, -1);
    if existing != -1 {
      return -1;
    }
    assert newKey != key;
    ghost var m := extent;
    while extent >= 0
      invariant sb.Ready() && -1 <= extent < g.maxdir
      invariant extent >= 0 ==> m == extent && Owns(g, key, sb.dir[extent])
      invariant extent < 0 ==> m == |dir|
      invariant MovedUpTo(g, dir, sb.dir, key, newKey, m)
      decreases g.maxdir - m
    {
      sb.dir := sb.dir[extent := Relabel(sb.dir[extent], newKey)];
      ghost var at := extent + 1;
      extent := sb.FindFileExtent(key, extent + 1, -1);
      MovedFurther(g, dir, sb.dir, key, newKey, at, if extent >= 0 then extent else |dir|);
      m := if extent >= 0 then extent else |dir|;
    }
    assert sb.dir == Renamed(g, dir, key, newKey);
    RenamedMoves(g, dir, key, newKey);
    RenameKeeps(g, dir, sb.dir, sb.alv, key, newKey);
    return 0;
  }

  // ----- Look up -----

  /** The size cpmNamei computes from the last extent of a file; lrc is a signed character. */
  function RecordedBytes(g: DiskShape, e: Entry): (n: nat) {
    Extent(e) * 16384
    + if e.blkcnt == 0 then 0
      else (e.blkcnt - 1) * 128
           + if g.exactSize then 128 - (if e.lrc < 128 then e.lrc else e.lrc - 256)
             else if e.lrc != 0 then e.lrc else 128
  }

  ghost predicate IsHighest(g: DiskShape, dir: seq<Entry>, key: Key, h: int) {
    0 <= h < |dir| && Owns(g, key, dir[h]) && forall i ::
        0 <= i < |dir| && Owns(g, key, dir[i]) ==> Extent(dir[i]) <= Extent(dir[h])
  }

  ghost predicate IsLowest(g: DiskShape, dir: seq<Entry>, key: Key, l: int) {
    0 <= l < |dir| && Owns(g, key, dir[l]) && forall i ::
        0 <= i < |dir| && Owns(g, key, dir[i]) ==> Extent(dir[l]) <= Extent(dir[i])
  }

  /** cpmNamei: the inode is the lowest extent, the size comes from the highest one. */
  method CpmNamei(sb: SuperBlock, fname: seq<byte>) returns (r: Option<Inode>, ghost highest: int)
    requires sb.Valid()
    ensures r.None? <==> ParseName(sb.g, fname).None? || Find(sb.g, sb.dir, ParseName(sb.g, fname).value, 0, -1) == -1
    ensures r.Some? ==> fresh(r.value) && r.value.sb == sb && r.value.Valid()
                        && r.value.FileKey() == ParseName(sb.g, fname).value
    ensures r.Some? ==> IsLowest(sb.g, sb.dir, r.value.FileKey(), r.value.ino)
                        && IsHighest(sb.g, sb.dir, r.value.FileKey(), highest)
    ensures r.Some? ==> r.value.size == RecordedBytes(sb.g, sb.dir[highest])
  {
    hide DiskShape.Valid, DiskShape.DirBlocks, DiskShape.ExtCap, DeviceOk, KeyOf, ParseName, Consistent, RecordedBytes;
    var g := sb.g;
    highest := -1;
    var parsed := SplitFilename(g, fname);
    if parsed.None? {
      return None, -1;
    }
    var key := parsed.value;
    var c := ExtentScan(-1, 2049, -1, -1);
    var extent := sb.FindFileExtent(key, 0, -1);
    ghost var m := if extent >= 0 then extent else g.maxdir;
    assert Scanned(g, sb.dir, key, m, c);
    hide Extent, Scanned;
    while extent != -1
      invariant -1 <= extent < g.maxdir && m == if extent >= 0 then extent else g.maxdir
      invariant extent >= 0 ==> Owns(g, key, sb.dir[extent])
      invariant m <= |sb.dir| && Scanned(g, sb.dir, key, m, c)
      decreases g.maxdir - m
    {
      ghost var before := c;
      var extno := Extent(sb.dir[extent]);
      if extno > c.highestExtno {
        c := c.(highestExtno := extno, highestExt := extent);
      }
      if extno < c.lowestExtno {
        c := c.(lowestExtno := extno, lowestExt := extent);
      }
      var next := sb.FindFileExtent(key, extent + 1, -1);
      ScanStep(g, sb.dir, key, extent, if next >= 0 then next else g.maxdir, before, c);
      extent := next;
      m := if extent >= 0 then extent else g.maxdir;
    }
    ScanEnds(g, sb.dir, key, c);
    if c.highestExtno == -1 {
      return None, -1;
    }
    highest := c.highestExt;
    var inode := new Inode(sb, c.lowestExt, RecordedBytes(g, sb.dir[c.highestExt]));
    return Some(inode), highest;
  }

  /** The highest and lowest extent number seen so far, and where. */
  datatype ExtentScan = ExtentScan(highestExtno: int, lowestExtno: int, highestExt: int, lowestExt: int)

  /** What the scan has established about the entries below `m`. */
  ghost predicate Scanned(g: DiskShape, dir: seq<Entry>, key: Key, m: nat, c: ExtentScan)
    requires m <= |dir|
  {
    && (c.highestExtno == -1 ==> c.lowestExtno == 2049 && forall i :: 0 <= i < m ==> !Owns(g, key, dir[i]))
    && (c.highestExtno != -1 ==>
          && 0 <= c.highestExt < m && Owns(g, key, dir[c.highestExt]) && c.highestExtno == Extent(dir[c.highestExt])
          && 0 <= c.lowestExt < m && Owns(g, key, dir[c.lowestExt]) && c.lowestExtno == Extent(dir[c.lowestExt])
          && forall i :: 0 <= i < m && Owns(g, key, dir[i]) ==> c.lowestExtno <= Extent(dir[i]) <= c.highestExtno)
  }

  lemma ScanStep(g: DiskShape, dir: seq<Entry>, key: Key, i: nat, m: nat, c: ExtentScan, c': ExtentScan)
    requires g.Basic() && i < m <= |dir| && Scanned(g, dir, key, i, c) && Owns(g, key, dir[i])
    requires forall k :: i < k < m ==> !Matches(g, key, -1, dir[k])
    requires c'.highestExtno == (if Extent(dir[i]) > c.highestExtno then Extent(dir[i]) else c.highestExtno)
    requires c'.highestExt == (if Extent(dir[i]) > c.highestExtno then i else c.highestExt)
    requires c'.lowestExtno == (if Extent(dir[i]) < c.lowestExtno then Extent(dir[i]) else c.lowestExtno)
    requires c'.lowestExt == (if Extent(dir[i]) < c.lowestExtno then i else c.lowestExt)
    ensures Scanned(g, dir, key, m, c')
  {
    hide KeyOf;
    assert Extent(dir[i]) < 2049;
    hide Extent;
  }

  lemma ScanEnds(g: DiskShape, dir: seq<Entry>, key: Key, c: ExtentScan)
    requires g.Basic() && Scanned(g, dir, key, |dir|, c)
    ensures c.highestExtno == -1 <==> Find(g, dir, key, 0, -1) == -1
    ensures c.highestExtno != -1 ==> IsHighest(g, dir, key, c.highestExt) && IsLowest(g, dir, key, c.lowestExt)
  {
    hide KeyOf, Extent;
    if c.highestExtno == -1 {
      assert forall i :: 0 <= i < |dir| ==> !Matches(g, key, -1, dir[i]);
    } else {
      assert Matches(g, key, -1, dir[c.highestExt]);
    }
  }

  /** When the recorded size is the number of bytes written. */
  predicate SizeIsExact(g: DiskShape, n: nat, extentno: nat) {
    n == 0 || extentno == (n - 1) / 16384
  }

  /** Stamped at `n`, an entry yields `n` exactly when its extent number is that of the last byte. */
  lemma StampedBytes(g: DiskShape, e: Entry, n: nat, extentno: nat)
    requires n > 0 && Stamped(g, e, n, extentno)
    ensures RecordedBytes(g, e) == extentno * 16384 + (n - 1) % 16384 + 1
    ensures RecordedBytes(g, e) == n <==> SizeIsExact(g, n, extentno)
  {
    hide Extent;
    RecordDigits(n - 1);
  }

  /** A byte position as 16K extent, record and place in the record. */
  lemma RecordDigits(m: nat)
    ensures m % 16384 == m % 16384 / 128 * 128 + m % 128
    ensures m % 128 == 127 ==> (m + 1) % 128 == 0
    ensures m % 128 < 127 ==> (m + 1) % 128 == m % 128 + 1
    ensures m == m / 16384 * 16384 + m % 16384
  {
    DivSplit(m, 128, 128);
    assert m % 16384 == m % 16384 / 128 * 128 + m % 16384 % 128;
    NextQuotient(m, 128);
  }

  /**
   * The size a look-up finds for a file that was appended to: the number of bytes written if the last extent is
   * empty, and otherwise exactly if the last write recorded the extent number of the last byte.
   */
  lemma LookupSize(g: DiskShape, dir: seq<Entry>, key: Key, n: nat, nx: nat, r: nat, h: nat)
    requires g.Valid() && ExtentsDistinct(g, dir) && FileState(g, dir, key, n, nx, r) && IsHighest(g, dir, key, h)
    ensures RecordedBytes(g, dir[h]) == n <==> SlotNumber(g, nx - 1, 0) == BlockCount(g, n) || SizeIsExact(g, n, r)
  {
    hide DiskShape.Valid, DiskShape.ExtCap, DiskShape.DirBlocks, BlockCount, Stamped, RecordedBytes, KeyOf, Ptr, Extent;
    var top := Find(g, dir, key, 0, nx - 1);
    HighestIsTop(g, dir, key, nx, BlockCount(g, n), h, top);
    if SlotNumber(g, nx - 1, 0) == BlockCount(g, n) {
      EmptyBytes(g, dir[top]);
    } else {
      StampedBytes(g, dir[top], n, r);
    }
  }

  lemma EmptyBytes(g: DiskShape, e: Entry)
    requires e.blkcnt == 0
    ensures RecordedBytes(g, e) == Extent(e) * 16384
  {
  }

  lemma HighestIsTop(g: DiskShape, dir: seq<Entry>, key: Key, nx: nat, nb: nat, h: nat, top: int)
    requires g.Basic() && ExtentsDistinct(g, dir) && FileShape(g, dir, key, nx, nb) && IsHighest(g, dir, key, h)
    requires top == Find(g, dir, key, 0, nx - 1)
    ensures top == h
  {
    hide Extent, KeyOf, Ptr;
    DivMono(Extent(dir[top]), Extent(dir[h]), g.extents);
  }

  /**
   * A call that has appended bytes n0..n1-1 leaves an exact size exactly when it stayed within one 16K logical
   * extent or ended in the first logical extent of a directory entry. With one logical extent per entry it always does.
   */
  lemma ExactSizeIff(g: DiskShape, n0: nat, n1: nat)
    requires g.Valid() && n0 < n1
    ensures SizeIsExact(g, n1, RecordedExtent(g, n0, n1)) <==>
            n0 / 16384 == (n1 - 1) / 16384 || ((n1 - 1) / 16384) % g.extents == 0
    ensures g.extents == 1 ==> SizeIsExact(g, n1, RecordedExtent(g, n0, n1))
  {
    var x, s := SlotExtent(g, BlockNo(g, n1 - 1)), ExtentStart(g, SlotExtent(g, BlockNo(g, n1 - 1)));
    PositionSlot(g, n1 - 1);
    NextExtentStart(g, n1 - 1);
    ExtentStartIs(g, x);
    hide DiskShape.Valid, DiskShape.ExtCap, DiskShape.DirBlocks, BlockNo, ExtentStart, SlotExtent;
    ExtentNumberOf(s, x, g.extents);
    ExactNumbers(n0, s, n1 - 1, x, g.extents);
  }

  lemma ExactNumbers(n0: nat, s: nat, m: nat, x: nat, extents: nat)
    requires extents > 0 && n0 <= m && s <= m && s / 16384 == extents * x && x == (m / 16384) / extents
    ensures Max(n0, s) / 16384 == m / 16384 <==> n0 / 16384 == m / 16384 || (m / 16384) % extents == 0
    ensures extents == 1 ==> Max(n0, s) / 16384 == m / 16384
  {
    var last := m / 16384;
    assert last == extents * x + last % extents;
    DivMono(s, m, 16384);
    DivMono(n0, m, 16384);
    if s < n0 {
      DivMono(s, n0, 16384);
    } else {
      DivMono(n0, s, 16384);
    }
  }

  lemma ExtentNumberOf(s: nat, x: nat, extents: nat)
    requires s == x * (16384 * extents)
    ensures s / 16384 == extents * x
  {
    MulRotate(x, 16384, extents);
    DivModUnique(s, 16384, x * extents, 0);
  }

  /**
   * On a disk with two logical extents per entry, a file of 20000 bytes written in one call is found with 3616 bytes.
   */
  lemma OneCallTooLong(g: DiskShape, dir: seq<Entry>, key: Key, nx: nat, h: nat)
    requires g.Valid() && g.extents == 2 && ExtentsDistinct(g, dir) && IsHighest(g, dir, key, h)
    requires FileState(g, dir, key, 20000, nx, RecordedExtent(g, 0, 20000))
    ensures RecordedBytes(g, dir[h]) == 3616
  {
    FirstExtentRecorded(g, 20000);
    hide DiskShape.Valid, DiskShape.ExtCap, DiskShape.DirBlocks, BlockCount, Stamped, RecordedBytes, KeyOf, Ptr,
         Extent, RecordedExtent;
    var top := Find(g, dir, key, 0, nx - 1);
    HighestIsTop(g, dir, key, nx, BlockCount(g, 20000), h, top);
    StampedBytes(g, dir[top], 20000, 0);
  }

  lemma FirstExtentRecorded(g: DiskShape, n: nat)
    requires g.Valid() && 0 < n <= 16384 * g.extents
    ensures RecordedExtent(g, 0, n) == 0
  {
    PositionSlot(g, n - 1);
    hide DiskShape.Valid, DiskShape.DirBlocks, BlockNo, SlotExtent;
    assert g.ExtCap() == 16384 * g.extents;
    SmallMod(n - 1, g.ExtCap());
  }

  // ----- Statistics -----

  function Clear(alv: seq<word>, n: nat): (s: set<nat>)
    requires n <= INTBITS * |alv|
    ensures forall b: nat :: b in s <==> b < n && !InUse(alv, b)
    ensures |s| <= n
  {
    if n == 0 then {} else if InUse(alv, n - 1) then Clear(alv, n - 1) else Clear(alv, n - 1) + {n - 1}
  }

  /** The blocks below `n` that live entries point to. */
  ghost function Pointed(g: DiskShape, dir: seq<Entry>, n: nat): (s: set<nat>)
    ensures forall b: nat :: b in s <==> b < n && Referenced(g, dir, b)
  {
    set b: nat | b < n && Referenced(g, dir, b)
  }

  /** Every block is a directory block, a block of exactly one file, or free. */
  lemma {:induction false} BlocksAccounted(g: DiskShape, dir: seq<Entry>, alv: seq<word>, n: nat)
    requires g.Basic() && Consistent(g, dir, alv) && n <= g.size
    ensures |Clear(alv, n)| + |Pointed(g, dir, n)| + Bound(n, g.DirBlocks()) == n
  {
    hide *;
    if n == 0 {
      NoBlocks(g, dir, alv);
    } else {
      BlocksAccounted(g, dir, alv, n - 1);
      BitmapAt(g, dir, alv, n - 1);
      OneMoreBlock(g, dir, alv, n - 1);
      BoundStep(n - 1, g.DirBlocks());
    }
  }

  lemma NoBlocks(g: DiskShape, dir: seq<Entry>, alv: seq<word>)
    requires g.Basic()
    ensures |Clear(alv, 0)| == 0 && |Pointed(g, dir, 0)| == 0 && Bound(0, g.DirBlocks()) == 0
  {
    hide DiskShape.DirBlocks;
    assert Pointed(g, dir, 0) == {};
  }

  lemma BitmapAt(g: DiskShape, dir: seq<Entry>, alv: seq<word>, b: nat)
    requires g.Basic() && Consistent(g, dir, alv) && b < g.size
    ensures g.blksiz > 0 && b < INTBITS * |alv| && (InUse(alv, b) <==> b < g.DirBlocks() || Referenced(g, dir, b))
    ensures Referenced(g, dir, b) ==> g.DirBlocks() <= b
  {
    hide DiskShape.DirBlocks, InUse, PointersDistinct, ExtentsDistinct;
    PointedAboveDirectory(g, dir, b);
  }

  lemma BoundStep(n: nat, d: nat)
    ensures Bound(n + 1, d) == Bound(n, d) + if n < d then 1 else 0
  {
  }

  lemma OneMoreBlock(g: DiskShape, dir: seq<Entry>, alv: seq<word>, b: nat)
    requires b < INTBITS * |alv|
    ensures |Clear(alv, b + 1)| == |Clear(alv, b)| + if InUse(alv, b) then 0 else 1
    ensures |Pointed(g, dir, b + 1)| == |Pointed(g, dir, b)| + if Referenced(g, dir, b) then 1 else 0
  {
    hide Referenced, InUse;
    if Referenced(g, dir, b) {
      assert Pointed(g, dir, b + 1) == Pointed(g, dir, b) + {b};
    } else {
      assert Pointed(g, dir, b + 1) == Pointed(g, dir, b);
    }
  }

  lemma PointedAboveDirectory(g: DiskShape, dir: seq<Entry>, b: nat)
    requires g.Basic() && PointersInRange(g, dir)
    ensures Referenced(g, dir, b) ==> g.DirBlocks() <= b
  {
  }

  /** The free blocks: behind the directory table, and no file's. */
  ghost function FreeBlocks(g: DiskShape, dir: seq<Entry>): (s: set<nat>)
    ensures forall b: nat :: b in s <==> b < g.size && 32 * g.maxdir <= b * g.blksiz && !Referenced(g, dir, b)
  {
    set b: nat | b < g.size && 32 * g.maxdir <= b * g.blksiz && !Referenced(g, dir, b)
  }

  lemma ClearIsFree(g: DiskShape, dir: seq<Entry>, alv: seq<word>)
    requires g.Basic() && BitmapAgrees(g, dir, alv)
    ensures g.size <= INTBITS * |alv| && Clear(alv, g.size) == FreeBlocks(g, dir)
  {
    hide FreeBlocks, Clear, InUse, Referenced, DiskShape.DirBlocks;
    forall b: nat | b < g.size
      ensures b in Clear(alv, g.size) <==> b in FreeBlocks(g, dir)
    {
      MarkedBlocks(g, dir, alv, b);
    }
  }

  function Bound(n: nat, size: nat): (b: nat)
    ensures b <= n && b <= size
  {
    if n < size then n else size
  }

  /** Counts the bits of word `i` that stand for blocks of the disk. */
  method CountWord(alv: seq<word>, i: nat, size: nat) returns (free: nat, used: nat)
    requires i < |alv| && size <= INTBITS * |alv|
    ensures free == |Clear(alv, Bound(INTBITS * i + INTBITS, size))| - |Clear(alv, Bound(INTBITS * i, size))|
    ensures free + used == Bound(INTBITS * i + INTBITS, size) - Bound(INTBITS * i, size)
  {
    hide Clear, Bound, InUse, TestBit;
    free, used := 0, 0;
    var temp: nat := alv[i];
    var j := 0;
    ShiftStart(temp);
    while j < INTBITS
      invariant 0 <= j <= INTBITS
      invariant forall m: nat :: TestBit(temp, m) == TestBit(alv[i], j + m)
      invariant free == |Clear(alv, Bound(INTBITS * i + j, size))| - |Clear(alv, Bound(INTBITS * i, size))|
      invariant free + used == Bound(INTBITS * i + j, size) - Bound(INTBITS * i, size)
    {
      LowestBit(temp, alv[i], j);
      ClearStep(alv, i, j, size);
      if i * INTBITS + j < size {
        if temp % 2 == 1 {
          used := used + 1;
        } else {
          free := free + 1;
        }
      }
      ShiftBits(temp, alv[i], j);
      temp := temp / 2;
      j := j + 1;
    }
  }

  lemma ShiftStart(w: nat)
    ensures forall m: nat :: TestBit(w, m) == TestBit(w, 0 + m)
  {
  }

  lemma LowestBit(temp: nat, w: nat, j: nat)
    requires forall m: nat :: TestBit(temp, m) == TestBit(w, j + m)
    ensures TestBit(w, j) <==> temp % 2 == 1
  {
    assert TestBit(temp, 0) == TestBit(w, j + 0);
  }

  lemma ClearStep(alv: seq<word>, i: nat, j: nat, size: nat)
    requires i < |alv| && j < INTBITS && size <= INTBITS * |alv|
    ensures var n, k := Bound(INTBITS * i + j, size), Bound(INTBITS * i + (j + 1), size);
            if INTBITS * i + j < size then k == n + 1
                && |Clear(alv, k)| == |Clear(alv, n)| + (if TestBit(alv[i], j) then 0 else 1)
            else k == n
  {
    hide TestBit;
    hide *;
    BoundCases(INTBITS * i + j, size);
    if INTBITS * i + j < size {
      WordAndBit(alv, i, j);
      ClearOne(alv, INTBITS * i + j);
    }
  }

  lemma BoundCases(n: nat, size: nat)
    ensures n < size ==> Bound(n, size) == n && Bound(n + 1, size) == n + 1
    ensures n >= size ==> Bound(n, size) == size == Bound(n + 1, size)
    ensures Bound(0, size) == 0
  {
  }

  lemma ClearOne(alv: seq<word>, b: nat)
    requires b < INTBITS * |alv|
    ensures |Clear(alv, b + 1)| == |Clear(alv, b)| + if InUse(alv, b) then 0 else 1
  {
    hide InUse;
  }

  lemma WordAndBit(alv: seq<word>, i: nat, j: nat)
    requires i < |alv| && j < INTBITS
    ensures InUse(alv, INTBITS * i + j) == TestBit(alv[i], j)
  {
    hide TestBit;
    DivModUnique(INTBITS * i + j, INTBITS, i, j);
  }

  lemma ShiftBits(temp: nat, w: nat, j: nat)
    requires forall m: nat :: TestBit(temp, m) == TestBit(w, j + m)
    ensures forall m: nat :: TestBit(temp / 2, m) == TestBit(w, j + 1 + m)
  {
    forall m: nat
      ensures TestBit(temp / 2, m) == TestBit(w, j + 1 + m)
    {
      assert TestBit(temp, m + 1) == TestBit(w, j + (m + 1));
    }
  }

  /** Counts the free directory entries. */
  method CountErased(sb: SuperBlock) returns (ffree: int)
    requires |sb.dir| == sb.g.maxdir
    ensures ffree == |set i: nat | i < |sb.dir| && sb.dir[i].status == ERASED|
  {
    ffree := 0;
    var k := 0;
    ghost var erased: set<nat> := {};
    while k < sb.g.maxdir
      invariant 0 <= k <= sb.g.maxdir
      invariant erased == set i: nat | i < k && sb.dir[i].status == ERASED
      invariant ffree == |erased|
    {
      if sb.dir[k].status == ERASED {
        ffree := ffree + 1;
        erased := erased + {k};
      }
      k := k + 1;
    }
  }

  /** cpmStatFS: free blocks and blocks of files; the directory blocks count as neither. */
  method CpmStatFS(sb: SuperBlock) returns (bfree: int, bused: int, ffree: int)
    requires sb.Valid()
    ensures bfree == |FreeBlocks(sb.g, sb.dir)|
    ensures bused == |Pointed(sb.g, sb.dir, sb.g.size)|
    ensures bused + bfree + sb.g.DirBlocks() == sb.g.size
    ensures ffree == |set i: nat | i < |sb.dir| && sb.dir[i].status == ERASED|
  {
    hide DiskShape.Valid, DiskShape.DirBlocks, DiskShape.ExtCap, DeviceOk, DirOk, BitmapAgrees, Clear, Bound, Pointed,
         FreeBlocks;
    var g := sb.g;
    ClearIsFree(g, sb.dir, sb.alv);
    var dirBlocks: int := g.DirBlocks();
    bfree, bused := 0, -dirBlocks;
    var i := 0;
    NoBlocks(g, sb.dir, sb.alv);
    BoundCases(0, g.size);
    while i < |sb.alv|
      invariant 0 <= i <= |sb.alv|
      invariant bfree == |Clear(sb.alv, Bound(INTBITS * i, g.size))|
      invariant bused + bfree + dirBlocks == Bound(INTBITS * i, g.size)
    {
      var free, used := CountWord(sb.alv, i, g.size);
      bfree, bused := bfree + free, bused + used;
      i := i + 1;
    }
    BoundCases(INTBITS * i, g.size);
    BoundCases(g.size, g.DirBlocks());
    BlocksAccounted(g, sb.dir, sb.alv, g.size);
    ffree := CountErased(sb);
  }
}
