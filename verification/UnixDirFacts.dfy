/** The made-up directory is a consistent CP/M directory that describes every file exactly. */
module UnixDirFacts {
  import opened Arithmetic
  import opened Geometry
  import opened Directory
  import opened CpmNames
  import opened UnixDir

  /** The disk parameters that mountdir announces. */
  function Shape(dsm: nat): DiskShape {
    DiskShape(128, dsm, 256, BLOCK_SIZE, N_ENTRIES, 0, dsm + 1, 2, false, false, seq<nat>(256, i => i))
  }

  lemma ShapeBasic(dsm: nat)
    requires 256 <= dsm < 65536
    ensures Shape(dsm).Basic() && Shape(dsm).Slots() == 8 && Shape(dsm).DirBlocks() == DIR_BLOCKS
  {
  }

  lemma CellMeans(g: DiskShape, c: Cell)
    requires g.size >= 256 && g.extents == 2 && !g.hiUser && c.Ok() && g.Basic()
    ensures var e := CellEntry(c);
            && Owns(g, c.file.FileKey(), e) && Extent(e) == c.ExtentNumber() && Phys(g, e) == c.i
            && e.blkcnt == c.Records() && e.lrc == 0
            && forall j: nat :: j < 8 ==> Ptr(g, e, j) == c.Block(j)
  {
    hide Ptr, PointerBytes, Cell.ExtentNumber, Cell.Records, DiskShape.Basic;
    CellNumbers(c);
    assert Strip(c.file.name) == c.file.name && Strip(c.file.ext) == c.file.ext;
    forall j: nat | j < 8
      ensures Ptr(g, CellEntry(c), j) == c.Block(j)
    {
      PointerRead(g, c, CellEntry(c), j);
    }
  }

  lemma PointerRead(g: DiskShape, c: Cell, e: Entry, j: nat)
    requires g.size >= 256 && c.Ok() && e.pointers == PointerBytes(c) && j < 8
    ensures Ptr(g, e, j) == c.Block(j)
  {
    assert PointerBytes(c)[2 * j] == c.Block(j) % 256 && PointerBytes(c)[2 * j + 1] == c.Block(j) / 256;
  }

  /** The made-up directory of these files. */
  ghost predicate Describes(dsm: nat, dir: seq<Entry>, ps: seq<Placed>, p: nat, b: nat) {
    && 256 <= dsm < 65536 && b <= dsm + 1
    && Chain(ps, p, b) && NamesDiffer(ps) && TableHolds(dir, ps, p, N_ENTRIES)
  }

  /** Slot `s` is entry `s'` of file `k`. */
  ghost predicate Holds(g: DiskShape, dir: seq<Entry>, ps: seq<Placed>, s: nat, k: nat, i: nat)
    requires g.Basic()
  {
    && s < |dir| && k < |ps| && ps[k].Ok() && i < ps[k].file.NDirents()
    && s == SlotOf(ps[k].p + i)
    && Owns(g, ps[k].file.FileKey(), dir[s]) && Phys(g, dir[s]) == i
    && Extent(dir[s]) == Cell(ps[k].file, ps[k].first, i).ExtentNumber()
    && dir[s].blkcnt == Cell(ps[k].file, ps[k].first, i).Records() && dir[s].lrc == 0
    && forall j: nat :: j < 8 ==> Ptr(g, dir[s], j) == Cell(ps[k].file, ps[k].first, i).Block(j)
  }

  lemma EntryHolds(dsm: nat, dir: seq<Entry>, ps: seq<Placed>, p: nat, b: nat, k: nat, i: nat)
    requires Describes(dsm, dir, ps, p, b) && k < |ps| && ps[k].Ok() && i < ps[k].file.NDirents()
    ensures Shape(dsm).Basic() && Holds(Shape(dsm), dir, ps, SlotOf(ps[k].p + i), k, i)
  {
    ShapeBasic(dsm);
    ChainOrdered(ps, p, b, k, k);
    CellStored(dir, ps, p, k, i);
    hide DiskShape.Basic, DiskShape.DirBlocks, CellEntry, Cell.Ok, KeyOf, Extent, Phys, Ptr, SlotOf, Chain,
         NamesDiffer, HostFile.NDirents, HostFile.NBlocks;
    CellMeans(Shape(dsm), Cell(ps[k].file, ps[k].first, i));
  }

  lemma CellStored(dir: seq<Entry>, ps: seq<Placed>, p: nat, k: nat, i: nat)
    requires TableHolds(dir, ps, p, N_ENTRIES) && k < |ps| && ps[k].Ok() && i < ps[k].file.NDirents() && ps[k].p + i < p
    ensures var c := Cell(ps[k].file, ps[k].first, i);
            c.Ok() && SlotOf(ps[k].p + i) < N_ENTRIES && dir[SlotOf(ps[k].p + i)] == CellEntry(c)
  {
    hide SlotOf;
    assert EntryAt(dir, ps[k], ps[k].p + i);
  }

  lemma LiveSlotIndex(dsm: nat, dir: seq<Entry>, ps: seq<Placed>, p: nat, s: nat)
    requires TableHolds(dir, ps, p, N_ENTRIES) && s < N_ENTRIES && Live(Shape(dsm), dir[s])
    ensures 1 <= IndexOf(s) < p && SlotOf(IndexOf(s)) == s
  {
    SlotIndexInverse(0, s);
  }

  lemma LiveSlotHolds(dsm: nat, dir: seq<Entry>, ps: seq<Placed>, p: nat, b: nat, s: nat) returns (k: nat, i: nat)
    requires Describes(dsm, dir, ps, p, b) && s < N_ENTRIES && Live(Shape(dsm), dir[s])
    ensures Shape(dsm).Basic() && Holds(Shape(dsm), dir, ps, s, k, i)
  {
    LiveSlotIndex(dsm, dir, ps, p, s);
    hide *;
    k := ChainCovers(ps, p, b, IndexOf(s));
    i := IndexOf(s) - ps[k].p;
    EntryHolds(dsm, dir, ps, p, b, k, i);
  }

  /** The allocation invariant of the file system engine holds for the made-up directory. */
  lemma DirectoryOk(dsm: nat, dir: seq<Entry>, ps: seq<Placed>, p: nat, b: nat)
    requires Describes(dsm, dir, ps, p, b)
    ensures Shape(dsm).Basic() && DirOk(Shape(dsm), dir)
  {
    ShapeBasic(dsm);
    var g := Shape(dsm);
    hide Shape, KeyOf, Ptr, Phys, Extent;
    forall s, j: nat | 0 <= s < |dir| && Live(g, dir[s]) && j < 8 && Ptr(g, dir[s], j) != 0
      ensures DIR_BLOCKS <= Ptr(g, dir[s], j) < g.size
    {
      var k, i := LiveSlotHolds(dsm, dir, ps, p, b, s);
      ChainOrdered(ps, p, b, k, k);
    }
    forall s, j: nat, t, l: nat | 0 <= s < |dir| && Live(g, dir[s]) && j < 8 && Ptr(g, dir[s], j) != 0
                                  && 0 <= t < |dir| && Live(g, dir[t]) && l < 8
                                      && Ptr(g, dir[t], l) == Ptr(g, dir[s], j)
      ensures s == t && j == l
    {
      SameBlockSameSlot(dsm, dir, ps, p, b, s, j, t, l);
    }
    forall s, t | 0 <= s < |dir| && Live(g, dir[s]) && 0 <= t < |dir| && Live(g, dir[t])
                  && KeyOf(dir[s]) == KeyOf(dir[t]) && Phys(g, dir[s]) == Phys(g, dir[t])
      ensures s == t
    {
      var k, i := LiveSlotHolds(dsm, dir, ps, p, b, s);
      var m, h := LiveSlotHolds(dsm, dir, ps, p, b, t);
    }
  }

  lemma DescribesChain(dsm: nat, dir: seq<Entry>, ps: seq<Placed>, p: nat, b: nat, k: nat, m: nat)
    requires Describes(dsm, dir, ps, p, b) && k < |ps| && m < |ps|
    ensures ps[k].Ok() && ps[m].Ok() && DIR_BLOCKS <= ps[k].first
    ensures k < m ==> ps[k].NextBlock() <= ps[m].first
    ensures m < k ==> ps[m].NextBlock() <= ps[k].first
  {
    ChainOrdered(ps, p, b, k, k);
    ChainOrdered(ps, p, b, m, m);
    if k < m {
      ChainOrdered(ps, p, b, k, m);
    } else if m < k {
      ChainOrdered(ps, p, b, m, k);
    }
  }

  lemma SameBlockSameSlot(dsm: nat, dir: seq<Entry>, ps: seq<Placed>, p: nat, b: nat, s: nat, j: nat, t: nat, l: nat)
    requires Describes(dsm, dir, ps, p, b) && Shape(dsm).Basic()
    requires s < N_ENTRIES && Live(Shape(dsm), dir[s]) && j < 8 && Ptr(Shape(dsm), dir[s], j) != 0
    requires t < N_ENTRIES && Live(Shape(dsm), dir[t]) && l < 8
             && Ptr(Shape(dsm), dir[t], l) == Ptr(Shape(dsm), dir[s], j)
    ensures s == t && j == l
  {
    hide KeyOf, Ptr, Phys, Extent, Shape, Describes, DiskShape.Basic, SlotOf, Cell.ExtentNumber, Cell.Records,
         Placed.Ok, HostFile.NDirents, HostFile.NBlocks;
    var k, i := LiveSlotHolds(dsm, dir, ps, p, b, s);
    var m, h := LiveSlotHolds(dsm, dir, ps, p, b, t);
    DescribesChain(dsm, dir, ps, p, b, k, m);
  }

  /** Each file is listed completely and in order: its extents, and block after block from its first one. */
  lemma FileListed(dsm: nat, dir: seq<Entry>, ps: seq<Placed>, p: nat, b: nat, k: nat)
    requires Describes(dsm, dir, ps, p, b) && k < |ps|
    ensures Shape(dsm).Basic() && ps[k].Ok()
    ensures FileShape(Shape(dsm), dir, ps[k].file.FileKey(), ps[k].file.NDirents(), ps[k].file.NBlocks())
    ensures forall q: nat :: q < ps[k].file.NBlocks() ==>
                             FileBlock(Shape(dsm), dir, ps[k].file.FileKey(), q) == ps[k].first + q
  {
    ShapeBasic(dsm);
    ChainOrdered(ps, p, b, k, k);
    var g, f, key := Shape(dsm), ps[k].file, ps[k].file.FileKey();
    hide Shape, KeyOf, Ptr, Phys, Extent;
    CellNumbers(Cell(f, ps[k].first, f.NDirents() - 1));
    DirectoryOk(dsm, dir, ps, p, b);
    forall s | 0 <= s < |dir| && Owns(g, key, dir[s])
      ensures Phys(g, dir[s]) < f.NDirents()
      ensures Holds(g, dir, ps, s, k, Phys(g, dir[s]))
    {
      var m, i := LiveSlotHolds(dsm, dir, ps, p, b, s);
      assert m == k;
    }
    forall x: nat | x < f.NDirents()
      ensures Find(g, dir, key, 0, x) == SlotOf(ps[k].p + x)
    {
      EntryHolds(dsm, dir, ps, p, b, k, x);
      FindUnique(g, dir, key, SlotOf(ps[k].p + x));
    }
    forall q: nat | q < f.NBlocks()
      ensures FileBlock(g, dir, key, q) == ps[k].first + q
    {
      EntryHolds(dsm, dir, ps, p, b, k, q / 8);
    }
  }

  /** The highest entry records the size of the file, rounded up to whole records. */
  lemma SizeListed(dsm: nat, dir: seq<Entry>, ps: seq<Placed>, p: nat, b: nat, k: nat, h: int)
    requires Describes(dsm, dir, ps, p, b) && k < |ps| && ps[k].Ok()
    requires IsHighest(Shape(dsm), dir, ps[k].file.FileKey(), h)
    ensures RecordedBytes(Shape(dsm), dir[h]) == Cover(ps[k].file.size, 128) * 128
  {
    var f, key := ps[k].file, ps[k].file.FileKey();
    var last := f.NDirents() - 1;
    var i := ListedHighest(dsm, dir, ps, p, b, k, h);
    CellNumbers(Cell(f, ps[k].first, i));
    CellNumbers(Cell(f, ps[k].first, last));
    RoundUp(f.size);
  }

  lemma ListedHighest(dsm: nat, dir: seq<Entry>, ps: seq<Placed>, p: nat, b: nat, k: nat, h: int) returns (i: nat)
    requires Describes(dsm, dir, ps, p, b) && k < |ps| && ps[k].Ok()
    requires IsHighest(Shape(dsm), dir, ps[k].file.FileKey(), h)
    ensures Shape(dsm).Basic() && i < ps[k].file.NDirents() && Holds(Shape(dsm), dir, ps, h, k, i)
    ensures Cell(ps[k].file, ps[k].first, ps[k].file.NDirents() - 1).ExtentNumber() <= Cell(ps[k].file, ps[k].first,
            i).ExtentNumber()
  {
    var m;
    m, i := LiveSlotHolds(dsm, dir, ps, p, b, h);
    assert m == k;
    EntryHolds(dsm, dir, ps, p, b, k, ps[k].file.NDirents() - 1);
  }

  lemma RoundUp(n: nat)
    requires n > 0
    ensures (n - 1) / 16384 * 16384 + ((n - 1) % 16384 / 128) * 128 + 128 == Cover(n, 128) * 128
  {
    DivSplit(n - 1, 128, 128);
  }
}
