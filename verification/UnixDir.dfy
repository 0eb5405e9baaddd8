/** The CP/M directory that yaze makes up for the files of a Unix directory. */
module UnixDir {
  import opened Geometry
  import opened Directory

  const BLOCK_SIZE := 4096
  const N_ENTRIES := 2032

  /** The first block behind the directory. */
  const DIR_BLOCKS := 16

  /** Usable directory slots: every fourth slot holds date stamps. */
  const USABLE := 1524

  /** A directory member as cpmsize reports it: the CP/M name and the size, 0 for files that cannot be used. */
  datatype HostFile = HostFile(name: seq<byte>, ext: seq<byte>, path: seq<byte>, size: nat)
  {
    /** Upper-case letters, digits and so on, padded with blanks: no attribute bits. */
    predicate NameOk() {
      && |name| == 8 && |ext| == 3
      && (forall i :: 0 <= i < 8 ==> 32 <= name[i] < 128)
      && (forall i :: 0 <= i < 3 ==> 32 <= ext[i] < 128)
    }

    function NBlocks(): nat
      requires size > 0
    {
      (size - 1) / BLOCK_SIZE + 1
    }

    function NDirents(): nat
      requires size > 0
    {
      (size - 1) / (8 * BLOCK_SIZE) + 1
    }

    function FileKey(): Key {
      Key(0, name, ext)
    }
  }

  /** Entry `i` of a file whose blocks start at `first`. */
  datatype Cell = Cell(file: HostFile, first: nat, i: nat)
  {
    predicate Ok() {
      && file.size > 0 && file.NameOk() && i < file.NDirents()
      && DIR_BLOCKS <= first && first + file.NBlocks() <= 2047
    }

    /** The block in slot `j`; zero behind the end of the file. */
    function Block(j: nat): nat
      requires file.size > 0
    {
      if 8 * i + j < file.NBlocks() then first + 8 * i + j else 0
    }

    function LastExtent(): bool
      requires file.size > 0
    {
      i == file.NDirents() - 1
    }

    /** All entries but the last describe 32K; the last one ends with the file, rounded up to a record. */
    function ExtentNumber(): nat
      requires file.size > 0
    {
      if LastExtent() then (file.size - 1) / 16384 else 2 * i + 1
    }

    function Records(): nat
      requires file.size > 0
    {
      if LastExtent() then (file.size - 1) % 16384 / 128 + 1 else 128
    }
  }

  function PointerBytes(c: Cell): (p: seq<byte>)
    requires c.Ok()
    ensures |p| == 16
  {
    seq<byte>(16, k requires 0 <= k < 16 => if k % 2 == 0 then c.Block(k / 2) % 256 else c.Block(k / 2) / 256)
  }

  function CellEntry(c: Cell): Entry
    requires c.Ok()
  {
    CellNumbers(c);
    RawEntry(0, c.file.name, c.file.ext, c.ExtentNumber() % 32, 0, c.ExtentNumber() / 32, c.Records(), PointerBytes(c))
  }

  lemma CellNumbers(c: Cell)
    requires c.Ok()
    ensures c.ExtentNumber() < 512 && c.ExtentNumber() / 2 == c.i && 0 < c.Records() <= 128
    ensures 8 * c.i < c.file.NBlocks()
    ensures c.LastExtent() <==> c.file.NBlocks() <= 8 * c.i + 8
  {
    var m := c.file.size - 1;
    assert m / 4096 < 2048;
    assert m / 32768 == m / 4096 / 8 && m / 16384 == m / 4096 / 4 && m / 32768 == m / 16384 / 2;
  }

  // ----- Slots -----

  /** The directory slot of the `p`-th usable one. */
  function SlotOf(p: nat): nat {
    p + p / 3
  }

  function IndexOf(s: nat): nat {
    s - s / 4
  }

  lemma SlotIndexInverse(p: nat, s: nat)
    ensures SlotOf(p) % 4 != 3 && IndexOf(SlotOf(p)) == p
    ensures s % 4 != 3 ==> SlotOf(IndexOf(s)) == s
    ensures p < USABLE <==> SlotOf(p) < N_ENTRIES
  {
    assert p == 3 * (p / 3) + p % 3;
    assert s == 4 * (s / 4) + s % 4;
  }

  /** Stepping over the date stamps. */
  lemma NextSlot(p: nat)
    ensures SlotOf(p + 1) == if (SlotOf(p) + 1) % 4 == 3 then SlotOf(p) + 2 else SlotOf(p) + 1
  {
    assert p == 3 * (p / 3) + p % 3;
  }

  // ----- The files in the table -----

  /** A file whose entries start at usable slot `p` and whose blocks start at `first`. */
  datatype Placed = Placed(file: HostFile, p: nat, first: nat)
  {
    predicate Ok() {
      file.size > 0 && file.NameOk() && DIR_BLOCKS <= first && first + file.NBlocks() <= 2047
    }

    function End(): nat
      requires file.size > 0
    {
      p + file.NDirents()
    }

    function NextBlock(): nat
      requires file.size > 0
    {
      first + file.NBlocks()
    }
  }

  /** The files follow each other without gaps, up to usable slot `p` and block `b`. */
  predicate Chain(ps: seq<Placed>, p: nat, b: nat) {
    if ps == [] then p == 1 && b == DIR_BLOCKS
    else
      var last := ps[|ps| - 1];
      last.Ok() && last.End() == p && last.NextBlock() == b && Chain(ps[..|ps| - 1], last.p, last.first)
  }

  /** Any earlier file ends before a later one starts. */
  lemma {:induction false} ChainOrdered(ps: seq<Placed>, p: nat, b: nat, k: nat, m: nat)
    requires Chain(ps, p, b) && k <= m < |ps|
    ensures ps[k].Ok() && ps[m].Ok() && 1 <= ps[k].p && ps[m].End() <= p && ps[m].NextBlock() <= b
    ensures k < m ==> ps[k].End() <= ps[m].p && ps[k].NextBlock() <= ps[m].first
    decreases |ps|
  {
    var n := |ps| - 1;
    var init := ps[..n];
    if n > 0 {
      ChainOrdered(init, ps[n].p, ps[n].first, if k < n then k else 0, if m < n then m else n - 1);
    }
    if k < n && m == n {
      ChainOrdered(init, ps[n].p, ps[n].first, k, k);
    }
  }

  /** The table entry at every usable slot belongs to one of the files. */
  lemma {:induction false} ChainCovers(ps: seq<Placed>, p: nat, b: nat, q: nat) returns (k: nat)
    requires Chain(ps, p, b) && 1 <= q < p
    ensures k < |ps| && ps[k].Ok() && ps[k].p <= q < ps[k].End()
    decreases |ps|
  {
    var n := |ps| - 1;
    if q >= ps[n].p {
      k := n;
    } else {
      k := ChainCovers(ps[..n], ps[n].p, ps[n].first, q);
    }
  }

  /** Files have different names. */
  predicate NamesDiffer(ps: seq<Placed>) {
    forall k, m :: 0 <= k < m < |ps| ==> ps[k].file.FileKey() != ps[m].file.FileKey()
  }

  function CellOf(pl: Placed, q: nat): Cell
    requires pl.p <= q
  {
    Cell(pl.file, pl.first, q - pl.p)
  }

  /** Usable slot `q` holds the entry of this file that belongs there. */
  ghost predicate EntryAt(dir: seq<Entry>, pl: Placed, q: nat)
    requires pl.p <= q
  {
    SlotOf(q) < |dir| && CellOf(pl, q).Ok() && dir[SlotOf(q)] == CellEntry(CellOf(pl, q))
  }

  /** The slots hold the entries of the files, and no other entry below `limit` is live. */
  ghost predicate TableHolds(dir: seq<Entry>, ps: seq<Placed>, p: nat, limit: nat) {
    && |dir| == N_ENTRIES && p <= USABLE && limit <= N_ENTRIES
    && (forall k, q: nat :: 0 <= k < |ps| && ps[k].Ok() && ps[k].p <= q < ps[k].End() && q < p ==>
                            EntryAt(dir, ps[k], q))
    && (forall s :: 0 <= s < limit && dir[s].status <= 15 ==> s % 4 != 3 && 1 <= IndexOf(s) < p)
  }
}
