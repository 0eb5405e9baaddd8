/** mountdir: fills the directory table and the file descriptors of a simulated disk. */
module MountDir {
  import opened Options
  import opened Arithmetic
  import opened Geometry
  import opened Directory
  import opened UnixDir
  import opened UnixDirFacts
  import opened HostNames

  datatype Fdesc = Fdesc(fullname: seq<byte>, firstblock: nat, lastblock: nat)

  /** A mounted Unix directory. */
  datatype UnixDisk = UnixDisk(data: seq<Entry>, nde: nat, fds: seq<Fdesc>, dsm: nat)

  function Fill(n: nat, b: byte): (s: seq<byte>)
    ensures |s| == n
  {
    seq<byte>(n, i => b)
  }

  /** Slots that hold no file: the label, date stamps, and entries set up but not used yet. */
  function SpecialEntry(status: byte): Entry {
    RawEntry(status, Fill(8, 0), Fill(3, 0), 0, 0, 0, 0, Fill(16, 0))
  }

  const DATESTAMPS: byte := 0x21

  function Unused(): Entry {
    RawEntry(0xE5, Fill(8, 0xE5), Fill(3, 0xE5), 0xE5, 0xE5, 0xE5, 0xE5, Fill(16, 0xE5))
  }

  /** What the directory sectors show: slots from nde on read as erased. */
  function View(d: UnixDisk): (v: seq<Entry>)
    ensures |v| == N_ENTRIES
  {
    seq<Entry>(N_ENTRIES, s requires 0 <= s < N_ENTRIES => Shown(d, s))
  }

  function Shown(d: UnixDisk, s: nat): Entry {
    if s < d.nde && s < |d.data| then d.data[s] else Unused()
  }

  /** The slots that have been set up when the next free one is `d`. */
  function Limit(d: nat): nat {
    if d >= N_ENTRIES then N_ENTRIES else d / 4 * 4 + 4
  }

  /**
   * Every fourth slot holds date stamps; the unused byte in the middle of the first two is zero, which is in no file
   * name. The slots between hold files of user 0 or are erased.
   */
  ghost predicate StampsInPlace(dir: seq<Entry>, limit: nat) {
    && |dir| == N_ENTRIES && limit <= N_ENTRIES
    && (forall s :: 0 <= s < limit && s % 4 == 3 ==> dir[s].status == 0x21 && dir[s].ext[0] == 0)
    && (forall s :: 0 < s < limit && s % 4 != 3 ==> dir[s].status == 0 || dir[s].status == 0xe5)
  }

  /** The disk label, with the name of the directory. */
  predicate IsLabel(e: Entry, volume: seq<byte>) {
    e.status == 0x20 && e.name + e.ext == volume && e.extnol == 0x21
  }

  /** Sets up a group of four slots. */
  method SetUpGroup(cpmdir: array<Entry>, d: nat)
    requires cpmdir.Length == N_ENTRIES && d + 4 <= N_ENTRIES
    modifies cpmdir
    ensures forall s :: 0 <= s < N_ENTRIES && !(d <= s < d + 4) ==> cpmdir[s] == old(cpmdir[s])
    ensures forall s :: d <= s < d + 4 ==>
                        cpmdir[s].status == (if s == d + 3 then 0x21 else 0xe5) && cpmdir[s].ext[0] == 0
  {
    cpmdir[d] := SpecialEntry(ERASED);
    cpmdir[d + 1] := SpecialEntry(ERASED);
    cpmdir[d + 2] := SpecialEntry(ERASED);
    cpmdir[d + 3] := SpecialEntry(DATESTAMPS);
  }

  /** Everything in the entry but its block pointers. */
  function Header(f: HostFile, e: Entry, i: nat, nblocks: nat): Entry
    requires f.size > 0 && f.NameOk() && i < f.NDirents() && f.size <= 0x80_0000
  {
    var nlogexts := (f.size - 1) / 16384;
    var ex := if nlogexts < 2 * i + 1 then nlogexts else 2 * i + 1;
    e.(status := 0, name := f.name, ext := f.ext, extnol := ex % 32, lrc := 0, extnoh := ex / 32,
       blkcnt := if f.size % 16384 == 0 then 128
                 else if nblocks <= 8 then (f.size - 16384 * nlogexts - 1) / 128 + 1 else 128)
  }

  function WithPointers(e: Entry, p: seq<byte>): Entry
    requires |p| == 16
  {
    e.(pointers := p)
  }

  lemma HeaderIs(c: Cell, e: Entry)
    requires c.Ok()
    ensures c.file.size <= 0x80_0000
    ensures WithPointers(Header(c.file, e, c.i, c.file.NBlocks() - 8 * c.i), PointerBytes(c)) == CellEntry(c)
  {
    CellNumbers(c);
    assert (c.file.size - 1) / 4096 < 2048;
    HeaderNumbers(c.file.size, c.i, c.file.NDirents(), c.file.NBlocks());
    hide PointerBytes;
  }

  lemma HeaderNumbers(size: nat, i: nat, ndirents: nat, nblocks: nat)
    requires 0 < size && i < ndirents == (size - 1) / 32768 + 1 && nblocks == (size - 1) / 4096 + 1
    ensures i == ndirents - 1 ==> nblocks - 8 * i <= 8 && (size - 1) / 16384 <= 2 * i + 1
    ensures i < ndirents - 1 ==> nblocks - 8 * i > 8 && 2 * i + 1 <= (size - 1) / 16384
    ensures (size - 16384 * ((size - 1) / 16384) - 1) / 128 + 1 == (size - 1) % 16384 / 128 + 1
    ensures size % 16384 == 0 ==> (size - 1) % 16384 / 128 + 1 == 128
  {
    var m := size - 1;
    assert m / 32768 == m / 16384 / 2 && m / 32768 == m / 4096 / 8;
  }

  /** The pointers of the first `j` slots have been written. */
  ghost predicate PointersUpTo(c: Cell, e: Entry, pointers: seq<byte>, j: nat)
    requires c.Ok()
  {
    && |pointers| == 16 && WithPointers(e, PointerBytes(c)) == CellEntry(c) && e.pointers == pointers
    && forall k :: 0 <= k < 2 * j && k < 16 ==> pointers[k] == PointerBytes(c)[k]
  }

  lemma NextPointer(c: Cell, e: Entry, e': Entry, j: nat, b: nat)
    requires c.Ok() && PointersUpTo(c, e, e.pointers, j) && j < 8 && b == c.Block(j)
    requires e' == e.(pointers := e.pointers[2 * j := b % 256][2 * j + 1 := b / 256 % 256])
    ensures PointersUpTo(c, e', e'.pointers, j + 1)
  {
    hide CellEntry;
    assert PointerBytes(c)[2 * j] == b % 256 && PointerBytes(c)[2 * j + 1] == b / 256;
  }

  /** Writes entry `i` of a file into slot `d`, handing out the next blocks. */
  method FillEntry(cpmdir: array<Entry>, d: nat, f: HostFile, ghost first: nat, i: nat, nblocks: nat, blockno: nat)
    returns (nblocks': nat, blockno': nat)
    requires cpmdir.Length == N_ENTRIES && d < N_ENTRIES && Cell(f, first, i).Ok()
    requires nblocks == f.NBlocks() - 8 * i && blockno == first + 8 * i
    modifies cpmdir
    ensures cpmdir[d] == CellEntry(Cell(f, first, i))
    ensures forall s :: 0 <= s < N_ENTRIES && s != d ==> cpmdir[s] == old(cpmdir[s])
    ensures nblocks' == (if nblocks < 8 then 0 else nblocks - 8) && blockno' == blockno + nblocks - nblocks'
  {
    ghost var c := Cell(f, first, i);
    HeaderIs(c, cpmdir[d]);
    nblocks', blockno' := nblocks, blockno;
    cpmdir[d] := Header(f, cpmdir[d], i, nblocks);
    hide Header, CellEntry;
    var j := 0;
    while j < 8
      invariant j <= 8
      invariant PointersUpTo(c, cpmdir[d], cpmdir[d].pointers, j)
      invariant nblocks' == (if nblocks < j then 0 else nblocks - j) && blockno' == blockno + nblocks - nblocks'
      invariant forall s :: 0 <= s < N_ENTRIES && s != d ==> cpmdir[s] == old(cpmdir[s])
    {
      ghost var e := cpmdir[d];
      if nblocks' > 0 {
        cpmdir[d] := cpmdir[d].(pointers := cpmdir[d].pointers[2 * j := blockno' % 256][2 * j
            + 1 := blockno' / 256 % 256]);
        NextPointer(c, e, cpmdir[d], j, blockno');
        blockno' := blockno' + 1;
        nblocks' := nblocks' - 1;
      } else {
        cpmdir[d] := cpmdir[d].(pointers := cpmdir[d].pointers[2 * j := 0][2 * j + 1 := 0]);
        NextPointer(c, e, cpmdir[d], j, 0);
      }
      j := j + 1;
    }
    assert cpmdir[d].pointers == PointerBytes(c);
  }

  // ----- One file -----

  /** What the next entry does to the table. */
  lemma EntryAdded(dir: seq<Entry>, dir': seq<Entry>, ps: seq<Placed>, k: nat, p: nat, b: nat, end: nat)
    requires Chain(ps, end, b) && k == |ps| - 1 && ps[k].p <= p < ps[k].End() && p < USABLE
    requires TableHolds(dir, ps, p, Limit(SlotOf(p))) && |dir'| == |dir| && EntryAt(dir', ps[k], p)
    requires forall s :: 0 <= s < Limit(SlotOf(p)) && s != SlotOf(p) ==>
                         dir'[s] == dir[s] || (s % 4 == 3 && dir'[s].status > 15)
    requires forall s :: Limit(SlotOf(p)) <= s < Limit(SlotOf(p + 1)) ==> dir'[s].status > 15
    ensures TableHolds(dir', ps, p + 1, Limit(SlotOf(p + 1)))
  {
    hide CellEntry, SlotOf, Limit, IndexOf, Chain, EntryAt, HostFile.NDirents, HostFile.NBlocks, HostFile.NameOk;
    LimitSteps(p);
    ChainOrdered(ps, end, b, k, k);
    SlotIndexInverse(p, 0);
    forall m, q: nat | 0 <= m < |ps| && ps[m].Ok() && ps[m].p <= q < ps[m].End() && q < p + 1
      ensures EntryAt(dir', ps[m], q)
    {
      EntryStays(dir, dir', ps, k, p, b, end, m, q);
    }
    forall s | 0 <= s < Limit(SlotOf(p + 1)) && dir'[s].status <= 15
      ensures s % 4 != 3 && 1 <= IndexOf(s) < p + 1
    {
      if s != SlotOf(p) && s < Limit(SlotOf(p)) {
        assert dir'[s] == dir[s];
      }
    }
  }

  lemma EntryStays(dir: seq<Entry>, dir': seq<Entry>, ps: seq<Placed>, k: nat, p: nat, b: nat, end: nat, m: nat, q: nat)
    requires Chain(ps, end, b) && k == |ps| - 1 && ps[k].p <= p < ps[k].End() && p < USABLE
    requires TableHolds(dir, ps, p, Limit(SlotOf(p))) && |dir'| == |dir| && EntryAt(dir', ps[k], p)
    requires forall s :: 0 <= s < Limit(SlotOf(p)) && s != SlotOf(p) ==>
                         dir'[s] == dir[s] || (s % 4 == 3 && dir'[s].status > 15)
    requires m < |ps| && ps[m].Ok() && ps[m].p <= q < ps[m].End() && q < p + 1
    ensures EntryAt(dir', ps[m], q)
  {
    hide CellEntry, SlotOf, Limit, IndexOf, Chain, Cell.Ok;
    if m < k {
      ChainOrdered(ps, end, b, m, k);
    }
    if q < p {
      assert EntryAt(dir, ps[m], q);
      SlotMono(q, p);
      SlotIndexInverse(q, 0);
      LimitSteps(p);
    }
  }

  lemma SlotMono(q: nat, p: nat)
    requires q < p
    ensures SlotOf(q) < SlotOf(p)
  {
    DivMono(q, p, 3);
  }

  lemma LimitSteps(p: nat)
    requires p < USABLE
    ensures SlotOf(p) < Limit(SlotOf(p)) <= Limit(SlotOf(p + 1)) <= N_ENTRIES
  {
    hide SlotOf, Limit;
    SlotIndexInverse(p, 0);
    NextSlot(p);
    LimitMono(SlotOf(p));
  }

  lemma LimitMono(d: nat)
    requires d < N_ENTRIES
    ensures d < Limit(d) <= Limit(d + 1) <= Limit(d + 2) <= N_ENTRIES
  {
  }

  /** Writes all entries of a file, from slot `direno` on; stops where the table would overflow. */
  method AddFile(cpmdir: array<Entry>, f: HostFile, ghost ps: seq<Placed>, ghost p: nat, direno: nat, blockno: nat)
    returns (direno': nat, blockno': nat, overrun: bool)
    requires cpmdir.Length == N_ENTRIES && Chain(ps, p, blockno) && Placed(f, p, blockno).Ok() && direno == SlotOf(p)
    requires TableHolds(cpmdir[..], ps, p, Limit(direno)) && StampsInPlace(cpmdir[..], Limit(direno))
    modifies cpmdir
    ensures cpmdir[0] == old(cpmdir[0])
    ensures overrun <==> p + f.NDirents() > USABLE
    ensures !overrun ==> direno' == SlotOf(p + f.NDirents()) && blockno' == blockno + f.NBlocks()
    ensures !overrun ==> TableHolds(cpmdir[..], ps + [Placed(f, p, blockno)], p + f.NDirents(), Limit(direno'))
    ensures !overrun ==> StampsInPlace(cpmdir[..], Limit(direno'))
  {
    hide Chain, TableHolds, SlotOf, CellEntry, HostFile.NameOk, Limit, StampsInPlace;
    ghost var ps' := ps + [Placed(f, p, blockno)];
    var nblocks := (f.size - 1) / BLOCK_SIZE + 1;
    var ndirents := (f.size - 1) / (8 * BLOCK_SIZE) + 1;
    FileAppears(cpmdir[..], ps, p, blockno, f);
    direno', blockno', overrun := direno, blockno, false;
    var i := 0;
    while i < ndirents
      invariant i <= ndirents && p + i <= USABLE && direno' == SlotOf(p + i)
      invariant TableHolds(cpmdir[..], ps', p + i, Limit(direno')) && StampsInPlace(cpmdir[..], Limit(direno'))
      invariant cpmdir[0] == old(cpmdir[0])
      invariant nblocks == (if i < ndirents then f.NBlocks() - 8 * i else 0)
                && blockno' + nblocks == blockno + f.NBlocks()
    {
      CellNumbers(Cell(f, blockno, i));
      SlotIndexInverse(p + i, 0);
      FirstSlotFree(ps', p + i, p + f.NDirents(), blockno + f.NBlocks());
      if direno' >= N_ENTRIES {
        return direno', blockno', true;
      }
      direno', nblocks, blockno' := AddEntry(cpmdir, f, ps', p, blockno, i, direno', nblocks, blockno');
      i := i + 1;
    }
  }

  lemma FirstSlotFree(ps: seq<Placed>, q: nat, p: nat, b: nat)
    requires Chain(ps, p, b) && |ps| > 0 && q >= ps[|ps| - 1].p
    ensures SlotOf(q) > 0
  {
    ChainOrdered(ps, p, b, |ps| - 1, |ps| - 1);
  }

  lemma FileAppears(dir: seq<Entry>, ps: seq<Placed>, p: nat, b: nat, f: HostFile)
    requires Chain(ps, p, b) && Placed(f, p, b).Ok() && TableHolds(dir, ps, p, Limit(SlotOf(p)))
    ensures var ps' := ps + [Placed(f, p, b)];
            Chain(ps', p + f.NDirents(), b + f.NBlocks()) && TableHolds(dir, ps', p, Limit(SlotOf(p)))
    ensures p <= USABLE
  {
    var ps' := ps + [Placed(f, p, b)];
    assert ps'[..|ps' | - 1] == ps;
    hide EntryAt, SlotOf, HostFile.NameOk;
  }

  /** Steps to the next slot; if that holds date stamps, over it and into a new group. */
  method StepOver(cpmdir: array<Entry>, d: nat) returns (d': nat)
    requires cpmdir.Length == N_ENTRIES && d < N_ENTRIES && d % 4 != 3
    modifies cpmdir
    ensures d' == if d % 4 == 2 then d + 2 else d + 1
    ensures forall s :: 0 <= s < d' && s < N_ENTRIES ==>
              cpmdir[s] == old(cpmdir[s]) || (s == d' - 1 && s % 4 == 3 && cpmdir[s] == old(cpmdir[s]).(status := 0x21))
    ensures forall s :: d' <= s < N_ENTRIES && s / 4 == d / 4 ==> cpmdir[s] == old(cpmdir[s])
    ensures forall s :: d' <= s < d' + 4 && d' % 4 == 0 && s < N_ENTRIES ==>
              cpmdir[s].status == (if s == d' + 3 then 0x21 else 0xe5) && cpmdir[s].ext[0] == 0
  {
    d' := d + 1;
    if d' % 4 == 3 {
      cpmdir[d'] := cpmdir[d'].(status := DATESTAMPS);
      d' := d' + 1;
      if d' < N_ENTRIES {
        SetUpGroup(cpmdir, d');
      }
    }
  }

  /** Writes one entry and steps over the date stamps behind it. */
  method AddEntry(cpmdir: array<Entry>, f: HostFile, ghost ps: seq<Placed>, ghost p: nat, ghost first: nat,
                  i: nat, direno: nat, nblocks: nat, blockno: nat)
    returns (direno': nat, nblocks': nat, blockno': nat)
    requires cpmdir.Length == N_ENTRIES && Cell(f, first, i).Ok() && |ps| > 0 && ps[|ps| - 1] == Placed(f, p, first)
    requires Chain(ps, p + f.NDirents(), first + f.NBlocks())
    requires p + i < USABLE && direno == SlotOf(p + i) < N_ENTRIES
    requires TableHolds(cpmdir[..], ps, p + i, Limit(direno)) && StampsInPlace(cpmdir[..], Limit(direno))
    requires nblocks == f.NBlocks() - 8 * i && blockno == first + 8 * i
    modifies cpmdir
    ensures direno' == SlotOf(p + i + 1)
    ensures TableHolds(cpmdir[..], ps, p + i + 1, Limit(direno')) && StampsInPlace(cpmdir[..], Limit(direno'))
    ensures direno > 0 ==> cpmdir[0] == old(cpmdir[0])
    ensures nblocks' == (if nblocks < 8 then 0 else nblocks - 8) && blockno' == blockno + nblocks - nblocks'
  {
    hide Chain, TableHolds, SlotOf, CellEntry, HostFile.NameOk, IndexOf, HostFile.NDirents, StampsInPlace;
    ghost var dir := cpmdir[..];
    UserZero(Cell(f, first, i));
    nblocks', blockno' := FillEntry(cpmdir, direno, f, first, i, nblocks, blockno);
    SlotIndexInverse(p + i, 0);
    NextSlot(p + i);
    direno' := StepOver(cpmdir, direno);
    EntryAdded(dir, cpmdir[..], ps, |ps| - 1, p + i, first + f.NBlocks(), p + f.NDirents());
    StampsStay(dir, cpmdir[..], direno, direno');
  }

  lemma UserZero(c: Cell)
    requires c.Ok()
    ensures CellEntry(c).status == 0
  {
  }

  lemma StampsStay(dir: seq<Entry>, dir': seq<Entry>, d: nat, d': nat)
    requires StampsInPlace(dir, Limit(d)) && |dir'| == N_ENTRIES && d < N_ENTRIES && d % 4 != 3
    requires d' == if d % 4 == 2 then d + 2 else d + 1
    requires dir'[d].status == 0
    requires forall s :: 0 <= s < N_ENTRIES && s / 4 == d / 4 && s != d ==>
                         dir'[s] == dir[s] || (s == d' - 1 && dir'[s] == dir[s].(status := 0x21))
    requires forall s :: 0 <= s < N_ENTRIES && s / 4 < d / 4 ==> dir'[s] == dir[s]
    requires forall s :: d' <= s < d' + 4 && d' % 4 == 0 && s < N_ENTRIES ==>
                         dir'[s].status == (if s == d' + 3 then 0x21 else 0xe5) && dir'[s].ext[0] == 0
    ensures StampsInPlace(dir', Limit(d'))
  {
    forall s | 0 <= s < Limit(d') && s % 4 == 3
      ensures dir'[s].status == 0x21 && dir'[s].ext[0] == 0
    {
      assert s < Limit(d) || s == d' + 3;
    }
    forall s | 0 < s < Limit(d') && s % 4 != 3
      ensures dir'[s].status == 0 || dir'[s].status == 0xe5
    {
    }
  }

  // ----- The whole directory -----

  /** The files placed so far, the next usable slot, the next block; and did the table overflow? */
  datatype Layout = Layout(ps: seq<Placed>, p: nat, b: nat, overrun: bool)

  /** The name is that of the disk label or of a file already placed. */
  predicate Taken(volume: seq<byte>, ps: seq<Placed>, f: HostFile) {
    f.name + f.ext == volume || exists k :: 0 <= k < |ps| && ps[k].file.FileKey() == f.FileKey()
  }

  /** The test mountdir makes before it lists a file. */
  predicate Fits(f: HostFile, p: nat, b: nat)
    requires f.size > 0
  {
    SlotOf(p) + f.NDirents() <= N_ENTRIES - 1 && (b + f.NBlocks()) * BLOCK_SIZE <= 0xffff * 128
  }

  /** Listing the file would write behind the table. */
  predicate TooMany(f: HostFile, p: nat)
    requires f.size > 0
  {
    p + f.NDirents() > USABLE
  }

  /**
   * Which members are listed: unusable and duplicate names are skipped, the first file that does not fit ends the
   * scan. The table overflows if a file passes the test without fitting, or if a name is put behind a full table.
   */
  function Scan(volume: seq<byte>, files: seq<Member>, l: Layout): Layout
    decreases |files|
  {
    if files == [] || l.overrun then l
    else
      var f := files[0].File();
      if l.p >= USABLE && files[0].Writes() then l.(overrun := true)
      else if f.size == 0 || Taken(volume, l.ps, f) then Scan(volume, files[1..], l)
      else if !Fits(f, l.p, l.b) then l
      else if TooMany(f, l.p) then l.(overrun := true)
      else Scan(volume, files[1..], Placing(l, f))
  }

  const NOTHING := Layout([], 1, DIR_BLOCKS, false)

  ghost predicate SlotNamed(dir: seq<Entry>, d: nat, name: seq<byte>) {
    exists i :: 0 <= i < d && i < |dir| && dir[i].name + dir[i].ext == name
  }

  /** Does an earlier slot carry the name? */
  method IsDuplicate(cpmdir: array<Entry>, direno: nat, f: HostFile) returns (dup: bool)
    requires cpmdir.Length == N_ENTRIES && direno <= N_ENTRIES
    ensures dup <==> SlotNamed(cpmdir[..], direno, f.name + f.ext)
  {
    for i := 0 to direno
      invariant forall k :: 0 <= k < i ==> cpmdir[k].name + cpmdir[k].ext != f.name + f.ext
    {
      if cpmdir[i].name + cpmdir[i].ext == f.name + f.ext {
        return true;
      }
    }
    return false;
  }

  /** Comparing with all earlier slots is comparing with the label and the listed files. */
  lemma DuplicateMeansTaken(dir: seq<Entry>, volume: seq<byte>, l: Layout, f: HostFile)
    requires TableOk(dir, volume, l) && f.NameOk()
    ensures SlotNamed(dir, SlotOf(l.p), f.name + f.ext) <==> Taken(volume, l.ps, f)
  {
    hide SlotOf, IndexOf, Limit, Chain, NamesDiffer, CellEntry;
    if Taken(volume, l.ps, f) {
      TakenIsNamed(dir, volume, l, f);
    }
    if SlotNamed(dir, SlotOf(l.p), f.name + f.ext) {
      NamedIsTaken(dir, volume, l, f);
    }
  }

  lemma TakenIsNamed(dir: seq<Entry>, volume: seq<byte>, l: Layout, f: HostFile)
    requires TableOk(dir, volume, l) && Taken(volume, l.ps, f)
    ensures SlotNamed(dir, SlotOf(l.p), f.name + f.ext)
  {
    hide Limit, Chain, NamesDiffer, HostFile.NBlocks, StampsInPlace;
    FirstCell(l);
    if f.name + f.ext == volume {
      SlotMono(0, l.p);
      assert SlotOf(0) == 0;
    } else {
      var k :| 0 <= k < |l.ps| && l.ps[k].file.FileKey() == f.FileKey();
      ChainOrdered(l.ps, l.p, l.b, k, k);
      assert EntryAt(dir, l.ps[k], l.ps[k].p);
      SlotMono(l.ps[k].p, l.p);
    }
  }

  lemma NamedIsTaken(dir: seq<Entry>, volume: seq<byte>, l: Layout, f: HostFile)
    requires TableOk(dir, volume, l) && f.NameOk() && SlotNamed(dir, SlotOf(l.p), f.name + f.ext)
    ensures Taken(volume, l.ps, f)
  {
    hide *;
    TableOkMeans(dir, volume, l);
    var i := NamedSlot(dir, l, f);
    if i == 0 {
      IsVolume(volume, l.ps, f, dir[0]);
    } else {
      SlotIndexInverse(0, i);
      SlotBefore(i, l.p);
      var k := ChainCovers(l.ps, l.p, l.b, IndexOf(i));
      CellThere(dir, l, k, IndexOf(i));
      IsListed(volume, l.ps, f, k);
    }
  }

  lemma IsVolume(volume: seq<byte>, ps: seq<Placed>, f: HostFile, e: Entry)
    requires e.name == f.name && e.ext == f.ext && e.name + e.ext == volume
    ensures Taken(volume, ps, f)
  {
  }

  lemma IsListed(volume: seq<byte>, ps: seq<Placed>, f: HostFile, k: nat)
    requires k < |ps| && ps[k].file.name == f.name && ps[k].file.ext == f.ext
    ensures Taken(volume, ps, f)
  {
  }

  /** A slot with the name of a file holds no date stamps. */
  lemma NamedSlot(dir: seq<Entry>, l: Layout, f: HostFile) returns (i: nat)
    requires StampsInPlace(dir, Limit(SlotOf(l.p))) && f.NameOk() && SlotNamed(dir, SlotOf(l.p), f.name + f.ext)
    ensures i < SlotOf(l.p) && i < |dir| && dir[i].name == f.name && dir[i].ext == f.ext && i % 4 != 3
    ensures i > 0 ==> IndexOf(i) >= 1
  {
    SlotLimit(l.p);
    hide SlotOf, Limit;
    i :| 0 <= i < SlotOf(l.p) && i < |dir| && dir[i].name + dir[i].ext == f.name + f.ext;
    assert dir[i].name == (f.name + f.ext)[..8] && dir[i].ext == (f.name + f.ext)[8..];
  }

  lemma CellThere(dir: seq<Entry>, l: Layout, k: nat, q: nat)
    requires k < |l.ps| && l.ps[k].Ok() && l.ps[k].p <= q < l.ps[k].End() && q < l.p
             && TableHolds(dir, l.ps, l.p, Limit(SlotOf(l.p)))
    ensures SlotOf(q) < |dir| && dir[SlotOf(q)].name == l.ps[k].file.name && dir[SlotOf(q)].ext == l.ps[k].file.ext
  {
    hide SlotOf;
    assert EntryAt(dir, l.ps[k], q);
  }

  lemma SlotLimit(p: nat)
    ensures SlotOf(p) < N_ENTRIES ==> SlotOf(p) < Limit(SlotOf(p)) <= N_ENTRIES
    ensures SlotOf(p) >= N_ENTRIES ==> Limit(SlotOf(p)) == N_ENTRIES
    ensures SlotOf(p) % 4 != 3 && (p > 0 ==> SlotOf(p) > 0)
  {
    hide SlotOf, IndexOf, Limit;
    SlotIndexInverse(p, 0);
    SlotStart();
    if p > 0 {
      SlotMono(0, p);
    }
    LimitAbove(SlotOf(p));
  }

  lemma SlotStart()
    ensures SlotOf(0) == 0 && SlotOf(1) == 1
  {
  }

  lemma LimitAbove(d: nat)
    ensures d < N_ENTRIES ==> d < Limit(d) <= N_ENTRIES
    ensures d >= N_ENTRIES ==> Limit(d) == N_ENTRIES
  {
  }

  lemma SlotBefore(s: nat, p: nat)
    requires s < SlotOf(p) && s % 4 != 3
    ensures IndexOf(s) < p
  {
    SlotIndexInverse(p, s);
    if IndexOf(s) > p {
      SlotMono(p, IndexOf(s));
    }
  }

  lemma FirstCell(l: Layout)
    requires Chain(l.ps, l.p, l.b)
    ensures l.p > 0
  {
    if l.ps != [] {
      ChainOrdered(l.ps, l.p, l.b, |l.ps| - 1, |l.ps| - 1);
    }
  }

  /** The table is in order: the label, the files placed so far, and nothing else. */
  ghost predicate TableOk(dir: seq<Entry>, volume: seq<byte>, l: Layout) {
    && Chain(l.ps, l.p, l.b) && NamesDiffer(l.ps)
    && TableHolds(dir, l.ps, l.p, Limit(SlotOf(l.p))) && StampsInPlace(dir, Limit(SlotOf(l.p)))
    && IsLabel(dir[0], volume)
  }

  lemma TableOkMeans(dir: seq<Entry>, volume: seq<byte>, l: Layout)
    requires TableOk(dir, volume, l)
    ensures Chain(l.ps, l.p, l.b) && NamesDiffer(l.ps)
    ensures TableHolds(dir, l.ps, l.p, Limit(SlotOf(l.p))) && StampsInPlace(dir, Limit(SlotOf(l.p)))
    ensures |dir| == N_ENTRIES && IsLabel(dir[0], volume)
  {
  }

  lemma TableOkIs(dir: seq<Entry>, volume: seq<byte>, l: Layout)
    requires Chain(l.ps, l.p, l.b) && NamesDiffer(l.ps)
    requires TableHolds(dir, l.ps, l.p, Limit(SlotOf(l.p))) && StampsInPlace(dir, Limit(SlotOf(l.p)))
    requires |dir| == N_ENTRIES && IsLabel(dir[0], volume)
    ensures TableOk(dir, volume, l)
  {
  }

  lemma NewTableOk(dir: seq<Entry>, volume: seq<byte>)
    requires |dir| == N_ENTRIES && IsLabel(dir[0], volume)
    requires dir[1].status == dir[2].status == 0xe5 && dir[3].status == 0x21 && dir[3].ext[0] == 0
    ensures TableOk(dir, volume, NOTHING)
  {
  }

  /** cpmsize leaves what it has written in the slot even if the file is not listed then. */
  lemma NameWritten(dir: seq<Entry>, volume: seq<byte>, l: Layout, name: seq<byte>, ext: seq<byte>)
    requires TableOk(dir, volume, l) && SlotOf(l.p) < N_ENTRIES && |name| == 8 && |ext| == 3
    ensures TableOk(dir[SlotOf(l.p) := dir[SlotOf(l.p)].(name := name, ext := ext)], volume, l)
  {
    hide CellEntry, Chain, NamesDiffer, HostFile.NBlocks;
    var dir' := dir[SlotOf(l.p) := dir[SlotOf(l.p)].(name := name, ext := ext)];
    FirstCell(l);
    SlotLimit(l.p);
    hide SlotOf, Limit;
    forall k, q: nat | 0 <= k < |l.ps| && l.ps[k].Ok() && l.ps[k].p <= q < l.ps[k].End() && q < l.p
      ensures EntryAt(dir', l.ps[k], q)
    {
      assert EntryAt(dir, l.ps[k], q);
      SlotMono(q, l.p);
    }
  }

  lemma ScanStep(volume: seq<byte>, files: seq<Member>, n: nat, l: Layout)
    requires n < |files| && !l.overrun
    ensures Scan(volume, files[n..], l) ==
            var f := files[n].File();
            if l.p >= USABLE && files[n].Writes() then l.(overrun := true)
            else if f.size == 0 || Taken(volume, l.ps, f) then Scan(volume, files[n + 1..], l)
            else if !Fits(f, l.p, l.b) then l
            else if TooMany(f, l.p) then l.(overrun := true)
            else Scan(volume, files[n + 1..], Placing(l, f))
  {
    hide Member.File, Member.Writes, Taken, Fits, TooMany;
    assert files[n..][1..] == files[n + 1..];
  }

  function Placing(l: Layout, f: HostFile): Layout
    requires f.size > 0
  {
    Layout(l.ps + [Placed(f, l.p, l.b)], l.p + f.NDirents(), l.b + f.NBlocks(), false)
  }

  lemma PlacingKeeps(l: Layout, f: HostFile, volume: seq<byte>)
    requires Chain(l.ps, l.p, l.b) && NamesDiffer(l.ps) && f.size > 0 && f.NameOk() && Fits(f, l.p, l.b)
             && !Taken(volume, l.ps, f)
    ensures Placed(f, l.p, l.b).Ok()
    ensures Chain(Placing(l, f).ps, Placing(l, f).p, Placing(l, f).b) && NamesDiffer(Placing(l, f).ps)
  {
    hide SlotOf, HostFile.NameOk;
    var l' := Placing(l, f);
    assert l'.ps[..|l'.ps| - 1] == l.ps;
    if l.ps != [] {
      ChainOrdered(l.ps, l.p, l.b, |l.ps| - 1, |l.ps| - 1);
    }
  }

  ghost predicate FdsMatch(fds: seq<Fdesc>, ps: seq<Placed>) {
    |fds| == |ps| && forall k :: 0 <= k < |ps| ==> DescribesFile(fds[k], ps[k])
  }

  lemma FdsGrow(fds: seq<Fdesc>, ps: seq<Placed>, f: HostFile, p: nat, b: nat)
    requires FdsMatch(fds, ps) && Placed(f, p, b).Ok()
    ensures FdsMatch(fds + [Fdesc(f.path, b, b + f.NBlocks() - 1)], ps + [Placed(f, p, b)])
  {
  }

  /** What the scan has achieved after `n` members of the directory. */
  ghost predicate Scanned(dir: seq<Entry>, fds: seq<Fdesc>, volume: seq<byte>, files: seq<Member>, n: nat, l: Layout)
    requires n <= |files|
  {
    && TableOk(dir, volume, l) && FdsMatch(fds, l.ps) && !l.overrun
    && Scan(volume, files, NOTHING) == Scan(volume, files[n..], l)
  }

  /** The member has been listed, skipped, or has ended the scan. */
  datatype Outcome = Listed | Skipped | Full | Overrun

  /** One member of the directory: its name goes into the next slot, and its entries follow if it is to be listed. */
  method ScanMember(cpmdir: array<Entry>, fds: seq<Fdesc>, volume: seq<byte>, files: seq<Member>, n: nat,
                    direno: nat, blockno: nat, ghost l: Layout)
    returns (outcome: Outcome, fds': seq<Fdesc>, direno': nat, blockno': nat, ghost l': Layout)
    requires cpmdir.Length == N_ENTRIES && n < |files|
    requires Scanned(cpmdir[..], fds, volume, files, n, l) && direno == SlotOf(l.p) && blockno == l.b
    modifies cpmdir
    ensures outcome.Overrun? ==> Scan(volume, files, NOTHING) == l' && l'.overrun
    ensures !outcome.Overrun? ==> direno' == SlotOf(l'.p) && blockno' == l'.b
    ensures outcome.Listed? || outcome.Skipped? ==> Scanned(cpmdir[..], fds', volume, files, n + 1, l')
    ensures outcome.Full? ==> Scan(volume, files, NOTHING) == l' && !l'.overrun
    ensures outcome.Full? ==> TableOk(cpmdir[..], volume, l') && FdsMatch(fds', l'.ps)
  {
    hide TableOk, Scan, Fits, TooMany, Taken, SlotOf, Member.File, Member.Writes, DescribesFile, Placing;
    fds', direno', blockno', l' := fds, direno, blockno, l;
    ScanStep(volume, files, n, l);
    FullTable(l.p);
    if direno >= N_ENTRIES {
      // The next slot lies behind the table.
      if files[n].Writes() {
        return Overrun, fds', direno', blockno', l.(overrun := true);
      }
      return Skipped, fds', direno', blockno', l';
    }
    var size, name := CpmSize(files[n], cpmdir[direno].name + cpmdir[direno].ext);
    NameWritten(cpmdir[..], volume, l, name[..8], name[8..]);
    cpmdir[direno] := cpmdir[direno].(name := name[..8], ext := name[8..]);
    if size == 0 {
      return Skipped, fds', direno', blockno', l';
    }
    ListedNameOk(files[n]);
    outcome, fds', direno', blockno',
        l' := ScanFile(cpmdir, fds, volume, files, n, files[n].File(), direno, blockno, l);
  }

  lemma FullTable(p: nat)
    ensures SlotOf(p) >= N_ENTRIES <==> p >= USABLE
  {
    SlotIndexInverse(p, 0);
  }

  /** A member that can be listed: compares its name, makes sure there is room, and writes its entries. */
  method ScanFile(cpmdir: array<Entry>, fds: seq<Fdesc>, volume: seq<byte>, ghost files: seq<Member>, ghost n: nat,
                  f: HostFile,
                  direno: nat, blockno: nat, ghost l: Layout)
    returns (outcome: Outcome, fds': seq<Fdesc>, direno': nat, blockno': nat, ghost l': Layout)
    requires cpmdir.Length == N_ENTRIES && n < |files| && f == files[n].File() && f.size > 0 && f.NameOk()
             && l.p < USABLE
    requires Scanned(cpmdir[..], fds, volume, files, n, l) && direno == SlotOf(l.p) && blockno == l.b
    modifies cpmdir
    ensures outcome.Overrun? ==> Scan(volume, files, NOTHING) == l' && l'.overrun
    ensures !outcome.Overrun? ==> direno' == SlotOf(l'.p) && blockno' == l'.b
    ensures outcome.Listed? || outcome.Skipped? ==> Scanned(cpmdir[..], fds', volume, files, n + 1, l')
    ensures outcome.Full? ==> Scan(volume, files, NOTHING) == l' && !l'.overrun
    ensures outcome.Full? ==> TableOk(cpmdir[..], volume, l') && FdsMatch(fds', l'.ps)
  {
    hide TableOk, Scan, Chain, SlotOf, TableHolds, StampsInPlace, NamesDiffer, Taken, SlotNamed, Limit,
         DescribesFile, Member.File;
    fds', direno', blockno', l' := fds, direno, blockno, l;
    ScanStep(volume, files, n, l);
    TableBound(cpmdir[..], volume, l);
    var dup := IsDuplicate(cpmdir, direno, f);
    DuplicateMeansTaken(cpmdir[..], volume, l, f);
    if dup {
      return Skipped, fds', direno', blockno', l';
    }
    var nblocks := (f.size - 1) / BLOCK_SIZE + 1;
    var ndirents := (f.size - 1) / (8 * BLOCK_SIZE) + 1;
    if direno + ndirents > N_ENTRIES - 1 || (blockno + nblocks) * BLOCK_SIZE > 0xffff * 128 {
      return Full, fds', direno', blockno', l';
    }
    TableOkMeans(cpmdir[..], volume, l);
    PlacingKeeps(l, f, volume);
    fds' := fds + [Fdesc(f.path, blockno, blockno + nblocks - 1)];
    var overrun;
    direno', blockno', overrun := AddFile(cpmdir, f, l.ps, l.p, direno, blockno);
    if overrun {
      return Overrun, fds', direno', blockno', l.(overrun := true);
    }
    l' := Placing(l, f);
    TableOkIs(cpmdir[..], volume, l');
    FdsGrow(fds, l.ps, f, l.p, l.b);
    return Listed, fds', direno', blockno', l';
  }

  lemma TableBound(dir: seq<Entry>, volume: seq<byte>, l: Layout)
    requires TableOk(dir, volume, l)
    ensures SlotOf(l.p) <= N_ENTRIES && l.p <= USABLE
  {
    if l.p < USABLE {
      SlotMono(l.p, USABLE);
    }
  }

  /** Mounts a Unix directory with these members; fails when none of them can be listed. */
  method MountDir(volume: seq<byte>, files: seq<Member>) returns (m: Option<UnixDisk>, overrun: bool)
    requires |volume| == 11
    ensures overrun == Scan(volume, files, NOTHING).overrun
    ensures !overrun ==> (m.None? <==> Scan(volume, files, NOTHING).ps == [])
    ensures m.Some? ==> var l := Scan(volume, files, NOTHING);
                        && Describes(m.value.dsm, View(m.value), l.ps, l.p, l.b) && FdsMatch(m.value.fds, l.ps)
                        && m.value.nde % 4 == 0 && m.value.nde <= N_ENTRIES && |m.value.data| == N_ENTRIES
                        && m.value.nde == (l.p + l.p / 3 + 3) / 4 * 4
                            && m.value.dsm == (if l.b > 256 then l.b - 1 else 256)
    ensures m.Some? ==> Fixtures(m.value, volume)
  {
    hide TableOk, Scan, Chain, SlotOf, TableHolds, StampsInPlace, NamesDiffer, HostFile.NameOk, Taken, Limit,
         DescribesFile, View, Describes;
    var cpmdir := new Entry[N_ENTRIES](_ => SpecialEntry(0));
    SetUpGroup(cpmdir, 0);
    cpmdir[0] := RawEntry(0x20, volume[..8], volume[8..], 0x21, 0, 0, 0, Fill(16, 0));
    var direno, blockno := 1, (N_ENTRIES * 32 - 1) / BLOCK_SIZE + 1;
    var fds: seq<Fdesc> := [];
    ghost var l := NOTHING;
    assert volume[..8] + volume[8..] == volume;
    NewTableOk(cpmdir[..], volume);
    SlotStart();
    assert files[0..] == files;
    var n := 0;
    while n < |files|
      invariant n <= |files| && Scanned(cpmdir[..], fds, volume, files, n, l) && direno == SlotOf(l.p) && blockno == l.b
    {
      var outcome;
      outcome, fds, direno, blockno, l := ScanMember(cpmdir, fds, volume, files, n, direno, blockno, l);
      if outcome.Overrun? {
        return None, true;
      }
      if outcome.Full? {
        break;
      }
      n := n + 1;
    }
    assert l == Scan(volume, files, NOTHING) by {
      NothingLeftToScan(volume, files, l);
    }
    overrun := false;
    ghost var next := direno;
    while direno % 4 != 0
      invariant next <= direno <= (next + 3) / 4 * 4
      decreases (next + 3) / 4 * 4 - direno
    {
      direno := direno + 1;
    }
    if fds == [] {
      return None, false;
    }
    m := Some(UnixDisk(cpmdir[..], direno, fds, if blockno > 256 then blockno - 1 else 256));
    RoundedUp(l.p, direno);
    ViewDescribes(m.value, volume, l);
    FixturesShown(m.value, volume, l);
  }

  lemma RoundedUp(p: nat, nde: nat)
    requires nde % 4 == 0 && SlotOf(p) <= nde <= (SlotOf(p) + 3) / 4 * 4
    ensures nde == (p + p / 3 + 3) / 4 * 4
  {
    NextFour(SlotOf(p), nde);
  }

  lemma NextFour(d: nat, nde: nat)
    requires nde % 4 == 0 && d <= nde <= (d + 3) / 4 * 4
    ensures nde == (d + 3) / 4 * 4
  {
    var k := nde / 4;
    assert nde == 4 * k;
  }

  /** What the directory shows besides the files: the label, the date stamps, and erased slots. */
  ghost predicate Fixtures(d: UnixDisk, volume: seq<byte>) {
    && IsLabel(View(d)[0], volume)
    && (forall s :: d.nde <= s < 2032 ==> View(d)[s].status == 0xe5)
    && (forall s :: 0 < s < d.nde && s < 2032 ==>
          (s % 4 == 3 ==> View(d)[s].status == 0x21)
          && (s % 4 != 3 ==> View(d)[s].status == 0 || View(d)[s].status == 0xe5))
  }

  lemma FixturesShown(d: UnixDisk, volume: seq<byte>, l: Layout)
    requires TableOk(d.data, volume, l)
    requires d.nde % 4 == 0 && SlotOf(l.p) <= d.nde <= (SlotOf(l.p) + 3) / 4 * 4
    ensures Fixtures(d, volume)
  {
    hide SlotOf, Limit, Chain, NamesDiffer, TableHolds;
    FirstCell(l);
    SlotLimit(l.p);
    TableBound(d.data, volume, l);
    LimitReaches(SlotOf(l.p), d.nde);
  }

  lemma NothingLeftToScan(volume: seq<byte>, files: seq<Member>, l: Layout)
    ensures Scan(volume, files[|files|..], l) == l
  {
  }

  /** Rounded up to a whole directory sector, the table shows just what has been set up. */
  lemma ViewDescribes(d: UnixDisk, volume: seq<byte>, l: Layout)
    requires TableOk(d.data, volume, l) && FdsMatch(d.fds, l.ps) && l.ps != []
    requires d.nde % 4 == 0 && SlotOf(l.p) <= d.nde <= (SlotOf(l.p) + 3) / 4 * 4
    requires d.dsm == if l.b > 256 then l.b - 1 else 256
    ensures Describes(d.dsm, View(d), l.ps, l.p, l.b) && d.nde <= N_ENTRIES
  {
    hide CellEntry, SlotOf, IndexOf, NamesDiffer, Chain, EntryAt, Limit, View;
    TableOkMeans(d.data, volume, l);
    TableBound(d.data, volume, l);
    LimitReaches(SlotOf(l.p), d.nde);
    ChainOrdered(l.ps, l.p, l.b, |l.ps| - 1, |l.ps| - 1);
    forall k, q: nat | 0 <= k < |l.ps| && l.ps[k].Ok() && l.ps[k].p <= q < l.ps[k].End() && q < l.p
      ensures EntryAt(View(d), l.ps[k], q)
    {
      EntryShown(d, l, k, q);
    }
    ViewLive(d, l.p, Limit(SlotOf(l.p)));
  }

  lemma LimitReaches(d: nat, nde: nat)
    requires d <= N_ENTRIES && nde % 4 == 0 && nde <= (d + 3) / 4 * 4
    ensures nde <= Limit(d) && nde <= N_ENTRIES
  {
  }

  lemma EntryShown(d: UnixDisk, l: Layout, k: nat, q: nat)
    requires k < |l.ps| && l.ps[k].Ok() && l.ps[k].p <= q < l.ps[k].End() && q < l.p && EntryAt(d.data, l.ps[k], q)
    requires SlotOf(l.p) <= d.nde <= N_ENTRIES
    ensures EntryAt(View(d), l.ps[k], q)
  {
    hide CellEntry, Cell.Ok, SlotOf;
    SlotMono(q, l.p);
  }

  lemma ViewLive(d: UnixDisk, p: nat, limit: nat)
    requires d.nde <= limit <= |d.data|
    requires forall s :: 0 <= s < limit && d.data[s].status <= 15 ==> s % 4 != 3 && 1 <= IndexOf(s) < p
    ensures forall s :: 0 <= s < N_ENTRIES && View(d)[s].status <= 15 ==> s % 4 != 3 && 1 <= IndexOf(s) < p
  {
    hide IndexOf;
  }

  predicate DescribesFile(fd: Fdesc, pl: Placed) {
    pl.Ok() && fd == Fdesc(pl.file.path, pl.first, pl.NextBlock() - 1)
  }
}
