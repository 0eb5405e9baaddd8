/** readsec for simulated disks: sectors served through a cache of four open files. */
module FileCache {
  import opened Options
  import opened Geometry
  import opened Directory
  import opened UnixDir
  import opened MountDir

  /** The files of the host that can be opened, and what they hold. */
  type Host = map<seq<byte>, seq<byte>>

  const FCACHE_SIZE := 4

  /** An open stream on a host file, or NULL. */
  datatype Stream = Closed | Open(path: seq<byte>)

  /** struct fc: `fd` is the index of the descriptor in the table of the disk. */
  datatype CacheSlot = CacheSlot(f: Stream, disk: nat, fd: nat)

  // ----- What a sector of a simulated disk is -----

  /** 128 bytes of a file from `o` on, padded with end-of-file characters. */
  function FileSector(content: seq<byte>, o: nat): (s: seq<byte>)
    ensures |s| == 128
  {
    seq<byte>(128, i requires 0 <= i < 128 => if o + i < |content| then content[o + i] else 0x1A)
  }

  function EntryBytes(e: Entry): (s: seq<byte>)
    ensures |s| == 32
  {
    [e.status] + e.name + e.ext + [e.extnol, e.lrc, e.extnoh, e.blkcnt] + e.pointers
  }

  /** Four directory entries, as the directory shows them. */
  function DirSector(d: UnixDisk, r: nat): (s: seq<byte>)
    requires 4 * r + 4 <= N_ENTRIES
    ensures |s| == 128
  {
    var v := View(d);
    EntryBytes(v[4 * r]) + EntryBytes(v[4 * r + 1]) + EntryBytes(v[4 * r + 2]) + EntryBytes(v[4 * r + 3])
  }

  predicate InFile(fd: Fdesc, blockno: nat) {
    fd.firstblock <= blockno <= fd.lastblock
  }

  /** The first descriptor at or behind `j` whose file holds the block, or -1. */
  function Owner(fds: seq<Fdesc>, blockno: nat, j: nat): (r: int)
    requires j <= |fds|
    ensures r == -1 || j <= r < |fds|
    ensures r >= 0 ==> InFile(fds[r], blockno)
    ensures r == -1 ==> forall k :: j <= k < |fds| ==> !InFile(fds[k], blockno)
    decreases |fds| - j
  {
    if j == |fds| then -1 else if InFile(fds[j], blockno) then j else Owner(fds, blockno, j + 1)
  }

  /** What reading sector `n` of the disk means without any cache. */
  function DirectRead(host: Host, d: UnixDisk, n: nat): Option<seq<byte>> {
    var blockno := n / 32;
    if blockno < DIR_BLOCKS then
      Some(if 4 * n + 4 <= N_ENTRIES then DirSector(d, n) else Fill(128, 0xE5))
    else
      var j := Owner(d.fds, blockno, 0);
      if j >= 0 && d.fds[j].fullname in host then
        Some(FileSector(host[d.fds[j].fullname], n * 128 - d.fds[j].firstblock * BLOCK_SIZE))
      else None
  }

  // ----- The cache -----

  /** The blocks of different files do not overlap. */
  ghost predicate DiskOk(d: UnixDisk) {
    && |d.data| == N_ENTRIES && d.nde <= N_ENTRIES && d.nde % 4 == 0
    && forall j, k :: 0 <= j < |d.fds| && 0 <= k < |d.fds| && j != k ==>
         d.fds[j].lastblock < d.fds[k].firstblock || d.fds[k].lastblock < d.fds[j].firstblock
  }

  /** The slot is free, or its stream is on the file its descriptor names. */
  ghost predicate SlotOk(host: Host, mnttab: seq<Option<UnixDisk>>, c: CacheSlot) {
    c.f.Open? ==>
      && c.disk < |mnttab| && mnttab[c.disk].Some? && c.fd < |mnttab[c.disk].value.fds|
      && c.f.path == mnttab[c.disk].value.fds[c.fd].fullname && c.f.path in host
  }

  ghost predicate SlotsOk(host: Host, mnttab: seq<Option<UnixDisk>>, slots: seq<CacheSlot>) {
    forall i :: 0 <= i < |slots| ==> SlotOk(host, mnttab, slots[i])
  }

  class Bios {
    const host: Host
    const fcache: array<CacheSlot>
    var mnttab: seq<Option<UnixDisk>>
    var curdisk: int

    /** The files that sectors have been served from, as disk and descriptor, in the order of use. */
    ghost var uses: seq<(nat, nat)>

    ghost predicate Valid()
      reads this, fcache
    {
      && fcache.Length == FCACHE_SIZE && |mnttab| == 16 && -1 <= curdisk < 16
      && (forall d :: 0 <= d < 16 && mnttab[d].Some? ==> DiskOk(mnttab[d].value))
      && SlotsOk(host, mnttab, fcache[..])
    }

    /** The cache holds the four files used last, most recent first. */
    ghost predicate MostRecentFirst()
      reads this, fcache
    {
      Dense(fcache[..]) && Files(fcache[..]) == Take4(Recent(uses))
    }

    constructor (host: Host)
      ensures Valid() && fresh(fcache) && this.host == host && MostRecentFirst()
    {
      uses := [];
      this.host := host;
      fcache := new CacheSlot[FCACHE_SIZE](_ => CacheSlot(Closed, 0, 0));
      mnttab := seq(16, _ => None);
      curdisk := -1;
    }

    /** Closes all streams on files of a disk. */
    method ClearFc(disk: nat)
      requires Valid()
      modifies fcache
      ensures forall i :: 0 <= i < FCACHE_SIZE ==>
                fcache[i] == if old(fcache[i].f.Open? && fcache[i].disk == disk) then old(fcache[i]).(f := Closed)
                    else old(fcache[i])
    {
      for i := 0 to FCACHE_SIZE
        invariant forall k :: 0 <= k < FCACHE_SIZE ==>
                    fcache[k] == if k < i && old(fcache[k].f.Open? && fcache[k].disk == disk)
                        then old(fcache[k]).(f := Closed) else old(fcache[k])
      {
        if fcache[i].f.Open? && fcache[i].disk == disk {
          fcache[i] := fcache[i].(f := Closed);
        }
      }
    }

    /** Takes a disk away; a drive without a disk is left alone. */
    method Umount(disk: nat)
      requires Valid() && disk < 16
      modifies this`mnttab, fcache
      ensures Valid() && mnttab == old(mnttab)[disk := None]
      ensures old(mnttab[disk].None?) ==> fcache[..] == old(fcache[..])
    {
      if mnttab[disk].Some? {
        ClearFc(disk);
        mnttab := mnttab[disk := None];
      }
    }

    /**
     * Mounts what mountdir has made of a directory, if it has succeeded; a disk in the drive is unmounted in any case.
     */
    method Mount(disk: nat, made: Option<UnixDisk>) returns (ok: bool)
      requires Valid() && disk < 16 && (made.Some? ==> DiskOk(made.value))
      modifies this`mnttab, fcache
      ensures Valid() && mnttab == old(mnttab)[disk := made] && (ok <==> made.Some?)
      ensures old(mnttab[disk].None?) ==> fcache[..] == old(fcache[..])
    {
      Umount(disk);
      if made.Some? {
        mnttab := mnttab[disk := made];
      }
      ok := made.Some?;
    }

    /** Selects a disk; the first time its directory is mounted again, and `made` is what becomes of it. */
    method SelDsk(disk: int, again: bool, made: Option<UnixDisk>) returns (ok: bool)
      requires Valid() && (made.Some? ==> DiskOk(made.value))
      modifies this`curdisk, this`mnttab, fcache
      ensures Valid()
      ensures ok <==> old(HasDisk(disk)) && (again || made.Some?)
      ensures curdisk == if ok then disk else old(curdisk)
      ensures mnttab == if old(HasDisk(disk)) && !again then old(mnttab)[disk := made] else old(mnttab)
      ensures !old(HasDisk(disk)) || again ==> fcache[..] == old(fcache[..])
    {
      ok := HasDisk(disk);
      if ok && !again {
        ok := Mount(disk, made);
      }
      if ok {
        curdisk := disk;
      }
    }

    predicate HasDisk(disk: int)
      requires |mnttab| == 16
      reads `mnttab
    {
      0 <= disk < 16 && mnttab[disk].Some?
    }

    /** The slot to use for a block: the first one that is free or already open on the file of the block. */
    method FindSlot(blockno: nat) returns (i: nat)
      requires Valid() && 0 <= curdisk && mnttab[curdisk].Some?
      ensures i <= FCACHE_SIZE
      ensures i < FCACHE_SIZE ==> fcache[i].f.Closed? || Hit(fcache[i], mnttab, curdisk, blockno)
      ensures forall k :: 0 <= k < i ==> fcache[k].f.Open? && !Hit(fcache[k], mnttab, curdisk, blockno)
    {
      i := 0;
      while i < FCACHE_SIZE
        invariant i <= FCACHE_SIZE
        invariant forall k :: 0 <= k < i ==> fcache[k].f.Open? && !Hit(fcache[k], mnttab, curdisk, blockno)
      {
        var f := fcache[i];
        if f.f.Closed? || (f.disk == curdisk && InFile(mnttab[curdisk].value.fds[f.fd], blockno)) {
          break;
        }
        i := i + 1;
      }
    }

    /** The descriptor of the file that holds a block. */
    method FindOwner(blockno: nat) returns (j: nat)
      requires Valid() && 0 <= curdisk && mnttab[curdisk].Some?
      ensures j <= |mnttab[curdisk].value.fds|
      ensures Owner(mnttab[curdisk].value.fds, blockno, 0) == if j < |mnttab[curdisk].value.fds| then j else -1
    {
      var fds := mnttab[curdisk].value.fds;
      j := 0;
      while j < |fds|
        invariant j <= |fds| && Owner(fds, blockno, 0) == Owner(fds, blockno, j)
      {
        if InFile(fds[j], blockno) {
          return;
        }
        j := j + 1;
      }
    }

    /** Closes the last stream and moves the others back; the first slot is free then. */
    method MakeRoom()
      requires fcache.Length == FCACHE_SIZE
      modifies fcache
      ensures fcache[..] == [old(fcache[0]).(f := Closed)] + old(fcache[..FCACHE_SIZE - 1])
    {
      fcache[FCACHE_SIZE - 1] := fcache[FCACHE_SIZE - 1].(f := Closed);
      forall k | 1 <= k < FCACHE_SIZE {
        fcache[k] := fcache[k - 1];
      }
      fcache[0] := fcache[0].(f := Closed);
    }

    /** Moves slot `i` to the front. */
    method Promote(i: nat)
      requires fcache.Length == FCACHE_SIZE && i < FCACHE_SIZE
      modifies fcache
      ensures fcache[..] == Rotate(old(fcache[..]), i, old(fcache[i]))
    {
      if i != 0 {
        var temp := fcache[i];
        forall k | 1 <= k <= i {
          fcache[k] := fcache[k - 1];
        }
        fcache[0] := temp;
      }
    }

    /**
     * Makes slot 0 the stream on the file that holds the block; fails if there is no such file or it cannot be opened.
     */
    method BringToFront(blockno: nat) returns (rc: int, ghost at: nat)
      requires Valid() && 0 <= curdisk && mnttab[curdisk].Some?
      modifies fcache
      ensures Valid() && (rc == 0 || rc == 1)
      ensures rc == 0 <==> Servable(host, mnttab[curdisk].value, blockno)
      ensures rc == 0 ==> var c := StreamOn(mnttab[curdisk].value, curdisk, blockno);
                          Chosen(old(fcache[..]), at, c) && fcache[..] == Rotate(old(fcache[..]), at, c)
    {
      hide DiskOk, Owner, InFile, SlotOk;
      ghost var before := fcache[..];
      var i := FindSlot(blockno);
      HitIsOwner(host, mnttab, curdisk, blockno, before);
      at := if i == FCACHE_SIZE then FCACHE_SIZE - 1 else i;
      if i == FCACHE_SIZE {
        MakeRoom();
        i := 0;
      }
      ClosedSlotOk(host, mnttab);
      assert SlotsOk(host, mnttab, fcache[..]);
      if fcache[i].f.Closed? {
        fcache[i] := fcache[i].(disk := curdisk);
        var j := FindOwner(blockno);
        var fds := mnttab[curdisk].value.fds;
        if j >= |fds| || fds[j].fullname !in host {
          return 1, at;
        }
        fcache[i] := CacheSlot(Open(fds[j].fullname), curdisk, j);
      }
      Promote(i);
      assert fcache[..] == Rotate(before, at, StreamOn(mnttab[curdisk].value, curdisk, blockno));
      RotateOk(host, mnttab, before, at, curdisk, blockno);
      return 0, at;
    }

    /** The directory part of a disk: slots that were set up, and erased ones behind them. */
    method ReadDirSector(offset: nat) returns (data: seq<byte>)
      requires Valid() && 0 <= curdisk && mnttab[curdisk].Some? && offset % 128 == 0 && offset / BLOCK_SIZE < DIR_BLOCKS
      ensures Some(data) == DirectRead(host, mnttab[curdisk].value, offset / 128)
    {
      hide EntryBytes;
      var d := mnttab[curdisk].value;
      var e := offset / 32;
      assert offset / 128 / 32 == offset / BLOCK_SIZE && e == 4 * (offset / 128);
      if e < d.nde {
        data := EntryBytes(d.data[e]) + EntryBytes(d.data[e + 1]) + EntryBytes(d.data[e + 2])
            + EntryBytes(d.data[e + 3]);
      } else {
        data := Fill(128, 0xE5);
        if 4 * (offset / 128) + 4 <= N_ENTRIES {
          ErasedSector(d, offset / 128);
        }
      }
    }

    /** The file part: the sector of the file that owns the block. */
    method ReadFileSector(offset: nat) returns (rc: int, data: seq<byte>)
      requires Valid() && 0 <= curdisk && mnttab[curdisk].Some? && offset % 128 == 0
               && offset / BLOCK_SIZE >= DIR_BLOCKS
      modifies fcache, this`uses
      ensures Valid() && (rc == 0 || rc == 1)
      ensures rc == 0 ==> Some(data) == DirectRead(host, mnttab[curdisk].value, offset / 128)
      ensures rc == 1 ==> DirectRead(host, mnttab[curdisk].value, offset / 128).None?
      ensures rc == 0 ==> uses == old(uses) + [(curdisk, Owner(mnttab[curdisk].value.fds, offset / BLOCK_SIZE, 0))]
      ensures rc == 0 && old(MostRecentFirst()) ==> MostRecentFirst()
    {
      hide DiskOk, SlotsOk, Chosen, Dense, Files, ToFront, Take4, Recent;
      ghost var before := fcache[..];
      assert offset / 128 / 32 == offset / BLOCK_SIZE;
      ghost var slot;
      rc, slot := BringToFront(offset / BLOCK_SIZE);
      if rc != 0 {
        return rc, [];
      }
      assert fcache[0] == fcache[..][0];
      if Dense(before) && Files(before) == Take4(Recent(uses)) {
        RotateFiles(before, slot, fcache[0]);
        RecentStep(uses, FileOf(fcache[0]));
      }
      uses := uses + [FileOf(fcache[0])];
      var fds := mnttab[curdisk].value.fds;
      data := ReadStream(host, fcache[0].f.path, offset - fds[fcache[0].fd].firstblock * BLOCK_SIZE);
    }

    /** Serves a sector of the current disk. */
    method ReadSec(track: nat, sector: nat) returns (rc: int, data: seq<byte>)
      requires Valid()
      modifies fcache, this`uses
      ensures Valid() && (rc == 0 || rc == 1)
      ensures old(MostRecentFirst()) && (rc == 0 || !HasDisk(curdisk)) ==> MostRecentFirst()
      ensures !HasDisk(curdisk) ==> rc == 1
      ensures curdisk >= 0 && mnttab[curdisk].Some? && rc == 0 ==>
                Some(data) == DirectRead(host, mnttab[curdisk].value, track * 256 + sector)
      ensures curdisk >= 0 && mnttab[curdisk].Some? && rc == 1 ==>
                DirectRead(host, mnttab[curdisk].value, track * 256 + sector).None?
    {
      hide DirectRead, DiskOk, SlotsOk;
      if curdisk < 0 || mnttab[curdisk].None? {
        return 1, [];
      }
      var offset := (track * 256 + sector) * 128;
      if offset / BLOCK_SIZE < DIR_BLOCKS {
        data := ReadDirSector(offset);
        return 0, data;
      }
      rc, data := ReadFileSector(offset);
    }

    /** Carries out one command; answers a read that succeeds. */
    method Serve(c: Command) returns (answer: Option<seq<byte>>)
      requires Valid() && c.Ok()
      modifies this, fcache
      ensures Valid() && Drives(mnttab, curdisk) == old(After(Drives(mnttab, curdisk), c))
      ensures answer == old(Answer(host, Drives(mnttab, curdisk), c))
      ensures old(MostRecentFirst() && Steady(host, Drives(mnttab, curdisk), c)) ==> MostRecentFirst()
    {
      hide DirectRead, DiskOk, SlotsOk, Dense, Files, Take4, Recent;
      answer := None;
      match c {
        case MountDisk(disk, made) => var ok := Mount(disk, made);
        case UnmountDisk(disk) => Umount(disk);
        case SelectDisk(disk, again, made) => var ok := SelDsk(disk, again, made);
        case ReadSector(track, sector) =>
          var rc, data := ReadSec(track, sector);
          answer := if rc == 0 then Some(data) else None;
      }
    }

    /** Carries out a sequence of commands. */
    method ServeAll(cs: seq<Command>) returns (answers: seq<Option<seq<byte>>>)
      requires Valid() && forall i :: 0 <= i < |cs| ==> cs[i].Ok()
      modifies this, fcache
      ensures Valid()
      ensures answers == old(Answers(host, Drives(mnttab, curdisk), cs))
      ensures old(MostRecentFirst() && AllSteady(host, Drives(mnttab, curdisk), cs)) ==> MostRecentFirst()
    {
      hide Valid, MostRecentFirst, Answer, After, Steady, Command.Ok;
      answers := [];
      ghost var s := Drives(mnttab, curdisk);
      ghost var steady := MostRecentFirst() && AllSteady(host, s, cs);
      var i := 0;
      assert cs[0..] == cs;
      while i < |cs|
        invariant i <= |cs| && Valid()
        invariant Answers(host, s, cs) == answers + Answers(host, Drives(mnttab, curdisk), cs[i..])
        invariant steady ==> MostRecentFirst() && AllSteady(host, Drives(mnttab, curdisk), cs[i..])
      {
        assert cs[i..][1..] == cs[i + 1..];
        var answer := Serve(cs[i]);
        answers := answers + [answer];
        i := i + 1;
      }
    }
  }

  // ----- Sequences of commands -----

  datatype Command =
    | MountDisk(disk: nat, made: Option<UnixDisk>)
    | UnmountDisk(disk: nat)
    | SelectDisk(drive: int, again: bool, made: Option<UnixDisk>)
    | ReadSector(track: nat, sector: nat)
  {
    ghost predicate Ok() {
      && (MountDisk? || UnmountDisk? ==> disk < 16)
      && (MountDisk? || SelectDisk? ==> made.Some? ==> DiskOk(made.value))
    }
  }

  /** Which disks are mounted, and which one is selected. */
  datatype Drives = Drives(mnttab: seq<Option<UnixDisk>>, curdisk: int)
  {
    predicate HasDisk(disk: int) {
      0 <= disk < |mnttab| && mnttab[disk].Some?
    }
  }

  function After(s: Drives, c: Command): Drives {
    match c
    case MountDisk(disk, made) => if disk < |s.mnttab| then s.(mnttab := s.mnttab[disk := made]) else s
    case UnmountDisk(disk) => if disk < |s.mnttab| then s.(mnttab := s.mnttab[disk := None]) else s
    case SelectDisk(drive, again, made) =>
      if !s.HasDisk(drive) then s
      else if again then s.(curdisk := drive)
      else Drives(s.mnttab[drive := made], if made.Some? then drive else s.curdisk)
    case ReadSector(_, _) => s
  }

  /** The answer without any cache: a direct read of the file that owns the sector. */
  function Answer(host: Host, s: Drives, c: Command): Option<seq<byte>> {
    if c.ReadSector? && s.HasDisk(s.curdisk)
        then DirectRead(host, s.mnttab[s.curdisk].value, c.track * 256 + c.sector) else None
  }

  function Answers(host: Host, s: Drives, cs: seq<Command>): seq<Option<seq<byte>>>
    decreases |cs|
  {
    if cs == [] then [] else [Answer(host, s, cs[0])] + Answers(host, After(s, cs[0]), cs[1..])
  }

  /** No mounted disk is taken away or replaced, and no read of a mounted disk fails. */
  predicate Steady(host: Host, s: Drives, c: Command) {
    match c
    case MountDisk(disk, _) => !s.HasDisk(disk)
    case UnmountDisk(disk) => !s.HasDisk(disk)
    case SelectDisk(drive, again, _) => again || !s.HasDisk(drive)
    case ReadSector(_, _) => s.HasDisk(s.curdisk) ==> Answer(host, s, c).Some?
  }

  predicate AllSteady(host: Host, s: Drives, cs: seq<Command>)
    decreases |cs|
  {
    cs == [] || (Steady(host, s, cs[0]) && AllSteady(host, After(s, cs[0]), cs[1..]))
  }

  /** fseek and fread of one sector; what the file does not fill is padded. */
  method ReadStream(host: Host, path: seq<byte>, at: nat) returns (data: seq<byte>)
    requires path in host
    ensures data == FileSector(host[path], at)
  {
    var content := host[path];
    var got := if at >= |content| then 0 else if |content| - at < 128 then |content| - at else 128;
    data := (if got == 0 then [] else content[at..at + got]) + Fill(128 - got, 0x1A);
  }

  lemma ErasedSector(d: UnixDisk, r: nat)
    requires d.nde <= 4 * r && 4 * r + 4 <= N_ENTRIES
    ensures DirSector(d, r) == Fill(128, 0xE5)
  {
    assert EntryBytes(Unused()) == Fill(32, 0xE5);
    assert View(d)[4 * r] == View(d)[4 * r + 1] == View(d)[4 * r + 2] == View(d)[4 * r + 3] == Unused();
  }

  /** The slot is open on the file of the current disk that holds the block. */
  predicate Hit(c: CacheSlot, mnttab: seq<Option<UnixDisk>>, disk: int, blockno: nat) {
    && c.disk == disk && c.disk < |mnttab| && mnttab[c.disk].Some? && c.fd < |mnttab[c.disk].value.fds|
    && InFile(mnttab[c.disk].value.fds[c.fd], blockno)
  }

  predicate Servable(host: Host, d: UnixDisk, blockno: nat) {
    var j := Owner(d.fds, blockno, 0);
    j >= 0 && d.fds[j].fullname in host
  }

  lemma ClosedSlotOk(host: Host, mnttab: seq<Option<UnixDisk>>)
    ensures forall c: CacheSlot :: c.f.Closed? ==> SlotOk(host, mnttab, c)
  {
  }

  lemma RotateOk(host: Host, mnttab: seq<Option<UnixDisk>>, slots: seq<CacheSlot>, at: nat, disk: nat, blockno: nat)
    requires at < |slots| && SlotsOk(host, mnttab, slots)
    requires disk < |mnttab| && mnttab[disk].Some? && Servable(host, mnttab[disk].value, blockno)
    ensures SlotsOk(host, mnttab, Rotate(slots, at, StreamOn(mnttab[disk].value, disk, blockno)))
  {
    hide InFile;
  }

  /** The slot that serves a block once its file is open. */
  function StreamOn(d: UnixDisk, disk: nat, blockno: nat): CacheSlot
    requires Owner(d.fds, blockno, 0) >= 0
  {
    CacheSlot(Open(d.fds[Owner(d.fds, blockno, 0)].fullname), disk, Owner(d.fds, blockno, 0))
  }

  /** An open slot hits exactly when it is the stream on the owner. */
  lemma HitIsOwner(host: Host, mnttab: seq<Option<UnixDisk>>, disk: nat, blockno: nat, slots: seq<CacheSlot>)
    requires disk < |mnttab| && mnttab[disk].Some? && DiskOk(mnttab[disk].value)
    requires forall k :: 0 <= k < |slots| ==> SlotOk(host, mnttab, slots[k])
    ensures forall k :: 0 <= k < |slots| && slots[k].f.Open? && Hit(slots[k], mnttab, disk, blockno) ==>
              && Servable(host, mnttab[disk].value, blockno) && slots[k] == StreamOn(mnttab[disk].value, disk, blockno)
    ensures forall k :: 0 <= k < |slots| && slots[k].f.Open? && !Hit(slots[k], mnttab, disk, blockno) ==>
              Owner(mnttab[disk].value.fds, blockno, 0) == -1
                  || FileOf(slots[k]) != (disk, Owner(mnttab[disk].value.fds, blockno, 0))
  {
  }

  // ----- Recency -----

  /** The slot at `at` gives way, the ones before it move back by one, and `c` becomes the first. */
  function Rotate(slots: seq<CacheSlot>, at: nat, c: CacheSlot): seq<CacheSlot>
    requires at < |slots|
  {
    [c] + slots[..at] + slots[at + 1..]
  }

  function FileOf(c: CacheSlot): (nat, nat) {
    (c.disk, c.fd)
  }

  /** The place of `c`, else the first free one, else the last. */
  predicate Chosen(slots: seq<CacheSlot>, at: nat, c: CacheSlot) {
    && at < |slots| && (forall k :: 0 <= k < at ==> slots[k].f.Open? && FileOf(slots[k]) != FileOf(c))
    && (slots[at].f.Closed? || slots[at] == c || (at == |slots| - 1 && FileOf(slots[at]) != FileOf(c)))
  }

  /** No free slot in front of a used one. */
  predicate Dense(slots: seq<CacheSlot>) {
    forall i, k :: 0 <= i < k < |slots| && slots[i].f.Closed? ==> slots[k].f.Closed?
  }

  /** The cached files, front to back. */
  function Files(slots: seq<CacheSlot>): seq<(nat, nat)> {
    if slots == [] || slots[0].f.Closed? then [] else [(slots[0].disk, slots[0].fd)] + Files(slots[1..])
  }

  function Remove(s: seq<(nat, nat)>, x: (nat, nat)): (r: seq<(nat, nat)>)
    ensures |s| - 1 <= |r| <= |s| && (x !in s ==> r == s)
  {
    if s == [] then [] else if s[0] == x then s[1..] else [s[0]] + Remove(s[1..], x)
  }

  function ToFront(s: seq<(nat, nat)>, x: (nat, nat)): seq<(nat, nat)> {
    [x] + Remove(s, x)
  }

  function Take4(s: seq<(nat, nat)>): (r: seq<(nat, nat)>)
    ensures |r| <= 4
  {
    if |s| <= FCACHE_SIZE then s else s[..FCACHE_SIZE]
  }

  lemma {:induction false} FilesAppend(a: seq<CacheSlot>, b: seq<CacheSlot>)
    requires forall i :: 0 <= i < |a| ==> a[i].f.Open?
    ensures Files(a + b) == Files(a) + Files(b) && |Files(a)| == |a| && forall i ::
            0 <= i < |a| ==> Files(a)[i] == FileOf(a[i])
  {
    if a == [] {
      assert a + b == b;
    } else {
      assert (a + b)[1..] == a[1..] + b;
      FilesAppend(a[1..], b);
    }
  }

  lemma {:induction false} RemoveBehind(a: seq<(nat, nat)>, b: seq<(nat, nat)>, x: (nat, nat))
    requires x !in a
    ensures Remove(a + b, x) == a + Remove(b, x)
  {
    if a == [] {
      assert a + b == b && a + Remove(b, x) == Remove(b, x);
    } else {
      var rest := a[1..];
      assert a == [a[0]] + rest && (a + b)[1..] == rest + b && (a + b)[0] == a[0];
      calc {
        Remove(a + b, x);
        [a[0]] + Remove(rest + b, x);
        { RemoveBehind(rest, b, x); }
        [a[0]] + (rest + Remove(b, x));
        a + Remove(b, x);
      }
    }
  }

  /** Serving a file moves it to the front of the cached files; the last one gives way if there were four. */
  lemma RotateFiles(slots: seq<CacheSlot>, at: nat, c: CacheSlot)
    requires |slots| == FCACHE_SIZE && Chosen(slots, at, c) && Dense(slots) && c.f.Open?
    ensures Dense(Rotate(slots, at, c)) && Files(Rotate(slots, at, c)) == Take4(ToFront(Files(slots), FileOf(c)))
  {
    hide Files, ToFront, Take4;
    var front, rest := slots[..at], slots[at + 1..];
    var back := [slots[at]] + rest;
    assert slots == front + back;
    assert Rotate(slots, at, c) == [c] + (front + rest);
    FilesAppend(front, back);
    FilesAppend([c], front + rest);
    FilesAppend(front, rest);
    OneFile(c);
    BackFiles(slots[at], rest);
    FilesCount(rest);
    assert slots[at].f.Closed? && rest != [] ==> rest[0].f.Closed?;
    MovedToFront(Files(front), Files(back), Files(rest), FileOf(c));
  }

  lemma OneFile(c: CacheSlot)
    requires c.f.Open?
    ensures Files([c]) == [FileOf(c)]
  {
  }

  lemma BackFiles(c: CacheSlot, rest: seq<CacheSlot>)
    ensures c.f.Closed? ==> Files([c] + rest) == []
    ensures c.f.Open? ==> Files([c] + rest) == [FileOf(c)] + Files(rest)
    ensures rest == [] || rest[0].f.Closed? ==> Files(rest) == []
  {
    assert ([c] + rest)[1..] == rest;
  }

  /** The three ways a file gets to the front. */
  lemma MovedToFront(front: seq<(nat, nat)>, back: seq<(nat, nat)>, rest: seq<(nat, nat)>, x: (nat, nat))
    requires x !in front && |front| + |rest| < FCACHE_SIZE
    requires || back == rest == []
             || back == [x] + rest
             || (|front| == FCACHE_SIZE - 1 && rest == [] && |back| == 1 && back[0] != x)
    ensures [x] + (front + rest) == Take4(ToFront(front + back, x))
  {
    RemoveBehind(front, back, x);
    assert ([x] + rest)[1..] == rest;
  }

  lemma {:induction false} FilesCount(slots: seq<CacheSlot>)
    ensures |Files(slots)| <= |slots|
  {
    if slots != [] {
      FilesCount(slots[1..]);
    }
  }

  /** The files of a run of accesses, most recently used first. */
  function Recent(xs: seq<(nat, nat)>): seq<(nat, nat)> {
    if xs == [] then [] else ToFront(Recent(xs[..|xs| - 1]), xs[|xs| - 1])
  }

  /** The number of the last access to `x`, counting from 1; 0 if there was none. */
  function LastUse(xs: seq<(nat, nat)>, x: (nat, nat)): nat {
    if xs == [] then 0 else if xs[|xs| - 1] == x then |xs| else LastUse(xs[..|xs| - 1], x)
  }

  lemma {:induction false} LastUseBound(xs: seq<(nat, nat)>, x: (nat, nat))
    ensures LastUse(xs, x) <= |xs| && (LastUse(xs, x) > 0 <==> x in xs)
  {
    if xs != [] {
      LastUseBound(xs[..|xs| - 1], x);
    }
  }

  /** Later accesses come first. */
  ghost predicate ByRecency(s: seq<(nat, nat)>, xs: seq<(nat, nat)>) {
    && (forall x :: x in s <==> x in xs)
    && (forall i, k :: 0 <= i < k < |s| ==> LastUse(xs, s[i]) > LastUse(xs, s[k]))
  }

  lemma {:induction false} RemoveIndex(s: seq<(nat, nat)>, x: (nat, nat)) returns (m: nat)
    ensures x !in s ==> m == |s| && Remove(s, x) == s
    ensures x in s ==> m < |s| && s[m] == x && Remove(s, x) == s[..m] + s[m + 1..]
  {
    if s == [] {
      m := 0;
    } else if s[0] == x {
      m := 0;
    } else {
      var k := RemoveIndex(s[1..], x);
      m := k + 1;
      if x in s[1..] {
        assert s[1..][..k] == s[1..m] && s[1..][k + 1..] == s[m + 1..];
        assert [s[0]] + s[1..m] == s[..m];
      }
    }
  }

  /** The list of recent files names each file once, in the order of its last use. */
  lemma {:induction false} RecentOrdered(xs: seq<(nat, nat)>)
    ensures ByRecency(Recent(xs), xs)
  {
    if xs != [] {
      var init, x := xs[..|xs| - 1], xs[|xs| - 1];
      RecentOrdered(init);
      assert xs == init + [x];
      var m := RemoveIndex(Recent(init), x);
      PushRecent(Recent(init), init, x, m);
    }
  }

  lemma PushRecent(r: seq<(nat, nat)>, init: seq<(nat, nat)>, x: (nat, nat), m: nat)
    requires ByRecency(r, init)
    requires x !in r ==> m == |r| && Remove(r, x) == r
    requires x in r ==> m < |r| && r[m] == x && Remove(r, x) == r[..m] + r[m + 1..]
    ensures ByRecency([x] + Remove(r, x), init + [x])
  {
    var rest, xs := Remove(r, x), init + [x];
    assert xs[..|xs| - 1] == init;
    hide Remove, ByRecency;
    assert LastUse(xs, x) == |xs| && forall y :: y != x ==> LastUse(xs, y) == LastUse(init, y);
    hide LastUse;
    RestByRecency(r, init, x, m, rest);
    forall k | 0 <= k < |rest|
      ensures LastUse(xs, rest[k]) < |xs|
    {
      LastUseBound(init, rest[k]);
    }
    Prepend(rest, init, x);
  }

  /** Without `x` the list is still ordered, and `x` is gone. */
  lemma RestByRecency(r: seq<(nat, nat)>, init: seq<(nat, nat)>, x: (nat, nat), m: nat, rest: seq<(nat, nat)>)
    requires ByRecency(r, init)
    requires x !in r ==> rest == r
    requires x in r ==> m < |r| && r[m] == x && rest == r[..m] + r[m + 1..]
    ensures x !in rest && forall y :: y != x ==> (y in rest <==> y in init)
    ensures forall i, k :: 0 <= i < k < |rest| ==> LastUse(init, rest[i]) > LastUse(init, rest[k])
  {
    hide LastUse;
    if x in r {
      assert forall k :: 0 <= k < |rest| ==> rest[k] == r[if k < m then k else k + 1];
      forall y | y in r && y != x
        ensures y in rest
      {
        var k :| 0 <= k < |r| && r[k] == y;
        assert rest[if k < m then k else k - 1] == y;
      }
    }
  }

  lemma Prepend(rest: seq<(nat, nat)>, init: seq<(nat, nat)>, x: (nat, nat))
    requires x !in rest && forall y :: y != x ==> (y in rest <==> y in init)
    requires forall i, k :: 0 <= i < k < |rest| ==> LastUse(init, rest[i]) > LastUse(init, rest[k])
    requires LastUse(init + [x], x) == |init| + 1 && forall y :: y != x ==> LastUse(init + [x], y) == LastUse(init, y)
    requires forall k :: 0 <= k < |rest| ==> LastUse(init + [x], rest[k]) < |init| + 1
    ensures ByRecency([x] + rest, init + [x])
  {
    hide LastUse;
  }

  /** Serving one more file from the four most recent ones yields the four most recent ones. */
  lemma RecentStep(xs: seq<(nat, nat)>, x: (nat, nat))
    ensures Take4(ToFront(Take4(Recent(xs)), x)) == Take4(Recent(xs + [x]))
  {
    assert (xs + [x])[..|xs|] == xs;
    hide Take4, ToFront;
    TakeToFront(Recent(xs), x);
  }

  /**
   * The file that gives way is the least recently used one: when the four most recent files do not include `x`,
   * the one that drops out of the four is the one whose last use is the oldest.
   */
  lemma VictimIsOldest(xs: seq<(nat, nat)>, x: (nat, nat), victim: (nat, nat))
    requires victim in Take4(Recent(xs)) && victim !in Take4(Recent(xs + [x]))
    ensures x !in Take4(Recent(xs)) && |Take4(Recent(xs))| == FCACHE_SIZE
    ensures forall y :: y in Take4(Recent(xs)) && y != victim ==> LastUse(xs, y) > LastUse(xs, victim)
  {
    RecentStep(xs, x);
    RecentOrdered(xs);
    hide Recent, LastUse, Remove;
    var a := Take4(Recent(xs));
    var m := RemoveIndex(a, x);
    StaysOrIsLast(a, x, victim, m);
    assert forall k :: 0 <= k < |a| ==> a[k] == Recent(xs)[k];
  }

  lemma StaysOrIsLast(a: seq<(nat, nat)>, x: (nat, nat), y: (nat, nat), m: nat)
    requires |a| <= FCACHE_SIZE && y in a
    requires x !in a ==> Remove(a, x) == a
    requires x in a ==> m < |a| && a[m] == x && Remove(a, x) == a[..m] + a[m + 1..]
    ensures y in Take4(ToFront(a, x)) || (x !in a && |a| == FCACHE_SIZE && y == a[FCACHE_SIZE - 1])
  {
    hide Remove;
    var k :| 0 <= k < |a| && a[k] == y;
    var s := ToFront(a, x);
    var at := if x !in a || k < m then k + 1 else if k == m then 0 else k;
    assert s[at] == y;
    if at < FCACHE_SIZE {
      assert Take4(s)[at] == y;
    }
  }

  /** What lies behind the fourth place never matters. */
  lemma TakeToFront(r: seq<(nat, nat)>, x: (nat, nat))
    ensures Take4(ToFront(Take4(r), x)) == Take4(ToFront(r, x))
  {
    hide Remove;
    if |r| > FCACHE_SIZE {
      var a, b := r[..FCACHE_SIZE], r[FCACHE_SIZE..];
      assert r == a + b;
      if x in a {
        RemoveWithin(a, b, x);
      } else {
        RemoveBehind(a, b, x);
      }
    }
  }

  lemma {:induction false} RemoveWithin(a: seq<(nat, nat)>, b: seq<(nat, nat)>, x: (nat, nat))
    requires x in a
    ensures Remove(a + b, x) == Remove(a, x) + b && |Remove(a, x)| == |a| - 1
  {
    assert (a + b)[1..] == a[1..] + b;
    if a[0] != x {
      RemoveWithin(a[1..], b, x);
    }
  }
}
