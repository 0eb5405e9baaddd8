/** Whole runs: the file system behaves like a map from file names to byte strings. */
module CpmRuns {
  import opened Options
  import opened Geometry
  import opened AllocVector
  import opened Directory
  import opened DirectoryChanges
  import opened FileData
  import opened RecordedSize
  import opened Names
  import opened NameOps
  import opened CpmFs
  import opened CpmFiles
  import opened CpmAppend
  import opened CpmNames

  /** Everything that persists between two operations. */
  datatype Volume = Volume(dir: seq<Entry>, alv: seq<word>, dev: seq<Sector>)

  datatype Op =
    | Create(key: Key)
    | Append(key: Key, at: nat, data: seq<byte>)
    | Unlink(key: Key)
    | Rename(key: Key, newKey: Key)

  ghost predicate VolumeOk(g: DiskShape, v: Volume)
    requires g.Basic()
  {
    DeviceOk(g, v.dev) && Consistent(g, v.dir, v.alv)
  }

  /** The directory describes a file of `n` bytes, whatever size it records. */
  ghost predicate HasLength(g: DiskShape, dir: seq<Entry>, key: Key, n: nat)
    requires g.Basic()
  {
    && Find(g, dir, key, 0, -1) >= 0
    && exists nx: nat, r: nat :: FileState(g, dir, key, n, nx, r)
  }

  /** A successful operation of the file system. */
  ghost predicate Step(g: DiskShape, v: Volume, op: Op, v': Volume)
    requires g.Basic()
  {
    match op
    case Create(key) =>
      && KeyOk(g, key) && Find(g, v.dir, key, 0, -1) == -1
      && (exists i :: 0 <= i < |v.dir| && v.dir[i].status == ERASED && v'.dir == v.dir[i := NewFileEntry(key)])
      && v'.alv == v.alv && v'.dev == v.dev
    case Append(key, n, data) =>
      && HasLength(g, v.dir, key, n)
      && VolumeOk(g, v') && HasLength(g, v'.dir, key, n + |data|)
      && Appended(g, v.dir, v.dev, v'.dir, v'.dev, key, n, data)
    case Unlink(key) =>
      v'.dir == Unlinked(g, v.dir, key) && BitmapAgrees(g, v'.dir, v'.alv) && v'.dev == v.dev
    case Rename(key, newKey) =>
      && Find(g, v.dir, key, 0, -1) >= 0 && Find(g, v.dir, newKey, 0, -1) == -1
      && OwnersMoved(g, v.dir, v'.dir, key, newKey) && v'.alv == v.alv && v'.dev == v.dev
  }

  // ----- The methods take such steps -----

  function Vol(sb: SuperBlock): Volume
    reads sb
  {
    Volume(sb.dir, sb.alv, sb.dev)
  }

  method CreateStep(sb: SuperBlock, fname: seq<byte>) returns (r: Option<Inode>)
    requires sb.Valid()
    modifies sb`dir
    ensures sb.Valid()
    ensures r.Some? ==> ParseName(sb.g, fname).Some?
                        && Step(sb.g, old(Vol(sb)), Create(ParseName(sb.g, fname).value), Vol(sb))
    ensures r.Some? ==> fresh(r.value) && r.value.sb == sb && r.value.Valid() && r.value.size == 0 && Grown(r.value, 0)
    ensures r.Some? ==> r.value.FileKey() == ParseName(sb.g, fname).value
    ensures r.None? ==> Vol(sb) == old(Vol(sb))
    ensures r.None? <==> ParseName(sb.g, fname).None?
                         || Find(sb.g, old(sb.dir), ParseName(sb.g, fname).value, 0, -1) >= 0
                         || (forall i :: 0 <= i < |old(sb.dir)| ==> old(sb.dir[i]).status != ERASED)
  {
    hide DiskShape.Valid, DiskShape.DirBlocks, DiskShape.ExtCap, DeviceOk, Consistent, KeyOf, ParseName, NewFileEntry,
         Grown, OtherEntriesKept, KeyOk;
    r := CpmCreat(sb, fname);
  }

  method AppendStep(file: OpenFile, buf: seq<byte>, ghost r: nat) returns (got: int, ghost r': nat)
    requires file.inode.Valid() && Grown(file.inode, r)
    requires file.pos == file.inode.size && file.pos + |buf| <= MAXFILE
    requires TailReadFits(file.inode.sb.g, file.pos, |buf|)
    modifies file`pos, file.inode`size, file.inode.sb`dir, file.inode.sb`alv, file.inode.sb`dev
    ensures -1 <= got <= |buf|
    ensures file.inode.Valid() && Grown(file.inode, r') && file.inode.FileKey() == old(file.inode.FileKey())
    ensures file.pos == file.inode.size == old(file.pos) + Max(got, 0)
    ensures Step(file.inode.sb.g, old(Vol(file.inode.sb)),
                 Append(file.inode.FileKey(), old(file.pos), buf[..Max(got, 0)]), Vol(file.inode.sb))
  {
    hide DiskShape.Valid, DiskShape.DirBlocks, DiskShape.ExtCap, DeviceOk, Consistent, KeyOf, TailReadFits, Appended,
         FileState, RecordedExtent;
    InodeHasLength(file.inode, r);
    got, r' := CpmWrite(file, buf, r);
    InodeHasLength(file.inode, r');
  }

  lemma InodeHasLength(inode: Inode, r: nat)
    requires inode.Valid() && Grown(inode, r)
    ensures HasLength(inode.sb.g, inode.sb.dir, inode.FileKey(), inode.size)
  {
    hide DiskShape.Valid, DiskShape.DirBlocks, DiskShape.ExtCap, DeviceOk, Consistent, KeyOf, FileState;
    assert Matches(inode.sb.g, inode.FileKey(), -1, inode.sb.dir[inode.ino]);
  }

  method UnlinkStep(sb: SuperBlock, fname: seq<byte>) returns (rc: int)
    requires sb.Valid()
    modifies sb`dir, sb`alv
    ensures sb.Valid()
    ensures rc == 0 ==> ParseName(sb.g, fname).Some?
                        && Step(sb.g, old(Vol(sb)), Unlink(ParseName(sb.g, fname).value), Vol(sb))
  {
    hide DiskShape.Valid, DiskShape.DirBlocks, DiskShape.ExtCap, DeviceOk, DirOk, BitmapAgrees, KeyOf, ParseName,
         Unlinked;
    rc := CpmUnlink(sb, fname);
  }

  method RenameStep(sb: SuperBlock, old_: seq<byte>, new_: seq<byte>) returns (rc: int)
    requires sb.Valid()
    modifies sb`dir
    ensures sb.Valid()
    ensures rc == 0 ==> ParseName(sb.g, old_).Some? && ParseName(sb.g, new_).Some?
                        && Step(sb.g, old(Vol(sb)), Rename(ParseName(sb.g, old_).value, ParseName(sb.g, new_).value),
                                Vol(sb))
  {
    hide DiskShape.Valid, DiskShape.DirBlocks, DiskShape.ExtCap, DeviceOk, DirOk, BitmapAgrees, KeyOf, ParseName,
         OwnersMoved;
    rc := CpmRename(sb, old_, new_);
  }

  // ----- The abstract file system -----

  /** What an operation means for the files: names and contents, nothing else. */
  function Apply(m: map<Key, seq<byte>>, op: Op): map<Key, seq<byte>> {
    match op
    case Create(key) => m[key := []]
    case Append(key, n, data) => if key in m then m[key := m[key] + data] else m
    case Unlink(key) => m - {key}
    case Rename(key, newKey) => if key in m then (m - {key})[newKey := m[key]] else m
  }

  /** Appends go to the end of the file. */
  predicate Allowed(m: map<Key, seq<byte>>, op: Op) {
    op.Append? && op.key in m ==> op.at == |m[op.key]|
  }

  ghost predicate Stores(g: DiskShape, v: Volume, key: Key, data: seq<byte>)
    requires g.Basic()
  {
    HasLength(g, v.dir, key, |data|) && FileBytes(g, v.dir, v.dev, key, 0, |data|) == data
  }

  /** The volume holds every file of the map, byte for byte. */
  ghost predicate Represents(g: DiskShape, v: Volume, m: map<Key, seq<byte>>)
    requires g.Basic()
  {
    forall key :: key in m ==> Stores(g, v, key, m[key])
  }

  /** The volume holds no other files. */
  ghost predicate Complete(g: DiskShape, v: Volume, m: map<Key, seq<byte>>)
    requires g.Basic()
  {
    forall key :: Find(g, v.dir, key, 0, -1) >= 0 ==> key in m
  }

  // ----- One step -----

  lemma OtherFileKept(g: DiskShape, v: Volume, v': Volume, key: Key, other: Key, data: seq<byte>)
    requires g.Basic() && VolumeOk(g, v) && other != key && Stores(g, v, other, data)
    requires OtherEntriesKept(g, v.dir, v'.dir, key) && OtherBytesKept(g, v.dir, v.dev, v'.dev, key)
    ensures Stores(g, v', other, data)
  {
    hide DiskShape.DirBlocks, DiskShape.ExtCap, PointersDistinct, PointersInRange, BitmapAgrees, DeviceOk, KeyOf,
         FileByte, OtherBytesKept;
    OtherFilesRead(g, v.dir, v.dev, v'.dir, v'.dev, key, other);
    assert FileBytes(g, v'.dir, v'.dev, other, 0, |data|) == FileBytes(g, v.dir, v.dev, other, 0, |data|);
    OtherStateKept(g, v.dir, v'.dir, key, other, |data|);
  }

  lemma OtherStateKept(g: DiskShape, dir: seq<Entry>, dir': seq<Entry>, key: Key, other: Key, n: nat)
    requires g.Basic() && OtherEntriesKept(g, dir, dir', key) && other != key && HasLength(g, dir, other, n)
    ensures HasLength(g, dir', other, n)
  {
    assert SameEntries(g, dir, dir', other);
    SameEntriesState(g, dir, dir', other, n);
  }

  lemma SameEntriesState(g: DiskShape, dir: seq<Entry>, dir': seq<Entry>, other: Key, n: nat)
    requires g.Basic() && SameEntries(g, dir, dir', other) && HasLength(g, dir, other, n)
    ensures HasLength(g, dir', other, n)
  {
    hide KeyOf, Ptr, Extent, BlockCount, Stamped;
    OtherBlocksKept(g, dir, dir', other);
    SameFinds(g, dir, dir', other);
    var nx: nat, r: nat :| FileState(g, dir, other, n, nx, r);
    assert FileState(g, dir', other, n, nx, r);
  }

  lemma SameFinds(g: DiskShape, dir: seq<Entry>, dir': seq<Entry>, other: Key)
    requires g.Basic() && SameEntries(g, dir, dir', other)
    ensures forall x: int :: Find(g, dir', other, 0, x) == Find(g, dir, other, 0, x)
  {
    forall x: int
      ensures Find(g, dir', other, 0, x) == Find(g, dir, other, 0, x)
    {
      assert forall k :: 0 <= k < |dir| ==> Matches(g, other, x, dir'[k]) == Matches(g, other, x, dir[k]);
    }
  }

  /** An unchanged device keeps all bytes. */
  lemma SameDevice(g: DiskShape, dir: seq<Entry>, dev: seq<Sector>, key: Key)
    requires g.Basic() && DeviceOk(g, dev)
    ensures OtherBytesKept(g, dir, dev, dev, key)
  {
  }

  lemma CreateRefines(g: DiskShape, v: Volume, v': Volume, m: map<Key, seq<byte>>, key: Key)
    requires g.Valid() && VolumeOk(g, v) && Represents(g, v, m) && Step(g, v, Create(key), v')
    ensures VolumeOk(g, v') && Represents(g, v', Apply(m, Create(key)))
    ensures OtherEntriesKept(g, v.dir, v'.dir, key) && Find(g, v'.dir, key, 0, -1) >= 0
  {
    hide DiskShape.Valid, DiskShape.DirBlocks, DiskShape.ExtCap, DeviceOk, Consistent, KeyOf, FileState, NewFileEntry,
         OtherEntriesKept, OtherBytesKept;
    var i :| 0 <= i < |v.dir| && v.dir[i].status == ERASED && v'.dir == v.dir[i := NewFileEntry(key)];
    CreateKeeps(g, v.dir, v.alv, key, i);
    assert Matches(g, key, -1, v'.dir[i]);
    assert Stores(g, v', key, []);
    SameDevice(g, v.dir, v.dev, key);
    OthersKept(g, v, v', m, key);
  }

  /** Every file of the map but `key` is still there. */
  lemma OthersKept(g: DiskShape, v: Volume, v': Volume, m: map<Key, seq<byte>>, key: Key)
    requires g.Basic() && VolumeOk(g, v) && Represents(g, v, m)
    requires OtherEntriesKept(g, v.dir, v'.dir, key) && OtherBytesKept(g, v.dir, v.dev, v'.dev, key)
    ensures forall other :: other in m && other != key ==> Stores(g, v', other, m[other])
  {
    forall other | other in m && other != key
      ensures Stores(g, v', other, m[other])
    {
      OtherFileKept(g, v, v', key, other, m[other]);
    }
  }

  lemma AppendRefines(g: DiskShape, v: Volume, v': Volume, m: map<Key, seq<byte>>, key: Key, n: nat, data: seq<byte>)
    requires g.Valid() && VolumeOk(g, v) && Represents(g, v, m) && Step(g, v, Append(key, n, data), v')
    requires Allowed(m, Append(key, n, data))
    ensures VolumeOk(g, v') && Represents(g, v', Apply(m, Append(key, n, data)))
    ensures OtherEntriesKept(g, v.dir, v'.dir, key) && Find(g, v'.dir, key, 0, -1) >= 0
  {
    hide DiskShape.Valid, DeviceOk, Consistent, FileState, OtherEntriesKept, OtherBytesKept, KeysKept;
    OthersKept(g, v, v', m, key);
    if key in m {
      assert Stores(g, v', key, m[key] + data);
    }
  }

  lemma UnlinkRefines(g: DiskShape, v: Volume, v': Volume, m: map<Key, seq<byte>>, key: Key)
    requires g.Valid() && VolumeOk(g, v) && Represents(g, v, m) && Step(g, v, Unlink(key), v')
    ensures VolumeOk(g, v') && Represents(g, v', Apply(m, Unlink(key)))
    ensures OtherEntriesKept(g, v.dir, v'.dir, key) && Find(g, v'.dir, key, 0, -1) == -1
  {
    hide DiskShape.Valid, DeviceOk, DirOk, BitmapAgrees, Unlinked, Stores, OtherEntriesKept, OtherBytesKept;
    UnlinkKeeps(g, v.dir, key);
    SameDevice(g, v.dir, v.dev, key);
    OthersKept(g, v, v', m, key);
  }

  lemma RenameRefines(g: DiskShape, v: Volume, v': Volume, m: map<Key, seq<byte>>, key: Key, newKey: Key)
    requires g.Valid() && VolumeOk(g, v) && Represents(g, v, m) && Step(g, v, Rename(key, newKey), v')
    ensures VolumeOk(g, v') && Represents(g, v', Apply(m, Rename(key, newKey)))
  {
    hide DiskShape.Valid, DeviceOk, Consistent, FileState, OwnersMoved, FileBytes, FileBlock;
    RenameKeeps(g, v.dir, v'.dir, v.alv, key, newKey);
    RenameMovesFile(g, v.dir, v'.dir, key, newKey);
    forall other | other in m && other != key
      ensures Stores(g, v', other, m[other])
    {
      RenameKeepsOther(g, v, v', key, newKey, other, m[other]);
    }
    if key in m {
      RenamedContents(g, v, v', key, newKey, m[key]);
    }
  }

  lemma RenameKeepsOther(g: DiskShape, v: Volume, v': Volume, key: Key, newKey: Key, other: Key, data: seq<byte>)
    requires g.Basic() && Step(g, v, Rename(key, newKey), v') && Stores(g, v, other, data) && other != key
    ensures Stores(g, v', other, data)
  {
    hide FileState, OwnersMoved, FileBlock, BlockByte, Find;
    RenameLeavesOthers(g, v.dir, v'.dir, key, newKey, other);
    SameEntriesState(g, v.dir, v'.dir, other, |data|);
    OtherBlocksKept(g, v.dir, v'.dir, other);
    assert FileBytes(g, v'.dir, v'.dev, other, 0, |data|) == FileBytes(g, v.dir, v.dev, other, 0, |data|);
  }

  lemma RenamedContents(g: DiskShape, v: Volume, v': Volume, key: Key, newKey: Key, data: seq<byte>)
    requires g.Basic() && Step(g, v, Rename(key, newKey), v') && Stores(g, v, key, data)
    ensures Stores(g, v', newKey, data)
  {
    hide OwnersMoved, FileBlock, BlockByte, Find;
    RenameMovesFile(g, v.dir, v'.dir, key, newKey);
    MovedNameFound(g, v, v', key, newKey);
    hide FileState;
    assert FileBytes(g, v'.dir, v'.dev, newKey, 0, |data|) == FileBytes(g, v.dir, v.dev, key, 0, |data|);
    var nx: nat, r: nat :| FileState(g, v.dir, key, |data|, nx, r);
    assert FileState(g, v'.dir, newKey, |data|, nx, r);
  }

  lemma MovedNameFound(g: DiskShape, v: Volume, v': Volume, key: Key, newKey: Key)
    requires g.Basic() && Step(g, v, Rename(key, newKey), v')
    ensures Find(g, v'.dir, newKey, 0, -1) >= 0
  {
    hide KeyOf, Ptr, Extent, Phys;
    var i := Find(g, v.dir, key, 0, -1);
    assert Matches(g, newKey, -1, v'.dir[i]);
  }

  lemma OneNameChanged(g: DiskShape, v: Volume, v': Volume, m: map<Key, seq<byte>>, m': map<Key, seq<byte>>, key: Key)
    requires g.Basic() && OtherEntriesKept(g, v.dir, v'.dir, key)
    requires forall other :: other != key ==> (other in m' <==> other in m)
    requires Find(g, v'.dir, key, 0, -1) >= 0 && (Complete(g, v, m) || key in m) ==> key in m'
    ensures Complete(g, v, m) ==> Complete(g, v', m')
  {
    hide Find;
    forall other | other != key
      ensures Find(g, v'.dir, other, 0, -1) == Find(g, v.dir, other, 0, -1)
    {
      assert SameEntries(g, v.dir, v'.dir, other);
      SameFinds(g, v.dir, v'.dir, other);
    }
  }

  lemma RenameStaysComplete(g: DiskShape, v: Volume, v': Volume, m: map<Key, seq<byte>>, key: Key, newKey: Key)
    requires g.Basic() && Step(g, v, Rename(key, newKey), v')
    ensures Complete(g, v, m) ==> Complete(g, v', Apply(m, Rename(key, newKey)))
  {
    hide OwnersMoved, Find, FileState, FileBlock;
    RenameMovesFile(g, v.dir, v'.dir, key, newKey);
    forall other | other != key && other != newKey
      ensures Find(g, v'.dir, other, 0, -1) == Find(g, v.dir, other, 0, -1)
    {
      RenameLeavesOthers(g, v.dir, v'.dir, key, newKey, other);
      SameFinds(g, v.dir, v'.dir, other);
    }
  }

  /** One operation does to the files what it does to the map. */
  lemma StepRefines(g: DiskShape, v: Volume, v': Volume, m: map<Key, seq<byte>>, op: Op)
    requires g.Valid() && VolumeOk(g, v) && Represents(g, v, m) && Step(g, v, op, v') && Allowed(m, op)
    ensures VolumeOk(g, v') && Represents(g, v', Apply(m, op))
    ensures Complete(g, v, m) ==> Complete(g, v', Apply(m, op))
  {
    hide DiskShape.Valid, VolumeOk, Represents, OtherEntriesKept, Appended, OwnersMoved, Unlinked, NewFileEntry,
         BitmapAgrees, FileState;
    match op
    case Create(key) =>
      CreateRefines(g, v, v', m, key);
      OneNameChanged(g, v, v', m, Apply(m, op), key);
    case Append(key, n, data) =>
      AppendRefines(g, v, v', m, key, n, data);
      OneNameChanged(g, v, v', m, Apply(m, op), key);
    case Unlink(key) =>
      UnlinkRefines(g, v, v', m, key);
      OneNameChanged(g, v, v', m, Apply(m, op), key);
    case Rename(key, newKey) =>
      RenameRefines(g, v, v', m, key, newKey);
      RenameStaysComplete(g, v, v', m, key, newKey);
  }

  // ----- Runs -----

  /** The map after a run. */
  function Meaning(m: map<Key, seq<byte>>, ops: seq<Op>): map<Key, seq<byte>>
    decreases |ops|
  {
    if ops == [] then m else Meaning(Apply(m, ops[0]), ops[1..])
  }

  predicate AllAllowed(m: map<Key, seq<byte>>, ops: seq<Op>)
    decreases |ops|
  {
    ops == [] || (Allowed(m, ops[0]) && AllAllowed(Apply(m, ops[0]), ops[1..]))
  }

  ghost predicate IsRun(g: DiskShape, trace: seq<Volume>, ops: seq<Op>)
    requires g.Basic()
  {
    |trace| == |ops| + 1 && forall k :: 0 <= k < |ops| ==> StepAt(g, trace, ops, k)
  }

  ghost predicate StepAt(g: DiskShape, trace: seq<Volume>, ops: seq<Op>, k: nat)
    requires g.Basic() && k < |ops| < |trace|
  {
    Step(g, trace[k], ops[k], trace[k + 1])
  }

  lemma RestIsRun(g: DiskShape, trace: seq<Volume>, ops: seq<Op>)
    requires g.Basic() && IsRun(g, trace, ops) && ops != []
    ensures Step(g, trace[0], ops[0], trace[1]) && IsRun(g, trace[1..], ops[1..])
  {
    hide Step;
    assert StepAt(g, trace, ops, 0);
    forall k | 0 <= k < |ops[1..]|
      ensures StepAt(g, trace[1..], ops[1..], k)
    {
      assert StepAt(g, trace, ops, k + 1);
    }
  }

  /**
   * Every run of creating, appending, unlinking and renaming leaves exactly the files, byte for byte, that the
   * same operations leave in a map; and the allocation invariant holds throughout.
   */
  lemma {:induction false} RunRefines(g: DiskShape, trace: seq<Volume>, m: map<Key, seq<byte>>, ops: seq<Op>)
    requires g.Valid() && IsRun(g, trace, ops) && AllAllowed(m, ops)
    requires VolumeOk(g, trace[0]) && Represents(g, trace[0], m)
    ensures Represents(g, trace[|ops|], Meaning(m, ops))
    ensures Complete(g, trace[0], m) ==> Complete(g, trace[|ops|], Meaning(m, ops))
    ensures forall k :: 0 <= k <= |ops| ==> VolumeOk(g, trace[k])
    decreases |ops|
  {
    hide DiskShape.Valid, VolumeOk, Represents, Step, Apply, Allowed;
    if ops != [] {
      RestIsRun(g, trace, ops);
      StepRefines(g, trace[0], trace[1], m, ops[0]);
      RunRefines(g, trace[1..], Apply(m, ops[0]), ops[1..]);
      forall k | 0 <= k <= |ops|
        ensures VolumeOk(g, trace[k])
      {
        if k > 0 {
          assert trace[k] == trace[1..][k - 1];
        }
      }
    }
  }

  /** A disk without live entries holds no files. */
  lemma EmptyVolume(g: DiskShape, v: Volume)
    requires g.Basic() && forall i :: 0 <= i < |v.dir| ==> !Live(g, v.dir[i])
    ensures Represents(g, v, map[]) && Complete(g, v, map[])
  {
    hide Phys, KeyOf, Live;
    forall key
      ensures Find(g, v.dir, key, 0, -1) < 0
    {
      var i := Find(g, v.dir, key, 0, -1);
    }
  }

  /** So a run that starts on a new disk leaves exactly the files that its operations leave in an empty map. */
  lemma RunFromEmpty(g: DiskShape, trace: seq<Volume>, ops: seq<Op>)
    requires g.Valid() && IsRun(g, trace, ops) && AllAllowed(map[], ops)
    requires VolumeOk(g, trace[0]) && forall i :: 0 <= i < |trace[0].dir| ==> !Live(g, trace[0].dir[i])
    ensures Represents(g, trace[|ops|], Meaning(map[], ops)) && Complete(g, trace[|ops|], Meaning(map[], ops))
  {
    hide DiskShape.Valid, VolumeOk, Represents, Complete, Step, AllAllowed, Meaning;
    EmptyVolume(g, trace[0]);
    RunRefines(g, trace, map[], ops);
  }

  /** Does the operation touch this file? */
  predicate Mentions(op: Op, key: Key) {
    op.key == key || (op.Rename? && op.newKey == key)
  }

  /** All entries and all bytes of the file are as before, in the same places. */
  ghost predicate Untouched(g: DiskShape, v: Volume, v': Volume, key: Key)
    requires g.Basic()
  {
    SameEntries(g, v.dir, v'.dir, key) && forall p: nat ::
        FileByte(g, v'.dir, v'.dev, key, p) == FileByte(g, v.dir, v.dev, key, p)
  }

  lemma StepIsolates(g: DiskShape, v: Volume, v': Volume, op: Op, key: Key)
    requires g.Valid() && VolumeOk(g, v) && Step(g, v, op, v') && !Mentions(op, key)
    ensures VolumeOk(g, v') && Untouched(g, v, v', key)
  {
    hide DiskShape.Valid, PointersDistinct, ExtentsDistinct, BitmapAgrees, OtherBytesKept, OwnersMoved, Unlinked,
         NewFileEntry, FileState, FileByte;
    var none: map<Key, seq<byte>> := map[];
    match op
    case Create(k) =>
      CreateRefines(g, v, v', none, k);
      SameDevice(g, v.dir, v.dev, k);
      OtherFilesRead(g, v.dir, v.dev, v'.dir, v'.dev, k, key);
    case Append(k, n, data) =>
      AppendRefines(g, v, v', none, k, n, data);
      OtherFilesRead(g, v.dir, v.dev, v'.dir, v'.dev, k, key);
    case Unlink(k) =>
      UnlinkRefines(g, v, v', none, k);
      SameDevice(g, v.dir, v.dev, k);
      OtherFilesRead(g, v.dir, v.dev, v'.dir, v'.dev, k, key);
    case Rename(k, newKey) =>
      RenameRefines(g, v, v', none, k, newKey);
      RenameUntouched(g, v, v', k, newKey, key);
  }

  lemma RenameUntouched(g: DiskShape, v: Volume, v': Volume, key: Key, newKey: Key, other: Key)
    requires g.Basic() && Step(g, v, Rename(key, newKey), v') && other != key && other != newKey
    ensures Untouched(g, v, v', other)
  {
    hide OwnersMoved, FileBlock, BlockByte;
    RenameLeavesOthers(g, v.dir, v'.dir, key, newKey, other);
    OtherBlocksKept(g, v.dir, v'.dir, other);
  }

  /**
   * A run leaves every file it does not mention alone, whatever it does to the others: no byte and no directory
   * entry of such a file changes. That holds for every volume that satisfies the invariant.
   */
  lemma {:induction false} RunIsolates(g: DiskShape, trace: seq<Volume>, ops: seq<Op>, key: Key)
    requires g.Valid() && IsRun(g, trace, ops) && VolumeOk(g, trace[0])
    requires forall k :: 0 <= k < |ops| ==> !Mentions(ops[k], key)
    ensures VolumeOk(g, trace[|ops|]) && Untouched(g, trace[0], trace[|ops|], key)
    decreases |ops|
  {
    hide DiskShape.Valid, VolumeOk, Step, FileByte, Owns, Mentions;
    if ops != [] {
      RestIsRun(g, trace, ops);
      assert forall k :: 0 <= k < |ops[1..]| ==> ops[1..][k] == ops[k + 1];
      StepIsolates(g, trace[0], trace[1], ops[0], key);
      RunIsolates(g, trace[1..], ops[1..], key);
      assert trace[1..][|ops[1..]|] == trace[|ops|];
    }
  }

  /** The blocks of an untouched file, and the size its last entry records, are as before. */
  lemma UntouchedState(g: DiskShape, v: Volume, v': Volume, key: Key, n: nat, nx: nat, r: nat)
    requires g.Basic() && Untouched(g, v, v', key) && FileState(g, v.dir, key, n, nx, r)
    ensures FileState(g, v'.dir, key, n, nx, r)
    ensures FileBytes(g, v'.dir, v'.dev, key, 0, n) == FileBytes(g, v.dir, v.dev, key, 0, n)
  {
    hide KeyOf, Ptr, Extent, BlockCount, Stamped, FileByte;
    OtherBlocksKept(g, v.dir, v'.dir, key);
    SameFinds(g, v.dir, v'.dir, key);
  }
}
