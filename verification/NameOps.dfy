/** What creating, unlinking and renaming do to the directory, as functions on the directory. */
module NameOps {
  import opened Geometry
  import opened AllocVector
  import opened Directory
  import opened DirectoryChanges
  import opened FileData
  import opened RecordedSize
  import opened Names

  /** A key that splitFilename can produce. */
  predicate KeyOk(g: DiskShape, key: Key) {
    && key.user <= g.MaxUser() && |key.name| == 8 && |key.ext| == 3
    && (forall i :: 0 <= i < 8 ==> key.name[i] < 128)
    && (forall i :: 0 <= i < 3 ==> key.ext[i] < 128)
  }

  lemma ParsedKeyOk(g: DiskShape, s: seq<byte>)
    ensures ParseName(g, s).Some? ==> KeyOk(g, ParseName(g, s).value)
  {
    if ParseName(g, s).Some? {
      ParsedBodyOk(s[2..]);
    }
  }

  lemma ParsedBodyOk(s: seq<byte>)
    ensures ParseBody(s).Some? ==>
              && |ParseBody(s).value.0| == 8 && |ParseBody(s).value.1| == 3
              && (forall i :: 0 <= i < 8 ==> ParseBody(s).value.0[i] < 128)
              && (forall i :: 0 <= i < 3 ==> ParseBody(s).value.1[i] < 128)
  {
    hide IsFileChar;
    FileCharsAreAscii();
    var k := NameEnd(s, 0);
    var t := Rest(s, k + 1);
    assert LegalChars(s, k, true) ==> forall i :: 0 <= i < 8 ==> Padded(s, k, 8)[i] < 128;
    assert LegalChars(t, ExtEnd(t, 0), false) ==> forall i :: 0 <= i < 3 ==> Padded(t, ExtEnd(t, 0), 3)[i] < 128;
  }

  lemma FileCharsAreAscii()
    ensures forall b: bool, c: byte :: IsFileChar(b, c) ==> c < 128
  {
  }

  // ----- Create -----

  function NewFileEntry(key: Key): Entry
    requires |key.name| == 8 && |key.ext| == 3
  {
    RawEntry(key.user, key.name, key.ext, 0, 0, 0, 0, seq<byte>(16, i => 0))
  }

  lemma NewFileEntryIs(g: DiskShape, key: Key)
    requires g.Basic() && KeyOk(g, key)
    ensures var e := NewFileEntry(key);
            && Owns(g, key, e) && Extent(e) == 0 && Phys(g, e) == 0 && e.blkcnt == 0
            && forall s: nat :: s < g.Slots() ==> Ptr(g, e, s) == 0
  {
    assert Strip(key.name) == key.name && Strip(key.ext) == key.ext;
  }

  /** Creating keeps the invariant, and the new file is empty. */
  lemma CreateKeeps(g: DiskShape, dir: seq<Entry>, alv: seq<word>, key: Key, i: nat)
    requires g.Valid() && Consistent(g, dir, alv) && KeyOk(g, key)
    requires i < |dir| && dir[i].status == ERASED && Find(g, dir, key, 0, -1) == -1
    ensures var dir' := dir[i := NewFileEntry(key)];
            && Consistent(g, dir', alv)
            && FileState(g, dir', key, 0, 1, 0)
            && Owns(g, key, dir'[i])
            && OtherEntriesKept(g, dir, dir', key)
  {
    hide DiskShape.Valid, DiskShape.DirBlocks, DiskShape.ExtCap, BitmapAgrees, PointersInRange, PointersDistinct,
         KeyOf, Ptr;
    var dir' := dir[i := NewFileEntry(key)];
    NewFileEntryIs(g, key);
    hide NewFileEntry;
    assert forall k :: 0 <= k < |dir| ==> !Matches(g, key, -1, dir[k]);
    assert Find(g, dir, key, 0, 0) == -1;
    AddExtent(g, dir, dir', alv, key, i, 0);
    BlockCountIs(g, 0, 0);
    FindUnique(g, dir', key, i);
  }

  // ----- Unlink -----

  function Erase(g: DiskShape, key: Key, e: Entry): Entry {
    if Owns(g, key, e) then e.(status := ERASED) else e
  }

  function Unlinked(g: DiskShape, dir: seq<Entry>, key: Key): (dir': seq<Entry>)
    ensures |dir'| == |dir| && forall i :: 0 <= i < |dir| ==> dir'[i] == Erase(g, key, dir[i])
  {
    seq<Entry>(|dir|, i requires 0 <= i < |dir| => Erase(g, key, dir[i]))
  }

  /** Unlinking keeps the invariant, leaves no trace of the file, and touches nothing else. */
  lemma UnlinkKeeps(g: DiskShape, dir: seq<Entry>, key: Key)
    requires g.Basic() && DirOk(g, dir)
    ensures var dir' := Unlinked(g, dir, key);
            && DirOk(g, dir')
            && OtherEntriesKept(g, dir, dir', key)
            && Find(g, dir', key, 0, -1) == -1
  {
    var dir' := Unlinked(g, dir, key);
    assert forall i :: 0 <= i < |dir| && Live(g, dir'[i]) ==> dir'[i] == dir[i] && !Owns(g, key, dir[i]);
    hide Erase, KeyOf, DiskShape.DirBlocks;
    assert PointersInRange(g, dir');
    assert ExtentsDistinct(g, dir');
    assert PointersDistinct(g, dir');
  }

  // ----- Rename -----

  /** memcpy7: new characters under the old attribute bits. */
  function Merge7(old7: seq<byte>, new7: seq<byte>): (r: seq<byte>)
    requires |old7| == |new7|
    ensures |r| == |old7|
  {
    seq<byte>(|old7|, i requires 0 <= i < |old7| => old7[i] / 128 * 128 + new7[i] % 128)
  }

  function Relabel(e: Entry, newKey: Key): Entry
    requires |newKey.name| == 8 && |newKey.ext| == 3
  {
    e.(status := newKey.user, name := Merge7(e.name, newKey.name), ext := Merge7(e.ext, newKey.ext))
  }

  lemma RelabelIs(g: DiskShape, e: Entry, newKey: Key)
    requires g.Basic() && KeyOk(g, newKey)
    ensures var e' := Relabel(e, newKey);
            && Owns(g, newKey, e') && Phys(g, e') == Phys(g, e) && Extent(e') == Extent(e)
            && e'.blkcnt == e.blkcnt && e'.lrc == e.lrc
            && forall s: nat :: s < g.Slots() ==> Ptr(g, e', s) == Ptr(g, e, s)
  {
    var e' := Relabel(e, newKey);
    Merge7Strip(e.name, newKey.name);
    Merge7Strip(e.ext, newKey.ext);
    assert e'.pointers == e.pointers;
  }

  lemma Merge7Strip(old7: seq<byte>, new7: seq<byte>)
    requires |old7| == |new7| && forall i :: 0 <= i < |new7| ==> new7[i] < 128
    ensures Strip(Merge7(old7, new7)) == new7
  {
  }

  function Renamed(g: DiskShape, dir: seq<Entry>, key: Key, newKey: Key): (dir': seq<Entry>)
    requires |newKey.name| == 8 && |newKey.ext| == 3
    ensures |dir'| == |dir|
    ensures forall i :: 0 <= i < |dir| ==> dir'[i] == if Owns(g, key, dir[i]) then Relabel(dir[i], newKey) else dir[i]
  {
    seq<Entry>(|dir|, i requires 0 <= i < |dir| => if Owns(g, key, dir[i]) then Relabel(dir[i], newKey) else dir[i])
  }

  /** What a rename does entry by entry: owners change their name and nothing else. */
  ghost predicate OwnersMoved(g: DiskShape, dir: seq<Entry>, dir': seq<Entry>, key: Key, newKey: Key)
    requires g.Basic()
  {
    && |dir'| == |dir|
    && (forall i :: 0 <= i < |dir| && !Owns(g, key, dir[i]) ==> dir'[i] == dir[i])
    && (forall i :: 0 <= i < |dir| && Owns(g, key, dir[i]) ==>
          && Owns(g, newKey, dir'[i]) && Phys(g, dir'[i]) == Phys(g, dir[i]) && Extent(dir'[i]) == Extent(dir[i])
          && dir'[i].blkcnt == dir[i].blkcnt && dir'[i].lrc == dir[i].lrc)
    && (forall i, s: nat :: 0 <= i < |dir| && Owns(g, key, dir[i]) && s < g.Slots() ==>
                            Ptr(g, dir'[i], s) == Ptr(g, dir[i], s))
    && (forall i :: 0 <= i < |dir| && Owns(g, key, dir[i]) ==> OnlyRelabelled(dir[i], dir'[i], newKey))
  }

  /**
   * The user number and the low seven bits of the name are new; attribute bits and all other bytes are the old ones.
   */
  ghost predicate OnlyRelabelled(e: Entry, e': Entry, newKey: Key) {
    && |newKey.name| == 8 && |newKey.ext| == 3 && e'.status == newKey.user
    && e'.extnol == e.extnol && e'.extnoh == e.extnoh && e'.blkcnt == e.blkcnt && e'.lrc == e.lrc
        && e'.pointers == e.pointers
    && (forall i :: 0 <= i < 8 ==> e'.name[i] % 128 == newKey.name[i] % 128 && e'.name[i] / 128 == e.name[i] / 128)
    && (forall i :: 0 <= i < 3 ==> e'.ext[i] % 128 == newKey.ext[i] % 128 && e'.ext[i] / 128 == e.ext[i] / 128)
  }

  lemma RelabelledOnly(e: Entry, newKey: Key)
    requires |newKey.name| == 8 && |newKey.ext| == 3
    ensures OnlyRelabelled(e, Relabel(e, newKey), newKey)
  {
  }

  lemma RenamedMoves(g: DiskShape, dir: seq<Entry>, key: Key, newKey: Key)
    requires g.Basic() && KeyOk(g, newKey)
    ensures OwnersMoved(g, dir, Renamed(g, dir, key, newKey), key, newKey)
  {
    forall i | 0 <= i < |dir|
      ensures Owns(g, key, dir[i]) ==>
                var e' := Relabel(dir[i], newKey);
                && Owns(g, newKey, e') && Phys(g, e') == Phys(g, dir[i]) && Extent(e') == Extent(dir[i])
                && e'.blkcnt == dir[i].blkcnt && e'.lrc == dir[i].lrc
                && OnlyRelabelled(dir[i], e', newKey)
                && forall s: nat :: s < g.Slots() ==> Ptr(g, e', s) == Ptr(g, dir[i], s)
    {
      RelabelIs(g, dir[i], newKey);
      RelabelledOnly(dir[i], newKey);
    }
    hide OnlyRelabelled, Relabel, KeyOf, Ptr, Extent, Phys;
  }

  /** Renaming keeps the invariant. */
  lemma RenameKeeps(g: DiskShape, dir: seq<Entry>, dir': seq<Entry>, alv: seq<word>, key: Key, newKey: Key)
    requires g.Basic() && Consistent(g, dir, alv) && newKey != key
    requires OwnersMoved(g, dir, dir', key, newKey) && Find(g, dir, newKey, 0, -1) == -1
    ensures Consistent(g, dir', alv)
  {
    hide KeyOf, Ptr, Extent, Phys, DiskShape.DirBlocks, OnlyRelabelled;
    SameSlots(g, dir, dir', key, newKey);
    assert PointersInRange(g, dir');
    MovedPointersDistinct(g, dir, dir', key, newKey);
    MovedExtentsDistinct(g, dir, dir', key, newKey);
    forall b: nat
      ensures Referenced(g, dir', b) <==> Referenced(g, dir, b)
    {
      MovedReferences(g, dir, dir', b);
    }
  }

  lemma SameSlots(g: DiskShape, dir: seq<Entry>, dir': seq<Entry>, key: Key, newKey: Key)
    requires g.Basic() && OwnersMoved(g, dir, dir', key, newKey)
    ensures forall i :: 0 <= i < |dir| ==> Live(g, dir'[i]) == Live(g, dir[i])
    ensures forall i, s: nat :: 0 <= i < |dir| && s < g.Slots() ==> Ptr(g, dir'[i], s) == Ptr(g, dir[i], s)
  {
    hide OnlyRelabelled;
  }

  lemma MovedPointersDistinct(g: DiskShape, dir: seq<Entry>, dir': seq<Entry>, key: Key, newKey: Key)
    requires g.Basic() && PointersDistinct(g, dir) && |dir'| == |dir|
    requires forall i :: 0 <= i < |dir| ==> Live(g, dir'[i]) == Live(g, dir[i])
    requires forall i, s: nat :: 0 <= i < |dir| && s < g.Slots() ==> Ptr(g, dir'[i], s) == Ptr(g, dir[i], s)
    ensures PointersDistinct(g, dir')
  {
    hide Ptr, Live;
  }

  lemma MovedReferences(g: DiskShape, dir: seq<Entry>, dir': seq<Entry>, b: nat)
    requires g.Basic() && |dir'| == |dir|
    requires forall i :: 0 <= i < |dir| ==> Live(g, dir'[i]) == Live(g, dir[i])
    requires forall i, s: nat :: 0 <= i < |dir| && s < g.Slots() ==> Ptr(g, dir'[i], s) == Ptr(g, dir[i], s)
    ensures Referenced(g, dir', b) <==> Referenced(g, dir, b)
  {
    hide Ptr, Live;
    if Referenced(g, dir, b) {
      var k, s: nat :| 0 <= k < |dir| && Live(g, dir[k]) && s < g.Slots() && Ptr(g, dir[k], s) == b && b != 0;
      assert Ptr(g, dir'[k], s) == b;
    }
  }

  lemma MovedExtentsDistinct(g: DiskShape, dir: seq<Entry>, dir': seq<Entry>, key: Key, newKey: Key)
    requires g.Basic() && ExtentsDistinct(g, dir)
    requires OwnersMoved(g, dir, dir', key, newKey) && Find(g, dir, newKey, 0, -1) == -1
    ensures ExtentsDistinct(g, dir')
  {
    hide KeyOf, Ptr, Extent, Phys;
    assert forall i :: 0 <= i < |dir| ==> !Matches(g, newKey, -1, dir[i]);
    assert forall i :: 0 <= i < |dir| ==> (Owns(g, newKey, dir'[i]) <==> Owns(g, key, dir[i]));
  }

  /** The file lives on under its new name: same blocks, same recorded size. */
  lemma RenameMovesFile(g: DiskShape, dir: seq<Entry>, dir': seq<Entry>, key: Key, newKey: Key)
    requires g.Basic() && newKey != key
    requires OwnersMoved(g, dir, dir', key, newKey) && Find(g, dir, newKey, 0, -1) == -1
    ensures forall q: nat :: FileBlock(g, dir', newKey, q) == FileBlock(g, dir, key, q)
    ensures forall n: nat, nx: nat, r: nat :: FileState(g, dir, key, n, nx, r) ==> FileState(g, dir', newKey, n, nx, r)
    ensures Find(g, dir', key, 0, -1) == -1
  {
    hide KeyOf, Ptr, Extent, Phys;
    assert forall i :: 0 <= i < |dir| ==> !Matches(g, newKey, -1, dir[i]);
    assert forall i :: 0 <= i < |dir| ==> (Owns(g, newKey, dir'[i]) <==> Owns(g, key, dir[i]));
    MovedFind(g, dir, dir', key, newKey);
    hide Find;
    forall n: nat, nx: nat, r: nat | FileState(g, dir, key, n, nx, r)
      ensures FileState(g, dir', newKey, n, nx, r)
    {
      MovedState(g, dir, dir', key, newKey, n, nx, r);
    }
  }

  lemma MovedFind(g: DiskShape, dir: seq<Entry>, dir': seq<Entry>, key: Key, newKey: Key)
    requires g.Basic() && OwnersMoved(g, dir, dir', key, newKey)
    requires forall i :: 0 <= i < |dir| ==> (Owns(g, newKey, dir'[i]) <==> Owns(g, key, dir[i]))
    ensures forall x: int :: Find(g, dir', newKey, 0, x) == Find(g, dir, key, 0, x)
  {
    hide KeyOf, Ptr, Extent, Phys;
    forall x: int
      ensures Find(g, dir', newKey, 0, x) == Find(g, dir, key, 0, x)
    {
      assert forall k :: 0 <= k < |dir| ==> Matches(g, newKey, x, dir'[k]) == Matches(g, key, x, dir[k]);
    }
  }

  lemma MovedState(g: DiskShape, dir: seq<Entry>, dir': seq<Entry>, key: Key, newKey: Key, n: nat, nx: nat, r: nat)
    requires g.Basic() && OwnersMoved(g, dir, dir', key, newKey) && FileState(g, dir, key, n, nx, r)
    requires forall i :: 0 <= i < |dir| ==> (Owns(g, newKey, dir'[i]) <==> Owns(g, key, dir[i]))
    requires forall x: int :: Find(g, dir', newKey, 0, x) == Find(g, dir, key, 0, x)
    ensures FileState(g, dir', newKey, n, nx, r)
  {
    hide KeyOf, Ptr, Extent, Phys, BlockCount;
  }

  /** All files but the two names involved keep their entries. */
  lemma RenameLeavesOthers(g: DiskShape, dir: seq<Entry>, dir': seq<Entry>, key: Key, newKey: Key, other: Key)
    requires g.Basic() && OwnersMoved(g, dir, dir', key, newKey) && other != key && other != newKey
    ensures SameEntries(g, dir, dir', other)
  {
  }
}
