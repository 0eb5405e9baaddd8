/** How each change a write makes to the directory keeps the invariant and the shape of the file. */
module DirectoryChanges {
  import opened Geometry
  import opened AllocVector
  import opened Directory

  /** Entry `i` is still the same extent of the same file; only its slots may differ, and only at `s`. */
  ghost predicate OnlySlotChanged(g: DiskShape, dir: seq<Entry>, dir': seq<Entry>, i: nat, s: nat, b: nat)
    requires g.Basic()
  {
    && i < |dir| == |dir'| && s < g.Slots()
    && (forall k :: 0 <= k < |dir| && k != i ==> dir'[k] == dir[k])
    && Live(g, dir[i]) && Live(g, dir'[i])
    && KeyOf(dir'[i]) == KeyOf(dir[i])
    && Phys(g, dir'[i]) == Phys(g, dir[i])
    && (forall t: nat :: t < g.Slots() ==> Ptr(g, dir'[i], t) == if t == s then b else Ptr(g, dir[i], t))
  }

  /** Hanging a free block on an empty slot. */
  lemma AddPointer(g: DiskShape, dir: seq<Entry>, dir': seq<Entry>, alv: seq<word>, i: nat, s: nat, b: nat)
    requires g.Basic() && Consistent(g, dir, alv)
    requires OnlySlotChanged(g, dir, dir', i, s, b) && Ptr(g, dir[i], s) == 0
    requires g.DirBlocks() <= b < g.size && b != 0 && !InUse(alv, b)
    ensures Consistent(g, dir', Mark(alv, b))
  {
    AddPointerDirOk(g, dir, dir', alv, i, s, b);
    AddPointerBitmap(g, dir, dir', alv, i, s, b);
  }

  lemma AddPointerDirOk(g: DiskShape, dir: seq<Entry>, dir': seq<Entry>, alv: seq<word>, i: nat, s: nat, b: nat)
    requires g.Basic() && Consistent(g, dir, alv)
    requires OnlySlotChanged(g, dir, dir', i, s, b) && Ptr(g, dir[i], s) == 0
    requires g.DirBlocks() <= b < g.size && b != 0 && !InUse(alv, b)
    ensures DirOk(g, dir')
  {
    assert !Referenced(g, dir, b);
    assert PointersInRange(g, dir');
    assert ExtentsDistinct(g, dir');
    assert PointersDistinct(g, dir');
  }

  lemma AddPointerBitmap(g: DiskShape, dir: seq<Entry>, dir': seq<Entry>, alv: seq<word>, i: nat, s: nat, b: nat)
    requires g.Basic() && BitmapAgrees(g, dir, alv)
    requires OnlySlotChanged(g, dir, dir', i, s, b) && Ptr(g, dir[i], s) == 0
    requires b < g.size && b != 0
    ensures BitmapAgrees(g, dir', Mark(alv, b))
  {
    MarkOne(alv, b);
    forall c: nat
      ensures Referenced(g, dir', c) <==> Referenced(g, dir, c) || c == b
    {
      if Referenced(g, dir, c) {
        var k, t: nat :| 0 <= k < |dir| && Live(g, dir[k]) && t < g.Slots() && Ptr(g, dir[k], t) == c && c != 0;
        assert Ptr(g, dir'[k], t) == c;
      }
      if c == b {
        assert Ptr(g, dir'[i], s) == b;
      }
    }
  }

  /** Rewriting extent number, record count and last record count within the same physical extent. */
  lemma KeepPointers(g: DiskShape, dir: seq<Entry>, dir': seq<Entry>, alv: seq<word>, i: nat)
    requires g.Basic() && Consistent(g, dir, alv) && i < |dir|
    requires OnlySlotChanged(g, dir, dir', i, 0, Ptr(g, dir[i], 0))
    ensures Consistent(g, dir', alv)
  {
    assert PointersInRange(g, dir');
    assert ExtentsDistinct(g, dir');
    KeepPointersDistinct(g, dir, dir', i);
    forall c: nat
      ensures Referenced(g, dir', c) <==> Referenced(g, dir, c)
    {
      KeepReferences(g, dir, dir', i, c);
    }
  }

  lemma KeepPointersDistinct(g: DiskShape, dir: seq<Entry>, dir': seq<Entry>, i: nat)
    requires g.Basic() && PointersDistinct(g, dir) && i < |dir|
    requires OnlySlotChanged(g, dir, dir', i, 0, Ptr(g, dir[i], 0))
    ensures PointersDistinct(g, dir')
  {
  }

  lemma KeepReferences(g: DiskShape, dir: seq<Entry>, dir': seq<Entry>, i: nat, c: nat)
    requires g.Basic() && i < |dir|
    requires OnlySlotChanged(g, dir, dir', i, 0, Ptr(g, dir[i], 0))
    ensures Referenced(g, dir', c) <==> Referenced(g, dir, c)
  {
    if Referenced(g, dir, c) {
      var k, t: nat :| 0 <= k < |dir| && Live(g, dir[k]) && t < g.Slots() && Ptr(g, dir[k], t) == c && c != 0;
      assert Ptr(g, dir'[k], t) == c;
    }
  }

  /** Entry `i` was unused and now is extent `x` of the file `key`, with no blocks. */
  ghost predicate ExtentAdded(g: DiskShape, dir: seq<Entry>, dir': seq<Entry>, key: Key, i: nat, x: nat)
    requires g.Basic()
  {
    && i < |dir| == |dir'|
    && (forall k :: 0 <= k < |dir| && k != i ==> dir'[k] == dir[k])
    && !Live(g, dir[i])
    && Matches(g, key, x, dir'[i])
    && (forall t: nat :: t < g.Slots() ==> Ptr(g, dir'[i], t) == 0)
  }

  /** Adding an extent the file does not have yet. */
  lemma AddExtent(g: DiskShape, dir: seq<Entry>, dir': seq<Entry>, alv: seq<word>, key: Key, i: nat, x: nat)
    requires g.Basic() && Consistent(g, dir, alv)
    requires ExtentAdded(g, dir, dir', key, i, x)
    requires Find(g, dir, key, 0, x) == -1
    ensures Consistent(g, dir', alv)
  {
    assert PointersInRange(g, dir');
    assert PointersDistinct(g, dir');
    assert ExtentsDistinct(g, dir') by {
      forall k, m | 0 <= k < |dir'| && Live(g, dir'[k]) && 0 <= m < |dir'| && Live(g, dir'[m])
                    && KeyOf(dir'[k]) == KeyOf(dir'[m]) && Phys(g, dir'[k]) == Phys(g, dir'[m])
        ensures k == m
      {
        if k != i && m == i {
          assert Matches(g, key, x, dir[k]);
        } else if m != i && k == i {
          assert Matches(g, key, x, dir[m]);
        }
      }
    }
    forall c: nat
      ensures Referenced(g, dir', c) <==> Referenced(g, dir, c)
    {
      if Referenced(g, dir, c) {
        var k, t: nat :| 0 <= k < |dir| && Live(g, dir[k]) && t < g.Slots() && Ptr(g, dir[k], t) == c && c != 0;
        assert Ptr(g, dir'[k], t) == c;
      }
    }
  }

  // ----- Effect on the file that is written -----

  lemma AddPointerShape(g: DiskShape, dir: seq<Entry>, dir': seq<Entry>, key: Key, nx: nat, nb: nat, i: nat, s: nat,
                        b: nat)
    requires g.Basic() && DirOk(g, dir) && FileShape(g, dir, key, nx, nb)
    requires OnlySlotChanged(g, dir, dir', i, s, b) && Owns(g, key, dir[i]) && b != 0
    requires SlotNumber(g, Phys(g, dir[i]), s) == nb
    ensures FileShape(g, dir', key, nx, nb + 1)
    ensures forall q: nat :: FileBlock(g, dir', key, q) == if q == nb then b else FileBlock(g, dir, key, q)
  {
    SameMatches(g, dir, dir', i);
    forall k, t: nat | 0 <= k < |dir'| && Owns(g, key, dir'[k]) && t < g.Slots()
      ensures Ptr(g, dir'[k], t) != 0 <==> SlotNumber(g, Phys(g, dir'[k]), t) < nb + 1
    {
      if SlotNumber(g, Phys(g, dir'[k]), t) == nb {
        assert Phys(g, dir'[k]) == Phys(g, dir[i]) && t == s;
        assert k == i;
      }
    }
    forall q: nat
      ensures FileBlock(g, dir', key, q) == if q == nb then b else FileBlock(g, dir, key, q)
    {
      var x := SlotExtent(g, q);
      assert Find(g, dir', key, 0, x) == Find(g, dir, key, 0, x);
      if q == nb {
        FindUnique(g, dir, key, i);
      }
    }
  }

  lemma SameMatches(g: DiskShape, dir: seq<Entry>, dir': seq<Entry>, i: nat)
    requires g.Basic() && i < |dir| == |dir'|
    requires forall k :: 0 <= k < |dir| && k != i ==> dir'[k] == dir[k]
    requires Live(g, dir[i]) && Live(g, dir'[i])
    requires KeyOf(dir'[i]) == KeyOf(dir[i]) && Phys(g, dir'[i]) == Phys(g, dir[i])
    ensures forall key: Key, x: int :: Find(g, dir', key, 0, x) == Find(g, dir, key, 0, x)
  {
    forall key: Key, x: int
      ensures Find(g, dir', key, 0, x) == Find(g, dir, key, 0, x)
    {
      assert forall k :: 0 <= k < |dir| ==> Matches(g, key, x, dir'[k]) == Matches(g, key, x, dir[k]);
    }
  }

  lemma KeepPointersShape(g: DiskShape, dir: seq<Entry>, dir': seq<Entry>, key: Key, nx: nat, nb: nat, i: nat)
    requires g.Basic() && FileShape(g, dir, key, nx, nb) && i < |dir|
    requires OnlySlotChanged(g, dir, dir', i, 0, Ptr(g, dir[i], 0))
    ensures FileShape(g, dir', key, nx, nb)
    ensures forall k: Key, q: nat :: FileBlock(g, dir', k, q) == FileBlock(g, dir, k, q)
  {
    SameMatches(g, dir, dir', i);
  }

  lemma AddExtentShape(g: DiskShape, dir: seq<Entry>, dir': seq<Entry>, key: Key, nx: nat, nb: nat, i: nat)
    requires g.Basic() && FileShape(g, dir, key, nx, nb)
    requires ExtentAdded(g, dir, dir', key, i, nx)
    requires nb == SlotNumber(g, nx, 0)
    ensures FileShape(g, dir', key, nx + 1, nb)
    ensures forall q: nat :: FileBlock(g, dir', key, q) == FileBlock(g, dir, key, q)
  {
    forall x: nat
      ensures x != nx ==> Find(g, dir', key, 0, x) == Find(g, dir, key, 0, x)
      ensures x == nx ==> Find(g, dir', key, 0, x) == i && Find(g, dir, key, 0, x) == -1
    {
      assert forall k :: 0 <= k < |dir| ==>
                         Matches(g, key, x, dir'[k]) == (Matches(g, key, x, dir[k]) || (k == i && x == nx));
      if x == nx {
        assert forall k :: 0 <= k < |dir| ==> !Matches(g, key, x, dir[k]);
      }
    }
  }

  // ----- Effect on every other file -----

  /** The owners of `other` are the same entries, untouched. */
  ghost predicate SameEntries(g: DiskShape, dir: seq<Entry>, dir': seq<Entry>, other: Key) {
    && |dir'| == |dir|
    && (forall k :: 0 <= k < |dir| ==> Owns(g, other, dir'[k]) == Owns(g, other, dir[k]))
    && (forall k :: 0 <= k < |dir| && Owns(g, other, dir[k]) ==> dir'[k] == dir[k])
  }

  lemma OtherBlocksKept(g: DiskShape, dir: seq<Entry>, dir': seq<Entry>, other: Key)
    requires g.Basic() && SameEntries(g, dir, dir', other)
    ensures forall q: nat :: FileBlock(g, dir', other, q) == FileBlock(g, dir, other, q)
    ensures forall nx: nat, nb: nat :: FileShape(g, dir, other, nx, nb) ==> FileShape(g, dir', other, nx, nb)
  {
    forall x: int
      ensures Find(g, dir', other, 0, x) == Find(g, dir, other, 0, x)
    {
      assert forall k :: 0 <= k < |dir| ==> Matches(g, other, x, dir'[k]) == Matches(g, other, x, dir[k]);
    }
  }

  // ----- Isolation -----

  /** A block that a live entry of some other file points to. */
  ghost predicate ForeignBlock(g: DiskShape, dir: seq<Entry>, key: Key, b: nat) {
    exists i, s: nat ::
      0 <= i < |dir| && Live(g, dir[i]) && KeyOf(dir[i]) != key && s < g.Slots() && Ptr(g, dir[i], s) == b && b != 0
  }

  /** The live entries of all files but `key` are the same, and sit in the same places. */
  ghost predicate OtherEntriesKept(g: DiskShape, dir: seq<Entry>, dir': seq<Entry>, key: Key) {
    && |dir'| == |dir|
    && (forall k :: 0 <= k < |dir| && Live(g, dir[k]) && KeyOf(dir[k]) != key ==> dir'[k] == dir[k])
    && (forall k :: 0 <= k < |dir| && Live(g, dir'[k]) && KeyOf(dir'[k]) != key ==> dir[k] == dir'[k])
  }

  /** Boot tracks, directory blocks and the blocks of all files but `key` are the same. */
  ghost predicate OtherBytesKept(g: DiskShape, dir: seq<Entry>, dev: seq<Sector>, dev': seq<Sector>, key: Key)
    requires g.Basic()
  {
    && DeviceOk(g, dev) && DeviceOk(g, dev')
    && (forall t :: 0 <= t < g.boottrk * g.sectrk && t < |dev| ==> dev'[t] == dev[t])
    && (forall b: nat, o: nat :: b < g.size && o < g.blksiz && (b < g.DirBlocks() || ForeignBlock(g, dir, key, b)) ==>
          BlockByte(g, dev', b, o) == BlockByte(g, dev, b, o))
  }

  lemma OthersKeptTransitive(g: DiskShape, dir: seq<Entry>, dev: seq<Sector>, dir': seq<Entry>, dev': seq<Sector>,
                             dir'': seq<Entry>, dev'': seq<Sector>, key: Key)
    requires g.Basic()
    requires OtherEntriesKept(g, dir, dir', key) && OtherBytesKept(g, dir, dev, dev', key)
    requires OtherEntriesKept(g, dir', dir'', key) && OtherBytesKept(g, dir', dev', dev'', key)
    ensures OtherEntriesKept(g, dir, dir'', key) && OtherBytesKept(g, dir, dev, dev'', key)
  {
    hide DiskShape.DirBlocks, Ptr;
    forall b: nat, o: nat | b < g.size && o < g.blksiz && (b < g.DirBlocks() || ForeignBlock(g, dir, key, b))
      ensures BlockByte(g, dev'', b, o) == BlockByte(g, dev, b, o)
    {
      if b >= g.DirBlocks() {
        var i, s: nat :| 0 <= i < |dir| && Live(g, dir[i]) && KeyOf(dir[i]) != key && s < g.Slots()
            && Ptr(g, dir[i], s) == b && b != 0;
        assert Ptr(g, dir'[i], s) == b;
        assert ForeignBlock(g, dir', key, b);
      }
    }
  }
}
