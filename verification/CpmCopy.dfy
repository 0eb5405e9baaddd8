/** Copying whole files to and from a CP/M disk (cpmcp), and reading a file in arbitrary pieces. */
module CpmCopy {
  import opened Options
  import opened Arithmetic
  import opened Geometry
  import opened Directory
  import opened DirectoryChanges
  import opened FileData
  import opened RecordedSize
  import opened Names
  import opened NameOps
  import opened CpmFs
  import opened CpmFiles
  import opened CpmAppend
  import opened CpmNames
  import opened CpmRuns

  /** The file holds exactly these bytes, and its directory entries record exactly that size. */
  ghost predicate Holds(g: DiskShape, v: Volume, key: Key, data: seq<byte>)
    requires g.Basic()
  {
    && Stores(g, v, key, data)
    && exists nx: nat, r: nat :: FileState(g, v.dir, key, |data|, nx, r) && SizeIsExact(g, |data|, r)
  }

  // ----- Everything else stays -----

  /** No entry and no byte of any file but `key` has changed. */
  ghost predicate OthersUntouched(g: DiskShape, v: Volume, v': Volume, key: Key)
    requires g.Basic()
  {
    forall other :: other != key ==> Untouched(g, v, v', other)
  }

  lemma AppendUntouched(g: DiskShape, v: Volume, v': Volume, key: Key, n: nat, data: seq<byte>)
    requires g.Basic() && VolumeOk(g, v) && Appended(g, v.dir, v.dev, v'.dir, v'.dev, key, n, data)
    ensures OthersUntouched(g, v, v', key)
  {
    hide PointersDistinct, ExtentsDistinct, BitmapAgrees, OtherBytesKept, PointersInRange, DeviceOk, FileByte;
    forall other | other != key
      ensures Untouched(g, v, v', other)
    {
      OtherFilesRead(g, v.dir, v.dev, v'.dir, v'.dev, key, other);
    }
  }

  lemma CreateUntouched(g: DiskShape, v: Volume, v': Volume, key: Key)
    requires g.Valid() && VolumeOk(g, v) && Step(g, v, Create(key), v')
    ensures OthersUntouched(g, v, v', key)
  {
    hide DiskShape.Valid, VolumeOk, Step, Untouched;
    forall other | other != key
      ensures Untouched(g, v, v', other)
    {
      StepIsolates(g, v, v', Create(key), other);
    }
  }

  lemma UntouchedTransitive(g: DiskShape, v: Volume, v': Volume, v'': Volume, key: Key)
    requires g.Basic() && OthersUntouched(g, v, v', key) && OthersUntouched(g, v', v'', key)
    ensures OthersUntouched(g, v, v'', key)
  {
    hide FileByte, Owns;
    forall other | other != key
      ensures Untouched(g, v, v'', other)
    {
      assert Untouched(g, v, v', other) && Untouched(g, v', v'', other);
    }
  }

  lemma SameVolume(g: DiskShape, v: Volume, key: Key)
    requires g.Basic()
    ensures OthersUntouched(g, v, v, key)
  {
    hide FileByte, Owns;
  }

  // ----- Copying in -----

  /** The copying loop of cpmcp writes 2048 bytes at a time. */
  const CHUNK := 2048

  /** A chunk that starts at a multiple of its size stays within one 16K extent. */
  lemma ChunkRecordsExactSize(g: DiskShape, n0: nat, n1: nat)
    requires g.Valid() && n0 % CHUNK == 0 && n0 < n1 <= n0 + CHUNK
    ensures SizeIsExact(g, n1, RecordedExtent(g, n0, n1))
  {
    ExactSizeIff(g, n0, n1);
    hide DiskShape.Valid, RecordedExtent;
    DivSplit(n0, CHUNK, 8);
    DivSplit(n1 - 1, CHUNK, 8);
    DivRange(n1 - 1, CHUNK, n0 / CHUNK);
  }

  function ChunkSize(n: nat, done: nat): nat {
    if n < done then 0 else if n - done < CHUNK then n - done else CHUNK
  }

  /** The misplaced reads for the chunks of a file of `n` bytes stay in the buffer. */
  ghost predicate ChunksFit(g: DiskShape, n: nat)
    requires g.Basic()
  {
    forall done: nat :: done <= n && done % CHUNK == 0 ==> TailReadFits(g, done, ChunkSize(n, done))
  }

  /** They do on every disk with blocks of at most 8K, and with the usual sectors for files that large. */
  lemma ChunksFitMostly(g: DiskShape, n: nat)
    requires g.Valid() && (g.blksiz <= 8192 || (n <= 8192 && 8192 % g.secLength == 0))
    ensures ChunksFit(g, n)
  {
    hide DiskShape.Valid, LandingEnd, SectorIndex;
    forall done: nat | done <= n && done % CHUNK == 0
      ensures TailReadFits(g, done, ChunkSize(n, done))
    {
      if g.blksiz <= 8192 {
        SmallBlocksFit(g, done, ChunkSize(n, done));
      } else if TailRead(g, done, ChunkSize(n, done)) {
        EarlyLanding(g, done + ChunkSize(n, done) - 1);
      }
    }
  }

  lemma EarlyLanding(g: DiskShape, o: nat)
    requires g.Basic() && o < 8192 && 8192 % g.secLength == 0
    ensures LandingEnd(g, SectorIndex(g, o)) <= BUFFER
  {
    var n := 8192 / g.secLength;
    RowMajorSplit(o, n, g.secLength);
    SectorStartMono(g, SectorIndex(g, o) + 1, n);
    SectorStartNext(g, SectorIndex(g, o));
  }

  /** The first `done` bytes of the content have arrived. */
  ghost predicate Copied(inode: Inode, key: Key, content: seq<byte>, done: nat, r: nat)
    requires done <= |content|
    reads inode, inode.sb`dir, inode.sb`alv, inode.sb`dev
  {
    && inode.Valid() && Grown(inode, r) && inode.FileKey() == key && inode.size == done
    && inode.Bytes(0, done) == content[..done]
    && SizeIsExact(inode.sb.g, done, r)
  }

  lemma FileCreated(inode: Inode, key: Key, content: seq<byte>)
    requires inode.Valid() && Grown(inode, 0) && inode.FileKey() == key && inode.size == 0
    ensures Copied(inode, key, content, 0, 0)
  {
    hide DiskShape.Valid, DiskShape.DirBlocks, DiskShape.ExtCap, DeviceOk, Consistent, KeyOf, FileState;
    assert inode.Bytes(0, 0) == [];
  }

  lemma CopiedHolds(inode: Inode, key: Key, content: seq<byte>, r: nat)
    requires Copied(inode, key, content, |content|, r)
    ensures Holds(inode.sb.g, Vol(inode.sb), key, content)
  {
    hide DiskShape.Valid, DiskShape.DirBlocks, DiskShape.ExtCap, DeviceOk, Consistent, FileState, SizeIsExact;
    assert content[..|content|] == content;
    var nx: nat :| FileState(inode.sb.g, inode.sb.dir, key, inode.size, nx, r);
    OwnerFound(inode.sb.g, inode.sb.dir, key, inode.ino);
  }

  lemma OwnerFound(g: DiskShape, dir: seq<Entry>, key: Key, i: nat)
    requires g.Basic() && i < |dir| && Owns(g, key, dir[i])
    ensures Find(g, dir, key, 0, -1) >= 0
  {
    assert Matches(g, key, -1, dir[i]);
  }

  /** Writes the next chunk of the content. */
  method CopyChunk(file: OpenFile, ghost key: Key, content: seq<byte>, done: nat, j: nat, ghost r: nat)
    returns (ok: bool, ghost r': nat)
    requires done + j <= |content| <= MAXFILE && Copied(file.inode, key, content, done, r) && file.pos == done
    requires done % CHUNK == 0 && j <= CHUNK && TailReadFits(file.inode.sb.g, done, j)
    modifies file`pos, file.inode`size, file.inode.sb`dir, file.inode.sb`alv, file.inode.sb`dev
    ensures file.inode.sb.Valid() && OthersUntouched(file.inode.sb.g, old(Vol(file.inode.sb)), Vol(file.inode.sb), key)
    ensures ok ==> Copied(file.inode, key, content, done + j, r') && file.pos == done + j
    ensures !ok ==> DiskFull(file.inode.sb) || DirectoryFull(file.inode.sb)
  {
    hide DiskShape.Valid, DiskShape.DirBlocks, DiskShape.ExtCap, DeviceOk, Consistent, KeyOf, FileState, RecordedExtent;
    hide OtherEntriesKept, OtherBytesKept, KeysKept, DiskFull, DirectoryFull, SizeIsExact, FileByte, OthersUntouched;
    var got;
    ghost var v := Vol(file.inode.sb);
    got, r' := CpmWrite(file, content[done..done + j], r);
    AppendUntouched(file.inode.sb.g, v, Vol(file.inode.sb), key, done, content[done..done + j][..Max(got, 0)]);
    ok := got == j;
    if ok {
      assert content[done..done + j][..j] == content[done..done + j];
      assert content[..done] + content[done..done + j] == content[..done + j];
      if j > 0 {
        ChunkRecordsExactSize(file.inode.sb.g, done, done + j);
      }
    }
  }

  /** cpmcp from Unix to CP/M: creates the file and appends the content chunk by chunk. */
  method CopyIn(sb: SuperBlock, fname: seq<byte>, content: seq<byte>) returns (ok: bool)
    requires sb.Valid() && |content| <= MAXFILE && ChunksFit(sb.g, |content|)
    modifies sb`dir, sb`alv, sb`dev
    ensures sb.Valid()
    ensures ok ==> ParseName(sb.g, fname).Some? && Holds(sb.g, Vol(sb), ParseName(sb.g, fname).value, content)
    ensures forall key :: ParseName(sb.g, fname) == Some(key) ==> OthersUntouched(sb.g, old(Vol(sb)), Vol(sb), key)
    ensures !ok ==> || ParseName(sb.g, fname).None? || Find(sb.g, old(sb.dir), ParseName(sb.g, fname).value, 0, -1) >= 0
                    || DiskFull(sb) || DirectoryFull(sb)
  {
    hide DiskShape.Valid, DiskShape.DirBlocks, DiskShape.ExtCap, DeviceOk, Consistent, KeyOf, ParseName, NewFileEntry,
         Copied, Grown, Holds;
    hide TailReadFits;
    hide OtherEntriesKept, DiskFull, OthersUntouched, Step;
    ghost var v := Vol(sb);
    var created := CreateStep(sb, fname);
    if created.None? {
      forall key
        ensures OthersUntouched(sb.g, v, v, key)
      {
        SameVolume(sb.g, v, key);
      }
      return false;
    }
    var inode := created.value;
    var file := new OpenFile(inode);
    ghost var key := inode.FileKey();
    CreateUntouched(sb.g, v, Vol(sb), key);
    FileCreated(inode, key, content);
    var done := 0;
    ghost var r := 0;
    var eof := false;
    while !eof
      invariant sb.Valid() && done <= |content| && (if eof then done == |content| else done % CHUNK == 0)
      invariant Copied(inode, key, content, done, r) && file.pos == done
      invariant OthersUntouched(sb.g, v, Vol(sb), key)
      decreases |content| - done, !eof
    {
      ghost var v' := Vol(sb);
      var j := ChunkSize(|content|, done);
      eof := j < CHUNK;
      ok, r := CopyChunk(file, key, content, done, j, r);
      UntouchedTransitive(sb.g, v, v', Vol(sb), key);
      if !ok {
        return false;
      }
      done := done + j;
    }
    CopiedHolds(inode, key, content, r);
    return true;
  }

  /** A file that was copied in is found with its exact size. */
  lemma HoldsSize(g: DiskShape, v: Volume, key: Key, data: seq<byte>, h: nat)
    requires g.Valid() && VolumeOk(g, v) && Holds(g, v, key, data) && IsHighest(g, v.dir, key, h)
    ensures RecordedBytes(g, v.dir[h]) == |data|
  {
    hide DiskShape.Valid, DeviceOk, BitmapAgrees, PointersDistinct, PointersInRange, FileState, SizeIsExact,
         IsHighest, RecordedBytes, Stores;
    var nx: nat, r: nat :| FileState(g, v.dir, key, |data|, nx, r) && SizeIsExact(g, |data|, r);
    LookupSize(g, v.dir, key, |data|, nx, r, h);
  }

  /** cpmcp from CP/M to Unix in binary mode: reads 4096 bytes at a time until nothing more comes. */
  method CopyOut(sb: SuperBlock, fname: seq<byte>) returns (r: Option<seq<byte>>)
    requires sb.Valid()
    ensures r.None? <==> ParseName(sb.g, fname).None? || Find(sb.g, sb.dir, ParseName(sb.g, fname).value, 0, -1) == -1
    ensures r.Some? ==> forall data :: Holds(sb.g, Vol(sb), ParseName(sb.g, fname).value, data) ==> r.value == data
  {
    hide DiskShape.Valid, DiskShape.DirBlocks, DiskShape.ExtCap, DeviceOk, Consistent, KeyOf, ParseName, Holds,
         RecordedBytes, IsHighest, IsLowest;
    var found, h := CpmNamei(sb, fname);
    if found.None? {
      return None;
    }
    var inode := found.value;
    var file := new OpenFile(inode);
    ghost var ino, size := inode.ino, inode.size;
    var content: seq<byte> := [];
    var res, data := CpmRead(file, 4096);
    while res > 0
      invariant inode.Valid() && inode.ino == ino && inode.size == size
      invariant file.pos <= size && res == |data|
      invariant content + data == inode.Bytes(0, file.pos)
      invariant res == 0 ==> file.pos == size
      decreases size - file.pos, res
    {
      content := content + data;
      res, data := CpmRead(file, 4096);
    }
    assert content == content + data;
    WholeContent(inode, h, content);
    return Some(content);
  }

  lemma WholeContent(inode: Inode, h: int, content: seq<byte>)
    requires inode.Valid() && content == inode.Bytes(0, inode.size)
    requires IsHighest(inode.sb.g, inode.sb.dir, inode.FileKey(), h)
             && inode.size == RecordedBytes(inode.sb.g, inode.sb.dir[h])
    ensures forall data :: Holds(inode.sb.g, Vol(inode.sb), inode.FileKey(), data) ==> content == data
  {
    hide DiskShape.Valid, DiskShape.DirBlocks, DiskShape.ExtCap, DeviceOk, Consistent, RecordedBytes, KeyOf, FileState;
    forall data | Holds(inode.sb.g, Vol(inode.sb), inode.FileKey(), data)
      ensures content == data
    {
      HoldsSize(inode.sb.g, Vol(inode.sb), inode.FileKey(), data, h);
    }
  }

  // ----- Any split into appends, any split into reads -----

  function Flatten(pieces: seq<seq<byte>>): seq<byte> {
    if pieces == [] then [] else Flatten(pieces[..|pieces| - 1]) + pieces[|pieces| - 1]
  }

  function Total(limits: seq<nat>): nat {
    if limits == [] then 0 else Total(limits[..|limits| - 1]) + limits[|limits| - 1]
  }

  lemma {:induction false} FlattenPrefix(pieces: seq<seq<byte>>, k: nat)
    requires k <= |pieces|
    ensures Flatten(pieces[..k]) <= Flatten(pieces)
    decreases |pieces|
  {
    if k < |pieces| {
      FlattenPrefix(pieces[..|pieces| - 1], k);
      assert pieces[..|pieces| - 1][..k] == pieces[..k];
    } else {
      assert pieces[..k] == pieces;
    }
  }

  lemma FlattenStep(pieces: seq<seq<byte>>, k: nat)
    requires k < |pieces|
    ensures Flatten(pieces[..k + 1]) == Flatten(pieces[..k]) + pieces[k]
    ensures |Flatten(pieces[..k + 1])| <= |Flatten(pieces)|
  {
    assert pieces[..k + 1][..k] == pieces[..k];
    FlattenPrefix(pieces, k + 1);
  }

  /** The misplaced reads for appending these pieces stay in the buffer. */
  ghost predicate PiecesFit(g: DiskShape, pieces: seq<seq<byte>>)
    requires g.Basic()
  {
    forall k :: 0 <= k < |pieces| ==> TailReadFits(g, |Flatten(pieces[..k])|, |pieces[k]|)
  }

  lemma PiecesFitSmallBlocks(g: DiskShape, pieces: seq<seq<byte>>)
    requires g.Valid() && g.blksiz <= 8192
    ensures PiecesFit(g, pieces)
  {
    hide DiskShape.Valid, TailReadFits, Flatten;
    forall k | 0 <= k < |pieces|
      ensures TailReadFits(g, |Flatten(pieces[..k])|, |pieces[k]|)
    {
      SmallBlocksFit(g, |Flatten(pieces[..k])|, |pieces[k]|);
    }
  }

  /** One append to a file that already holds `have`. */
  method AppendPiece(file: OpenFile, ghost key: Key, ghost have: seq<byte>, piece: seq<byte>, ghost r: nat)
    returns (ok: bool, ghost r': nat)
    requires file.inode.Valid() && Grown(file.inode, r) && file.inode.FileKey() == key
    requires file.pos == file.inode.size == |have| && |have| + |piece| <= MAXFILE
             && TailReadFits(file.inode.sb.g, |have|, |piece|)
    requires file.inode.Bytes(0, |have|) == have
    modifies file`pos, file.inode`size, file.inode.sb`dir, file.inode.sb`alv, file.inode.sb`dev
    ensures file.inode.Valid() && Grown(file.inode, r') && file.inode.FileKey() == key
    ensures OthersUntouched(file.inode.sb.g, old(Vol(file.inode.sb)), Vol(file.inode.sb), key)
    ensures ok ==> file.pos == file.inode.size == |have + piece| && file.inode.Bytes(0, |have + piece|) == have + piece
    ensures !ok ==> DiskFull(file.inode.sb) || DirectoryFull(file.inode.sb)
  {
    hide DiskShape.Valid, DiskShape.DirBlocks, DiskShape.ExtCap, DeviceOk, Consistent, KeyOf, FileState,
         RecordedExtent, Grown;
    hide OtherEntriesKept, OtherBytesKept, KeysKept, DiskFull, DirectoryFull, FileByte, OthersUntouched;
    var got;
    ghost var v := Vol(file.inode.sb);
    got, r' := CpmWrite(file, piece, r);
    AppendUntouched(file.inode.sb.g, v, Vol(file.inode.sb), key, |have|, piece[..Max(got, 0)]);
    ok := got == |piece|;
    assert piece[..|piece|] == piece;
  }

  /** Reads until `limits` is used up, each time at most the next limit. */
  method ReadPieces(file: OpenFile, limits: seq<nat>) returns (data: seq<byte>)
    requires file.inode.Valid() && file.pos == 0
    modifies file`pos
    ensures data == file.inode.Bytes(0, |data|) && |data| == Min(Total(limits), file.inode.size)
  {
    hide DiskShape.Valid, DiskShape.DirBlocks, DiskShape.ExtCap, DeviceOk, Consistent, KeyOf, FileByte;
    data := [];
    var k := 0;
    while k < |limits|
      invariant k <= |limits| && file.pos == |data| == Min(Total(limits[..k]), file.inode.size)
      invariant data == file.inode.Bytes(0, |data|)
    {
      assert limits[..k + 1][..k] == limits[..k];
      var got, piece := CpmRead(file, limits[k]);
      data := data + piece;
      k := k + 1;
    }
    assert limits[..k] == limits;
  }

  /**
   * The round trip: a new file is appended to in any pieces and read back from the start in any pieces. If the disk
   * does not fill up, the bytes read are the bytes written, as far as the reads reach.
   */
  method AppendThenRead(sb: SuperBlock, fname: seq<byte>, pieces: seq<seq<byte>>, limits: seq<nat>)
    returns (r: Option<seq<byte>>)
    requires sb.Valid() && |Flatten(pieces)| <= MAXFILE && PiecesFit(sb.g, pieces)
    modifies sb`dir, sb`alv, sb`dev
    ensures sb.Valid()
    ensures r.Some? ==> r.value == Flatten(pieces)[..Min(Total(limits), |Flatten(pieces)|)]
    ensures forall key :: ParseName(sb.g, fname) == Some(key) ==> OthersUntouched(sb.g, old(Vol(sb)), Vol(sb), key)
    ensures r.None? ==> || ParseName(sb.g, fname).None?
                        || Find(sb.g, old(sb.dir), ParseName(sb.g, fname).value, 0, -1) >= 0
                        || DiskFull(sb) || DirectoryFull(sb)
  {
    hide DiskShape.Valid, DiskShape.DirBlocks, DiskShape.ExtCap, DeviceOk, Consistent, KeyOf, ParseName, NewFileEntry,
         Grown, Flatten, Total;
    hide OtherEntriesKept, DiskFull, FileByte, OthersUntouched, Step, TailReadFits;
    ghost var v := Vol(sb);
    var created := CreateStep(sb, fname);
    if created.None? {
      forall key
        ensures OthersUntouched(sb.g, v, v, key)
      {
        SameVolume(sb.g, v, key);
      }
      return None;
    }
    var inode := created.value;
    var file := new OpenFile(inode);
    ghost var key, last := inode.FileKey(), 0;
    CreateUntouched(sb.g, v, Vol(sb), key);
    EmptyFlatten(pieces);
    assert inode.Bytes(0, 0) == [];
    var k := 0;
    while k < |pieces|
      invariant k <= |pieces| && inode.Valid() && Grown(inode, last) && inode.FileKey() == key
      invariant file.pos == inode.size == |Flatten(pieces[..k])|
      invariant inode.Bytes(0, |Flatten(pieces[..k])|) == Flatten(pieces[..k])
      invariant OthersUntouched(sb.g, v, Vol(sb), key)
    {
      ghost var v' := Vol(sb);
      FlattenStep(pieces, k);
      var ok;
      ok, last := AppendPiece(file, key, Flatten(pieces[..k]), pieces[k], last);
      UntouchedTransitive(sb.g, v, v', Vol(sb), key);
      if !ok {
        return None;
      }
      k := k + 1;
    }
    assert pieces[..k] == pieces;
    ghost var all := Flatten(pieces);
    var again := new OpenFile(inode);
    var data := ReadPieces(again, limits);
    assert inode.Bytes(0, |data|) == inode.Bytes(0, |all|)[..|data|];
    return Some(data);
  }

  lemma EmptyFlatten(pieces: seq<seq<byte>>)
    ensures Flatten(pieces[..0]) == []
  {
  }
}
