/** Directory entries, the invariant that ties them to the allocation bitmap, and the extents of one file. */
module Directory {
  import opened Geometry
  import opened AllocVector

  const ERASED: byte := 0xe5

  datatype RawEntry = RawEntry(
    status: byte, name: seq<byte>, ext: seq<byte>,
    extnol: byte, lrc: byte, extnoh: byte, blkcnt: byte, pointers: seq<byte>)

  /** struct PhysDirectoryEntry */
  type Entry = e: RawEntry | |e.name| == 8 && |e.ext| == 3 && |e.pointers| == 16
    witness RawEntry(0, seq(8, _ => 0), seq(3, _ => 0), 0, 0, 0, 0, seq(16, _ => 0))

  /** What identifies a file: the user number and the name without its attribute bits. */
  datatype Key = Key(user: byte, name: seq<byte>, ext: seq<byte>)

  function Strip(s: seq<byte>): (r: seq<byte>)
    ensures |r| == |s| && forall i :: 0 <= i < |s| ==> r[i] == s[i] % 128
  {
    seq(|s|, i requires 0 <= i < |s| => s[i] % 128)
  }

  function KeyOf(e: Entry): Key {
    Key(e.status, Strip(e.name), Strip(e.ext))
  }

  predicate Live(g: DiskShape, e: Entry) {
    e.status <= g.MaxUser()
  }

  predicate Owns(g: DiskShape, key: Key, e: Entry) {
    Live(g, e) && KeyOf(e) == key
  }

  /** The logical extent number: five bits of extnol, six of extnoh. */
  function Extent(e: Entry): nat {
    e.extnol % 32 + e.extnoh % 64 * 32
  }

  /** The physical extent an entry describes. */
  function Phys(g: DiskShape, e: Entry): nat
    requires g.Basic()
  {
    Extent(e) / g.extents
  }

  /** Block pointer in slot `s`; zero means no block. */
  function Ptr(g: DiskShape, e: Entry, s: nat): nat
    requires s < g.Slots()
  {
    var lo: nat, hi: nat := e.pointers[if g.size < 256 then s else 2 * s],
        if g.size < 256 then 0 else e.pointers[2 * s + 1];
    lo + 256 * hi
  }

  function SetPtr(g: DiskShape, e: Entry, s: nat, b: nat): Entry
    requires s < g.Slots() && b < g.size <= 65536
  {
    if g.size < 256 then e.(pointers := e.pointers[s := b])
    else e.(pointers := e.pointers[2 * s := b % 256][2 * s + 1 := b / 256])
  }

  lemma SetPtrPtr(g: DiskShape, e: Entry, s: nat, b: nat)
    requires s < g.Slots() && b < g.size <= 65536
    ensures forall k: nat :: k < g.Slots() ==>
              Ptr(g, SetPtr(g, e, s, b), k) == if k == s then b else Ptr(g, e, k)
  {
  }

  // ----- The invariant -----

  ghost predicate PointersInRange(g: DiskShape, dir: seq<Entry>)
    requires g.Basic()
  {
    forall i, s: nat :: 0 <= i < |dir| && Live(g, dir[i]) && s < g.Slots() && Ptr(g, dir[i], s) != 0 ==>
      g.DirBlocks() <= Ptr(g, dir[i], s) < g.size
  }

  /** No block hangs off two pointer slots. */
  ghost predicate PointersDistinct(g: DiskShape, dir: seq<Entry>) {
    forall i, s: nat, k, t: nat ::
      && 0 <= i < |dir| && Live(g, dir[i]) && s < g.Slots() && Ptr(g, dir[i], s) != 0
      && 0 <= k < |dir| && Live(g, dir[k]) && t < g.Slots() && Ptr(g, dir[k], t) == Ptr(g, dir[i], s)
      ==> i == k && s == t
  }

  /** No physical extent of a file is described twice. */
  ghost predicate ExtentsDistinct(g: DiskShape, dir: seq<Entry>)
    requires g.Basic()
  {
    forall i, k ::
      && 0 <= i < |dir| && Live(g, dir[i])
      && 0 <= k < |dir| && Live(g, dir[k])
      && KeyOf(dir[i]) == KeyOf(dir[k]) && Phys(g, dir[i]) == Phys(g, dir[k])
      ==> i == k
  }

  ghost predicate Referenced(g: DiskShape, dir: seq<Entry>, b: nat) {
    exists i, s: nat :: 0 <= i < |dir| && Live(g, dir[i]) && s < g.Slots() && Ptr(g, dir[i], s) == b && b != 0
  }

  /** A block is marked exactly when it holds directory entries or a live entry points to it. */
  ghost predicate BitmapAgrees(g: DiskShape, dir: seq<Entry>, alv: seq<word>)
    requires g.Basic()
  {
    && g.size <= INTBITS * |alv| < g.size + INTBITS
    && forall b: nat :: b < INTBITS * |alv| ==>
         (InUse(alv, b) <==> b < g.size && (b < g.DirBlocks() || Referenced(g, dir, b)))
  }

  ghost predicate DirOk(g: DiskShape, dir: seq<Entry>)
    requires g.Basic()
  {
    && |dir| == g.maxdir
    && PointersInRange(g, dir)
    && PointersDistinct(g, dir)
    && ExtentsDistinct(g, dir)
  }

  ghost predicate Consistent(g: DiskShape, dir: seq<Entry>, alv: seq<word>)
    requires g.Basic()
  {
    DirOk(g, dir) && BitmapAgrees(g, dir, alv)
  }

  // ----- Finding extents -----

  /** Physical extent `x` of the file, or any extent when `x` is negative. */
  predicate Matches(g: DiskShape, key: Key, x: int, e: Entry)
    requires g.Basic()
  {
    Owns(g, key, e) && (x < 0 || Phys(g, e) == x)
  }

  /** The lowest matching directory index at or behind `start`, or -1. */
  function Find(g: DiskShape, dir: seq<Entry>, key: Key, start: nat, x: int): (r: int)
    requires g.Basic() && start <= |dir|
    ensures r == -1 || start <= r < |dir|
    ensures r >= 0 ==> Matches(g, key, x, dir[r])
    ensures forall i :: start <= i < (if r < 0 then |dir| else r) ==> !Matches(g, key, x, dir[i])
    decreases |dir| - start
  {
    if start == |dir| then -1
    else if Matches(g, key, x, dir[start]) then start
    else Find(g, dir, key, start + 1, x)
  }

  // ----- The blocks of one file -----

  /** Number of slot `s` of physical extent `x`, counting the slots of the whole file. */
  function SlotNumber(g: DiskShape, x: nat, s: nat): nat {
    if g.size < 256 then 16 * x + s else 8 * x + s
  }

  function SlotExtent(g: DiskShape, q: nat): nat {
    if g.size < 256 then q / 16 else q / 8
  }

  function SlotIndex(g: DiskShape, q: nat): (s: nat)
    ensures s < g.Slots()
    ensures SlotNumber(g, SlotExtent(g, q), s) == q
  {
    if g.size < 256 then q % 16 else q % 8
  }

  /** The block that holds the `q`-th block of the file; zero if there is none. */
  function FileBlock(g: DiskShape, dir: seq<Entry>, key: Key, q: nat): nat
    requires g.Basic()
  {
    var i := Find(g, dir, key, 0, SlotExtent(g, q));
    if i < 0 then 0 else Ptr(g, dir[i], SlotIndex(g, q))
  }

  /**
   * The file has exactly the extents 0..nx-1, and its first `nb` slots are the ones that hold blocks.
   * At most the last extent is without blocks.
   */
  ghost predicate FileShape(g: DiskShape, dir: seq<Entry>, key: Key, nx: nat, nb: nat)
    requires g.Basic()
  {
    && nx > 0 && SlotNumber(g, nx - 1, 0) <= nb <= SlotNumber(g, nx, 0)
    && (forall i :: 0 <= i < |dir| && Owns(g, key, dir[i]) ==> Phys(g, dir[i]) < nx)
    && (forall x: nat :: x < nx ==> Find(g, dir, key, 0, x) >= 0)
    && (forall i, s: nat :: 0 <= i < |dir| && Owns(g, key, dir[i]) && s < g.Slots() ==>
          (Ptr(g, dir[i], s) != 0 <==> SlotNumber(g, Phys(g, dir[i]), s) < nb))
  }

  /** Under the invariant an extent has only one place in the directory. */
  lemma FindUnique(g: DiskShape, dir: seq<Entry>, key: Key, i: nat)
    requires g.Basic() && ExtentsDistinct(g, dir) && i < |dir| && Owns(g, key, dir[i])
    ensures Find(g, dir, key, 0, Phys(g, dir[i])) == i
  {
  }
}
