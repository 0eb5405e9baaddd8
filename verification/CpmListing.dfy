/** Listing the directory (cpmReaddir): every file once, under a name that finds it again. */
module CpmListing {
  import opened Options
  import opened Geometry
  import opened Directory
  import opened Names
  import opened CpmFs
  import opened CpmNames

  /** "." and "..", then room for "[passwd]" and "[label]", then one position per directory entry. */
  const RESERVED_ENTRIES := 4
  const RESERVED_INODES := 3

  datatype Dirent = Dirent(ino: nat, name: seq<byte>)

  /** Entry `i` is listed: it is live and no entry of the same file has a lower extent number. */
  predicate Listed(g: DiskShape, dir: seq<Entry>, i: nat)
    requires i < |dir|
  {
    && Live(g, dir[i])
    && forall k :: 0 <= k < |dir| && KeyOf(dir[k]) == KeyOf(dir[i]) ==> Extent(dir[i]) <= Extent(dir[k])
  }

  function DirentAt(g: DiskShape, dir: seq<Entry>, i: nat): Dirent
    requires i < |dir| && Live(g, dir[i])
  {
    Dirent(i + RESERVED_ENTRIES - RESERVED_INODES, FormatName(KeyOf(dir[i])))
  }

  /** Everything the entries from `i` on contribute to the listing. */
  function ListingFrom(g: DiskShape, dir: seq<Entry>, i: nat): seq<Dirent>
    requires i <= |dir|
    decreases |dir| - i
  {
    if i == |dir| then []
    else (if Listed(g, dir, i) then [DirentAt(g, dir, i)] else []) + ListingFrom(g, dir, i + 1)
  }

  /** Is there no entry of the same file with a lower extent number? */
  method IsFirstExtent(sb: SuperBlock, i: nat) returns (b: bool)
    requires i < |sb.dir| == sb.g.maxdir && Live(sb.g, sb.dir[i])
    ensures b <==> Listed(sb.g, sb.dir, i)
  {
    var cur := sb.dir[i];
    var first := i;
    var k := 0;
    while k < sb.g.maxdir
      invariant 0 <= k <= sb.g.maxdir
      invariant first == i <==> forall m ::
                                0 <= m < k && KeyOf(sb.dir[m]) == KeyOf(cur) ==> Extent(cur) <= Extent(sb.dir[m])
    {
      if k != i && KeyOf(cur) == KeyOf(sb.dir[k]) && Extent(cur) > Extent(sb.dir[k]) {
        first := k;
      }
      k := k + 1;
    }
    b := first == i;
  }

  /** The next directory entry to list, from position `pos` on. */
  method CpmReaddir(sb: SuperBlock, pos: nat) returns (e: Option<Dirent>, pos': nat)
    requires |sb.dir| == sb.g.maxdir
    ensures pos <= pos'
    ensures pos == 0 ==> e == Some(Dirent(sb.g.maxdir, [DOT])) && pos' == 1
    ensures pos == 1 ==> e == Some(Dirent(sb.g.maxdir, [DOT, DOT])) && pos' == 2
    ensures pos >= 2 ==> Listing(sb.g, sb.dir, pos) == (if e.Some? then [e.value] else []) + Listing(sb.g, sb.dir, pos')
    ensures pos >= 2 && e.None? ==> Listing(sb.g, sb.dir, pos) == []
    ensures e.Some? ==> pos < pos' <= sb.g.maxdir + RESERVED_ENTRIES
  {
    var g := sb.g;
    hide Listed, ListingFrom, KeyOf, Listing;
    pos' := pos;
    ReservedPositions(g, sb.dir);
    while true
      invariant pos <= pos' && (pos < 2 ==> pos' == pos)
      invariant pos >= 2 ==> Listing(g, sb.dir, pos) == Listing(g, sb.dir, pos')
      decreases g.maxdir + RESERVED_ENTRIES - pos'
    {
      if pos' == 0 {
        return Some(Dirent(g.maxdir, [DOT])), 1;
      } else if pos' == 1 {
        return Some(Dirent(g.maxdir, [DOT, DOT])), 2;
      } else if RESERVED_ENTRIES <= pos' < g.maxdir + RESERVED_ENTRIES {
        var i := pos' - RESERVED_ENTRIES;
        ListingStep(g, sb.dir, i);
        if Live(g, sb.dir[i]) {
          var first := IsFirstExtent(sb, i);
          if first {
            var name := ListName(KeyOf(sb.dir[i]));
            return Some(Dirent(pos' - RESERVED_INODES, name)), pos' + 1;
          }
        }
      } else if pos' >= RESERVED_ENTRIES {
        return None, pos';
      }
      pos' := pos' + 1;
    }
  }

  /** What is left of the listing at position `pos`. */
  function Listing(g: DiskShape, dir: seq<Entry>, pos: nat): seq<Dirent>
    requires |dir| == g.maxdir
  {
    if pos < RESERVED_ENTRIES then ListingFrom(g, dir, 0)
    else if pos < g.maxdir + RESERVED_ENTRIES then ListingFrom(g, dir, pos - RESERVED_ENTRIES)
    else []
  }

  lemma ReservedPositions(g: DiskShape, dir: seq<Entry>)
    requires |dir| == g.maxdir
    ensures Listing(g, dir, 2) == Listing(g, dir, 3) == Listing(g, dir, 4)
    ensures forall pos: nat :: pos >= g.maxdir + RESERVED_ENTRIES ==> Listing(g, dir, pos) == []
  {
  }

  lemma ListingStep(g: DiskShape, dir: seq<Entry>, i: nat)
    requires i < |dir| == g.maxdir
    ensures Listed(g, dir, i) ==> Live(g, dir[i])
    ensures Listed(g, dir, i) ==>
              Listing(g, dir, i + RESERVED_ENTRIES) == [DirentAt(g, dir, i)] + Listing(g, dir, i + RESERVED_ENTRIES + 1)
    ensures !Listed(g, dir, i) ==> Listing(g, dir, i + RESERVED_ENTRIES) == Listing(g, dir, i + RESERVED_ENTRIES + 1)
  {
    assert Listing(g, dir, i + RESERVED_ENTRIES + 1) == ListingFrom(g, dir, i + 1);
    assert !Listed(g, dir, i) ==> [] + ListingFrom(g, dir, i + 1) == ListingFrom(g, dir, i + 1);
  }

  /** Reading the directory to its end. */
  method ListAll(sb: SuperBlock) returns (all: seq<Dirent>)
    requires |sb.dir| == sb.g.maxdir && sb.g.maxdir > 0
    ensures all == [Dirent(sb.g.maxdir, [DOT]), Dirent(sb.g.maxdir, [DOT, DOT])] + ListingFrom(sb.g, sb.dir, 0)
  {
    var dot, p1 := CpmReaddir(sb, 0);
    var dotdot, p2 := CpmReaddir(sb, 1);
    ghost var dots := [dot.value, dotdot.value];
    all := [dot.value, dotdot.value];
    var pos := 2;
    while true
      invariant 2 <= pos && dots + ListingFrom(sb.g, sb.dir, 0) == all + Listing(sb.g, sb.dir, pos)
      decreases sb.g.maxdir + RESERVED_ENTRIES - pos
    {
      var e, next := CpmReaddir(sb, pos);
      if e.None? {
        return;
      }
      all := all + [e.value];
      pos := next;
    }
  }

  // ----- Every file once -----

  /** The entry with the lowest extent number of a file. */
  lemma LowestExists(g: DiskShape, dir: seq<Entry>, key: Key, n: nat) returns (l: nat)
    requires n <= |dir| && exists i :: 0 <= i < n && Owns(g, key, dir[i])
    ensures l < n && Owns(g, key, dir[l])
    ensures forall i :: 0 <= i < n && Owns(g, key, dir[i]) ==> Extent(dir[l]) <= Extent(dir[i])
  {
    hide KeyOf, Extent;
    if exists i :: 0 <= i < n - 1 && Owns(g, key, dir[i]) {
      l := LowestExists(g, dir, key, n - 1);
      if Owns(g, key, dir[n - 1]) && Extent(dir[n - 1]) < Extent(dir[l]) {
        l := n - 1;
      }
    } else {
      l := n - 1;
    }
  }

  /** When no extent number of a file is duplicated, exactly one entry of every file is listed. */
  lemma ListedOnce(g: DiskShape, dir: seq<Entry>, key: Key) returns (l: nat)
    requires g.Basic() && ExtentsDistinct(g, dir) && Find(g, dir, key, 0, -1) >= 0
    ensures l < |dir| && Owns(g, key, dir[l]) && Listed(g, dir, l)
    ensures forall i :: 0 <= i < |dir| && Owns(g, key, dir[i]) && Listed(g, dir, i) ==> i == l
    ensures IsLowest(g, dir, key, l)
  {
    var f := Find(g, dir, key, 0, -1);
    assert Owns(g, key, dir[f]);
    l := LowestExists(g, dir, key, |dir|);
    hide Extent;
    assert forall k :: 0 <= k < |dir| && KeyOf(dir[k]) == KeyOf(dir[l]) ==> Live(g, dir[k]);
  }

  /** How often a name occurs in a listing. */
  function Occurrences(s: seq<Dirent>, name: seq<byte>): nat {
    if s == [] then 0 else (if s[0].name == name then 1 else 0) + Occurrences(s[1..], name)
  }

  /** Plain names of different files are listed differently. */
  lemma PlainNamesDiffer(g: DiskShape, a: Key, b: Key)
    requires a.user <= g.MaxUser() && b.user <= g.MaxUser() && |a.name| == |b.name| == 8 && |a.ext| == |b.ext| == 3
    requires PlainName(a.name, a.ext) && PlainName(b.name, b.ext) && FormatName(a) == FormatName(b)
    ensures a == b
  {
    ListedNameFinds(g, a);
    ListedNameFinds(g, b);
  }

  /** The listed name is parsed back to the stored user, name and extension exactly when the name is plain. */
  lemma ListedNameFinds(g: DiskShape, key: Key)
    requires key.user <= g.MaxUser() && |key.name| == 8 && |key.ext| == 3
    ensures ParseName(g, FormatName(key)) == Some(key) <==> PlainName(key.name, key.ext)
  {
    hide ParseBody, FormatBody, PlainName;
    ListedNameParses(key.name, key.ext);
    var f := FormatName(key);
    assert f[2..] == FormatBody(key.name, key.ext);
    assert 10 * (f[0] - 0x30) + (f[1] - 0x30) == key.user;
  }

  /** A directory of plain names lists every file exactly once. */
  lemma {:induction false} EachFileOnce(g: DiskShape, dir: seq<Entry>, key: Key, l: nat, from: nat)
    requires from <= |dir| && l < |dir| && Owns(g, key, dir[l]) && Listed(g, dir, l)
    requires forall i :: 0 <= i < |dir| && Owns(g, key, dir[i]) && Listed(g, dir, i) ==> i == l
    requires forall i :: 0 <= i < |dir| && Live(g, dir[i]) ==> PlainName(KeyOf(dir[i]).name, KeyOf(dir[i]).ext)
    ensures Occurrences(ListingFrom(g, dir, from), FormatName(key)) == if from <= l then 1 else 0
    decreases |dir| - from
  {
    hide *;
    OwnerKey(g, dir, key, l);
    if from == |dir| {
      NothingLeft(g, dir, key);
    } else {
      EachFileOnce(g, dir, key, l, from + 1);
      OccurrencesStep(g, dir, key, from);
      if Listed(g, dir, from) {
        ListedIsLive(g, dir, from);
        assert PlainName(KeyOf(dir[from]).name, KeyOf(dir[from]).ext)
               && PlainName(KeyOf(dir[l]).name, KeyOf(dir[l]).ext);
        if FormatName(KeyOf(dir[from])) == FormatName(key) {
          PlainNamesDiffer(g, KeyOf(dir[from]), key);
          SameOwner(g, dir, key, from);
        }
      }
    }
  }

  lemma OwnerKey(g: DiskShape, dir: seq<Entry>, key: Key, i: nat)
    requires i < |dir| && Owns(g, key, dir[i])
    ensures Live(g, dir[i]) && KeyOf(dir[i]) == key && key.user <= g.MaxUser() < 32 && |key.name| == 8 && |key.ext| == 3
  {
  }

  lemma SameOwner(g: DiskShape, dir: seq<Entry>, key: Key, i: nat)
    requires i < |dir| && Live(g, dir[i]) && KeyOf(dir[i]) == key
    ensures Owns(g, key, dir[i])
  {
  }

  lemma NothingLeft(g: DiskShape, dir: seq<Entry>, key: Key)
    requires key.user < 32
    ensures Occurrences(ListingFrom(g, dir, |dir|), FormatName(key)) == 0
  {
  }

  lemma OccurrencesStep(g: DiskShape, dir: seq<Entry>, key: Key, i: nat)
    requires i < |dir| && key.user < 32
    ensures Listed(g, dir, i) ==> Live(g, dir[i])
    ensures Listed(g, dir, i) ==>
              Occurrences(ListingFrom(g, dir, i), FormatName(key)) ==
              (if FormatName(KeyOf(dir[i])) == FormatName(key) then 1 else 0)
                  + Occurrences(ListingFrom(g, dir, i + 1), FormatName(key))
    ensures !Listed(g, dir, i) ==>
              Occurrences(ListingFrom(g, dir, i), FormatName(key))
                  == Occurrences(ListingFrom(g, dir, i + 1), FormatName(key))
  {
    hide FormatName, KeyOf;
    var rest := ListingFrom(g, dir, i + 1);
    if Listed(g, dir, i) {
      var all := [DirentAt(g, dir, i)] + rest;
      assert ListingFrom(g, dir, i) == all && all[1..] == rest;
    } else {
      assert ListingFrom(g, dir, i) == [] + rest == rest;
    }
  }

  lemma ListedIsLive(g: DiskShape, dir: seq<Entry>, i: nat)
    requires i < |dir| && Listed(g, dir, i)
    ensures Live(g, dir[i]) && dir[i].status <= g.MaxUser() < 32
    ensures KeyOf(dir[i]).user == dir[i].status && |KeyOf(dir[i]).name| == 8 && |KeyOf(dir[i]).ext| == 3
  {
  }
}
