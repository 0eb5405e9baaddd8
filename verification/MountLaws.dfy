/** Which members of a Unix directory are listed: a law of the scan as a whole. */
module MountLaws {
  import opened Geometry
  import opened UnixDir
  import opened HostNames
  import opened MountDir

  /** The room that mountdir asks for: entries of 32K behind slot p + p / 3, and blocks of 4K from `b` on. */
  predicate Room(f: HostFile, p: nat, b: nat) {
    p + p / 3 + (f.size - 1) / 32768 + 1 <= 2031 && b + (f.size - 1) / 4096 + 1 <= 2047
  }

  lemma FitsIs(f: HostFile, p: nat, b: nat)
    requires f.size > 0
    ensures Fits(f, p, b) <==> Room(f, p, b)
  {
  }

  /** The name is that of the label or of one of these files. */
  ghost predicate Named(volume: seq<byte>, ps: seq<Placed>, f: HostFile) {
    f.name + f.ext == volume || exists k :: 0 <= k < |ps| && ps[k].file.name == f.name && ps[k].file.ext == f.ext
  }

  lemma TakenIs(volume: seq<byte>, ps: seq<Placed>, f: HostFile)
    ensures Taken(volume, ps, f) <==> Named(volume, ps, f)
  {
  }

  /**
   * The files from `from` on are the members with these numbers, in order, all new names, and there was room for each.
   */
  ghost predicate FromMembers(volume: seq<byte>, files: seq<Member>, ps: seq<Placed>, from: nat, idx: seq<nat>,
                              n: nat) {
    n <= |files| && |ps| == from + |idx| && Numbered(files, ps, from, idx, n) && Rising(idx)
        && NewWithRoom(volume, ps, from)
  }

  ghost predicate Numbered(files: seq<Member>, ps: seq<Placed>, from: nat, idx: seq<nat>, n: nat) {
    forall k :: 0 <= k < |idx| ==> IsMember(files, ps, from + k, idx[k], n)
  }

  /** File `at` is member `m`. */
  ghost predicate IsMember(files: seq<Member>, ps: seq<Placed>, at: nat, m: nat, n: nat) {
    m < n <= |files| && at < |ps| && ps[at].file == files[m].File() && ps[at].file.size > 0
  }

  predicate Rising(idx: seq<nat>) {
    forall j, k :: 0 <= j < k < |idx| ==> idx[j] < idx[k]
  }

  ghost predicate NewWithRoom(volume: seq<byte>, ps: seq<Placed>, from: nat) {
    forall k :: from <= k < |ps| ==> !Named(volume, ps[..k], ps[k].file) && Room(ps[k].file, ps[k].p, ps[k].first)
  }

  /** Of the first `n` members each one that can be listed has its name in the directory. */
  ghost predicate AllNamed(volume: seq<byte>, files: seq<Member>, ps: seq<Placed>, n: nat) {
    n <= |files| && forall m :: 0 <= m < n && files[m].File().size > 0 ==> Named(volume, ps, files[m].File())
  }

  lemma NamedLater(volume: seq<byte>, ps: seq<Placed>, ps': seq<Placed>, f: HostFile)
    requires Named(volume, ps, f) && ps <= ps'
    ensures Named(volume, ps', f)
  {
    if f.name + f.ext != volume {
      var k :| 0 <= k < |ps| && ps[k].file.name == f.name && ps[k].file.ext == f.ext;
      assert ps'[k] == ps[k];
    }
  }

  /** One more member in front. */
  lemma Shifted(volume: seq<byte>, files: seq<Member>, ps: seq<Placed>, from: nat, idx: seq<nat>, n: nat)
    requires files != [] && FromMembers(volume, files[1..], ps, from, idx, n)
    ensures FromMembers(volume, files, ps, from, Up(idx), n + 1)
  {
    hide NewWithRoom, Member.File;
    forall k | 0 <= k < |idx|
      ensures IsMember(files, ps, from + k, Up(idx)[k], n + 1)
    {
      assert IsMember(files[1..], ps, from + k, idx[k], n);
    }
  }

  function Up(idx: seq<nat>): (r: seq<nat>)
    ensures |r| == |idx| && forall k :: 0 <= k < |r| ==> r[k] == idx[k] + 1
  {
    seq<nat>(|idx|, k requires 0 <= k < |idx| => idx[k] + 1)
  }

  lemma NamedInFront(volume: seq<byte>, files: seq<Member>, ps: seq<Placed>, n: nat)
    requires files != [] && AllNamed(volume, files[1..], ps, n)
    requires files[0].File().size > 0 ==> Named(volume, ps, files[0].File())
    ensures AllNamed(volume, files, ps, n + 1)
  {
    hide Named, Member.File;
    forall m | 0 <= m < n + 1 && files[m].File().size > 0
      ensures Named(volume, ps, files[m].File())
    {
      if m > 0 {
        assert files[1..][m - 1] == files[m];
      }
    }
  }

  lemma FirstNew(volume: seq<byte>, l: Layout, f: HostFile, ps: seq<Placed>)
    requires f.size > 0 && !Named(volume, l.ps, f) && Room(f, l.p, l.b) && Placing(l, f).ps <= ps
    requires NewWithRoom(volume, ps, |l.ps| + 1)
    ensures NewWithRoom(volume, ps, |l.ps|)
  {
    hide Named, Room;
    assert ps[|l.ps|] == Placed(f, l.p, l.b);
    assert ps[..|l.ps|] == l.ps;
  }

  /** A file has been listed, the member in front is the one. */
  lemma ListedInFront(volume: seq<byte>, files: seq<Member>, l: Layout, ps: seq<Placed>, idx: seq<nat>, n: nat)
    requires files != [] && files[0].File().size > 0 && !Named(volume, l.ps, files[0].File())
    requires Room(files[0].File(), l.p, l.b) && Placing(l, files[0].File()).ps <= ps
    requires FromMembers(volume, files, ps, |l.ps| + 1, idx, n) && n > 0 && forall k :: 0 <= k < |idx| ==> idx[k] > 0
    ensures FromMembers(volume, files, ps, |l.ps|, [0] + idx, n)
  {
    FirstNew(volume, l, files[0].File(), ps);
    hide Named, Room, Member.File, NewWithRoom;
    assert Rising([0] + idx);
    hide Rising;
    FirstNumbered(files, l, ps, idx, n);
  }

  lemma FirstNumbered(files: seq<Member>, l: Layout, ps: seq<Placed>, idx: seq<nat>, n: nat)
    requires 0 < n <= |files| && files[0].File().size > 0 && Placing(l, files[0].File()).ps <= ps
    requires Numbered(files, ps, |l.ps| + 1, idx, n)
    ensures Numbered(files, ps, |l.ps|, [0] + idx, n)
  {
    FirstMember(files, l, ps, n);
    hide IsMember;
    forall k | 0 <= k < |idx| + 1
      ensures IsMember(files, ps, |l.ps| + k, ([0] + idx)[k], n)
    {
      if k > 0 {
        assert IsMember(files, ps, |l.ps| + 1 + (k - 1), idx[k - 1], n);
      }
    }
  }

  lemma FirstMember(files: seq<Member>, l: Layout, ps: seq<Placed>, n: nat)
    requires 0 < n <= |files| && files[0].File().size > 0 && Placing(l, files[0].File()).ps <= ps
    ensures IsMember(files, ps, |l.ps|, 0, n)
  {
    hide Member.File;
    assert ps[|l.ps|] == Placing(l, files[0].File()).ps[|l.ps|];
  }

  /**
   * A scan that does not overflow the table lists members in their order, until one comes for which there is no room.
   * Of the members up to there exactly those are listed that can be listed and whose name is new.
   */
  lemma {:induction false} ScanLists(volume: seq<byte>, files: seq<Member>, l: Layout) returns (n: nat, idx: seq<nat>)
    requires !l.overrun && !Scan(volume, files, l).overrun
    ensures var l' := Scan(volume, files, l);
            && l.ps <= l'.ps && FromMembers(volume, files, l'.ps, |l.ps|, idx, n) && AllNamed(volume, files, l'.ps, n)
            && (n < |files| ==> var f := files[n].File();
                                f.size > 0 && !Named(volume, l'.ps, f) && !Room(f, l'.p, l'.b))
    decreases |files|
  {
    hide Named, Room, Member.File, Fits, Taken, TooMany, FromMembers, AllNamed, Placing, Member.Writes;
    var l' := Scan(volume, files, l);
    n, idx := 0, [];
    NothingListed(volume, files, l.ps);
    if files != [] {
      var f := files[0].File();
      TakenIs(volume, l.ps, f);
      if f.size == 0 || Taken(volume, l.ps, f) {
        n, idx := ScanLists(volume, files[1..], l);
        Shifted(volume, files, l'.ps, |l.ps|, idx, n);
        if f.size > 0 {
          NamedLater(volume, l.ps, l'.ps, f);
        }
        NamedInFront(volume, files, l'.ps, n);
        n, idx := n + 1, Up(idx);
      } else {
        FitsIs(f, l.p, l.b);
        if Fits(f, l.p, l.b) {
          n, idx := ScanLists(volume, files[1..], Placing(l, f));
          PlacingIs(l, f);
          Shifted(volume, files, l'.ps, |l.ps| + 1, idx, n);
          ListedInFront(volume, files, l, l'.ps, Up(idx), n + 1);
          NamedItself(volume, l, f);
          NamedLater(volume, Placing(l, f).ps, l'.ps, f);
          NamedInFront(volume, files, l'.ps, n);
          n, idx := n + 1, [0] + Up(idx);
        }
      }
    }
  }

  lemma NothingListed(volume: seq<byte>, files: seq<Member>, ps: seq<Placed>)
    ensures FromMembers(volume, files, ps, |ps|, [], 0) && AllNamed(volume, files, ps, 0)
  {
  }

  lemma PlacingIs(l: Layout, f: HostFile)
    requires f.size > 0
    ensures !Placing(l, f).overrun && |Placing(l, f).ps| == |l.ps| + 1 && l.ps <= Placing(l, f).ps
  {
  }

  lemma NamedItself(volume: seq<byte>, l: Layout, f: HostFile)
    requires f.size > 0
    ensures Named(volume, Placing(l, f).ps, f)
  {
    assert Placing(l, f).ps[|l.ps|].file == f;
  }

  /** Where the files are: from slot 1 and block 16 on, each right behind the one before. */
  lemma {:induction false} PlacesLaw(ps: seq<Placed>, p: nat, b: nat)
    requires Chain(ps, p, b)
    ensures ps == [] ==> p == 1 && b == 16
    ensures ps != [] ==> ps[0].p == 1 && ps[0].first == 16
    ensures ps != [] ==> Follows(ps[|ps| - 1], p, b)
    ensures forall k :: 0 <= k < |ps| - 1 ==> Follows(ps[k], ps[k + 1].p, ps[k + 1].first)
  {
    hide Follows;
    if ps != [] {
      var last := ps[|ps| - 1];
      PlacesLaw(ps[..|ps| - 1], last.p, last.first);
      FollowsIs(last);
    }
  }

  /** This slot and this block are the first behind the file. */
  predicate Follows(pl: Placed, p: nat, b: nat) {
    p == pl.p + (pl.file.size - 1) / 32768 + 1 && b == pl.first + (pl.file.size - 1) / 4096 + 1
  }

  lemma FollowsIs(pl: Placed)
    requires pl.file.size > 0
    ensures Follows(pl, pl.End(), pl.NextBlock())
  {
  }
}
