/** When the made-up directory table is too small for what mountdir writes. */
module DirectoryRoom {
  import opened Geometry
  import Names
  import opened UnixDir
  import opened HostNames
  import opened MountDir

  /** Every file has at least as many blocks as entries, and sixteen blocks come before the first. */
  lemma {:induction false} BlocksAhead(ps: seq<Placed>, p: nat, b: nat)
    requires Chain(ps, p, b)
    ensures b >= p + 15
  {
    if ps != [] {
      var last := ps[|ps| - 1];
      BlocksAhead(ps[..|ps| - 1], last.p, last.first);
      BlocksAndEntries(last.file);
    }
  }

  lemma BlocksAndEntries(f: HostFile)
    requires f.size > 0
    ensures f.NBlocks() >= 8 * f.NDirents() - 7
    ensures f.NDirents() <= f.NBlocks()
  {
    var m := f.size - 1;
    assert m / 32768 == m / 4096 / 8;
  }

  // ----- What the test guarantees -----

  /** A file of this many entries that passes the test has room, whatever has been placed before. */
  ghost predicate TestSuffices(d: nat) {
    forall ps: seq<Placed>, p: nat, b: nat, f: HostFile ::
      Chain(ps, p, b) && f.size > 0 && f.NDirents() == d && Fits(f, p, b) ==> !TooMany(f, p)
  }

  predicate SafeSize(d: nat) {
    d <= 4 || d >= 74
  }

  /** Few entries leave room for the date stamps; many entries have so many blocks that the disk is full first. */
  lemma FitsSafely(f: HostFile, p: nat, b: nat)
    requires f.size > 0 && SafeSize(f.NDirents()) && b >= p + 15 && Fits(f, p, b)
    ensures !TooMany(f, p)
  {
    BlocksAndEntries(f);
  }

  // ----- Directories of one-block files -----

  /** Three letters for numbers below 26 * 26 * 26. */
  function Letters(i: nat): (s: seq<byte>)
    requires i < 17576
    ensures |s| == 3 && forall k :: 0 <= k < 3 ==> 65 <= s[k] <= 90
  {
    [65 + i / 26 / 26, 65 + i / 26 % 26, 65 + i % 26]
  }

  lemma LettersDiffer(i: nat, k: nat)
    requires i < 17576 && k < 17576 && Letters(i) == Letters(k)
    ensures i == k
  {
    assert Letters(i)[0] == Letters(k)[0] && Letters(i)[1] == Letters(k)[1] && Letters(i)[2] == Letters(k)[2];
    assert i / 26 == i / 26 / 26 * 26 + i / 26 % 26 && k / 26 == k / 26 / 26 * 26 + k / 26 % 26;
  }

  function OneBlock(i: nat): Member
    requires i < 17576
  {
    Member(Letters(i), Letters(i), 1)
  }

  function OneBlockFile(i: nat): HostFile
    requires i < 17576
  {
    HostFile(Letters(i) + Blanks(5), Blanks(3), Letters(i), 1)
  }

  /** Members `i` to `n` - 1. */
  function Many(i: nat, n: nat): seq<Member>
    requires n < 17576
    decreases n - i
  {
    if i >= n then [] else [OneBlock(i)] + Many(i + 1, n)
  }

  lemma ShortName(m: Member)
    requires 0 < |m.filename| <= 8 && forall k :: 0 <= k < |m.filename| ==> 65 <= m.filename[k] <= 90
    ensures m.Writes() && m.File() == HostFile(m.filename + Blanks(8 - |m.filename|), Blanks(3), m.path, m.size)
  {
    var s := m.filename;
    hide Names.ToUpper;
    assert forall k :: 0 <= k < |s| ==> Usable(s[k]) && Names.ToUpper(s[k]) == s[k] by {
      CapitalsStay();
    }
    assert Run(s, 0, 8) == |s|;
    assert Upper(s) == s;
  }

  lemma CapitalsStay()
    ensures forall c: byte :: 65 <= c <= 90 ==> Usable(c) && Names.ToUpper(c) == c
  {
  }

  /** The layout after the first `i` one-block files. */
  function LayoutOf(i: nat): Layout
    requires i < 17576
  {
    Layout(seq(i, k requires 0 <= k < i => Placed(OneBlockFile(k), 1 + k, 16 + k)), 1 + i, 16 + i, false)
  }

  /** The label does not look like the name of one of the files. */
  predicate OtherLabel(volume: seq<byte>) {
    |volume| == 11 && volume[0] > 90
  }

  lemma NotTaken(volume: seq<byte>, i: nat, f: HostFile)
    requires OtherLabel(volume) && i < 17576 && |f.name| == 8 && f.name[0] <= 90
    requires forall k: nat :: k < i ==> f.name[..3] != Letters(k) || f.name[3] != 32
    ensures !Taken(volume, LayoutOf(i).ps, f)
  {
    hide Letters;
    assert f.name + f.ext != volume by {
      assert (f.name + f.ext)[0] == f.name[0];
    }
    forall k: nat | k < i
      ensures LayoutOf(i).ps[k].file.FileKey() != f.FileKey()
    {
      assert OneBlockFile(k).name[..3] == Letters(k) && OneBlockFile(k).name[3] == 32;
    }
  }

  lemma OneMore(volume: seq<byte>, i: nat, rest: seq<Member>)
    requires OtherLabel(volume) && i < 1523
    ensures Scan(volume, [OneBlock(i)] + rest, LayoutOf(i)) == Scan(volume, rest, LayoutOf(i + 1))
  {
    hide Letters, Taken, Converted;
    var f := OneBlockFile(i);
    ShortName(OneBlock(i));
    forall k: nat | k < i
      ensures f.name[..3] != Letters(k)
    {
      assert f.name[..3] == Letters(i);
      if Letters(i) == Letters(k) {
        LettersDiffer(i, k);
      }
    }
    assert f.name[0] == Letters(i)[0];
    NotTaken(volume, i, f);
    assert ([OneBlock(i)] + rest)[1..] == rest;
    assert LayoutOf(i).ps + [Placed(f, 1 + i, 16 + i)] == LayoutOf(i + 1).ps;
  }

  lemma {:induction false} ManyScanned(volume: seq<byte>, i: nat, n: nat, rest: seq<Member>)
    requires OtherLabel(volume) && i <= n <= 1523
    ensures Scan(volume, Many(i, n) + rest, LayoutOf(i)) == Scan(volume, rest, LayoutOf(n))
    decreases n - i
  {
    hide Scan, OneBlock, LayoutOf;
    if i < n {
      OneMore(volume, i, Many(i + 1, n) + rest);
      assert Many(i, n) + rest == [OneBlock(i)] + (Many(i + 1, n) + rest);
      ManyScanned(volume, i + 1, n, rest);
    } else {
      assert Many(i, n) + rest == rest;
    }
  }

  // ----- Overflowing directories -----

  /** 1523 small files fill the table; any further member whose name gets written, listed or not, overflows it. */
  lemma FullTableOverflows(volume: seq<byte>, m: Member)
    requires OtherLabel(volume)
    ensures Scan(volume, Many(0, 1523) + [m], NOTHING).overrun <==> m.Writes()
    ensures Scan(volume, Many(0, 1523), NOTHING) == LayoutOf(1523)
  {
    hide Many, Converted, OneBlockFile;
    ManyScanned(volume, 0, 1523, [m]);
    ManyScanned(volume, 0, 1523, []);
    assert Many(0, 1523) + [] == Many(0, 1523);
    assert LayoutOf(0) == NOTHING;
    assert Scan(volume, [], LayoutOf(1523)) == LayoutOf(1523);
  }

  /** A file of `d` entries, as small as possible. */
  function Large(d: nat): Member
    requires d > 0
  {
    Member([65], [65], (d - 1) * 32768 + 1)
  }

  /**
   * For every other number of entries there is a directory in which such a file passes the test and overflows the
   * table.
   */
  lemma LargeFileOverflows(volume: seq<byte>, d: nat)
    requires OtherLabel(volume) && d > 0 && !SafeSize(d)
    ensures Large(d).File().size > 0 && Large(d).File().NDirents() == d
    ensures Fits(Large(d).File(), 1525 - d, 1540 - d) && TooMany(Large(d).File(), 1525 - d)
    ensures Scan(volume, Many(0, 1524 - d) + [Large(d)], NOTHING).overrun
  {
    hide Many, Converted, OneBlockFile, Taken, Letters;
    ShortName(Large(d));
    var f := Large(d).File();
    assert f.name[0] == 65 && f.name[1] == 32;
    forall k: nat | k < 1524 - d
      ensures f.name[..3] != Letters(k)
    {
      assert f.name[..3][1] == 32;
    }
    NotTaken(volume, 1524 - d, f);
    ManyScanned(volume, 0, 1524 - d, [Large(d)]);
    assert LayoutOf(0) == NOTHING;
  }

  lemma {:induction false} ManyChained(i: nat)
    requires i <= 1523
    ensures Chain(LayoutOf(i).ps, 1 + i, 16 + i)
  {
    hide Letters;
    if i > 0 {
      ManyChained(i - 1);
      assert LayoutOf(i).ps[..i - 1] == LayoutOf(i - 1).ps;
      OneBlockOk(i - 1);
    }
  }

  lemma OneBlockOk(i: nat)
    requires i < 1523
    ensures OneBlockFile(i).NameOk() && OneBlockFile(i).NBlocks() == 1 && OneBlockFile(i).NDirents() == 1
  {
    hide Letters;
    assert forall k :: 0 <= k < 3 ==> (Letters(i) + Blanks(5))[k] == Letters(i)[k];
  }

  /** The test of mountdir suffices exactly for files of up to four and of at least 74 entries. */
  lemma TestSufficesIff(d: nat)
    requires d > 0
    ensures TestSuffices(d) <==> SafeSize(d)
  {
    hide Chain, Member.File, TooMany, Fits, HostFile.NDirents, LayoutOf;
    if SafeSize(d) {
      forall ps: seq<Placed>, p: nat, b: nat, f: HostFile |
        Chain(ps, p, b) && f.size > 0 && f.NDirents() == d && Fits(f, p, b)
        ensures !TooMany(f, p)
      {
        BlocksAhead(ps, p, b);
        FitsSafely(f, p, b);
      }
    } else {
      ManyChained(1524 - d);
      LargeFileOverflows([91] + Blanks(10), d);
    }
  }

  // ----- Overflow of a whole directory -----

  ghost predicate SafeSizes(files: seq<Member>) {
    forall k :: 0 <= k < |files| && files[k].size > 0 ==> SafeSize((files[k].size - 1) / 32768 + 1)
  }

  /** After these members every usable slot is taken. */
  predicate FullAfter(volume: seq<byte>, files: seq<Member>, l: Layout) {
    var l' := Scan(volume, files, l);
    !l'.overrun && l'.p == USABLE
  }

  /** A member looked at when every slot is taken has its name written. */
  ghost predicate NameBehindTable(volume: seq<byte>, files: seq<Member>, l: Layout) {
    exists n :: 0 <= n < |files| && files[n].Writes() && FullAfter(volume, files[..n], l)
  }

  lemma NotAtOnce(volume: seq<byte>, files: seq<Member>, l: Layout, l': Layout)
    requires files != [] && !l.overrun && !(l.p == USABLE && files[0].Writes())
    requires forall rest :: Scan(volume, [files[0]] + rest, l) == Scan(volume, rest, l')
    ensures NameBehindTable(volume, files, l) <==> NameBehindTable(volume, files[1..], l')
  {
    hide Scan, Member.Writes;
    if NameBehindTable(volume, files, l) {
      var n :| 0 <= n < |files| && files[n].Writes() && FullAfter(volume, files[..n], l);
      if n == 0 {
        assert Scan(volume, [], l) == l by {
          NothingScanned(volume, l);
        }
      } else {
        assert files[..n] == [files[0]] + files[1..][..n - 1] && files[1..][n - 1] == files[n];
      }
    }
    if NameBehindTable(volume, files[1..], l') {
      var n :| 0 <= n < |files[1..]| && files[1..][n].Writes() && FullAfter(volume, files[1..][..n], l');
      assert files[..n + 1] == [files[0]] + files[1..][..n] && files[1..][n] == files[n + 1];
    }
  }

  lemma NothingScanned(volume: seq<byte>, l: Layout)
    ensures Scan(volume, [], l) == l
  {
  }

  /** Where the first file does not fit the scan ends, and the table is never full. */
  lemma StoppedEarly(volume: seq<byte>, files: seq<Member>, l: Layout)
    requires files != [] && !l.overrun && l.p < USABLE
    requires files[0].File().size > 0 && !Taken(volume, l.ps, files[0].File()) && !Fits(files[0].File(), l.p, l.b)
    ensures !NameBehindTable(volume, files, l)
  {
    hide Member.File, Member.Writes, Taken, Fits;
    forall n | 0 <= n < |files|
      ensures Scan(volume, files[..n], l) == l
    {
      assert n > 0 ==> files[..n][0] == files[0];
    }
  }

  lemma OneScanned(volume: seq<byte>, m: Member, l: Layout)
    requires !l.overrun && !(l.p >= USABLE && m.Writes())
    ensures m.File().size == 0 || Taken(volume, l.ps, m.File()) ==>
            forall rest :: Scan(volume, [m] + rest, l) == Scan(volume, rest, l)
    ensures var f := m.File();
            f.size > 0 && !Taken(volume, l.ps, f) && Fits(f, l.p, l.b) && !TooMany(f, l.p) ==>
              forall rest :: Scan(volume, [m] + rest, l) == Scan(volume, rest, Placing(l, f))
  {
    hide Member.File, Member.Writes, Taken, Fits, TooMany, Placing;
    forall rest: seq<Member>
      ensures ([m] + rest)[0] == m && ([m] + rest)[1..] == rest
    {
    }
  }

  /**
   * Among files of safe sizes, the table overflows exactly if some member whose name gets written is looked at after
   * the files before it have taken every slot.
   */
  lemma {:induction false} OverflowIff(volume: seq<byte>, files: seq<Member>, l: Layout)
    requires !l.overrun && l.p <= USABLE && l.b >= l.p + 15 && SafeSizes(files)
    ensures Scan(volume, files, l).overrun <==> NameBehindTable(volume, files, l)
    decreases |files|
  {
    hide Member.Writes, Taken, Fits, TooMany, NameBehindTable, SafeSize, Converted;
    if files != [] {
      var m, f := files[0], files[0].File();
      if l.p >= USABLE && m.Writes() {
        FullAtOnce(volume, files, l);
      } else {
        OneScanned(volume, m, l);
        if f.size == 0 || Taken(volume, l.ps, f) {
          NotAtOnce(volume, files, l, l);
          OverflowIff(volume, files[1..], l);
        } else if !Fits(f, l.p, l.b) {
          StoppedEarly(volume, files, l);
        } else {
          FitsSafely(f, l.p, l.b);
          PlacingAhead(l, f);
          NotAtOnce(volume, files, l, Placing(l, f));
          OverflowIff(volume, files[1..], Placing(l, f));
        }
      }
    } else {
      NoMembers(volume, l);
    }
  }

  lemma NoMembers(volume: seq<byte>, l: Layout)
    ensures !NameBehindTable(volume, [], l)
  {
  }

  lemma FullAtOnce(volume: seq<byte>, files: seq<Member>, l: Layout)
    requires files != [] && !l.overrun && l.p == USABLE && files[0].Writes()
    ensures NameBehindTable(volume, files, l)
  {
    hide Member.Writes;
    assert files[..0] == [];
    assert FullAfter(volume, files[..0], l);
  }

  lemma PlacingAhead(l: Layout, f: HostFile)
    requires f.size > 0 && l.b >= l.p + 15 && !TooMany(f, l.p)
    ensures Placing(l, f).p <= USABLE && Placing(l, f).b >= Placing(l, f).p + 15
  {
    BlocksAndEntries(f);
  }
}
