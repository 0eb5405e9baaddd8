/** Which file names are accepted and what becomes of them, with the characters written out. */
module NameLaws {
  import opened Options
  import opened Geometry
  import opened Directory
  import Names
  import HostNames

  predicate Free(s: seq<byte>, low: int, high: int, bad: string) {
    forall i :: 0 <= i < |s| ==> low <= s[i] <= high && s[i] as char !in bad
  }

  /** The field holds `s` in capitals, and blanks behind it. */
  predicate InCapitals(f: seq<byte>, s: seq<byte>) {
    && |s| <= |f|
    && (forall i :: 0 <= i < |s| ==> f[i] == if 'a' <= s[i] as char <= 'z' then s[i] - 32 else s[i])
    && (forall i :: |s| <= i < |f| ==> f[i] == ' ' as int)
  }

  // ----- cpmtools: splitFilename -----

  /** Printable characters of seven bits and none of those with a meaning for CP/M. */
  predicate Legal(s: seq<byte>) {
    Free(s, 0x20, 0x7f, "<>.,;:=?*[]")
  }

  lemma LegalIs(s: seq<byte>, name: seq<byte>, isName: bool)
    requires name <= s && 0 !in name
    ensures Names.LegalChars(s, |name|, isName) <==> Legal(name) && !(isName && name != [] && name[0] == ' ' as int)
  {
    forall i | 0 <= i < |name|
      ensures Names.CharAt(s, i) == name[i]
    {
    }
    assert Legal(name) <==> forall i :: 0 <= i < |name| ==> Names.IsFileChar(true, name[i]);
  }

  lemma PaddedIs(s: seq<byte>, name: seq<byte>, n: nat)
    requires name <= s && |name| <= n
    ensures InCapitals(Names.Padded(s, |name|, n), name)
  {
  }

  lemma {:induction false} NameEndIs(s: seq<byte>, k: nat, i: nat)
    requires i <= k <= 8 && forall j :: i <= j < k ==> Names.CharAt(s, j) != 0 && Names.CharAt(s, j) != Names.DOT
    requires k == 8 || Names.CharAt(s, k) == 0 || Names.CharAt(s, k) == Names.DOT
    ensures Names.NameEnd(s, i) == k
    decreases k - i
  {
    if i < k {
      NameEndIs(s, k, i + 1);
    }
  }

  lemma {:induction false} ExtEndIs(s: seq<byte>, k: nat, i: nat)
    requires i <= k <= 3 && forall j :: i <= j < k ==> Names.CharAt(s, j) != 0
    requires k == 3 || Names.CharAt(s, k) == 0
    ensures Names.ExtEnd(s, i) == k
    decreases k - i
  {
    if i < k {
      ExtEndIs(s, k, i + 1);
    }
  }

  /** `name` is all in front of the first dot, or the first eight characters; `more` is the rest. */
  predicate Divided(name: seq<byte>, more: seq<byte>) {
    && 0 !in name && 0 !in more
    && |name| <= 8 && '.' as int !in name && (more == [] || more[0] == '.' as int || |name| == 8)
  }

  /** Up to three characters behind the dot; there is no extension if something else follows the name. */
  function ExtOf(more: seq<byte>): (e: seq<byte>)
    ensures |e| <= 3
  {
    if more == [] || more[0] != '.' as int then [] else more[1..if |more| < 4 then |more| else 4]
  }

  lemma BodyParts(name: seq<byte>, more: seq<byte>)
    requires Divided(name, more)
    ensures var s := name + more; var t := Names.Rest(s, |name| + 1);
            && Names.NameEnd(s, 0) == |name|
                && (Names.CharAt(s, |name|) == Names.DOT <==> more != [] && more[0] == '.' as int)
            && (Names.CharAt(s, 0) == 0 <==> name == [] && more == [])
            && (more != [] && more[0] == '.' as int ==>
                t == more[1..] && Names.ExtEnd(t, 0) == |ExtOf(more)| && ExtOf(more) <= t)
  {
    var s := name + more;
    assert forall j :: 0 <= j < |name| ==> Names.CharAt(s, j) == name[j];
    assert more != [] ==> Names.CharAt(s, |name|) == more[0];
    NameEndIs(s, |name|, 0);
    if more != [] && more[0] == '.' as int {
      var t := Names.Rest(s, |name| + 1);
      assert t == more[1..];
      assert forall j :: 0 <= j < |t| ==> t[j] in more;
      ExtEndIs(t, |ExtOf(more)|, 0);
    }
  }

  lemma BodyLaw(name: seq<byte>, more: seq<byte>)
    requires Divided(name, more)
    ensures var r, ext := Names.ParseBody(name + more), ExtOf(more);
            && (r.Some? <==> && Legal(name) && Legal(ext) && (name != [] ==> name[0] != ' ' as int)
                             && (name != [] || ext != []))
            && (r.Some? ==> |r.value.0| == 8 && |r.value.1| == 3 && InCapitals(r.value.0, name)
                            && InCapitals(r.value.1, ext))
  {
    var s, ext := name + more, ExtOf(more);
    BodyParts(name, more);
    LegalIs(s, name, true);
    PaddedIs(s, name, 8);
    if more != [] && more[0] == '.' as int {
      var t := more[1..];
      assert 0 !in ext;
      LegalIs(t, ext, false);
      PaddedIs(t, ext, 3);
    }
    hide Names.LegalChars, InCapitals, Names.NameEnd, Names.ExtEnd, Names.CharAt, Names.Rest;
    PaddedIs([], [], 3);
  }

  /**
   * The names that are accepted: two digits for a user number, then a name and perhaps a dot and an extension, not
   * both empty, of legal characters with no blank in front. Excess characters behind either are ignored.
   */
  lemma ParseLaw(g: DiskShape, tens: nat, ones: nat, name: seq<byte>, more: seq<byte>)
    requires tens < 10 && ones < 10 && Divided(name, more)
    ensures var r, ext := Names.ParseName(g, [0x30 + tens, 0x30 + ones] + (name + more)), ExtOf(more);
            && (r.Some? <==> && 10 * tens + ones <= (if g.hiUser then 31 else 15)
                             && Legal(name) && Legal(ext) && (name != [] ==> name[0] != ' ' as int)
                             && (name != [] || ext != []))
            && (r.Some? ==> r.value.user == 10 * tens + ones && |r.value.name| == 8 && |r.value.ext| == 3
                            && InCapitals(r.value.name, name) && InCapitals(r.value.ext, ext))
  {
    var full := [0x30 + tens, 0x30 + ones] + (name + more);
    assert full[2..] == name + more;
    BodyLaw(name, more);
    hide Names.ParseBody, Legal, InCapitals;
  }

  /** Without two digits in front every name is refused. */
  lemma NoUserNumber(g: DiskShape, s: seq<byte>)
    requires |s| < 2 || !('0' <= s[0] as char <= '9') || !('0' <= s[1] as char <= '9')
    ensures Names.ParseName(g, s) == None
  {
  }

  // ----- cpmtools: the listed form -----

  /** `p` is all of the field in front of its first blank. */
  predicate UpToBlank(f: seq<byte>, p: seq<byte>) {
    p <= f && ' ' as int !in p && (|p| < |f| ==> f[|p|] == ' ' as int)
  }

  lemma {:induction false} PrefixIs(f: seq<byte>, p: seq<byte>)
    requires UpToBlank(f, p)
    ensures Names.Prefix(f) == p
  {
    if p != [] {
      assert f[0] == p[0] && p[0] in p;
      PrefixIs(f[1..], p[1..]);
    }
  }

  predicate InSmall(s: seq<byte>, p: seq<byte>) {
    |s| == |p| && forall i :: 0 <= i < |p| ==> s[i] == if 'A' <= p[i] as char <= 'Z' then p[i] + 32 else p[i]
  }

  lemma LowerIs(p: seq<byte>)
    ensures InSmall(Names.Lower(p), p)
  {
  }

  /**
   * The form of a listed name: the user number in two digits, the name in small letters, a dot only before an
   * extension.
   */
  lemma ListLaw(tens: nat, ones: nat, name: seq<byte>, ext: seq<byte>, p: seq<byte>, q: seq<byte>)
    requires tens < 10 && ones < 10 && 10 * tens + ones < 32 && UpToBlank(name, p) && UpToBlank(ext, q)
    ensures exists n, x :: InSmall(n, p) && InSmall(x, q)
                           && Names.FormatName(Key(10 * tens + ones, name, ext))
                              == [0x30 + tens, 0x30 + ones] + (n + if q == [] then [] else ['.' as int] + x)
  {
    PrefixIs(name, p);
    PrefixIs(ext, q);
    LowerIs(p);
    LowerIs(q);
    hide Names.Lower, Names.Prefix, InSmall, UpToBlank;
    var key := Key(10 * tens + ones, name, ext);
    assert Names.FormatName(key)
           == [0x30 + tens, 0x30 + ones] + (Names.Lower(p) + if q == [] then [] else ['.' as int] + Names.Lower(q));
  }

  // ----- yaze: cpmsize -----

  /** Printable characters up to 'z' and none of those with a meaning for CP/M. */
  predicate Usual(s: seq<byte>) {
    Free(s, 0x21, 0x7a, ".=_:,;<>")
  }

  lemma UsableIs(s: seq<byte>)
    ensures Usual(s) <==> forall i :: 0 <= i < |s| ==> HostNames.Usable(s[i])
  {
    assert forall i :: 0 <= i < |s| ==>
                       (HostNames.Usable(s[i]) <==> 0x21 <= s[i] <= 0x7a && s[i] as char !in ".=_:,;<>");
  }

  /** At most eight characters, then the end, or a dot and at most three more. */
  predicate Fits(s: seq<byte>, name: seq<byte>, ext: seq<byte>) {
    && |name| <= 8 && |ext| <= 3 && Usual(name) && Usual(ext)
    && ((s == name && ext == []) || s == name + ['.' as int] + ext)
  }

  lemma {:induction false} RunIs(s: seq<byte>, i: nat, n: nat, p: seq<byte>)
    requires |p| <= n && i + |p| <= |s| && s[i..i + |p|] == p && forall j :: 0 <= j < |p| ==> HostNames.Usable(p[j])
    requires |p| == n || i + |p| == |s| || !HostNames.Usable(s[i + |p|])
    ensures HostNames.Run(s, i, n) == |p|
    decreases |p|
  {
    if p == [] {
    } else {
      assert s[i] == s[i..i + |p|][0] == p[0];
      assert s[i + 1..i + 1 + |p[1..]|] == s[i..i + |p|][1..] == p[1..];
      RunIs(s, i + 1, n - 1, p[1..]);
    }
  }

  lemma FieldIs(s: seq<byte>, n: nat)
    requires |s| <= n
    ensures InCapitals(HostNames.Field(s, n), s)
  {
  }

  lemma FitsConverted(s: seq<byte>, name: seq<byte>, ext: seq<byte>)
    requires Fits(s, name, ext)
    ensures var c := HostNames.Converted(s);
            c.1 && |c.0| == 11 && InCapitals(c.0[..8], name) && InCapitals(c.0[8..], ext)
  {
    UsableIs(name);
    UsableIs(ext);
    assert s[0..0 + |name|] == name == s[..|name|];
    assert |s| > |name| ==> s[|name|] == '.' as int;
    RunIs(s, 0, 8, name);
    FieldIs(name, 8);
    FieldIs(ext, 3);
    if s != name {
      assert s[|name| + 1..] == ext && s[|name| + 1..|name| + 1 + |ext|] == ext;
      RunIs(s, |name| + 1, 3, ext);
      BothHalves(HostNames.Field(name, 8), HostNames.Field(ext, 3));
    } else {
      assert |s| == |name|;
      NoExtension();
      BothHalves(HostNames.Field(name, 8), HostNames.Blanks(3));
    }
    hide HostNames.Field, HostNames.Run, InCapitals, Usual, HostNames.Usable, HostNames.Blanks;
  }

  lemma NoExtension()
    ensures HostNames.Field([], 3) == HostNames.Blanks(3)
  {
  }

  lemma BothHalves(a: seq<byte>, b: seq<byte>)
    requires |a| == 8
    ensures (a + b)[..8] == a && (a + b)[8..] == b
  {
  }

  lemma Accepted(s: seq<byte>)
    ensures var k := HostNames.Run(s, 0, 8);
            HostNames.Converted(s).1 ==> k == |s| || (s[k] == '.' as int && k + 1 + HostNames.Run(s, k + 1, 3) == |s|)
  {
    hide HostNames.Usable, HostNames.Run, HostNames.Field, HostNames.Blanks, HostNames.Upper;
  }

  lemma RunUsual(s: seq<byte>, i: nat, n: nat)
    requires i <= |s|
    ensures Usual(s[i..i + HostNames.Run(s, i, n)])
  {
    var p := s[i..i + HostNames.Run(s, i, n)];
    UsableIs(p);
    hide HostNames.Usable, HostNames.Run, Usual;
    assert forall j :: 0 <= j < |p| ==> p[j] == s[i + j];
  }

  lemma OneByOne(s: seq<byte>, k: nat)
    requires k < |s| && s[k] == '.' as int
    ensures s == s[..k] + ['.' as int] + s[k + 1..]
  {
  }

  lemma NoneIsUsual()
    ensures Usual([])
  {
  }

  lemma FitsWithDot(s: seq<byte>, k: nat)
    requires k <= 8 && k < |s| <= k + 4 && s[k] == '.' as int && Usual(s[..k]) && Usual(s[k + 1..])
    ensures Fits(s, s[..k], s[k + 1..])
  {
    hide Usual;
    OneByOne(s, k);
  }

  lemma ConvertedFits(s: seq<byte>)
    requires HostNames.Converted(s).1
    ensures exists name, ext :: Fits(s, name, ext)
  {
    hide *;
    var k := HostNames.Run(s, 0, 8);
    Accepted(s);
    RunUsual(s, 0, 8);
    assert s[0..k] == s[..k];
    if k == |s| {
      assert s[..k] == s;
      NoneIsUsual();
      WithoutDot(s);
    } else {
      RunUsual(s, k + 1, 3);
      assert s[k + 1..|s|] == s[k + 1..];
      FitsWithDot(s, k);
    }
  }

  lemma WithoutDot(s: seq<byte>)
    requires |s| <= 8 && Usual(s) && Usual([])
    ensures Fits(s, s, [])
  {
  }

  /**
   * A file that is not empty is listed exactly if its name fits into eight and three usual characters; its entry holds
   * them in capitals.
   */
  lemma HostNameLaw(m: HostNames.Member)
    requires m.size > 0
    ensures m.File().size > 0 <==> exists name, ext :: Fits(m.filename, name, ext)
    ensures forall name, ext :: Fits(m.filename, name, ext) ==>
                                  && m.File().size == m.size && m.File().path == m.path
                                  && |m.File().name| == 8 && InCapitals(m.File().name, name)
                                  && |m.File().ext| == 3 && InCapitals(m.File().ext, ext)
  {
    hide Fits, HostNames.Converted, InCapitals;
    if m.File().size > 0 {
      ConvertedFits(m.filename);
    }
    forall name, ext | Fits(m.filename, name, ext)
      ensures && m.File().size == m.size && m.File().path == m.path
              && |m.File().name| == 8 && InCapitals(m.File().name, name)
              && |m.File().ext| == 3 && InCapitals(m.File().ext, ext)
    {
      FitsConverted(m.filename, name, ext);
    }
  }
}
