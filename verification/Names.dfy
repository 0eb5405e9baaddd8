/** File names: "uuname.ext" on the host side, eight plus three padded characters in the directory. */
module Names {
  import opened Options
  import opened Geometry
  import opened Directory

  const SPACE: byte := 0x20
  const DOT: byte := 0x2e

  /** A C string: reading at its end gives the terminator. */
  function CharAt(s: seq<byte>, i: nat): byte {
    if i < |s| then s[i] else 0
  }

  predicate IsDigit(c: byte) {
    0x30 <= c <= 0x39
  }

  function ToUpper(c: byte): byte {
    if 0x61 <= c <= 0x7a then c - 32 else c
  }

  function ToLower(c: byte): byte {
    if 0x41 <= c <= 0x5a then c + 32 else c
  }

  /** ISFILECHAR: printable, seven bits, none of < > . , ; : = ? * [ ] and no leading blank. */
  predicate IsFileChar(notFirst: bool, c: byte) {
    && (notFirst || c != SPACE)
    && SPACE <= c < 0x80
    && c !in [0x3c, 0x3e, 0x2e, 0x2c, 0x3b, 0x3a, 0x3d, 0x3f, 0x2a, 0x5b, 0x5d]
  }

  /** How far the name part of `s` reaches from `i` on: to a dot, to the end, or to eight characters. */
  function NameEnd(s: seq<byte>, i: nat): (k: nat)
    requires i <= 8
    ensures i <= k <= 8
    ensures forall j :: i <= j < k ==> CharAt(s, j) != 0 && CharAt(s, j) != DOT
    ensures k < 8 ==> CharAt(s, k) == 0 || CharAt(s, k) == DOT
    decreases 8 - i
  {
    if i < 8 && CharAt(s, i) != 0 && CharAt(s, i) != DOT then NameEnd(s, i + 1) else i
  }

  /** How many extension characters there are, at most three. */
  function ExtEnd(s: seq<byte>, j: nat): (k: nat)
    requires j <= 3
    ensures j <= k <= 3
    ensures forall m :: j <= m < k ==> CharAt(s, m) != 0
    ensures k < 3 ==> CharAt(s, k) == 0
    decreases 3 - j
  {
    if j < 3 && CharAt(s, j) != 0 then ExtEnd(s, j + 1) else j
  }

  /** The first `k` characters of `s` in upper case, padded with blanks to `n`. */
  function Padded(s: seq<byte>, k: nat, n: nat): (r: seq<byte>)
    ensures |r| == n
    ensures forall m :: 0 <= m < n ==> r[m] == if m < k then ToUpper(CharAt(s, m)) else SPACE
  {
    if n == 0 then [] else Padded(s, k, n - 1) + [if n - 1 < k then ToUpper(CharAt(s, n - 1)) else SPACE]
  }

  /** Are the first `k` characters legal? Only a file name's first character must not be blank. */
  predicate LegalChars(s: seq<byte>, k: nat, isName: bool) {
    forall i :: 0 <= i < k ==> IsFileChar(i > 0 || !isName, CharAt(s, i))
  }

  function Rest(s: seq<byte>, k: nat): seq<byte> {
    if k < |s| then s[k..] else []
  }

  /** The name and extension of a string without its user number; None for an illegal name. */
  function ParseBody(s: seq<byte>): Option<(seq<byte>, seq<byte>)> {
    var k := NameEnd(s, 0);
    if CharAt(s, 0) == 0 || !LegalChars(s, k, true) then None
    else if CharAt(s, k) != DOT then Some((Padded(s, k, 8), Padded([], 0, 3)))
    else
      var t := Rest(s, k + 1);
      var m := ExtEnd(t, 0);
      if !LegalChars(t, m, false) || (k == 0 && m == 0) then None
      else Some((Padded(s, k, 8), Padded(t, m, 3)))
  }

  function ParseName(g: DiskShape, fullname: seq<byte>): Option<Key> {
    if !IsDigit(CharAt(fullname, 0)) || !IsDigit(CharAt(fullname, 1)) then None
    else
      var user: nat := 10 * (fullname[0] - 0x30) + (fullname[1] - 0x30);
      if user > g.MaxUser() then None
      else
        match ParseBody(fullname[2..])
        case None => None
        case Some(body) => Some(Key(user, body.0, body.1))
  }

  /** The part of a padded field in front of its first blank. */
  function Prefix(s: seq<byte>): (p: seq<byte>)
    ensures |p| <= |s|
    ensures forall i :: 0 <= i < |p| ==> p[i] == s[i] && s[i] != SPACE
    ensures |p| < |s| ==> s[|p|] == SPACE
  {
    if s == [] || s[0] == SPACE then [] else [s[0]] + Prefix(s[1..])
  }

  function Lower(s: seq<byte>): (r: seq<byte>)
    ensures |r| == |s| && forall i :: 0 <= i < |s| ==> r[i] == ToLower(s[i])
  {
    seq<byte>(|s|, i requires 0 <= i < |s| => ToLower(s[i]))
  }

  /** The name cpmReaddir makes of a directory entry, without its user number. */
  function FormatBody(name: seq<byte>, ext: seq<byte>): seq<byte> {
    Lower(Prefix(name)) + (if Prefix(ext) == [] then [] else [DOT] + Lower(Prefix(ext)))
  }

  function FormatName(key: Key): seq<byte>
    requires key.user < 32
  {
    var tens: byte, ones: byte := 0x30 + key.user / 10, 0x30 + key.user % 10;
    [tens, ones] + FormatBody(key.name, key.ext)
  }

  /** A padded field that survives listing and parsing: legal upper-case characters, then only blanks. */
  predicate PlainField(s: seq<byte>) {
    && (forall i :: 0 <= i < |Prefix(s)| ==> IsFileChar(true, s[i]) && ToUpper(s[i]) == s[i])
    && (forall i :: |Prefix(s)| <= i < |s| ==> s[i] == SPACE)
  }

  /** Neither embedded blanks nor odd characters, and not everything blank. */
  predicate PlainName(name: seq<byte>, ext: seq<byte>) {
    PlainField(name) && PlainField(ext) && (Prefix(name) != [] || Prefix(ext) != [])
  }

  lemma CaseDoesNotMatter()
    ensures forall c: byte, b: bool :: IsFileChar(b, ToLower(c)) == IsFileChar(b, c)
    ensures forall c: byte :: ToUpper(ToLower(c)) == ToUpper(c)
    ensures forall c: byte, b: bool :: c != SPACE ==> IsFileChar(b, c) == IsFileChar(true, c)
    ensures forall c: byte :: ToUpper(c) == SPACE ==> c == SPACE
  {
  }

  /** A field and the way it is listed: reading the listing up to `k` gives the field back iff the field is plain. */
  lemma FieldRoundTrip(f: seq<byte>, s: seq<byte>, k: nat, isName: bool)
    requires Lower(Prefix(f)) <= s && k <= |Prefix(f)|
    requires k < |Prefix(f)| ==> !IsFileChar(true, CharAt(s, k))
    ensures LegalChars(s, k, isName) && Padded(s, k, |f|) == f <==> PlainField(f)
    ensures PlainField(f) ==> k == |Prefix(f)|
  {
    hide IsFileChar, ToUpper, ToLower;
    CaseDoesNotMatter();
    var p := Prefix(f);
    assert forall i :: 0 <= i < |p| ==> CharAt(s, i) == Lower(p)[i] == ToLower(f[i]);
    if PlainField(f) {
      assert forall i :: 0 <= i < |p| ==> IsFileChar(true, CharAt(s, i));
      PlainFieldRead(f, s, k, isName);
    }
    if LegalChars(s, k, isName) && Padded(s, k, |f|) == f {
      ReadFieldPlain(f, s, k, isName);
    }
  }

  lemma PlainFieldRead(f: seq<byte>, s: seq<byte>, k: nat, isName: bool)
    requires k == |Prefix(f)| && PlainField(f)
    requires forall i :: 0 <= i < k ==> CharAt(s, i) == ToLower(f[i])
    ensures LegalChars(s, k, isName) && Padded(s, k, |f|) == f
  {
    hide IsFileChar, ToUpper, ToLower;
    CaseDoesNotMatter();
    forall i | 0 <= i < |f|
      ensures Padded(s, k, |f|)[i] == f[i]
    {
    }
  }

  lemma ReadFieldPlain(f: seq<byte>, s: seq<byte>, k: nat, isName: bool)
    requires k <= |Prefix(f)| && LegalChars(s, k, isName) && Padded(s, k, |f|) == f
    requires forall i :: 0 <= i < |Prefix(f)| ==> CharAt(s, i) == ToLower(f[i])
    ensures PlainField(f) && k == |Prefix(f)|
  {
    hide IsFileChar, ToUpper, ToLower;
    CaseDoesNotMatter();
    var g := Padded(s, k, |f|);
    assert forall i :: k <= i < |f| ==> g[i] == SPACE;
    assert (if k < |f| then f[k] else SPACE) == SPACE;
    assert forall i :: 0 <= i < k ==>
                       g[i] == ToUpper(CharAt(s, i)) == ToUpper(f[i]) && IsFileChar(i > 0 || !isName, CharAt(s, i));
  }

  /** The name part of a listed name. */
  lemma ListedName(name: seq<byte>, ext: seq<byte>)
    requires |name| == 8 && |ext| == 3
    ensures var s, n := FormatBody(name, ext), |Prefix(name)|;
            && Lower(Prefix(name)) <= s && NameEnd(s, 0) <= n
            && (NameEnd(s, 0) < n ==> !IsFileChar(true, CharAt(s, NameEnd(s, 0))))
            && CharAt(s, n) == (if Prefix(ext) == [] then 0 else DOT)
            && Rest(s, n + 1) == Lower(Prefix(ext))
  {
    var s, n := FormatBody(name, ext), |Prefix(name)|;
    assert CharAt(s, n) == if Prefix(ext) == [] then 0 else DOT;
    assert Rest(s, n + 1) == Lower(Prefix(ext));
  }

  /** The extension part of a listed name. */
  lemma ListedExt(ext: seq<byte>)
    requires |ext| == 3
    ensures var t := Lower(Prefix(ext));
            && ExtEnd(t, 0) <= |Prefix(ext)|
            && (ExtEnd(t, 0) < |Prefix(ext)| ==> !IsFileChar(true, CharAt(t, ExtEnd(t, 0))))
            && (Prefix(ext) == [] ==> ExtEnd(t, 0) == 0)
  {
    var t := Lower(Prefix(ext));
    assert CharAt(t, |t|) == 0;
  }

  lemma {:induction false} BlankPadding(t: seq<byte>, n: nat)
    ensures Padded(t, 0, n) == Padded([], 0, n)
  {
    if n > 0 {
      BlankPadding(t, n - 1);
    }
  }

  lemma BlankField(f: seq<byte>)
    ensures Prefix(f) == [] ==> (Padded([], 0, |f|) == f <==> PlainField(f))
  {
  }

  /** The listed name parses back to the stored one exactly when the stored name is plain. */
  lemma ListedNameParses(name: seq<byte>, ext: seq<byte>)
    requires |name| == 8 && |ext| == 3
    ensures ParseBody(FormatBody(name, ext)) == Some((name, ext)) <==> PlainName(name, ext)
  {
    hide *;
    var s, t := FormatBody(name, ext), Lower(Prefix(ext));
    var k, m := NameEnd(s, 0), ExtEnd(t, 0);
    ListedName(name, ext);
    ListedExt(ext);
    BlankField(ext);
    BlankPadding(t, 3);
    FieldRoundTrip(name, s, k, true);
    FieldRoundTrip(ext, t, m, false);
    FirstCharEnds(s);
    BothFields(name, ext, s, t, k, m);
  }

  lemma FirstCharEnds(s: seq<byte>)
    ensures CharAt(s, 0) == 0 ==> NameEnd(s, 0) == 0
  {
  }

  /** The name field decides, and behind it the extension field, if there is one. */
  lemma BothFields(name: seq<byte>, ext: seq<byte>, s: seq<byte>, t: seq<byte>, k: nat, m: nat)
    requires |name| == 8 && |ext| == 3 && k == NameEnd(s, 0) && m == ExtEnd(t, 0)
    requires CharAt(s, 0) == 0 ==> k == 0
    requires LegalChars(s, k, true) && Padded(s, k, 8) == name <==> PlainField(name)
    requires LegalChars(t, m, false) && Padded(t, m, 3) == ext <==> PlainField(ext)
    requires (PlainField(name) ==> k == |Prefix(name)|) && (PlainField(ext) ==> m == |Prefix(ext)|)
    requires k == |Prefix(name)| ==> CharAt(s, k) == (if Prefix(ext) == [] then 0 else DOT) && Rest(s, k + 1) == t
    requires Prefix(ext) == [] ==> (Padded([], 0, 3) == ext <==> PlainField(ext))
    ensures ParseBody(s) == Some((name, ext)) <==> PlainName(name, ext)
  {
    hide PlainField, Padded, LegalChars, NameEnd, ExtEnd, Prefix, Rest;
    assert |Prefix(ext)| == 0 <==> Prefix(ext) == [];
    assert |Prefix(name)| == 0 <==> Prefix(name) == [];
  }

  // ----- The loops of splitFilename and cpmReaddir -----

  method SplitFilename(g: DiskShape, fullname: seq<byte>) returns (r: Option<Key>)
    ensures r == ParseName(g, fullname)
  {
    if !IsDigit(CharAt(fullname, 0)) || !IsDigit(CharAt(fullname, 1)) {
      return None;
    }
    var user: nat := 10 * (fullname[0] - 0x30) + (fullname[1] - 0x30);
    var s := fullname[2..];
    if CharAt(s, 0) == 0 || user > g.MaxUser() {
      return None;
    }
    var body := SplitBody(s);
    if body == None {
      return None;
    }
    return Some(Key(user, body.value.0, body.value.1));
  }

  method SplitBody(s: seq<byte>) returns (r: Option<(seq<byte>, seq<byte>)>)
    requires CharAt(s, 0) != 0
    ensures r == ParseBody(s)
  {
    hide IsFileChar, ToUpper;
    var name, i := Padded(s, 0, 8), 0;
    while i < 8 && CharAt(s, i) != 0 && CharAt(s, i) != DOT
      invariant 0 <= i <= 8 && NameEnd(s, 0) == NameEnd(s, i)
      invariant LegalChars(s, i, true) && name == Padded(s, i, 8)
    {
      if !IsFileChar(i > 0, CharAt(s, i)) {
        return None;
      }
      name := name[i := ToUpper(CharAt(s, i))];
      PaddedMore(s, i, 8);
      i := i + 1;
    }
    var ext := Padded([], 0, 3);
    if CharAt(s, i) == DOT {
      var t := Rest(s, i + 1);
      var e, j := SplitExt(t);
      if e == None || (i == 0 && j == 0) {
        return None;
      }
      ext := e.value;
    }
    return Some((name, ext));
  }

  method SplitExt(t: seq<byte>) returns (ext: Option<seq<byte>>, j: nat)
    ensures ext == if LegalChars(t, ExtEnd(t, 0), false) then Some(Padded(t, ExtEnd(t, 0), 3)) else None
    ensures ext.Some? ==> j == ExtEnd(t, 0)
  {
    hide IsFileChar, ToUpper;
    var e := Padded(t, 0, 3);
    j := 0;
    while j < 3 && CharAt(t, j) != 0
      invariant 0 <= j <= 3 && ExtEnd(t, 0) == ExtEnd(t, j)
      invariant LegalChars(t, j, false) && e == Padded(t, j, 3)
    {
      if !IsFileChar(true, CharAt(t, j)) {
        return None, j;
      }
      e := e[j := ToUpper(CharAt(t, j))];
      PaddedMore(t, j, 3);
      j := j + 1;
    }
    return Some(e), j;
  }

  lemma PaddedMore(s: seq<byte>, k: nat, n: nat)
    requires k < n
    ensures Padded(s, k + 1, n) == Padded(s, k, n)[k := ToUpper(CharAt(s, k))]
  {
  }

  /** Converts a directory entry's name to the form the host sees. */
  method ListName(key: Key) returns (buf: seq<byte>)
    requires key.user < 32
    ensures buf == FormatName(key)
  {
    var tens: byte, ones: byte := 0x30 + key.user / 10, 0x30 + key.user % 10;
    var name := ListField(key.name);
    var ext := ListField(key.ext);
    buf := [tens, ones] + name;
    if ext != [] {
      buf := buf + ([DOT] + ext);
    }
  }

  method ListField(f: seq<byte>) returns (r: seq<byte>)
    ensures r == Lower(Prefix(f))
  {
    r := [];
    var i := 0;
    while i < |f| && f[i] != SPACE
      invariant 0 <= i <= |Prefix(f)|
      invariant r == Lower(Prefix(f)[..i])
    {
      r := r + [ToLower(f[i])];
      LowerMore(Prefix(f), i);
      i := i + 1;
    }
    assert Prefix(f)[..i] == Prefix(f);
  }

  lemma LowerMore(p: seq<byte>, i: nat)
    requires i < |p|
    ensures Lower(p[..i + 1]) == Lower(p[..i]) + [ToLower(p[i])]
  {
  }
}
