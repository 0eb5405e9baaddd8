/** How a member of a Unix directory gets its CP/M name, and what is written on the way. */
module HostNames {
  import opened Geometry
  import Names
  import opened UnixDir

  const DOT := Names.DOT
  const BLANK := Names.SPACE

  /** Neither blank nor above 'z', and none of = _ : , ; < > or a dot. */
  predicate Usable(c: byte) {
    32 < c < 123 && c !in [61, 95, 58, 44, 59, 60, 62, DOT]
  }

  /** How many usable characters there are from `i` on, at most `n`. */
  function Run(s: seq<byte>, i: nat, n: nat): (k: nat)
    requires i <= |s|
    ensures k <= n && i + k <= |s|
    ensures forall j :: i <= j < i + k ==> Usable(s[j])
    ensures k < n && i + k < |s| ==> !Usable(s[i + k])
    decreases n
  {
    if n == 0 || i == |s| || !Usable(s[i]) then 0 else 1 + Run(s, i + 1, n - 1)
  }

  function Upper(s: seq<byte>): (r: seq<byte>)
    ensures |r| == |s| && forall i :: 0 <= i < |s| ==> r[i] == Names.ToUpper(s[i])
  {
    seq(|s|, i requires 0 <= i < |s| => Names.ToUpper(s[i]))
  }

  function Blanks(n: nat): (r: seq<byte>)
    ensures |r| == n && forall i :: 0 <= i < n ==> r[i] == BLANK
  {
    seq<byte>(n, _ => BLANK)
  }

  function Field(s: seq<byte>, n: nat): (r: seq<byte>)
    requires |s| <= n
    ensures |r| == n
  {
    Upper(s) + Blanks(n - |s|)
  }

  /** The bytes written over the name in the directory slot, and whether the file name is acceptable. */
  function Converted(s: seq<byte>): (r: (seq<byte>, bool))
    ensures |r.0| <= 11 && (r.1 ==> |r.0| == 11)
  {
    var k := Run(s, 0, 8);
    if k < 8 && k < |s| && s[k] != DOT then (Upper(s[..k]), false)
    else if k == |s| then (Field(s, 8) + Blanks(3), true)
    else if s[k] != DOT then (Field(s[..k], 8), false)
    else
      var e := Run(s, k + 1, 3);
      if k + 1 + e == |s| then (Field(s[..k], 8) + Field(s[k + 1..], 3), true)
      else (Field(s[..k], 8) + Upper(s[k + 1..k + 1 + e]), false)
  }

  /** A directory member: its file name, its path, and its size; 0 unless it is a readable regular file. */
  datatype Member = Member(filename: seq<byte>, path: seq<byte>, size: nat)
  {
    /** Does looking at the member write into the directory slot? Only a bad first character prevents it. */
    predicate Writes() {
      Converted(filename).0 != []
    }

    /** The file to list, with size 0 if it cannot be listed. */
    function File(): (f: HostFile)
      ensures f.size > 0 ==> Writes()
    {
      var c := Converted(filename);
      if c.1 then HostFile(c.0[..8], c.0[8..], path, size) else HostFile([], [], path, 0)
    }
  }

  lemma UpperField(s: seq<byte>, n: nat)
    requires |s| <= n && forall i :: 0 <= i < |s| ==> Usable(s[i])
    ensures forall i :: 0 <= i < n ==> 32 <= Field(s, n)[i] < 128
  {
  }

  /** Every listed file has a name of seven-bit characters. */
  lemma ListedNameOk(m: Member)
    requires m.File().size > 0
    ensures m.File().NameOk()
  {
    var s := m.filename;
    var k := Run(s, 0, 8);
    if k == |s| {
      UpperField(s, 8);
    } else {
      UpperField(s[..k], 8);
      UpperField(s[k + 1..], 3);
    }
  }

  lemma WritesIff(m: Member)
    ensures m.Writes() <==> m.filename == [] || m.filename[0] == DOT || Usable(m.filename[0])
  {
  }

  /** Puts bytes over the front of a name. */
  function Over(w: seq<byte>, slot: seq<byte>): (r: seq<byte>)
    requires |w| <= |slot|
    ensures |r| == |slot|
  {
    w + slot[|w|..]
  }

  lemma OverNext(w: seq<byte>, slot: seq<byte>, c: byte)
    requires |w| < |slot|
    ensures Over(w, slot)[|w| := c] == Over(w + [c], slot)
  {
  }

  lemma UpperNext(s: seq<byte>, p: nat, k: nat)
    requires p + k < |s|
    ensures Upper(s[p..p + k + 1]) == Upper(s[p..p + k]) + [Names.ToUpper(s[p + k])]
  {
  }

  /** Copies usable characters in upper case behind the bytes `w` written already, up to position `n`. */
  method CopyUsable(s: seq<byte>, p: nat, slot: seq<byte>, ghost slot0: seq<byte>, ghost w: seq<byte>, i: nat, n: nat)
    returns (k: nat, slot': seq<byte>)
    requires p <= |s| && |w| == i <= n <= |slot0| && slot == Over(w, slot0)
    ensures k == Run(s, p, n - i) && slot' == Over(w + Upper(s[p..p + k]), slot0)
  {
    hide Over, Usable, Upper, Names.ToUpper;
    k, slot' := 0, slot;
    assert w + Upper(s[p..p + 0]) == w;
    while i + k < n && p + k < |s| && Usable(s[p + k])
      invariant i + k <= n && p + k <= |s|
      invariant Run(s, p, n - i) == k + Run(s, p + k, n - i - k)
      invariant slot' == Over(w + Upper(s[p..p + k]), slot0) && |slot'| == |slot0|
    {
      OverNext(w + Upper(s[p..p + k]), slot0, Names.ToUpper(s[p + k]));
      UpperNext(s, p, k);
      slot' := slot'[i + k := Names.ToUpper(s[p + k])];
      assert w + Upper(s[p..p + k]) + [Names.ToUpper(s[p + k])] == w + Upper(s[p..p + k + 1]);
      k := k + 1;
    }
  }

  method PadBlanks(slot: seq<byte>, ghost slot0: seq<byte>, ghost w: seq<byte>, i: nat, n: nat)
    returns (slot': seq<byte>)
    requires |w| == i <= n <= |slot0| && slot == Over(w, slot0)
    ensures slot' == Over(w + Blanks(n - i), slot0)
  {
    hide Over;
    slot' := slot;
    var k := i;
    assert w + Blanks(0) == w;
    while k < n
      invariant i <= k <= n && slot' == Over(w + Blanks(k - i), slot0) && |slot'| == |slot0|
    {
      OverNext(w + Blanks(k - i), slot0, BLANK);
      slot' := slot'[k := BLANK];
      assert w + Blanks(k - i) + [BLANK] == w + Blanks(k + 1 - i);
      k := k + 1;
    }
  }

  /** The extension, from `p` on; accepts it if the file name ends with it. */
  method ConvertExt(s: seq<byte>, p: nat, slot: seq<byte>, ghost slot0: seq<byte>, ghost w: seq<byte>)
    returns (ok: bool, slot': seq<byte>)
    requires p <= |s| && |w| == 8 && |slot0| == 11 && slot == Over(w, slot0)
    ensures ok <==> p + Run(s, p, 3) == |s|
    ensures slot' == Over(w + if ok then Field(s[p..], 3) else Upper(s[p..p + Run(s, p, 3)]), slot0)
  {
    hide Usable, Upper, Over;
    var e;
    e, slot' := CopyUsable(s, p, slot, slot0, w, 8, 11);
    ok := p + e == |s|;
    if ok {
      slot' := PadBlanks(slot', slot0, w + Upper(s[p..p + e]), 8 + e, 11);
      assert s[p..p + e] == s[p..];
      assert w + Upper(s[p..p + e]) + Blanks(3 - e) == w + Field(s[p..], 3);
    }
  }

  /**
   * cpmsize: writes the CP/M name into the slot as it reads the file name; the size is 0 if the member cannot be
   * listed.
   */
  method CpmSize(m: Member, slot: seq<byte>) returns (size: nat, slot': seq<byte>)
    requires |slot| == 11
    ensures size == m.File().size && slot' == Over(Converted(m.filename).0, slot)
  {
    hide Usable, Upper, Over, Run, Field, Blanks, Converted;
    var s := m.filename;
    var k;
    ConvertedCases(s);
    OverNothing(slot);
    k, slot' := CopyUsable(s, 0, slot, slot, [], 0, 8);
    assert s[0..0 + k] == s[..k] && [] + Upper(s[..k]) == Upper(s[..k]);
    if k < 8 && k < |s| && s[k] != DOT {
      return 0, slot';
    }
    slot' := PadBlanks(slot', slot, Upper(s[..k]), k, 8);
    FieldIs(s[..k], 8);
    if k < |s| && s[k] != DOT {
      return 0, slot';
    }
    var p := if k < |s| then k + 1 else k;
    var ok;
    ok, slot' := ConvertExt(s, p, slot', slot, Field(s[..k], 8));
    size := if ok then m.size else 0;
  }

  lemma FieldIs(s: seq<byte>, n: nat)
    requires |s| <= n
    ensures Upper(s) + Blanks(n - |s|) == Field(s, n)
  {
  }

  /** The outcomes in the order in which the loops find out. */
  function Outcomes(s: seq<byte>): (seq<byte>, bool) {
    var k := Run(s, 0, 8);
    if k < 8 && k < |s| && s[k] != DOT then (Upper(s[..k]), false)
    else if k < |s| && s[k] != DOT then (Field(s[..k], 8), false)
    else
      var p := if k < |s| then k + 1 else k;
      var e := Run(s, p, 3);
      (Field(s[..k], 8) + if p + e == |s| then Field(s[p..], 3) else Upper(s[p..p + e]), p + e == |s|)
  }

  lemma ConvertedCases(s: seq<byte>)
    ensures Converted(s) == Outcomes(s)
  {
    hide Usable, Upper, Field, Blanks;
    var k := Run(s, 0, 8);
    if k == |s| {
      NoExt(s);
      assert s[..k] == s;
    }
  }

  lemma OverNothing(slot: seq<byte>)
    ensures Over([], slot) == slot
  {
  }

  lemma NoExt(s: seq<byte>)
    ensures Field(s[|s|..], 3) == Blanks(3) && Run(s, |s|, 3) == 0
  {
  }
}
