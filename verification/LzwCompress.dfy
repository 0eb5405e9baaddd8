/**
 * The other direction: a compressor that replaces each longest string of its table by the token for it. The
 * decompressor gives back what it was given, as far as no token goes through 257.
 */
module LzwCompress {
  import opened Geometry
  import opened LzwTokens
  import opened Lzw

  /** The single bytes at 1..256, and no empty string behind them. */
  ghost predicate TableOk(table: seq<seq<byte>>) {
    && 257 <= |table| <= 0x1000
    && (forall n :: 1 <= n <= 256 ==> table[n] == [n - 1])
    && (forall n :: 1 <= n < |table| ==> table[n] != [])
  }

  /** The token below `n` for the longest string that `x` starts with. */
  function Longest(table: seq<seq<byte>>, x: seq<byte>, n: nat): (k: nat)
    requires TableOk(table) && x != [] && 257 <= n <= |table|
    ensures 1 <= k < n && table[k] <= x
    ensures forall m :: 1 <= m < n && table[m] <= x ==> |table[m]| <= |table[k]|
  {
    if n == 257 then x[0] + 1
    else
      var k := Longest(table, x, n - 1);
      if table[n - 1] <= x && |table[n - 1]| > |table[k]| then n - 1 else k
  }

  /** The table of at most 4096 strings grows by the string replaced and the byte behind it. */
  function Grow(table: seq<seq<byte>>, s: seq<byte>, rest: seq<byte>): seq<seq<byte>> {
    if rest != [] && |table| < 4096 then table + [s + [rest[0]]] else table
  }

  function Compress(table: seq<seq<byte>>, x: seq<byte>): (ts: seq<token>)
    requires TableOk(table)
    ensures forall i :: 0 <= i < |ts| ==> ts[i] > 0
    decreases |x|
  {
    if x == [] then []
    else
      var k := Longest(table, x, |table|);
      var rest := x[|table[k]|..];
      [k] + Compress(Grow(table, table[k], rest), rest)
  }

  function Singles(): (table: seq<seq<byte>>)
    ensures TableOk(table) && |table| == 257
  {
    seq<seq<byte>>(257, n requires 0 <= n < 257 => if n == 0 then [] else [n - 1])
  }

  function Compressed(x: seq<byte>): seq<token> {
    Compress(Singles(), x)
  }

  lemma FlatMore(s: seq<byte>, pieces: seq<seq<byte>>)
    ensures Flat([s] + pieces) == s + Flat(pieces)
  {
    var all := [s] + pieces;
    if pieces == [] {
      assert all[..0] == [];
    } else {
      var n := |pieces| - 1;
      assert all[..n + 1] == [s] + pieces[..n];
      FlatMore(s, pieces[..n]);
    }
  }

  /** Decoded without failure, and the strings make up `x`. */
  ghost predicate Gives(d: Decoded, x: seq<byte>) {
    d.ok && Flat(d.pieces) == x
  }

  /** One token: the decoder finds the string, the newest one before it is in its table, and its table catches up. */
  lemma TokenDecoded(st: RefState, table: seq<seq<byte>>, x: seq<byte>)
    requires TableOk(st.table) && st.w != [] && x != [] && table == Grow(st.table, st.w, x) && TableOk(table)
    ensures var k := Longest(table, x, |table|);
            && RefString(st, k) == table[k] && RefStep(st, table[k]).table == table
  {
    var k := Longest(table, x, |table|);
    assert table[k][0] == x[0];
  }

  lemma GrowOk(table: seq<seq<byte>>, s: seq<byte>, rest: seq<byte>)
    requires TableOk(table)
    ensures TableOk(Grow(table, s, rest))
  {
  }

  /** The decoder is one string behind, and the first byte of what comes next completes it. */
  lemma {:induction false} StreamDecoded(st: RefState, x: seq<byte>)
    requires TableOk(st.table) && st.w != [] && TableOk(Grow(st.table, st.w, x))
    ensures Gives(RefDecode(st, Compress(Grow(st.table, st.w, x), x)), x)
    decreases |x|
  {
    var table := Grow(st.table, st.w, x);
    if x != [] {
      var k := Longest(table, x, |table|);
      var s, rest := table[k], x[|table[k]|..];
      TokenDecoded(st, table, x);
      hide TableOk, Grow, RefStep, RefString;
      GrowOk(table, s, rest);
      var st' := RefStep(st, s);
      StreamDecoded(st', rest);
      var ts := Compress(Grow(table, s, rest), rest);
      FlatMore(s, RefDecode(st', ts).pieces);
      assert ([k] + ts)[1..] == ts;
      assert x == s + rest;
    }
  }

  lemma FirstToken(x: seq<byte>)
    requires x != []
    ensures Longest(Singles(), x, 257) == x[0] as nat + 1 && Singles()[x[0] as nat + 1] == [x[0]]
            && Singles() == InitialTable()
  {
  }

  lemma CompressedFirst(x: seq<byte>)
    requires x != []
    ensures TableOk(InitialTable()) && TableOk(Grow(InitialTable(), [x[0]], x[1..]))
    ensures Compressed(x) == [x[0] as nat + 1] + Compress(Grow(InitialTable(), [x[0]], x[1..]), x[1..])
  {
    FirstToken(x);
    GrowOk(Singles(), [x[0]], x[1..]);
    hide Grow, TableOk, Longest;
    assert |[x[0]]| == 1;
  }

  lemma TextbookFirst(b: byte, ts: seq<token>)
    ensures Textbook([b as nat + 1] + ts) == Prepend([[b]], RefDecode(RefState(InitialTable(), [b]), ts))
  {
    hide RefDecode;
    assert ([b as nat + 1] + ts)[1..] == ts;
  }

  /** What is compressed decodes to what it was, for every byte sequence. */
  lemma CompressedDecodes(x: seq<byte>)
    ensures Gives(Textbook(Compressed(x)), x)
  {
    if x != [] {
      var st, rest := RefState(InitialTable(), [x[0]]), x[1..];
      CompressedFirst(x);
      var ts := Compress(Grow(st.table, [x[0]], rest), rest);
      hide TableOk, Grow, Compress, Compressed, Textbook, RefDecode;
      StreamDecoded(st, rest);
      TextbookFirst(x[0], ts);
      FlatMore([x[0]], RefDecode(st, ts).pieces);
      assert x == [x[0]] + rest;
    }
  }

  /** A decoder that does not fail has a string for every token. */
  lemma {:induction false} OneEach(st: RefState, ts: seq<token>)
    requires st.w != [] && RefDecode(st, ts).ok
    ensures |RefDecode(st, ts).pieces| == |ts|
    decreases |ts|
  {
    hide RefString, RefStep;
    if ts != [] {
      OneEach(RefStep(st, RefString(st, ts[0])), ts[1..]);
    }
  }

  lemma AllPieces(ts: seq<token>)
    requires Textbook(ts).ok
    ensures |Textbook(ts).pieces| == |ts|
  {
    if ts != [] {
      OneEach(RefState(InitialTable(), [ts[0] - 1]), ts[1..]);
    }
  }

  lemma FirstIsLiteral(x: seq<byte>)
    requires Tokens(Pack(Compressed(x)), 0) == Compressed(x)
    ensures Word(Pack(Compressed(x)), 0) <= 256
  {
    if x != [] {
      FirstToken(x);
      assert Compressed(x)[0] == x[0] as nat + 1;
    }
    hide Word;
  }

  /** The whole way: compressed, packed into 12-bit words, unpacked and decompressed. */
  method RoundTrip(x: seq<byte>) returns (ok: bool, y: seq<byte>)
    ensures ok
    ensures var ts := Compressed(x); y == x <==> forall i :: 0 <= i < |ts| ==> !Bad(ts, ts[i])
  {
    var ts := Compressed(x);
    UnpackPacked(ts);
    CompressedDecodes(x);
    var d := new Decoder(Pack(ts));
    FirstIsLiteral(x);
    ghost var pieces;
    ok, pieces := d.Decomp();
    y := d.output;
    assert Decoded(pieces, ok) == Textbook(ts);
    AllPieces(ts);
    hide *;
    OutputExactIff(ts, pieces);
  }
}
