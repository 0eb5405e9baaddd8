/** The stream of 12-bit words in a compressed LoadDskF image. */
module LzwTokens {
  import opened Geometry

  type token = t: nat | t < 0x1000

  /** Word `j` of the stream: three bytes hold two words. Reading behind the end gives 0. */
  function Word(input: seq<byte>, j: nat): token {
    var p := j / 2 * 3;
    if j % 2 == 0 then
      if p + 1 < |input| then EvenWord(input[p], input[p + 1]) else 0
    else
      if p + 2 < |input| then OddWord(input[p + 1] % 16, input[p + 2]) else 0
  }

  /** (hi << 4) | (lo >> 4) */
  function EvenWord(hi: nat, lo: nat): token
    requires hi < 256 && lo < 256
  {
    hi * 16 + lo / 16
  }

  /** (pending << 8) | ch */
  function OddWord(pending: nat, ch: nat): token
    requires pending < 16 && ch < 256
  {
    pending * 256 + ch
  }

  /** Three bytes, the first one in front, are the same 24 bits as two words; a word that is cut off reads as 0. */
  lemma WordLaw(input: seq<byte>, i: nat)
    ensures 3 * i + 2 < |input| ==>
              var a: nat, b: nat, c: nat := input[3 * i], input[3 * i + 1], input[3 * i + 2];
              65536 * a + 256 * b + c == 4096 * Word(input, 2 * i) + Word(input, 2 * i + 1)
    ensures 3 * i + 2 == |input| ==>
              var a: nat, b: nat := input[3 * i], input[3 * i + 1];
              256 * a + b == 16 * Word(input, 2 * i) + b % 16 && Word(input, 2 * i + 1) == 0
    ensures 3 * i + 1 >= |input| ==> Word(input, 2 * i) == 0 && Word(input, 2 * i + 1) == 0
  {
    assert 2 * i / 2 == i && (2 * i + 1) / 2 == i;
  }

  /** The words from `j` on, up to the first 0. */
  function Tokens(input: seq<byte>, j: nat): (ts: seq<token>)
    ensures forall i :: 0 <= i < |ts| ==> ts[i] > 0
    decreases |input| - j
  {
    if Word(input, j) == 0 then [] else [Word(input, j)] + Tokens(input, j + 1)
  }

  /** How a compressor would pack the words. */
  function Pack(ts: seq<token>): seq<byte> {
    if ts == [] then []
    else if |ts| == 1 then [ts[0] / 16, ts[0] % 16 * 16]
    else [ts[0] / 16, ts[0] % 16 * 16 + ts[1] / 256, ts[1] % 256] + Pack(ts[2..])
  }

  lemma WordShift(a: seq<byte>, rest: seq<byte>, j: nat)
    requires |a| == 3
    ensures Word(a + rest, j + 2) == Word(rest, j)
  {
    var p := j / 2 * 3;
    assert (j + 2) / 2 * 3 == p + 3 && (j + 2) % 2 == j % 2;
  }

  lemma {:induction false} TokensShift(a: seq<byte>, rest: seq<byte>, j: nat)
    requires |a| == 3
    ensures Tokens(a + rest, j + 2) == Tokens(rest, j)
    decreases |rest| - j
  {
    WordShift(a, rest, j);
    if Word(rest, j) != 0 {
      TokensShift(a, rest, j + 1);
    }
  }

  /** Unpacking what was packed gives the words back. */
  lemma {:induction false} UnpackPacked(ts: seq<token>)
    requires forall i :: 0 <= i < |ts| ==> ts[i] > 0
    ensures Tokens(Pack(ts), 0) == ts
    decreases |ts|
  {
    var input := Pack(ts);
    if |ts| == 1 {
      assert Word(input, 0) == ts[0] && Word(input, 1) == 0;
      assert Tokens(input, 1) == [];
    } else if |ts| > 1 {
      var a := [ts[0] / 16, ts[0] % 16 * 16 + ts[1] / 256, ts[1] % 256];
      UnpackPacked(ts[2..]);
      TokensShift(a, Pack(ts[2..]), 0);
      TwoWords(ts[0], ts[1], input);
      TwoTokens(ts, input);
    }
  }

  lemma TwoTokens(ts: seq<token>, input: seq<byte>)
    requires |ts| >= 2 && Word(input, 0) == ts[0] > 0 && Word(input, 1) == ts[1] > 0 && Tokens(input, 2) == ts[2..]
    ensures Tokens(input, 0) == ts
  {
    hide Word;
    assert Tokens(input, 1) == [ts[1]] + ts[2..];
    assert ts == [ts[0]] + ([ts[1]] + ts[2..]);
  }

  lemma TwoWords(t: token, u: token, input: seq<byte>)
    requires |input| >= 3 && input[0] == t / 16 && input[1] == t % 16 * 16 + u / 256 && input[2] == u % 256
    ensures Word(input, 0) == t && Word(input, 1) == u
  {
  }
}
