/** The LoadDskF decompressor: LZW with a linked dictionary that is expanded through a stack. */
module Lzw {
  import opened Geometry
  import opened LzwTokens

  const MAXDICT := 0x1000

  /** A dictionary string: a token or literal, followed by a literal; 0 stands for nothing. Literals are 1..256. */
  datatype DictBlock = DictBlock(first: nat, second: nat)

  // ----- The textbook decoder, which stores whole strings -----

  /** The strings so far (1..256 are the single bytes), and the string of the previous token. */
  datatype RefState = RefState(table: seq<seq<byte>>, w: seq<byte>)

  /** The strings of the tokens decoded, and whether the stream was good up to its end. */
  datatype Decoded = Decoded(pieces: seq<seq<byte>>, ok: bool)

  function InitialTable(): (t: seq<seq<byte>>)
    ensures |t| == 257 && forall n :: 1 <= n <= 256 ==> t[n] == [n - 1]
  {
    seq<seq<byte>>(257, n requires 0 <= n < 257 => if n == 0 then [] else [n - 1])
  }

  function RefStep(st: RefState, s: seq<byte>): (st': RefState)
    requires s != []
    ensures st'.w == s
  {
    RefState(if |st.table| < MAXDICT then st.table + [st.w + [s[0]]] else st.table, s)
  }

  /** The string a token stands for; a token just ahead of the table repeats the previous string. */
  function RefString(st: RefState, k: token): seq<byte>
    requires st.w != []
  {
    if k < |st.table| then st.table[k] else if k == |st.table| then st.w + [st.w[0]] else []
  }

  function RefDecode(st: RefState, ts: seq<token>): Decoded
    requires st.w != []
    decreases |ts|
  {
    if ts == [] then Decoded([], true)
    else
      var s := RefString(st, ts[0]);
      if s == [] then Decoded([], false)
      else
        var rest := RefDecode(RefStep(st, s), ts[1..]);
        Decoded([s] + rest.pieces, rest.ok)
  }

  // ----- Strings of the linked dictionary -----

  /** Literals stand for themselves, entries refer to smaller entries, the rest is blank. */
  ghost predicate DictOk(d: seq<DictBlock>, size: nat) {
    && |d| == MAXDICT && 257 <= size <= MAXDICT
    && (forall n :: 1 <= n <= 256 ==> d[n] == DictBlock(n, 0))
    && (forall n :: 257 <= n < size ==> 0 < d[n].first < n && 1 <= d[n].second <= 256)
    && d[0] == DictBlock(0, 0) && (forall n :: size <= n < MAXDICT ==> d[n] == DictBlock(0, 0))
  }

  /** A block whose parts are in the dictionary. */
  ghost predicate BlockOk(e: DictBlock, size: nat) {
    0 < e.first < size && e.second <= 256
  }

  /** The string of entry `n`. */
  ghost function Str(d: seq<DictBlock>, size: nat, n: nat): (s: seq<byte>)
    requires DictOk(d, size) && 1 <= n < size
    ensures s != []
    decreases n
  {
    if n <= 256 then [n - 1] else Str(d, size, d[n].first) + [d[n].second - 1]
  }

  /** The string of a block. */
  ghost function BlockStr(d: seq<DictBlock>, size: nat, e: DictBlock): (s: seq<byte>)
    requires DictOk(d, size) && BlockOk(e, size)
    ensures s != []
  {
    if e.second == 0 then Str(d, size, e.first) else Str(d, size, e.first) + [e.second - 1]
  }

  lemma BlockStrIsStr(d: seq<DictBlock>, size: nat, n: nat)
    requires DictOk(d, size) && 1 <= n < size
    ensures BlockOk(d[n], size) && BlockStr(d, size, d[n]) == Str(d, size, n)
  {
  }

  /** Expanding token `n` goes through an entry that starts with token 257. */
  ghost predicate Through257(d: seq<DictBlock>, size: nat, n: nat)
    requires DictOk(d, size) && 1 <= n < size
    decreases n
  {
    n > 257 && (d[n].first == 257 || Through257(d, size, d[n].first))
  }

  ghost predicate BlockThrough257(d: seq<DictBlock>, size: nat, e: DictBlock)
    requires DictOk(d, size) && BlockOk(e, size)
  {
    e.first == 257 || Through257(d, size, e.first)
  }

  /** What the loop of dskf_output_entry writes: token 257 in front is taken for a literal. */
  ghost function Written(d: seq<DictBlock>, size: nat, e: DictBlock): seq<byte>
    requires DictOk(d, size) && BlockOk(e, size)
    decreases e.first
  {
    (if e.first <= 257 then [(e.first - 1) % 256] else Written(d, size, d[e.first]))
    + (if e.second == 0 then [] else [e.second - 1])
  }

  /** A zero byte in place of the two bytes of token 257. */
  function Damaged(s: seq<byte>, bad: bool): (r: seq<byte>)
    ensures |r| == if bad && |s| >= 2 then |s| - 1 else |s|
  {
    if bad && |s| >= 2 then [0] + s[2..] else s
  }

  lemma DamagedAppend(s: seq<byte>, bad: bool, t: seq<byte>)
    requires bad ==> |s| >= 2
    ensures Damaged(s, bad) + t == Damaged(s + t, bad)
  {
  }

  /** The exact effect of taking 257 for a literal. */
  lemma {:induction false} WrittenIs(d: seq<DictBlock>, size: nat, e: DictBlock)
    requires DictOk(d, size) && BlockOk(e, size)
    ensures BlockThrough257(d, size, e) ==> |BlockStr(d, size, e)| >= 2
    ensures Written(d, size, e) == Damaged(BlockStr(d, size, e), BlockThrough257(d, size, e))
    decreases e.first
  {
    hide DictOk, Damaged, Written, Through257;
    DictMeans(d, size, e.first);
    BlockParts(d, size, e);
    if e.first == 257 {
      ShortString(d, size);
      TwoBytesDamaged(Str(d, size, 257));
    } else if e.first < 257 {
      NotDamaged(Str(d, size, e.first));
    } else {
      BlockStrIsStr(d, size, e.first);
      WrittenIs(d, size, d[e.first]);
    }
    DamagedAppend(Str(d, size, e.first), BlockThrough257(d, size, e), Tail(e));
  }

  function Tail(e: DictBlock): seq<byte>
    requires e.second <= 256
  {
    if e.second == 0 then [] else [e.second - 1]
  }

  lemma BlockParts(d: seq<DictBlock>, size: nat, e: DictBlock)
    requires DictOk(d, size) && BlockOk(e, size)
    ensures BlockStr(d, size, e) == Str(d, size, e.first) + Tail(e)
    ensures e.first > 257 ==> BlockOk(d[e.first], size) && Written(d, size, e) == Written(d, size, d[e.first]) + Tail(e)
    ensures e.first <= 257 ==> Written(d, size, e) == [(e.first - 1) % 256] + Tail(e)
    ensures e.first <= 256 ==> Str(d, size, e.first) == [e.first - 1] && !BlockThrough257(d, size, e)
    ensures e.first > 257 ==> BlockThrough257(d, size, e) == BlockThrough257(d, size, d[e.first])
  {
  }

  lemma DictMeans(d: seq<DictBlock>, size: nat, n: nat)
    requires DictOk(d, size) && 1 <= n < size
    ensures |d| == MAXDICT && size <= MAXDICT && BlockOk(d[n], size)
    ensures n < 257 ==> d[n] == DictBlock(n, 0)
    ensures n >= 257 ==> d[n].first < n && d[n].second > 0
  {
  }

  lemma NotDamaged(s: seq<byte>)
    ensures Damaged(s, false) == s
  {
  }

  lemma TwoBytesDamaged(s: seq<byte>)
    requires |s| == 2
    ensures Damaged(s, true) == [0]
  {
  }

  lemma ShortString(d: seq<DictBlock>, size: nat)
    requires DictOk(d, size) && size > 257
    ensures |Str(d, size, 257)| == 2
  {
  }

  /** The bytes a block pushes by itself. */
  function OwnBytes(e: DictBlock): seq<byte>
    requires e.second <= 256
  {
    (if 0 < e.first <= 257 then [(e.first - 1) % 256] else []) + (if e.second == 0 then [] else [e.second - 1])
  }

  lemma WrittenStep(d: seq<DictBlock>, size: nat, e: DictBlock)
    requires DictOk(d, size) && BlockOk(e, size)
    ensures BlockOk(d[e.first], size) && (e.first > 257 ==> d[e.first].first < e.first)
    ensures Written(d, size, e) == (if e.first > 257 then Written(d, size, d[e.first]) else []) + OwnBytes(e)
  {
    DictMeans(d, size, e.first);
  }

  // ----- The decoder -----

  class Decoder {
    const input: seq<byte>
    var at: nat
    var output: seq<byte>
    const dict: array<DictBlock>
    const stack: array<byte>
    var toggle: bool
    var pending: nat

    /** The number of words read so far. */
    ghost var words: nat

    /** The reader stands behind word `words` - 1. */
    ghost predicate Reading()
      reads this
    {
      && toggle == (words % 2 == 1) && at == words / 2 * 3 + (if toggle then 2 else 0)
      && (toggle ==> 2 <= at <= |input| && pending == input[at - 1] % 16)
    }

    constructor (input: seq<byte>)
      ensures this.input == input && output == [] && words == 0 && Reading()
      ensures dict.Length == MAXDICT && stack.Length == MAXDICT && fresh(dict) && fresh(stack)
    {
      this.input := input;
      at, output, toggle, pending, words := 0, [], false, 0, 0;
      dict := new DictBlock[MAXDICT](_ => DictBlock(0, 0));
      stack := new byte[MAXDICT](_ => 0);
    }

    /** The next word; 0 at the end of the input. */
    method GetWord() returns (k: token)
      requires Reading()
      modifies this`at, this`toggle, this`pending, this`words
      ensures k == Word(input, old(words))
      ensures k != 0 ==> Reading() && words == old(words) + 1
    {
      toggle := !toggle;
      ghost var p := words / 2 * 3;
      words := words + 1;
      if !toggle {
        if at >= |input| {
          return 0;
        }
        var ch := input[at];
        at := at + 1;
        return OddWord(pending, ch);
      } else {
        if at + 1 >= |input| {
          at := |input|;
          return 0;
        }
        var hi, lo := input[at], input[at + 1];
        at := at + 2;
        pending := lo % 16;
        return EvenWord(hi, lo);
      }
    }

    /** The first literal of a dictionary string. */
    method FirstWord(e: DictBlock, ghost size: nat) returns (k: nat)
      requires dict.Length == MAXDICT && DictOk(dict[..], size) && BlockOk(e, size)
      ensures 1 <= k <= 256 && k - 1 == BlockStr(dict[..], size, e)[0]
    {
      var db := e;
      while true
        invariant BlockOk(db, size) && BlockStr(dict[..], size, db)[0] == BlockStr(dict[..], size, e)[0]
        decreases db.first
      {
        if db.first < 257 {
          return db.first;
        }
        BlockStrIsStr(dict[..], size, db.first);
        db := dict[db.first];
      }
    }

    /** Pushes what a block holds itself, last byte first. */
    method Push(cur: DictBlock, stackCur: nat) returns (stackCur': nat)
      requires stack.Length == MAXDICT && cur.second <= 256 && stackCur + 2 <= MAXDICT
      modifies stack
      ensures stackCur' == stackCur + |OwnBytes(cur)| && stackCur' <= MAXDICT
      ensures Reverse(stack[..stackCur']) == OwnBytes(cur) + old(Reverse(stack[..stackCur]))
    {
      hide Reverse;
      stackCur' := stackCur;
      if cur.second != 0 {
        ReversePush(stack[..stackCur'], cur.second - 1);
        stack[stackCur'] := cur.second - 1;
        stackCur' := stackCur' + 1;
        assert stack[..stackCur'] == old(stack[..stackCur]) + [cur.second - 1];
      }
      if cur.first <= 257 && cur.first > 0 {
        ReversePush(stack[..stackCur'], (cur.first - 1) % 256);
        ghost var before := stack[..stackCur'];
        stack[stackCur'] := (cur.first - 1) % 256;
        stackCur' := stackCur' + 1;
        assert stack[..stackCur'] == before + [(cur.first - 1) % 256];
      }
    }

    /** Writes the bytes on the stack, last one first. */
    method PopAll(stackCur: nat)
      requires stackCur <= stack.Length
      modifies this`output
      ensures output == old(output) + Reverse(stack[..stackCur])
    {
      var n := stackCur;
      while n > 0
        invariant 0 <= n <= stackCur && output + Reverse(stack[..n]) == old(output) + Reverse(stack[..stackCur])
      {
        assert stack[..n][..n - 1] == stack[..n - 1];
        n := n - 1;
        output := output + [stack[n]];
      }
    }

    /** Writes a dictionary string: pushes it back to front, then empties the stack. */
    method OutputEntry(e: DictBlock, ghost size: nat)
      requires dict.Length == MAXDICT && stack.Length == MAXDICT && DictOk(dict[..], size) && BlockOk(e, size)
      modifies this`output, stack
      ensures output == old(output) + Written(dict[..], size, e)
    {
      hide DictOk, Written, OwnBytes, Reverse;
      var stackCur: nat := 0;
      var db := e;
      var cur := e;
      ghost var d := dict[..];
      SizeBound(d, size);
      EmptyReverse(stack[..0]);
      while true
        invariant BlockOk(db, size) && stackCur + db.first < MAXDICT && dict[..] == d && output == old(output)
        invariant Written(d, size, db) + Reverse(stack[..stackCur]) == Written(d, size, e)
        decreases db.first
      {
        cur := db;
        WrittenStep(d, size, cur);
        OwnLength(cur);
        ghost var tail := Reverse(stack[..stackCur]);
        stackCur := Push(cur, stackCur);
        if cur.first <= 257 {
          break;
        }
        db := dict[cur.first];
        assert Written(d, size, db) + (OwnBytes(cur) + tail) == (Written(d, size, db) + OwnBytes(cur)) + tail;
      }
      PopAll(stackCur);
    }

    /** Entries 1 to 256 map to themselves, the others to blank. */
    method InitDict()
      requires dict.Length == MAXDICT
      modifies dict
      ensures DictOk(dict[..], 257)
    {
      for n := 0 to MAXDICT
        invariant forall m :: 0 <= m < n ==> dict[m] == DictBlock(0, 0)
      {
        dict[n] := DictBlock(0, 0);
      }
      for n := 1 to 257
        invariant forall m :: 0 <= m < MAXDICT ==> dict[m] == DictBlock(if 1 <= m < n then m else 0, 0)
      {
        dict[n] := dict[n].(first := n);
      }
    }

    /** The block a token stands for; a token just ahead of the dictionary is being used and added at the same time. */
    method FindEntry(w: token, k: token, size: nat, ghost ts: seq<token>, ghost i: nat, ghost st: RefState)
      returns (ok: bool, entry: DictBlock)
      requires dict.Length == MAXDICT && InStep(dict[..], size, ts, i, st)
      requires i < |ts| && w == ts[i - 1] && k == ts[i] > 0
      ensures ok <==> RefString(st, k) != []
      ensures ok ==> BlockOk(entry, size) && BlockStr(dict[..], size, entry) == RefString(st, k)
      ensures ok ==> BlockThrough257(dict[..], size, entry) == Bad(ts, k)
    {
      hide DictOk, Through257, Bad, Str;
      ghost var d := dict[..];
      SizeBound(d, size);
      Blank(d, size, k);
      entry := DictBlock(0, 0);
      if dict[k].first != 0 {
        entry := dict[k];
        BlockStrIsStr(d, size, k);
        ThroughIsBad(d, size, ts, i, st, k);
        OwnThrough(d, size, k);
        return true, entry;
      } else if k == size {
        BlockStrIsStr(d, size, w);
        var second := FirstWord(dict[w], size);
        entry := DictBlock(w, second);
        ThroughIsBad(d, size, ts, i, st, w);
        NewTokenBad(ts, i, size);
        return true, entry;
      }
      return false, entry;
    }

    /** Adds the previous token followed by the first byte of this one, while there is room. */
    method Extend(w: token, entry: DictBlock, size: nat, ghost ts: seq<token>, ghost i: nat, ghost st: RefState)
      returns (size': nat)
      requires dict.Length == MAXDICT && InStep(dict[..], size, ts, i, st) && i < |ts| && w == ts[i - 1] && ts[i] > 0
      requires BlockOk(entry, size) && BlockStr(dict[..], size, entry) == RefString(st, ts[i])
      modifies dict
      ensures InStep(dict[..], size', ts, i + 1, RefStep(st, RefString(st, ts[i])))
    {
      hide DictOk, Str;
      ghost var d := dict[..];
      SizeBound(d, size);
      size' := size;
      if size < MAXDICT {
        var e0 := FirstWord(entry, size);
        DictGrows(d, size, w, e0);
        dict[size] := DictBlock(w, e0);
        size' := size + 1;
      }
      StepInStep(d, dict[..], size, size', ts, i, st, entry);
    }

    /** Decodes one token after the first; fails if it lies ahead of the dictionary. */
    method DecodeToken(w: token, k: token, size: nat, ghost ts: seq<token>, ghost i: nat, ghost st: RefState)
      returns (ok: bool, size': nat)
      requires dict.Length == MAXDICT && stack.Length == MAXDICT && InStep(dict[..], size, ts, i, st)
      requires i < |ts| && w == ts[i - 1] && k == ts[i] > 0
      modifies this`output, dict, stack
      ensures ok <==> RefString(st, k) != []
      ensures ok ==> var s := RefString(st, k);
                     && (Bad(ts, k) ==> |s| >= 2) && output == old(output) + Damaged(s, Bad(ts, k))
                     && InStep(dict[..], size', ts, i + 1, RefStep(st, s))
      ensures !ok ==> output == old(output)
    {
      hide InStep, Bad, RefString, RefStep, Damaged, BlockStr, BlockThrough257, Written;
      InStepDict(dict[..], size, ts, i, st);
      var entry;
      ok, entry := FindEntry(w, k, size, ts, i, st);
      size' := size;
      if ok {
        WrittenIs(dict[..], size, entry);
        OutputEntry(entry, size);
        size' := Extend(w, entry, size, ts, i, st);
      }
    }

    /** Decompresses the stream; fails on a token ahead of the dictionary. */
    method Decomp() returns (ok: bool, ghost pieces: seq<seq<byte>>)
      requires Reading() && words == 0 && output == [] && dict.Length == MAXDICT && stack.Length == MAXDICT
      requires Word(input, 0) <= 256
      modifies this, dict, stack
      ensures Decoded(pieces, ok) == Textbook(Tokens(input, 0)) && |pieces| <= |Tokens(input, 0)|
      ensures output == Output(Tokens(input, 0), pieces) && LongEnough(Tokens(input, 0), pieces)
    {
      hide DictOk, RefDecode, RefString, Bad, Damaged, Word, Written, InStep, Textbook, Output, LongEnough, Tokens,
           RefStep;
      ghost var ts := Tokens(input, 0);
      pieces := [];
      NoOutput(ts);
      InitDict();
      var size := 257;
      NextToken(input, 0, ts);
      var k := GetWord();
      if k == 0 {
        return true, [];
      }
      OutputEntry(DictBlock(k, 0), size);
      ghost var st := RefState(InitialTable(), [k - 1]);
      FirstToken(dict[..], ts, st);
      var w := k;
      pieces := [[k - 1]];
      while true
        invariant Reading() && words == |pieces| && 0 < words <= |ts| && ts[words..] == Tokens(input, words)
        invariant InStep(dict[..], size, ts, words, st) && w == ts[words - 1] && st.w != []
        invariant Textbook(ts) == Prepend(pieces, RefDecode(st, ts[words..]))
        invariant output == Output(ts, pieces) && LongEnough(ts, pieces)
        decreases |ts| - words
      {
        ghost var i := words;
        NextToken(input, i, ts);
        k := GetWord();
        if k == 0 {
          NothingLeft(st, ts[i..]);
          return true, pieces;
        }
        RefNext(pieces, st, ts, i);
        ok, size := DecodeToken(w, k, size, ts, i, st);
        if !ok {
          return false, pieces;
        }
        ghost var s := RefString(st, k);
        OneMorePiece(ts, pieces, s);
        pieces := pieces + [s];
        st := RefStep(st, s);
        w := k;
      }
    }
  }

  // ----- The whole stream -----

  /** The stream decoded with whole strings; the first token must be a literal. */
  function Textbook(ts: seq<token>): Decoded {
    if ts == [] then Decoded([], true)
    else if 1 <= ts[0] <= 256 then Prepend([[ts[0] - 1]], RefDecode(RefState(InitialTable(), [ts[0] - 1]), ts[1..]))
    else Decoded([], false)
  }

  function Prepend(pieces: seq<seq<byte>>, rest: Decoded): Decoded {
    Decoded(pieces + rest.pieces, rest.ok)
  }

  /** What is written: every string, damaged where its token goes through 257. */
  function Output(ts: seq<token>, pieces: seq<seq<byte>>): seq<byte>
    requires |pieces| <= |ts|
  {
    if pieces == [] then []
    else
      var n := |pieces| - 1;
      Output(ts, pieces[..n]) + Damaged(pieces[n], Bad(ts, ts[n]))
  }

  ghost predicate LongEnough(ts: seq<token>, pieces: seq<seq<byte>>)
    requires |pieces| <= |ts|
  {
    forall i :: 0 <= i < |pieces| && Bad(ts, ts[i]) ==> |pieces[i]| >= 2
  }

  /** The decompressed bytes. */
  function Flat(pieces: seq<seq<byte>>): seq<byte> {
    if pieces == [] then [] else Flat(pieces[..|pieces| - 1]) + pieces[|pieces| - 1]
  }

  /** How many tokens go through 257. */
  function BadCount(ts: seq<token>, n: nat): nat
    requires n <= |ts|
  {
    if n == 0 then 0 else BadCount(ts, n - 1) + if Bad(ts, ts[n - 1]) then 1 else 0
  }

  /** Every token that goes through 257 costs one byte. */
  lemma {:induction false} OutputLength(ts: seq<token>, pieces: seq<seq<byte>>)
    requires |pieces| <= |ts| && LongEnough(ts, pieces)
    ensures |Output(ts, pieces)| + BadCount(ts, |pieces|) == |Flat(pieces)|
    ensures BadCount(ts, |pieces|) == 0 ==> Output(ts, pieces) == Flat(pieces)
    decreases |pieces|
  {
    hide Bad;
    if pieces != [] {
      var n := |pieces| - 1;
      OutputLength(ts, pieces[..n]);
    }
  }

  lemma {:induction false} BadCountZero(ts: seq<token>, n: nat)
    requires n <= |ts|
    ensures BadCount(ts, n) == 0 <==> forall i :: 0 <= i < n ==> !Bad(ts, ts[i])
  {
    if n > 0 {
      BadCountZero(ts, n - 1);
    }
  }

  /** The output is what the textbook decoder produces exactly when no token goes through 257. */
  lemma OutputExactIff(ts: seq<token>, pieces: seq<seq<byte>>)
    requires |pieces| <= |ts| && LongEnough(ts, pieces)
    ensures Output(ts, pieces) == Flat(pieces) <==> forall i :: 0 <= i < |pieces| ==> !Bad(ts, ts[i])
  {
    OutputLength(ts, pieces);
    BadCountZero(ts, |pieces|);
  }

  /** A stream that never uses token 257 is decoded exactly. */
  lemma NeverUsed257(ts: seq<token>, n: nat)
    requires 257 !in ts
    ensures !Bad(ts, n)
    decreases n
  {
    if n > 257 && n - 257 < |ts| && ts[n - 257] < n {
      NeverUsed257(ts, ts[n - 257]);
    }
  }

  /** "a", "b", "ab", "a", "aba": the last token goes through 257, and a byte is lost. */
  lemma Through257Loses()
    ensures var ts: seq<token> := [98, 99, 257, 98, 259];
            && Textbook(ts) == Decoded([[97], [98], [97, 98], [97], [97, 98, 97]], true)
            && Output(ts, Textbook(ts).pieces) == [97, 98, 97, 98, 97, 0, 97]
            && Flat(Textbook(ts).pieces) == [97, 98, 97, 98, 97, 97, 98, 97]
  {
    hide RefDecode, RefStep, Output, Flat, Bad;
    var ts: seq<token> := [98, 99, 257, 98, 259];
    var st := RefState(InitialTable(), [97]);
    assert ts[1..] == ts[1..][0..];
    var st1 := TextbookStep([[97]], st, ts, 1, [98]);
    var st2 := TextbookStep([[97], [98]], st1, ts, 2, [97, 98]);
    var st3 := TextbookStep([[97], [98], [97, 98]], st2, ts, 3, [97]);
    var st4 := TextbookStep([[97], [98], [97, 98], [97]], st3, ts, 4, [97, 98, 97]);
    var pieces := [[97], [98], [97, 98], [97], [97, 98, 97]];
    assert RefDecode(st4, ts[5..]) == Decoded([], true) by {
      NothingLeft(st4, ts[5..]);
    }
    assert [[97]] + [[98]] == [[97], [98]];
    assert [[97], [98]] + [[97, 98]] == [[97], [98], [97, 98]];
    assert [[97], [98], [97, 98]] + [[97]] == [[97], [98], [97, 98], [97]];
    assert [[97], [98], [97, 98], [97]] + [[97, 98, 97]] == pieces;
    assert Textbook(ts) == Decoded(pieces, true);
    LastIsBad(ts);
    ByteLost(ts, pieces);
  }

  lemma ByteLost(ts: seq<token>, pieces: seq<seq<byte>>)
    requires ts == [98, 99, 257, 98, 259] && pieces == [[97], [98], [97, 98], [97], [97, 98, 97]]
    requires Bad(ts, ts[4]) && !Bad(ts, ts[0]) && !Bad(ts, ts[1]) && !Bad(ts, ts[2]) && !Bad(ts, ts[3])
    ensures Output(ts, pieces) == [97, 98, 97, 98, 97, 0, 97] && Flat(pieces) == [97, 98, 97, 98, 97, 97, 98, 97]
  {
    hide Bad;
    NoOutput(ts);
    assert pieces[..0] == [];
    assert pieces[..1][..0] == pieces[..0] && pieces[..2][..1] == pieces[..1];
    assert pieces[..3][..2] == pieces[..2] && pieces[..4][..3] == pieces[..3] && pieces[..5] == pieces;
    assert Output(ts, pieces[..1]) == [97] && Flat(pieces[..1]) == [97];
    assert Output(ts, pieces[..2]) == [97, 98] && Flat(pieces[..2]) == [97, 98];
    assert Output(ts, pieces[..3]) == [97, 98, 97, 98] && Flat(pieces[..3]) == [97, 98, 97, 98];
    assert Output(ts, pieces[..4]) == [97, 98, 97, 98, 97] && Flat(pieces[..4]) == [97, 98, 97, 98, 97];
    assert Damaged([97, 98, 97], true) == [0, 97];
  }

  lemma NothingLeft(st: RefState, ts: seq<token>)
    requires st.w != [] && ts == []
    ensures RefDecode(st, ts) == Decoded([], true)
  {
  }

  lemma LastIsBad(ts: seq<token>)
    requires ts == [98, 99, 257, 98, 259]
    ensures Bad(ts, ts[4]) && !Bad(ts, ts[0]) && !Bad(ts, ts[1]) && !Bad(ts, ts[2]) && !Bad(ts, ts[3])
  {
  }

  lemma TextbookStep(pieces: seq<seq<byte>>, st: RefState, ts: seq<token>, i: nat, s: seq<byte>) returns (st': RefState)
    requires i < |ts| && st.w != [] && s != [] && RefString(st, ts[i]) == s
    ensures st' == RefStep(st, s) && st'.w == s
    ensures st'.table == if |st.table| < MAXDICT then st.table + [st.w + [s[0]]] else st.table
    ensures Prepend(pieces, RefDecode(st, ts[i..])) == Prepend(pieces + [s], RefDecode(st', ts[i + 1..]))
  {
    RefNext(pieces, st, ts, i);
    st' := RefStep(st, s);
  }

  lemma NoOutput(ts: seq<token>)
    ensures Output(ts, []) == [] && LongEnough(ts, [])
    ensures ts == [] ==> Textbook(ts) == Decoded([], true)
  {
  }

  lemma NextToken(input: seq<byte>, i: nat, ts: seq<token>)
    requires i <= |ts| && ts[i..] == Tokens(input, i)
    ensures Word(input, i) == 0 ==> i == |ts|
    ensures Word(input, i) != 0 ==> i < |ts| && ts[i] == Word(input, i) && ts[i + 1..] == Tokens(input, i + 1)
  {
    if Word(input, i) != 0 {
      assert ts[i..] == [Word(input, i)] + Tokens(input, i + 1);
      assert ts[i] == ts[i..][0] && ts[i + 1..] == ts[i..][1..];
    }
  }

  lemma FirstToken(d: seq<DictBlock>, ts: seq<token>, st: RefState)
    requires DictOk(d, 257) && ts != [] && 1 <= ts[0] <= 256 && st == RefState(InitialTable(), [ts[0] - 1])
    ensures InStep(d, 257, ts, 1, st)
    ensures Written(d, 257, DictBlock(ts[0], 0)) == Output(ts, [[ts[0] - 1]]) && LongEnough(ts, [[ts[0] - 1]])
    ensures Textbook(ts) == Prepend([[ts[0] - 1]], RefDecode(st, ts[1..]))
  {
    assert !Bad(ts, ts[0]);
    hide Bad;
    assert [[ts[0] - 1]][..0] == [];
  }

  lemma RefNext(pieces: seq<seq<byte>>, st: RefState, ts: seq<token>, i: nat)
    requires i < |ts| && st.w != []
    ensures var s := RefString(st, ts[i]);
            && (s == [] ==> Prepend(pieces, RefDecode(st, ts[i..])) == Decoded(pieces, false))
            && (s != [] ==> Prepend(pieces, RefDecode(st, ts[i..]))
                            == Prepend(pieces + [s], RefDecode(RefStep(st, s), ts[i + 1..])))
  {
    hide RefString, RefStep;
    assert ts[i..][0] == ts[i] && ts[i..][1..] == ts[i + 1..];
    var s := RefString(st, ts[i]);
    if s != [] {
      var rest := RefDecode(RefStep(st, s), ts[i + 1..]);
      assert pieces + ([s] + rest.pieces) == (pieces + [s]) + rest.pieces;
    }
  }

  lemma OneMorePiece(ts: seq<token>, pieces: seq<seq<byte>>, s: seq<byte>)
    requires |pieces| < |ts| && LongEnough(ts, pieces) && (Bad(ts, ts[|pieces|]) ==> |s| >= 2)
    ensures LongEnough(ts, pieces + [s])
    ensures Output(ts, pieces + [s]) == Output(ts, pieces) + Damaged(s, Bad(ts, ts[|pieces|]))
  {
    hide Bad, Damaged;
    assert (pieces + [s])[..|pieces|] == pieces;
    forall i | 0 <= i < |pieces + [s]| && Bad(ts, ts[i])
      ensures |(pieces + [s])[i]| >= 2
    {
      assert i < |pieces| ==> (pieces + [s])[i] == pieces[i];
    }
  }

  lemma InStepDict(d: seq<DictBlock>, size: nat, ts: seq<token>, i: nat, st: RefState)
    requires InStep(d, size, ts, i, st)
    ensures DictOk(d, size) && st.w != []
  {
  }

  /** Entries are blank exactly from `size` on. */
  lemma Blank(d: seq<DictBlock>, size: nat, k: token)
    requires DictOk(d, size) && k > 0
    ensures d[k].first != 0 <==> k < size
  {
  }

  lemma OwnThrough(d: seq<DictBlock>, size: nat, k: nat)
    requires DictOk(d, size) && 1 <= k < size
    ensures BlockOk(d[k], size) && BlockThrough257(d, size, d[k]) == Through257(d, size, k)
  {
  }

  lemma {:induction false} ThroughIsBad(d: seq<DictBlock>, size: nat, ts: seq<token>, i: nat, st: RefState, n: nat)
    requires InStep(d, size, ts, i, st) && 1 <= n < size
    ensures Through257(d, size, n) == Bad(ts, n)
    decreases n
  {
    hide Str;
    if n > 257 {
      ThroughIsBad(d, size, ts, i, st, d[n].first);
    }
  }

  lemma NewTokenBad(ts: seq<token>, i: nat, size: nat)
    requires 0 < i <= |ts| && size == 256 + i && ts[i - 1] < size
    ensures size > 257 ==> Bad(ts, size) == (ts[i - 1] == 257 || Bad(ts, ts[i - 1]))
    ensures size == 257 ==> !Bad(ts, size) && !Bad(ts, ts[i - 1]) && ts[i - 1] != 257
  {
  }

  // ----- The dictionary and the textbook table in step -----

  /** A token whose expansion goes through token 257, in terms of the stream alone: entry 257 + j extends token j. */
  predicate Bad(ts: seq<token>, n: nat)
    decreases n
  {
    n > 257 && n - 257 < |ts| && (ts[n - 257] == 257 || (ts[n - 257] < n && Bad(ts, ts[n - 257])))
  }

  /** Adding an entry does not change the strings of the others. */
  lemma DictGrows(d: seq<DictBlock>, size: nat, w: nat, e0: nat)
    requires DictOk(d, size) && size < MAXDICT && 1 <= w < size && 1 <= e0 <= 256
    ensures var d' := d[size := DictBlock(w, e0)];
            && DictOk(d', size + 1)
            && (forall n :: 1 <= n < size ==> Str(d', size + 1, n) == Str(d, size, n))
            && Str(d', size + 1, size) == Str(d, size, w) + [e0 - 1]
  {
    var d' := d[size := DictBlock(w, e0)];
    forall n | 1 <= n < size
      ensures Str(d', size + 1, n) == Str(d, size, n)
    {
      StrKept(d, d', size, n);
    }
  }

  lemma {:induction false} StrKept(d: seq<DictBlock>, d': seq<DictBlock>, size: nat, n: nat)
    requires DictOk(d, size) && DictOk(d', size + 1) && 1 <= n < size
    requires forall m :: 1 <= m < size ==> d'[m] == d[m]
    ensures Str(d', size + 1, n) == Str(d, size, n)
    decreases n
  {
    if n > 256 {
      StrKept(d, d', size, d[n].first);
    }
  }

  /** After `i` tokens the dictionary spells the table. */
  ghost predicate InStep(d: seq<DictBlock>, size: nat, ts: seq<token>, i: nat, st: RefState) {
    && DictOk(d, size) && 0 < i <= |ts| && size == (if 256 + i < MAXDICT then 256 + i else MAXDICT)
    && (forall n :: 257 <= n < size ==> d[n].first == ts[n - 257])
    && |st.table| == size && (forall n :: 1 <= n < size ==> st.table[n] == Str(d, size, n))
    && 1 <= ts[i - 1] < size && st.w == Str(d, size, ts[i - 1])
  }

  lemma StepInStep(d: seq<DictBlock>, d': seq<DictBlock>, size: nat, size': nat, ts: seq<token>, i: nat, st: RefState,
                   e: DictBlock)
    requires InStep(d, size, ts, i, st) && i < |ts| && ts[i] > 0 && BlockOk(e, size)
             && BlockStr(d, size, e) == RefString(st, ts[i])
    requires size == MAXDICT ==> d' == d && size' == size
    requires size < MAXDICT ==> size' == size + 1
                                && d' == d[size := DictBlock(ts[i - 1], BlockStr(d, size, e)[0] as int + 1)]
    ensures InStep(d', size', ts, i + 1, RefStep(st, RefString(st, ts[i])))
  {
    hide Str;
    if size < MAXDICT {
      DictGrows(d, size, ts[i - 1], BlockStr(d, size, e)[0] as int + 1);
    }
  }

  lemma SizeBound(d: seq<DictBlock>, size: nat)
    requires DictOk(d, size)
    ensures |d| == MAXDICT && size <= MAXDICT
  {
  }

  lemma EmptyReverse(s: seq<byte>)
    requires s == []
    ensures Reverse(s) == []
  {
  }

  lemma OwnLength(e: DictBlock)
    requires e.second <= 256
    ensures |OwnBytes(e)| <= 2 && (e.first > 257 ==> |OwnBytes(e)| <= 1)
  {
  }

  lemma ReversePush(s: seq<byte>, x: byte)
    ensures Reverse(s + [x]) == [x] + Reverse(s)
  {
    assert (s + [x])[..|s|] == s;
  }

  function Reverse(s: seq<byte>): (r: seq<byte>)
    ensures |r| == |s|
  {
    if s == [] then [] else [s[|s| - 1]] + Reverse(s[..|s| - 1])
  }
}
