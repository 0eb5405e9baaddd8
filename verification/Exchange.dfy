/** exchange: rotates two adjacent segments of the argument vector in place. */
module Exchange {

  /** The segments [b,m) and [m,t) have changed places. */
  function Rotated<T>(s: seq<T>, b: nat, m: nat, t: nat): (r: seq<T>)
    requires b <= m <= t <= |s|
    ensures |r| == |s|
  {
    s[..b] + s[m..t] + s[b..m] + s[t..]
  }

  /** The ranges of length `len` at `p` and at `q` have changed places. */
  function Swapped<T>(s: seq<T>, p: nat, q: nat, len: nat): (r: seq<T>)
    requires p + len <= q && q + len <= |s|
    ensures |r| == |s|
  {
    s[..p] + s[q..q + len] + s[p + len..q] + s[p..p + len] + s[q + len..]
  }

  /** Swaps element by element. */
  method SwapRanges<T>(argv: array<T>, p: nat, q: nat, len: nat)
    requires p + len <= q && q + len <= argv.Length
    modifies argv
    ensures argv[..] == Swapped(old(argv[..]), p, q, len)
  {
    for i := 0 to len
      invariant forall k :: p <= k < p + i ==> argv[k] == old(argv[q + (k - p)])
      invariant forall k :: q <= k < q + i ==> argv[k] == old(argv[p + (k - q)])
      invariant forall k :: 0 <= k < argv.Length && !(p <= k < p + i) && !(q <= k < q + i) ==> argv[k] == old(argv[k])
    {
      var tem := argv[p + i];
      argv[p + i] := argv[q + i];
      argv[q + i] := tem;
    }
    SwappedAt(old(argv[..]), argv[..], p, q, len);
  }

  lemma SwappedAt<T>(s: seq<T>, s': seq<T>, p: nat, q: nat, len: nat)
    requires p + len <= q && q + len <= |s| == |s'|
    requires forall k :: p <= k < p + len ==> s'[k] == s[q + (k - p)]
    requires forall k :: q <= k < q + len ==> s'[k] == s[p + (k - q)]
    requires forall k :: 0 <= k < |s| && !(p <= k < p + len) && !(q <= k < q + len) ==> s'[k] == s[k]
    ensures s' == Swapped(s, p, q, len)
  {
  }

  /** The short bottom segment goes to the top end, where it belongs. */
  lemma BottomShort<T>(s: seq<T>, b: nat, m: nat, t: nat)
    requires b <= m <= t <= |s| && m - b <= t - m
    ensures Rotated(Swapped(s, b, t - (m - b), m - b), b, m, t - (m - b)) == Rotated(s, b, m, t)
  {
    var len := m - b;
    var s' := Swapped(s, b, t - len, len);
    var x, y, z := s[..b] + s[t - len..t], s[m..t - len], s[b..m] + s[t..];
    assert s' == x + y + z;
    Parts(x, y, z, s', m, t - len);
    assert s'[..b] == s[..b] && s'[b..m] == s[t - len..t];
    assert s[m..t] == y + s[t - len..t];
  }

  lemma Parts<T>(x: seq<T>, y: seq<T>, z: seq<T>, s: seq<T>, i: nat, k: nat)
    requires s == x + y + z && i == |x| && k == |x| + |y|
    ensures s[..i] == x && s[i..k] == y && s[k..] == z
  {
  }

  /** The short top segment goes to the bottom end, where it belongs. */
  lemma TopShort<T>(s: seq<T>, b: nat, m: nat, t: nat)
    requires b <= m <= t <= |s| && t - m <= m - b
    ensures Rotated(Swapped(s, b, m, t - m), b + (t - m), m, t) == Rotated(s, b, m, t)
  {
    var len := t - m;
    var s' := Swapped(s, b, m, len);
    assert s'[..b + len] == s[..b] + s[m..t];
    assert s'[m..t] == s[b..b + len];
    assert s'[b + len..m] == s[b + len..m];
    assert s'[t..] == s[t..];
    assert s[b..m] == s[b..b + len] + s[b + len..m];
  }

  lemma NothingToRotate<T>(s: seq<T>, b: nat, m: nat, t: nat)
    requires b <= m <= t <= |s| && (m == b || m == t)
    ensures Rotated(s, b, m, t) == s
  {
  }

  /** Exchanges the segments [bottom,middle) and [middle,top) by swapping blocks. */
  method ExchangeSegments<T>(argv: array<T>, first: nat, middle: nat, optind: nat)
    requires first <= middle <= optind <= argv.Length
    modifies argv
    ensures argv[..] == Rotated(old(argv[..]), first, middle, optind)
  {
    hide Rotated, Swapped;
    var bottom, top := first, optind;
    while top > middle && middle > bottom
      invariant first <= bottom <= middle <= top <= optind
      invariant Rotated(argv[..], bottom, middle, top) == Rotated(old(argv[..]), first, middle, optind)
      decreases top - bottom
    {
      if top - middle > middle - bottom {
        var len := middle - bottom;
        BottomShort(argv[..], bottom, middle, top);
        SwapRanges(argv, bottom, top - len, len);
        top := top - len;
      } else {
        var len := top - middle;
        TopShort(argv[..], bottom, middle, top);
        SwapRanges(argv, bottom, middle, len);
        bottom := bottom + len;
      }
    }
    NothingToRotate(argv[..], bottom, middle, top);
  }
}
