/** Sector skew table generation (cpmReadSuper). */
module Skew {
  import opened Arithmetic

  /** A table that visits every sector of an `n`-sector track exactly once. */
  ghost predicate IsPermutation(tab: seq<nat>, n: nat) {
    && |tab| == n
    && (forall i :: 0 <= i < n ==> tab[i] < n)
    && (forall i, k :: 0 <= i < k < n ==> tab[i] != tab[k])
  }

  /** The sector the probing for slot `i` starts from. */
  function Start(tab: seq<nat>, i: nat, n: nat, skew: nat): nat
    requires n > 0 && i <= |tab|
  {
    if i == 0 then 0 else (tab[i - 1] + skew) % n
  }

  /** The sector reached after `e` probes. */
  function Probe(start: nat, e: nat, n: nat): nat
    requires n > 0
  {
    (start + e) % n
  }

  /** `j` lies `d` sectors behind `start` on the circular track, and every sector passed on the way is in use. */
  ghost predicate FirstFree(used: seq<nat>, n: nat, start: nat, d: nat, j: nat)
    requires n > 0
  {
    && d < n
    && j == Probe(start, d, n)
    && j !in used
    && forall e :: 0 <= e < d ==> Probe(start, e, n) in used
  }

  /** Slot `i` holds the first unused sector at or behind its starting point. */
  ghost predicate IsSkewSlot(tab: seq<nat>, i: nat, n: nat, skew: nat)
    requires n > 0 && i < |tab|
  {
    exists d: nat :: FirstFree(tab[..i], n, Start(tab, i, n, skew), d, tab[i])
  }

  ghost predicate IsSkewTable(tab: seq<nat>, n: nat, skew: nat)
    requires n > 0
  {
    && |tab| <= n
    && forall i :: 0 <= i < |tab| ==> IsSkewSlot(tab, i, n, skew)
  }

  // ----- Pigeonhole: fewer than n sectors in use leave one free -----

  function Range(n: nat): (s: set<nat>)
    ensures |s| == n
    ensures forall v: nat :: v in s <==> v < n
  {
    if n == 0 then {} else Range(n - 1) + {n - 1}
  }

  function Elements(s: seq<nat>): (e: set<nat>)
    ensures |e| <= |s|
    ensures forall v: nat :: v in e <==> v in s
  {
    if s == [] then {} else
      var e := Elements(s[1..]);
      assert s == [s[0]] + s[1..];
      e + {s[0]}
  }

  lemma Pigeonhole(used: seq<nat>, n: nat) returns (v: nat)
    requires |used| < n
    ensures v < n && v !in used
  {
    var free := Range(n) - Elements(used);
    if free == {} {
      SubsetSize(Range(n), Elements(used));
    }
    v :| v in free;
  }

  lemma SubsetSize(a: set<nat>, b: set<nat>)
    requires a <= b
    ensures |a| <= |b|
  {
    if a != {} {
      var x :| x in a;
      SubsetSize(a - {x}, b - {x});
    }
  }

  /** Probing from any start meets a free sector within one revolution. */
  lemma ProbeEnds(used: seq<nat>, n: nat, start: nat) returns (d: nat)
    requires |used| < n && start < n
    ensures d < n && Probe(start, d, n) !in used
  {
    var v := Pigeonhole(used, n);
    d := if v >= start then v - start else v + n - start;
    DivModUnique(start + d, n, if v >= start then 0 else 1, v);
  }

  // ----- The generator -----

  method InUse(tab: array<nat>, i: nat, j: nat) returns (b: bool)
    requires i <= tab.Length
    ensures b <==> j in tab[..i]
  {
    var k := 0;
    while k < i && tab[k] != j
      invariant 0 <= k <= i
      invariant j !in tab[..k]
    {
      k := k + 1;
    }
    assert k < i ==> tab[..i][k] == j;
    return k < i;
  }

  /** The probing loop for one slot: `d` counts the sectors it passes. */
  method NextUnused(tab: array<nat>, i: nat, start: nat) returns (j: nat, ghost d: nat)
    requires i < tab.Length && start < tab.Length
    ensures j < tab.Length && j !in tab[..i]
    ensures FirstFree(tab[..i], tab.Length, start, d, j)
  {
    ghost var used := tab[..i];
    ghost var bound := ProbeEnds(used, tab.Length, start);
    j, d := start, 0;
    SmallMod(start, tab.Length);
    assert j == Probe(start, d, tab.Length);
    hide Probe;
    var busy := InUse(tab, i, j);
    while busy
      invariant 0 <= d <= bound < tab.Length
      invariant j == Probe(start, d, tab.Length)
      invariant busy <==> j in used
      invariant forall e :: 0 <= e < d ==> Probe(start, e, tab.Length) in used
      decreases bound - d
    {
      NextProbe(start, d, tab.Length);
      j, d := (j + 1) % tab.Length, d + 1;
      busy := InUse(tab, i, j);
    }
  }

  method MakeSkewTable(n: nat, skew: nat) returns (tab: array<nat>)
    requires n > 0
    ensures fresh(tab)
    ensures IsPermutation(tab[..], n)
    ensures IsSkewTable(tab[..], n, skew)
  {
    tab := new nat[n](_ => 0);
    var i, j := 0, 0;
    while i < n
      invariant 0 <= i <= n
      invariant j == Start(tab[..i], i, n, skew) && j < n
      invariant forall a :: 0 <= a < i ==> tab[a] < n
      invariant forall a, b :: 0 <= a < b < i ==> tab[a] != tab[b]
      invariant IsSkewTable(tab[..i], n, skew)
    {
      ghost var used, d := tab[..i], 0;
      j, d := NextUnused(tab, i, j);
      SkewTableExtend(used, n, skew, d, j);
      assert forall a :: 0 <= a < i ==> used[a] != j;
      tab[i] := j;
      assert tab[..i + 1] == used + [j];
      i, j := i + 1, (j + skew) % n;
    }
    assert tab[..n] == tab[..];
  }

  lemma NextProbe(start: nat, d: nat, n: nat)
    requires n > 0
    ensures (Probe(start, d, n) + 1) % n == Probe(start, d + 1, n)
  {
    NextQuotient(start + d, n);
    SmallMod((start + d) % n + 1, n);
  }

  lemma SkewTableExtend(tab: seq<nat>, n: nat, skew: nat, d: nat, j: nat)
    requires n > 0 && |tab| < n && IsSkewTable(tab, n, skew)
    requires FirstFree(tab, n, Start(tab, |tab|, n, skew), d, j)
    ensures IsSkewTable(tab + [j], n, skew)
  {
    var t := tab + [j];
    forall i | 0 <= i < |t|
      ensures IsSkewSlot(t, i, n, skew)
    {
      if i < |tab| {
        assert IsSkewSlot(tab, i, n, skew);
        var e: nat :| FirstFree(tab[..i], n, Start(tab, i, n, skew), e, tab[i]);
        assert t[..i] == tab[..i];
        assert FirstFree(t[..i], n, Start(t, i, n, skew), e, t[i]);
      } else {
        assert t[..i] == tab;
        assert FirstFree(t[..i], n, Start(t, i, n, skew), d, t[i]);
      }
    }
  }

  // ----- When is the table the plain multiples of the skew? -----

  function Gcd(a: nat, b: nat): (g: nat)
    ensures a > 0 || b > 0 ==> g > 0
    decreases b
  {
    if b == 0 then a else Gcd(b, a % b)
  }

  lemma {:induction false} GcdDivides(a: nat, b: nat) returns (x: nat, y: nat)
    ensures a == x * Gcd(a, b) && b == y * Gcd(a, b)
    decreases b
  {
    if b == 0 {
      x, y := 1, 0;
    } else {
      var x', y' := GcdDivides(b, a % b);
      var g, q := Gcd(a, b), a / b;
      x, y := q * x' + y', x';
      calc {
        a;
        b * q + a % b;
        q * (x' * g) + y' * g;
        { MulRotate(q, x', g); MulDistributes(g, q * x', y'); }
        (q * x' + y') * g;
      }
    }
  }

  lemma {:induction false} Bezout(a: nat, b: nat) returns (u: int, v: int)
    ensures u * a + v * b == Gcd(a, b)
    decreases b
  {
    if b == 0 {
      u, v := 1, 0;
    } else {
      var u', v' := Bezout(b, a % b);
      u, v := v', u' - v' * (a / b);
      calc {
        u * a + v * b;
        v' * a + u' * b - (v' * (a / b)) * b;
        { assert a == b * (a / b) + a % b; assert v' * (b * (a / b)) == (v' * (a / b)) * b; }
        v' * (b * (a / b)) + v' * (a % b) + u' * b - (v' * (a / b)) * b;
        v' * (a % b) + u' * b;
      }
    }
  }

  lemma CancelFirst(k: nat, u: int, skew: nat, n: nat, q: int)
    requires k * skew == n * q
    ensures k * (u * skew) == n * (u * q)
  {
    MulRotate(k, u, skew);
    MulRotate(u, n, q);
  }

  lemma SumOfMultiples(k: nat, a: int, b: int, n: nat, x: int, y: int)
    requires a + b == 1 && k * a == n * x && k * b == n * y
    ensures k == n * (x + y)
  {
    MulDistributes(k, a, b);
    MulDistributes(n, x, y);
  }

  /** Euclid's lemma: a number prime to `n` can be cancelled modulo `n`. */
  lemma CancelCoprime(k: nat, skew: nat, n: nat, q: int)
    requires n > 0 && Gcd(skew, n) == 1
    requires k * skew == n * q
    ensures k % n == 0
  {
    var u, v := Bezout(skew, n);
    CancelFirst(k, u, skew, n, q);
    MulRotate(k, v, n);
    var a, b, x, y := u * skew, v * n, u * q, k * v;
    SumOfMultiples(k, a, b, n, x, y);
    DivModUnique(k, n, x + y, 0);
  }

  function Multiple(i: nat, skew: nat, n: nat): nat
    requires n > 0
  {
    (i * skew) % n
  }

  lemma NextMultiple(i: nat, skew: nat, n: nat)
    requires n > 0
    ensures (Multiple(i, skew, n) + skew) % n == Multiple(i + 1, skew, n)
  {
    var a := i * skew;
    var b := a % n + skew;
    assert (i + 1) * skew == n * (a / n) + b;
    assert (i + 1) * skew == n * (a / n + b / n) + b % n by {
      assert n * (a / n + b / n) == n * (a / n) + n * (b / n);
    }
    DivModUnique((i + 1) * skew, n, a / n + b / n, b % n);
  }

  lemma MultiplesDiffer(k: nat, i: nat, skew: nat, n: nat)
    requires n > 0 && k < i < n && Gcd(skew, n) == 1
    ensures Multiple(k, skew, n) != Multiple(i, skew, n)
  {
    if Multiple(k, skew, n) == Multiple(i, skew, n) {
      var a, b := i * skew, k * skew;
      calc {
        (i - k) * skew;
        { MulDistributes(skew, i, k); }
        a - b;
        n * (a / n) - n * (b / n);
        { MulDistributes(n, a / n, b / n); }
        n * (a / n - b / n);
      }
      CancelCoprime(i - k, skew, n, a / n - b / n);
      DivModUnique(i - k, n, 0, i - k);
    }
  }

  lemma {:induction false} CoprimeTable(tab: seq<nat>, n: nat, skew: nat, i: nat)
    requires n > 0 && |tab| == n && IsSkewTable(tab, n, skew)
    requires Gcd(skew, n) == 1 && i <= n
    ensures forall k :: 0 <= k < i ==> tab[k] == Multiple(k, skew, n)
  {
    if i > 0 {
      var m := i - 1;
      CoprimeTable(tab, n, skew, m);
      assert IsSkewSlot(tab, m, n, skew);
      var start := Start(tab, m, n, skew);
      if m > 0 {
        NextMultiple(m - 1, skew, n);
      } else {
        assert 0 * skew == 0;
        DivModUnique(0, n, 0, 0);
      }
      assert start == Multiple(m, skew, n);
      forall k | 0 <= k < m ensures tab[k] != start {
        MultiplesDiffer(k, m, skew, n);
      }
      DivModUnique(start, n, 0, start);
      var d: nat :| FirstFree(tab[..m], n, start, d, tab[m]);
      assert Probe(start, 0, n) == start;
      assert d == 0;
    }
  }

  /** The finished table is `i * skew mod n` exactly when the skew is prime to the number of sectors. */
  lemma PlainSkewIffCoprime(tab: seq<nat>, n: nat, skew: nat)
    requires n > 0 && IsPermutation(tab, n) && IsSkewTable(tab, n, skew)
    ensures (forall i :: 0 <= i < n ==> tab[i] == Multiple(i, skew, n)) <==> Gcd(skew, n) == 1
  {
    var g := Gcd(skew, n);
    if g == 1 {
      CoprimeTable(tab, n, skew, n);
    } else {
      var x, m := GcdDivides(skew, n);
      assert m * skew == n * x by {
        assert m * (x * g) == (m * g) * x;
      }
      assert 0 < m < n by {
        if m >= n {
          MulMono(m, 2, g);
        }
      }
      DivModUnique(m * skew, n, x, 0);
      assert 0 * skew == 0;
      DivModUnique(0, n, 0, 0);
      assert Multiple(m, skew, n) == Multiple(0, skew, n);
      assert tab[0] != tab[m];
    }
  }
}
