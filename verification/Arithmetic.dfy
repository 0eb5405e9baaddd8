/** Facts about truncating division that the disk layouts of every component rely on. */
module Arithmetic {

  /** Quotient and remainder are determined by the division equation. */
  lemma DivModUnique(a: int, b: int, q: int, r: int)
    requires b > 0 && 0 <= r < b && a == b * q + r
    ensures a / b == q && a % b == r
  {
    var q', r' := a / b, a % b;
    assert b * (q - q') == r' - r;
    if q > q' {
      MulMono(b, 1, q - q');
    } else if q < q' {
      MulMono(b, 1, q' - q);
    }
  }

  lemma MulMono(c: int, a: int, b: int)
    requires c >= 0 && a <= b
    ensures c * a <= c * b
  {
    assert c * (b - a) >= 0;
    assert c * (b - a) == c * b - c * a;
  }

  lemma MulDistributes(a: int, b: int, c: int)
    ensures a * (b + c) == a * b + a * c
    ensures a * (b - c) == a * b - a * c
  {
  }

  lemma MulRotate(a: int, b: int, c: int)
    ensures a * (b * c) == b * (a * c)
    ensures a * (b * c) == (a * b) * c
  {
    assert a * (b * c) == (a * b) * c;
    assert b * (a * c) == (b * a) * c;
  }

  /** A position measured in units of `n * b` and the same position measured in units of `b`. */
  lemma DivSplit(p: nat, b: nat, n: nat)
    requires b > 0 && n > 0 && n * b > 0
    ensures p / (n * b) == (p / b) / n
    ensures (p % (n * b)) / b == (p / b) % n
    ensures (p % (n * b)) % b == p % b
  {
    var q, o := p / b, p % b;
    var x, s := q / n, q % n;
    assert q == n * x + s;
    assert p == b * (n * x + s) + o;
    assert b * (n * x + s) == (n * b) * x + b * s by {
      assert b * (n * x) == (n * b) * x;
    }
    MulMono(b, s, n - 1);
    assert b * (n - 1) == n * b - b;
    DivModUnique(p, n * b, x, b * s + o);
    DivModUnique(b * s + o, b, s, o);
  }

  lemma DivRange(a: nat, b: nat, q: nat)
    requires b > 0
    ensures a / b == q <==> b * q <= a < b * q + b
    ensures a / b == q ==> a % b == a - b * q
  {
    assert a == b * (a / b) + a % b;
    if b * q <= a < b * q + b {
      DivModUnique(a, b, q, a - b * q);
    }
  }

  /** Counting up by one: the remainder advances, or wraps and carries. */
  lemma NextQuotient(l: nat, n: nat)
    requires n > 0
    ensures l % n + 1 < n ==> (l + 1) % n == l % n + 1 && (l + 1) / n == l / n
    ensures l % n + 1 >= n ==> l % n + 1 == n && (l + 1) % n == 0 && (l + 1) / n == l / n + 1
  {
    assert l == n * (l / n) + l % n;
    if l % n + 1 < n {
      DivModUnique(l + 1, n, l / n, l % n + 1);
    } else {
      MulDistributes(n, l / n, 1);
      DivModUnique(l + 1, n, l / n + 1, 0);
    }
  }

  lemma DivMono(a: nat, b: nat, n: nat)
    requires n > 0 && a <= b
    ensures a / n <= b / n
  {
    assert a == n * (a / n) + a % n && b == n * (b / n) + b % n;
    if a / n > b / n {
      MulMono(n, b / n + 1, a / n);
      MulDistributes(n, b / n, 1);
    }
  }

  lemma SmallMod(a: nat, n: nat)
    requires a <= n && n > 0
    ensures a < n ==> a % n == a && a / n == 0
    ensures a == n ==> a % n == 0 && a / n == 1
  {
    if a < n {
      DivModUnique(a, n, 0, a);
    } else {
      DivModUnique(a, n, 1, 0);
    }
  }

  lemma SameQuotientRemainder(a: nat, a': nat, b: nat)
    requires b > 0 && a / b == a' / b && a % b == a' % b
    ensures a == a'
  {
    assert a == b * (a / b) + a % b && a' == b * (a' / b) + a' % b;
  }

  /** Row-major addresses stay in range. */
  lemma RowMajorBound(row: nat, col: nat, rows: nat, cols: nat)
    requires row < rows && col < cols
    ensures row * cols + col < rows * cols
  {
    MulMono(cols, row + 1, rows);
    assert cols * (row + 1) == row * cols + cols;
  }

  /** Row-major addresses are injective. */
  lemma RowMajorInjective(row: nat, col: nat, row': nat, col': nat, cols: nat)
    requires col < cols && col' < cols
    requires row * cols + col == row' * cols + col'
    ensures row == row' && col == col'
  {
    DivModUnique(row * cols + col, cols, row, col);
    DivModUnique(row' * cols + col', cols, row', col');
  }

  /** Splitting an address into row and column. */
  lemma RowMajorSplit(a: nat, rows: nat, cols: nat)
    requires a < rows * cols
    ensures cols > 0 && a / cols < rows && a % cols < cols
  {
    if cols > 0 && a / cols >= rows {
      MulMono(cols, rows, a / cols);
    }
  }

  /** The number of units of size `b` that cover `n` bytes. */
  function Cover(n: nat, b: nat): (k: nat)
    requires b > 0
    ensures n <= k * b < n + b
  {
    var k := (n + b - 1) / b;
    assert n + b - 1 == b * k + (n + b - 1) % b;
    k
  }

  lemma CoverStep(n: nat, b: nat, q: nat)
    requires b > 0
    ensures q < Cover(n, b) <==> q * b < n
  {
    var k := Cover(n, b);
    if q < k {
      MulMono(b, q, k - 1);
      assert b * (k - 1) == k * b - b;
    } else {
      MulMono(b, k, q);
    }
  }
}
