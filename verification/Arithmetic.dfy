/** Facts about multiplication, division and remainder that the positions of the store rest on. */
module Arithmetic {
  lemma MulStep(a: int, b: int)
    ensures (a + 1) * b == a * b + b
    ensures (a - 1) * b == a * b - b
  {
  }

  lemma MulSum(a: int, b: int, c: int)
    ensures (a + b) * c == a * c + b * c
    ensures c * (a + b) == c * a + c * b
    ensures (a - b) * c == a * c - b * c
    ensures c * (a - b) == c * a - c * b
  {
  }

  lemma MulMonotone(a: nat, b: int, c: int)
    requires b <= c
    ensures a * b <= a * c && b * a <= c * a
  {
    MulSum(c, b, a);
    assert a * (c - b) >= 0;
  }

  /** A multiple of `n` strictly between `-n` and `n` is zero. */
  lemma SmallMultiple(n: nat, d: int)
    requires -1 * n < n * d < n
    ensures d == 0
  {
    if d > 0 {
      MulMonotone(n, 1, d);
    } else if d < 0 {
      MulMonotone(n, d, -1);
    }
  }

  lemma DivMod(a: nat, n: nat)
    requires n > 0
    ensures a == (a / n) * n + a % n && 0 <= a % n < n && a / n >= 0
  {
  }

  /** Quotient and remainder are unique. */
  lemma DivModUnique(a: nat, n: nat, k: nat, r: nat)
    requires r < n && a == k * n + r
    ensures a / n == k && a % n == r
  {
    DivMod(a, n);
    MulSum(k, a / n, n);
    assert n * (k - a / n) == (k - a / n) * n;
    SmallMultiple(n, k - a / n);
  }

  lemma SameResidue(n: nat, first: nat, x: nat, y: nat)
    requires n > 0 && first <= x < first + n && first <= y < first + n && x % n == y % n
    ensures x == y
  {
    DivMod(x, n);
    DivMod(y, n);
    MulSum(x / n, y / n, n);
    assert n * (x / n - y / n) == (x / n - y / n) * n;
    SmallMultiple(n, x / n - y / n);
  }

  /** The quotient is in a range when the number is in the range of multiples. */
  lemma DivInRange(a: nat, q: nat, lo: nat, n: nat)
    requires q > 0 && lo * q <= a < lo * q + n * q
    ensures lo <= a / q < lo + n
  {
    var d := a / q;
    DivMod(a, q);
    MulStep(d, q);
    MulSum(lo, n, q);
    if d < lo {
      MulMonotone(q, d + 1, lo);
    }
    if d >= lo + n {
      MulMonotone(q, lo + n, d);
    }
  }

  /** Every residue is met in a range of `n` numbers. */
  lemma ResidueInRange(n: nat, first: nat, p: nat) returns (i: nat)
    requires p < n
    ensures i < n && (first + i) % n == p
  {
    var r := first % n;
    DivMod(first, n);
    if p >= r {
      i := p - r;
      DivModUnique(first + i, n, first / n, p);
    } else {
      i := p + n - r;
      MulStep(first / n, n);
      DivModUnique(first + i, n, first / n + 1, p);
    }
  }
}
