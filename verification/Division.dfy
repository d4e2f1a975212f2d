/** Quotient and remainder by a number that is not a literal. */
module Division {
  lemma MulTwo(x: int, p: int)
    ensures x * (2 * p) == 2 * (x * p)
  {
  }

  lemma MulLess(x: int, p: int)
    ensures x * (p - 1) == x * p - x
  {
  }

  lemma Distribute(a: int, b: int, m: int)
    ensures (a + b) * m == a * m + b * m
  {
  }

  lemma Associate(a: int, b: int, m: int)
    ensures a * b * m == a * (b * m)
  {
  }

  lemma NotNegative(a: int, b: int)
    requires a >= 0 && b >= 0
    ensures a * b >= 0
  {
  }

  lemma DivMod(x: int, m: int)
    requires m > 0
    ensures x == x / m * m + x % m && 0 <= x % m < m
  {
  }

  lemma QuotientUnique(h: int, q: int, r: int, q': int, r': int)
    requires 0 <= r < h && 0 <= r' < h && q * h + r == q' * h + r'
    ensures q == q' && r == r'
  {
    var d := q' - q;
    assert d * h == r - r' by { assert d * h == q' * h - q * h; }
    assert (d >= 1 ==> d * h >= h) && (d <= -1 ==> d * h <= -h);
  }

  lemma Divide(x: int, m: int, q: int, r: int)
    requires 0 <= r < m && x == q * m + r
    ensures x / m == q && x % m == r
  {
    DivMod(x, m);
    QuotientUnique(m, q, r, x / m, x % m);
  }
}
