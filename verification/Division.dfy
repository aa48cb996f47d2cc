/** Quotients and remainders of products that the solver does not find on its own. */
module Division {
  lemma EuclidUnique(m: int, q: int, r: int, q': int, r': int)
    requires 0 <= r < m && 0 <= r' < m && m * q + r == m * q' + r'
    ensures q == q' && r == r'
  {
    if q > q' {
      AtLeast(m, q - q');
    } else if q < q' {
      AtLeast(m, q' - q);
    }
    assert m * (q - q') == m * q - m * q' && m * (q' - q) == m * q' - m * q;
  }

  lemma AtLeast(m: int, k: int)
    requires m > 0 && k >= 1
    ensures m * k >= m
  {
  }

  lemma ModIs(a: int, m: int, q: int, r: int)
    requires m > 0 && 0 <= r < m && a == m * q + r
    ensures a % m == r && a / m == q
  {
    EuclidUnique(m, q, r, a / m, a % m);
  }
}
