/** Division with remainder, and what multiples are apart. */
module Arithmetic {
  /** Distinct multiples are at least one multiple apart. */
  lemma Apart(a: int, b: int, m: int)
    requires a < b && m > 0
    ensures a * m + m <= b * m
  {
    assert (b - a - 1) * m >= 0;
    assert b * m == (b - a - 1) * m + a * m + m;
  }

  /** A quotient and its remainder are the only ones. */
  lemma Quotient(n: int, m: int, q: int)
    requires m > 0 && q * m <= n < q * m + m
    ensures n / m == q && n % m == n - q * m
  {
    var d := n / m;
    if d < q {
      Apart(d, q, m);
    } else if q < d {
      Apart(q, d, m);
    }
  }

  /** The remainder of a number at most one multiple away. */
  lemma Wraps(n: int, m: int)
    requires m > 0
    ensures 0 <= n < m ==> n % m == n
    ensures -m <= n < 0 ==> n % m == n + m
    ensures m <= n < 2 * m ==> n % m == n - m
  {
    if 0 <= n < m {
      Quotient(n, m, 0);
    } else if -m <= n < 0 {
      Quotient(n, m, -1);
    } else if m <= n < 2 * m {
      Quotient(n, m, 1);
    }
  }

  /** Whole multiples leave the remainder as it was. */
  lemma ModuloAdds(value: int, k: int, m: int)
    requires m > 0
    ensures (value + k * m) % m == value % m
  {
    var (q, r) := (value / m, value % m);
    assert value + k * m == (q + k) * m + r;
    Quotient(value + k * m, m, q + k);
  }
}
