/** Products and quotients by a variable, which the verifier does not reason about unaided. */
module Arithmetic {

  lemma Times(d: int, x: int, y: int)
    requires d > 0 && x <= y
    ensures d * x <= d * y
  {
  }

  lemma Quotient(n: int, d: int, k: int)
    requires d > 0 && d * k <= n < d * k + d
    ensures n / d == k
  {
    var m := n / d;
    if m > k { Times(d, k + 1, m); }
    if m < k { Times(d, m + 1, k); }
  }

  lemma QuotientAtLeast(n: int, d: int, m: int)
    requires d > 0 && n * d <= m
    ensures n <= m / d
  {
    var q := m / d;
    assert m < d * (q + 1);
    if q + 1 <= n { Times(d, q + 1, n); }
  }
}
