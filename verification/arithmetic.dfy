/** Facts about quotients and remainders that the solver needs spelled out. */
module Arithmetic {
  lemma ProductAtLeast(k: int, d: int)
    requires k >= 1 && d >= 0
    ensures k * d >= d
  {}

  lemma ProductOfSum(a: int, b: int, c: int)
    ensures (a + b) * c == a * c + b * c
  {}

  lemma ProductOfDifference(a: int, b: int, c: int)
    ensures (a - b) * c == a * c - b * c
  {}

  lemma QuotientIsUnique(n: int, d: int, q: int, r: int)
    requires 0 <= r < d && n == q * d + r
    ensures n / d == q && n % d == r
  {
    var q', r' := n / d, n % d;
    assert n == q' * d + r';
    ProductOfDifference(q', q, d);
    ProductOfDifference(q, q', d);
    if q' > q {
      ProductAtLeast(q' - q, d);
    } else if q' < q {
      ProductAtLeast(q - q', d);
    }
  }
}
