/** Facts about Euclidean division used by the index-layout proofs. */
module Arith {

  /** Quotient and remainder are determined by n == q * d + r, 0 <= r < d. */
  lemma DivModUnique(n: int, d: int, q: int, r: int)
    requires d > 0 && 0 <= r < d && n == q * d + r
    ensures n / d == q && n % d == r
  {
    var q0, r0 := n / d, n % d;
    assert n == q0 * d + r0;
    if q0 < q {
      MulGrows(q - q0, d);
    } else if q < q0 {
      MulGrows(q0 - q, d);
    }
  }

  /** A product of a positive k and d is at least d. */
  lemma MulGrows(k: int, d: int)
    requires k >= 1 && d > 0
    ensures k * d >= d
  {
    assert k * d == (k - 1) * d + d;
    assert (k - 1) * d >= 0;
  }

  /** Multiplication by a non-negative factor is monotone. */
  lemma MulMonotone(a: int, b: int, c: int)
    requires 0 <= c && a <= b
    ensures a * c <= b * c
  {
    assert b * c - a * c == (b - a) * c;
  }

  /** Dividing an index below p * d by d gives a quotient below p and a remainder below d. */
  lemma DivBelow(n: int, d: int, p: int)
    requires d > 0 && 0 <= n < p * d
    ensures 0 <= n / d < p && 0 <= n % d < d
    ensures n == (n / d) * d + n % d
  {
    var q := n / d;
    if q >= p {
      MulMonotone(p, q, d);
    }
    if q < 0 {
      MulMonotone(q, -1, d);
    }
  }
}
