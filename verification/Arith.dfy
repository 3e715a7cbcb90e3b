/** Integer division facts that the solver does not find by itself. */
module Arith {
  lemma MulAtLeast(e: int, d: int)
    requires e >= 1 && d >= 0
    ensures e * d >= d
  {
    assert (e - 1) * d >= 0;
  }

  lemma MulAssoc(a: int, b: int, c: int)
    ensures a * (b * c) == a * b * c
  {
  }

  lemma MulDistributes(a: int, b: int, c: int)
    ensures (a + b) * c == a * c + b * c
    ensures (a - b) * c == a * c - b * c
  {
  }

  lemma MulLess(a: int, b: int, c: int)
    requires a < b && c > 0
    ensures a * c < b * c
  {
  }

  lemma MulAtMost(a: int, b: int, c: int)
    requires a <= b && c >= 0
    ensures a * c <= b * c
  {
  }

  /** Quotient and remainder are unique. */
  lemma DivModUnique(x: int, d: int, q: int, r: int)
    requires 0 <= r < d && x == q * d + r
    ensures x / d == q && x % d == r
  {
    var p := x / d;
    assert x == p * d + x % d;
    assert (q - p) * d == x % d - r;
    if q > p {
      MulAtLeast(q - p, d);
    } else if q < p {
      assert (p - q) * d == r - x % d;
      MulAtLeast(p - q, d);
    }
  }

  /** A common factor of dividend and divisor is one of the remainder. */
  lemma ModScale(a: int, b: int, c: int)
    requires b > 0 && c > 0
    ensures b * c > 0 && a * c % (b * c) == a % b * c
  {
    MulLess(0, b, c);
    MulLess(a % b, b, c);
    MulAtMost(0, a % b, c);
    assert a == a / b * b + a % b;
    assert a * c == a / b * (b * c) + a % b * c;
    DivModUnique(a * c, b * c, a / b, a % b * c);
  }
}
