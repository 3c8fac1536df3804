/** Facts about integer multiplication and Euclidean division with a
    positive divisor, used by the pixel layout and the colour channels. */
module Arith {

  lemma MulAtLeast(d: int, k: int)
    requires d > 0 && k >= 1
    ensures d * k >= d
  {
  }

  /** Euclidean division of a by d gives q and r whenever a == d*q + r with
      0 <= r < d. */
  lemma DivModOf(a: int, d: int, q: int, r: int)
    requires d > 0 && 0 <= r < d && a == d * q + r
    ensures a / d == q && a % d == r
  {
    var q', r' := a / d, a % d;
    assert d * (q - q') == r' - r;
    if q - q' >= 1 {
      MulAtLeast(d, q - q');
    } else if q' - q >= 1 {
      MulAtLeast(d, q' - q);
    }
  }

  lemma DivNonneg(a: int, d: int)
    requires a >= 0 && d > 0
    ensures a / d >= 0
  {
  }

  lemma MulMono(i: int, n: int, s: int)
    requires 0 <= i <= n && s >= 0
    ensures i * s <= n * s
  {
  }
}
