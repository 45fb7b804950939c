/** Integer division as the storefront's formatting helpers use it. */
module Truncation {

  /** The quotient rounded toward zero. */
  function Div(a: int, b: int): (q: int)
    requires b > 0
  {
    if a >= 0 then a / b else -((-a) / b)
  }

  /** The remainder with the sign of the dividend. */
  function Mod(a: int, b: int): (r: int)
    requires b > 0
  {
    a - Div(a, b) * b
  }

  lemma Spread(d: int, p: int, q: int)
    requires d > 0 && p < q
    ensures d * p + d <= d * q
  {
    var k := q - p - 1;
    assert d * q == d * p + d + d * k;
    assert d * k >= 0;
  }

  /** Quotient and remainder are unique. */
  lemma Unique(d: int, p: int, s: int, q: int, r: int)
    requires d > 0 && d * p + s == d * q + r && 0 <= s < d && 0 <= r < d
    ensures p == q && s == r
  {
    if p < q {
      Spread(d, p, q);
    } else if q < p {
      Spread(d, q, p);
    }
  }

  lemma Quotient(x: int, d: int, q: int, r: int)
    requires d > 0 && x == d * q + r && 0 <= r < d
    ensures x / d == q && x % d == r
  {
    Unique(d, x / d, x % d, q, r);
  }

  /** For a dividend that is not negative the truncating operators are the usual ones. */
  lemma Exact(x: int, d: int, q: int, r: int)
    requires d > 0 && x == d * q + r && 0 <= r < d && x >= 0
    ensures Div(x, d) == q && Mod(x, d) == r
  {
    Quotient(x, d, q, r);
    assert d * q == q * d;
  }
}
