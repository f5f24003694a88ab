/** Quotients by a number that is not known, for the callback intervals and the lease. */
module Arithmetic {
  lemma DivMod(x: int, c: int)
    requires 0 < c
    ensures x == c * (x / c) + x % c && 0 <= x % c < c
  {
  }

  lemma MulMono(c: int, x: int, y: int)
    requires 0 <= c && x <= y
    ensures c * x <= c * y
  {
  }

  lemma QuotientIs(x: int, c: int, q: int, r: int)
    requires 0 < c && x == c * q + r && 0 <= r < c
    ensures x / c == q && x % c == r
  {
    DivMod(x, c);
    var d, e := x / c - q, x % c - r;
    assert c * d + e == 0 by {
      assert c * (x / c) - c * q == c * d;
    }
    if d >= 1 {
      MulMono(c, 1, d);
    } else if d <= -1 {
      MulMono(c, d, -1);
    }
  }

  lemma QuotientAtMost(x: nat, c: int, d: nat)
    requires 0 < c
    ensures x / c <= d <==> x < c * (d + 1)
  {
    DivMod(x, c);
    if x / c <= d {
      MulMono(c, x / c, d);
      assert c * (d + 1) == c * d + c;
    } else {
      MulMono(c, d + 1, x / c);
    }
  }
}
