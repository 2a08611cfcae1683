/** The few facts about products and quotients that the arithmetic proofs are built from. */
module Nonlinear {
  lemma MulLe(a: int, b: int, c: int)
    requires a <= b && 0 <= c
    ensures a * c <= b * c
  {
  }

  lemma MulLt(a: int, b: int, c: int)
    requires a < b && 0 < c
    ensures a * c + c <= b * c
  {
    MulLe(a + 1, b, c);
    assert (a + 1) * c == a * c + c;
  }

  lemma Distrib(a: int, b: int, c: int)
    ensures (a + b) * c == a * c + b * c
  {
  }

  lemma MulSwap(a: int, b: int, c: int)
    ensures (a * b) * c == a * (c * b)
  {
  }

  lemma SameQuotient(d: int, q: int, r: int, q': int, r': int)
    requires d > 0 && q' * d + r' == q * d + r && 0 <= r < d && 0 <= r' < d
    ensures q' == q && r' == r
  {
    if q > q' {
      MulLt(q', q, d);
    } else if q < q' {
      MulLt(q, q', d);
    }
  }

  /** Quotient and remainder are determined by their equation. */
  lemma DivModUnique(x: int, d: int, q: int, r: int)
    requires d > 0 && x == q * d + r && 0 <= r < d
    ensures x / d == q && x % d == r
  {
    SameQuotient(d, q, r, x / d, x % d);
  }

  lemma QuotientNat(x: nat, d: nat)
    requires d > 0
    ensures x / d >= 0
  {
    if x / d < 0 { MulLt(x / d, 0, d); }
  }

  lemma MulDivLe(x: nat, d: nat)
    requires d > 0
    ensures (x / d) * d <= x < (x / d) * d + d
  {
    assert x == d * (x / d) + x % d;
  }
}
