/** The few facts about multiplication and division by an unknown positive constant that the rest
    of the model needs, kept apart so that no other proof does nonlinear arithmetic. */
module Arith {
  import opened Common

  lemma MulMonotone(a: int, b: int, d: nat)
    requires a <= b
    ensures a * d <= b * d
  {}

  /** A quotient is determined by the interval it bounds. */
  lemma QuotientUnique(x: int, d: Positive, q: int)
    requires q * d <= x < q * d + d
    ensures x / d == q && x % d == x - q * d
  {
    var r := x / d;
    assert r * d + x % d == x;
    if r < q {
      MulMonotone(r + 1, q, d);
    } else if r > q {
      MulMonotone(q + 1, r, d);
    }
  }

  lemma QuotientAfterAdding(x: int, d: Positive)
    ensures (x + d) / d == x / d + 1
  {
    assert (x / d) * d + x % d == x;
    assert (x / d + 1) * d == (x / d) * d + d;
    QuotientUnique(x + d, d, x / d + 1);
  }

  /** A number as its quotient and remainder, with the two named. */
  lemma DivMod(x: nat, d: Positive) returns (q: nat, r: nat)
    ensures q == x / d && r == x % d && r < d && x == q * d + r
  {
    q, r := x / d, x % d;
  }
}
