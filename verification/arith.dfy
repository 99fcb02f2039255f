/** Small facts about floor division used by the unit conversion and the chunk count. */
module Arith {

  /** The floor quotient is the only q with a == q * d + r and 0 <= r < d. */
  lemma DivUnique(a: nat, d: int, q: int, r: int)
    requires d > 0 && a == q * d + r && 0 <= r < d
    ensures a / d == q && a % d == r
  {
    var q', r' := a / d, a % d;
    assert a == q' * d + r';
    assert (q - q') * d == r' - r;
    if q' < q {
      MulAtLeast(q - q', d);
    } else if q' > q {
      MulAtLeast(q' - q, d);
    }
  }

  /** The floor quotient of a natural number brackets it between two multiples of the divisor. */
  lemma DivBounds(a: nat, d: int)
    requires d > 0
    ensures a / d >= 0
    ensures (a / d) * d <= a < (a / d + 1) * d
  {
    var q, r := a / d, a % d;
    assert a == q * d + r && 0 <= r < d;
    assert (q + 1) * d == q * d + d;
  }

  lemma MulAtLeast(k: int, d: int)
    requires k >= 1 && d > 0
    ensures k * d >= d
  {
  }
}
