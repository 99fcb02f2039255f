/**
 * Model of `formatWeiValue` (src/utils/formatWeiValue.ts): a wei amount,
 * converted to a BigInt, is scaled to units of 10^-5 ether with BigInt
 * arithmetic, i.e. `(wei * 100000n) / 10n**18n`, where BigInt division
 * truncates toward zero.
 */
module FormatWei {

  import opened Arith

  /** Wei in one ether; `10 ** 18` is an exactly representable double, so BigInt(10 ** 18) is exact. */
  const WeiPerEther: int := 1_000_000_000_000_000_000
  /** The result is counted in 1/100000 of an ether. */
  const UnitsPerEther: int := 100_000
  /** Wei in one result unit: 10^18 / 10^5. */
  const WeiPerUnit: int := 10_000_000_000_000

  /** BigInt division: the quotient is truncated toward zero (Dafny's `/` is Euclidean). */
  function TruncDiv(a: int, b: int): (q: int)
    requires b > 0
    ensures a >= 0 ==> q >= 0 && q * b <= a < (q + 1) * b
    ensures a < 0 ==> q <= 0 && (q - 1) * b < a <= q * b
  {
    if a >= 0 then
      DivBounds(a, b);
      a / b
    else
      DivBounds(-a, b);
      var q := (-a) / b;
      assert (-q - 1) * b == -((q + 1) * b) && -q * b == -(q * b);
      -q
  }

  /** Scaling numerator and divisor by the same positive factor leaves a floor quotient unchanged. */
  lemma {:induction false} DivCancel(a: nat, b: int, c: int)
    requires b > 0 && c > 0
    ensures (a * c) / (b * c) == a / b
  {
    var q, r := a / b, a % b;
    assert a == q * b + r && 0 <= r < b;
    assert a * c == q * (b * c) + r * c by {
      assert a * c == (q * b + r) * c;
    }
    assert 0 <= r * c < b * c by {
      assert (b - r) * c > 0;
    }
    DivUnique(a * c, b * c, q, r * c);
  }

  /** `formatWeiValue(wei)` for a BigInt input. */
  function FormatWeiValue(wei: int): (units: int)
    ensures units == TruncDiv(wei, WeiPerUnit)
    ensures wei >= 0 ==> units * WeiPerUnit <= wei < (units + 1) * WeiPerUnit
  {
    FormatWeiIsDivByUnit(wei);
    TruncDiv(wei * UnitsPerEther, WeiPerEther)
  }

  /** Multiplying by 10^5 and dividing by 10^18 is dividing by 10^13, on both signs. */
  lemma FormatWeiIsDivByUnit(wei: int)
    ensures TruncDiv(wei * UnitsPerEther, WeiPerEther) == TruncDiv(wei, WeiPerUnit)
  {
    var w: nat := if wei >= 0 then wei else -wei;
    DivCancel(w, WeiPerUnit, UnitsPerEther);
    assert WeiPerUnit * UnitsPerEther == WeiPerEther;
    assert w * UnitsPerEther == UnitsPerEther * w;
    if wei < 0 {
      assert -(wei * UnitsPerEther) == w * UnitsPerEther;
    }
  }

  /** The conversion is odd: negating the input negates the result (truncation toward zero). */
  lemma FormatWeiOdd(wei: int)
    ensures FormatWeiValue(-wei) == -FormatWeiValue(wei)
  {
  }

  /** Zero wei is zero units, one ether is 100000 units, and less than one unit either way is zero. */
  lemma FormatWeiLandmarks()
    ensures FormatWeiValue(0) == 0
    ensures FormatWeiValue(WeiPerEther) == UnitsPerEther
    ensures FormatWeiValue(WeiPerUnit - 1) == 0
    ensures FormatWeiValue(-(WeiPerUnit - 1)) == 0
    ensures forall w :: -WeiPerUnit < w < WeiPerUnit ==> FormatWeiValue(w) == 0
  {
    assert FormatWeiValue(WeiPerUnit - 1) == 0;
    assert FormatWeiValue(-(WeiPerUnit - 1)) == 0;
    forall w | -WeiPerUnit < w < WeiPerUnit
      ensures FormatWeiValue(w) == 0
    {
      FormatWeiMonotone(-(WeiPerUnit - 1), w);
      FormatWeiMonotone(w, WeiPerUnit - 1);
    }
  }

  /** Floor division by a positive constant is monotone. */
  lemma {:induction false} DivMonotone(a: nat, b: nat, d: int)
    requires d > 0 && a <= b
    ensures a / d <= b / d
  {
    var qa, qb := a / d, b / d;
    assert qa * d <= a && b < qb * d + d;
    if qa > qb {
      MulAtLeast(qa - qb, d);
    }
  }

  /** `formatWeiValue` never decreases when the wei amount grows. */
  lemma FormatWeiMonotone(w1: int, w2: int)
    requires w1 <= w2
    ensures FormatWeiValue(w1) <= FormatWeiValue(w2)
  {
    if 0 <= w1 {
      DivMonotone(w1, w2, WeiPerUnit);
    } else if w2 < 0 {
      DivMonotone(-w2, -w1, WeiPerUnit);
    }
  }
}
