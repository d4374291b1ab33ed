/** `Math.round` of a quotient, on integers, and the facts about it the other modules use. */
module JsMath {

  /** `Math.round(num / den)` for a positive denominator: the nearest integer, halves rounded up. */
  function RoundDiv(num: int, den: int): (r: int)
    requires den > 0
    ensures (2 * r - 1) * den <= 2 * num < (2 * r + 1) * den
  {
    var q := (2 * num + den) / (2 * den);
    assert 2 * den * q <= 2 * num + den < 2 * den * q + 2 * den;
    q
  }

  lemma MulLe(a: int, b: int, c: int)
    requires a <= b && c > 0
    ensures a * c <= b * c
  {
  }

  lemma MulLt(a: int, b: int, c: int)
    requires a * c < b * c && c > 0
    ensures a < b
  {
    if a >= b { MulLe(b, a, c); }
  }

  /** Rounding a larger numerator never gives a smaller result. */
  lemma RoundDivMonotone(n1: int, n2: int, den: int)
    requires den > 0 && n1 <= n2
    ensures RoundDiv(n1, den) <= RoundDiv(n2, den)
  {
    var r1, r2 := RoundDiv(n1, den), RoundDiv(n2, den);
    assert (2 * r2 - 1) * den <= 2 * n2;
    assert 2 * n1 < (2 * r1 + 1) * den;
    if r1 > r2 {
      MulLe(2 * r2 + 1, 2 * r1 - 1, den);
      assert false;
    }
  }

  /** Rounding `k * den / den` gives back `k`. */
  lemma RoundDivExact(k: int, den: int)
    requires den > 0
    ensures RoundDiv(k * den, den) == k
  {
    var r := RoundDiv(k * den, den);
    assert (2 * r - 1) * den <= (2 * k) * den < (2 * r + 1) * den;
    MulLt(2 * r - 1, 2 * k + 1, den);
    MulLt(2 * k - 1, 2 * r + 1, den);
  }
}
