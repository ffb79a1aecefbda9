/** Rounding to the nearest integer, halves up, of the exact rational `num / den`: what `Math.round` does. */
module Rounding {

  function RoundHalfUp(num: int, den: int): (r: int)
    requires den > 0
    ensures -den <= 2 * num - 2 * den * r < den
  {
    (2 * num + den) / (2 * den)
  }

  lemma MultipleAtLeast(den: int, d: int)
    requires den > 0
    ensures d >= 1 ==> den * d >= den
  {
  }

  /** Quotients within half a unit of `a / den` and `b / den` are in the order of `a` and `b`. */
  lemma QuotientsInOrder(a: int, b: int, den: int, p: int, q: int)
    requires den > 0 && a <= b
    requires -den <= 2 * a - 2 * den * p < den
    requires -den <= 2 * b - 2 * den * q < den
    ensures p <= q
  {
    MultipleAtLeast(den, p - q);
    assert den * (p - q) == den * p - den * q;
  }

  lemma RoundMonotone(a: int, b: int, den: int)
    requires den > 0 && a <= b
    ensures RoundHalfUp(a, den) <= RoundHalfUp(b, den)
  {
    QuotientsInOrder(a, b, den, RoundHalfUp(a, den), RoundHalfUp(b, den));
  }

  lemma RoundUnique(num: int, den: int, r: int)
    requires den > 0 && -den <= 2 * num - 2 * den * r < den
    ensures RoundHalfUp(num, den) == r
  {
    QuotientsInOrder(num, num, den, RoundHalfUp(num, den), r);
    QuotientsInOrder(num, num, den, r, RoundHalfUp(num, den));
  }
}
