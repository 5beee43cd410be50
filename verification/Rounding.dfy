// internal/scoring/scoring.go, roundHalfEven: round to one decimal with
// roundTiesToEven (section 4.3.1 of IEEE 754-2019). Scores are integers counted
// in tenths, so the argument is a fraction num/den of a tenth.
module Rounding {

  // r is a nearest integer to num/den, and the even one when two are nearest.
  ghost predicate IsRounded(num: int, den: int, r: int)
    requires den > 0
  {
    && -den <= 2 * (r * den - num) <= den
    && (2 * (r * den - num) == den || 2 * (r * den - num) == -den ==> r % 2 == 0)
  }

  function RoundHalfEven(num: int, den: int): (r: int)
    requires den > 0
    ensures IsRounded(num, den, r)
  {
    var q, rest := num / den, num % den;
    assert q * den == num - rest && (q + 1) * den == q * den + den;
    if 2 * rest < den || (2 * rest == den && q % 2 == 0) then q else q + 1
  }

  // Rounding keeps order; in particular the rounded value is the only one.
  lemma RoundedMonotone(num: int, num': int, den: int, r: int, r': int)
    requires den > 0 && num <= num'
    requires IsRounded(num, den, r) && IsRounded(num', den, r')
    ensures r <= r'
  {
    var gap := r - r';
    assert r * den - r' * den == gap * den;
    assert gap >= 1 ==> gap * den >= den;
    assert gap >= 2 ==> gap * den >= 2 * den;
  }

  lemma RoundOfMultiple(k: int, den: int)
    requires den > 0
    ensures RoundHalfEven(k * den, den) == k
  {
  }
}
