/** Python's round(x, 2), taken over exact reals. */
module Rounding {

  /** The multiple of 1/100 nearest to x; a value exactly halfway between two
      of them goes to the one with an even number of hundredths, as Python's
      round does on a value it holds exactly. */
  function Round2(x: real): (r: real)
    ensures -0.005 <= r - x <= 0.005
    ensures IsHundredth(r)
  {
    var y := x * 100.0;
    var f := y.Floor;
    var d := y - f as real;
    var n := if d < 0.5 then f else if d > 0.5 then f + 1 else if f % 2 == 0 then f else f + 1;
    assert n as real / 100.0 * 100.0 == n as real;
    n as real / 100.0
  }

  /** `round(total / credits, 2) if credits else 0`: the guarded, rounded
      quotient reported both for one transcript and for all of them. */
  function RoundedMean(total: real, credits: nat): (r: real)
    ensures credits == 0 ==> r == 0.0
    ensures IsHundredth(r)
  {
    if credits == 0 then
      assert (0.0 * 100.0).Floor == 0;
      0.0
    else Round2(total / credits as real)
  }

  /** A total between 0 and 10 per credit gives a rounded mean in [0, 10]. */
  lemma RoundedMeanBetween(total: real, credits: nat)
    requires 0.0 <= total <= 10.0 * credits as real
    ensures 0.0 <= RoundedMean(total, credits) <= 10.0
  {
    if credits > 0 {
      QuotientBetween(total, credits as real, 0.0, 10.0);
      Round2Between(total / credits as real, 0, 10);
    }
  }

  /** r is a whole number of hundredths. */
  predicate IsHundredth(r: real) {
    (r * 100.0).Floor as real == r * 100.0
  }

  /** Rounding a value that lies between two integers stays between them. */
  lemma Round2Between(x: real, lo: int, hi: int)
    requires lo as real <= x <= hi as real
    ensures lo as real <= Round2(x) <= hi as real
  {
    var y := x * 100.0;
    var f := y.Floor;
    assert 100 * lo <= f <= 100 * hi;
    if f == 100 * hi {
      assert y == f as real;
    }
  }

  /** Ties go to the even hundredth: 321 / 40 = 8.025 rounds down to 8.02,
      and 8.035 rounds up to 8.04. */
  lemma Round2HalfEven()
    ensures Round2(321.0 / 40.0) == 8.02
    ensures Round2(8.035) == 8.04
  {
    assert (321.0 / 40.0 * 100.0).Floor == 802;
    assert (8.035 * 100.0).Floor == 803;
  }

  /** A whole number of hundredths is left as it is. */
  lemma Round2Exact(x: real)
    requires IsHundredth(x)
    ensures Round2(x) == x
  {
    var y := x * 100.0;
    assert y - y.Floor as real == 0.0;
  }

  /** A quotient whose numerator lies between lo and hi times its positive
      denominator lies between lo and hi. */
  lemma QuotientBetween(num: real, den: real, lo: real, hi: real)
    requires den > 0.0 && lo * den <= num <= hi * den
    ensures lo <= num / den <= hi
  {
    var q := num / den;
    assert q * den == num;
    assert (q - lo) * den >= 0.0;
    assert (hi - q) * den >= 0.0;
  }

  /** Scaling by a non-negative factor keeps a value between its scaled bounds. */
  lemma ProductBetween(x: real, c: real, lo: real, hi: real)
    requires c >= 0.0 && lo <= x <= hi
    ensures lo * c <= x * c <= hi * c
  {
    assert (x - lo) * c >= 0.0;
    assert (hi - x) * c >= 0.0;
  }

  /** A value within d of the quotient n / c is, once scaled by c, within
      d × c of n. */
  lemma ScaledError(r: real, n: real, c: real, d: real)
    requires c > 0.0 && -d <= r - n / c <= d
    ensures -d * c <= r * c - n <= d * c
  {
    var e := r - n / c;
    assert n / c * c == n;
    assert r * c - n == e * c;
    ProductBetween(e, c, -d, d);
  }
}
