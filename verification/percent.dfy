/** The percentage fields of the budget and goal responses. The source divides
    two scale-2 decimals to four decimal places with RoundingMode.HALF_UP and
    multiplies by 100; the model keeps that value exactly, as an integer count
    of hundredths of a percent (10.00 % is 1000). */
module Percent {

  /** n / d rounded to the nearest integer, halves away from zero
      (RoundingMode.HALF_UP). */
  function RoundHalfUpDiv(n: int, d: int): (q: int)
    requires d > 0
    ensures n >= 0 ==> q >= 0 && 2 * q * d - d <= 2 * n < 2 * q * d + d
    ensures n < 0 ==> q <= 0 && 2 * q * d - d < 2 * n <= 2 * q * d + d
  {
    if n >= 0 then (2 * n + d) / (2 * d)
    else -((2 * -n + d) / (2 * d))
  }

  /** The rounding bounds above pin the quotient down: no other integer meets
      them. */
  lemma RoundHalfUpDivUnique(n: int, d: int, q: int)
    requires d > 0
    requires n >= 0 ==> 2 * q * d - d <= 2 * n < 2 * q * d + d
    requires n < 0 ==> 2 * q * d - d < 2 * n <= 2 * q * d + d
    ensures q == RoundHalfUpDiv(n, d)
  {
    var r := RoundHalfUpDiv(n, d);
    // Both q * d and r * d lie within d / 2 of n, so they differ by less than d.
    assert q * d - r * d < d && r * d - q * d < d;
    MultiplesCloserThanDAreEqual(q, r, d);
  }

  lemma MultiplesCloserThanDAreEqual(q: int, r: int, d: int)
    requires d > 0
    requires q * d - r * d < d && r * d - q * d < d
    ensures q == r
  {
    assert q * d - r * d == (q - r) * d;
    MultipleBound(q - r, d);
  }

  /** A non-zero multiple of d is at least d away from zero. */
  lemma MultipleBound(x: int, d: int)
    requires d > 0
    ensures x >= 1 ==> x * d >= d
    ensures x <= -1 ==> x * d <= -d
  {
    if x >= 1 {
      assert x * d == d + (x - 1) * d;
    } else if x <= -1 {
      assert x * d == -d + (x + 1) * d;
    }
  }

  /** part / whole as hundredths of a percent; 0 when whole is not positive.
      Nothing caps the value at 100 %. */
  function PercentHundredths(part: int, whole: int): (p: int)
    ensures whole <= 0 ==> p == 0
    ensures whole > 0 && part >= 0 ==> p >= 0 && 2 * p * whole - whole <= 20000 * part < 2 * p * whole + whole
    ensures whole > 0 && part < 0 ==> p <= 0 && 2 * p * whole - whole < 20000 * part <= 2 * p * whole + whole
  {
    if whole > 0 then RoundHalfUpDiv(part * 10000, whole) else 0
  }

  /** A part equal to the whole is exactly 100 %, and an exact multiple of
      the whole is that many hundred percent: the value is not capped. */
  lemma PercentOfMultiple(whole: int, k: int)
    requires whole > 0
    ensures PercentHundredths(k * whole, whole) == k * 10000
  {
    RoundHalfUpDivUnique(k * whole * 10000, whole, k * 10000);
  }

  /** The percentage grows with the part. */
  lemma PercentMonotonic(a: int, b: int, whole: int)
    requires whole > 0 && 0 <= a <= b
    ensures PercentHundredths(a, whole) <= PercentHundredths(b, whole)
  {
    var pa := PercentHundredths(a, whole);
    var pb := PercentHundredths(b, whole);
    // pa * whole - whole / 2 <= 10000 a <= 10000 b < pb * whole + whole / 2
    assert 2 * pa * whole == 2 * (pa * whole) && 2 * pb * whole == 2 * (pb * whole);
    WithinHalfOfOrdered(pa * whole, pb * whole, whole, 10000 * a, 10000 * b);
    assert pa * whole - pb * whole == (pa - pb) * whole;
    MultipleBound(pa - pb, whole);
  }

  /** Two values within w / 2 of two ordered numbers are less than w out of
      order. */
  lemma WithinHalfOfOrdered(x: int, y: int, w: int, a: int, b: int)
    requires 2 * x - w <= 2 * a && a <= b && 2 * b < 2 * y + w
    ensures x - y < w
  {
  }
}
