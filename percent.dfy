/** `Math.round((part / whole) * 100)` in exact integer arithmetic: the
    percentage rounded to the nearest whole number, halves rounded up. */
module Percent {

  function RoundedPercent(part: nat, whole: nat): (r: nat)
    requires whole > 0
    ensures 2 * whole * r <= 200 * part + whole < 2 * whole * (r + 1)
  {
    var q := (200 * part + whole) / (2 * whole);
    DivBounds(200 * part + whole, 2 * whole);
    q
  }

  lemma DivBounds(a: nat, b: nat)
    requires b > 0
    ensures b * (a / b) <= a < b * (a / b + 1)
  {
  }

  /** A share of a whole is a percentage between 0 and 100. */
  lemma PercentInRange(part: nat, whole: nat)
    requires 0 < whole && part <= whole
    ensures 0 <= RoundedPercent(part, whole) <= 100
  {
    var r := RoundedPercent(part, whole);
    assert 2 * whole * r < 2 * whole * 101 by {
      assert 200 * part + whole <= 201 * whole;
    }
    MulLessCancel(2 * whole, r, 101);
  }

  /** The percentage is 0 exactly when the share is below half a percent;
      in particular it is 0 when nothing is done. */
  lemma PercentZero(part: nat, whole: nat)
    requires 0 < whole
    ensures RoundedPercent(part, whole) == 0 <==> 200 * part < whole
    ensures part == 0 ==> RoundedPercent(part, whole) == 0
  {
    var r := RoundedPercent(part, whole);
    if r > 0 {
      MulMono(2 * whole, 1, r);
    } else {
      assert 2 * whole * (r + 1) == 2 * whole;
    }
  }

  /** The percentage is 100 exactly when the share is at least 99.5 percent;
      in particular it is 100 when everything is done. */
  lemma PercentFull(part: nat, whole: nat)
    requires 0 < whole && part <= whole
    ensures RoundedPercent(part, whole) == 100 <==> 199 * whole <= 200 * part
    ensures part == whole ==> RoundedPercent(part, whole) == 100
  {
    var r := RoundedPercent(part, whole);
    PercentInRange(part, whole);
    if r == 100 {
      assert 2 * whole * r == 200 * whole;
    } else {
      assert r <= 99;
      MulMono(2 * whole, r + 1, 100);
      assert 200 * part + whole < 200 * whole;
    }
  }

  lemma MulMono(k: nat, a: nat, b: nat)
    requires a <= b
    ensures k * a <= k * b
  {
  }

  lemma MulLessCancel(k: nat, a: nat, b: nat)
    requires k * a < k * b
    ensures a < b
  {
    if a >= b {
      MulMono(k, b, a);
    }
  }
}
