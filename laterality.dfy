/** Values of a laterality index: a real ratio, or not-a-number when the
    ratio's denominator is zero (Python's `float('nan')`). Both laterality
    formulas of the repository reduce integer counts to such a value. */
module Laterality {

  datatype Index = NaN | Defined(value: real)

  /** `num / den if den != 0 else float('nan')`, on integer counts. The
      division is exact here; floating-point rounding is not modelled. */
  function Ratio(num: int, den: nat): (r: Index)
    ensures r.NaN? <==> den == 0
    ensures r.Defined? && -(den as int) <= num <= den ==> -1.0 <= r.value <= 1.0
    ensures r.Defined? ==> (r.value == 1.0 <==> num == den)
  {
    if den == 0 then NaN
    else
      var q := num as real / den as real;
      RatioBounds(num, den, q);
      Defined(q)
  }

  /** A quotient whose numerator lies between -den and den lies in [-1, 1],
      and it is 1 exactly when the numerator equals the denominator. */
  lemma RatioBounds(num: int, den: nat, q: real)
    requires den > 0 && q * den as real == num as real
    ensures -(den as int) <= num <= den ==> -1.0 <= q <= 1.0
    ensures q == 1.0 <==> num == den
  {
    var d, n := den as real, num as real;
    assert q * d == n;
    if -(den as int) <= num <= den {
      assert -d <= n <= d;
      if q > 1.0 {
        MulStrict(q, 1.0, d);
        assert false;
      }
      if q < -1.0 {
        MulStrict(-1.0, q, d);
        assert false;
      }
    }
    if q == 1.0 {
      assert n == d;
    }
    if num == den {
      if q > 1.0 {
        MulStrict(q, 1.0, d);
        assert false;
      }
      if q < 1.0 {
        MulStrict(1.0, q, d);
        assert false;
      }
    }
  }

  lemma MulStrict(a: real, b: real, d: real)
    requires a > b && d > 0.0
    ensures a * d > b * d
  {
    assert (a - b) * d > 0.0;
  }
}
