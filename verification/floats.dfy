/** Single-precision inputs as the clock sees them. */
module Floats {

  /** A float is a real number or NaN. Rounding and infinities are not modelled. */
  datatype Float = Num(val: real) | NaN

  /** True when `v` is a number that is not negative. This is the negation of
      the guard `v < 0 || v != v` that the clock applies to its inputs. */
  predicate NonNegative(v: Float) {
    v.Num? && v.val >= 0.0
  }

  /** `v` itself when it is a non-negative number, otherwise `fallback`. */
  function OrIfInvalid(v: Float, fallback: real): (r: real)
    ensures NonNegative(v) ==> r == v.val
    ensures !NonNegative(v) ==> r == fallback
    ensures fallback >= 0.0 ==> r >= 0.0
  {
    if NonNegative(v) then v.val else fallback
  }
}
