/**
 The few JavaScript values and operators the poller relies on: an optional
 value, and the IEEE number that `parseFloat` returns, reduced to what the
 validity check of a sample can observe (NaN, a finite value, an infinity).
 */
module JsValues {

  datatype Option<+T> = None | Some(value: T)

  /** A JavaScript number as produced by `parseFloat`. Finite values are kept
      as exact reals; the sign of zero is not represented. */
  datatype Num = NaN | Finite(x: real) | Infinity(negative: bool)

  /** `!v` on a number: true exactly for the falsy numbers NaN and zero. */
  predicate Not(v: Num) {
    v.NaN? || v == Finite(0.0)
  }

  /** IEEE equality of two numbers: NaN equals nothing, not even itself. */
  predicate NumEq(a: Num, b: Num) {
    !a.NaN? && !b.NaN? && a == b
  }

  /** `a !== b` on two numbers. */
  predicate StrictNotEqual(a: Num, b: Num) {
    !NumEq(a, b)
  }

  /** `a != b` on two numbers: loose and strict inequality agree on numbers. */
  predicate LooseNotEqual(a: Num, b: Num) {
    !NumEq(a, b)
  }

  /** Every comparison with NaN by `!==` is true, whatever the other side. */
  lemma StrictNotEqualNaN(v: Num)
    ensures StrictNotEqual(v, NaN)
  {
  }
}
