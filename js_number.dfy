/** JavaScript numbers, as far as the workout form needs them.
    A value read from the form and coerced with unary `+` is a finite
    number, NaN or one of the two infinities. Finite values are modelled
    over `real`: IEEE-754 rounding and the sign of zero are not modelled. */
module JsNumbers {

  datatype JsNumber = Finite(value: real) | NaN | PosInf | NegInf {
    predicate IsInfinite() { PosInf? || NegInf? }
  }

  /** `Number.isFinite(x)` for a value that is already a number. */
  predicate IsFinite(x: JsNumber)
    ensures IsFinite(x) <==> !x.NaN? && !x.IsInfinite()
  {
    x.Finite?
  }

  /** The JavaScript comparison `x > 0`: false for NaN and for -Infinity. */
  predicate GreaterThanZero(x: JsNumber)
    ensures GreaterThanZero(x) ==> !x.NaN? && !x.NegInf?
    ensures GreaterThanZero(x) && !x.IsInfinite() ==> x.value > 0.0
    ensures IsFinite(x) && x.value > 0.0 ==> GreaterThanZero(x)
  {
    match x
    case Finite(v) => v > 0.0
    case PosInf => true
    case _ => false
  }

  /** A finite number strictly greater than zero. */
  predicate FinitePositive(x: JsNumber) {
    x.Finite? && x.value > 0.0
  }

  /** The JavaScript division `a / b` (zero is taken to be +0). */
  function Div(a: JsNumber, b: JsNumber): (r: JsNumber)
    // finite operands with a non-zero divisor give the finite quotient
    ensures a.Finite? && b.Finite? && b.value != 0.0 ==> r.Finite?
    // a finite quotient times a finite divisor gives back the dividend
    ensures r.Finite? && b.Finite? ==> a.Finite? && r.value * b.value == a.value
    // the invalid operations of IEEE 754: NaN in, 0/0 and Infinity/Infinity
    ensures r.NaN? <==>
      a.NaN? || b.NaN? || (a == Finite(0.0) && b == Finite(0.0)) || (a.IsInfinite() && b.IsInfinite())
  {
    if a.NaN? || b.NaN? then NaN
    else if a.Finite? && b.Finite? then
      if b.value != 0.0 then Finite(a.value / b.value)
      else if a.value > 0.0 then PosInf
      else if a.value < 0.0 then NegInf
      else NaN
    else if a.Finite? then Finite(0.0)
    else if b.Finite? then
      if b.value >= 0.0 then a
      else if a.PosInf? then NegInf else PosInf
    else NaN
  }
}
