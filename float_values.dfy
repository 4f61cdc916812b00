/**
 * The part of IEEE single-precision arithmetic that the fold cotangent can
 * reach: a quotient with a zero divisor is infinite or NaN, and infinities
 * and NaN propagate through subtraction. Finite values are exact reals
 * (rounding is not modelled) and zero carries no sign (a zero divisor acts
 * as +0).
 */
module FloatValues {

  datatype Float = Finite(value: real) | PosInf | NegInf | NaN

  /** a / b for a finite divisor b. */
  function FloatDiv(a: Float, b: real): (r: Float)
    ensures a.Finite? && b != 0.0 ==> r == Finite(a.value / b)
    ensures b == 0.0 ==> !r.Finite?
    ensures a.NaN? ==> r.NaN?
  {
    match a
    case Finite(x) =>
      if b != 0.0 then Finite(x / b)
      else if x > 0.0 then PosInf
      else if x < 0.0 then NegInf
      else NaN
    case PosInf => if b >= 0.0 then PosInf else NegInf
    case NegInf => if b >= 0.0 then NegInf else PosInf
    case NaN => NaN
  }

  /** a - b. */
  function FloatSub(a: Float, b: Float): (r: Float)
    ensures a.Finite? && b.Finite? ==> r == Finite(a.value - b.value)
    ensures r.Finite? <==> a.Finite? && b.Finite?
    ensures a.NaN? || b.NaN? ==> r.NaN?
  {
    match (a, b)
    case (NaN, _) => NaN
    case (_, NaN) => NaN
    case (Finite(x), Finite(y)) => Finite(x - y)
    case (PosInf, PosInf) => NaN
    case (NegInf, NegInf) => NaN
    case (PosInf, _) => PosInf
    case (NegInf, _) => NegInf
    case (Finite(_), PosInf) => NegInf
    case (Finite(_), NegInf) => PosInf
  }

  /** a + b. */
  function FloatAdd(a: Float, b: Float): (r: Float)
    ensures a.Finite? && b.Finite? ==> r == Finite(a.value + b.value)
    ensures r.Finite? <==> a.Finite? && b.Finite?
    ensures a.NaN? || b.NaN? ==> r.NaN?
  {
    match (a, b)
    case (NaN, _) => NaN
    case (_, NaN) => NaN
    case (Finite(x), Finite(y)) => Finite(x + y)
    case (PosInf, NegInf) => NaN
    case (NegInf, PosInf) => NaN
    case (PosInf, _) => PosInf
    case (NegInf, _) => NegInf
    case (Finite(_), PosInf) => PosInf
    case (Finite(_), NegInf) => NegInf
  }

  /** a * b for a finite factor b: an infinity times zero is NaN. */
  function FloatMul(a: Float, b: real): (r: Float)
    ensures a.Finite? ==> r == Finite(a.value * b)
    ensures r.Finite? <==> a.Finite?
    ensures !a.Finite? && b == 0.0 ==> r.NaN?
  {
    match a
    case Finite(_) => Finite(a.value * b)
    case PosInf => if b > 0.0 then PosInf else if b < 0.0 then NegInf else NaN
    case NegInf => if b > 0.0 then NegInf else if b < 0.0 then PosInf else NaN
    case NaN => NaN
  }

  /** Mathf.Abs: never negative infinity. */
  function FloatAbs(a: Float): (r: Float)
    ensures a.Finite? ==> r == Finite(if a.value >= 0.0 then a.value else -a.value)
    ensures !r.NegInf? && (r.Finite? <==> a.Finite?) && (r.NaN? <==> a.NaN?)
  {
    match a
    case Finite(x) => Finite(if x >= 0.0 then x else -x)
    case PosInf => PosInf
    case NegInf => PosInf
    case NaN => NaN
  }
}
