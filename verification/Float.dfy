/** float64 without rounding and without negative zero: reals, the two infinities, NaN. */
module Float {

  datatype F64 = Fin(r: real) | PosInf | NegInf | NaN

  const ZERO: F64 := Fin(0.0)

  function FromInt(n: int): F64 {
    Fin(n as real)
  }

  function Neg(x: F64): F64 {
    match x
    case Fin(r) => Fin(-r)
    case PosInf => NegInf
    case NegInf => PosInf
    case NaN => NaN
  }

  function Add(x: F64, y: F64): F64 {
    if x.NaN? || y.NaN? then NaN
    else if x.Fin? && y.Fin? then Fin(x.r + y.r)
    else if x.Fin? then y
    else if y.Fin? || x == y then x
    else NaN
  }

  function Sub(x: F64, y: F64): F64 {
    Add(x, Neg(y))
  }

  function Signed(negative: bool): F64 {
    if negative then NegInf else PosInf
  }

  predicate Negative(x: F64) {
    x.NegInf? || (x.Fin? && x.r < 0.0)
  }

  function Mul(x: F64, y: F64): F64 {
    if x.NaN? || y.NaN? then NaN
    else if x.Fin? && y.Fin? then Fin(x.r * y.r)
    else if x == ZERO || y == ZERO then NaN
    else Signed(Negative(x) != Negative(y))
  }

  /** A zero divisor is a positive zero here: all of them come from converted integers. */
  function Div(x: F64, y: F64): F64 {
    if x.NaN? || y.NaN? then NaN
    else if y.Fin? then
      if x.Fin? then
        if y.r != 0.0 then Fin(x.r / y.r)
        else if x.r == 0.0 then NaN
        else Signed(x.r < 0.0)
      else Signed(Negative(x) != Negative(y))
    else if x.Fin? then ZERO
    else NaN
  }

  /** x < y; false as soon as one of them is not a number. */
  predicate Less(x: F64, y: F64) {
    match (x, y)
    case (Fin(a), Fin(b)) => a < b
    case (NegInf, Fin(_)) => true
    case (NegInf, PosInf) => true
    case (Fin(_), PosInf) => true
    case _ => false
  }

  predicate AtMost(x: F64, y: F64) {
    !x.NaN? && !y.NaN? && !Less(y, x)
  }

  ghost predicate AllFinite(xs: seq<F64>) {
    forall i :: 0 <= i < |xs| ==> xs[i].Fin?
  }

  predicate Positive(x: F64) {
    x.Fin? && x.r > 0.0
  }

  ghost predicate AllPositive(xs: seq<F64>) {
    forall i :: 0 <= i < |xs| ==> Positive(xs[i])
  }
}
