/** The four arithmetic operators of OGC filter expressions (Add, Sub, Mul,
    Div) applied to two Python floats, with IEEE special values. Finite
    floats are exact reals, so rounding is not modelled; the special cases
    (NaN, the infinities, a zero divisor) are. */
module BinaryOps {
  import opened PyValues

  datatype ArithOp = Add | Sub | Mul | Div

  /** The operator on two finite operands. */
  function RealOp(op: ArithOp, x: real, y: real): real
    requires op == Div ==> y != 0.0
  {
    match op
    case Add => x + y
    case Sub => x - y
    case Mul => x * y
    case Div => x / y
  }

  /** -x, with the infinities swapped. */
  function Negate(a: Double): (r: Double)
    ensures r.NaN? <==> a.NaN?
    ensures r.Finite? <==> a.Finite?
  {
    match a
    case Finite(x) => Finite(-x)
    case NaN => NaN
    case PosInf => NegInf
    case NegInf => PosInf
  }

  /** The sign of a non-NaN double: -1, 0 or 1. */
  function Sign(a: Double): int
  {
    match a
    case Finite(x) => if x < 0.0 then -1 else if x > 0.0 then 1 else 0
    case NaN => 0
    case PosInf => 1
    case NegInf => -1
  }

  /** The infinity of the given sign (a positive sign gives +inf). */
  function Infinity(sign: int): Double
  {
    if sign < 0 then NegInf else PosInf
  }

  predicate IsZero(a: Double) { a == Finite(0.0) }

  /** IEEE addition. */
  function AddD(a: Double, b: Double): Double
  {
    if a.NaN? || b.NaN? then NaN
    else if a.Finite? && b.Finite? then Finite(a.r + b.r)
    else if a.Finite? then b
    else if b.Finite? then a
    else if a == b then a
    else NaN
  }

  /** IEEE multiplication. */
  function MulD(a: Double, b: Double): Double
  {
    if a.NaN? || b.NaN? then NaN
    else if a.Finite? && b.Finite? then Finite(a.r * b.r)
    else if IsZero(a) || IsZero(b) then NaN
    else Infinity(Sign(a) * Sign(b))
  }

  /** IEEE division by a non-zero divisor. */
  function DivD(a: Double, b: Double): Double
    requires !IsZero(b)
  {
    if a.NaN? || b.NaN? then NaN
    else if a.Finite? && b.Finite? then Finite(a.r / b.r)
    else if !a.Finite? && !b.Finite? then NaN
    else if b.Finite? then Infinity(Sign(a) * Sign(b))
    else Finite(0.0)
  }

  /** `val0 op val1` as BinaryOperator's subclasses compute it: Div catches
      ZeroDivisionError, which Python raises for any zero divisor before
      looking at the dividend, and returns +inf instead. */
  function Apply(op: ArithOp, a: Double, b: Double): (r: Double)
    ensures op == Div && IsZero(b) ==> r == PosInf
    ensures !(op == Div && IsZero(b)) && (a.NaN? || b.NaN?) ==> r == NaN
    ensures !(op == Div && IsZero(b)) && a.Finite? && b.Finite? ==> r == Finite(RealOp(op, a.r, b.r))
    ensures r.Finite? ==> (a.Finite? && b.Finite?) || (op == Div && a.Finite? && !b.Finite?)
  {
    match op
    case Add => AddD(a, b)
    case Sub => AddD(a, Negate(b))
    case Mul => MulD(a, b)
    case Div => if IsZero(b) then PosInf else DivD(a, b)
  }

  /** Subtraction is addition of the negation, infinities included. */
  lemma SubIsAddNegated(a: Double, b: Double)
    ensures Apply(Sub, a, b) == Apply(Add, a, Negate(b))
  {
  }

  /** Add and Mul do not depend on the operand order. */
  lemma AddMulCommute(a: Double, b: Double)
    ensures Apply(Add, a, b) == Apply(Add, b, a)
    ensures Apply(Mul, a, b) == Apply(Mul, b, a)
  {
  }

  /** Swapping the operands of Sub negates the result, infinities and NaN
      included; swapping those of Div inverts a finite non-zero quotient,
      while a zero operand gives 0 on one side and +inf on the other. */
  lemma SubDivSwap(a: Double, b: Double)
    ensures Apply(Sub, a, b) == Negate(Apply(Sub, b, a))
    ensures a.Finite? && b.Finite? && !IsZero(a) && !IsZero(b) ==>
      Apply(Div, a, b).Finite? && Apply(Div, b, a).Finite? && Apply(Div, a, b).r * Apply(Div, b, a).r == 1.0
    ensures IsZero(a) && b.Finite? && !IsZero(b) ==> Apply(Div, a, b) == Finite(0.0) && Apply(Div, b, a) == PosInf
  {
    if a.Finite? && b.Finite? && !IsZero(a) && !IsZero(b) {
      assert (a.r / b.r) * (b.r / a.r) == 1.0;
    }
  }

  /** The IEEE cases for either infinity: opposite infinities cancel to NaN,
      an infinity absorbs any finite addend, times zero it is NaN and times a
      non-zero number it keeps the product's sign, a finite number divided
      by it is 0, and it divided by an infinity is NaN. */
  lemma InfinityArithmetic(inf: Double, x: real)
    requires inf.PosInf? || inf.NegInf?
    ensures Apply(Add, inf, Negate(inf)) == NaN && Apply(Sub, inf, inf) == NaN
    ensures Apply(Add, inf, Finite(x)) == inf && Apply(Sub, Finite(x), inf) == Negate(inf)
    ensures Apply(Mul, inf, Finite(0.0)) == NaN
    ensures x != 0.0 ==> Apply(Mul, inf, Finite(x)) == Infinity(Sign(inf) * Sign(Finite(x)))
    ensures Apply(Div, Finite(x), inf) == Finite(0.0)
    ensures Apply(Div, inf, PosInf) == NaN && Apply(Div, inf, NegInf) == NaN
  {
  }

  /** Division undoes multiplication by a finite non-zero factor. */
  lemma DivUndoesMul(a: Double, b: Double)
    requires a.Finite? && b.Finite? && !IsZero(b)
    ensures Apply(Div, Apply(Mul, a, b), b) == a
  {
    assert a.r * b.r / b.r == a.r;
  }
}
