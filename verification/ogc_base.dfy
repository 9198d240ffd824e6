/** Expression nodes of an OGC filter: Literal, PropertyName and the four
    arithmetic operators, the `wrap` rule that turns a plain Python value into
    a Literal, the operator-overloading builders, and `simulate`, which
    evaluates an expression against a record. */
module OgcBase {
  import opened Wrappers
  import opened PyValues
  import opened Utils
  import opened BinaryOps
  import UtilsLemmas

  /** An expression node. A Literal keeps only the text `stringify` gave
      its value; an arithmetic node keeps its two operands in order. */
  datatype Expr =
    | Literal(text: string)
    | PropertyName(name: string)
    | Arith(op: ArithOp, e0: Expr, e1: Expr)

  /** The Python object handed to `wrap` or to a setter: a plain value, an
      Expression node, a Lower/UpperBoundary of PropertyIsBetween (which is
      not an Expression), or any other object (a list, a dict, a filter). */
  datatype Obj =
    | Scalar(v: Value)
    | Node(e: Expr)
    | Boundary(lower: bool, e: Expr)
    | Other

  /** `Literal(obj)`: the node stores `stringify(obj)` and nothing else. */
  function NewLiteral(v: Value): (r: Expr)
    ensures r.Literal? && r.text == Stringify(v)
  {
    Literal(Stringify(v))
  }

  /** `Expression.wrap`. */
  function Wrap(obj: Obj): (r: Result<Expr>)
    ensures r.Ok? <==> obj.Scalar? || obj.Node?
    ensures obj.Node? ==> r == Ok(obj.e)
    ensures obj.Scalar? ==> r == Ok(NewLiteral(obj.v))
    ensures r.Err? ==> r.error == TypeError
  {
    match obj
    case Node(e) => Ok(e)
    case Scalar(v) => Ok(NewLiteral(v))
    case _ => Err(TypeError)
  }

  /** `PropertyName(property_name)`: only a str is accepted. */
  function NewPropertyName(obj: Obj): (r: Result<Expr>)
    ensures r.Ok? <==> obj.Scalar? && obj.v.Str?
    ensures r.Ok? ==> r.value == PropertyName(obj.v.s)
    ensures r.Err? ==> r.error == TypeError
  {
    if obj.Scalar? && obj.v.Str? then Ok(PropertyName(obj.v.s)) else Err(TypeError)
  }

  /** `simulate(data)` of an expression. A Literal yields its text whatever
      the data; a PropertyName looks its key up; an arithmetic node evaluates
      and parses its left operand, then evaluates and parses its right one,
      and applies the operator. */
  function Simulate(e: Expr, data: Data): (r: Result<Value>)
    ensures e.Literal? ==> r == Ok(Str(e.text))
    ensures e.PropertyName? && data.NotADict? ==> r == Err(TypeError)
    ensures e.PropertyName? && data.Record? && e.name !in data.fields ==> r == Err(ValueError)
    ensures e.PropertyName? && data.Record? && e.name in data.fields ==> r == Ok(data.fields[e.name])
    ensures e.Arith? && r.Ok? ==> r.value.Float?
  {
    match e
    case Literal(t) => Ok(Str(t))
    case PropertyName(n) =>
      if data.NotADict? then Err(TypeError)
      else if n !in data.fields then Err(ValueError)
      else Ok(data.fields[n])
    case Arith(op, e0, e1) =>
      var v0 :- Simulate(e0, data);
      var d0 :- ParseDouble(v0);
      var v1 :- Simulate(e1, data);
      var d1 :- ParseDouble(v1);
      Ok(Float(Apply(op, d0, d1)))
  }

  /** `Add(expr0, expr1)` and its siblings: both operands go through `wrap`,
      the left one first. */
  function Build(op: ArithOp, left: Obj, right: Obj): (r: Result<Expr>)
    ensures r.Ok? <==> Wrap(left).Ok? && Wrap(right).Ok?
    ensures r.Ok? ==> r.value == Arith(op, Wrap(left).value, Wrap(right).value)
    ensures r.Err? ==> r.error == TypeError
  {
    var l :- Wrap(left);
    var rt :- Wrap(right);
    Ok(Arith(op, l, rt))
  }

  /** `self + other` (and -, *, /): self is the left operand. */
  function Forward(op: ArithOp, self: Expr, other: Obj): (r: Result<Expr>)
  {
    Build(op, Node(self), other)
  }

  /** `other + self` (and -, *, /) when `other` does not know how: self is
      the right operand. */
  function Reflected(op: ArithOp, self: Expr, other: Obj): (r: Result<Expr>)
  {
    Build(op, other, Node(self))
  }

  /** The forward builders put self on the left, the reflected ones on the
      right; an operand that cannot be wrapped raises TypeError. */
  lemma BuilderOperandOrder(op: ArithOp, self: Expr, other: Obj)
    ensures Wrap(other).Ok? ==> Forward(op, self, other) == Ok(Arith(op, self, Wrap(other).value))
    ensures Wrap(other).Ok? ==> Reflected(op, self, other) == Ok(Arith(op, Wrap(other).value, self))
    ensures Wrap(other).Err? ==> Forward(op, self, other) == Err(TypeError) && Reflected(op, self, other) == Err(TypeError)
  {
  }

  /** A Literal forgets the type of its value: values with the same text
      give the same node (Literal(1) and Literal('1') are indistinguishable). */
  lemma LiteralKeepsTextOnly(v: Value, w: Value)
    requires Stringify(v) == Stringify(w)
    ensures Wrap(Scalar(v)) == Wrap(Scalar(w))
  {
  }

  /** A wrapped plain value evaluates to its text, whatever the data. */
  lemma WrappedValueSimulates(v: Value, data: Data)
    ensures Wrap(Scalar(v)).Ok?
    ensures Simulate(Wrap(Scalar(v)).value, data) == Ok(Str(Stringify(v)))
  {
  }

  /** Both operands pass through parseDouble: a left operand that fails to
      parse raises its error before the right operand is looked at. */
  lemma ArithLeftErrorFirst(op: ArithOp, e0: Expr, e1: Expr, data: Data, v0: Value)
    requires Simulate(e0, data) == Ok(v0) && ParseDouble(v0).Err?
    ensures Simulate(Arith(op, e0, e1), data) == Err(ParseDouble(v0).error)
  {
  }

  /** bool and date operands raise TypeError, wherever they appear. */
  lemma ArithRejectsBoolAndDates(op: ArithOp, e0: Expr, e1: Expr, data: Data, v: Value)
    requires v.Bool? || v.Date? || v.DateTimeV?
    requires (Simulate(e0, data) == Ok(v)) || (Simulate(e0, data).Ok? && ParseDouble(Simulate(e0, data).value).Ok? && Simulate(e1, data) == Ok(v))
    ensures Simulate(Arith(op, e0, e1), data) == Err(TypeError)
  {
  }

  /** A None operand is NaN, so the result is NaN rather than an error
      (unless it is a division by zero, which gives +inf first). */
  lemma ArithNoneIsNaN(op: ArithOp, e0: Expr, e1: Expr, data: Data, v1: Value)
    requires Simulate(e0, data) == Ok(Null) && Simulate(e1, data) == Ok(v1) && ParseDouble(v1).Ok?
    requires !(op == Div && IsZero(ParseDouble(v1).value))
    ensures Simulate(Arith(op, e0, e1), data) == Ok(Float(NaN))
  {
  }

  /** Any divisor that parses to zero gives +inf, whatever the dividend. */
  lemma DivByZeroIsInfinity(e0: Expr, e1: Expr, data: Data, v0: Value, v1: Value)
    requires Simulate(e0, data) == Ok(v0) && ParseDouble(v0).Ok?
    requires Simulate(e1, data) == Ok(v1) && ParseDouble(v1) == Ok(Finite(0.0))
    ensures Simulate(Arith(Div, e0, e1), data) == Ok(Float(PosInf))
  {
  }

  /** Arithmetic on two int literals, as in `Add(27, 85)`: each operand's
      text parses back to its value, so the node computes on the ints. */
  lemma IntLiteralArithmetic(op: ArithOp, a: int, b: int, data: Data)
    ensures Build(op, Scalar(Int(a)), Scalar(Int(b))).Ok?
    ensures Simulate(Build(op, Scalar(Int(a)), Scalar(Int(b))).value, data)
         == Ok(Float(Apply(op, Finite(a as real), Finite(b as real))))
  {
    UtilsLemmas.ParseDoubleOfIntText(a);
    UtilsLemmas.ParseDoubleOfIntText(b);
  }
}
