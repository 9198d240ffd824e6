/** The comparison operators of an OGC filter: the tri-state
    `_compare_values`, the staged coercion of `BinaryComparisonOp.simulate`,
    the six PropertyIs* predicates built on it, PropertyIsNull and
    PropertyIsBetween, and their constructors. (PropertyIsLike is in
    module Like.) */
module ComparisonOps {
  import opened Wrappers
  import opened PyValues
  import opened Utils
  import opened OgcBase
  import opened Mixins
  import opened Like
  import UtilsLemmas

  // ================================================================ _compare_values

  /** Python's `==` on two floats: NaN equals nothing, itself included. */
  predicate FloatEq(x: Double, y: Double)
  {
    !x.NaN? && x == y
  }

  /** Python's `>` on two floats: false whenever a NaN is involved. */
  predicate FloatGt(x: Double, y: Double)
  {
    if x.NaN? || y.NaN? then false
    else if x == PosInf then y != PosInf
    else if y == NegInf then x != NegInf
    else x.Finite? && y.Finite? && x.r > y.r
  }

  function B2I(b: bool): int
  {
    if b then 1 else 0
  }

  /** `val.replace(tzinfo=datetime.timezone.utc)`. */
  function AsUtc(t: Moment): Moment
  {
    t.(offset := Some(0))
  }

  /** Ordering of two datetimes once a naive one facing an aware one has
      been read as UTC: naive values compare field by field, aware ones by
      the instant they denote. */
  function DateTimeCmp(x: Moment, y: Moment): int
  {
    var a := if x.offset.None? && y.offset.Some? then AsUtc(x) else x;
    var b := if x.offset.Some? && y.offset.None? then AsUtc(y) else y;
    if a.offset.None? && b.offset.None? then LexCmp(DateTimeFields(a), DateTimeFields(b))
    else IntCmp(Instant(a), Instant(b))
  }

  /** `_compare_values(val1, val2)`: ValueError when the two types differ,
      0 for two Nones, otherwise 0 when `val1 == val2`, 1 when
      `val1 > val2` and -1 in every other case, NaN included. */
  function CompareValues(a: Value, b: Value): (r: Result<int>)
    ensures r.Err? <==> KindOf(a) != KindOf(b)
    ensures r.Err? ==> r.error == ValueError
    ensures r.Ok? ==> -1 <= r.value <= 1
    ensures a == Null && b == Null ==> r == Ok(0)
    ensures a == b && a != Float(NaN) ==> r == Ok(0)
  {
    if KindOf(a) != KindOf(b) then Err(ValueError)
    else
      match a
      case Null => Ok(0)
      case Bool(x) => Ok(IntCmp(B2I(x), B2I(b.b)))
      case Int(x) => Ok(IntCmp(x, b.i))
      case Float(x) => Ok(if FloatEq(x, b.d) then 0 else if FloatGt(x, b.d) then 1 else -1)
      case Str(x) => Ok(StrCmp(x, b.s))
      case Date(x) => Ok(LexCmp(DateFields(x), DateFields(b.date)))
      case DateTimeV(x) => Ok(DateTimeCmp(x, b.dt))
  }

  /** Swapping the operands negates the result, unless a NaN is involved. */
  lemma CompareValuesAntisymmetric(a: Value, b: Value)
    requires a != Float(NaN) && b != Float(NaN)
    requires KindOf(a) == KindOf(b)
    ensures CompareValues(b, a) == Ok(-CompareValues(a, b).value)
  {
    match a
    case Str(x) => StrCmpAntisymmetric(x, b.s);
    case Date(x) => LexCmpAntisymmetric(DateFields(x), DateFields(b.date));
    case DateTimeV(x) =>
      if x.offset.None? && b.dt.offset.None? {
        LexCmpAntisymmetric(DateTimeFields(x), DateTimeFields(b.dt));
      }
    case _ =>
  }

  /** A NaN compares as smaller than any float, and any float as smaller
      than NaN: both orders give -1. */
  lemma NaNComparesSmallerBothWays(x: Double)
    ensures CompareValues(Float(NaN), Float(x)) == Ok(-1)
    ensures CompareValues(Float(x), Float(NaN)) == Ok(-1)
  {
  }

  /** A naive datetime facing an aware one is read as UTC: the result is
      the order of the instants. */
  lemma NaiveReadAsUtc(x: Moment, y: Moment)
    requires x.offset.None? && y.offset.Some?
    ensures CompareValues(DateTimeV(x), DateTimeV(y)) == Ok(IntCmp(Instant(x), Instant(y)))
    ensures CompareValues(DateTimeV(y), DateTimeV(x)) == Ok(IntCmp(Instant(y), Instant(x)))
  {
    assert Instant(AsUtc(x)) == Instant(x);
  }

  // ================================================================ the staged coercion

  predicate IsDateKind(v: Value)
  {
    v.Date? || v.DateTimeV?
  }

  /** Python's `int(x)` of a float: truncation toward zero; NaN raises
      ValueError and an infinity OverflowError. */
  function IntOfFloat(d: Double): (r: Result<int>)
    ensures d.NaN? ==> r == Err(ValueError)
    ensures d.PosInf? || d.NegInf? ==> r == Err(OverflowError)
    ensures d.Finite? && d.r >= 0.0 ==> r.Ok? && r.value as real <= d.r < r.value as real + 1.0
    ensures d.Finite? && d.r < 0.0 ==> r.Ok? && r.value as real - 1.0 < d.r <= r.value as real
  {
    match d
    case NaN => Err(ValueError)
    case PosInf => Err(OverflowError)
    case NegInf => Err(OverflowError)
    case Finite(x) => Ok(if x >= 0.0 then x.Floor else -((-x).Floor))
  }

  /** `{'true': 1, 'false': 0}.get(v.lower(), v)` on a str; other values
      are left alone. */
  function BoolWord(v: Value): (r: Value)
    ensures v.Str? && AsciiLower(v.s) == "true" ==> r == Int(1)
    ensures v.Str? && AsciiLower(v.s) == "false" ==> r == Int(0)
    ensures !(v.Str? && (AsciiLower(v.s) == "true" || AsciiLower(v.s) == "false")) ==> r == v
  {
    if v.Str? && AsciiLower(v.s) == "true" then Int(1)
    else if v.Str? && AsciiLower(v.s) == "false" then Int(0)
    else v
  }

  /** The int the side facing a bool becomes: an int or bool is converted
      directly, anything else goes through `int(parseDouble(..))`. */
  function BoolPartner(v: Value): (r: Result<int>)
  {
    var w := BoolWord(v);
    if w.Int? then Ok(w.i)
    else if w.Bool? then Ok(B2I(w.b))
    else
      var d :- ParseDouble(w);
      IntOfFloat(d)
  }

  /** The second stage, on values of different types: dates on either side
      make both go through parseDate; otherwise a bool makes both ints; any
      other pair is left alone. */
  function Coerce(a: Value, b: Value): Result<(Value, Value)>
  {
    if KindOf(a) == KindOf(b) then Ok((a, b))
    else if IsDateKind(a) || IsDateKind(b) then
      var x :- ParseDate(a);
      var y :- ParseDate(b);
      Ok((DateTimeV(x), DateTimeV(y)))
    else if a.Bool? then
      var y :- BoolPartner(b);
      Ok((Int(B2I(a.b)), Int(y)))
    else if b.Bool? then
      var x :- BoolPartner(a);
      Ok((Int(x), Int(B2I(b.b))))
    else Ok((a, b))
  }

  /** The comparison `BinaryComparisonOp.simulate` performs on the two
      evaluated operands. Stage one parses val1, then val2, as doubles; if
      both succeed the floats are compared. Otherwise val1 keeps its float
      if it got one, the pair goes through Coerce, and two values that
      still differ in type are compared as their `stringify` texts. */
  function CompareSim(v1: Value, v2: Value): (r: Result<int>)
    ensures r.Ok? ==> -1 <= r.value <= 1
  {
    var p1 := ParseDouble(v1);
    if p1.Ok? && ParseDouble(v2).Ok? then CompareValues(Float(p1.value), Float(ParseDouble(v2).value))
    else
      var a := if p1.Ok? then Float(p1.value) else v1;
      var pair :- Coerce(a, v2);
      if KindOf(pair.0) != KindOf(pair.1) then CompareValues(Str(Stringify(pair.0)), Str(Stringify(pair.1)))
      else CompareValues(pair.0, pair.1)
  }

  /** The side facing a bool: the bool-word lookup, then a direct int
      conversion or `int(parseDouble(val))`. */
  method BoolPartnerStaged(v: Value) returns (r: Result<int>)
    ensures r == BoolPartner(v)
  {
    var val := BoolWord(v);
    if val.Int? || val.Bool? {
      return Ok(if val.Int? then val.i else B2I(val.b));
    }
    var d := ParseDouble(val);
    if d.Err? {
      return Err(d.error);
    }
    r := IntOfFloat(d.value);
  }

  /** The except branch of simulate, reassigning val1 and val2. */
  method CoerceStaged(v1: Value, v2: Value) returns (r: Result<(Value, Value)>)
    ensures r == Coerce(v1, v2)
  {
    var val1, val2 := v1, v2;
    if KindOf(val1) != KindOf(val2) {
      if IsDateKind(val1) || IsDateKind(val2) {
        var d1 := ParseDate(val1);
        if d1.Err? {
          return Err(d1.error);
        }
        var d2 := ParseDate(val2);
        if d2.Err? {
          return Err(d2.error);
        }
        val1, val2 := DateTimeV(d1.value), DateTimeV(d2.value);
      } else if val1.Bool? {
        var n := BoolPartnerStaged(val2);
        if n.Err? {
          return Err(n.error);
        }
        val1, val2 := Int(B2I(val1.b)), Int(n.value);
      } else if val2.Bool? {
        var n := BoolPartnerStaged(val1);
        if n.Err? {
          return Err(n.error);
        }
        val1, val2 := Int(n.value), Int(B2I(val2.b));
      }
    }
    r := Ok((val1, val2));
  }

  /** `BinaryComparisonOp.simulate` after its two operands have been
      evaluated, reassigning val1 and val2 stage by stage. */
  method CompareStaged(v1: Value, v2: Value) returns (r: Result<int>)
    ensures r == CompareSim(v1, v2)
  {
    var val1, val2 := v1, v2;
    var parsed1 := ParseDouble(val1);
    if parsed1.Ok? {
      val1 := Float(parsed1.value);
      var parsed2 := ParseDouble(val2);
      if parsed2.Ok? {
        val2 := Float(parsed2.value);
        return CompareValues(val1, val2);
      }
    }
    // except (ValueError, TypeError):
    var coerced := CoerceStaged(val1, val2);
    if coerced.Err? {
      return Err(coerced.error);
    }
    val1, val2 := coerced.value.0, coerced.value.1;
    if KindOf(val1) != KindOf(val2) {
      val1, val2 := Str(Stringify(val1)), Str(Stringify(val2));
    }
    r := CompareValues(val1, val2);
  }

  /** Two values that parse as doubles are compared as floats, whatever
      their types. */
  lemma NumericStageFirst(v1: Value, v2: Value)
    requires ParseDouble(v1).Ok? && ParseDouble(v2).Ok?
    ensures CompareSim(v1, v2) == CompareValues(Float(ParseDouble(v1).value), Float(ParseDouble(v2).value))
  {
  }

  /** val1 is parsed before val2: a numeric text facing a date has already
      become a float when the date fails to parse, and parseDate then
      refuses the float with NameError. */
  lemma NumericTextBeforeDateRaises(s: string, d: Day)
    requires ParseDouble(Str(s)).Ok?
    ensures CompareSim(Str(s), Date(d)) == Err(NameError)
  {
    var x := ParseDouble(Str(s)).value;
    assert ParseDouble(Date(d)) == Err(TypeError);
    FloatFacingDateRaises(x, d);
    ParsedFirstCoerceRaises(Str(s), Date(d), x, NameError);
  }

  /** parseDate refuses a float facing a date. */
  lemma FloatFacingDateRaises(x: Double, d: Day)
    ensures Coerce(Float(x), Date(d)) == Err(NameError)
  {
    assert ParseDate(Float(x)) == Err(NameError);
  }

  /** When only val1 parses, its float goes on to the coercion stage. */
  lemma ParsedFirstCoerceRaises(v1: Value, v2: Value, x: Double, e: Error)
    requires ParseDouble(v1) == Ok(x) && ParseDouble(v2).Err?
    requires Coerce(Float(x), v2) == Err(e)
    ensures CompareSim(v1, v2) == Err(e)
  {
  }

  /** In the other order the text reaches parseDate itself, and its error
      is the one raised. */
  lemma DateBeforeBadTextRaises(s: string, d: Day, e: Error)
    requires ParseDate(Str(s)) == Err(e)
    ensures CompareSim(Date(d), Str(s)) == Err(e)
  {
    assert ParseDouble(Date(d)) == Err(TypeError);
    assert Coerce(Date(d), Str(s)) == Err(e);
    CoerceFailureRaises(Date(d), Str(s), e);
  }

  /** A bool against the word 'true' or 'false' in any case, on either
      side, compares as 0/1 against 1/0. */
  lemma BoolAgainstBoolWord(b: bool, t: string)
    requires AsciiLower(t) == "true" || AsciiLower(t) == "false"
    ensures var n := if AsciiLower(t) == "true" then 1 else 0;
      CompareSim(Bool(b), Str(t)) == Ok(IntCmp(B2I(b), n)) && CompareSim(Str(t), Bool(b)) == Ok(IntCmp(n, B2I(b)))
  {
    var n := if AsciiLower(t) == "true" then 1 else 0;
    BoolWordPartner(t, n);
    BoolCoerced(b, Str(t), n);
    UtilsLemmas.BoolWordIsNoNumber(t);
    CoercedCompare(Bool(b), Str(t), Int(B2I(b)), Int(n));
    CoercedCompare(Str(t), Bool(b), Int(n), Int(B2I(b)));
  }

  lemma BoolWordPartner(t: string, n: int)
    requires n == if AsciiLower(t) == "true" then 1 else 0
    requires AsciiLower(t) == "true" || AsciiLower(t) == "false"
    ensures BoolPartner(Str(t)) == Ok(n)
  {
    assert BoolWord(Str(t)) == Int(n);
  }

  /** A str facing a bool on either side: both become ints. */
  lemma BoolCoerced(b: bool, v: Value, n: int)
    requires v.Str? && BoolPartner(v) == Ok(n)
    ensures Coerce(Bool(b), v) == Ok((Int(B2I(b)), Int(n)))
    ensures Coerce(v, Bool(b)) == Ok((Int(n), Int(B2I(b))))
  {
    assert KindOf(Bool(b)) != KindOf(v) && !IsDateKind(Bool(b)) && !IsDateKind(v);
  }

  /** Only the exact word is mapped: trailing whitespace makes the text go
      through parseDouble, which refuses it, so `True == 'true '` raises
      ValueError. */
  lemma PaddedBoolWordRaises(b: bool, t: string, w: string)
    requires AsciiLower(t) == "true" || AsciiLower(t) == "false"
    requires AllSpace(w) && w != []
    ensures CompareSim(Bool(b), Str(t + w)) == Err(ValueError)
  {
    var v := Str(t + w);
    PaddedIsNoWord(t, w);
    UtilsLemmas.ParseDoubleIgnoresTrailing(t, w);
    UtilsLemmas.BoolWordIsNoNumber(t);
    assert BoolWord(v) == v;
    assert BoolPartner(v) == Err(ValueError);
    BoolCoerceFailure(b, v, ValueError);
    assert ParseDouble(Bool(b)) == Err(TypeError);
    CoerceFailureRaises(Bool(b), v, ValueError);
  }

  /** When val1 does not parse as a double and the coercion stage raises,
      simulate raises that error. */
  lemma CoerceFailureRaises(v1: Value, v2: Value, e: Error)
    requires ParseDouble(v1).Err? && Coerce(v1, v2) == Err(e)
    ensures CompareSim(v1, v2) == Err(e)
  {
  }

  /** When val1 does not parse as a double, simulate compares what the
      coercion stage produced, if that is two values of one type. */
  lemma CoercedCompare(v1: Value, v2: Value, x: Value, y: Value)
    requires ParseDouble(v1).Err? && Coerce(v1, v2) == Ok((x, y)) && KindOf(x) == KindOf(y)
    ensures CompareSim(v1, v2) == CompareValues(x, y)
  {
  }

  /** A text facing a bool that neither is a bool word nor converts to an
      int makes the coercion raise the conversion's error. */
  lemma BoolCoerceFailure(b: bool, v: Value, e: Error)
    requires v.Str? && BoolPartner(v) == Err(e)
    ensures Coerce(Bool(b), v) == Err(e)
  {
    assert KindOf(Bool(b)) != KindOf(v) && !IsDateKind(Bool(b)) && !IsDateKind(v);
  }

  lemma PaddedIsNoWord(t: string, w: string)
    requires AsciiLower(t) == "true" || AsciiLower(t) == "false"
    requires w != []
    ensures AsciiLower(t + w) != "true" && AsciiLower(t + w) != "false"
  {
    var padded := AsciiLower(t + w);
    assert |padded| > |AsciiLower(t)|;
    assert padded[0] == LowerChar(t[0]) == AsciiLower(t)[0];
  }

  /** Values of different types with no date and no bool among them, one
      of which is not numeric, are compared as their stringify texts
      (val1 as a float if it parsed). */
  lemma StringifyFallback(v1: Value, v2: Value)
    requires !IsDateKind(v1) && !IsDateKind(v2) && !v1.Bool? && !v2.Bool?
    requires ParseDouble(v1).Err? || ParseDouble(v2).Err?
    ensures var a := if ParseDouble(v1).Ok? then Float(ParseDouble(v1).value) else v1;
      KindOf(a) != KindOf(v2) ==> CompareSim(v1, v2) == CompareValues(Str(Stringify(a)), Str(Stringify(v2)))
  {
    var a := if ParseDouble(v1).Ok? then Float(ParseDouble(v1).value) else v1;
    if KindOf(a) != KindOf(v2) {
      assert !IsDateKind(a) && !a.Bool?;
      assert Coerce(a, v2) == Ok((a, v2));
      CoercedTexts(v1, v2, a, a, v2);
    }
  }

  /** The last stage: two values still of different types are compared as
      their stringify texts. */
  lemma CoercedTexts(v1: Value, v2: Value, a: Value, x: Value, y: Value)
    requires ParseDouble(v1).Err? || ParseDouble(v2).Err?
    requires a == if ParseDouble(v1).Ok? then Float(ParseDouble(v1).value) else v1
    requires Coerce(a, v2) == Ok((x, y)) && KindOf(x) != KindOf(y)
    ensures CompareSim(v1, v2) == CompareValues(Str(Stringify(x)), Str(Stringify(y)))
  {
  }

  // ================================================================ the operators

  /** The six binary comparison predicates. */
  datatype CmpOp = EqualTo | NotEqualTo | GreaterThan | LessThan | GreaterThanOrEqualTo | LessThanOrEqualTo

  /** How each PropertyIs* class reads the tri-state result. */
  predicate Holds(op: CmpOp, c: int)
  {
    match op
    case EqualTo => c == 0
    case NotEqualTo => c != 0
    case GreaterThan => c > 0
    case LessThan => c < 0
    case GreaterThanOrEqualTo => c >= 0
    case LessThanOrEqualTo => c <= 0
  }

  /** A comparison filter. A binary comparison keeps its matchCase
      attribute, which evaluation never reads. */
  datatype Comparison =
    | Binary(op: CmpOp, e0: Expr, e1: Expr, matchCase: bool)
    | IsLike(like: LikeOp)
    | IsNull(prop: Expr)
    | Between(e: Expr, lower: Expr, upper: Expr)

  /** `BinaryComparisonOp.simulate`: evaluate expr0, then expr1, then compare. */
  function CompareExprs(e0: Expr, e1: Expr, data: Data): (r: Result<int>)
    ensures Simulate(e0, data).Err? ==> r == Err(Simulate(e0, data).error)
    ensures Simulate(e0, data).Ok? && Simulate(e1, data).Err? ==> r == Err(Simulate(e1, data).error)
    ensures Simulate(e0, data).Ok? && Simulate(e1, data).Ok? ==>
      r == CompareSim(Simulate(e0, data).value, Simulate(e1, data).value)
  {
    var v1 :- Simulate(e0, data);
    var v2 :- Simulate(e1, data);
    CompareSim(v1, v2)
  }

  /** A PropertyIs* predicate: compare, then read the tri-state result. */
  function EvalBinary(op: CmpOp, e0: Expr, e1: Expr, data: Data): (r: Result<bool>)
    ensures CompareExprs(e0, e1, data).Err? ==> r == Err(CompareExprs(e0, e1, data).error)
    ensures CompareExprs(e0, e1, data).Ok? ==> r == Ok(Holds(op, CompareExprs(e0, e1, data).value))
  {
    var k :- CompareExprs(e0, e1, data);
    Ok(Holds(op, k))
  }

  /** PropertyIsNull: the property evaluates to None. */
  function EvalNull(p: Expr, data: Data): (r: Result<bool>)
  {
    var v :- Simulate(p, data);
    Ok(v == Null)
  }

  /** PropertyIsBetween: `expr >= lower and expr <= upper`, the second
      comparison made only when the first holds. */
  function EvalBetween(e: Expr, lo: Expr, hi: Expr, data: Data): (r: Result<bool>)
  {
    var ge :- EvalBinary(GreaterThanOrEqualTo, e, lo, data);
    if !ge then Ok(false) else EvalBinary(LessThanOrEqualTo, e, hi, data)
  }

  /** `simulate(data)` of a comparison filter. */
  function EvalComparison(c: Comparison, data: Data): Result<bool>
  {
    match c
    case Binary(op, e0, e1, _) => EvalBinary(op, e0, e1, data)
    case IsLike(l) => EvalLike(l, data)
    case IsNull(p) => EvalNull(p, data)
    case Between(e, lo, hi) => EvalBetween(e, lo, hi, data)
  }

  /** The matchCase attribute of a binary comparison has no effect. */
  lemma BinaryIgnoresMatchCase(op: CmpOp, e0: Expr, e1: Expr, data: Data)
    ensures EvalComparison(Binary(op, e0, e1, true), data) == EvalComparison(Binary(op, e0, e1, false), data)
  {
  }

  /** PropertyIsNotEqualTo is the negation of PropertyIsEqualTo whenever
      the comparison succeeds. */
  lemma NotEqualNegatesEqual(e0: Expr, e1: Expr, data: Data)
    requires CompareExprs(e0, e1, data).Ok?
    ensures EvalBinary(NotEqualTo, e0, e1, data) == Ok(!EvalBinary(EqualTo, e0, e1, data).value)
  {
  }

  /** A NaN field is less than every number and every number is less than
      it; it equals nothing. */
  lemma NaNFieldIsLessBothWays(e0: Expr, e1: Expr, data: Data)
    requires Simulate(e0, data) == Ok(Float(NaN))
    requires Simulate(e1, data).Ok? && ParseDouble(Simulate(e1, data).value).Ok?
    ensures EvalBinary(LessThan, e0, e1, data) == Ok(true)
    ensures EvalBinary(LessThan, e1, e0, data) == Ok(true)
    ensures EvalBinary(EqualTo, e0, e1, data) == Ok(false)
    ensures EvalBinary(GreaterThan, e0, e1, data) == Ok(false)
  {
    var x := ParseDouble(Simulate(e1, data).value).value;
    NaNComparesSmallerBothWays(x);
    NumericStageFirst(Float(NaN), Simulate(e1, data).value);
    NumericStageFirst(Simulate(e1, data).value, Float(NaN));
  }

  /** PropertyIsBetween runs the upper test only when the lower one is
      true: a failing lower test gives False even if the upper test would
      raise; otherwise the result is the conjunction. */
  lemma BetweenShortCircuits(e: Expr, lo: Expr, hi: Expr, data: Data)
    ensures EvalBinary(GreaterThanOrEqualTo, e, lo, data).Err? ==>
      EvalBetween(e, lo, hi, data) == EvalBinary(GreaterThanOrEqualTo, e, lo, data)
    ensures EvalBinary(GreaterThanOrEqualTo, e, lo, data) == Ok(false) ==>
      EvalBetween(e, lo, hi, data) == Ok(false)
    ensures EvalBinary(GreaterThanOrEqualTo, e, lo, data) == Ok(true) ==>
      EvalBetween(e, lo, hi, data) == EvalBinary(LessThanOrEqualTo, e, hi, data)
  {
  }

  /** PropertyIsNull is true exactly for None: 0, '', False and NaN are
      not null. */
  lemma IsNullOnlyForNone(p: Expr, data: Data)
    ensures Simulate(p, data).Ok? ==> EvalComparison(IsNull(p), data) == Ok(Simulate(p, data).value == Null)
    ensures Simulate(p, data).Err? ==> EvalComparison(IsNull(p), data) == Err(Simulate(p, data).error)
    ensures Simulate(p, data) in {Ok(Int(0)), Ok(Str("")), Ok(Bool(false)), Ok(Float(NaN))} ==>
      EvalComparison(IsNull(p), data) == Ok(false)
  {
  }

  // ================================================================ constructors

  /** What `PropertyIs*(expr0, expr1, matchCase)` produces. */
  function BinarySpec(op: CmpOp, expr0: Obj, expr1: Obj, matchCase: Obj): (r: Result<Comparison>)
    ensures r.Ok? ==> r.value.Binary? && r.value.op == op
    ensures Wrap(expr0).Err? || Wrap(expr1).Err? ==> r == Err(TypeError)
    ensures r.Ok? ==> Ok(r.value.e0) == Wrap(expr0) && Ok(r.value.e1) == Wrap(expr1)
  {
    if Wrap(expr0).Err? || Wrap(expr1).Err? then Err(TypeError)
    else if matchCase != Scalar(Null) && MatchCaseText(matchCase).None? then Err(ValueError)
    else Ok(Binary(op, Wrap(expr0).value, Wrap(expr1).value, matchCase == Scalar(Null) || SaysTrue(matchCase)))
  }

  /** The constructor: the expr0, expr1 and matchCase setters on a fresh element. */
  method NewBinary(op: CmpOp, expr0: Obj, expr1: Obj, matchCase: Obj) returns (el: Element, r: Result<Comparison>)
    ensures fresh(el)
    ensures r == BinarySpec(op, expr0, expr1, matchCase)
    ensures r.Ok? ==> el.Operand(0) == Ok(r.value.e0) && el.Operand(1) == Ok(r.value.e1) && el.MatchCase() == r.value.matchCase
  {
    el := new Element();
    var err := SetOperand(el, 0, expr0);
    if err.Some? {
      return el, Err(err.value);
    }
    err := SetOperand(el, 1, expr1);
    if err.Some? {
      return el, Err(err.value);
    }
    err := SetMatchCase(el, matchCase);
    if err.Some? {
      return el, Err(err.value);
    }
    r := Ok(Binary(op, el.Operand(0).value, el.Operand(1).value, el.MatchCase()));
  }

  /** The constructor of PropertyIsNull: the propertyName setter. */
  method NewNull(propertyname: Obj) returns (el: Element, r: Result<Comparison>)
    ensures fresh(el)
    ensures PropertyNameOf(propertyname).None? ==> r == Err(TypeError)
    ensures PropertyNameOf(propertyname).Some? ==> r == Ok(IsNull(PropertyNameOf(propertyname).value))
    ensures r.Ok? ==> el.PropertyNameChild() == Some(r.value.prop)
  {
    el := new Element();
    var err := SetPropertyName(el, propertyname);
    if err.Some? {
      return el, Err(err.value);
    }
    r := Ok(IsNull(el.PropertyNameChild().value));
  }

  /** What `_set_boundary(expr, klass)` stores as the boundary's expression:
      a boundary of the same class reaches the undefined name `obj`
      (NameError); anything else becomes `klass(expr)`, whose expr0 setter
      wraps it. */
  function BoundaryOf(obj: Obj, lower: bool): (r: Result<Expr>)
    ensures obj.Boundary? && obj.lower == lower ==> r == Err(NameError)
    ensures !(obj.Boundary? && obj.lower == lower) ==> r == Wrap(obj)
  {
    if obj.Boundary? && obj.lower == lower then Err(NameError) else Wrap(obj)
  }

  /** The lowerBoundary (lower) and upperBoundary setters. */
  method SetBoundary(el: Element, obj: Obj, lower: bool) returns (err: Option<Error>)
    modifies el
    ensures el.attrib == old(el.attrib)
    ensures BoundaryOf(obj, lower).Err? ==> err == Some(BoundaryOf(obj, lower).error) && el.children == old(el.children)
    ensures BoundaryOf(obj, lower).Ok? ==>
      err == None && el.children == OdPut(old(el.children), BoundaryKey(lower), BoundaryOf(obj, lower).value)
  {
    if obj.Boundary? && obj.lower == lower {
      return Some(NameError);
    }
    var w := Wrap(obj);
    if w.Err? {
      return Some(w.error);
    }
    el.children := OdPut(el.children, BoundaryKey(lower), w.value);
    err := None;
  }

  /** The children key of a boundary: its class's tagName. */
  function BoundaryKey(lower: bool): Key
  {
    Name(if lower then "LowerBoundary" else "UpperBoundary")
  }

  /** What `PropertyIsBetween(expr, lower, upper)` produces. */
  function BetweenSpec(expr: Obj, lower: Obj, upper: Obj): (r: Result<Comparison>)
    ensures r.Ok? <==> Wrap(expr).Ok? && BoundaryOf(lower, true).Ok? && BoundaryOf(upper, false).Ok?
    ensures r.Ok? ==> r.value == Between(Wrap(expr).value, BoundaryOf(lower, true).value, BoundaryOf(upper, false).value)
  {
    if Wrap(expr).Err? then Err(TypeError)
    else if BoundaryOf(lower, true).Err? then Err(BoundaryOf(lower, true).error)
    else if BoundaryOf(upper, false).Err? then Err(BoundaryOf(upper, false).error)
    else Ok(Between(Wrap(expr).value, BoundaryOf(lower, true).value, BoundaryOf(upper, false).value))
  }

  /** The constructor of PropertyIsBetween: expr0, then the lower and the
      upper boundary setters. */
  method NewBetween(expr: Obj, lower: Obj, upper: Obj) returns (el: Element, r: Result<Comparison>)
    ensures fresh(el)
    ensures r == BetweenSpec(expr, lower, upper)
  {
    el := new Element();
    var err := SetOperand(el, 0, expr);
    if err.Some? {
      return el, Err(err.value);
    }
    err := SetBoundary(el, lower, true);
    if err.Some? {
      return el, Err(err.value);
    }
    var e := el.Operand(0).value;
    assert e == Wrap(expr).value;
    err := SetBoundary(el, upper, false);
    if err.Some? {
      return el, Err(err.value);
    }
    r := Ok(Between(e, BoundaryOf(lower, true).value, BoundaryOf(upper, false).value));
  }

  /** Passing a LowerBoundary as the lower boundary raises NameError; the
      same object as the upper boundary is not an expression (TypeError). */
  lemma BoundaryObjectsRejected(e: Expr, x: Obj, y: Obj)
    requires Wrap(x).Ok?
    ensures BetweenSpec(x, Boundary(true, e), y) == Err(NameError)
    ensures BoundaryOf(y, true).Ok? ==> BetweenSpec(x, y, Boundary(true, e)) == Err(TypeError)
  {
  }
}
