/** The setter and validation mixins shared by the OGC operator classes.
    They read and write an element's `children` (an OrderedDict keyed by 0,
    1 or a name) and its XML `attrib` dict. */
module Mixins {
  import opened Wrappers
  import opened PyValues
  import opened Utils
  import opened BinaryOps
  import opened OgcBase

  /** A children key: an operand index or a name such as 'propertyName'. */
  datatype Key = Index(i: int) | Name(n: string)

  /** The part of an element's state the mixins use. */
  class Element {
    var children: seq<(Key, Expr)>
    var attrib: map<string, string>

    constructor()
      ensures children == [] && attrib == map[]
    {
      children := [];
      attrib := map[];
    }

    /** `self.expr0` / `self.expr1`: `self.children[i]`, KeyError when unset. */
    function Operand(i: int): (r: Result<Expr>)
      reads this
      ensures r.Err? <==> Index(i) !in OdKeys(children)
      ensures r.Err? ==> r.error == KeyError
    {
      match OdGet(children, Index(i))
      case None => Err(KeyError)
      case Some(e) => Ok(e)
    }

    /** `self.children.get('propertyName', None)`. */
    function PropertyNameChild(): (r: Option<Expr>)
      reads this
    {
      OdGet(children, Name("propertyName"))
    }

    /** The matchCase getter: False only for the exact attribute text
        'false'; an absent attribute reads as 'true'. */
    function MatchCase(): (r: bool)
      reads this
      ensures !r <==> "matchCase" in attrib && attrib["matchCase"] == "false"
    {
      var text := if "matchCase" in attrib then attrib["matchCase"] else "true";
      text != "false"
    }
  }

  /** The expr0 (i = 0) and expr1 (i = 1) setters: the wrapped value goes
      under children key i; a value `wrap` refuses raises TypeError and
      changes nothing. */
  method SetOperand(el: Element, i: int, obj: Obj) returns (err: Option<Error>)
    requires i == 0 || i == 1
    modifies el
    ensures el.attrib == old(el.attrib)
    ensures Wrap(obj).Err? ==> err == Some(TypeError) && el.children == old(el.children)
    ensures Wrap(obj).Ok? ==> err == None && el.children == OdPut(old(el.children), Index(i), Wrap(obj).value)
    ensures err == None ==> el.Operand(i) == Wrap(obj)
    ensures forall j :: j != i ==> el.Operand(j) == old(el.Operand(j))
  {
    var w := Wrap(obj);
    if w.Err? {
      return Some(TypeError);
    }
    forall j | true
      ensures OdGet(OdPut(el.children, Index(i), w.value), Index(j))
           == if j == i then Some(w.value) else OdGet(el.children, Index(j))
    {
      OdPutGet(el.children, Index(i), w.value, Index(j));
    }
    el.children := OdPut(el.children, Index(i), w.value);
    err := None;
  }

  /** What the propertyName setter stores: a str becomes a PropertyName, a
      PropertyName is kept, anything else is refused. */
  function PropertyNameOf(obj: Obj): (r: Option<Expr>)
    ensures r.Some? <==> (obj.Scalar? && obj.v.Str?) || (obj.Node? && obj.e.PropertyName?)
    ensures r.Some? ==> r.value.PropertyName?
  {
    if obj.Scalar? && obj.v.Str? then Some(PropertyName(obj.v.s))
    else if obj.Node? && obj.e.PropertyName? then Some(obj.e)
    else None
  }

  /** The propertyName setter. */
  method SetPropertyName(el: Element, obj: Obj) returns (err: Option<Error>)
    modifies el
    ensures el.attrib == old(el.attrib)
    ensures PropertyNameOf(obj).None? ==> err == Some(TypeError) && el.children == old(el.children)
    ensures PropertyNameOf(obj).Some? ==>
      err == None && el.children == OdPut(old(el.children), Name("propertyName"), PropertyNameOf(obj).value)
    ensures err == None ==> el.PropertyNameChild() == PropertyNameOf(obj)
  {
    var p := PropertyNameOf(obj);
    if p.None? {
      return Some(TypeError);
    }
    OdPutGet(el.children, Name("propertyName"), p.value, Name("propertyName"));
    el.children := OdPut(el.children, Name("propertyName"), p.value);
    err := None;
  }

  /** An arithmetic node built on a property name (`op.propertyName /= 1`)
      is not accepted back by the setter. */
  lemma ArithmeticIsNoPropertyName(op: ArithOp, e: Expr, other: Obj)
    requires Forward(op, e, other).Ok?
    ensures PropertyNameOf(Node(Forward(op, e, other).value)).None?
  {
  }

  /** `str(value).lower() in ['true', '1']` for the values a caller can pass. */
  predicate SaysTrue(obj: Obj)
  {
    match obj
    case Scalar(Bool(b)) => b
    case Scalar(Int(i)) => i == 1
    case Scalar(Str(s)) => AsciiLower(s) == "true" || s == "1"
    case _ => false
  }

  /** `str(value).lower() in ['false', '0']`. */
  predicate SaysFalse(obj: Obj)
  {
    match obj
    case Scalar(Bool(b)) => !b
    case Scalar(Int(i)) => i == 0
    case Scalar(Str(s)) => AsciiLower(s) == "false" || s == "0"
    case _ => false
  }

  /** The attribute text the matchCase setter stores for a non-None value,
      or None when it raises ValueError. */
  function MatchCaseText(obj: Obj): (r: Option<string>)
    ensures r == Some("true") <==> SaysTrue(obj)
    ensures r == Some("false") <==> SaysFalse(obj)
    ensures r.None? <==> !SaysTrue(obj) && !SaysFalse(obj)
  {
    var fromBool := if obj.Scalar? && obj.v.Bool? then Some(Stringify(obj.v)) else None;
    var afterTrue := if SaysTrue(obj) then Some("true") else fromBool;
    if SaysFalse(obj) then Some("false") else afterTrue
  }

  /** The matchCase setter: None removes the attribute; True/False, 1/0 and
      'true'/'false'/'1'/'0' in any case store 'true' or 'false'; anything
      else raises ValueError and changes nothing. */
  method SetMatchCase(el: Element, obj: Obj) returns (err: Option<Error>)
    modifies el
    ensures el.children == old(el.children)
    ensures obj == Scalar(Null) ==> err == None && el.attrib == old(el.attrib) - {"matchCase"}
    ensures obj != Scalar(Null) && MatchCaseText(obj).None? ==> err == Some(ValueError) && el.attrib == old(el.attrib)
    ensures obj != Scalar(Null) && MatchCaseText(obj).Some? ==>
      err == None && el.attrib == old(el.attrib)["matchCase" := MatchCaseText(obj).value]
    ensures err == None ==> el.MatchCase() == (obj == Scalar(Null) || SaysTrue(obj))
  {
    if obj == Scalar(Null) {
      if "matchCase" in el.attrib {
        el.attrib := el.attrib - {"matchCase"};
      }
      return None;
    }
    var wrapped := MatchCaseText(obj);
    if wrapped.None? {
      return Some(ValueError);
    }
    el.attrib := el.attrib["matchCase" := wrapped.value];
    err := None;
  }

  /** `+=`, `-=`, `*=`, `/=` on an element with one expression (a
      Between boundary): expr0 becomes `expr0 op other` and that new node,
      not the element, is returned. */
  method InPlace(el: Element, op: ArithOp, other: Obj) returns (r: Result<Expr>)
    modifies el
    ensures el.attrib == old(el.attrib)
    ensures old(el.Operand(0)).Err? ==> r == Err(KeyError) && el.children == old(el.children)
    ensures old(el.Operand(0)).Ok? ==> r == Forward(op, old(el.Operand(0)).value, other)
    ensures r.Err? ==> el.children == old(el.children)
    ensures r.Ok? ==> el.children == OdPut(old(el.children), Index(0), r.value) && el.Operand(0) == r
  {
    var e0 := el.Operand(0);
    if e0.Err? {
      return Err(KeyError);
    }
    var node := Forward(op, e0.value, other);
    if node.Err? {
      return node;
    }
    var err := SetOperand(el, 0, Node(node.value));
    r := node;
  }
}
