/** The logical operators of an OGC filter: Not, And and Or, their
    evaluation, the `~`, `&` and `|` builders, and the condition dictionary
    (LogicDict) a combinator keeps its conditions in, with its type check
    and its key-compacting deletion. */
module LogicOps {
  import opened Wrappers
  import opened PyValues
  import opened OgcBase
  import opened ComparisonOps

  datatype Connective = And | Or

  /** A value held in a combinator's conditions: a filter, or an object
      that reached a plain dictionary without the type check (a reflected
      `&`/`|` prepends whatever stood on its left). */
  datatype Cond = Logic(f: Filter) | Stray(o: Obj)

  /** A filter tree. A combinator's conditions are held by value: a
      combinator that is mutated after being placed in another one is not
      tracked (see the README). */
  datatype Filter =
    | Cmp(c: Comparison)
    | Not(cond: Filter)
    | Logical(kind: Connective, conds: seq<Cond>)

  // ================================================================ simulate

  /** How the comparisons at the leaves of a filter evaluate on one record.
      The logical operators depend on nothing else about them. */
  type Leaf = Comparison -> Result<bool>

  /** The library's own leaves: the comparison operators' `simulate`. */
  function Comparisons(data: Data): Leaf
  {
    c => EvalComparison(c, data)
  }

  /** `simulate(data)` of a filter whose comparisons evaluate as `leaf`
      says; `Eval(f, data, Comparisons(data))` is the library's. */
  function Eval(f: Filter, data: Data, leaf: Leaf): Result<bool>
    decreases f
  {
    match f
    case Cmp(c) => leaf(c)
    case Not(g) =>
      var b :- Eval(g, data, leaf);
      Ok(!b)
    case Logical(k, cs) => EvalConds(k, cs, data, leaf)
  }

  /** `cond.simulate(data)` for one entry of the conditions: a filter gives
      a bool, an expression or a boundary its value, and an object without
      a `simulate` method raises AttributeError. */
  function EvalCond(c: Cond, data: Data, leaf: Leaf): Result<Value>
    decreases c
  {
    match c
    case Logic(f) =>
      var b :- Eval(f, data, leaf);
      Ok(Bool(b))
    case Stray(o) =>
      match o
      case Node(e) => Simulate(e, data)
      case Boundary(_, e) => Simulate(e, data)
      case _ => Err(AttributeError)
  }

  /** `all(c.simulate(data) is True for c in conds)` for And and
      `any(...)` for Or: conditions are evaluated in order until one
      decides the result; only the value True itself counts as true. */
  function EvalConds(k: Connective, cs: seq<Cond>, data: Data, leaf: Leaf): Result<bool>
    decreases cs
  {
    if cs == [] then Ok(k == And)
    else
      var v :- EvalCond(cs[0], data, leaf);
      if (v == Bool(true)) != (k == And) then Ok(k == Or)
      else EvalConds(k, cs[1..], data, leaf)
  }

  /** Evaluating a concatenation: the second part is evaluated only when
      the first part has not decided the result. */
  lemma {:induction false} EvalCondsSplit(k: Connective, a: seq<Cond>, b: seq<Cond>, data: Data, leaf: Leaf)
    ensures EvalConds(k, a + b, data, leaf) == if EvalConds(k, a, data, leaf) == Ok(k == And) then EvalConds(k, b, data, leaf) else EvalConds(k, a, data, leaf)
    decreases a
  {
    if a == [] {
      assert a + b == b;
    } else {
      assert (a + b)[0] == a[0];
      assert (a + b)[1..] == a[1..] + b;
      EvalCondsSplit(k, a[1..], b, data, leaf);
    }
  }

  /** And is true exactly when every condition returns True itself. */
  lemma {:induction false} AndMeansEveryExactlyTrue(cs: seq<Cond>, data: Data, leaf: Leaf)
    ensures EvalConds(And, cs, data, leaf) == Ok(true) <==> forall i :: 0 <= i < |cs| ==> EvalCond(cs[i], data, leaf) == Ok(Bool(true))
    decreases cs
  {
    if cs != [] {
      AndMeansEveryExactlyTrue(cs[1..], data, leaf);
      assert forall i :: 1 <= i < |cs| ==> cs[i] == cs[1..][i - 1];
    }
  }

  /** Condition i is the first to return True, and none before it raised. */
  predicate FirstTrueAt(cs: seq<Cond>, i: int, data: Data, leaf: Leaf)
  {
    0 <= i < |cs| && EvalCond(cs[i], data, leaf) == Ok(Bool(true))
    && forall j :: 0 <= j < i ==> EvalCond(cs[j], data, leaf).Ok? && EvalCond(cs[j], data, leaf).value != Bool(true)
  }

  lemma {:induction false} OrTrueHasFirst(cs: seq<Cond>, data: Data, leaf: Leaf)
    requires EvalConds(Or, cs, data, leaf) == Ok(true)
    ensures exists i :: FirstTrueAt(cs, i, data, leaf)
    decreases cs
  {
    if EvalCond(cs[0], data, leaf) == Ok(Bool(true)) {
      assert FirstTrueAt(cs, 0, data, leaf);
    } else {
      OrTrueHasFirst(cs[1..], data, leaf);
      var i :| FirstTrueAt(cs[1..], i, data, leaf);
      assert forall j :: 1 <= j <= i + 1 ==> cs[j] == cs[1..][j - 1];
      assert FirstTrueAt(cs, i + 1, data, leaf);
    }
  }

  lemma {:induction false} FirstTrueMakesOrTrue(cs: seq<Cond>, i: int, data: Data, leaf: Leaf)
    requires FirstTrueAt(cs, i, data, leaf)
    ensures EvalConds(Or, cs, data, leaf) == Ok(true)
    decreases cs
  {
    if i > 0 {
      assert forall j :: 0 <= j < i - 1 ==> cs[1..][j] == cs[j + 1];
      assert FirstTrueAt(cs[1..], i - 1, data, leaf);
      FirstTrueMakesOrTrue(cs[1..], i - 1, data, leaf);
    }
  }

  /** Or is true exactly when some condition returns True itself and every
      condition before it returns without raising. */
  lemma OrMeansSomeExactlyTrue(cs: seq<Cond>, data: Data, leaf: Leaf)
    ensures EvalConds(Or, cs, data, leaf) == Ok(true) <==> exists i :: FirstTrueAt(cs, i, data, leaf)
  {
    if EvalConds(Or, cs, data, leaf) == Ok(true) {
      OrTrueHasFirst(cs, data, leaf);
    }
    if exists i :: FirstTrueAt(cs, i, data, leaf) {
      var i :| FirstTrueAt(cs, i, data, leaf);
      FirstTrueMakesOrTrue(cs, i, data, leaf);
    }
  }

  /** A condition a reflected `&`/`|` prepended that has no `simulate`
      (a number, a string) makes evaluation raise AttributeError. */
  lemma PrependedScalarRaises(k: Connective, v: Value, cs: seq<Cond>, data: Data, leaf: Leaf)
    ensures EvalConds(k, [Stray(Scalar(v))] + cs, data, leaf) == Err(AttributeError)
  {
    assert ([Stray(Scalar(v))] + cs)[0] == Stray(Scalar(v));
  }

  // ================================================================ ~

  /** `Not(condition)`: the condition goes under key 0 of a LogicDict, so
      anything but a filter raises TypeError. */
  function NewNot(c: Cond): (r: Result<Filter>)
    ensures r.Ok? <==> c.Logic?
    ensures r.Ok? ==> r.value.Not? && r.value.cond == c.f
    ensures r.Err? ==> r.error == TypeError
  {
    if c.Stray? then Err(TypeError) else Ok(Not(c.f))
  }

  /** `~f`: `Not(f)`, except that inverting a Not gives back its condition. */
  function Invert(f: Filter): (r: Filter)
  {
    if f.Not? then f.cond else Not(f)
  }

  /** Inversion negates the result and passes errors through. */
  lemma InvertNegates(f: Filter, data: Data, leaf: Leaf)
    ensures Eval(f, data, leaf).Ok? ==> Eval(Invert(f), data, leaf) == Ok(!Eval(f, data, leaf).value)
    ensures Eval(f, data, leaf).Err? ==> Eval(Invert(f), data, leaf) == Eval(f, data, leaf)
  {
  }

  /** Inverting twice gives the same filter back, except that a double
      negation `Not(Not(g))` comes back as g; either way it evaluates the
      same. */
  lemma InvertTwice(f: Filter, data: Data, leaf: Leaf)
    ensures !(f.Not? && f.cond.Not?) ==> Invert(Invert(f)) == f
    ensures f.Not? && f.cond.Not? ==> Invert(Invert(f)) == f.cond.cond
    ensures Eval(Invert(Invert(f)), data, leaf) == Eval(f, data, leaf)
  {
    InvertNegates(f, data, leaf);
    InvertNegates(Invert(f), data, leaf);
  }

  // ================================================================ splicing

  /** A condition that is itself a combinator of kind k. */
  predicate SameKind(k: Connective, c: Cond)
  {
    c.Logic? && c.f.Logical? && c.f.kind == k
  }

  /** The conditions `self &= other` adds to a combinator of kind k: an
      argument of the same kind has its own conditions spliced in, one by
      one and recursively; anything else is appended as it is. */
  function Flatten(k: Connective, c: Cond): (r: seq<Cond>)
    ensures forall i :: 0 <= i < |r| ==> !SameKind(k, r[i])
    ensures !SameKind(k, c) ==> r == [c]
    decreases c, 1
  {
    if SameKind(k, c) then FlattenAll(k, c.f.conds) else [c]
  }

  /** Splicing leaves no combinator of kind k among the conditions. */
  function FlattenAll(k: Connective, cs: seq<Cond>): (r: seq<Cond>)
    ensures forall i :: 0 <= i < |r| ==> !SameKind(k, r[i])
    decreases cs, 0
  {
    if cs == [] then [] else Flatten(k, cs[0]) + FlattenAll(k, cs[1..])
  }

  lemma {:induction false} FlattenAllAppend(k: Connective, cs: seq<Cond>, c: Cond)
    ensures FlattenAll(k, cs + [c]) == FlattenAll(k, cs) + Flatten(k, c)
    decreases cs
  {
    if cs == [] {
      assert [] + [c] == [c];
      assert FlattenAll(k, [c]) == Flatten(k, c) + FlattenAll(k, []);
    } else {
      assert (cs + [c])[0] == cs[0];
      assert (cs + [c])[1..] == cs[1..] + [c];
      FlattenAllAppend(k, cs[1..], c);
    }
  }

  /** Splicing never changes what a condition contributes. */
  lemma {:induction false} FlattenSameEval(k: Connective, c: Cond, data: Data, leaf: Leaf)
    ensures EvalConds(k, Flatten(k, c), data, leaf) == EvalConds(k, [c], data, leaf)
    decreases c, 1
  {
    if c.Logic? && c.f.Logical? && c.f.kind == k {
      FlattenAllSameEval(k, c.f.conds, data, leaf);
      assert [c][0] == c && [c][1..] == [];
      assert EvalCond(c, data, leaf) == (var b :- EvalConds(k, c.f.conds, data, leaf); Ok(Bool(b)));
    }
  }

  lemma {:induction false} FlattenAllSameEval(k: Connective, cs: seq<Cond>, data: Data, leaf: Leaf)
    ensures EvalConds(k, FlattenAll(k, cs), data, leaf) == EvalConds(k, cs, data, leaf)
    decreases cs, 0
  {
    if cs != [] {
      FlattenSameEval(k, cs[0], data, leaf);
      FlattenAllSameEval(k, cs[1..], data, leaf);
      EvalCondsSplit(k, Flatten(k, cs[0]), FlattenAll(k, cs[1..]), data, leaf);
      assert cs == [cs[0]] + cs[1..];
      EvalCondsSplit(k, [cs[0]], cs[1..], data, leaf);
    }
  }

  /** Splicing an argument in evaluates like appending it whole. */
  lemma SpliceKeepsMeaning(k: Connective, cs: seq<Cond>, c: Cond, data: Data, leaf: Leaf)
    ensures EvalConds(k, cs + Flatten(k, c), data, leaf) == EvalConds(k, cs + [c], data, leaf)
  {
    EvalCondsSplit(k, cs, Flatten(k, c), data, leaf);
    EvalCondsSplit(k, cs, [c], data, leaf);
    FlattenSameEval(k, c, data, leaf);
  }

  // ================================================================ LogicDict

  /** Keys 0..n-1, in order: the keys every writer in the library produces. */
  predicate Dense(es: seq<(int, Cond)>)
  {
    forall i :: 0 <= i < |es| ==> es[i].0 == i
  }

  predicate AllLogic(es: seq<(int, Cond)>)
  {
    forall i :: 0 <= i < |es| ==> es[i].1.Logic?
  }

  /** Values keyed 0..n-1 in order. */
  function Numbered(vs: seq<Cond>): (r: seq<(int, Cond)>)
    ensures Dense(r) && OdValues(r) == vs
  {
    seq(|vs|, i requires 0 <= i < |vs| => (i, vs[i]))
  }

  lemma NumberedSnoc(vs: seq<Cond>, v: Cond)
    ensures Numbered(vs + [v]) == Numbered(vs) + [(|vs|, v)]
  {
  }

  /** Setting key n on values numbered 0..n-1 appends. */
  lemma {:induction false} NumberedPut(vs: seq<Cond>, v: Cond)
    ensures OdPut(Numbered(vs), |vs|, v) == Numbered(vs + [v])
  {
    var es := Numbered(vs);
    assert forall i :: 0 <= i < |es| ==> OdKeys(es)[i] == i;
    assert |vs| !in OdKeys(es);
    OdPutNew(es, |vs|, v);
    NumberedSnoc(vs, v);
  }

  /** The outcome of an operation on a dictionary: its entries afterwards,
      and the error it raised, if any. */
  datatype Outcome = Outcome(entries: seq<(int, Cond)>, err: Option<Error>)

  /** The for loop of `LogicDict.__delitem__` from position j of the key
      snapshot ks, with `newkey` = nk: every key other than the deleted one
      is moved down to `newkey` when it differs from it, through the
      type-checking setter, and the dictionary's last key is deleted at
      the end. Adding a key that was not there changes the dictionary's
      size, which the iteration reports as RuntimeError at its next step. */
  function DelLoop(s: seq<(int, Cond)>, ks: seq<int>, key: int, j: nat, nk: int): Outcome
    requires 0 < |ks| && j <= |ks|
    decreases |ks| - j
  {
    if j == |ks| then Outcome(OdDelete(s, ks[|ks| - 1]), None)
    else if ks[j] == key then DelLoop(s, ks, key, j + 1, nk)
    else if ks[j] == nk then DelLoop(s, ks, key, j + 1, nk + 1)
    else
      match OdGet(s, ks[j])
      case None => Outcome(s, Some(KeyError))
      case Some(v) =>
        if v.Stray? then Outcome(s, Some(TypeError))
        else if nk !in OdKeys(s) && j + 1 < |ks| then Outcome(OdPut(s, nk, v), Some(RuntimeError))
        else DelLoop(OdPut(s, nk, v), ks, key, j + 1, nk + 1)
  }

  /** `del d[key]`: KeyError for a missing key; a plain dictionary drops
      the pair; a LogicDict runs its compaction loop. */
  function DelSpec(es: seq<(int, Cond)>, typed: bool, key: int): Outcome
  {
    if key !in OdKeys(es) then Outcome(es, Some(KeyError))
    else if !typed then Outcome(OdDelete(es, key), None)
    else DelLoop(es, OdKeys(es), key, 0, 0)
  }

  /** `list.pop(p)` on the values, renumbered. */
  function Pop(es: seq<(int, Cond)>, p: nat): (r: seq<(int, Cond)>)
    requires p < |es|
    ensures Dense(r) && |r| == |es| - 1
    ensures OdValues(r) == OdValues(es)[..p] + OdValues(es)[p + 1..]
  {
    var r := seq(|es| - 1, i requires 0 <= i < |es| - 1 => (i, if i < p then es[i].1 else es[i + 1].1));
    assert OdValues(r) == OdValues(es)[..p] + OdValues(es)[p + 1..];
    r
  }

  /** A dictionary with keys 0..n-1 part way through the deletion of key
      p: before position j every value from p on has moved down one place. */
  function Shifted(es: seq<(int, Cond)>, p: nat, j: nat): (r: seq<(int, Cond)>)
    ensures |r| == |es| && Dense(r)
  {
    seq(|es|, i requires 0 <= i < |es| => (i, if p <= i && i + 1 < j && i + 1 < |es| then es[i + 1].1 else es[i].1))
  }

  lemma {:induction false} OdGetDense(s: seq<(int, Cond)>, k: int)
    requires Dense(s) && 0 <= k < |s|
    ensures OdGet(s, k) == Some(s[k].1)
  {
    assert forall j :: 0 <= j < k ==> s[j].0 != s[k].0;
    OdGetFirst(s, k);
  }

  lemma {:induction false} OdGetFirst(s: seq<(int, Cond)>, k: nat)
    requires k < |s| && forall j :: 0 <= j < k ==> s[j].0 != s[k].0
    ensures OdGet(s, s[k].0) == Some(s[k].1)
  {
    if k > 0 {
      OdGetFirst(s[1..], k - 1);
    }
  }

  lemma {:induction false} ShiftedGet(es: seq<(int, Cond)>, p: nat, j: nat)
    requires p < j < |es|
    ensures OdGet(Shifted(es, p, j), j) == Some(es[j].1)
  {
    OdGetDense(Shifted(es, p, j), j);
  }

  lemma {:induction false} ShiftedHasKey(es: seq<(int, Cond)>, p: nat, j: nat)
    requires 0 < j <= |es|
    ensures j - 1 in OdKeys(Shifted(es, p, j))
  {
    assert OdKeys(Shifted(es, p, j))[j - 1] == j - 1;
  }

  lemma {:induction false} ShiftedPut(es: seq<(int, Cond)>, p: nat, j: nat)
    requires p < j < |es|
    ensures OdPut(Shifted(es, p, j), j - 1, es[j].1) == Shifted(es, p, j + 1)
  {
    var s := Shifted(es, p, j);
    OdPutAt(s, j - 1, es[j].1);
    assert s[j - 1 := (j - 1, es[j].1)] == Shifted(es, p, j + 1);
  }

  /** The value of `newkey` when the loop reaches position j. */
  function NewKeyAt(p: nat, j: nat): int
  {
    if j > p then j - 1 else j
  }

  /** A position at or before the deleted key: nothing moves. */
  lemma {:induction false} DelLoopSkip(es: seq<(int, Cond)>, p: nat, j: nat)
    requires Dense(es) && j <= p < |es|
    ensures DelLoop(Shifted(es, p, j), OdKeys(es), p, j, NewKeyAt(p, j))
         == DelLoop(Shifted(es, p, j + 1), OdKeys(es), p, j + 1, NewKeyAt(p, j + 1))
  {
    assert OdKeys(es)[j] == j;
    assert Shifted(es, p, j) == Shifted(es, p, j + 1);
  }

  /** A position after the deleted key: its value moves down one key. */
  lemma {:induction false} DelLoopMove(es: seq<(int, Cond)>, p: nat, j: nat)
    requires Dense(es) && AllLogic(es) && p < j < |es|
    ensures DelLoop(Shifted(es, p, j), OdKeys(es), p, j, NewKeyAt(p, j))
         == DelLoop(Shifted(es, p, j + 1), OdKeys(es), p, j + 1, NewKeyAt(p, j + 1))
  {
    var ks := OdKeys(es);
    var s := Shifted(es, p, j);
    assert ks[j] == j && j != p && NewKeyAt(p, j) == j - 1 && NewKeyAt(p, j + 1) == j;
    ShiftedGet(es, p, j);
    ShiftedHasKey(es, p, j);
    DelLoopMoveOne(s, ks, p, j, j - 1, es[j].1);
    ShiftedPut(es, p, j);
  }

  /** One step of the loop that moves a filter to a key already present. */
  lemma DelLoopMoveOne(s: seq<(int, Cond)>, ks: seq<int>, key: int, j: nat, nk: int, v: Cond)
    requires j < |ks| && ks[j] != key && ks[j] != nk
    requires OdGet(s, ks[j]) == Some(v) && v.Logic? && nk in OdKeys(s)
    ensures DelLoop(s, ks, key, j, nk) == DelLoop(OdPut(s, nk, v), ks, key, j + 1, nk + 1)
  {
  }

  /** After the last position the last key is dropped. */
  lemma {:induction false} DelLoopEnd(es: seq<(int, Cond)>, p: nat, nk: int)
    requires Dense(es) && p < |es|
    ensures DelLoop(Shifted(es, p, |es|), OdKeys(es), p, |es|, nk) == Outcome(Pop(es, p), None)
  {
    var s := Shifted(es, p, |es|);
    assert OdKeys(es)[|es| - 1] == |es| - 1;
    OdDeleteAt(s, |s| - 1);
    assert s[..|s| - 1] == Pop(es, p);
  }

  lemma {:induction false} DelLoopDense(es: seq<(int, Cond)>, p: nat, j: nat)
    requires Dense(es) && AllLogic(es) && p < |es| && j <= |es|
    ensures DelLoop(Shifted(es, p, j), OdKeys(es), p, j, NewKeyAt(p, j)) == Outcome(Pop(es, p), None)
    decreases |es| - j
  {
    if j == |es| {
      DelLoopEnd(es, p, NewKeyAt(p, j));
    } else {
      DelLoopDense(es, p, j + 1);
      if j <= p {
        DelLoopSkip(es, p, j);
      } else {
        DelLoopMove(es, p, j);
      }
    }
  }

  /** Deleting key p from a LogicDict with keys 0..n-1 works like
      `list.pop(p)`: the keys are 0..n-2 and the remaining values keep
      their order. */
  lemma DeleteIsListPop(es: seq<(int, Cond)>, p: nat)
    requires Dense(es) && AllLogic(es) && p < |es|
    ensures DelSpec(es, true, p) == Outcome(Pop(es, p), None)
  {
    assert OdKeys(es)[p] == p;
    assert Shifted(es, p, 0) == es;
    DelLoopDense(es, p, 0);
  }

  /** On keys out of order the loop moves the wrong value: deleting key 1
      from {1: a, 0: b} leaves {1: a}. */
  lemma DeleteOutOfOrderKeys(a: Filter, b: Filter)
    ensures DelSpec([(1, Logic(a)), (0, Logic(b))], true, 1) == Outcome([(1, Logic(a))], None)
  {
    var s := [(1, Logic(a)), (0, Logic(b))];
    assert OdKeys(s) == [1, 0];
    assert DelLoop(s, [1, 0], 1, 0, 0) == DelLoop(s, [1, 0], 1, 1, 0) == DelLoop(s, [1, 0], 1, 2, 1);
    assert OdDelete(s, 0) == [(1, Logic(a))];
  }

  /** A key below the first one is added during the loop: deleting key 5
      from {5: a, 6: b, 7: c} raises RuntimeError, with b copied to key 0. */
  lemma DeleteSparseKeysRaises(a: Filter, b: Filter, c: Filter)
    ensures DelSpec([(5, Logic(a)), (6, Logic(b)), (7, Logic(c))], true, 5)
         == Outcome([(5, Logic(a)), (6, Logic(b)), (7, Logic(c)), (0, Logic(b))], Some(RuntimeError))
  {
    var s := [(5, Logic(a)), (6, Logic(b)), (7, Logic(c))];
    assert OdKeys(s) == [5, 6, 7];
    OdPutNew(s, 0, Logic(b));
    assert OdGet(s, 6) == Some(Logic(b));
    assert 0 !in OdKeys(s);
    assert DelLoop(s, [5, 6, 7], 5, 0, 0) == DelLoop(s, [5, 6, 7], 5, 1, 0);
    assert DelLoop(s, [5, 6, 7], 5, 1, 0) == Outcome(OdPut(s, 0, Logic(b)), Some(RuntimeError));
  }

  /** The dictionary a combinator keeps its conditions in: a LogicDict
      (typed) until a reflected `&`/`|` replaces it with a plain
      OrderedDict, which checks nothing and deletes without compacting. */
  class LogicDict {
    var entries: seq<(int, Cond)>
    var typed: bool

    /** An empty LogicDict. */
    constructor()
      ensures entries == [] && typed
    {
      entries := [];
      typed := true;
    }

    /** `OrderedDict(pairs)`. */
    constructor Plain(pairs: seq<(int, Cond)>)
      ensures entries == pairs && !typed
    {
      entries := pairs;
      typed := false;
    }

    /** A LogicDict holds filters only. */
    predicate Valid()
      reads this
    {
      typed ==> AllLogic(entries)
    }

    /** `d[key] = item`: a LogicDict refuses anything that is not a filter
      with TypeError. */
    method SetItem(key: int, item: Cond) returns (err: Option<Error>)
      requires Valid()
      modifies this
      ensures Valid() && typed == old(typed)
      ensures typed && item.Stray? ==> err == Some(TypeError) && entries == old(entries)
      ensures !(typed && item.Stray?) ==> err == None && entries == OdPut(old(entries), key, item)
    {
      if typed && item.Stray? {
        return Some(TypeError);
      }
      if typed {
        OdPutLogic(entries, key, item);
      }
      entries := OdPut(entries, key, item);
      err := None;
    }

    /** `del d[key]`. */
    method DelItem(key: int) returns (err: Option<Error>)
      requires Valid()
      modifies this
      ensures typed == old(typed)
      ensures Outcome(entries, err) == DelSpec(old(entries), old(typed), key)
    {
      if key !in OdKeys(entries) {
        return Some(KeyError);
      }
      if !typed {
        entries := OdDelete(entries, key);
        return None;
      }
      var ks := OdKeys(entries);
      var nk := 0;
      for j := 0 to |ks|
        invariant typed && Valid()
        invariant DelLoop(entries, ks, key, j, nk) == DelLoop(old(entries), ks, key, 0, 0)
      {
        if ks[j] == key {
          continue;
        }
        if ks[j] != nk {
          var v := OdGet(entries, ks[j]);
          if v.None? {
            return Some(KeyError);
          }
          var added := nk !in OdKeys(entries);
          err := SetItem(nk, v.value);
          if err.Some? {
            return err;
          }
          if added && j + 1 < |ks| {
            return Some(RuntimeError);
          }
        }
        nk := nk + 1;
      }
      entries := OdDelete(entries, ks[|ks| - 1]);
      err := None;
    }
  }

  lemma {:induction false} OdPutLogic(es: seq<(int, Cond)>, key: int, item: Cond)
    requires AllLogic(es) && item.Logic?
    ensures AllLogic(OdPut(es, key, item))
  {
    if es != [] && es[0].0 != key {
      OdPutLogic(es[1..], key, item);
    }
  }

  // ================================================================ And / Or

  /** The sequential `append_condition` calls of a splice: each item goes
      under key `len(conditions)`; a LogicDict stops at the first item
      that is not a filter, keeping what was added before it. */
  function AppendAll(es: seq<(int, Cond)>, typed: bool, items: seq<Cond>): Outcome
    decreases items
  {
    if items == [] then Outcome(es, None)
    else if typed && items[0].Stray? then Outcome(es, Some(TypeError))
    else AppendAll(OdPut(es, |es|, items[0]), typed, items[1..])
  }

  /** Appending more after an outcome, unless it was an error. */
  function Then(o: Outcome, typed: bool, items: seq<Cond>): Outcome
  {
    if o.err.Some? then o else AppendAll(o.entries, typed, items)
  }

  lemma {:induction false} AppendAllSplit(es: seq<(int, Cond)>, typed: bool, a: seq<Cond>, b: seq<Cond>)
    ensures AppendAll(es, typed, a + b) == Then(AppendAll(es, typed, a), typed, b)
    decreases a
  {
    if a == [] {
      assert a + b == b;
    } else {
      assert (a + b)[0] == a[0];
      assert (a + b)[1..] == a[1..] + b;
      if !(typed && a[0].Stray?) {
        AppendAllSplit(OdPut(es, |es|, a[0]), typed, a[1..], b);
      }
    }
  }

  /** On keys 0..n-1, appending puts the items after the existing values,
      numbered on. */
  lemma {:induction false} AppendAllDense(es: seq<(int, Cond)>, typed: bool, items: seq<Cond>)
    requires Dense(es)
    requires typed ==> forall i :: 0 <= i < |items| ==> items[i].Logic?
    ensures AppendAll(es, typed, items) == Outcome(Numbered(OdValues(es) + items), None)
    decreases items
  {
    if items == [] {
      assert es == Numbered(OdValues(es));
    } else {
      assert |es| !in OdKeys(es);
      OdPutNew(es, |es|, items[0]);
      var es' := es + [(|es|, items[0])];
      assert Dense(es');
      assert OdValues(es') + items[1..] == OdValues(es) + items;
      AppendAllDense(es', typed, items[1..]);
    }
  }

  /** A BinaryLogicOp: And or Or over its conditions. `children` and
      `conditions` are one dictionary. */
  class Combinator {
    const kind: Connective
    var conditions: LogicDict

    /** The filter this combinator currently denotes. */
    function Snapshot(): (r: Filter)
      reads this, conditions
      ensures r.Logical? && r.kind == kind
    {
      Logical(kind, OdValues(conditions.entries))
    }

    /** The state every operation keeps: keys 0..n-1, filters only while
      the dictionary is a LogicDict. */
    predicate Valid()
      reads this, conditions
    {
      Dense(conditions.entries) && conditions.Valid()
    }

    constructor Init(k: Connective)
      ensures kind == k && fresh(conditions)
      ensures conditions.entries == [] && conditions.typed && Valid()
    {
      kind := k;
      conditions := new LogicDict();
    }

    /** A combinator over an existing dictionary. */
    constructor Over(k: Connective, d: LogicDict)
      ensures kind == k && conditions == d
    {
      kind := k;
      conditions := d;
    }

    /** `append_condition(c)`: `conditions[len(conditions)] = c`. */
    method Append(c: Cond) returns (err: Option<Error>)
      requires Valid()
      modifies conditions
      ensures Valid() && conditions.typed == old(conditions.typed)
      ensures Outcome(conditions.entries, err) == AppendAll(old(conditions.entries), conditions.typed, [c])
    {
      err := conditions.SetItem(|conditions.entries|, c);
      if err.None? {
        OdPutNew(old(conditions.entries), |old(conditions.entries)|, c);
      }
      assert [c][1..] == [];
    }

    /** `prepend_condition(c)`: a new plain OrderedDict with c under 0 and
      the old values under 1, 2, ... in order. */
    method Prepend(c: Cond)
      requires Valid()
      modifies this
      ensures fresh(conditions) && !conditions.typed && Valid()
      ensures conditions.entries == Numbered([c] + OdValues(old(conditions.entries)))
    {
      var values := OdValues(conditions.entries);
      var newList := [(0, c)];
      for i := 0 to |values|
        invariant newList == Numbered([c] + values[..i])
      {
        assert [c] + values[..i + 1] == ([c] + values[..i]) + [values[i]];
        NumberedSnoc([c] + values[..i], values[i]);
        newList := newList + [(i + 1, values[i])];
      }
      assert values[..|values|] == values;
      conditions := new LogicDict.Plain(newList);
    }

    /** `self & other` on an And (`self | other` on an Or), which mutates
      self and returns it: an argument of the same kind is spliced in
      condition by condition, recursively; anything else is appended. */
    method Combine(other: Cond) returns (err: Option<Error>)
      requires Valid()
      modifies conditions
      ensures Valid() && conditions.typed == old(conditions.typed)
      ensures Outcome(conditions.entries, err) == AppendAll(old(conditions.entries), conditions.typed, Flatten(kind, other))
      decreases other
    {
      if other.Logic? && other.f.Logical? && other.f.kind == kind {
        var cs := other.f.conds;
        for i := 0 to |cs|
          invariant Valid() && conditions.typed == old(conditions.typed)
          invariant Outcome(conditions.entries, None) == AppendAll(old(conditions.entries), conditions.typed, FlattenAll(kind, cs[..i]))
        {
          SpliceStep(old(conditions.entries), conditions.typed, kind, cs, i);
          err := Combine(cs[i]);
          if err.Some? {
            SpliceStops(old(conditions.entries), conditions.typed, kind, cs, i);
            return err;
          }
        }
        assert cs[..|cs|] == cs;
        err := None;
      } else {
        err := Append(other);
      }
    }
  }

  /** One more condition of a spliced argument. */
  lemma SpliceStep(es: seq<(int, Cond)>, typed: bool, k: Connective, cs: seq<Cond>, i: nat)
    requires i < |cs|
    ensures AppendAll(es, typed, FlattenAll(k, cs[..i + 1])) == Then(AppendAll(es, typed, FlattenAll(k, cs[..i])), typed, Flatten(k, cs[i]))
  {
    assert cs[..i + 1] == cs[..i] + [cs[i]];
    FlattenAllAppend(k, cs[..i], cs[i]);
    AppendAllSplit(es, typed, FlattenAll(k, cs[..i]), Flatten(k, cs[i]));
  }

  /** An error part way through a splice ends it. */
  lemma SpliceStops(es: seq<(int, Cond)>, typed: bool, k: Connective, cs: seq<Cond>, i: nat)
    requires i < |cs| && AppendAll(es, typed, FlattenAll(k, cs[..i + 1])).err.Some?
    ensures AppendAll(es, typed, FlattenAll(k, cs)) == AppendAll(es, typed, FlattenAll(k, cs[..i + 1]))
  {
    FlattenAllPrefix(k, cs, i + 1);
    AppendAllSplit(es, typed, FlattenAll(k, cs[..i + 1]), FlattenAll(k, cs[i + 1..]));
  }

  lemma FlattenAllPrefix(k: Connective, cs: seq<Cond>, i: nat)
    requires i <= |cs|
    ensures FlattenAll(k, cs) == FlattenAll(k, cs[..i]) + FlattenAll(k, cs[i..])
  {
    FlattenAllConcat(k, cs[..i], cs[i..]);
    assert cs[..i] + cs[i..] == cs;
  }

  lemma {:induction false} FlattenAllConcat(k: Connective, a: seq<Cond>, b: seq<Cond>)
    ensures FlattenAll(k, a + b) == FlattenAll(k, a) + FlattenAll(k, b)
    decreases a
  {
    if a == [] {
      assert a + b == b;
    } else {
      assert (a + b)[0] == a[0];
      assert (a + b)[1..] == a[1..] + b;
      FlattenAllConcat(k, a[1..], b);
    }
  }

  /** `And(c0, c1, *extra)` / `Or(...)`: the conditions go under keys
      0, 1, 2, ... in argument order; a condition that is not a filter
      raises TypeError. */
  method NewCombinator(k: Connective, conds: seq<Cond>) returns (op: Combinator, err: Option<Error>)
    requires |conds| >= 2
    ensures fresh(op) && fresh(op.conditions) && op.kind == k
    ensures err.None? <==> forall i :: 0 <= i < |conds| ==> conds[i].Logic?
    ensures err.Some? ==> err == Some(TypeError)
    ensures err.None? ==> op.Valid() && op.conditions.typed && op.Snapshot() == Logical(k, conds)
  {
    var d := new LogicDict();
    for i := 0 to |conds|
      invariant fresh(d) && d.typed && d.Valid()
      invariant forall j :: 0 <= j < i ==> conds[j].Logic?
      invariant d.entries == Numbered(conds[..i])
    {
      NumberedPut(conds[..i], conds[i]);
      err := d.SetItem(i, conds[i]);
      if err.Some? {
        op := new Combinator.Over(k, d);
        return;
      }
      assert conds[..i + 1] == conds[..i] + [conds[i]];
    }
    assert conds[..|conds|] == conds;
    op := new Combinator.Over(k, d);
    err := None;
  }

  /** A successful `self &= other` (`self |= other`) evaluates like the old
      conditions followed by `other` as a whole. */
  lemma CombineKeepsMeaning(k: Connective, es: seq<(int, Cond)>, typed: bool, other: Cond, data: Data, leaf: Leaf)
    requires Dense(es)
    requires AppendAll(es, typed, Flatten(k, other)).err.None?
    ensures EvalConds(k, OdValues(AppendAll(es, typed, Flatten(k, other)).entries), data, leaf)
         == EvalConds(k, OdValues(es) + [other], data, leaf)
  {
    var items := Flatten(k, other);
    if typed {
      AppendAllStopsAtStray(es, items);
    }
    AppendAllDense(es, typed, items);
    SpliceKeepsMeaning(k, OdValues(es), other, data, leaf);
  }

  lemma {:induction false} AppendAllStopsAtStray(es: seq<(int, Cond)>, items: seq<Cond>)
    requires AppendAll(es, true, items).err.None?
    ensures forall i :: 0 <= i < |items| ==> items[i].Logic?
    decreases items
  {
    if items != [] {
      AppendAllStopsAtStray(OdPut(es, |es|, items[0]), items[1..]);
      assert forall i :: 1 <= i < |items| ==> items[i] == items[1..][i - 1];
    }
  }
}
