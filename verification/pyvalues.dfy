/** The Python runtime values that flow through filter evaluation, and the
    pieces of Python's own semantics the filter code relies on: `type()`,
    truthiness, `str.strip`, `str.lower` on ASCII letters, string and date
    ordering, and decimal rendering of integers. */
module PyValues {
  import opened Wrappers

  /** A Python float. Finite values are exact reals: IEEE rounding, overflow
      and the sign of zero are not modelled. */
  datatype Double = Finite(r: real) | NaN | PosInf | NegInf

  /** datetime.date */
  datatype CalDate = CalDate(year: int, month: int, day: int)

  /** datetime.datetime; `offset` is the UTC offset in minutes of an aware
      value and None for a naive one. */
  datatype DateTime = DateTime(date: CalDate, hour: int, minute: int, second: int, micro: int, offset: Option<int>)

  /** The range datetime.date accepts. */
  predicate ValidDate(d: CalDate)
  {
    1 <= d.year <= 9999 && 1 <= d.month <= 12 && 1 <= d.day <= DaysInMonth(d.year, d.month)
  }

  /** The ranges datetime.datetime and datetime.timezone accept (an offset
      strictly within one day). */
  predicate ValidDateTime(t: DateTime)
  {
    ValidDate(t.date) && 0 <= t.hour < 24 && 0 <= t.minute < 60 && 0 <= t.second < 60
    && 0 <= t.micro < 1000000 && (t.offset.Some? ==> -1440 < t.offset.value < 1440)
  }

  /** A date object that Python could have built. */
  type Day = d: CalDate | ValidDate(d) witness CalDate(1, 1, 1)

  /** A datetime object that Python could have built. */
  type Moment = t: DateTime | ValidDateTime(t) witness DateTime(CalDate(1, 1, 1), 0, 0, 0, 0, None)

  /** The closed set of scalar values a record field or an evaluation step holds. */
  datatype Value =
    | Null
    | Bool(b: bool)
    | Int(i: int)
    | Float(d: Double)
    | Str(s: string)
    | Date(date: Day)
    | DateTimeV(dt: Moment)

  /** Python's `type(x)`, one tag per constructor of Value. */
  datatype Kind = NoneKind | BoolKind | IntKind | FloatKind | StrKind | DateKind | DateTimeKind

  function KindOf(v: Value): Kind
  {
    match v
    case Null => NoneKind
    case Bool(_) => BoolKind
    case Int(_) => IntKind
    case Float(_) => FloatKind
    case Str(_) => StrKind
    case Date(_) => DateKind
    case DateTimeV(_) => DateTimeKind
  }

  /** The `data` argument of simulate: a dict from field names to values, or
      any other object. */
  datatype Data = Record(fields: map<string, Value>) | NotADict

  /** Python truthiness (`bool(x)`). NaN is truthy; dates always are. */
  predicate Truthy(v: Value)
  {
    match v
    case Null => false
    case Bool(b) => b
    case Int(i) => i != 0
    case Float(d) => !(d.Finite? && d.r == 0.0)
    case Str(s) => s != ""
    case Date(_) => true
    case DateTimeV(_) => true
  }

  // ---------------------------------------------------------------- characters

  predicate IsDigit(c: char) { '0' <= c <= '9' }

  function DigitValue(c: char): (d: nat)
    requires IsDigit(c)
    ensures d < 10
  {
    (c as int) - ('0' as int)
  }

  function DigitChar(d: nat): (c: char)
    requires d < 10
    ensures IsDigit(c) && DigitValue(c) == d
  {
    (('0' as int) + d) as char
  }

  predicate AllDigits(s: string) { forall i :: 0 <= i < |s| ==> IsDigit(s[i]) }

  /** The value of a string of decimal digits. */
  function DigitsValue(s: string): (n: nat)
    requires AllDigits(s)
  {
    if s == [] then 0 else 10 * DigitsValue(s[..|s| - 1]) + DigitValue(s[|s| - 1])
  }

  predicate IsAsciiUpper(c: char) { 'A' <= c <= 'Z' }

  function LowerChar(c: char): char
  {
    if IsAsciiUpper(c) then ((c as int) + 32) as char else c
  }

  /** `str.lower()` restricted to ASCII letters; the model compares the lowered
      text only with ASCII words, and no other character lowers to an ASCII
      letter of those words. */
  function AsciiLower(s: string): (r: string)
    ensures |r| == |s|
    ensures forall i :: 0 <= i < |s| ==> r[i] == LowerChar(s[i])
  {
    seq(|s|, i requires 0 <= i < |s| => LowerChar(s[i]))
  }

  /** `str.isspace()` for one character. */
  predicate IsSpace(c: char)
  {
    ('\t' <= c <= '\r') || ('\U{001C}' <= c <= ' ') || c == '\U{0085}' || c == '\U{00A0}'
    || c == '\U{1680}' || ('\U{2000}' <= c <= '\U{200A}') || c == '\U{2028}' || c == '\U{2029}'
    || c == '\U{202F}' || c == '\U{205F}' || c == '\U{3000}'
  }

  predicate AllSpace(s: string) { forall i :: 0 <= i < |s| ==> IsSpace(s[i]) }

  function StripLeft(s: string): (r: string)
    ensures |r| <= |s|
    ensures r == s[|s| - |r|..]
  {
    if s != [] && IsSpace(s[0]) then StripLeft(s[1..]) else s
  }

  function StripRight(s: string): (r: string)
    ensures |r| <= |s|
    ensures r == s[..|r|]
  {
    if s != [] && IsSpace(s[|s| - 1]) then StripRight(s[..|s| - 1]) else s
  }

  /** `str.strip()` with no argument. */
  function Strip(s: string): string
  {
    StripRight(StripLeft(s))
  }

  lemma {:induction false} StripLeftPadding(u: string, s: string)
    requires AllSpace(u)
    ensures StripLeft(u + s) == StripLeft(s)
  {
    if u == [] {
      assert u + s == s;
    } else {
      assert (u + s)[0] == u[0];
      assert (u + s)[1..] == u[1..] + s;
      StripLeftPadding(u[1..], s);
    }
  }

  lemma {:induction false} StripRightPadding(s: string, w: string)
    requires AllSpace(w)
    ensures StripRight(s + w) == StripRight(s)
  {
    if w == [] {
      assert s + w == s;
    } else {
      assert (s + w)[|s + w| - 1] == w[|w| - 1];
      assert (s + w)[..|s + w| - 1] == s + w[..|w| - 1];
      StripRightPadding(s, w[..|w| - 1]);
    }
  }

  lemma {:induction false} StripLeftNoSpaceEnd(s: string, w: string)
    requires AllSpace(w)
    ensures StripLeft(s + w) == StripLeft(s) + w || (AllSpace(s) && StripLeft(s + w) == [])
  {
    if s != [] && IsSpace(s[0]) {
      assert (s + w)[1..] == s[1..] + w;
      StripLeftNoSpaceEnd(s[1..], w);
    } else if s == [] {
      assert s + w == w;
      AllSpaceStripsEmpty(w);
    }
  }

  lemma {:induction false} AllSpaceStripsEmpty(w: string)
    requires AllSpace(w)
    ensures StripLeft(w) == []
  {
    if w != [] {
      AllSpaceStripsEmpty(w[1..]);
    }
  }

  lemma StripTrailingPadding(s: string, w: string)
    requires AllSpace(w)
    ensures Strip(s + w) == Strip(s)
  {
    StripLeftNoSpaceEnd(s, w);
    if StripLeft(s + w) == StripLeft(s) + w {
      StripRightPadding(StripLeft(s), w);
    } else {
      AllSpaceStripsEmpty(s);
    }
  }

  /** Whitespace around a text never changes what `strip()` returns. */
  lemma StripPadding(u: string, s: string, w: string)
    requires AllSpace(u) && AllSpace(w)
    ensures Strip(u + s + w) == Strip(s)
  {
    assert u + s + w == u + (s + w);
    StripLeftPadding(u, s + w);
    StripTrailingPadding(s, w);
  }

  // ---------------------------------------------------------------- decimal text

  function NatText(n: nat): (r: string)
    ensures |r| >= 1 && AllDigits(r)
    decreases n
  {
    if n < 10 then [DigitChar(n)] else NatText(n / 10) + [DigitChar(n % 10)]
  }

  /** `str(i)` for a Python int. */
  function IntText(i: int): string
  {
    if i < 0 then "-" + NatText(-i) else NatText(i)
  }

  /** Left-pads the decimal text of n with zeros to at least `width` digits. */
  function ZeroPad(n: nat, width: nat): (r: string)
    ensures |r| >= width && AllDigits(r)
  {
    var t := NatText(n);
    if |t| >= width then t else Zeros(width - |t|) + t
  }

  function Zeros(k: nat): (r: string)
    ensures |r| == k && AllDigits(r)
  {
    if k == 0 then "" else "0" + Zeros(k - 1)
  }

  lemma {:induction false} NatTextValue(n: nat)
    ensures DigitsValue(NatText(n)) == n
    decreases n
  {
    if n >= 10 {
      var t := NatText(n);
      assert t[..|t| - 1] == NatText(n / 10);
      NatTextValue(n / 10);
    }
  }

  // ---------------------------------------------------------------- ordering

  /** Python's ordering of two str values: code point by code point, a proper
      prefix first. Returns -1, 0 or 1. */
  function StrCmp(a: string, b: string): (r: int)
    ensures r == 0 <==> a == b
    ensures -1 <= r <= 1
  {
    if a == [] && b == [] then 0
    else if a == [] then -1
    else if b == [] then 1
    else if a[0] < b[0] then -1
    else if a[0] > b[0] then 1
    else StrCmp(a[1..], b[1..])
  }

  lemma {:induction false} StrCmpAntisymmetric(a: string, b: string)
    ensures StrCmp(a, b) == -StrCmp(b, a)
  {
    if a != [] && b != [] && a[0] == b[0] {
      StrCmpAntisymmetric(a[1..], b[1..]);
    }
  }

  lemma {:induction false} StrCmpTransitive(a: string, b: string, c: string)
    requires StrCmp(a, b) < 0 && StrCmp(b, c) < 0
    ensures StrCmp(a, c) < 0
  {
    if a != [] && b != [] && c != [] && a[0] == b[0] && b[0] == c[0] {
      StrCmpTransitive(a[1..], b[1..], c[1..]);
    }
  }

  /** Three-way comparison of two integers. */
  function IntCmp(x: int, y: int): (r: int)
    ensures r == 0 <==> x == y
    ensures r == 1 <==> x > y
    ensures r == -1 <==> x < y
  {
    if x == y then 0 else if x > y then 1 else -1
  }

  /** Lexicographic three-way comparison of two tuples of equal length. */
  function LexCmp(xs: seq<int>, ys: seq<int>): (r: int)
    requires |xs| == |ys|
    ensures -1 <= r <= 1
    ensures r == 0 <==> xs == ys
  {
    if xs == [] then 0
    else if xs[0] != ys[0] then IntCmp(xs[0], ys[0])
    else LexCmp(xs[1..], ys[1..])
  }

  lemma {:induction false} LexCmpAntisymmetric(xs: seq<int>, ys: seq<int>)
    requires |xs| == |ys|
    ensures LexCmp(xs, ys) == -LexCmp(ys, xs)
  {
    if xs != [] && xs[0] == ys[0] {
      LexCmpAntisymmetric(xs[1..], ys[1..]);
    }
  }

  // ---------------------------------------------------------------- OrderedDict

  /** The keys of an ordered dict held as its (key, value) pairs in insertion order. */
  function OdKeys<K, V>(od: seq<(K, V)>): (r: seq<K>)
    ensures |r| == |od|
    ensures forall i :: 0 <= i < |od| ==> r[i] == od[i].0
  {
    if od == [] then [] else [od[0].0] + OdKeys(od[1..])
  }

  function OdValues<K, V>(od: seq<(K, V)>): (r: seq<V>)
    ensures |r| == |od|
    ensures forall i :: 0 <= i < |od| ==> r[i] == od[i].1
  {
    if od == [] then [] else [od[0].1] + OdValues(od[1..])
  }

  /** `d.get(k)`. */
  function OdGet<K(==), V>(od: seq<(K, V)>, k: K): (r: Option<V>)
    ensures r.None? <==> k !in OdKeys(od)
  {
    if od == [] then None
    else if od[0].0 == k then Some(od[0].1)
    else OdGet(od[1..], k)
  }

  /** `d[k] = v`: an existing key keeps its position and takes the new
      value; a new key goes last. */
  function OdPut<K(==), V>(od: seq<(K, V)>, k: K, v: V): (r: seq<(K, V)>)
  {
    if od == [] then [(k, v)]
    else if od[0].0 == k then [(k, v)] + od[1..]
    else [od[0]] + OdPut(od[1..], k, v)
  }

  /** `d[k] = v` keeps the key order: an existing key stays where it is, a
      new one goes last. */
  lemma {:induction false} OdPutKeys<K, V>(od: seq<(K, V)>, k: K, v: V)
    ensures OdKeys(OdPut(od, k, v)) == if k in OdKeys(od) then OdKeys(od) else OdKeys(od) + [k]
  {
    if od != [] && od[0].0 != k {
      OdPutKeys(od[1..], k, v);
      assert OdKeys(od) == [od[0].0] + OdKeys(od[1..]);
      assert OdKeys([od[0]] + OdPut(od[1..], k, v)) == [od[0].0] + OdKeys(OdPut(od[1..], k, v));
    }
  }

  /** After `d[k] = v`, `d[k]` is v and every other key reads as before. */
  lemma {:induction false} OdPutGet<K, V>(od: seq<(K, V)>, k: K, v: V, k': K)
    ensures OdGet(OdPut(od, k, v), k) == Some(v)
    ensures k' != k ==> OdGet(OdPut(od, k, v), k') == OdGet(od, k')
  {
    if od != [] && od[0].0 != k {
      OdPutGet(od[1..], k, v, k');
    }
  }

  /** Assigning a new key appends the pair. */
  lemma {:induction false} OdPutNew<K, V>(od: seq<(K, V)>, k: K, v: V)
    requires k !in OdKeys(od)
    ensures OdPut(od, k, v) == od + [(k, v)]
  {
    if od != [] {
      assert od[0].0 == OdKeys(od)[0];
      assert forall i :: 0 <= i < |od| - 1 ==> OdKeys(od[1..])[i] == OdKeys(od)[i + 1];
      OdPutNew(od[1..], k, v);
      assert od == [od[0]] + od[1..];
    }
  }

  /** Assigning the key at position i (its first occurrence) replaces that value in place. */
  lemma {:induction false} OdPutAt<K, V>(od: seq<(K, V)>, i: nat, v: V)
    requires i < |od|
    requires forall j :: 0 <= j < i ==> od[j].0 != od[i].0
    ensures OdPut(od, od[i].0, v) == od[i := (od[i].0, v)]
  {
    if i > 0 {
      OdPutAt(od[1..], i - 1, v);
    }
  }

  /** `del d[k]` on a plain dict: the first pair with key k goes, the rest
      keep their order (OdDeleteAt). */
  function OdDelete<K(==), V>(od: seq<(K, V)>, k: K): seq<(K, V)>
  {
    if od == [] then []
    else if od[0].0 == k then od[1..]
    else [od[0]] + OdDelete(od[1..], k)
  }

  /** Deleting the key at position i (its first occurrence) removes that
      pair only. */
  lemma {:induction false} OdDeleteAt<K, V>(od: seq<(K, V)>, i: nat)
    requires i < |od|
    requires forall j :: 0 <= j < i ==> od[j].0 != od[i].0
    ensures OdDelete(od, od[i].0) == od[..i] + od[i + 1..]
  {
    if i > 0 {
      var t := od[1..];
      assert t[i - 1] == od[i];
      assert forall j :: 0 <= j < i - 1 ==> t[j].0 != t[i - 1].0 by {
        assert forall j :: 0 <= j < i - 1 ==> t[j] == od[j + 1];
      }
      OdDeleteAt(t, i - 1);
      assert od[..i] + od[i + 1..] == [od[0]] + (t[..i - 1] + t[i..]);
    }
  }

  // ---------------------------------------------------------------- calendar

  predicate IsLeap(y: int)
  {
    y % 4 == 0 && (y % 100 != 0 || y % 400 == 0)
  }

  function DaysInMonth(y: int, m: int): int
    requires 1 <= m <= 12
  {
    if m == 2 then (if IsLeap(y) then 29 else 28)
    else if m == 4 || m == 6 || m == 9 || m == 11 then 30
    else 31
  }

  function DaysBeforeYear(y: int): int
  {
    var p := y - 1;
    365 * p + p / 4 - p / 100 + p / 400
  }

  function DaysBeforeMonth(y: int, m: int): int
    requires 1 <= m <= 12
    decreases m
  {
    if m == 1 then 0 else DaysBeforeMonth(y, m - 1) + DaysInMonth(y, m - 1)
  }

  /** date.toordinal(): day 1 is 0001-01-01. */
  function Ordinal(d: CalDate): int
  {
    if 1 <= d.month <= 12 then DaysBeforeYear(d.year) + DaysBeforeMonth(d.year, d.month) + d.day
    else DaysBeforeYear(d.year) + d.day
  }

  /** Microseconds since 0001-01-01T00:00 UTC, reading a naive value as UTC. */
  function Instant(t: DateTime): int
  {
    var off := if t.offset.Some? then t.offset.value else 0;
    ((((Ordinal(t.date) * 24 + t.hour) * 60 + t.minute - off) * 60) + t.second) * 1000000 + t.micro
  }

  function DateFields(d: CalDate): seq<int> { [d.year, d.month, d.day] }

  function DateTimeFields(t: DateTime): seq<int>
  {
    [t.date.year, t.date.month, t.date.day, t.hour, t.minute, t.second, t.micro]
  }
}
