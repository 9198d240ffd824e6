/** Value coercion shared by every filter operator: rendering a value as
    text the way GeoServer's Java code does, and the three parsers that turn
    a field value into a bool, a double or a datetime. */
module Utils {
  import opened Wrappers
  import opened PyValues
  import Strptime

  // ================================================================ stringify

  /** The first `k` decimal digits of a fraction in [0, 1), stopping early
      when the rest is zero. */
  function FracDigits(f: real, k: nat): (r: string)
    requires 0.0 <= f < 1.0
    ensures AllDigits(r) && |r| <= k
    decreases k
  {
    if k == 0 || f == 0.0 then ""
    else
      var x := f * 10.0;
      var d := x.Floor;
      assert 0 <= d <= 9;
      [DigitChar(d)] + FracDigits(x - d as real, k - 1)
  }

  /** `str(x)` of a finite float, written positionally: integer part, a dot
      and at least one fractional digit ("3.0", "-0.5", "3.14159"). */
  function ReprText(r: real): string
  {
    var a := if r < 0.0 then -r else r;
    var n := a.Floor;
    var frac := FracDigits(a - n as real, 17);
    (if r < 0.0 then "-" else "") + NatText(n) + "." + (if frac == "" then "0" else frac)
  }

  /** `date.isoformat()`: YYYY-MM-DD. */
  function IsoDate(d: Day): string
  {
    ZeroPad(d.year, 4) + "-" + ZeroPad(d.month, 2) + "-" + ZeroPad(d.day, 2)
  }

  /** The `+HH:MM` suffix `isoformat()` gives an aware datetime. */
  function OffsetText(offset: Option<int>): string
  {
    match offset
    case None => ""
    case Some(m) =>
      var a := if m < 0 then -m else m;
      (if m < 0 then "-" else "+") + ZeroPad(a / 60, 2) + ":" + ZeroPad(a % 60, 2)
  }

  /** The part of `isoformat()` up to the seconds. */
  function IsoSeconds(t: Moment): string
  {
    IsoDate(t.date) + "T" + ZeroPad(t.hour, 2) + ":" + ZeroPad(t.minute, 2) + ":" + ZeroPad(t.second, 2)
  }

  /** `datetime.isoformat()`: the fraction appears only when non-zero. */
  function IsoDateTime(t: Moment): string
  {
    IsoSeconds(t) + (if t.micro != 0 then "." + ZeroPad(t.micro, 6) else "") + OffsetText(t.offset)
  }

  /** `[+-]\d+` or nothing, the tail the truncation pattern allows after the fraction. */
  predicate SignedDigitsOrEmpty(t: string)
  {
    t == "" || (|t| >= 2 && (t[0] == '+' || t[0] == '-') && AllDigits(t[1..]))
  }

  /** Whether `^(.+?\.\d{6})(|[+-](\d+))$` matches with the lazy prefix ending before index j. */
  predicate TruncatesAt(text: string, j: nat)
  {
    1 <= j && j + 7 <= |text| && text[j] == '.' && AllDigits(text[j + 1..j + 7])
    && SignedDigitsOrEmpty(text[j + 7..])
    && forall k :: 0 <= k < j ==> text[k] != '\n'
  }

  /** The truncation of a six-digit fraction to three digits, trying the
      lazy prefix lengths j, j+1, ... in the regex engine's order. */
  function TruncateFrom(text: string, j: nat): (r: string)
    ensures text != [] ==> r != []
    decreases |text| - j
  {
    if j + 7 > |text| then text
    else if TruncatesAt(text, j) then text[..j + 4] + text[j + 7..]
    else TruncateFrom(text, j + 1)
  }

  /** `stringify`: the Java-style text of a value. */
  function Stringify(v: Value): string
  {
    match v
    case Null => ""
    case Date(d) => IsoDate(d)
    case DateTimeV(t) => TruncateFrom(IsoDateTime(t), 1)
    case Bool(b) => if b then "true" else "false"
    case Float(d) =>
      (match d
       case NaN => "NaN"
       case PosInf => "Infinity"
       case NegInf => "-Infinity"
       case Finite(r) => ReprText(r))
    case Int(i) => IntText(i)
    case Str(s) => s
  }

  // ================================================================ parseBool

  /** Python's `obj == n` for an int n: bools, ints and floats compare by value. */
  predicate NumericallyEquals(v: Value, n: int)
  {
    match v
    case Bool(b) => (if b then 1 else 0) == n
    case Int(i) => i == n
    case Float(d) => d.Finite? && d.r == n as real
    case _ => false
  }

  /** `parseBool`. */
  function ParseBool(v: Value): (r: Result<bool>)
    ensures r == Ok(true) <==> v in {Bool(true), Int(1), Float(Finite(1.0)), Str("true"), Str("1")}
    ensures r == Ok(false) <==> v in {Bool(false), Int(0), Float(Finite(0.0)), Str("false"), Str("0")}
    ensures r.Err? ==> r.error == ValueError
  {
    if v == Bool(true) || v == Str("true") || v == Str("1") || NumericallyEquals(v, 1) then Ok(true)
    else if v == Bool(false) || v == Str("false") || v == Str("0") || NumericallyEquals(v, 0) then Ok(false)
    else Err(ValueError)
  }

  // ================================================================ parseDouble

  /** `digit (["_"] digit)*`: digits, with single underscores only between digits. */
  predicate IsDigitPart(t: string)
  {
    |t| >= 1 && IsDigit(t[0]) && IsDigit(t[|t| - 1])
    && (forall k :: 0 <= k < |t| ==> IsDigit(t[k]) || t[k] == '_')
    && (forall k :: 0 <= k < |t| - 1 ==> t[k] == '_' ==> t[k + 1] != '_')
  }

  function DropUnderscores(t: string): (r: string)
    ensures |r| <= |t|
  {
    if t == [] then [] else (if t[0] == '_' then [] else [t[0]]) + DropUnderscores(t[1..])
  }

  lemma {:induction false} DigitPartDigits(t: string)
    requires forall k :: 0 <= k < |t| ==> IsDigit(t[k]) || t[k] == '_'
    ensures AllDigits(DropUnderscores(t))
  {
    if t != [] {
      DigitPartDigits(t[1..]);
    }
  }

  /** The index of the first occurrence of c in t, or |t|. */
  function IndexOf(t: string, c: char): (i: nat)
    ensures i <= |t|
    ensures forall k :: 0 <= k < i ==> t[k] != c
    ensures i < |t| ==> t[i] == c
  {
    if t == [] then 0 else if t[0] == c then 0 else 1 + IndexOf(t[1..], c)
  }

  /** The index of the first `e` or `E` in t, or |t|. */
  function IndexOfExponent(t: string): (i: nat)
    ensures i <= |t|
    ensures forall k :: 0 <= k < i ==> t[k] != 'e' && t[k] != 'E'
    ensures i < |t| ==> t[i] == 'e' || t[i] == 'E'
  {
    if t == [] then 0 else if t[0] == 'e' || t[0] == 'E' then 0 else 1 + IndexOfExponent(t[1..])
  }

  /** v times 10 to the power k, for any integer k. */
  function ScaleBy(v: real, k: int): real
    decreases if k < 0 then -k else k
  {
    if k == 0 then v
    else if k > 0 then ScaleBy(v * 10.0, k - 1)
    else ScaleBy(v / 10.0, k + 1)
  }

  /** A mantissa `[digitpart] "." digitpart | digitpart ["."]`, read as
      (all its digits as one integer, how many of them follow the dot). */
  function Mantissa(m: string): Option<(nat, nat)>
  {
    var p := IndexOf(m, '.');
    if p == |m| then
      if IsDigitPart(m) then (DigitPartDigits(m); Some((DigitsValue(DropUnderscores(m)), 0))) else None
    else
      var whole, frac := m[..p], m[p + 1..];
      if (whole == "" || IsDigitPart(whole)) && (frac == "" || IsDigitPart(frac)) && !(whole == "" && frac == "")
      then
        DigitPartDigits(whole); DigitPartDigits(frac);
        DigitsConcat(DropUnderscores(whole), DropUnderscores(frac));
        Some((DigitsValue(DropUnderscores(whole) + DropUnderscores(frac)), |DropUnderscores(frac)|))
      else None
  }

  lemma DigitsConcat(a: string, b: string)
    requires AllDigits(a) && AllDigits(b)
    ensures AllDigits(a + b)
  {
  }

  /** An exponent `[+-] digitpart` after the `e`. */
  function Exponent(x: string): Option<int>
  {
    var neg := x != [] && x[0] == '-';
    var digits := if x != [] && (x[0] == '+' || x[0] == '-') then x[1..] else x;
    if IsDigitPart(digits) then
      DigitPartDigits(digits);
      var n: int := DigitsValue(DropUnderscores(digits));
      Some(if neg then -n else n)
    else None
  }

  /** The unsigned decimal literal `float()` accepts: a mantissa and an optional exponent. */
  function DecimalValue(body: string): Option<real>
  {
    var e := IndexOfExponent(body);
    var m := Mantissa(body[..e]);
    var x := if e == |body| then Some(0) else Exponent(body[e + 1..]);
    if m.None? || x.None? then None
    else Some(ScaleBy(m.value.0 as real, x.value - m.value.1))
  }

  /** `float(t)` on already stripped text: an optional sign, then `inf`,
      `infinity` or `nan` in any case, or a decimal literal. Non-ASCII
      digits, which `float()` also accepts, are not modelled. */
  function PyFloat(t: string): Option<Double>
  {
    var neg := t != [] && t[0] == '-';
    var body := if t != [] && (t[0] == '+' || t[0] == '-') then t[1..] else t;
    var word := AsciiLower(body);
    if word == "inf" || word == "infinity" then Some(if neg then NegInf else PosInf)
    else if word == "nan" then Some(NaN)
    else
      match DecimalValue(body)
      case None => None
      case Some(r) => Some(Finite(if neg then -r else r))
  }

  /** `re.match(r'^[+-]?nan$', t, re.I)` */
  predicate IsNanWord(t: string)
  {
    var w := AsciiLower(t);
    w == "nan" || w == "+nan" || w == "-nan"
  }

  /** parseDouble on stripped text: Java's spellings of NaN and of the
      infinities are checked first, a bare `inf` is refused, and anything
      else is left to Python's float(). */
  function ParseText(t: string): (r: Result<Double>)
    ensures r.Err? ==> r.error == ValueError
  {
    if IsNanWord(t) then
      if t == "NaN" || t == "+NaN" || t == "-NaN" then Ok(NaN) else Err(ValueError)
    else if AsciiLower(t) == "inf" then Err(ValueError)
    else if t == "Infinity" || t == "+Infinity" then Ok(PosInf)
    else if t == "-Infinity" then Ok(NegInf)
    else
      match PyFloat(t)
      case None => Err(ValueError)
      case Some(d) => Ok(d)
  }

  /** `parseDouble`: Java's Double.parseDouble as GeoServer applies it. */
  function ParseDouble(v: Value): (r: Result<Double>)
    ensures r.Ok? ==> v.Int? || v.Float? || v.Null? || v.Str?
    ensures r.Err? ==> (r.error == TypeError <==> !v.Str?)
    ensures r.Err? ==> r.error == TypeError || r.error == ValueError
  {
    match v
    case Int(i) => Ok(Finite(i as real))
    case Float(d) => Ok(d)
    case Null => Ok(NaN)
    case Str(s) => ParseText(Strip(s))
    case _ => Err(TypeError)
  }

  // ================================================================ parseDate

  /** The part of s that a pattern ending in `$` must match: `$` also
      matches just before a single final newline. */
  function DollarEnd(s: string): (c: string)
    ensures |c| <= |s| && c == s[..|c|]
    ensures s == c || s == c + "\n"
  {
    if s != [] && s[|s| - 1] == '\n' then s[..|s| - 1] else s
  }

  /** `.` matches any character except a newline. */
  predicate NoNewline(s: string)
  {
    forall i :: 0 <= i < |s| ==> s[i] != '\n'
  }

  /** `re.match(r'.+?[+-]\d{2}:\d{2}$', s)`: a `±HH:MM` offset after at least
      one character, none of them a newline. */
  predicate HasColonOffset(s: string)
  {
    var c := DollarEnd(s);
    NoNewline(c) && |c| >= 7 && (c[|c| - 6] == '+' || c[|c| - 6] == '-') && IsDigit(c[|c| - 5]) && IsDigit(c[|c| - 4])
    && c[|c| - 3] == ':' && IsDigit(c[|c| - 2]) && IsDigit(c[|c| - 1])
  }

  /** `re.match(r'.+?T.+?[+-]\d{2}$', s)`: a `±HH` offset, with a `T` that has
      at least one character on each side before it, and no newline. */
  predicate HasHourOffset(s: string)
  {
    var c := DollarEnd(s);
    NoNewline(c) && |c| >= 6 && (c[|c| - 3] == '+' || c[|c| - 3] == '-') && IsDigit(c[|c| - 2]) && IsDigit(c[|c| - 1])
    && exists i :: 1 <= i <= |c| - 5 && c[i] == 'T'
  }

  /** The rewrite parseDate applies before trying formats: the third-last
      character is dropped when a `±HH:MM` offset is found, else `00` is
      appended when a `±HH` offset is found. Both edits are made on the whole
      string, including a final newline the regex skipped. */
  function NormaliseOffset(s: string): string
  {
    if HasColonOffset(s) then s[..|s| - 3] + s[|s| - 2..]
    else if HasHourOffset(s) then s + "00"
    else s
  }

  const DateFormats: seq<Strptime.Format> := [[Strptime.Year, Strptime.Lit('-'), Strptime.Month, Strptime.Lit('-'), Strptime.Day], []]
  const TimeFormats: seq<Strptime.Format> :=
    [[Strptime.Hour, Strptime.Lit(':'), Strptime.Minute, Strptime.Lit(':'), Strptime.Second],
     [Strptime.Hour, Strptime.Lit(':'), Strptime.Minute, Strptime.Lit(':'), Strptime.Second, Strptime.Lit('.'), Strptime.Fraction],
     []]
  const ZoneFormats: seq<Strptime.Format> := [[], [Strptime.Lit('Z')], [Strptime.Zone]]

  /** The format assembled from one (date, time, zone) triple: a `T` joins a
      date and a time, and the zone part is used only after a time. */
  function Combine(d: Strptime.Format, t: Strptime.Format, z: Strptime.Format): Strptime.Format
  {
    d + (if d != [] && t != [] then [Strptime.Lit('T')] else []) + (if t != [] then t + z else [])
  }

  const FormatCount := 18

  /** The i-th format of `product(date_formats, time_formats, tz_formats)`. */
  function FormatAt(i: nat): Strptime.Format
    requires i < FormatCount
  {
    Combine(DateFormats[i / 9], TimeFormats[(i / 3) % 3], ZoneFormats[i % 3])
  }

  /** What each pass of parseDate's loop gets from `strptime`, one attempt
      per format in product order. */
  function Attempts(t: string): (a: seq<Result<Moment>>)
    ensures |a| == FormatCount
  {
    seq(FormatCount, k requires 0 <= k < FormatCount => Strptime.Parse(t, FormatAt(k)))
  }

  /** The first successful attempt from index i on; ValueError when none is. */
  function FirstOk(a: seq<Result<Moment>>, i: nat): (r: Result<Moment>)
    requires i <= |a|
    ensures r.Err? ==> r.error == ValueError
    ensures r.Ok? ==> exists k :: i <= k < |a| && a[k] == r
    decreases |a| - i
  {
    if i == |a| then Err(ValueError)
    else if a[i].Ok? then a[i]
    else FirstOk(a, i + 1)
  }

  /** First success wins: the result is Ok exactly when some attempt from i on
      is, and it is then the first such attempt. */
  lemma {:induction false} FirstOkWins(a: seq<Result<Moment>>, i: nat)
    requires i <= |a|
    ensures FirstOk(a, i).Ok? <==> exists k :: i <= k < |a| && a[k].Ok?
    ensures forall k :: i <= k < |a| && a[k].Ok? && (forall j :: i <= j < k ==> a[j].Err?) ==> FirstOk(a, i) == a[k]
    decreases |a| - i
  {
    if i < |a| {
      FirstOkWins(a, i + 1);
    }
  }

  /** The first format from index i on that converts t. */
  function FirstFormat(t: string, i: nat): (r: Result<Moment>)
    requires i <= FormatCount
    ensures r.Err? ==> r.error == ValueError
    ensures r.Ok? ==> exists k :: i <= k < FormatCount && Strptime.Parse(t, FormatAt(k)) == r
  {
    FirstOk(Attempts(t), i)
  }

  /** parseDate's loop returns the conversion by the first format that
      converts t, and fails exactly when no format does. */
  lemma FirstFormatWins(t: string, i: nat)
    requires i <= FormatCount
    ensures FirstFormat(t, i).Ok? <==> exists k :: i <= k < FormatCount && Attempts(t)[k].Ok?
    ensures forall k :: i <= k < FormatCount && Attempts(t)[k].Ok? && (forall j :: i <= j < k ==> Attempts(t)[j].Err?)
                        ==> FirstFormat(t, i) == Attempts(t)[k]
  {
    FirstOkWins(Attempts(t), i);
  }

  function Midnight(d: Day): Moment
  {
    DateTime(d, 0, 0, 0, 0, None)
  }

  /** `parseDate`. A value that is neither a str nor a date raises
      NameError, because the error message names an unbound local. */
  function ParseDate(v: Value): (r: Result<Moment>)
    ensures v.DateTimeV? ==> r == Ok(v.dt)
    ensures v.Date? ==> r == Ok(Midnight(v.date))
    ensures r.Err? ==> (r.error == NameError <==> !(v.Str? || v.Date? || v.DateTimeV?))
    ensures r.Err? ==> r.error == NameError || r.error == ValueError
  {
    match v
    case DateTimeV(t) => Ok(t)
    case Date(d) => Ok(Midnight(d))
    case Str(s) => FirstFormat(NormaliseOffset(s), 0)
    case _ => Err(NameError)
  }

  /** The loop of parseDate over the format product: the first format
      `strptime` accepts wins. */
  method TryFormats(timeStr: string) returns (r: Result<Moment>)
    ensures r == FirstFormat(timeStr, 0)
  {
    for i := 0 to FormatCount
      invariant FirstFormat(timeStr, i) == FirstFormat(timeStr, 0)
    {
      var attempt := Strptime.Parse(timeStr, FormatAt(i));
      if attempt.Ok? {
        return attempt;
      }
    }
    return Err(ValueError);
  }

  /** parseDate: the offset rewrite on the local `time_str`, then the format loop. */
  method ParseDateLoop(v: Value) returns (r: Result<Moment>)
    ensures r == ParseDate(v)
  {
    match v {
      case DateTimeV(t) =>
        r := Ok(t);
      case Date(d) =>
        r := Ok(DateTime(d, 0, 0, 0, 0, None));
      case Str(s) =>
        var timeStr := s;
        if HasColonOffset(timeStr) {
          timeStr := timeStr[..|timeStr| - 3] + timeStr[|timeStr| - 2..];
        } else if HasHourOffset(timeStr) {
          timeStr := timeStr + "00";
        }
        assert timeStr == NormaliseOffset(s);
        r := TryFormats(timeStr);
      case _ =>
        r := Err(NameError);
    }
  }
}
