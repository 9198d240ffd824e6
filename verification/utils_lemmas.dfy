/** What the coercion functions of Utils promise: the Java spellings
    parseDouble accepts and rejects, and that parsing what stringify
    rendered gives the value back. */
module UtilsLemmas {
  import opened Wrappers
  import opened PyValues
  import opened Utils
  import Strptime

  // ---------------------------------------------------------------- text helpers

  lemma StripKeepsTrimmed(t: string)
    requires t != [] ==> !IsSpace(t[0]) && !IsSpace(t[|t| - 1])
    ensures Strip(t) == t
  {
  }

  lemma {:induction false} DigitsHaveNoUnderscore(t: string)
    requires AllDigits(t)
    ensures DropUnderscores(t) == t
  {
    if t != [] {
      DigitsHaveNoUnderscore(t[1..]);
    }
  }

  lemma DigitsAreDigitPart(t: string)
    requires AllDigits(t) && t != []
    ensures IsDigitPart(t)
  {
  }

  /** Appending a zero digit multiplies the value by ten. */
  lemma DigitsValueShift(t: string)
    requires AllDigits(t)
    ensures AllDigits(t + "0") && DigitsValue(t + "0") == 10 * DigitsValue(t)
  {
    var u := t + "0";
    assert u[..|u| - 1] == t;
  }

  lemma LowerOfDigit(c: char)
    requires IsDigit(c)
    ensures LowerChar(c) == c
  {
  }

  lemma DigitEndNotNan(t: string)
    requires t != [] && IsDigit(t[|t| - 1])
    ensures !IsNanWord(t)
  {
    var last := t[|t| - 1];
    LowerOfDigit(last);
    assert AsciiLower(t)[|t| - 1] == last;
  }

  lemma DigitEndNotInf(t: string)
    requires t != [] && IsDigit(t[|t| - 1])
    ensures AsciiLower(t) != "inf" && AsciiLower(t) != "infinity"
  {
    var last := t[|t| - 1];
    LowerOfDigit(last);
    assert AsciiLower(t)[|t| - 1] == last;
  }

  /** A text ending in a digit is none of the special number words. */
  lemma DigitEndIsNoWord(t: string)
    requires t != [] && IsDigit(t[|t| - 1])
    ensures !IsNanWord(t) && AsciiLower(t) != "inf" && AsciiLower(t) != "infinity"
    ensures t != "Infinity" && t != "+Infinity" && t != "-Infinity"
  {
    DigitEndNotNan(t);
    DigitEndNotInf(t);
  }

  /** The digits of a natural number read back as that number. */
  lemma DecimalOfNatText(n: nat)
    ensures DecimalValue(NatText(n)) == Some(n as real)
  {
    var t := NatText(n);
    assert IndexOfExponent(t) == |t|;
    assert IndexOf(t, '.') == |t|;
    assert t[..|t|] == t;
    DigitsAreDigitPart(t);
    DigitsHaveNoUnderscore(t);
    NatTextValue(n);
    assert ScaleBy(n as real, 0) == n as real;
  }

  /** Without an exponent letter the value is the mantissa's digits scaled
      by the number of fractional digits. */
  lemma DecimalWithoutExponent(body: string, v: nat, k: nat)
    requires forall j :: 0 <= j < |body| ==> body[j] != 'e' && body[j] != 'E'
    requires Mantissa(body) == Some((v, k))
    ensures DecimalValue(body) == Some(ScaleBy(v as real, -(k as int)))
  {
    assert IndexOfExponent(body) == |body|;
    assert body[..|body|] == body;
  }

  lemma MantissaOfPointZero(w: string)
    requires AllDigits(w) && w != []
    ensures Mantissa(w + ".0") == Some((10 * DigitsValue(w), 1))
  {
    var t := w + ".0";
    assert IndexOf(t, '.') == |w| by {
      assert t[|w|] == '.';
      forall k | 0 <= k < |w| ensures t[k] != '.' { assert t[k] == w[k]; }
    }
    assert t[..|w|] == w;
    assert t[|w| + 1..] == "0";
    DigitsAreDigitPart(w);
    DigitsAreDigitPart("0");
    DigitsHaveNoUnderscore(w);
    DigitsHaveNoUnderscore("0");
    DigitsValueShift(w);
  }

  /** `n.0` reads back as n. */
  lemma DecimalOfPointZero(n: nat)
    ensures DecimalValue(NatText(n) + ".0") == Some(n as real)
  {
    var w := NatText(n);
    var t := w + ".0";
    assert forall j :: 0 <= j < |t| ==> t[j] != 'e' && t[j] != 'E' by {
      forall j | 0 <= j < |t| ensures t[j] != 'e' && t[j] != 'E' {
        if j < |w| { assert t[j] == w[j]; }
      }
    }
    MantissaOfPointZero(w);
    NatTextValue(n);
    DecimalWithoutExponent(t, 10 * n, 1);
    assert ScaleBy((10 * n) as real, -1) == n as real;
  }

  // ---------------------------------------------------------------- parseDouble

  /** parseDouble strips the text and hands it to the text stage. */
  lemma ParseDoubleOfStr(s: string)
    ensures ParseDouble(Str(s)) == ParseText(Strip(s))
  {
  }

  /** On text without surrounding whitespace parseDouble is its text stage. */
  lemma ParseDoubleOfTrimmed(t: string)
    requires t != [] ==> !IsSpace(t[0]) && !IsSpace(t[|t| - 1])
    ensures ParseDouble(Str(t)) == ParseText(t)
  {
    ParseDoubleOfStr(t);
    StripKeepsTrimmed(t);
  }

  /** Whitespace around the text is ignored. */
  lemma ParseDoubleIgnoresPadding(u: string, s: string, w: string)
    requires AllSpace(u) && AllSpace(w)
    ensures ParseDouble(Str(u + s + w)) == ParseDouble(Str(s))
  {
    StripPadding(u, s, w);
    ParseDoubleOfStr(u + s + w);
    ParseDoubleOfStr(s);
  }

  /** Python's float() gives NaN only for the words `nan`, `+nan`, `-nan` in any case. */
  lemma PyFloatNaNIsNanWord(t: string)
    ensures PyFloat(t) == Some(NaN) ==> IsNanWord(t)
  {
    if PyFloat(t) == Some(NaN) {
      var signed := t != [] && (t[0] == '+' || t[0] == '-');
      var body := if signed then t[1..] else t;
      assert AsciiLower(body) == "nan";
      if signed {
        assert AsciiLower(t) == [t[0]] + AsciiLower(body);
      } else {
        assert AsciiLower(t) == AsciiLower(body);
      }
    }
  }

  /** Only the exact Java spelling `[+-]?NaN` gives NaN; `nan`, `NAN` and
      the like are rejected although Python's float() would take them. */
  lemma ParseTextNaN(t: string)
    ensures ParseText(t) == Ok(NaN) <==> t in {"NaN", "+NaN", "-NaN"}
    ensures IsNanWord(t) && t !in {"NaN", "+NaN", "-NaN"} ==> ParseText(t) == Err(ValueError)
  {
    if t == "NaN" {
      assert AsciiLower(t) == "nan";
    } else if t == "+NaN" {
      assert AsciiLower(t) == "+nan";
    } else if t == "-NaN" {
      assert AsciiLower(t) == "-nan";
    } else if !IsNanWord(t) {
      PyFloatNaNIsNanWord(t);
    }
  }

  lemma ParseDoubleNaN(s: string)
    ensures ParseDouble(Str(s)) == Ok(NaN) <==> Strip(s) in {"NaN", "+NaN", "-NaN"}
    ensures IsNanWord(Strip(s)) && Strip(s) !in {"NaN", "+NaN", "-NaN"} ==> ParseDouble(Str(s)) == Err(ValueError)
  {
    ParseDoubleOfStr(s);
    ParseTextNaN(Strip(s));
  }

  /** `inf` in any letter case is rejected; `[+-]?Infinity` is a signed infinity. */
  lemma ParseTextInfinity(t: string)
    ensures AsciiLower(t) == "inf" ==> ParseText(t) == Err(ValueError)
    ensures t in {"Infinity", "+Infinity"} ==> ParseText(t) == Ok(PosInf)
    ensures t == "-Infinity" ==> ParseText(t) == Ok(NegInf)
  {
    if AsciiLower(t) == "inf" {
      assert !IsNanWord(t);
    } else if t == "Infinity" {
      assert AsciiLower(t) == "infinity";
    } else if t == "+Infinity" {
      assert AsciiLower(t) == "+infinity";
    } else if t == "-Infinity" {
      assert AsciiLower(t) == "-infinity";
    }
  }

  lemma ParseDoubleInfinity(s: string)
    ensures AsciiLower(Strip(s)) == "inf" ==> ParseDouble(Str(s)) == Err(ValueError)
    ensures Strip(s) in {"Infinity", "+Infinity"} ==> ParseDouble(Str(s)) == Ok(PosInf)
    ensures Strip(s) == "-Infinity" ==> ParseDouble(Str(s)) == Ok(NegInf)
  {
    ParseDoubleOfStr(s);
    ParseTextInfinity(Strip(s));
  }

  /** A text with a character that a word lacks is not that word. */
  lemma NotWordWithChar(t: string, k: nat, w: string)
    requires k < |t|
    requires forall j :: 0 <= j < |w| ==> w[j] != t[k]
    ensures t != w
  {
    if k < |w| {
      assert w[k] != t[k];
    } else {
      assert |w| <= k < |t|;
    }
  }

  lemma ForeignCharNoSpecialWord(t: string, k: nat)
    requires k < |t|
    requires var c := t[k];
      !IsDigit(c) && !('a' <= c <= 'z') && !('A' <= c <= 'Z') && c != '+' && c != '-' && c != '.' && c != '_'
    ensures !IsNanWord(t) && AsciiLower(t) != "inf"
    ensures t != "Infinity" && t != "+Infinity" && t != "-Infinity"
  {
    var c := t[k];
    assert AsciiLower(t)[k] == LowerChar(c) == c;
    NotWordWithChar(AsciiLower(t), k, "nan");
    NotWordWithChar(AsciiLower(t), k, "+nan");
    NotWordWithChar(AsciiLower(t), k, "-nan");
    NotWordWithChar(AsciiLower(t), k, "inf");
    NotWordWithChar(t, k, "Infinity");
    NotWordWithChar(t, k, "+Infinity");
    NotWordWithChar(t, k, "-Infinity");
  }

  /** A character that is no letter, digit, sign, dot or underscore makes
      the text unparseable: `1,024` and `42 is the answer` raise ValueError. */
  lemma ParseTextRejectsForeignChar(t: string, k: nat)
    requires k < |t|
    requires var c := t[k];
      !IsDigit(c) && !('a' <= c <= 'z') && !('A' <= c <= 'Z') && c != '+' && c != '-' && c != '.' && c != '_'
    ensures ParseText(t) == Err(ValueError)
  {
    var c := t[k];
    ForeignCharNoSpecialWord(t, k);
    var signed := t[0] == '+' || t[0] == '-';
    var body := if signed then t[1..] else t;
    var kb := if signed then k - 1 else k;
    assert 0 <= kb < |body| && body[kb] == c;
    var word := AsciiLower(body);
    assert word != "inf" && word != "infinity" && word != "nan" by {
      assert word[kb] == LowerChar(c) == c;
      NotWordWithChar(word, kb, "inf");
      NotWordWithChar(word, kb, "infinity");
      NotWordWithChar(word, kb, "nan");
    }
    assert DecimalValue(body) == None by {
      NoDecimalWithForeignChar(body, kb);
    }
  }

  lemma ParseDoubleRejectsForeignChar(s: string, k: nat)
    requires k < |Strip(s)|
    requires var c := Strip(s)[k];
      !IsDigit(c) && !('a' <= c <= 'z') && !('A' <= c <= 'Z') && c != '+' && c != '-' && c != '.' && c != '_'
    ensures ParseDouble(Str(s)) == Err(ValueError)
  {
    ParseDoubleOfStr(s);
    ParseTextRejectsForeignChar(Strip(s), k);
  }

  /** A decimal literal consists of digits, underscores, one dot, an
      exponent letter and its sign only. */
  lemma {:induction false} NoDecimalWithForeignChar(body: string, kb: nat)
    requires kb < |body|
    requires var c := body[kb];
      !IsDigit(c) && c != '+' && c != '-' && c != '.' && c != '_' && c != 'e' && c != 'E'
    ensures DecimalValue(body) == None
  {
    var c := body[kb];
    var e := IndexOfExponent(body);
    if kb < e {
      var m := body[..e];
      assert m[kb] == c;
      var p := IndexOf(m, '.');
      if p == |m| {
        assert !IsDigitPart(m);
      } else if kb < p {
        assert m[..p][kb] == c;
        assert !IsDigitPart(m[..p]);
      } else {
        assert kb != p;
        assert m[p + 1..][kb - p - 1] == c;
        assert !IsDigitPart(m[p + 1..]);
      }
    } else {
      assert kb != e;
      var x := body[e + 1..];
      assert x[kb - e - 1] == c;
      var digits := if x != [] && (x[0] == '+' || x[0] == '-') then x[1..] else x;
      if x != [] && (x[0] == '+' || x[0] == '-') {
        assert kb - e - 1 != 0;
        assert digits[kb - e - 2] == c;
      }
      assert !IsDigitPart(digits);
    }
  }

  lemma ParseTextOfPlusInf(t: string)
    requires t == "+inf"
    ensures ParseText(t) == Ok(PosInf)
  {
    assert AsciiLower(t) == "+inf";
    assert t[1..] == "inf";
    assert AsciiLower(t[1..]) == "inf";
  }

  lemma ParseTextOfMinusInf(t: string)
    requires t == "-inf"
    ensures ParseText(t) == Ok(NegInf)
  {
    assert AsciiLower(t) == "-inf";
    assert t[1..] == "inf";
    assert AsciiLower(t[1..]) == "inf";
  }

  lemma ParseTextOfUpperInfinity(t: string)
    requires t == "INFINITY"
    ensures ParseText(t) == Ok(PosInf)
  {
    assert AsciiLower(t) == "infinity";
  }

  /** Python's float() takes `+inf`, `-inf` and `INFINITY`, and parseDouble
      lets them through, unlike Java: only the bare `inf` is rejected. */
  lemma ParseDoubleSignedInfQuirk(t: string)
    requires t == "+inf" || t == "-inf" || t == "INFINITY"
    ensures ParseDouble(Str(t)) == if t == "-inf" then Ok(NegInf) else Ok(PosInf)
  {
    if t == "+inf" {
      ParseTextOfPlusInf(t);
    } else if t == "-inf" {
      ParseTextOfMinusInf(t);
    } else {
      ParseTextOfUpperInfinity(t);
    }
    ParseDoubleOfTrimmed(t);
  }

  /** float() of an optionally signed decimal literal. */
  lemma PyFloatOfDecimal(t: string, body: string, neg: bool, r: real)
    requires t == (if neg then "-" else "") + body
    requires body != [] && IsDigit(body[|body| - 1]) && IsDigit(body[0])
    requires DecimalValue(body) == Some(r)
    ensures PyFloat(t) == Some(Finite(if neg then -r else r))
  {
    assert (t != [] && t[0] == '-') == neg && (t != [] && (t[0] == '+' || t[0] == '-')) == neg by {
      if !neg {
        assert t[0] == body[0];
      }
    }
    assert (if neg then t[1..] else t) == body by {
      if neg {
        assert t[1..] == body;
      }
    }
    assert AsciiLower(body) != "inf" && AsciiLower(body) != "infinity" by {
      DigitEndNotInf(body);
    }
    assert AsciiLower(body) != "nan" by {
      LowerOfDigit(body[|body| - 1]);
      assert AsciiLower(body)[|body| - 1] == body[|body| - 1];
    }
  }

  /** parseDouble of a decimal literal with an optional minus sign that ends
      in a digit: the special words are ruled out and float() decides. */
  lemma ParseTextOfDecimalText(t: string, body: string, neg: bool, r: real)
    requires t == (if neg then "-" else "") + body
    requires body != [] && IsDigit(body[|body| - 1]) && IsDigit(body[0])
    requires DecimalValue(body) == Some(r)
    ensures t != [] && !IsSpace(t[0]) && !IsSpace(t[|t| - 1])
    ensures ParseText(t) == Ok(Finite(if neg then -r else r))
  {
    assert t != [] && IsDigit(t[|t| - 1]) && !IsSpace(t[0]) by {
      assert t[|t| - 1] == body[|body| - 1];
      if !neg {
        assert t[0] == body[0];
      }
    }
    DigitEndIsNoWord(t);
    PyFloatOfDecimal(t, body, neg, r);
  }

  lemma ParseDoubleOfDecimalText(t: string, body: string, neg: bool, r: real)
    requires t == (if neg then "-" else "") + body
    requires body != [] && IsDigit(body[|body| - 1]) && IsDigit(body[0])
    requires DecimalValue(body) == Some(r)
    ensures ParseDouble(Str(t)) == Ok(Finite(if neg then -r else r))
  {
    ParseTextOfDecimalText(t, body, neg, r);
    ParseDoubleOfTrimmed(t);
  }

  lemma ParseDoubleOfSignedNatText(i: int, n: nat)
    requires n == if i < 0 then -i else i
    ensures ParseDouble(Str(IntText(i))) == Ok(Finite(if i < 0 then -(n as real) else n as real))
  {
    DecimalOfNatText(n);
    ParseDoubleOfDecimalText(IntText(i), NatText(n), i < 0, n as real);
  }

  /** The text of an int parses back to that number. */
  lemma ParseDoubleOfIntText(i: int)
    ensures ParseDouble(Str(Stringify(Int(i)))) == Ok(Finite(i as real))
  {
    var n: nat := if i < 0 then -i else i;
    ParseDoubleOfSignedNatText(i, n);
    assert (if i < 0 then -(n as real) else n as real) == i as real;
  }

  lemma IntegralMagnitude(r: real)
    requires r == r.Floor as real
    ensures (if r < 0.0 then -r else r) == (if r < 0.0 then -r else r).Floor as real
  {
    var k := r.Floor;
    if r < 0.0 {
      assert -r == (-k) as real;
      assert ((-k) as real).Floor == -k;
    }
  }

  lemma NoFractionDigits(a: real)
    requires a >= 0.0 && a == a.Floor as real
    ensures FracDigits(a - a.Floor as real, 17) == ""
  {
  }

  /** The text of an integral float is its digits and `.0`. */
  lemma IntegralReprText(r: real, n: nat)
    requires r == r.Floor as real
    requires n == (if r < 0.0 then -r else r).Floor
    ensures ReprText(r) == (if r < 0.0 then "-" else "") + (NatText(n) + ".0")
    ensures n as real == (if r < 0.0 then -r else r)
  {
    var a := if r < 0.0 then -r else r;
    IntegralMagnitude(r);
    NoFractionDigits(a);
  }

  lemma PointZeroBody(n: nat, body: string)
    requires body == NatText(n) + ".0"
    ensures body != [] && IsDigit(body[|body| - 1]) && IsDigit(body[0])
    ensures DecimalValue(body) == Some(n as real)
  {
    assert body[0] == NatText(n)[0];
    DecimalOfPointZero(n);
  }

  lemma ParseDoubleOfPointZeroBody(n: nat, neg: bool, t: string, body: string)
    requires body == NatText(n) + ".0"
    requires t == (if neg then "-" else "") + body
    requires body != [] && IsDigit(body[|body| - 1]) && IsDigit(body[0])
    requires DecimalValue(body) == Some(n as real)
    ensures ParseDouble(Str(t)) == Ok(Finite(if neg then -(n as real) else n as real))
  {
    ParseDoubleOfDecimalText(t, body, neg, n as real);
  }

  lemma ParseDoubleOfPointZero(n: nat, neg: bool, t: string)
    requires t == (if neg then "-" else "") + (NatText(n) + ".0")
    ensures ParseDouble(Str(t)) == Ok(Finite(if neg then -(n as real) else n as real))
  {
    var body := NatText(n) + ".0";
    PointZeroBody(n, body);
    ParseDoubleOfPointZeroBody(n, neg, t, body);
  }

  lemma ParseDoubleOfIntegralText(r: real, n: nat)
    requires r == r.Floor as real
    requires n == (if r < 0.0 then -r else r).Floor
    ensures ParseDouble(Str(ReprText(r))) == Ok(Finite(if r < 0.0 then -(n as real) else n as real))
  {
    IntegralReprText(r, n);
    ParseDoubleOfPointZero(n, r < 0.0, ReprText(r));
  }

  lemma ParseTextOfNaN(t: string)
    requires t == "NaN"
    ensures ParseText(t) == Ok(NaN)
  {
    assert AsciiLower(t) == "nan";
  }

  lemma ParseTextOfInfinity(t: string)
    requires t == "Infinity"
    ensures ParseText(t) == Ok(PosInf)
  {
    assert AsciiLower(t) == "infinity";
  }

  lemma ParseTextOfNegInfinity(t: string)
    requires t == "-Infinity"
    ensures ParseText(t) == Ok(NegInf)
  {
    assert AsciiLower(t) == "-infinity";
  }

  lemma ParseDoubleOfNaNText()
    ensures ParseDouble(Str(Stringify(Float(NaN)))) == Ok(NaN)
  {
    var t := Stringify(Float(NaN));
    ParseTextOfNaN(t);
    ParseDoubleOfTrimmed(t);
  }

  lemma ParseDoubleOfInfinityText()
    ensures ParseDouble(Str(Stringify(Float(PosInf)))) == Ok(PosInf)
  {
    var t := Stringify(Float(PosInf));
    ParseTextOfInfinity(t);
    ParseDoubleOfTrimmed(t);
  }

  lemma ParseDoubleOfNegInfinityText()
    ensures ParseDouble(Str(Stringify(Float(NegInf)))) == Ok(NegInf)
  {
    var t := Stringify(Float(NegInf));
    ParseTextOfNegInfinity(t);
    ParseDoubleOfTrimmed(t);
  }

  lemma ParseDoubleOfIntegralFloatText(r: real)
    requires r == r.Floor as real
    ensures ParseDouble(Str(Stringify(Float(Finite(r))))) == Ok(Finite(r))
  {
    var n: nat := (if r < 0.0 then -r else r).Floor;
    ParseDoubleOfIntegralText(r, n);
    IntegralReprText(r, n);
    assert (if r < 0.0 then -(n as real) else n as real) == r;
  }

  /** NaN, the infinities and every integral float survive
      `parseDouble(stringify(x))`. */
  lemma ParseDoubleOfFloatText(d: Double)
    requires d.Finite? ==> d.r == d.r.Floor as real
    ensures ParseDouble(Str(Stringify(Float(d)))) == Ok(d)
  {
    if d.Finite? {
      ParseDoubleOfIntegralFloatText(d.r);
    } else if d.NaN? {
      ParseDoubleOfNaNText();
    } else if d.PosInf? {
      ParseDoubleOfInfinityText();
    } else {
      ParseDoubleOfNegInfinityText();
    }
  }

  /** Java's parser refuses the words true and false, in any case. */
  lemma ParseTextRejectsBoolWord(t: string)
    requires AsciiLower(t) == "true" || AsciiLower(t) == "false"
    ensures ParseText(t) == Err(ValueError)
  {
    var w := AsciiLower(t);
    assert w[0] == LowerChar(t[0]);
    assert t[0] in {'t', 'T', 'f', 'F'};
    assert !IsNanWord(t) && w != "inf";
    assert t != "Infinity" && t != "+Infinity" && t != "-Infinity";
    assert w != "infinity" && w != "nan";
    NoDecimalWithForeignChar(t, 0);
  }

  lemma BoolWordIsNoNumber(t: string)
    requires AsciiLower(t) == "true" || AsciiLower(t) == "false"
    ensures ParseDouble(Str(t)) == Err(ValueError)
  {
    assert LowerChar(t[|t| - 1]) == AsciiLower(t)[|t| - 1];
    assert LowerChar(t[0]) == AsciiLower(t)[0];
    ParseDoubleOfTrimmed(t);
    ParseTextRejectsBoolWord(t);
  }

  lemma ParseDoubleIgnoresTrailing(t: string, w: string)
    requires AllSpace(w)
    ensures ParseDouble(Str(t + w)) == ParseDouble(Str(t))
  {
    StripTrailingPadding(t, w);
    ParseDoubleOfStr(t + w);
    ParseDoubleOfStr(t);
  }

  // ---------------------------------------------------------------- datetime text

  /** Text holding neither a '.' nor a newline. */
  predicate Plain(s: string)
  {
    forall k :: 0 <= k < |s| ==> s[k] != '.' && s[k] != '\n'
  }

  function Pow10(k: nat): nat
  {
    if k == 0 then 1 else 10 * Pow10(k - 1)
  }

  lemma {:induction false} NatTextLength(n: nat, k: nat)
    requires 1 <= k && n < Pow10(k)
    ensures |NatText(n)| <= k
    decreases n
  {
    if n >= 10 {
      assert k >= 2;
      assert n / 10 < Pow10(k - 1);
      NatTextLength(n / 10, k - 1);
    }
  }

  /** A microsecond count always renders as exactly six digits. */
  lemma MicrosWidth(n: nat)
    requires n < 1000000
    ensures |ZeroPad(n, 6)| == 6
  {
    assert Pow10(6) == 1000000;
    NatTextLength(n, 6);
  }

  lemma IsoSecondsPlain(t: Moment)
    ensures |IsoSeconds(t)| >= 1 && Plain(IsoSeconds(t))
  {
  }

  /** An offset suffix has no '.' and is not `[+-]` followed by digits only. */
  lemma OffsetTextShape(m: int)
    ensures Plain(OffsetText(Some(m)))
    ensures !SignedDigitsOrEmpty(OffsetText(Some(m)))
  {
    var a := if m < 0 then -m else m;
    SignedPairShape(if m < 0 then "-" else "+", ZeroPad(a / 60, 2), ZeroPad(a % 60, 2));
  }

  /** `±HH:MM`-shaped text, whatever the digits. */
  lemma SignedPairShape(sign: string, h: string, mm: string)
    requires sign == "-" || sign == "+"
    requires AllDigits(h) && AllDigits(mm)
    ensures Plain(sign + h + ":" + mm)
    ensures !SignedDigitsOrEmpty(sign + h + ":" + mm)
  {
    var t := sign + h + ":" + mm;
    assert t[1..][|h|] == ':';
    forall k | 0 <= k < |t|
      ensures t[k] != '.' && t[k] != '\n'
    {
      if k == 0 {
      } else if k <= |h| {
        assert t[k] == h[k - 1];
      } else if k > |h| + 1 {
        assert t[k] == mm[k - |h| - 2];
      }
    }
  }

  /** Lazy prefixes that end before the first '.' never match. */
  lemma {:induction false} TruncateSkips(text: string, j: nat, p: nat)
    requires j <= p
    requires forall k :: j <= k < p && k < |text| ==> text[k] != '.'
    ensures TruncateFrom(text, j) == TruncateFrom(text, p)
    decreases p - j
  {
    if j < p && j + 7 <= |text| {
      assert !TruncatesAt(text, j);
      TruncateSkips(text, j + 1, p);
    }
  }

  /** Text without a fraction passes the truncation unchanged. */
  lemma TruncateWithoutDot(text: string)
    requires Plain(text)
    ensures TruncateFrom(text, 1) == text
  {
    TruncateSkips(text, 1, |text| + 1);
  }

  /** A six-digit fraction at the very end loses its last three digits. */
  lemma TruncateNaive(iso: string, frac: string)
    requires |iso| >= 1 && Plain(iso) && |frac| == 6 && AllDigits(frac)
    ensures TruncateFrom(iso + "." + frac, 1) == iso + "." + frac[..3]
  {
    var text := iso + "." + frac;
    var p := |iso|;
    TruncateSkips(text, 1, p);
    assert text[p + 1..p + 7] == frac && text[p + 7..] == "";
    assert TruncatesAt(text, p);
    assert text[..p + 4] == iso + "." + frac[..3];
  }

  /** A six-digit fraction followed by an offset that is not `[+-]\d+` is kept. */
  lemma TruncateAware(iso: string, frac: string, off: string)
    requires |iso| >= 1 && Plain(iso) && |frac| == 6 && AllDigits(frac)
    requires Plain(off) && !SignedDigitsOrEmpty(off)
    ensures TruncateFrom(iso + "." + frac + off, 1) == iso + "." + frac + off
  {
    var text := iso + "." + frac + off;
    var p := |iso|;
    TruncateSkips(text, 1, p);
    assert text[p + 7..] == off;
    assert !TruncatesAt(text, p);
    TruncateSkips(text, p + 1, |text| + 1);
  }

  lemma TruncateIsoNoFraction(t: Moment)
    requires t.micro == 0
    ensures TruncateFrom(IsoDateTime(t), 1) == IsoDateTime(t)
  {
    IsoSecondsPlain(t);
    if t.offset.Some? {
      OffsetTextShape(t.offset.value);
    }
    TruncateWithoutDot(IsoDateTime(t));
  }

  lemma TruncateIsoNaive(t: Moment)
    requires t.micro != 0 && t.offset.None?
    ensures TruncateFrom(IsoDateTime(t), 1) == IsoSeconds(t) + "." + ZeroPad(t.micro, 6)[..3]
  {
    IsoSecondsPlain(t);
    MicrosWidth(t.micro);
    assert IsoDateTime(t) == IsoSeconds(t) + "." + ZeroPad(t.micro, 6);
    TruncateNaive(IsoSeconds(t), ZeroPad(t.micro, 6));
  }

  lemma TruncateIsoAware(t: Moment)
    requires t.micro != 0 && t.offset.Some?
    ensures TruncateFrom(IsoDateTime(t), 1) == IsoDateTime(t)
  {
    IsoSecondsPlain(t);
    MicrosWidth(t.micro);
    OffsetTextShape(t.offset.value);
    assert IsoDateTime(t) == IsoSeconds(t) + "." + ZeroPad(t.micro, 6) + OffsetText(t.offset);
    TruncateAware(IsoSeconds(t), ZeroPad(t.micro, 6), OffsetText(t.offset));
  }

  /** stringify of a datetime: a naive value with a fraction keeps three
      fractional digits; every other datetime keeps its full isoformat text,
      because the pattern's tail `[+-]\d+` never matches the `+HH:MM` offset
      isoformat writes. */
  lemma StringifyDateTime(t: Moment)
    ensures t.micro != 0 && t.offset.None? ==>
      Stringify(DateTimeV(t)) == IsoSeconds(t) + "." + ZeroPad(t.micro, 6)[..3]
    ensures !(t.micro != 0 && t.offset.None?) ==> Stringify(DateTimeV(t)) == IsoDateTime(t)
  {
    if t.micro == 0 {
      TruncateIsoNoFraction(t);
    } else if t.offset.None? {
      TruncateIsoNaive(t);
    } else {
      TruncateIsoAware(t);
    }
  }

  /** Only None and the empty string render as empty text. */
  lemma StringifyEmpty(v: Value)
    ensures Stringify(v) == "" <==> v == Null || v == Str("")
  {
    match v
    case DateTimeV(t) =>
      IsoSecondsPlain(t);
    case _ =>
  }

  /** parseBool reads back what stringify writes for a bool. */
  lemma ParseBoolOfStringify(b: bool)
    ensures ParseBool(Str(Stringify(Bool(b)))) == Ok(b)
  {
  }
}
