/** PropertyIsLike: the LIKE pattern compiler (`_pattern_to_regex`), the
    single-character token setters and the constructor's validation, and the
    match the compiled pattern performs.

    The compiler classifies every pattern character as a wildcard (WC), a
    single-character wildcard (SC), an escape (EC) or an ordinary character
    (kept as its `re.escape` text), then rewrites that list in place in two
    passes and joins it. `Scan` is an independent, one-pass description of
    the same translation; `PatternToRegex` is proved to produce exactly the
    pieces `Scan` describes. */
module Like {
  import opened Wrappers
  import opened PyValues
  import opened Utils
  import opened OgcBase
  import opened Mixins

  // ================================================================ re.escape

  /** The characters Python 3.6's `re.escape` leaves alone. */
  predicate IsWordChar(c: char)
  {
    ('a' <= c <= 'z') || ('A' <= c <= 'Z') || ('0' <= c <= '9') || c == '_'
  }

  /** `re.escape` of one character, Python 3.6 rules: every character but
      ASCII letters, digits and '_' gets a backslash; NUL becomes `\000`. */
  function ReEscape(c: char): (r: string)
    ensures IsWordChar(c) ==> r == [c]
    ensures !IsWordChar(c) ==> |r| >= 2 && r[0] == '\\'
    ensures r != "ECEC" && r != ".*" && r != "."
  {
    if IsWordChar(c) then [c]
    else if c == '\0' then "\\000"
    else ['\\', c]
  }

  // ================================================================ the in-place token list

  /** One slot of the compiler's `chars` list: the markers 'WC', 'SC' and
      'EC', or a piece of regex text. */
  datatype Tok = WC | SC | EC | Text(s: string)

  /** The first loop's classification, wildcard tested first. */
  function TokOf(c: char, wc: char, sc: char, ec: char): Tok
  {
    if c == wc then WC
    else if c == sc then SC
    else if c == ec then EC
    else Text(ReEscape(c))
  }

  function Classify(p: string, wc: char, sc: char, ec: char): (r: seq<Tok>)
    ensures |r| == |p|
  {
    seq(|p|, i requires 0 <= i < |p| => TokOf(p[i], wc, sc, ec))
  }

  /** What the first rewriting loop leaves: scanning left to right, an EC
      followed by an EC becomes the escaped escape character and an empty
      slot. */
  function Pair(ts: seq<Tok>, ec: char): (r: seq<Tok>)
    ensures |r| == |ts|
  {
    if |ts| < 2 then ts
    else if ts[0] == EC && ts[1] == EC then [Text(ReEscape(ec)), Text("")] + Pair(ts[2..], ec)
    else [ts[0]] + Pair(ts[1..], ec)
  }

  /** The text an unescaped marker becomes. */
  function MetaText(t: Tok): string
  {
    if t == WC then ".*" else "."
  }

  /** The text an escaped marker becomes. */
  function LiteralText(t: Tok, wc: char, sc: char): string
  {
    if t == WC then ReEscape(wc) else ReEscape(sc)
  }

  /** What the second rewriting loop leaves: a WC or SC right after an EC
      becomes its escaped character (and the EC an empty slot); any other
      WC or SC becomes `.*` or `.`. */
  function Unescape(ts: seq<Tok>, wc: char, sc: char): (r: seq<Tok>)
    ensures |r| == |ts|
  {
    if ts == [] then []
    else if |ts| >= 2 && ts[0] == EC && (ts[1] == WC || ts[1] == SC) then
      [Text(""), Text(LiteralText(ts[1], wc, sc))] + Unescape(ts[2..], wc, sc)
    else if ts[0] == WC || ts[0] == SC then [Text(MetaText(ts[0]))] + Unescape(ts[1..], wc, sc)
    else [ts[0]] + Unescape(ts[1..], wc, sc)
  }

  /** The text the joining loop appends for one slot. */
  function TokText(t: Tok): string
  {
    match t
    case EC => "\\"
    case Text(s) => if s == "ECEC" then "\\\\" else s
    case WC => "WC"
    case SC => "SC"
  }

  function JoinToks(ts: seq<Tok>): string
  {
    if ts == [] then "" else JoinToks(ts[..|ts| - 1]) + TokText(ts[|ts| - 1])
  }

  // ================================================================ the reference translation

  /** What one pattern position contributes to the compiled expression. */
  datatype Piece =
    | Star        // an unescaped wildcard: `.*`
    | Dot         // an unescaped single-character wildcard: `.`
    | Lit(c: char) // a character matched literally (re.escape'd)
    | Skip        // nothing (an escape that was consumed)
    | Lone        // an escape with nothing to escape: a raw backslash

  /** The translation, one pattern position per piece, read left to right:
      a doubled escape is one literal escape character; an escape before a
      wildcard or single-char makes that character literal; any other
      escape is a raw backslash; unescaped wildcards are `.*` and `.`; all
      other characters are literal. */
  function Scan(p: string, wc: char, sc: char, ec: char): (r: seq<Piece>)
    ensures |r| == |p|
  {
    if p == [] then []
    else
      var t0 := TokOf(p[0], wc, sc, ec);
      if t0 == EC && |p| >= 2 && TokOf(p[1], wc, sc, ec) == EC then [Lit(ec), Skip] + Scan(p[2..], wc, sc, ec)
      else if t0 == EC && |p| >= 2 && (TokOf(p[1], wc, sc, ec) == WC || TokOf(p[1], wc, sc, ec) == SC) then
        [Skip, Lit(p[1])] + Scan(p[2..], wc, sc, ec)
      else if t0 == EC then [Lone] + Scan(p[1..], wc, sc, ec)
      else if t0 == WC then [Star] + Scan(p[1..], wc, sc, ec)
      else if t0 == SC then [Dot] + Scan(p[1..], wc, sc, ec)
      else [Lit(p[0])] + Scan(p[1..], wc, sc, ec)
  }

  /** The slot a piece occupies in the compiler's list. */
  function PieceTok(pc: Piece): Tok
  {
    match pc
    case Star => Text(".*")
    case Dot => Text(".")
    case Lit(c) => Text(ReEscape(c))
    case Skip => Text("")
    case Lone => EC
  }

  function ToToks(ps: seq<Piece>): (r: seq<Tok>)
    ensures |r| == |ps|
  {
    seq(|ps|, i requires 0 <= i < |ps| => PieceTok(ps[i]))
  }

  /** The regular expression `_pattern_to_regex` returns, from the reference translation. */
  function LikeRegex(p: string, wc: char, sc: char, ec: char): string
  {
    "^" + JoinToks(ToToks(Scan(p, wc, sc, ec))) + "$"
  }

  // ---------------------------------------------------------------- equivalence of the two passes with Scan

  lemma PairCons(x: Tok, rest: seq<Tok>, ec: char)
    requires x != EC
    ensures Pair([x] + rest, ec) == [x] + Pair(rest, ec)
  {
    if |rest| >= 1 {
      assert ([x] + rest)[1..] == rest;
    }
  }

  lemma PairEscThen(x: Tok, rest: seq<Tok>, ec: char)
    requires x != EC
    ensures Pair([EC, x] + rest, ec) == [EC, x] + Pair(rest, ec)
  {
    var ts := [EC, x] + rest;
    assert ts[1..] == [x] + rest;
    assert Pair(ts, ec) == [EC] + Pair(ts[1..], ec);
    PairCons(x, rest, ec);
  }

  lemma PairEscEsc(rest: seq<Tok>, ec: char)
    ensures Pair([EC, EC] + rest, ec) == [Text(ReEscape(ec)), Text("")] + Pair(rest, ec)
  {
    assert ([EC, EC] + rest)[2..] == rest;
  }

  lemma UnescapeCons(x: Tok, rest: seq<Tok>, wc: char, sc: char)
    requires x != EC && x != WC && x != SC
    ensures Unescape([x] + rest, wc, sc) == [x] + Unescape(rest, wc, sc)
  {
    assert ([x] + rest)[1..] == rest;
  }

  lemma UnescapeLone(rest: seq<Tok>, wc: char, sc: char)
    requires rest == [] || (rest[0] != WC && rest[0] != SC)
    ensures Unescape([EC] + rest, wc, sc) == [EC] + Unescape(rest, wc, sc)
  {
    assert ([EC] + rest)[1..] == rest;
  }

  lemma UnescapeEscaped(x: Tok, rest: seq<Tok>, wc: char, sc: char)
    requires x == WC || x == SC
    ensures Unescape([EC, x] + rest, wc, sc) == [Text(""), Text(LiteralText(x, wc, sc))] + Unescape(rest, wc, sc)
  {
    assert ([EC, x] + rest)[2..] == rest;
  }

  lemma UnescapeMeta(x: Tok, rest: seq<Tok>, wc: char, sc: char)
    requires x == WC || x == SC
    ensures Unescape([x] + rest, wc, sc) == [Text(MetaText(x))] + Unescape(rest, wc, sc)
  {
    assert ([x] + rest)[1..] == rest;
  }

  lemma ClassifyCons(p: string, wc: char, sc: char, ec: char)
    requires |p| >= 1
    ensures Classify(p, wc, sc, ec) == [TokOf(p[0], wc, sc, ec)] + Classify(p[1..], wc, sc, ec)
  {
  }

  lemma ClassifyCons2(p: string, wc: char, sc: char, ec: char)
    requires |p| >= 2
    ensures Classify(p, wc, sc, ec) == [TokOf(p[0], wc, sc, ec), TokOf(p[1], wc, sc, ec)] + Classify(p[2..], wc, sc, ec)
  {
    ClassifyCons(p, wc, sc, ec);
    ClassifyCons(p[1..], wc, sc, ec);
    assert p[1..][1..] == p[2..];
  }

  lemma UnescapeTwoTexts(a: Tok, b: Tok, rest: seq<Tok>, wc: char, sc: char)
    requires a.Text? && b.Text?
    ensures Unescape([a, b] + rest, wc, sc) == [a, b] + Unescape(rest, wc, sc)
  {
    UnescapeCons(b, rest, wc, sc);
    assert [a, b] + rest == [a] + ([b] + rest);
    UnescapeCons(a, [b] + rest, wc, sc);
  }

  lemma ToToksCons(ps: seq<Piece>, qs: seq<Piece>)
    ensures ToToks(ps + qs) == ToToks(ps) + ToToks(qs)
  {
  }

  /** The property the two passes have for a pattern: they compute the reference translation. */
  predicate PassesAgree(p: string, wc: char, sc: char, ec: char)
  {
    Unescape(Pair(Classify(p, wc, sc, ec), ec), wc, sc) == ToToks(Scan(p, wc, sc, ec))
  }

  lemma AgreeEscEsc(p: string, wc: char, sc: char, ec: char)
    requires |p| >= 2 && TokOf(p[0], wc, sc, ec) == EC && TokOf(p[1], wc, sc, ec) == EC
    requires PassesAgree(p[2..], wc, sc, ec)
    ensures PassesAgree(p, wc, sc, ec)
  {
    var a, b := Text(ReEscape(ec)), Text("");
    var rest2 := Classify(p[2..], wc, sc, ec);
    ClassifyCons2(p, wc, sc, ec);
    PairEscEsc(rest2, ec);
    UnescapeTwoTexts(a, b, Pair(rest2, ec), wc, sc);
    var s := Scan(p[2..], wc, sc, ec);
    assert Scan(p, wc, sc, ec) == [Lit(ec), Skip] + s;
    ToToksCons([Lit(ec), Skip], s);
    assert ToToks([Lit(ec), Skip]) == [a, b];
  }

  lemma AgreeEscaped(p: string, wc: char, sc: char, ec: char)
    requires |p| >= 2 && TokOf(p[0], wc, sc, ec) == EC
    requires TokOf(p[1], wc, sc, ec) == WC || TokOf(p[1], wc, sc, ec) == SC
    requires PassesAgree(p[2..], wc, sc, ec)
    ensures PassesAgree(p, wc, sc, ec)
  {
    var t1 := TokOf(p[1], wc, sc, ec);
    var rest2 := Classify(p[2..], wc, sc, ec);
    ClassifyCons2(p, wc, sc, ec);
    PairEscThen(t1, rest2, ec);
    var r := Pair(rest2, ec);
    UnescapeEscaped(t1, r, wc, sc);
    var s := Scan(p[2..], wc, sc, ec);
    assert Scan(p, wc, sc, ec) == [Skip, Lit(p[1])] + s;
    ToToksCons([Skip, Lit(p[1])], s);
    assert LiteralText(t1, wc, sc) == ReEscape(p[1]);
    assert ToToks([Skip, Lit(p[1])]) == [Text(""), Text(LiteralText(t1, wc, sc))];
  }

  lemma AgreeLone(p: string, wc: char, sc: char, ec: char)
    requires |p| >= 1 && TokOf(p[0], wc, sc, ec) == EC
    requires |p| == 1 || TokOf(p[1], wc, sc, ec).Text?
    requires PassesAgree(p[1..], wc, sc, ec)
    ensures PassesAgree(p, wc, sc, ec)
  {
    var rest1 := Classify(p[1..], wc, sc, ec);
    ClassifyCons(p, wc, sc, ec);
    if |p| >= 2 {
      ClassifyCons(p[1..], wc, sc, ec);
      PairEscThen(rest1[0], rest1[1..], ec);
      PairCons(rest1[0], rest1[1..], ec);
      assert [EC] + rest1 == [EC, rest1[0]] + rest1[1..];
    }
    UnescapeLone(Pair(rest1, ec), wc, sc);
    ToToksCons([Lone], Scan(p[1..], wc, sc, ec));
  }

  lemma AgreeMeta(p: string, wc: char, sc: char, ec: char)
    requires |p| >= 1 && (TokOf(p[0], wc, sc, ec) == WC || TokOf(p[0], wc, sc, ec) == SC)
    requires PassesAgree(p[1..], wc, sc, ec)
    ensures PassesAgree(p, wc, sc, ec)
  {
    var t0 := TokOf(p[0], wc, sc, ec);
    var rest1 := Classify(p[1..], wc, sc, ec);
    ClassifyCons(p, wc, sc, ec);
    PairCons(t0, rest1, ec);
    UnescapeMeta(t0, Pair(rest1, ec), wc, sc);
    var pc := if t0 == WC then Star else Dot;
    assert Scan(p, wc, sc, ec) == [pc] + Scan(p[1..], wc, sc, ec);
    ToToksCons([pc], Scan(p[1..], wc, sc, ec));
  }

  lemma AgreeText(p: string, wc: char, sc: char, ec: char)
    requires |p| >= 1 && TokOf(p[0], wc, sc, ec).Text?
    requires PassesAgree(p[1..], wc, sc, ec)
    ensures PassesAgree(p, wc, sc, ec)
  {
    var t0 := TokOf(p[0], wc, sc, ec);
    var rest1 := Classify(p[1..], wc, sc, ec);
    ClassifyCons(p, wc, sc, ec);
    PairCons(t0, rest1, ec);
    UnescapeCons(t0, Pair(rest1, ec), wc, sc);
    assert Scan(p, wc, sc, ec) == [Lit(p[0])] + Scan(p[1..], wc, sc, ec);
    ToToksCons([Lit(p[0])], Scan(p[1..], wc, sc, ec));
  }

  /** The two in-place passes compute the reference translation. */
  lemma {:induction false} PassesMatchScan(p: string, wc: char, sc: char, ec: char)
    ensures Unescape(Pair(Classify(p, wc, sc, ec), ec), wc, sc) == ToToks(Scan(p, wc, sc, ec))
    decreases |p|
  {
    if p == [] {
      return;
    }
    var t0 := TokOf(p[0], wc, sc, ec);
    if t0 == WC || t0 == SC {
      PassesMatchScan(p[1..], wc, sc, ec);
      AgreeMeta(p, wc, sc, ec);
    } else if t0 != EC {
      PassesMatchScan(p[1..], wc, sc, ec);
      AgreeText(p, wc, sc, ec);
    } else if |p| >= 2 && TokOf(p[1], wc, sc, ec) == EC {
      PassesMatchScan(p[2..], wc, sc, ec);
      AgreeEscEsc(p, wc, sc, ec);
    } else if |p| >= 2 && (TokOf(p[1], wc, sc, ec) == WC || TokOf(p[1], wc, sc, ec) == SC) {
      PassesMatchScan(p[2..], wc, sc, ec);
      AgreeEscaped(p, wc, sc, ec);
    } else {
      PassesMatchScan(p[1..], wc, sc, ec);
      AgreeLone(p, wc, sc, ec);
    }
  }

  // ---------------------------------------------------------------- the compiler

  /** The first loop: one slot per pattern character. */
  method Tokenize(pattern: string, wc: char, sc: char, ec: char) returns (chars: seq<Tok>)
    ensures chars == Classify(pattern, wc, sc, ec)
  {
    chars := [];
    var k := 0;
    while k < |pattern|
      invariant 0 <= k <= |pattern|
      invariant chars == Classify(pattern[..k], wc, sc, ec)
    {
      chars := chars + [TokOf(pattern[k], wc, sc, ec)];
      k := k + 1;
    }
    assert pattern[..|pattern|] == pattern;
  }

  /** What the second loop has produced once it has looked at slots
      before i: the prefix it has rewritten, then `Pair` of the rest. */
  function PairState(chars: seq<Tok>, i: nat, ec: char): seq<Tok>
    requires i <= |chars|
  {
    chars[..i] + Pair(chars[i..], ec)
  }

  lemma PairStepEscEsc(chars: seq<Tok>, i: nat, ec: char)
    requires i + 1 < |chars| && chars[i] == EC && chars[i + 1] == EC
    ensures PairState(chars[i := Text(ReEscape(ec))][i + 1 := Text("")], i + 1, ec) == PairState(chars, i, ec)
  {
    var a := Text(ReEscape(ec));
    var next := chars[i := a][i + 1 := Text("")];
    var rest := chars[i + 2..];
    assert chars[i..] == [EC, EC] + rest;
    PairEscEsc(rest, ec);
    assert next[i + 1..] == [Text("")] + rest;
    PairCons(Text(""), rest, ec);
    assert next[..i + 1] == chars[..i] + [a];
    assert PairState(next, i + 1, ec) == chars[..i] + [a] + ([Text("")] + Pair(rest, ec));
    assert PairState(chars, i, ec) == chars[..i] + ([a, Text("")] + Pair(rest, ec));
    TokShift(chars[..i], a, Text(""), Pair(rest, ec));
  }

  lemma TokShift(h: seq<Tok>, a: Tok, b: Tok, t: seq<Tok>)
    ensures h + [a] + ([b] + t) == h + ([a, b] + t)
  {
  }

  lemma PairStepKeep(chars: seq<Tok>, i: nat, ec: char)
    requires i + 1 < |chars| && !(chars[i] == EC && chars[i + 1] == EC)
    ensures PairState(chars, i + 1, ec) == PairState(chars, i, ec)
  {
    assert chars[i..][1..] == chars[i + 1..];
    assert Pair(chars[i..], ec) == [chars[i]] + Pair(chars[i + 1..], ec);
    assert chars[..i + 1] == chars[..i] + [chars[i]];
  }

  lemma PairStateDone(chars: seq<Tok>, i: nat, ec: char)
    requires i <= |chars| && |chars| - i < 2
    ensures PairState(chars, i, ec) == chars
  {
    assert chars == chars[..i] + chars[i..];
  }

  /** The second loop, in place: a doubled escape becomes the escaped
      escape character followed by an empty slot. */
  method PairPass(tokens: seq<Tok>, ec: char) returns (chars: seq<Tok>)
    ensures chars == Pair(tokens, ec)
  {
    chars := tokens;
    var n := |chars|;
    var i := 0;
    while i < n - 1
      invariant 0 <= i <= (if n > 0 then n - 1 else 0)
      invariant |chars| == n
      invariant PairState(chars, i, ec) == Pair(tokens, ec)
    {
      if chars[i] == EC && chars[i + 1] == EC {
        PairStepEscEsc(chars, i, ec);
        chars := chars[i := Text(ReEscape(ec))][i + 1 := Text("")];
      } else {
        PairStepKeep(chars, i, ec);
      }
      i := i + 1;
    }
    PairStateDone(chars, i, ec);
  }

  /** What the third loop has produced once it has looked at slots before
      i: the rewritten prefix, then `Unescape` of the rest, where an EC in
      slot i - 1 still counts as part of the rest (it may escape slot i). */
  function UnescapeState(chars: seq<Tok>, i: nat, wc: char, sc: char): seq<Tok>
    requires i <= |chars|
  {
    if i > 0 && chars[i - 1] == EC then chars[..i - 1] + Unescape(chars[i - 1..], wc, sc)
    else chars[..i] + Unescape(chars[i..], wc, sc)
  }

  lemma UnescapeStepEscaped(chars: seq<Tok>, i: nat, wc: char, sc: char)
    requires 0 < i < |chars| && chars[i - 1] == EC && (chars[i] == WC || chars[i] == SC)
    ensures UnescapeState(chars[i - 1 := Text("")][i := Text(LiteralText(chars[i], wc, sc))], i + 1, wc, sc)
         == UnescapeState(chars, i, wc, sc)
  {
    var pre, rest := chars[..i - 1], chars[i + 1..];
    var a, b := Text(""), Text(LiteralText(chars[i], wc, sc));
    var next := chars[i - 1 := a][i := b];
    assert chars[i - 1..] == [EC, chars[i]] + rest;
    UnescapeEscaped(chars[i], rest, wc, sc);
    assert UnescapeState(chars, i, wc, sc) == pre + ([a, b] + Unescape(rest, wc, sc));
    assert next[..i + 1] == pre + [a, b];
    assert next[i + 1..] == rest;
    assert UnescapeState(next, i + 1, wc, sc) == (pre + [a, b]) + Unescape(rest, wc, sc);
  }

  lemma UnescapeStepMeta(chars: seq<Tok>, i: nat, wc: char, sc: char)
    requires i < |chars| && !(i > 0 && chars[i - 1] == EC) && (chars[i] == WC || chars[i] == SC)
    ensures UnescapeState(chars[i := Text(MetaText(chars[i]))], i + 1, wc, sc) == UnescapeState(chars, i, wc, sc)
  {
    var m := Text(MetaText(chars[i]));
    var next := chars[i := m];
    var rest := chars[i + 1..];
    assert chars[i..] == [chars[i]] + rest;
    UnescapeMeta(chars[i], rest, wc, sc);
    assert UnescapeState(chars, i, wc, sc) == chars[..i] + ([m] + Unescape(rest, wc, sc));
    assert next[..i + 1] == chars[..i] + [m];
    assert next[i + 1..] == rest;
    assert UnescapeState(next, i + 1, wc, sc) == chars[..i] + [m] + Unescape(rest, wc, sc);
    TokCons(chars[..i], m, Unescape(rest, wc, sc));
  }

  lemma TokCons(h: seq<Tok>, a: Tok, t: seq<Tok>)
    ensures h + [a] + t == h + ([a] + t)
  {
  }

  lemma UnescapeStepPlain(chars: seq<Tok>, i: nat, wc: char, sc: char)
    requires i < |chars| && chars[i] != WC && chars[i] != SC && chars[i] != EC
    ensures chars[..i + 1] + Unescape(chars[i + 1..], wc, sc) == chars[..i] + Unescape(chars[i..], wc, sc)
  {
    assert chars[i..] == [chars[i]] + chars[i + 1..];
    UnescapeCons(chars[i], chars[i + 1..], wc, sc);
    assert chars[..i + 1] == chars[..i] + [chars[i]];
  }

  lemma UnescapeStepAfterLone(chars: seq<Tok>, i: nat, wc: char, sc: char)
    requires 0 < i < |chars| && chars[i] != WC && chars[i] != SC && chars[i - 1] == EC
    ensures chars[..i] + Unescape(chars[i..], wc, sc) == chars[..i - 1] + Unescape(chars[i - 1..], wc, sc)
  {
    var rest := chars[i..];
    assert chars[i - 1..] == [EC] + rest;
    UnescapeLone(rest, wc, sc);
    assert chars[..i] == chars[..i - 1] + [EC];
  }

  lemma UnescapeStepKeep(chars: seq<Tok>, i: nat, wc: char, sc: char)
    requires i < |chars| && chars[i] != WC && chars[i] != SC
    ensures UnescapeState(chars, i + 1, wc, sc) == UnescapeState(chars, i, wc, sc)
  {
    if i > 0 && chars[i - 1] == EC {
      UnescapeStepAfterLone(chars, i, wc, sc);
    }
    if chars[i] != EC {
      UnescapeStepPlain(chars, i, wc, sc);
    }
  }

  lemma UnescapeStateDone(chars: seq<Tok>, wc: char, sc: char)
    ensures UnescapeState(chars, |chars|, wc, sc) == chars
  {
    var n := |chars|;
    if n > 0 && chars[n - 1] == EC {
      assert chars[n - 1..] == [EC];
      assert chars == chars[..n - 1] + [EC];
    } else {
      assert chars == chars[..n];
    }
  }

  /** The third loop, in place: a WC or SC right after an EC becomes its
      escaped character and the EC an empty slot; any other WC or SC
      becomes `.*` or `.`. */
  method UnescapePass(paired: seq<Tok>, wc: char, sc: char) returns (chars: seq<Tok>)
    ensures chars == Unescape(paired, wc, sc)
  {
    chars := paired;
    var n := |chars|;
    var i := 0;
    while i < n
      invariant 0 <= i <= n && |chars| == n
      invariant UnescapeState(chars, i, wc, sc) == Unescape(paired, wc, sc)
    {
      if chars[i] == SC || chars[i] == WC {
        if i > 0 && chars[i - 1] == EC {
          UnescapeStepEscaped(chars, i, wc, sc);
          chars := chars[i - 1 := Text("")][i := Text(LiteralText(chars[i], wc, sc))];
        } else {
          UnescapeStepMeta(chars, i, wc, sc);
          chars := chars[i := Text(MetaText(chars[i]))];
        }
      } else {
        UnescapeStepKeep(chars, i, wc, sc);
      }
      i := i + 1;
    }
    UnescapeStateDone(chars, wc, sc);
  }

  /** The last loop: concatenate the slots' texts. */
  method JoinPass(chars: seq<Tok>) returns (regex: string)
    ensures regex == JoinToks(chars)
  {
    regex := "";
    var k := 0;
    while k < |chars|
      invariant 0 <= k <= |chars|
      invariant regex == JoinToks(chars[..k])
    {
      assert chars[..k + 1][..k] == chars[..k];
      regex := regex + TokText(chars[k]);
      k := k + 1;
    }
    assert chars[..|chars|] == chars;
  }

  /** `_pattern_to_regex`: classify, pair doubled escapes, resolve escaped
      and unescaped wildcards, join, anchor. */
  method PatternToRegex(pattern: string, wc: char, sc: char, ec: char) returns (regex: string)
    ensures regex == LikeRegex(pattern, wc, sc, ec)
  {
    var tokens := Tokenize(pattern, wc, sc, ec);
    var paired := PairPass(tokens, ec);
    var chars := UnescapePass(paired, wc, sc);
    PassesMatchScan(pattern, wc, sc, ec);
    var body := JoinPass(chars);
    regex := "^" + body + "$";
  }

  // ================================================================ matching

  /** One literal character against one text character; with re.I two
      characters also match when their lower-case forms agree. */
  predicate CharMatches(c: char, d: char, ignoreCase: bool)
  {
    c == d || (ignoreCase && LowerChar(c) == LowerChar(d))
  }

  /** Whether the pieces, read as the regular expression they render to,
      match the whole of `s`. `.` and `.*` do not cross a newline. */
  predicate FullMatch(ps: seq<Piece>, s: string, ignoreCase: bool)
    decreases |ps|, |s|, 1
  {
    if ps == [] then s == []
    else match ps[0]
      case Skip => FullMatch(ps[1..], s, ignoreCase)
      case Lit(c) => s != [] && CharMatches(c, s[0], ignoreCase) && FullMatch(ps[1..], s[1..], ignoreCase)
      case Dot => s != [] && s[0] != '\n' && FullMatch(ps[1..], s[1..], ignoreCase)
      case Star => StarMatch(ps[1..], s, ignoreCase)
      case Lone => false
  }

  /** `.*` followed by `rest` matches `s`: some prefix without a newline is
      consumed by the star and `rest` matches what is left. */
  predicate StarMatch(rest: seq<Piece>, s: string, ignoreCase: bool)
    decreases |rest| + 1, |s|, 0
  {
    FullMatch(rest, s, ignoreCase) || (s != [] && s[0] != '\n' && StarMatch(rest, s[1..], ignoreCase))
  }

  /** `re.match('^' + body + '$', text, flags) is not None`: `$` also
      matches before a final newline. A raw backslash (an escape with
      nothing to escape) combines with the next regex character in ways the
      model does not follow, so that case is reported as Unmodelled. */
  function LikeMatch(ps: seq<Piece>, text: string, ignoreCase: bool): (r: Result<bool>)
    ensures r.Err? <==> Lone in ps
    ensures r.Err? ==> r.error == Unmodelled
    ensures Lone !in ps ==>
      (r == Ok(true) <==> FullMatch(ps, text, ignoreCase)
                          || (text != [] && text[|text| - 1] == '\n' && FullMatch(ps, text[..|text| - 1], ignoreCase)))
  {
    if Lone in ps then Err(Unmodelled)
    else
      var body := DollarEnd(text);
      Ok(FullMatch(ps, text, ignoreCase) || (body != text && FullMatch(ps, body, ignoreCase)))
  }

  /** The pieces of a pattern without wildcard, single-char or escape characters. */
  function Lits(p: string): (r: seq<Piece>)
    ensures |r| == |p|
  {
    seq(|p|, i requires 0 <= i < |p| => Lit(p[i]))
  }

  predicate Ordinary(p: string, wc: char, sc: char, ec: char)
  {
    forall i :: 0 <= i < |p| ==> p[i] != wc && p[i] != sc && p[i] != ec
  }

  lemma {:induction false} ScanOrdinary(p: string, wc: char, sc: char, ec: char)
    requires Ordinary(p, wc, sc, ec)
    ensures Scan(p, wc, sc, ec) == Lits(p)
    decreases |p|
  {
    if p != [] {
      assert Ordinary(p[1..], wc, sc, ec) by {
        forall i | 0 <= i < |p[1..]| ensures p[1..][i] != wc && p[1..][i] != sc && p[1..][i] != ec {
          assert p[1..][i] == p[i + 1];
        }
      }
      ScanOrdinary(p[1..], wc, sc, ec);
      assert Lits(p) == [Lit(p[0])] + Lits(p[1..]);
    }
  }

  lemma {:induction false} LitsMatchExactly(p: string, s: string)
    ensures FullMatch(Lits(p), s, false) <==> s == p
    decreases |p|
  {
    if p != [] {
      assert Lits(p)[1..] == Lits(p[1..]);
      if s != [] {
        LitsMatchExactly(p[1..], s[1..]);
        if s[0] == p[0] && s[1..] == p[1..] {
          assert s == [s[0]] + s[1..] && p == [p[0]] + p[1..];
        }
      }
    }
  }

  /** A pattern without special characters matches exactly its own text
      (or that text followed by one newline) when case matters. */
  lemma OrdinaryPatternMatchesItself(p: string, wc: char, sc: char, ec: char, s: string)
    requires Ordinary(p, wc, sc, ec)
    ensures LikeMatch(Scan(p, wc, sc, ec), s, false) == Ok(s == p || s == p + "\n")
  {
    ScanOrdinary(p, wc, sc, ec);
    assert Lone !in Lits(p);
    LitsMatchExactly(p, s);
    LitsMatchExactly(p, DollarEnd(s));
  }

  lemma {:induction false} StarMatchesLine(s: string, ignoreCase: bool)
    ensures StarMatch([], s, ignoreCase) <==> NoNewline(s)
    decreases |s|
  {
    if s != [] {
      StarMatchesLine(s[1..], ignoreCase);
      assert NoNewline(s) <==> s[0] != '\n' && NoNewline(s[1..]);
    }
  }

  /** A pattern made of the wildcard alone matches any text whose only
      newline, if any, is the last character. */
  lemma WildcardAloneMatchesAnyLine(wc: char, sc: char, ec: char, s: string)
    ensures LikeMatch(Scan([wc], wc, sc, ec), s, false) == Ok(NoNewline(DollarEnd(s)))
  {
    assert Scan([wc], wc, sc, ec) == [Star];
    StarMatchesLine(s, false);
    StarMatchesLine(DollarEnd(s), false);
    if DollarEnd(s) != s {
      assert s[|s| - 1] == '\n';
      assert !NoNewline(s);
    }
  }

  /** An escaped wildcard or single-char is matched literally. */
  lemma EscapedSpecialIsLiteral(wc: char, sc: char, ec: char, c: char)
    requires wc != sc && wc != ec && sc != ec && (c == wc || c == sc)
    ensures Scan([ec, c], wc, sc, ec) == [Skip, Lit(c)]
    ensures LikeMatch(Scan([ec, c], wc, sc, ec), [c], false) == Ok(true)
  {
    assert [ec, c][2..] == [];
    var ps := [Skip, Lit(c)];
    assert ps[1..] == [Lit(c)] && [Lit(c)][1..] == [] && [c][1..] == [];
    assert FullMatch([Lit(c)], [c], false);
    assert FullMatch(ps, [c], false);
  }

  /** The reading of p ends on a position boundary: p does not end in an
      escape left waiting for the character after it. */
  predicate ScanClosed(p: string, wc: char, sc: char, ec: char)
  {
    p == [] || Scan(p, wc, sc, ec)[|p| - 1] != Lone
  }

  /** An escape pair at the front of p is read the same with text after p. */
  lemma ScanPairFront(p: string, x: string, wc: char, sc: char, ec: char)
    requires |p| >= 2 && TokOf(p[0], wc, sc, ec) == EC
    requires TokOf(p[1], wc, sc, ec) in {EC, WC, SC}
    ensures Scan(p, wc, sc, ec) == Scan(p, wc, sc, ec)[..2] + Scan(p[2..], wc, sc, ec)
    ensures Scan(p + x, wc, sc, ec) == Scan(p, wc, sc, ec)[..2] + Scan(p[2..] + x, wc, sc, ec)
    ensures ScanClosed(p, wc, sc, ec) ==> ScanClosed(p[2..], wc, sc, ec)
  {
    var px := p + x;
    assert px[0] == p[0] && px[1] == p[1] && px[2..] == p[2..] + x;
    if p[2..] != [] {
      assert Scan(p, wc, sc, ec)[|p| - 1] == Scan(p[2..], wc, sc, ec)[|p| - 3];
    }
  }

  /** A single position at the front of p that does not pair with the
      character after it is read the same with text after p. */
  lemma ScanOneFront(p: string, x: string, wc: char, sc: char, ec: char)
    requires p != [] && ScanClosed(p, wc, sc, ec)
    requires !(|p| >= 2 && TokOf(p[0], wc, sc, ec) == EC && TokOf(p[1], wc, sc, ec) in {EC, WC, SC})
    ensures Scan(p, wc, sc, ec) == Scan(p, wc, sc, ec)[..1] + Scan(p[1..], wc, sc, ec)
    ensures Scan(p + x, wc, sc, ec) == Scan(p, wc, sc, ec)[..1] + Scan(p[1..] + x, wc, sc, ec)
    ensures ScanClosed(p[1..], wc, sc, ec)
  {
    var px := p + x;
    assert px[0] == p[0] && px[1..] == p[1..] + x;
    if |p| >= 2 {
      assert px[1] == p[1];
      assert Scan(p, wc, sc, ec)[|p| - 1] == Scan(p[1..], wc, sc, ec)[|p| - 2];
    }
  }

  /** Text appended after a closed prefix is read on its own. */
  lemma {:induction false} ScanAppend(p: string, x: string, wc: char, sc: char, ec: char)
    requires ScanClosed(p, wc, sc, ec)
    ensures Scan(p + x, wc, sc, ec) == Scan(p, wc, sc, ec) + Scan(x, wc, sc, ec)
    decreases |p|
  {
    if p == [] {
      assert p + x == x;
    } else if |p| >= 2 && TokOf(p[0], wc, sc, ec) == EC && TokOf(p[1], wc, sc, ec) in {EC, WC, SC} {
      ScanPairFront(p, x, wc, sc, ec);
      ScanAppend(p[2..], x, wc, sc, ec);
      PiecesAssoc(Scan(p, wc, sc, ec)[..2], Scan(p[2..], wc, sc, ec), Scan(x, wc, sc, ec));
    } else {
      ScanOneFront(p, x, wc, sc, ec);
      ScanAppend(p[1..], x, wc, sc, ec);
      PiecesAssoc(Scan(p, wc, sc, ec)[..1], Scan(p[1..], wc, sc, ec), Scan(x, wc, sc, ec));
    }
  }

  lemma PiecesAssoc(h: seq<Piece>, a: seq<Piece>, b: seq<Piece>)
    ensures h + (a + b) == (h + a) + b
  {
  }

  /** An escaped wildcard or single-char anywhere in a pattern is one
      literal piece, and the text before and after it is read as if it
      stood alone. */
  lemma EscapedSpecialInContext(p: string, q: string, wc: char, sc: char, ec: char, c: char)
    requires wc != sc && wc != ec && sc != ec && (c == wc || c == sc)
    requires ScanClosed(p, wc, sc, ec)
    ensures Scan(p + [ec, c] + q, wc, sc, ec) == Scan(p, wc, sc, ec) + [Skip, Lit(c)] + Scan(q, wc, sc, ec)
  {
    var e := [ec, c] + q;
    assert p + [ec, c] + q == p + e;
    ScanAppend(p, e, wc, sc, ec);
    assert e[0] == ec && e[1] == c && e[2..] == q;
  }

  // ================================================================ PropertyIsLike

  /** A PropertyIsLike as `simulate` reads it through its getters. */
  datatype LikeOp = LikeOp(prop: Expr, pattern: string, wc: char, sc: char, ec: char, matchCase: bool)

  /** `_validate_and_set`'s check: a str of exactly one character. */
  function TokenOf(obj: Obj): (r: Result<char>)
    ensures r.Ok? <==> obj.Scalar? && obj.v.Str? && |obj.v.s| == 1
    ensures r.Ok? ==> obj.v.s == [r.value]
    ensures r.Err? ==> (r.error == TypeError <==> !(obj.Scalar? && obj.v.Str?))
    ensures r.Err? ==> r.error == TypeError || r.error == ValueError
  {
    if !(obj.Scalar? && obj.v.Str?) then Err(TypeError)
    else if |obj.v.s| != 1 then Err(ValueError)
    else Ok(obj.v.s[0])
  }

  /** The wildCard, singleChar and escapeChar setters. */
  method SetToken(el: Element, name: string, obj: Obj) returns (err: Option<Error>)
    modifies el
    ensures el.children == old(el.children)
    ensures TokenOf(obj).Err? ==> err == Some(TokenOf(obj).error) && el.attrib == old(el.attrib)
    ensures TokenOf(obj).Ok? ==> err == None && el.attrib == old(el.attrib)[name := [TokenOf(obj).value]]
  {
    if !(obj.Scalar? && obj.v.Str?) {
      return Some(TypeError);
    }
    if |obj.v.s| != 1 {
      return Some(ValueError);
    }
    el.attrib := el.attrib[name := obj.v.s];
    err := None;
  }

  /** What the pattern setter stores: a str becomes a Literal of that text,
      a Literal is kept, anything else is refused. */
  function PatternOf(obj: Obj): (r: Option<Expr>)
    ensures r.Some? <==> (obj.Scalar? && obj.v.Str?) || (obj.Node? && obj.e.Literal?)
    ensures r.Some? ==> r.value.Literal?
    ensures obj.Scalar? && obj.v.Str? ==> r == Some(Literal(obj.v.s))
  {
    if obj.Scalar? && obj.v.Str? then Some(NewLiteral(obj.v))
    else if obj.Node? && obj.e.Literal? then Some(obj.e)
    else None
  }

  /** The pattern setter. */
  method SetPattern(el: Element, obj: Obj) returns (err: Option<Error>)
    modifies el
    ensures el.attrib == old(el.attrib)
    ensures PatternOf(obj).None? ==> err == Some(TypeError) && el.children == old(el.children)
    ensures PatternOf(obj).Some? ==> err == None && el.children == OdPut(old(el.children), Name("pattern"), PatternOf(obj).value)
  {
    var p := PatternOf(obj);
    if p.None? {
      return Some(TypeError);
    }
    el.children := OdPut(el.children, Name("pattern"), p.value);
    err := None;
  }

  /** An attribute holding exactly one character. */
  predicate HasChar(attrib: map<string, string>, name: string)
  {
    name in attrib && |attrib[name]| == 1
  }

  /** The getters `simulate` goes through; None when one of them would
      return None (no element built by the constructor is in that state). */
  function ReadLike(el: Element): (r: Option<LikeOp>)
    reads el
    ensures r.Some? ==> r.value.matchCase == el.MatchCase()
    ensures r.Some? ==> Some(r.value.prop) == el.PropertyNameChild()
  {
    var prop := el.PropertyNameChild();
    var pat := OdGet(el.children, Name("pattern"));
    if prop.Some? && pat.Some? && pat.value.Literal?
       && HasChar(el.attrib, "wildCard") && HasChar(el.attrib, "singleChar") && HasChar(el.attrib, "escapeChar")
    then Some(LikeOp(prop.value, pat.value.text, el.attrib["wildCard"][0], el.attrib["singleChar"][0],
                     el.attrib["escapeChar"][0], el.MatchCase()))
    else None
  }

  /** `validate()`: ValueError unless the three characters differ. */
  function Validate(wc: char, sc: char, ec: char): (r: Option<Error>)
    ensures r.None? <==> wc != sc && wc != ec && sc != ec
    ensures r.Some? ==> r.value == ValueError
  {
    if wc == sc || wc == ec || sc == ec then Some(ValueError) else None
  }

  /** The constructor's checks once the five setters have succeeded:
      characters that are not pairwise different raise IllegalValue, then
      the matchCase setter may raise. */
  function LikeTail(prop: Expr, pattern: string, wc: char, sc: char, ec: char, matchCase: Obj): (r: Result<LikeOp>)
    ensures r.Ok? ==> Validate(r.value.wc, r.value.sc, r.value.ec).None?
    ensures r == Err(IllegalValue) <==> Validate(wc, sc, ec).Some?
  {
    if wc == sc || wc == ec || sc == ec then Err(IllegalValue)
    else if matchCase != Scalar(Null) && MatchCaseText(matchCase).None? then Err(ValueError)
    else Ok(LikeOp(prop, pattern, wc, sc, ec, matchCase == Scalar(Null) || SaysTrue(matchCase)))
  }

  /** What `PropertyIsLike(propertyname, pattern, wildCard, singleChar,
      escapeChar, matchCase)` produces: each setter in turn may raise, then
      LikeTail's checks apply. */
  function LikeSpec(propertyname: Obj, pattern: Obj, wildCard: Obj, singleChar: Obj, escapeChar: Obj, matchCase: Obj): (r: Result<LikeOp>)
    ensures r.Ok? ==> Validate(r.value.wc, r.value.sc, r.value.ec).None?
    ensures r.Ok? ==> r.value.prop.PropertyName?
    ensures r.Ok? ==> Ok(r.value.wc) == TokenOf(wildCard) && Ok(r.value.sc) == TokenOf(singleChar) && Ok(r.value.ec) == TokenOf(escapeChar)
    ensures r == Err(IllegalValue) <==>
      PropertyNameOf(propertyname).Some? && PatternOf(pattern).Some?
      && TokenOf(wildCard).Ok? && TokenOf(singleChar).Ok? && TokenOf(escapeChar).Ok?
      && Validate(TokenOf(wildCard).value, TokenOf(singleChar).value, TokenOf(escapeChar).value).Some?
  {
    if PropertyNameOf(propertyname).None? then Err(TypeError)
    else if PatternOf(pattern).None? then Err(TypeError)
    else if TokenOf(wildCard).Err? then Err(TokenOf(wildCard).error)
    else if TokenOf(singleChar).Err? then Err(TokenOf(singleChar).error)
    else if TokenOf(escapeChar).Err? then Err(TokenOf(escapeChar).error)
    else LikeTail(PropertyNameOf(propertyname).value, PatternOf(pattern).value.text,
                  TokenOf(wildCard).value, TokenOf(singleChar).value, TokenOf(escapeChar).value, matchCase)
  }

  /** The constructor's first two setters, on a fresh element. */
  method InitLike(propertyname: Obj, pattern: Obj) returns (el: Element, err: Option<Error>)
    ensures fresh(el)
    ensures el.attrib == map[]
    ensures err.Some? <==> PropertyNameOf(propertyname).None? || PatternOf(pattern).None?
    ensures err.Some? ==> err.value == TypeError
    ensures err.None? ==> el.PropertyNameChild() == PropertyNameOf(propertyname)
    ensures err.None? ==> OdGet(el.children, Name("pattern")) == PatternOf(pattern)
  {
    el := new Element();
    err := SetPropertyName(el, propertyname);
    if err.Some? {
      return;
    }
    var withProp := el.children;
    err := SetPattern(el, pattern);
    if err.Some? {
      return;
    }
    OdPutGet(withProp, Name("pattern"), PatternOf(pattern).value, Name("propertyName"));
  }

  /** The three token setters, in the constructor's order. */
  method SetTokens(el: Element, wildCard: Obj, singleChar: Obj, escapeChar: Obj) returns (err: Option<Error>)
    modifies el
    ensures el.children == old(el.children)
    ensures TokenOf(wildCard).Err? ==> err == Some(TokenOf(wildCard).error)
    ensures TokenOf(wildCard).Ok? && TokenOf(singleChar).Err? ==> err == Some(TokenOf(singleChar).error)
    ensures TokenOf(wildCard).Ok? && TokenOf(singleChar).Ok? && TokenOf(escapeChar).Err? ==> err == Some(TokenOf(escapeChar).error)
    ensures TokenOf(wildCard).Ok? && TokenOf(singleChar).Ok? && TokenOf(escapeChar).Ok? ==>
      err == None && el.attrib == old(el.attrib)["wildCard" := wildCard.v.s]["singleChar" := singleChar.v.s]["escapeChar" := escapeChar.v.s]
  {
    err := SetToken(el, "wildCard", wildCard);
    if err.Some? {
      return;
    }
    err := SetToken(el, "singleChar", singleChar);
    if err.Some? {
      return;
    }
    err := SetToken(el, "escapeChar", escapeChar);
  }

  lemma ReadBack(el: Element, l: LikeOp)
    requires el.PropertyNameChild() == Some(l.prop)
    requires OdGet(el.children, Name("pattern")) == Some(Literal(l.pattern))
    requires el.attrib - {"matchCase"} == map["wildCard" := [l.wc], "singleChar" := [l.sc], "escapeChar" := [l.ec]]
    requires l.matchCase == el.MatchCase()
    ensures ReadLike(el) == Some(l)
  {
    var a := el.attrib - {"matchCase"};
    assert "wildCard" in a && "singleChar" in a && "escapeChar" in a;
  }

  lemma WithoutMatchCase(m: map<string, string>, v: string)
    requires "matchCase" !in m
    ensures m["matchCase" := v] - {"matchCase"} == m && m - {"matchCase"} == m
  {
  }

  /** The constructor's last steps, on an element whose five setters have run. */
  method FinishLike(el: Element, prop: Expr, pattern: string, wc: char, sc: char, ec: char, matchCase: Obj)
    returns (r: Result<LikeOp>)
    requires el.PropertyNameChild() == Some(prop)
    requires OdGet(el.children, Name("pattern")) == Some(Literal(pattern))
    requires el.attrib == map["wildCard" := [wc], "singleChar" := [sc], "escapeChar" := [ec]]
    modifies el
    ensures r == LikeTail(prop, pattern, wc, sc, ec, matchCase)
    ensures r.Ok? ==> ReadLike(el) == Some(r.value)
  {
    if wc == sc || wc == ec || sc == ec {
      return Err(IllegalValue);
    }
    ghost var before := el.attrib;
    var err := SetMatchCase(el, matchCase);
    if err.Some? {
      return Err(err.value);
    }
    WithoutMatchCase(before, if "matchCase" in el.attrib then el.attrib["matchCase"] else "");
    assert el.attrib - {"matchCase"} == before;
    r := Ok(LikeOp(prop, pattern, wc, sc, ec, el.MatchCase()));
    ReadBack(el, r.value);
  }

  /** The constructor, on a fresh element, setter by setter. The closing
      `validate()` cannot fail (LikeSpec's first postcondition), so the
      method does not repeat it. */
  method NewLike(propertyname: Obj, pattern: Obj, wildCard: Obj, singleChar: Obj, escapeChar: Obj, matchCase: Obj)
    returns (el: Element, r: Result<LikeOp>)
    ensures fresh(el)
    ensures r == LikeSpec(propertyname, pattern, wildCard, singleChar, escapeChar, matchCase)
    ensures r.Ok? ==> ReadLike(el) == Some(r.value)
  {
    var err;
    el, err := InitLike(propertyname, pattern);
    if err.Some? {
      return el, Err(err.value);
    }
    err := SetTokens(el, wildCard, singleChar, escapeChar);
    if err.Some? {
      return el, Err(err.value);
    }
    var wc, sc, ec := TokenOf(wildCard).value, TokenOf(singleChar).value, TokenOf(escapeChar).value;
    assert el.attrib == map["wildCard" := [wc], "singleChar" := [sc], "escapeChar" := [ec]];
    r := FinishLike(el, PropertyNameOf(propertyname).value, PatternOf(pattern).value.text, wc, sc, ec, matchCase);
  }

  /** `simulate(data)`: validate and compile the pattern, evaluate the
      property, and match the text `stringify` gives its value, ignoring
      case unless matchCase. */
  function EvalLike(l: LikeOp, data: Data): (r: Result<bool>)
    ensures Validate(l.wc, l.sc, l.ec).Some? ==> r == Err(ValueError)
    ensures Validate(l.wc, l.sc, l.ec).None? && Simulate(l.prop, data).Err? ==> r == Err(Simulate(l.prop, data).error)
  {
    if Validate(l.wc, l.sc, l.ec).Some? then Err(ValueError)
    else
      var v :- Simulate(l.prop, data);
      LikeMatch(Scan(l.pattern, l.wc, l.sc, l.ec), Stringify(v), !l.matchCase)
  }

  predicate IsAsciiLetter(c: char) { IsAsciiUpper(c) || ('a' <= c <= 'z') }

  /** matchCase only decides whether letters of different case match: on a
      pattern without letters it makes no difference. */
  lemma {:induction false} CaseOnlyAffectsLetters(ps: seq<Piece>, s: string)
    requires forall i :: 0 <= i < |ps| ==> (ps[i].Lit? ==> !IsAsciiLetter(ps[i].c))
    ensures FullMatch(ps, s, true) == FullMatch(ps, s, false)
    decreases |ps|, |s|, 1
  {
    if ps != [] {
      assert forall i :: 0 <= i < |ps[1..]| ==> ps[1..][i] == ps[i + 1];
      match ps[0]
      case Skip => CaseOnlyAffectsLetters(ps[1..], s);
      case Lit(c) =>
        if s != [] {
          CaseOnlyAffectsLetters(ps[1..], s[1..]);
          assert LowerChar(c) == c;
          if LowerChar(s[0]) == c {
            assert s[0] == c;
          }
        }
      case Dot =>
        if s != [] {
          CaseOnlyAffectsLetters(ps[1..], s[1..]);
        }
      case Star => StarCaseOnlyAffectsLetters(ps[1..], s);
      case Lone =>
    }
  }

  lemma {:induction false} StarCaseOnlyAffectsLetters(rest: seq<Piece>, s: string)
    requires forall i :: 0 <= i < |rest| ==> (rest[i].Lit? ==> !IsAsciiLetter(rest[i].c))
    ensures StarMatch(rest, s, true) == StarMatch(rest, s, false)
    decreases |rest| + 1, |s|, 0
  {
    CaseOnlyAffectsLetters(rest, s);
    if s != [] {
      StarCaseOnlyAffectsLetters(rest, s[1..]);
    }
  }
}
