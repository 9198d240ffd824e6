/** `datetime.datetime.strptime` for the directives parseDate uses: the format
    is turned into a regular expression of fixed alternatives (matched with
    IGNORECASE, anchored at the start but not at the end), the first match in
    the regex engine's backtracking order is taken, and the conversion fails
    with ValueError when text remains after it or when the captured fields
    do not form a valid datetime. */
module Strptime {
  import opened Wrappers
  import opened PyValues

  /** One element of a format string: `%Y %m %d %H %M %S %f %z` or a literal character. */
  datatype Directive = Year | Month | Day | Hour | Minute | Second | Fraction | Zone | Lit(c: char)

  type Format = seq<Directive>

  /** The character at index i, or NUL past the end (NUL belongs to no class used below). */
  function Ch(s: string, i: nat): char
  {
    if i < |s| then s[i] else '\0'
  }

  predicate InRange(c: char, lo: char, hi: char) { lo <= c <= hi }

  /** How many digits follow index p, counting at most `limit`. */
  function DigitRun(s: string, p: nat, limit: nat): (n: nat)
    requires p <= |s|
    ensures n <= limit && p + n <= |s|
    decreases limit
  {
    if limit == 0 || p == |s| || !IsDigit(s[p]) then 0 else 1 + DigitRun(s, p + 1, limit - 1)
  }

  /** The run counted by DigitRun is all digits, and it stops before a
      non-digit unless the limit cut it short. */
  lemma {:induction false} DigitRunDigits(s: string, p: nat, limit: nat)
    requires p <= |s|
    ensures forall k :: p <= k < p + DigitRun(s, p, limit) ==> IsDigit(s[k])
    ensures DigitRun(s, p, limit) < limit ==> !IsDigit(Ch(s, p + DigitRun(s, p, limit)))
    decreases limit
  {
    if !(limit == 0 || p == |s| || !IsDigit(s[p])) {
      DigitRunDigits(s, p + 1, limit - 1);
    }
  }

  /** One alternative of a regex alternation: its length when it matches, else nothing. */
  function Offer(matches: bool, width: nat): seq<nat>
  {
    if matches then [width] else []
  }

  /** The lengths, in the regex engine's order, of the alternatives of a
      fixed-width field directive that match at index p, read off the
      alternation `strptime` compiles the directive to:
        %Y `\d\d\d\d`       %m `1[0-2]|0[1-9]|[1-9]`
        %d `3[01]|[12]\d|0[1-9]|[1-9]| [1-9]`
        %H `2[0-3]|[0-1]\d|\d`   %M `[0-5]\d|\d`   %S `6[0-1]|[0-5]\d|\d`
        %z `[+-]\d\d[0-5]\d`
      (`%f`, the greedy `[0-9]{1,6}`, is tried by TryRun instead.) */
  function RegexAlts(d: Directive, s: string, p: nat): seq<nat>
    requires !d.Lit? && !d.Fraction?
  {
    var c0, c1 := Ch(s, p), Ch(s, p + 1);
    match d
    case Year => Offer(IsDigit(c0) && IsDigit(c1) && IsDigit(Ch(s, p + 2)) && IsDigit(Ch(s, p + 3)), 4)
    case Month =>
      Offer(c0 == '1' && InRange(c1, '0', '2'), 2) + Offer(c0 == '0' && InRange(c1, '1', '9'), 2)
      + Offer(InRange(c0, '1', '9'), 1)
    case Day =>
      Offer(c0 == '3' && InRange(c1, '0', '1'), 2) + Offer(InRange(c0, '1', '2') && IsDigit(c1), 2)
      + Offer(c0 == '0' && InRange(c1, '1', '9'), 2) + Offer(InRange(c0, '1', '9'), 1)
      + Offer(c0 == ' ' && InRange(c1, '1', '9'), 2)
    case Hour =>
      Offer(c0 == '2' && InRange(c1, '0', '3'), 2) + Offer(InRange(c0, '0', '1') && IsDigit(c1), 2)
      + Offer(IsDigit(c0), 1)
    case Minute => Offer(InRange(c0, '0', '5') && IsDigit(c1), 2) + Offer(IsDigit(c0), 1)
    case Second =>
      Offer(c0 == '6' && InRange(c1, '0', '1'), 2) + Offer(InRange(c0, '0', '5') && IsDigit(c1), 2)
      + Offer(IsDigit(c0), 1)
    case Zone =>
      Offer((c0 == '+' || c0 == '-') && IsDigit(c1) && IsDigit(Ch(s, p + 2))
            && InRange(Ch(s, p + 3), '0', '5') && IsDigit(Ch(s, p + 4)), 5)
  }

  /** The same lengths as RegexAlts, case by case on the first two characters
      (alternatives that exclude each other are merged); this is the form the
      matcher uses, and AltsInRegexOrder proves the two agree. */
  function Alts(d: Directive, s: string, p: nat): seq<nat>
    requires !d.Lit? && !d.Fraction?
  {
    var c0, c1 := Ch(s, p), Ch(s, p + 1);
    match d
    case Year =>
      if IsDigit(c0) && IsDigit(c1) && IsDigit(Ch(s, p + 2)) && IsDigit(Ch(s, p + 3)) then [4] else []
    case Month =>
      if c0 == '1' && InRange(c1, '0', '2') then [2, 1]
      else if c0 == '0' && InRange(c1, '1', '9') then [2]
      else if InRange(c0, '1', '9') then [1]
      else []
    case Day =>
      if (c0 == '3' && InRange(c1, '0', '1')) || (InRange(c0, '1', '2') && IsDigit(c1)) then [2, 1]
      else if c0 == '0' && InRange(c1, '1', '9') then [2]
      else if InRange(c0, '1', '9') then [1]
      else if c0 == ' ' && InRange(c1, '1', '9') then [2]
      else []
    case Hour =>
      if (c0 == '2' && InRange(c1, '0', '3')) || (InRange(c0, '0', '1') && IsDigit(c1)) then [2, 1]
      else if IsDigit(c0) then [1]
      else []
    case Minute =>
      if InRange(c0, '0', '5') && IsDigit(c1) then [2, 1]
      else if IsDigit(c0) then [1]
      else []
    case Second =>
      if (c0 == '6' && InRange(c1, '0', '1')) || (InRange(c0, '0', '5') && IsDigit(c1)) then [2, 1]
      else if IsDigit(c0) then [1]
      else []
    case Zone =>
      if (c0 == '+' || c0 == '-') && IsDigit(c1) && IsDigit(Ch(s, p + 2))
         && InRange(Ch(s, p + 3), '0', '5') && IsDigit(Ch(s, p + 4))
      then [5] else []
  }

  /** The matcher tries the alternatives of each directive exactly in the
      order of the regex alternation. */
  lemma AltsInRegexOrder(d: Directive, s: string, p: nat)
    requires !d.Lit? && !d.Fraction?
    ensures Alts(d, s, p) == RegexAlts(d, s, p)
  {
  }

  /** Every length in alts is nonempty and stays within s. */
  predicate Fits(s: string, p: nat, alts: seq<nat>)
  {
    forall k :: 0 <= k < |alts| ==> 1 <= alts[k] && p + alts[k] <= |s|
  }

  /** The fewest characters any match of a directive consumes. */
  function MinWidth(d: Directive): nat
  {
    match d
    case Year => 4
    case Zone => 5
    case _ => 1
  }

  /** Every alternative a field directive offers stays within s and is at
      least the directive's minimum width. */
  lemma AltsFit(d: Directive, s: string, p: nat)
    requires p <= |s| && !d.Lit? && !d.Fraction?
    ensures Fits(s, p, Alts(d, s, p))
    ensures forall k :: 0 <= k < |Alts(d, s, p)| ==> Alts(d, s, p)[k] >= MinWidth(d)
  {
  }

  /** `int(text)` for a captured field: the digits read in decimal; the one
      space a `%d` capture may start with is skipped, as `int()` strips it. */
  function FieldInt(text: string): nat
  {
    if text == [] then 0
    else if IsDigit(text[|text| - 1]) then 10 * FieldInt(text[..|text| - 1]) + DigitValue(text[|text| - 1])
    else FieldInt(text[..|text| - 1])
  }

  /** The number a capture of directive d stands for: `%f` is right-padded to
      microseconds, `%z` becomes signed minutes. */
  function FieldNumber(d: Directive, text: string): int
  {
    match d
    case Fraction =>
      if |text| <= 6 then FieldInt(text + Zeros(6 - |text|)) else FieldInt(text)
    case Zone =>
      if |text| == 5 then
        var minutes := 60 * FieldInt(text[1..3]) + FieldInt(text[3..]);
        if text[0] == '-' then -minutes else minutes
      else 0
    case _ => FieldInt(text)
  }

  /** What a successful match produced: the end index and the text each
      field directive captured (the regex's named groups). */
  datatype Found = Found(end: nat, groups: map<Directive, string>)

  /** The first match of `fmt` against `s` from index p, in the backtracking
      order of Python's regex engine: alternatives left to right, each
      followed by the rest of the pattern. Literals match case-insensitively. */
  function Match(fmt: Format, s: string, p: nat): (r: Option<Found>)
    requires p <= |s|
    ensures r.Some? ==> p <= r.value.end <= |s|
    decreases |fmt|, 1, 0
  {
    if fmt == [] then Some(Found(p, map[]))
    else if fmt[0].Lit? then
      if p < |s| && LowerChar(s[p]) == LowerChar(fmt[0].c) then Match(fmt[1..], s, p + 1) else None
    else if fmt[0].Fraction? then TryRun(fmt, s, p, DigitRun(s, p, 6))
    else TryAlts(fmt, s, p, Alts(fmt[0], s, p))
  }

  /** `%f`, the greedy `[0-9]{1,6}`: the n digits found first, then one
      fewer each time the rest of the pattern fails. */
  function TryRun(fmt: Format, s: string, p: nat, n: nat): (r: Option<Found>)
    requires p + n <= |s| && fmt != [] && !fmt[0].Lit?
    ensures r.Some? ==> p <= r.value.end <= |s|
    decreases |fmt|, 0, n
  {
    if n == 0 then None
    else
      var rest := Match(fmt[1..], s, p + n);
      if rest.Some? then
        Some(Found(rest.value.end, rest.value.groups[fmt[0] := s[p..p + n]]))
      else
        TryRun(fmt, s, p, n - 1)
  }

  /** Tries each alternative length in turn; a length reaching past the end
      of s is skipped (no alternative does, see AltsFit). */
  function TryAlts(fmt: Format, s: string, p: nat, alts: seq<nat>): (r: Option<Found>)
    requires p <= |s| && fmt != [] && !fmt[0].Lit?
    ensures r.Some? ==> p <= r.value.end <= |s|
    decreases |fmt|, 0, |alts|
  {
    if alts == [] then None
    else if p + alts[0] > |s| then TryAlts(fmt, s, p, alts[1..])
    else
      var rest := Match(fmt[1..], s, p + alts[0]);
      if rest.Some? then
        Some(Found(rest.value.end, rest.value.groups[fmt[0] := s[p..p + alts[0]]]))
      else
        TryAlts(fmt, s, p, alts[1..])
  }

  /** The value of a field, or the default `strptime` fills in. */
  function FieldOr(groups: map<Directive, string>, d: Directive, default: int): int
  {
    if d in groups then FieldNumber(d, groups[d]) else default
  }

  /** Assembles the datetime; the date defaults to 1900-01-01 and the time to
      midnight, and an out-of-range day, second 60 or 61, year 0 or an offset
      of a day or more is a ValueError. */
  function Build(groups: map<Directive, string>): (r: Result<Moment>)
    ensures r.Err? ==> r.error == ValueError
    ensures r.Ok? ==> (r.value.offset.Some? <==> Zone in groups)
  {
    var dt := DateTime(
      CalDate(FieldOr(groups, Year, 1900), FieldOr(groups, Month, 1), FieldOr(groups, Day, 1)),
      FieldOr(groups, Hour, 0), FieldOr(groups, Minute, 0), FieldOr(groups, Second, 0),
      FieldOr(groups, Fraction, 0),
      if Zone in groups then Some(FieldNumber(Zone, groups[Zone])) else None);
    if ValidDateTime(dt) then Ok(dt) else Err(ValueError)
  }

  /** `datetime.datetime.strptime(s, fmt)`. */
  function Parse(s: string, fmt: Format): (r: Result<Moment>)
    ensures r.Err? ==> r.error == ValueError
  {
    var m := Match(fmt, s, 0);
    if m.None? then Err(ValueError)
    else if m.value.end != |s| then Err(ValueError)   // "unconverted data remains"
    else Build(m.value.groups)
  }

  // ---------------------------------------------------------------- properties

  function MinLen(fmt: Format): nat
  {
    if fmt == [] then 0 else MinWidth(fmt[0]) + MinLen(fmt[1..])
  }

  /** Every match consumes at least the minimum width of every directive. */
  lemma {:induction false} MatchConsumesMinLen(fmt: Format, s: string, p: nat)
    requires p <= |s|
    ensures Match(fmt, s, p).Some? ==> Match(fmt, s, p).value.end >= p + MinLen(fmt)
    decreases |fmt|, 1, 0
  {
    if fmt != [] {
      if fmt[0].Lit? {
        if p < |s| {
          MatchConsumesMinLen(fmt[1..], s, p + 1);
        }
      } else if fmt[0].Fraction? {
        TryRunConsumesMinLen(fmt, s, p, DigitRun(s, p, 6));
      } else {
        AltsFit(fmt[0], s, p);
        TryAltsConsumesMinLen(fmt, s, p, Alts(fmt[0], s, p));
      }
    }
  }

  lemma {:induction false} TryRunConsumesMinLen(fmt: Format, s: string, p: nat, n: nat)
    requires p + n <= |s| && fmt != [] && fmt[0].Fraction?
    ensures TryRun(fmt, s, p, n).Some? ==> TryRun(fmt, s, p, n).value.end >= p + MinLen(fmt)
    decreases |fmt|, 0, n
  {
    if n != 0 {
      MatchConsumesMinLen(fmt[1..], s, p + n);
      TryRunConsumesMinLen(fmt, s, p, n - 1);
    }
  }

  lemma {:induction false} TryAltsConsumesMinLen(fmt: Format, s: string, p: nat, alts: seq<nat>)
    requires p <= |s| && fmt != [] && !fmt[0].Lit?
    requires Fits(s, p, alts)
    requires forall k :: 0 <= k < |alts| ==> MinWidth(fmt[0]) <= alts[k]
    ensures TryAlts(fmt, s, p, alts).Some? ==> TryAlts(fmt, s, p, alts).value.end >= p + MinLen(fmt)
    decreases |fmt|, 0, |alts|
  {
    if alts != [] {
      MatchConsumesMinLen(fmt[1..], s, p + alts[0]);
      TryAltsConsumesMinLen(fmt, s, p, alts[1..]);
    }
  }

  /** A text shorter than a format's minimum length never converts. */
  lemma ParseTooShort(s: string, fmt: Format)
    requires |s| < MinLen(fmt)
    ensures Parse(s, fmt) == Err(ValueError)
  {
    MatchConsumesMinLen(fmt, s, 0);
  }

  // ---------------------------------------------------------------- canonical text

  /** Two digits at p whose value lies in [lo, hi]. */
  predicate TwoDigits(s: string, p: nat, lo: int, hi: int)
  {
    p + 2 <= |s| && IsDigit(s[p]) && IsDigit(s[p + 1])
    && lo <= 10 * DigitValue(s[p]) + DigitValue(s[p + 1]) <= hi
  }

  /** The directive at p is written the way `isoformat()` writes it: fields
      at full width and in range, `%f` as one to six digits, `%z` as `±HHMM`. */
  predicate CanonField(d: Directive, s: string, p: nat)
    requires p <= |s|
  {
    match d
    case Year => p + 4 <= |s| && IsDigit(s[p]) && IsDigit(s[p + 1]) && IsDigit(s[p + 2]) && IsDigit(s[p + 3])
    case Month => TwoDigits(s, p, 1, 12)
    case Day => TwoDigits(s, p, 1, 31)
    case Hour => TwoDigits(s, p, 0, 23)
    case Minute => TwoDigits(s, p, 0, 59)
    case Second => TwoDigits(s, p, 0, 61)
    case Fraction => DigitRun(s, p, 6) >= 1
    case Zone =>
      p + 5 <= |s| && (s[p] == '+' || s[p] == '-') && IsDigit(s[p + 1]) && IsDigit(s[p + 2])
      && InRange(s[p + 3], '0', '5') && IsDigit(s[p + 4])
    case Lit(c) => p < |s| && LowerChar(s[p]) == LowerChar(c)
  }

  /** How many characters the canonical text of d at p takes. */
  function CanonWidth(d: Directive, s: string, p: nat): nat
    requires p <= |s|
  {
    match d
    case Year => 4
    case Fraction => DigitRun(s, p, 6)
    case Zone => 5
    case Lit(_) => 1
    case _ => 2
  }

  /** The directives of fmt are written canonically one after another from p. */
  predicate Canon(fmt: Format, s: string, p: nat)
    requires p <= |s|
    decreases |fmt|
  {
    fmt == [] ||
    (CanonField(fmt[0], s, p) && p + CanonWidth(fmt[0], s, p) <= |s|
     && Canon(fmt[1..], s, p + CanonWidth(fmt[0], s, p)))
  }

  /** The length of the canonical text of fmt at p. */
  function CanonLen(fmt: Format, s: string, p: nat): (n: nat)
    requires p <= |s| && Canon(fmt, s, p)
    ensures p + n <= |s|
    decreases |fmt|
  {
    if fmt == [] then 0
    else CanonWidth(fmt[0], s, p) + CanonLen(fmt[1..], s, p + CanonWidth(fmt[0], s, p))
  }

  /** The texts the fields of fmt capture in their canonical text. */
  function CanonGroups(fmt: Format, s: string, p: nat): map<Directive, string>
    requires p <= |s| && Canon(fmt, s, p)
    decreases |fmt|
  {
    if fmt == [] then map[]
    else
      var w := CanonWidth(fmt[0], s, p);
      var rest := CanonGroups(fmt[1..], s, p + w);
      if fmt[0].Lit? then rest else rest[fmt[0] := s[p..p + w]]
  }

  /** A directive that never matches at a digit: `%z`, or a literal other than a digit. */
  predicate StartsNonDigit(d: Directive)
  {
    d.Zone? || (d.Lit? && !IsDigit(LowerChar(d.c)))
  }

  /** Every field directive is last or followed by one that never matches at a
      digit, so a shorter alternative of a canonical field cannot be extended. */
  predicate Guarded(fmt: Format)
  {
    |fmt| <= 1 || ((!fmt[0].Lit? ==> StartsNonDigit(fmt[1])) && Guarded(fmt[1..]))
  }

  /** The first alternative the engine tries on a canonical fixed-width field
      is the whole field, and every later one is shorter and stops before a digit. */
  lemma CanonFirstAlt(d: Directive, s: string, p: nat)
    requires p <= |s| && !d.Lit? && !d.Fraction? && CanonField(d, s, p)
    ensures var alts := Alts(d, s, p);
      alts != [] && alts[0] == CanonWidth(d, s, p)
      && forall k :: 1 <= k < |alts| ==> p + alts[k] < |s| && IsDigit(s[p + alts[k]])
  {
  }

  /** No match of a pattern starting with a non-digit directive begins at a digit. */
  lemma NoMatchAtDigit(fmt: Format, s: string, q: nat)
    requires q < |s| && IsDigit(s[q]) && fmt != [] && StartsNonDigit(fmt[0])
    ensures Match(fmt, s, q) == None
  {
    if fmt[0].Lit? {
      assert LowerChar(s[q]) == s[q];
    }
  }

  /** Alternatives that all stop before a digit fail when the rest of the
      pattern cannot start at a digit. */
  lemma {:induction false} DigitAltsFail(fmt: Format, s: string, p: nat, alts: seq<nat>)
    requires p <= |s| && |fmt| >= 2 && !fmt[0].Lit? && StartsNonDigit(fmt[1])
    requires forall k :: 0 <= k < |alts| ==> p + alts[k] < |s| && IsDigit(s[p + alts[k]])
    ensures TryAlts(fmt, s, p, alts).None?
    decreases |alts|
  {
    if alts != [] {
      NoMatchAtDigit(fmt[1..], s, p + alts[0]);
      DigitAltsFail(fmt, s, p, alts[1..]);
    }
  }

  /** Shorter digit runs all stop before a digit, so they fail the same way. */
  lemma {:induction false} DigitRunFail(fmt: Format, s: string, p: nat, n: nat)
    requires p + n <= |s| && |fmt| >= 2 && !fmt[0].Lit? && StartsNonDigit(fmt[1])
    requires forall q :: p < q <= p + n ==> q < |s| && IsDigit(s[q])
    ensures TryRun(fmt, s, p, n).None?
    decreases n
  {
    if n != 0 {
      assert p + n < |s| && IsDigit(s[p + n]);
      NoMatchAtDigit(fmt[1..], s, p + n);
      DigitRunFail(fmt, s, p, n - 1);
    }
  }

  /** A canonical field followed by a successful rest: the first alternative,
      the whole field, wins. */
  lemma CanonFieldThen(fmt: Format, s: string, p: nat, rest: Found)
    requires p <= |s| && fmt != [] && !fmt[0].Lit? && CanonField(fmt[0], s, p)
    requires Match(fmt[1..], s, p + CanonWidth(fmt[0], s, p)) == Some(rest)
    ensures var w := CanonWidth(fmt[0], s, p);
      Match(fmt, s, p) == Some(Found(rest.end, rest.groups[fmt[0] := s[p..p + w]]))
  {
    if !fmt[0].Fraction? {
      CanonFirstAlt(fmt[0], s, p);
    }
  }

  /** A canonical field followed by a failing rest: every shorter alternative
      leaves a digit in front of a directive that cannot start there. */
  lemma CanonFieldFails(fmt: Format, s: string, p: nat)
    requires p <= |s| && |fmt| >= 2 && !fmt[0].Lit? && CanonField(fmt[0], s, p) && StartsNonDigit(fmt[1])
    requires Match(fmt[1..], s, p + CanonWidth(fmt[0], s, p)).None?
    ensures Match(fmt, s, p).None?
  {
    if fmt[0].Fraction? {
      var n := DigitRun(s, p, 6);
      DigitRunDigits(s, p, 6);
      DigitRunFail(fmt, s, p, n - 1);
    } else {
      var alts := Alts(fmt[0], s, p);
      CanonFirstAlt(fmt[0], s, p);
      DigitAltsFail(fmt, s, p, alts[1..]);
    }
  }

  /** A literal that matches is consumed and the rest decides. */
  lemma LitStep(fmt: Format, s: string, p: nat)
    requires p < |s| && fmt != [] && fmt[0].Lit? && LowerChar(s[p]) == LowerChar(fmt[0].c)
    ensures Match(fmt, s, p) == Match(fmt[1..], s, p + 1)
  {
  }

  /** The canonical text of a nonempty format: its first directive, then the rest. */
  lemma CanonUnfold(fmt: Format, s: string, p: nat)
    requires p <= |s| && fmt != [] && Canon(fmt, s, p)
    ensures var w := CanonWidth(fmt[0], s, p);
      CanonField(fmt[0], s, p) && p + w <= |s|
      && CanonLen(fmt, s, p) == w + CanonLen(fmt[1..], s, p + w)
      && CanonGroups(fmt, s, p)
         == if fmt[0].Lit? then CanonGroups(fmt[1..], s, p + w)
            else CanonGroups(fmt[1..], s, p + w)[fmt[0] := s[p..p + w]]
  {
  }

  /** A format written canonically from p matches deterministically: the
      engine consumes exactly the canonical text and captures each field's
      text, whatever the later alternatives of each field would allow. */
  lemma {:induction false} CanonMatch(fmt: Format, s: string, p: nat)
    requires p <= |s| && Canon(fmt, s, p)
    ensures Match(fmt, s, p) == Some(Found(p + CanonLen(fmt, s, p), CanonGroups(fmt, s, p)))
    decreases |fmt|
  {
    if fmt != [] {
      var w := CanonWidth(fmt[0], s, p);
      CanonUnfold(fmt, s, p);
      CanonMatch(fmt[1..], s, p + w);
      var rest := Found(p + w + CanonLen(fmt[1..], s, p + w), CanonGroups(fmt[1..], s, p + w));
      if fmt[0].Lit? {
        LitStep(fmt, s, p);
      } else {
        CanonFieldThen(fmt, s, p, rest);
      }
    }
  }

  /** One step of CanonThenFail: the first directive of the canonical prefix. */
  lemma CanonStepFails(fmt: Format, s: string, p: nat)
    requires p <= |s| && fmt != [] && CanonField(fmt[0], s, p) && Guarded(fmt)
    requires Match(fmt[1..], s, p + CanonWidth(fmt[0], s, p)).None?
    ensures Match(fmt, s, p).None?
  {
    if fmt[0].Lit? {
      LitStep(fmt, s, p);
    } else {
      assert |fmt| >= 2;
      CanonFieldFails(fmt, s, p);
    }
  }

  /** The canonical text of the first k directives of fmt: the first
      directive, then the first k - 1 directives of fmt[1..]. */
  lemma CanonPrefixUnfold(fmt: Format, k: nat, s: string, p: nat)
    requires p <= |s| && 0 < k <= |fmt| && Canon(fmt[..k], s, p)
    ensures var w := CanonWidth(fmt[0], s, p);
      CanonField(fmt[0], s, p) && p + w <= |s| && Canon(fmt[1..][..k - 1], s, p + w)
      && p + CanonLen(fmt[..k], s, p) == p + w + CanonLen(fmt[1..][..k - 1], s, p + w)
      && fmt[1..][k - 1..] == fmt[k..]
  {
    assert fmt[..k][0] == fmt[0] && fmt[..k][1..] == fmt[1..][..k - 1];
    CanonUnfold(fmt[..k], s, p);
  }

  lemma GuardedRest(fmt: Format)
    requires fmt != [] && Guarded(fmt)
    ensures Guarded(fmt[1..])
  {
  }

  /** When the first k directives of fmt are written canonically from p and
      the rest of the pattern fails where they end, the whole pattern fails,
      provided every field is followed by a directive that cannot start at a
      digit (so no shorter alternative helps). */
  lemma {:induction false} CanonThenFail(fmt: Format, k: nat, s: string, p: nat, e: nat)
    requires p <= |s| && k <= |fmt| && Canon(fmt[..k], s, p) && Guarded(fmt)
    requires e == p + CanonLen(fmt[..k], s, p) && e <= |s| && Match(fmt[k..], s, e).None?
    ensures Match(fmt, s, p).None?
    decreases k
  {
    if k == 0 {
      assert fmt[k..] == fmt;
    } else {
      var w := CanonWidth(fmt[0], s, p);
      CanonPrefixUnfold(fmt, k, s, p);
      GuardedRest(fmt);
      CanonThenFail(fmt[1..], k - 1, s, p + w, e);
      CanonStepFails(fmt, s, p);
    }
  }

  /** The same, for a format split into a canonical prefix and the rest. */
  lemma CanonPrefixFail(pre: Format, rest: Format, s: string, n: nat)
    requires Canon(pre, s, 0) && n == CanonLen(pre, s, 0) && Guarded(pre + rest) && Match(rest, s, n).None?
    ensures Parse(s, pre + rest) == Err(ValueError)
  {
    var fmt := pre + rest;
    assert fmt[..|pre|] == pre && fmt[|pre|..] == rest;
    CanonThenFail(fmt, |pre|, s, 0, n);
  }

  /** A literal written canonically in front of the canonical text of rest. */
  lemma CanonLitCons(c: char, rest: Format, s: string, p: nat)
    requires p < |s| && LowerChar(s[p]) == LowerChar(c) && Canon(rest, s, p + 1)
    ensures Canon([Lit(c)] + rest, s, p)
    ensures CanonLen([Lit(c)] + rest, s, p) == 1 + CanonLen(rest, s, p + 1)
    ensures CanonGroups([Lit(c)] + rest, s, p) == CanonGroups(rest, s, p + 1)
  {
    assert ([Lit(c)] + rest)[1..] == rest;
  }

  /** A field written canonically, as `text`, in front of the canonical text of rest. */
  lemma CanonFieldCons(d: Directive, rest: Format, s: string, p: nat, w: nat, text: string)
    requires !d.Lit? && p <= |s| && CanonField(d, s, p) && w == CanonWidth(d, s, p)
    requires p + w <= |s| && Canon(rest, s, p + w) && text == s[p..p + w]
    ensures Canon([d] + rest, s, p)
    ensures CanonLen([d] + rest, s, p) == w + CanonLen(rest, s, p + w)
    ensures CanonGroups([d] + rest, s, p) == CanonGroups(rest, s, p + w)[d := text]
  {
    assert ([d] + rest)[1..] == rest;
  }

  /** A separator and a field written canonically in front of the canonical text of rest. */
  lemma CanonSepFieldCons(c: char, d: Directive, rest: Format, s: string, p: nat, w: nat, text: string)
    requires p < |s| && LowerChar(s[p]) == LowerChar(c) && !d.Lit? && CanonField(d, s, p + 1)
    requires w == CanonWidth(d, s, p + 1) && p + 1 + w <= |s| && Canon(rest, s, p + 1 + w)
    requires text == s[p + 1..p + 1 + w]
    ensures Canon([Lit(c)] + ([d] + rest), s, p)
    ensures CanonLen([Lit(c)] + ([d] + rest), s, p) == 1 + w + CanonLen(rest, s, p + 1 + w)
    ensures CanonGroups([Lit(c)] + ([d] + rest), s, p) == CanonGroups(rest, s, p + 1 + w)[d := text]
  {
    var r := [d] + rest;
    CanonFieldCons(d, rest, s, p + 1, w, text);
    CanonLitCons(c, r, s, p);
  }

  lemma GuardedCons(d: Directive, rest: Format)
    requires Guarded(rest) && (!d.Lit? && rest != [] ==> StartsNonDigit(rest[0]))
    ensures Guarded([d] + rest)
  {
    assert ([d] + rest)[1..] == rest;
  }

  lemma MinLenCons(d: Directive, rest: Format)
    ensures MinLen([d] + rest) == MinWidth(d) + MinLen(rest)
  {
    assert ([d] + rest)[1..] == rest;
  }

  /** `strptime` of text whose every directive is written canonically: it
      converts exactly when nothing follows the canonical text. */
  lemma CanonParse(fmt: Format, s: string)
    requires Canon(fmt, s, 0)
    ensures Parse(s, fmt) == if CanonLen(fmt, s, 0) == |s| then Build(CanonGroups(fmt, s, 0)) else Err(ValueError)
  {
    CanonMatch(fmt, s, 0);
  }
}
