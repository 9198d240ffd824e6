/** What parseDate promises: the offset rewrite, and that text in the
    shape `isoformat()` writes converts back to the same datetime. */
module DateLemmas {
  import opened Wrappers
  import opened PyValues
  import opened Utils
  import opened Strptime
  import UtilsLemmas

  // ---------------------------------------------------------------- offset rewrite

  /** A `±HH:MM` offset loses its colon; the text before it must be
      nonempty and free of newlines, as `.+?` demands. */
  lemma NormaliseColonOffset(pre: string, sign: char, h: string, m: string)
    requires |pre| >= 1 && NoNewline(pre)
    requires (sign == '+' || sign == '-') && |h| == 2 && |m| == 2 && AllDigits(h) && AllDigits(m)
    ensures NormaliseOffset(pre + [sign] + h + ":" + m) == pre + [sign] + h + m
  {
    var s := pre + [sign] + h + ":" + m;
    assert DollarEnd(s) == s;
    assert s[|s| - 6] == sign && s[|s| - 5] == h[0] && s[|s| - 4] == h[1];
    assert s[|s| - 3] == ':' && s[|s| - 2] == m[0] && s[|s| - 1] == m[1];
    assert NoNewline(s) by {
      assert forall i :: |pre| <= i < |s| ==> s[i] != '\n';
    }
    assert s[..|s| - 3] + s[|s| - 2..] == pre + [sign] + h + m;
  }

  /** A `±HH` offset after a `T` gets `00` appended, so `%z` can read it. */
  lemma NormaliseHourOffset(date: string, time: string, sign: char, h: string)
    requires |date| >= 1 && |time| >= 1 && NoNewline(date) && NoNewline(time)
    requires (sign == '+' || sign == '-') && |h| == 2 && AllDigits(h)
    ensures NormaliseOffset(date + "T" + time + [sign] + h) == date + "T" + time + [sign] + h + "00"
  {
    var s := date + "T" + time + [sign] + h;
    assert DollarEnd(s) == s;
    assert s[|s| - 3] == sign && s[|s| - 2] == h[0] && s[|s| - 1] == h[1];
    assert NoNewline(s) by {
      assert forall i :: 0 <= i < |date| ==> s[i] == date[i];
      assert forall i :: |date| < i < |date| + 1 + |time| ==> s[i] == time[i - |date| - 1];
    }
    assert s[|date|] == 'T';
    assert !HasColonOffset(s);
  }

  /** A text that has neither offset shape, such as a bare date, is left alone. */
  lemma NormaliseKeepsPlainText(s: string)
    requires |s| >= 3 && s[|s| - 3] != '+' && s[|s| - 3] != '-' && s[|s| - 3] != ':'
    requires s[|s| - 1] != '\n'
    ensures NormaliseOffset(s) == s
  {
  }

  // ---------------------------------------------------------------- field digits

  lemma PadWidth(n: nat, w: nat)
    requires 1 <= w && n < UtilsLemmas.Pow10(w)
    ensures |ZeroPad(n, w)| == w
  {
    UtilsLemmas.NatTextLength(n, w);
  }

  lemma {:induction false} ZerosAreZero(k: nat)
    ensures forall i :: 0 <= i < k ==> Zeros(k)[i] == '0'
  {
    if k > 0 {
      ZerosAreZero(k - 1);
    }
  }

  /** Leading zeros do not change the value of a digit string. */
  lemma {:induction false} LeadingZerosValue(z: string, x: string)
    requires AllDigits(z) && AllDigits(x) && forall i :: 0 <= i < |z| ==> z[i] == '0'
    ensures DigitsValue(z + x) == DigitsValue(x)
    decreases |z| + |x|
  {
    if x != [] {
      assert (z + x)[..|z + x| - 1] == z + x[..|x| - 1];
      LeadingZerosValue(z, x[..|x| - 1]);
    } else if z != [] {
      assert z + x == z;
      LeadingZerosValue(z[..|z| - 1], []);
      assert z[..|z| - 1] + [] == z[..|z| - 1];
    }
  }

  /** `int()` of a digit string is its decimal value. */
  lemma {:induction false} FieldIntOfDigits(x: string)
    requires AllDigits(x)
    ensures FieldInt(x) == DigitsValue(x)
    decreases |x|
  {
    if x != [] {
      FieldIntOfDigits(x[..|x| - 1]);
    }
  }

  /** A zero-padded field reads back as its number. */
  lemma PadValue(n: nat, w: nat)
    ensures DigitsValue(ZeroPad(n, w)) == n && FieldInt(ZeroPad(n, w)) == n
  {
    NatTextValue(n);
    var t := NatText(n);
    if |t| < w {
      ZerosAreZero(w - |t|);
      LeadingZerosValue(Zeros(w - |t|), t);
    }
    FieldIntOfDigits(ZeroPad(n, w));
  }

  /** A two-digit field: its digits and their value. */
  lemma PadTwo(n: nat)
    requires n < 100
    ensures var x := ZeroPad(n, 2);
      |x| == 2 && IsDigit(x[0]) && IsDigit(x[1]) && 10 * DigitValue(x[0]) + DigitValue(x[1]) == n
  {
    assert UtilsLemmas.Pow10(2) == 100;
    PadWidth(n, 2);
    PadValue(n, 2);
    var x := ZeroPad(n, 2);
    assert x[..1][..0] == [];
  }

  /** The two digits at p spell n, which lies in [lo, hi]. */
  lemma TwoDigitsAt(s: string, p: nat, n: nat, lo: int, hi: int)
    requires p + 2 <= |s| && n < 100 && s[p..p + 2] == ZeroPad(n, 2) && lo <= n <= hi
    ensures TwoDigits(s, p, lo, hi)
  {
    PadTwo(n);
    assert s[p] == s[p..p + 2][0] && s[p + 1] == s[p..p + 2][1];
  }

  // ---------------------------------------------------------------- the formats

  /** `%Y-%m-%d` followed by tail. */
  function DateFormat(tail: Format): Format
  {
    [Year] + ([Lit('-')] + ([Month] + ([Lit('-')] + ([Strptime.Day] + tail))))
  }

  /** `%H:%M:%S` followed by tail. */
  function TimeFormat(tail: Format): Format
  {
    [Hour] + ([Lit(':')] + ([Minute] + ([Lit(':')] + ([Second] + tail))))
  }

  /** `%Y-%m-%dT%H:%M:%S` followed by tail. */
  function DateTimeFormat(tail: Format): Format
  {
    DateFormat([Lit('T')] + TimeFormat(tail))
  }

  /** `.%f` followed by tail. */
  function FractionFormat(tail: Format): Format
  {
    [Lit('.')] + ([Fraction] + tail)
  }

  /** The first seven formats of the product, in the order parseDate tries
      them: whole seconds, then a fraction, each naive, `Z` and `%z`; then
      the date alone. */
  lemma FormatsWhole()
    ensures FormatAt(0) == DateTimeFormat([])
    ensures FormatAt(1) == DateTimeFormat([Lit('Z')])
    ensures FormatAt(2) == DateTimeFormat([Zone])
  {
    DateTimeFormatSplit([]);
    DateTimeFormatSplit([Lit('Z')]);
    DateTimeFormatSplit([Zone]);
  }

  lemma FormatsFraction()
    ensures FormatAt(3) == DateTimeFormat(FractionFormat([]))
    ensures FormatAt(4) == DateTimeFormat(FractionFormat([Lit('Z')]))
    ensures FormatAt(5) == DateTimeFormat(FractionFormat([Zone]))
  {
    FractionAfter([]);
    FractionAfter([Lit('Z')]);
    FractionAfter([Zone]);
  }

  /** A time with a fraction, then the zone part z. */
  lemma FractionAfter(z: Format)
    ensures DateFormats[0] + [Lit('T')] + (TimeFormats[1] + z) == DateTimeFormat(FractionFormat(z))
  {
    assert TimeFormats[1] + z == TimeFormats[0] + FractionFormat(z);
    DateTimeFormatSplit(FractionFormat(z));
  }

  /** The part of a fraction format after `.%f`. */
  lemma FractionSplit(tail: Format)
    ensures DateTimeFormat(FractionFormat(tail)) == DateTimeFormat(FractionFormat([])) + tail
  {
    FractionAfter(tail);
    FractionAfter([]);
  }

  lemma FormatDateOnly()
    ensures FormatAt(6) == DateFormat([])
  {
  }

  /** The date-and-time part of a format is its first eleven directives. */
  lemma DateTimeFormatSplit(tail: Format)
    ensures DateTimeFormat(tail) == DateTimeFormat([]) + tail
    ensures |DateTimeFormat([])| == 11
  {
  }

  /** Every field of a date-and-time format is followed by a directive that
      cannot start at a digit, provided its tail starts with one. */
  lemma GuardedDateTime(tail: Format)
    requires Guarded(tail) && (tail != [] ==> StartsNonDigit(tail[0]))
    ensures Guarded(DateTimeFormat(tail))
  {
    var r4 := [Second] + tail;
    GuardedCons(Second, tail);
    var r3 := [Lit(':')] + r4;
    GuardedCons(Lit(':'), r4);
    var r2 := [Minute] + r3;
    GuardedCons(Minute, r3);
    var r1 := [Lit(':')] + r2;
    GuardedCons(Lit(':'), r2);
    var time := [Hour] + r1;
    GuardedCons(Hour, r1);
    var d5 := [Lit('T')] + time;
    GuardedCons(Lit('T'), time);
    var d4 := [Strptime.Day] + d5;
    GuardedCons(Strptime.Day, d5);
    var d3 := [Lit('-')] + d4;
    GuardedCons(Lit('-'), d4);
    var d2 := [Month] + d3;
    GuardedCons(Month, d3);
    var d1 := [Lit('-')] + d2;
    GuardedCons(Lit('-'), d2);
    GuardedCons(Year, d1);
  }

  lemma GuardedFraction(tail: Format)
    requires Guarded(tail) && (tail != [] ==> StartsNonDigit(tail[0]))
    ensures Guarded(FractionFormat(tail)) && StartsNonDigit(FractionFormat(tail)[0])
  {
    GuardedCons(Fraction, tail);
    GuardedCons(Lit('.'), [Fraction] + tail);
  }

  /** A date-and-time format needs at least fourteen characters. */
  lemma DateTimeMinLen(tail: Format)
    ensures MinLen(DateTimeFormat(tail)) >= 14
  {
    var r4 := [Second] + tail;
    MinLenCons(Second, tail);
    var r3 := [Lit(':')] + r4;
    MinLenCons(Lit(':'), r4);
    var r2 := [Minute] + r3;
    MinLenCons(Minute, r3);
    var r1 := [Lit(':')] + r2;
    MinLenCons(Lit(':'), r2);
    var time := [Hour] + r1;
    MinLenCons(Hour, r1);
    var d5 := [Lit('T')] + time;
    MinLenCons(Lit('T'), time);
    var d4 := [Strptime.Day] + d5;
    MinLenCons(Strptime.Day, d5);
    var d3 := [Lit('-')] + d4;
    MinLenCons(Lit('-'), d4);
    var d2 := [Month] + d3;
    MinLenCons(Month, d3);
    var d1 := [Lit('-')] + d2;
    MinLenCons(Lit('-'), d2);
    MinLenCons(Year, d1);
  }

  // ---------------------------------------------------------------- isoformat text

  /** The `±HHMM` offset `%z` reads: OffsetText without its colon. */
  function ZoneText(m: int): string
  {
    var a := if m < 0 then -m else m;
    [if m < 0 then '-' else '+'] + ZeroPad(a / 60, 2) + ZeroPad(a % 60, 2)
  }

  /** The `.ffffff` part of `isoformat()`, present only for a nonzero fraction. */
  function FractionText(t: Moment): string
  {
    if t.micro != 0 then "." + ZeroPad(t.micro, 6) else ""
  }

  /** `isoformat()` text after parseDate's offset rewrite. */
  function RewrittenIso(t: Moment): string
  {
    IsoSeconds(t) + FractionText(t) + (if t.offset.Some? then ZoneText(t.offset.value) else "")
  }

  /** The fields `%f` and `%z` capture from the text after the seconds. */
  function TailGroups(t: Moment): map<Directive, string>
  {
    var g := if t.offset.Some? then map[Zone := ZoneText(t.offset.value)] else map[];
    if t.micro != 0 then g[Fraction := ZeroPad(t.micro, 6)] else g
  }

  /** The fields SecondsFormat captures from the text of t, over the fields g
      captured after them. */
  function SecondsGroups(t: Moment, g: map<Directive, string>): map<Directive, string>
  {
    g[Second := ZeroPad(t.second, 2)][Minute := ZeroPad(t.minute, 2)][Hour := ZeroPad(t.hour, 2)]
     [Strptime.Day := ZeroPad(t.date.day, 2)][Month := ZeroPad(t.date.month, 2)][Year := ZeroPad(t.date.year, 4)]
  }

  /** Where the pieces of `a c1 b c2 c` sit. */
  lemma Pieces(x: string, a: string, c1: char, b: string, c2: char, c: string)
    requires x == a + [c1] + b + [c2] + c
    ensures x[..|a|] == a && x[|a|] == c1 && x[|a| + 1..|a| + 1 + |b|] == b
    ensures x[|a| + 1 + |b|] == c2 && x[|a| + 2 + |b|..] == c
  {
  }

  /** A slice of a prefix of s is the same slice of s. */
  lemma SliceOfPrefix(s: string, x: string, i: nat, j: nat)
    requires |x| <= |s| && s[..|x|] == x && i <= j <= |x|
    ensures s[i..j] == x[i..j]
  {
    assert forall k :: 0 <= k < j - i ==> s[i..j][k] == s[..|x|][i + k];
  }

  lemma FieldWidths(t: Moment)
    ensures |ZeroPad(t.date.year, 4)| == 4 && |ZeroPad(t.date.month, 2)| == 2 && |ZeroPad(t.date.day, 2)| == 2
    ensures |ZeroPad(t.hour, 2)| == 2 && |ZeroPad(t.minute, 2)| == 2 && |ZeroPad(t.second, 2)| == 2
    ensures |IsoDate(t.date)| == 10 && |IsoSeconds(t)| == 19
  {
    assert UtilsLemmas.Pow10(4) == 10000 && UtilsLemmas.Pow10(2) == 100;
    PadWidth(t.date.year, 4);
    PadWidth(t.date.month, 2);
    PadWidth(t.date.day, 2);
    PadWidth(t.hour, 2);
    PadWidth(t.minute, 2);
    PadWidth(t.second, 2);
  }

  /** Where each field of `date.isoformat()` text sits. */
  lemma IsoDateLayout(t: Moment, s: string)
    requires |s| >= 10 && s[..10] == IsoDate(t.date)
    ensures s[..4] == ZeroPad(t.date.year, 4) && s[4] == '-' && s[5..7] == ZeroPad(t.date.month, 2)
    ensures s[7] == '-' && s[8..10] == ZeroPad(t.date.day, 2)
  {
    FieldWidths(t);
    var date := IsoDate(t.date);
    Pieces(date, ZeroPad(t.date.year, 4), '-', ZeroPad(t.date.month, 2), '-', ZeroPad(t.date.day, 2));
    SliceOfPrefix(s, date, 0, 4);
    SliceOfPrefix(s, date, 5, 7);
    SliceOfPrefix(s, date, 8, 10);
  }

  /** Where each field of `isoformat()` text sits, up to the seconds. */
  lemma IsoSecondsLayout(t: Moment, s: string)
    requires |s| >= 19 && s[..19] == IsoSeconds(t)
    ensures s[..10] == IsoDate(t.date) && s[10] == 'T'
    ensures s[11..13] == ZeroPad(t.hour, 2) && s[13] == ':' && s[14..16] == ZeroPad(t.minute, 2)
    ensures s[16] == ':' && s[17..19] == ZeroPad(t.second, 2)
  {
    FieldWidths(t);
    var h, mi, sec := ZeroPad(t.hour, 2), ZeroPad(t.minute, 2), ZeroPad(t.second, 2);
    var date := IsoDate(t.date);
    var dh := date + "T" + h;
    var x := IsoSeconds(t);
    Pieces(x, dh, ':', mi, ':', sec);
    assert dh[..10] == date && dh[10] == 'T' && dh[11..] == h;
    SliceOfPrefix(s, x, 0, 13);
    SliceOfPrefix(s, dh, 0, 10);
    SliceOfPrefix(s, dh, 11, 13);
    SliceOfPrefix(s, x, 14, 16);
    SliceOfPrefix(s, x, 17, 19);
  }

  // ---------------------------------------------------------------- canonical isoformat text

  /** `%Y-%m-%d` over the date of t at the start of s, then tail at index 10. */
  lemma CanonDateThen(t: Moment, tail: Format, s: string)
    requires |s| >= 10 && s[..10] == IsoDate(t.date) && Canon(tail, s, 10)
    ensures Canon(DateFormat(tail), s, 0) && CanonLen(DateFormat(tail), s, 0) == 10 + CanonLen(tail, s, 10)
    ensures CanonGroups(DateFormat(tail), s, 0)
            == CanonGroups(tail, s, 10)[Strptime.Day := ZeroPad(t.date.day, 2)][Month := ZeroPad(t.date.month, 2)][Year := ZeroPad(t.date.year, 4)]
  {
    IsoDateLayout(t, s);
    TwoDigitsAt(s, 5, t.date.month, 1, 12);
    TwoDigitsAt(s, 8, t.date.day, 1, 31);
    assert s[..4][0] == s[0] && s[..4][1] == s[1] && s[..4][2] == s[2] && s[..4][3] == s[3];
    assert s[0..4] == s[..4];
    CanonSepFieldCons('-', Strptime.Day, tail, s, 7, 2, ZeroPad(t.date.day, 2));
    var r := [Lit('-')] + ([Strptime.Day] + tail);
    CanonSepFieldCons('-', Month, r, s, 4, 2, ZeroPad(t.date.month, 2));
    CanonFieldCons(Year, [Lit('-')] + ([Month] + r), s, 0, 4, ZeroPad(t.date.year, 4));
  }

  lemma TimeDigits(t: Moment, s: string)
    requires |s| >= 19 && s[11..13] == ZeroPad(t.hour, 2) && s[14..16] == ZeroPad(t.minute, 2) && s[17..19] == ZeroPad(t.second, 2)
    ensures TwoDigits(s, 11, 0, 23) && TwoDigits(s, 14, 0, 59) && TwoDigits(s, 17, 0, 61)
  {
    TwoDigitsAt(s, 11, t.hour, 0, 23);
    TwoDigitsAt(s, 14, t.minute, 0, 59);
    TwoDigitsAt(s, 17, t.second, 0, 61);
  }

  /** `%H:%M:%S` over the time of t at index 11 of s, then tail at index 19. */
  lemma CanonTimeThen(t: Moment, tail: Format, s: string)
    requires |s| >= 19 && s[11..13] == ZeroPad(t.hour, 2) && s[13] == ':' && s[14..16] == ZeroPad(t.minute, 2)
    requires s[16] == ':' && s[17..19] == ZeroPad(t.second, 2) && Canon(tail, s, 19)
    ensures Canon(TimeFormat(tail), s, 11) && CanonLen(TimeFormat(tail), s, 11) == 8 + CanonLen(tail, s, 19)
    ensures CanonGroups(TimeFormat(tail), s, 11)
            == CanonGroups(tail, s, 19)[Second := ZeroPad(t.second, 2)][Minute := ZeroPad(t.minute, 2)][Hour := ZeroPad(t.hour, 2)]
  {
    TimeDigits(t, s);
    CanonSepFieldCons(':', Second, tail, s, 16, 2, ZeroPad(t.second, 2));
    var r := [Lit(':')] + ([Second] + tail);
    CanonSepFieldCons(':', Minute, r, s, 13, 2, ZeroPad(t.minute, 2));
    CanonFieldCons(Hour, [Lit(':')] + ([Minute] + r), s, 11, 2, ZeroPad(t.hour, 2));
  }

  /** The text of t up to the seconds, then the canonical text of tail, is
      the canonical text of DateTimeFormat(tail). */
  lemma CanonSecondsThen(t: Moment, tail: Format, s: string)
    requires |s| >= 19 && s[..19] == IsoSeconds(t) && Canon(tail, s, 19)
    ensures Canon(DateTimeFormat(tail), s, 0)
    ensures CanonLen(DateTimeFormat(tail), s, 0) == 19 + CanonLen(tail, s, 19)
    ensures CanonGroups(DateTimeFormat(tail), s, 0) == SecondsGroups(t, CanonGroups(tail, s, 19))
  {
    IsoSecondsLayout(t, s);
    CanonTimeThen(t, tail, s);
    CanonLitCons('T', TimeFormat(tail), s, 10);
    CanonDateThen(t, [Lit('T')] + TimeFormat(tail), s);
  }

  /** A run of n digits from p is read whole by a `%f` of limit n. */
  lemma {:induction false} DigitRunWhole(s: string, p: nat, n: nat)
    requires p + n <= |s| && forall k :: p <= k < p + n ==> IsDigit(s[k])
    ensures DigitRun(s, p, n) == n
    decreases n
  {
    if n > 0 {
      DigitRunWhole(s, p + 1, n - 1);
    }
  }

  lemma DigitsRunWhole(s: string, p: nat, x: string)
    requires p + |x| <= |s| && s[p..p + |x|] == x && AllDigits(x)
    ensures DigitRun(s, p, |x|) == |x|
  {
    assert forall k :: p <= k < p + |x| ==> s[k] == x[k - p];
    DigitRunWhole(s, p, |x|);
  }

  /** `.%f` over the six fraction digits of t at index 19, then tail at index 26. */
  lemma CanonFractionThen(t: Moment, tail: Format, s: string)
    requires |s| >= 26 && s[19] == '.' && s[20..26] == ZeroPad(t.micro, 6) && Canon(tail, s, 26)
    ensures Canon(FractionFormat(tail), s, 19) && CanonLen(FractionFormat(tail), s, 19) == 7 + CanonLen(tail, s, 26)
    ensures CanonGroups(FractionFormat(tail), s, 19) == CanonGroups(tail, s, 26)[Fraction := ZeroPad(t.micro, 6)]
  {
    DigitsRunWhole(s, 20, ZeroPad(t.micro, 6));
    CanonFieldCons(Fraction, tail, s, 20, 6, ZeroPad(t.micro, 6));
    CanonLitCons('.', [Fraction] + tail, s, 19);
  }

  /** `%z` over the rewritten offset m at index p, the end of s. */
  lemma CanonZoneAt(m: int, s: string, p: nat)
    requires -1440 < m < 1440 && p + 5 == |s| && s[p..] == ZoneText(m)
    ensures Canon([Zone], s, p) && CanonLen([Zone], s, p) == 5
    ensures CanonGroups([Zone], s, p) == map[Zone := ZoneText(m)]
  {
    var a := if m < 0 then -m else m;
    PadTwo(a / 60);
    PadTwo(a % 60);
    var z := ZoneText(m);
    assert z[1] == ZeroPad(a / 60, 2)[0] && z[2] == ZeroPad(a / 60, 2)[1];
    assert z[3] == ZeroPad(a % 60, 2)[0] && z[4] == ZeroPad(a % 60, 2)[1];
    assert DigitValue(z[3]) <= 5;
    assert s[p..p + 5] == z;
    assert [Zone] + [] == [Zone];
    CanonFieldCons(Zone, [], s, p, 5, z);
  }

  /** A literal `Z` at index p, the end of s. */
  lemma CanonZuluAt(s: string, p: nat)
    requires p + 1 == |s| && s[p] == 'Z'
    ensures Canon([Lit('Z')], s, p) && CanonLen([Lit('Z')], s, p) == 1 && CanonGroups([Lit('Z')], s, p) == map[]
  {
    assert [Lit('Z')] + [] == [Lit('Z')];
    CanonLitCons('Z', [], s, p);
  }

  // ---------------------------------------------------------------- formats that fail

  /** `%Y-%m-%dT%H:%M:%S` leaves unconverted data after the seconds. */
  lemma SecondsLeaveRest(t: Moment, s: string)
    requires |s| > 19 && s[..19] == IsoSeconds(t)
    ensures Parse(s, DateTimeFormat([])) == Err(ValueError)
  {
    CanonSecondsThen(t, [], s);
    CanonParse(DateTimeFormat([]), s);
  }

  /** The text up to the seconds is the canonical text of `%Y-%m-%dT%H:%M:%S`. */
  lemma SecondsPrefix(t: Moment, s: string)
    requires |s| >= 19 && s[..19] == IsoSeconds(t)
    ensures Canon(DateTimeFormat([]), s, 0) && CanonLen(DateTimeFormat([]), s, 0) == 19
  {
    CanonSecondsThen(t, [], s);
  }

  /** The text up to the fraction is the canonical text of `%Y-%m-%dT%H:%M:%S.%f`. */
  lemma FractionPrefix(t: Moment, s: string)
    requires |s| >= 26 && s[..19] == IsoSeconds(t) && s[19] == '.' && s[20..26] == ZeroPad(t.micro, 6)
    ensures Canon(DateTimeFormat(FractionFormat([])), s, 0) && CanonLen(DateTimeFormat(FractionFormat([])), s, 0) == 26
  {
    CanonFractionThen(t, [], s);
    CanonSecondsThen(t, FractionFormat([]), s);
  }

  /** A format whose part after the seconds cannot match there fails. */
  lemma SecondsThenFail(t: Moment, tail: Format, s: string)
    requires |s| >= 19 && s[..19] == IsoSeconds(t)
    requires tail != [] && Guarded(tail) && StartsNonDigit(tail[0]) && Match(tail, s, 19).None?
    ensures Parse(s, DateTimeFormat(tail)) == Err(ValueError)
  {
    DateTimeFormatSplit(tail);
    SecondsPrefix(t, s);
    GuardedDateTime(tail);
    CanonPrefixFail(DateTimeFormat([]), tail, s, 19);
  }

  /** `.%f` leaves unconverted data after the six fraction digits. */
  lemma FractionLeavesRest(t: Moment, s: string)
    requires |s| > 26 && s[..19] == IsoSeconds(t) && s[19] == '.' && s[20..26] == ZeroPad(t.micro, 6)
    ensures Parse(s, DateTimeFormat(FractionFormat([]))) == Err(ValueError)
  {
    CanonFractionThen(t, [], s);
    CanonSecondsThen(t, FractionFormat([]), s);
    CanonParse(DateTimeFormat(FractionFormat([])), s);
  }

  /** A format whose part after the fraction cannot match there fails. */
  lemma FractionThenFail(t: Moment, tail: Format, s: string)
    requires |s| >= 26 && s[..19] == IsoSeconds(t) && s[19] == '.' && s[20..26] == ZeroPad(t.micro, 6)
    requires tail != [] && Guarded(tail) && StartsNonDigit(tail[0]) && Match(tail, s, 26).None?
    ensures Parse(s, DateTimeFormat(FractionFormat(tail))) == Err(ValueError)
  {
    FractionSplit(tail);
    var pre := DateTimeFormat(FractionFormat([]));
    FractionPrefix(t, s);
    GuardedFraction(tail);
    GuardedDateTime(FractionFormat(tail));
    CanonPrefixFail(pre, tail, s, 26);
  }

  /** A literal `Z` does not match at a character other than `Z` or `z`. */
  lemma ZuluMisses(s: string, p: nat)
    requires p < |s| && LowerChar(s[p]) != 'z'
    ensures Match([Lit('Z')], s, p).None?
  {
  }

  /** `%z` does not match at a character other than a sign. */
  lemma ZoneMisses(s: string, p: nat)
    requires p < |s| && s[p] != '+' && s[p] != '-'
    ensures Match([Zone], s, p).None?
  {
  }

  // ---------------------------------------------------------------- formats that convert

  /** `%z` reads the rewritten offset m back as m minutes. */
  lemma ZoneValue(m: int)
    requires -1440 < m < 1440
    ensures |ZoneText(m)| == 5 && (ZoneText(m)[0] == '+' || ZoneText(m)[0] == '-')
    ensures FieldNumber(Zone, ZoneText(m)) == m
  {
    var a := if m < 0 then -m else m;
    PadTwo(a / 60);
    PadTwo(a % 60);
    PadValue(a / 60, 2);
    PadValue(a % 60, 2);
    var z := ZoneText(m);
    assert z[1..3] == ZeroPad(a / 60, 2) && z[3..] == ZeroPad(a % 60, 2);
  }

  /** `%f` reads six fraction digits back as the microseconds. */
  lemma FractionValue(n: nat)
    requires n < 1000000
    ensures |ZeroPad(n, 6)| == 6 && FieldNumber(Fraction, ZeroPad(n, 6)) == n
  {
    assert UtilsLemmas.Pow10(6) == 1000000;
    PadWidth(n, 6);
    PadValue(n, 6);
    assert ZeroPad(n, 6) + Zeros(0) == ZeroPad(n, 6);
  }

  /** A field other than `%f` and `%z`, captured zero-padded, reads back as its number. */
  lemma PaddedField(G: map<Directive, string>, d: Directive, n: nat, w: nat, default: int)
    requires d in G && G[d] == ZeroPad(n, w) && !d.Fraction? && !d.Zone?
    ensures FieldOr(G, d, default) == n
  {
    PadValue(n, w);
  }

  /** The six fields up to the seconds read back as those of t. */
  lemma SecondsFields(t: Moment, g: map<Directive, string>)
    ensures var G := SecondsGroups(t, g);
      FieldOr(G, Year, 1900) == t.date.year && FieldOr(G, Month, 1) == t.date.month
      && FieldOr(G, Strptime.Day, 1) == t.date.day && FieldOr(G, Hour, 0) == t.hour
      && FieldOr(G, Minute, 0) == t.minute && FieldOr(G, Second, 0) == t.second
  {
    var G := SecondsGroups(t, g);
    PaddedField(G, Year, t.date.year, 4, 1900);
    PaddedField(G, Month, t.date.month, 2, 1);
    PaddedField(G, Strptime.Day, t.date.day, 2, 1);
    PaddedField(G, Hour, t.hour, 2, 0);
    PaddedField(G, Minute, t.minute, 2, 0);
    PaddedField(G, Second, t.second, 2, 0);
  }

  /** The fraction and the offset read back as those of t. */
  lemma TailFields(t: Moment)
    ensures var G := SecondsGroups(t, TailGroups(t));
      FieldOr(G, Fraction, 0) == t.micro
      && (Zone in G <==> t.offset.Some?) && (Zone in G ==> FieldNumber(Zone, G[Zone]) == t.offset.value)
  {
    if t.micro != 0 {
      FractionValue(t.micro);
    }
    if t.offset.Some? {
      ZoneValue(t.offset.value);
    }
  }

  /** The fields of t, captured as `isoformat()` writes them, build t. */
  lemma BuildIso(t: Moment)
    ensures Build(SecondsGroups(t, TailGroups(t))) == Ok(t)
  {
    SecondsFields(t, TailGroups(t));
    TailFields(t);
  }

  /** The date of d, captured as `isoformat()` writes it, builds midnight of d. */
  lemma BuildIsoDate(d: Day)
    ensures Build(map[][Strptime.Day := ZeroPad(d.day, 2)][Month := ZeroPad(d.month, 2)][Year := ZeroPad(d.year, 4)])
            == Ok(Midnight(d))
  {
    PadValue(d.year, 4);
    PadValue(d.month, 2);
    PadValue(d.day, 2);
  }

  /** A date-and-time format converts the text of t when the part after the
      seconds is canonical, ends the text and captures what t has there. */
  lemma SecondsThenConvert(t: Moment, tail: Format, s: string)
    requires |s| >= 19 && s[..19] == IsoSeconds(t) && Canon(tail, s, 19)
    requires 19 + CanonLen(tail, s, 19) == |s| && CanonGroups(tail, s, 19) == TailGroups(t)
    ensures Parse(s, DateTimeFormat(tail)) == Ok(t)
  {
    CanonSecondsThen(t, tail, s);
    CanonParse(DateTimeFormat(tail), s);
    BuildIso(t);
  }

  // ---------------------------------------------------------------- the first format that converts

  lemma FirstSkip(s: string, i: nat, f: Format)
    requires i < FormatCount && f == FormatAt(i) && Parse(s, f).Err?
    ensures FirstFormat(s, i) == FirstFormat(s, i + 1)
  {
    assert Attempts(s)[i] == Parse(s, f);
  }

  lemma FirstHit(s: string, i: nat, f: Format)
    requires i < FormatCount && f == FormatAt(i) && Parse(s, f).Ok?
    ensures FirstFormat(s, i) == Parse(s, f)
  {
    assert Attempts(s)[i] == Parse(s, f);
  }

  // ---------------------------------------------------------------- the offset rewrite on isoformat text

  lemma NoNewlineJoin(a: string, b: string)
    requires NoNewline(a) && NoNewline(b)
    ensures NoNewline(a + b)
  {
    assert forall i :: |a| <= i < |a + b| ==> (a + b)[i] == b[i - |a|];
  }

  lemma DigitsNoNewline(x: string)
    requires AllDigits(x)
    ensures NoNewline(x)
  {
  }

  /** `isoformat()` text holds no newline before its offset. */
  lemma IsoNoNewline(t: Moment)
    ensures NoNewline(IsoSeconds(t) + FractionText(t))
  {
    var y, mo, d := ZeroPad(t.date.year, 4), ZeroPad(t.date.month, 2), ZeroPad(t.date.day, 2);
    var h, mi, sec := ZeroPad(t.hour, 2), ZeroPad(t.minute, 2), ZeroPad(t.second, 2);
    DigitsNoNewline(y);
    DigitsNoNewline(mo);
    DigitsNoNewline(d);
    DigitsNoNewline(h);
    DigitsNoNewline(mi);
    DigitsNoNewline(sec);
    NoNewlineJoin(y, "-");
    NoNewlineJoin(y + "-", mo);
    NoNewlineJoin(y + "-" + mo, "-");
    NoNewlineJoin(y + "-" + mo + "-", d);
    var date := IsoDate(t.date);
    NoNewlineJoin(date, "T");
    NoNewlineJoin(date + "T", h);
    NoNewlineJoin(date + "T" + h, ":");
    NoNewlineJoin(date + "T" + h + ":", mi);
    NoNewlineJoin(date + "T" + h + ":" + mi, ":");
    NoNewlineJoin(date + "T" + h + ":" + mi + ":", sec);
    if t.micro != 0 {
      DigitsNoNewline(ZeroPad(t.micro, 6));
      NoNewlineJoin(".", ZeroPad(t.micro, 6));
    }
    NoNewlineJoin(IsoSeconds(t), FractionText(t));
  }

  /** Text with no sign three or six characters from its end and no final
      newline has neither offset shape, so the rewrite leaves it alone. */
  lemma NormaliseNoOffset(s: string)
    requires |s| >= 7 && s[|s| - 1] != '\n'
    requires s[|s| - 3] != '+' && s[|s| - 3] != '-' && s[|s| - 6] != '+' && s[|s| - 6] != '-'
    ensures NormaliseOffset(s) == s
  {
    assert DollarEnd(s) == s;
  }

  lemma JoinFour(pre: string, a: string, b: string, c: string, d: string)
    ensures pre + (a + b + c + d) == pre + a + b + c + d
    ensures pre + (a + b + d) == pre + a + b + d
  {
  }

  /** `isoformat()` and `%z` spell an offset with the same sign and digits. */
  lemma OffsetPieces(m: int)
    ensures var a := if m < 0 then -m else m;
      var sign, h, mm := if m < 0 then '-' else '+', ZeroPad(a / 60, 2), ZeroPad(a % 60, 2);
      OffsetText(Some(m)) == [sign] + h + ":" + mm && ZoneText(m) == [sign] + h + mm
  {
  }

  /** The `+HH:MM` offset of aware `isoformat()` text loses its colon. */
  lemma NormaliseAware(t: Moment)
    requires t.offset.Some?
    ensures NormaliseOffset(IsoDateTime(t)) == RewrittenIso(t)
  {
    var m := t.offset.value;
    var a := if m < 0 then -m else m;
    var sign, h, mm := if m < 0 then '-' else '+', ZeroPad(a / 60, 2), ZeroPad(a % 60, 2);
    PadTwo(a / 60);
    PadTwo(a % 60);
    var pre := IsoSeconds(t) + FractionText(t);
    FieldWidths(t);
    IsoNoNewline(t);
    OffsetPieces(m);
    JoinFour(pre, [sign], h, ":", mm);
    NormaliseColonOffset(pre, sign, h, mm);
  }

  /** Naive `isoformat()` text is left alone. */
  lemma NormaliseNaive(t: Moment)
    requires t.offset.None?
    ensures NormaliseOffset(IsoDateTime(t)) == RewrittenIso(t)
  {
    var s := IsoDateTime(t);
    FieldWidths(t);
    IsoSecondsLayout(t, IsoSeconds(t));
    if t.micro == 0 {
      assert s == IsoSeconds(t);
    } else {
      FractionValue(t.micro);
      var f := ZeroPad(t.micro, 6);
      assert s == IsoSeconds(t) + "." + f;
      assert s[20] == f[0] && s[23] == f[3] && s[25] == f[5];
    }
    NormaliseNoOffset(s);
  }

  /** A `Z` after the seconds is left alone. */
  lemma NormaliseZulu(t: Moment)
    ensures NormaliseOffset(IsoSeconds(t) + "Z") == IsoSeconds(t) + "Z"
  {
    var s := IsoSeconds(t) + "Z";
    FieldWidths(t);
    IsoSecondsLayout(t, s);
    assert s[14] == s[14..16][0] && s[17] == s[17..19][0];
    NormaliseNoOffset(s);
  }

  /** `date.isoformat()` text is left alone: its `-DD` end is not after a `T`. */
  lemma NormaliseIsoDate(d: Day)
    ensures NormaliseOffset(IsoDate(d)) == IsoDate(d)
  {
    var s := IsoDate(d);
    FieldWidths(Midnight(d));
    IsoDateLayout(Midnight(d), s);
    assert DollarEnd(s) == s;
    assert !HasHourOffset(s) by {
      assert s[1] == s[..4][1] && s[2] == s[..4][2] && s[3] == s[..4][3] && s[5] == s[5..7][0];
    }
  }

  // ---------------------------------------------------------------- which format converts which text

  /** Naive whole seconds: `%Y-%m-%dT%H:%M:%S`, the first format, converts. */
  lemma FirstNaiveWhole(t: Moment)
    requires t.micro == 0 && t.offset.None?
    ensures FirstFormat(RewrittenIso(t), 0) == Ok(t)
  {
    var s := RewrittenIso(t);
    FieldWidths(t);
    assert s == IsoSeconds(t) && s[..19] == IsoSeconds(t);
    SecondsThenConvert(t, [], s);
    FormatsWhole();
    FirstHit(s, 0, DateTimeFormat([]));
  }

  /** Aware whole seconds: the third format, `%Y-%m-%dT%H:%M:%S%z`, is the first to convert. */
  lemma FirstAwareWhole(t: Moment)
    requires t.micro == 0 && t.offset.Some?
    ensures FirstFormat(RewrittenIso(t), 0) == Ok(t)
  {
    var m := t.offset.value;
    var s := RewrittenIso(t);
    FieldWidths(t);
    ZoneValue(m);
    assert s == IsoSeconds(t) + ZoneText(m);
    assert s[..19] == IsoSeconds(t) && s[19..] == ZoneText(m) && s[19] == ZoneText(m)[0];
    FormatsWhole();
    SecondsLeaveRest(t, s);
    FirstSkip(s, 0, DateTimeFormat([]));
    ZuluMisses(s, 19);
    SecondsThenFail(t, [Lit('Z')], s);
    FirstSkip(s, 1, DateTimeFormat([Lit('Z')]));
    CanonZoneAt(m, s, 19);
    SecondsThenConvert(t, [Zone], s);
    FirstHit(s, 2, DateTimeFormat([Zone]));
  }

  /** Where the fraction of t sits in s. */
  lemma FractionLayout(t: Moment, s: string, rest: string)
    requires t.micro != 0 && s == IsoSeconds(t) + FractionText(t) + rest
    ensures |s| == 26 + |rest| && s[..19] == IsoSeconds(t) && s[19] == '.'
    ensures s[20..26] == ZeroPad(t.micro, 6) && s[26..] == rest
  {
    FieldWidths(t);
    FractionValue(t.micro);
    var x := IsoSeconds(t);
    var f := ZeroPad(t.micro, 6);
    assert s == x + ("." + f) + rest;
    assert s[..19] == x;
    assert s[19..] == "." + f + rest;
    assert s[20..26] == (s[19..])[1..7];
  }

  /** Naive with a fraction: the fourth format, `%Y-%m-%dT%H:%M:%S.%f`, is the first to convert. */
  lemma FirstNaiveFraction(t: Moment)
    requires t.micro != 0 && t.offset.None?
    ensures FirstFormat(RewrittenIso(t), 0) == Ok(t)
  {
    var s := RewrittenIso(t);
    assert s == IsoSeconds(t) + FractionText(t) + "";
    FractionLayout(t, s, "");
    WholeFormatsFail(t, s);
    FractionConverts(t, s);
  }

  lemma FractionConverts(t: Moment, s: string)
    requires t.micro != 0 && t.offset.None? && |s| == 26
    requires s[..19] == IsoSeconds(t) && s[19] == '.' && s[20..26] == ZeroPad(t.micro, 6)
    ensures FirstFormat(s, 3) == Ok(t)
  {
    FormatsFraction();
    CanonFractionThen(t, [], s);
    SecondsThenConvert(t, FractionFormat([]), s);
    FirstHit(s, 3, DateTimeFormat(FractionFormat([])));
  }

  /** The formats with whole seconds all fail on text with a fraction. */
  lemma WholeFormatsFail(t: Moment, s: string)
    requires |s| > 19 && s[..19] == IsoSeconds(t) && s[19] == '.'
    ensures FirstFormat(s, 0) == FirstFormat(s, 3)
  {
    FormatsWhole();
    SecondsLeaveRest(t, s);
    FirstSkip(s, 0, DateTimeFormat([]));
    ZuluMisses(s, 19);
    SecondsThenFail(t, [Lit('Z')], s);
    FirstSkip(s, 1, DateTimeFormat([Lit('Z')]));
    ZoneMisses(s, 19);
    SecondsThenFail(t, [Zone], s);
    FirstSkip(s, 2, DateTimeFormat([Zone]));
  }

  /** Aware with a fraction: the sixth format, `%Y-%m-%dT%H:%M:%S.%f%z`, is the first to convert. */
  lemma FirstAwareFraction(t: Moment)
    requires t.micro != 0 && t.offset.Some?
    ensures FirstFormat(RewrittenIso(t), 0) == Ok(t)
  {
    var m := t.offset.value;
    var s := RewrittenIso(t);
    ZoneValue(m);
    FractionLayout(t, s, ZoneText(m));
    assert s[26] == ZoneText(m)[0];
    WholeFormatsFail(t, s);
    AwareFractionConverts(t, s);
  }

  lemma AwareFractionConverts(t: Moment, s: string)
    requires t.micro != 0 && t.offset.Some? && |s| == 31
    requires s[..19] == IsoSeconds(t) && s[19] == '.' && s[20..26] == ZeroPad(t.micro, 6)
    requires s[26..] == ZoneText(t.offset.value) && (s[26] == '+' || s[26] == '-')
    ensures FirstFormat(s, 3) == Ok(t)
  {
    var m := t.offset.value;
    FormatsFraction();
    FractionLeavesRest(t, s);
    FirstSkip(s, 3, DateTimeFormat(FractionFormat([])));
    ZuluMisses(s, 26);
    FractionThenFail(t, [Lit('Z')], s);
    FirstSkip(s, 4, DateTimeFormat(FractionFormat([Lit('Z')])));
    CanonZoneAt(m, s, 26);
    CanonFractionThen(t, [Zone], s);
    SecondsThenConvert(t, FractionFormat([Zone]), s);
    FirstHit(s, 5, DateTimeFormat(FractionFormat([Zone])));
  }

  // ---------------------------------------------------------------- round trips

  /** The rewritten text of t converts back to t, by whichever format fits it. */
  lemma RewrittenConverts(t: Moment)
    ensures FirstFormat(RewrittenIso(t), 0) == Ok(t)
  {
    if t.offset.Some? && t.micro == 0 {
      FirstAwareWhole(t);
    } else if t.offset.Some? {
      FirstAwareFraction(t);
    } else if t.micro == 0 {
      FirstNaiveWhole(t);
    } else {
      FirstNaiveFraction(t);
    }
  }

  /** parseDate reads `datetime.isoformat()` text back as the same datetime,
      naive or aware, with or without a fraction. */
  lemma IsoDateTimeRoundTrip(t: Moment)
    ensures ParseDate(Str(IsoDateTime(t))) == Ok(t)
  {
    if t.offset.Some? {
      NormaliseAware(t);
    } else {
      NormaliseNaive(t);
    }
    RewrittenConverts(t);
  }

  /** `YYYY-MM-DDTHH:MM:SSZ` gives the naive datetime of its fields: the `Z`
      is matched as a literal by the second format, and no offset is kept. */
  lemma ZuluIsNaive(t: Moment)
    requires t.micro == 0 && t.offset.None?
    ensures ParseDate(Str(IsoSeconds(t) + "Z")) == Ok(t)
  {
    var s := IsoSeconds(t) + "Z";
    NormaliseZulu(t);
    FieldWidths(t);
    assert s[..19] == IsoSeconds(t);
    FormatsWhole();
    SecondsLeaveRest(t, s);
    FirstSkip(s, 0, DateTimeFormat([]));
    CanonZuluAt(s, 19);
    SecondsThenConvert(t, [Lit('Z')], s);
    FirstHit(s, 1, DateTimeFormat([Lit('Z')]));
  }

  /** The formats with a time all fail on text as short as a date. */
  lemma TimeFormatsTooShort(s: string)
    requires |s| < 14
    ensures FirstFormat(s, 0) == FirstFormat(s, 6)
  {
    FormatsWhole();
    FormatsFraction();
    DateTimeMinLen([]);
    DateTimeMinLen([Lit('Z')]);
    DateTimeMinLen([Zone]);
    DateTimeMinLen(FractionFormat([]));
    DateTimeMinLen(FractionFormat([Lit('Z')]));
    DateTimeMinLen(FractionFormat([Zone]));
    ParseTooShort(s, DateTimeFormat([]));
    FirstSkip(s, 0, DateTimeFormat([]));
    ParseTooShort(s, DateTimeFormat([Lit('Z')]));
    FirstSkip(s, 1, DateTimeFormat([Lit('Z')]));
    ParseTooShort(s, DateTimeFormat([Zone]));
    FirstSkip(s, 2, DateTimeFormat([Zone]));
    ParseTooShort(s, DateTimeFormat(FractionFormat([])));
    FirstSkip(s, 3, DateTimeFormat(FractionFormat([])));
    ParseTooShort(s, DateTimeFormat(FractionFormat([Lit('Z')])));
    FirstSkip(s, 4, DateTimeFormat(FractionFormat([Lit('Z')])));
    ParseTooShort(s, DateTimeFormat(FractionFormat([Zone])));
    FirstSkip(s, 5, DateTimeFormat(FractionFormat([Zone])));
  }

  /** `%Y-%m-%d` converts `date.isoformat()` text to midnight of the date. */
  lemma DateConverts(d: Day)
    ensures Parse(IsoDate(d), DateFormat([])) == Ok(Midnight(d))
  {
    var s := IsoDate(d);
    FieldWidths(Midnight(d));
    CanonDateThen(Midnight(d), [], s);
    CanonParse(DateFormat([]), s);
    BuildIsoDate(d);
  }

  /** parseDate reads `date.isoformat()` text back as midnight of that date,
      through the seventh format, `%Y-%m-%d`. */
  lemma IsoDateRoundTrip(d: Day)
    ensures ParseDate(Str(IsoDate(d))) == Ok(Midnight(d))
  {
    var s := IsoDate(d);
    NormaliseIsoDate(d);
    FieldWidths(Midnight(d));
    TimeFormatsTooShort(s);
    DateConverts(d);
    FormatDateOnly();
    FirstHit(s, 6, DateFormat([]));
  }
}
