# sld_snake filter core in Dafny

sld_snake builds OGC Filter Encoding 1.1 filters for SLD styles and can also
*simulate* them: it evaluates a filter tree against one feature record (a
Python dict) the way GeoServer's Java code would. This project models that
simulation core:

- **Value coercion** (`Utils`, `UtilsLemmas`, `Strptime`, `DateLemmas`).
  Covers `stringify` (Java spellings of None, booleans, NaN and infinities,
  and datetimes cut to milliseconds), `parseBool`, and the Java-style
  `parseDouble`. Also covers `parseDate`: it rewrites the UTC offset, then
  tries eighteen `strptime` formats in a fixed order until one matches. `Strptime`
  models the part of Python's `strptime` those formats use.
- **Expressions** (`OgcBase`, `BinaryOps`, `Mixins`).
  - `Expression.wrap`, `Literal` (which keeps only the text of its value) and
    `PropertyName` lookup.
  - The four arithmetic operators over doubles with NaN and infinities; any
    zero divisor gives +Infinity.
  - The operand, propertyName and matchCase setters, and the in-place
    `+=`-style operators.
- **Comparisons** (`ComparisonOps`, `Like`).
  - The tri-state `_compare_values`.
  - The staged coercion of `BinaryComparisonOp.simulate`: numbers first,
    then dates, then booleans, then text.
  - The six PropertyIs* predicates, PropertyIsNull and PropertyIsBetween.
  - PropertyIsLike: its pattern compiler, a list of tokens rewritten in place
    in two passes; its token validation; and a matcher for the compiled
    pattern.
- **Logical operators** (`LogicOps`).
  - Not, And and Or evaluation; And and Or accept only a result that is
    exactly `True`.
  - `~`, `&` and `|`, including the in-place splicing of a combinator of the
    same kind.
  - The `LogicDict` that keeps a combinator's conditions under keys
    0..n-1. It checks each value's type on insertion and compacts keys when
    one is deleted.
- **Element base** (`SldBase`).
  - `SLDConfig` validation.
  - The children-versus-text rule of `etree`.
  - The character loop of `xml(no_xmlns=True)` that removes namespace
    declarations from tags.

State that the Python code updates in place is modelled as classes:
- `Mixins.Element`: an element's `children` and `attrib`.
- `LogicOps.LogicDict` and `LogicOps.Combinator`.
- `SldBase.SldConfig`.

Each method of these classes is proved equal to a function that specifies
it. The properties are stated as lemmas about those functions.

Python exceptions are values of `Wrappers.Error`, returned in a `Result`.
An `UnboundLocalError` or an undefined global name is `NameError`.
`Unmodelled` marks the single regex case the LIKE matcher does not decide.

The code differs from a plain reading of what the library is meant to do in
a few places. The model follows the code in each of them:
- Deleting a key from a `LogicDict` compacts the keys only when they are
  already 0..n-1 in order. Out-of-order keys keep a stale entry, and sparse
  keys raise `RuntimeError`: `DeleteOutOfOrderKeys` and
  `DeleteSparseKeysRaises` show both.
- `prepend_condition` replaces the type-checked dictionary with a plain
  one.
- `parseDate` appends `00` to an hour-only offset only after a `T`.
  - It raises `ValueError` when no format matches.
  - It raises `NameError` for a value that is neither text nor a date.
- `_compare_values` never lowers the case of strings: that code follows a
  `return`.
- `stringify` truncates the fraction of a datetime only when the datetime
  is naive.

## Model

| member | source | states |
|---|---|---|
| Utils.Stringify | sld_snake/utils.py:8-35 | stringify itself; StringifyEmpty, StringifyDateTime, ParseBoolOfStringify and ParseDoubleOfFloatText prove which texts are empty, how datetimes are cut and that parseBool and parseDouble read its text back |
| UtilsLemmas.StringifyEmpty | sld_snake/utils.py:8-35 | only None and the empty string render as empty text |
| UtilsLemmas.StringifyDateTime | sld_snake/utils.py:15-21 | a naive datetime with a fraction keeps three of its six fractional digits; a datetime without a fraction, or with a UTC offset, keeps its full isoformat text |
| UtilsLemmas.ParseBoolOfStringify | sld_snake/utils.py:23-24 | parseBool reads back the text stringify writes for True and False |
| Utils.ParseBool | sld_snake/utils.py:38-43 | True exactly for True, 1, 1.0, 'true' and '1'; False exactly for False, 0, 0.0, 'false' and '0'; ValueError otherwise |
| Utils.ParseText | sld_snake/utils.py:53-70 | parsing text fails only with ValueError |
| Utils.ParseDouble | sld_snake/utils.py:46-72 | succeeds only on int, float, None and str; TypeError exactly for every other kind that fails, ValueError for text |
| UtilsLemmas.ParseDoubleOfStr | sld_snake/utils.py:53-54 | text is stripped before it is parsed |
| UtilsLemmas.ParseDoubleIgnoresPadding | sld_snake/utils.py:54 | leading and trailing whitespace never changes the result |
| UtilsLemmas.ParseDoubleNaN | sld_snake/utils.py:55-58 | NaN comes only from exactly 'NaN', '+NaN' or '-NaN'; any other case of nan raises ValueError |
| UtilsLemmas.ParseDoubleInfinity | sld_snake/utils.py:60-65 | 'inf' in any case raises ValueError; '[+]Infinity' and '-Infinity' give the signed infinity |
| UtilsLemmas.ParseDoubleSignedInfQuirk | sld_snake/utils.py:67-68 | '+inf', '-inf' and 'INFINITY' still reach float() and are accepted |
| UtilsLemmas.ParseDoubleRejectsForeignChar | sld_snake/utils.py:67-70 | text holding a character that cannot appear in a number (a comma, say) raises ValueError |
| UtilsLemmas.BoolWordIsNoNumber | sld_snake/utils.py:67-70 | 'true' and 'false' in any case are not numbers |
| UtilsLemmas.ParseDoubleOfIntText | sld_snake/utils.py:46-72 | parseDouble of the text of an int gives that int as a float |
| UtilsLemmas.ParseDoubleOfFloatText | sld_snake/utils.py:26-35 | parseDouble reads back stringify of NaN, of both infinities and of every integral float |
| UtilsLemmas.ParseDoubleOfDecimalText | sld_snake/utils.py:67-68 | a signed decimal numeral parses to its exact value |
| Utils.NormaliseOffset | sld_snake/utils.py:84-91 | the offset rewrite parseDate applies before trying formats; NormaliseColonOffset, NormaliseHourOffset and NormaliseKeepsPlainText prove the colon is dropped from `±HH:MM`, `00` is appended to an hour-only offset after a `T`, and other text is kept |
| DateLemmas.NormaliseColonOffset | sld_snake/utils.py:84-87 | a trailing `±HH:MM` offset loses its colon |
| DateLemmas.NormaliseHourOffset | sld_snake/utils.py:88-91 | an hour-only offset after a `T` gets `00` appended |
| DateLemmas.NormaliseKeepsPlainText | sld_snake/utils.py:84-91 | text without an offset is not rewritten |
| Strptime.Parse | sld_snake/utils.py:105 | strptime fails only with ValueError |
| Strptime.Build | sld_snake/utils.py:105 | a parsed value is aware exactly when the format has `%z` |
| Strptime.AltsInRegexOrder | sld_snake/utils.py:105 | the field widths are tried in the order Python's regex alternation tries them |
| Strptime.ParseTooShort | sld_snake/utils.py:105 | text shorter than the format's minimum never parses |
| Strptime.CanonParse | sld_snake/utils.py:105 | text whose fields have canonical widths parses exactly when it is fully consumed, into the values of those fields |
| Utils.FirstFormat | sld_snake/utils.py:93-110 | the result is that of some format at or after the start, and failure is ValueError |
| Utils.FirstFormatWins | sld_snake/utils.py:97-110 | the loop converts exactly when some format converts the text, and then returns the conversion by the first such format in product order |
| Utils.TryFormats | sld_snake/utils.py:97-110 | the first-success loop over the format product returns what FirstFormat specifies |
| Utils.ParseDate | sld_snake/utils.py:75-113 | a datetime is returned unchanged and a date becomes naive midnight of that day; NameError exactly for values that are neither text, a date nor a datetime; ValueError for text that no format matches |
| DateLemmas.FormatsWhole | sld_snake/utils.py:93-104 | the first three formats of the product are date, `T` and whole seconds, followed by nothing, `Z` and `%z` |
| DateLemmas.FormatsFraction | sld_snake/utils.py:93-104 | the next three add `.%f` after the seconds, followed by nothing, `Z` and `%z` |
| DateLemmas.FormatDateOnly | sld_snake/utils.py:93-104 | the seventh format is the date alone |
| DateLemmas.NormaliseAware | sld_snake/utils.py:84-87 | the `+HH:MM` offset of aware `isoformat()` text loses its colon, giving the `±HHMM` that `%z` reads |
| DateLemmas.NormaliseNaive | sld_snake/utils.py:84-91 | naive `isoformat()` text is not rewritten |
| DateLemmas.NormaliseIsoDate | sld_snake/utils.py:88-91 | `YYYY-MM-DD` is not rewritten, although it ends in `-DD`, because no `T` precedes it |
| DateLemmas.IsoDateTimeRoundTrip | sld_snake/utils.py:75-110 | parseDate of `datetime.isoformat()` text gives back the same datetime, naive or aware, with or without microseconds |
| DateLemmas.ZuluIsNaive | sld_snake/utils.py:93-110 | `YYYY-MM-DDTHH:MM:SSZ` is converted by the `Z` format to the naive datetime of its fields |
| DateLemmas.IsoDateRoundTrip | sld_snake/utils.py:75-110 | parseDate of `date.isoformat()` text gives midnight of that date, through the date-only format after every format with a time fails |
| Utils.ParseDateLoop | sld_snake/utils.py:75-113 | the imperative parseDate, with its rewriting of the local text, equals ParseDate |
| BinaryOps.Apply | sld_snake/ogc/binary_ops.py:23-48 | any zero divisor gives +Infinity; a NaN operand gives NaN; finite operands give the exact real result; a finite result needs finite operands, except a finite number divided by an infinity |
| BinaryOps.SubIsAddNegated | sld_snake/ogc/binary_ops.py:29-32 | subtraction is addition of the negation |
| BinaryOps.AddMulCommute | sld_snake/ogc/binary_ops.py:23-38 | Add and Mul do not depend on operand order |
| BinaryOps.SubDivSwap | sld_snake/ogc/binary_ops.py:29-48 | swapping Sub's operands negates the result for every pair of doubles; swapping Div's inverts a finite non-zero quotient; a zero operand gives 0 one way and +Infinity the other |
| BinaryOps.InfinityArithmetic | sld_snake/ogc/binary_ops.py:23-48 | for either infinity and every finite x: opposite infinities cancel to NaN, the infinity absorbs x in a sum, times 0 it is NaN and times non-zero x it is the infinity of the product's sign, x divided by it is 0, and it divided by an infinity is NaN |
| BinaryOps.DivUndoesMul | sld_snake/ogc/binary_ops.py:41-48 | dividing a product by a non-zero finite factor gives the other factor back |
| OgcBase.NewLiteral | sld_snake/ogc/base.py:83-85 | a Literal stores the text stringify gives its value |
| OgcBase.Wrap | sld_snake/ogc/base.py:36-42 | an Expression is returned unchanged, a plain value becomes a Literal, anything else raises TypeError |
| OgcBase.NewPropertyName | sld_snake/ogc/base.py:94-100 | a PropertyName is built exactly from text; anything else raises TypeError |
| OgcBase.Simulate | sld_snake/ogc/base.py:87-109 | a Literal yields its text whatever the data; a PropertyName raises TypeError on non-dict data and ValueError on a missing key, and otherwise yields the stored value unchanged; arithmetic yields a float |
| OgcBase.Build | sld_snake/ogc/binary_ops.py:12-15 | an arithmetic node wraps both operands in order; TypeError if either cannot be wrapped |
| OgcBase.Forward | sld_snake/ogc/base.py:44-74 | `self + other` and the other forward operators; BuilderOperandOrder proves self is the left operand and an unwrappable other raises TypeError |
| OgcBase.Reflected | sld_snake/ogc/base.py:44-74 | `other + self` and the other reflected operators; BuilderOperandOrder proves self is the right operand and an unwrappable other raises TypeError |
| OgcBase.BuilderOperandOrder | sld_snake/ogc/base.py:44-74 | forward operators put self on the left, reflected operators put the other operand on the left |
| OgcBase.LiteralKeepsTextOnly | sld_snake/ogc/base.py:83-88 | two values with the same text make the same Literal |
| OgcBase.WrappedValueSimulates | sld_snake/ogc/base.py:87-88 | a wrapped plain value simulates to its stringified text |
| OgcBase.ArithLeftErrorFirst | sld_snake/ogc/binary_ops.py:17-20 | an unparseable left operand raises its parseDouble error before the right is looked at |
| OgcBase.ArithRejectsBoolAndDates | sld_snake/ogc/binary_ops.py:17-20 | a bool, date or datetime operand raises TypeError |
| OgcBase.ArithNoneIsNaN | sld_snake/ogc/binary_ops.py:17-20 | a None left operand makes the result NaN, not an error |
| OgcBase.DivByZeroIsInfinity | sld_snake/ogc/binary_ops.py:41-48 | dividing by a value that parses to zero gives +Infinity |
| OgcBase.IntLiteralArithmetic | sld_snake/ogc/binary_ops.py:12-20 | int operands become Literals whose text parses back, so the result is the float operation on them |
| Mixins.Element.Operand | sld_snake/ogc/mixins.py:6-8 | reading expr0 or expr1 raises KeyError exactly when the key is unset |
| Mixins.SetOperand | sld_snake/ogc/mixins.py:10-12 | the wrapped value is stored under key 0 or 1; an unwrappable value raises TypeError and changes nothing; the other operand is unchanged |
| Mixins.PropertyNameOf | sld_snake/ogc/mixins.py:48-56 | text becomes a PropertyName, a PropertyName is kept, anything else is refused |
| Mixins.SetPropertyName | sld_snake/ogc/mixins.py:48-56 | the propertyName child is set as PropertyNameOf says, or TypeError with nothing changed |
| Mixins.ArithmeticIsNoPropertyName | sld_snake/ogc/mixins.py:48-56 | an arithmetic node built on a property name is refused by the propertyName setter |
| Mixins.Element.MatchCase | sld_snake/ogc/mixins.py:60-63 | matchCase is False exactly when the attribute is the text 'false'; an absent attribute reads as True |
| Mixins.MatchCaseText | sld_snake/ogc/mixins.py:65-83 | 'true' exactly for the true words, 'false' exactly for the false words, nothing for any other value |
| Mixins.SetMatchCase | sld_snake/ogc/mixins.py:65-83 | None removes the attribute; a recognised value stores 'true' or 'false' and reads back as that bool; anything else raises ValueError and changes nothing |
| Mixins.InPlace | sld_snake/ogc/mixins.py:15-30 | expr0 becomes the arithmetic node on the old expr0, and that node is returned; an unset expr0 raises KeyError |
| ComparisonOps.CompareValues | sld_snake/ogc/comparison_ops.py:23-47 | ValueError exactly when the two types differ; otherwise -1, 0 or 1; two Nones and two equal non-NaN values compare as 0 |
| ComparisonOps.CompareValuesAntisymmetric | sld_snake/ogc/comparison_ops.py:43-47 | swapping the operands negates the result when neither is NaN |
| ComparisonOps.NaNComparesSmallerBothWays | sld_snake/ogc/comparison_ops.py:43-47 | NaN against any float gives -1 in both orders |
| ComparisonOps.NaiveReadAsUtc | sld_snake/ogc/comparison_ops.py:34-41 | a naive datetime is ordered as if it were UTC against an aware one, in both orders |
| ComparisonOps.IntOfFloat | sld_snake/ogc/comparison_ops.py:69 | int() truncates toward zero; NaN raises ValueError, an infinity raises OverflowError |
| ComparisonOps.BoolWord | sld_snake/ogc/comparison_ops.py:65 | 'true' and 'false' in any case become 1 and 0; every other value is kept |
| ComparisonOps.BoolPartner | sld_snake/ogc/comparison_ops.py:62-78 | the int the side facing a bool becomes; BoolAgainstBoolWord and PaddedBoolWordRaises prove bool words in any case give 1 and 0 and padded words raise ValueError |
| ComparisonOps.Coerce | sld_snake/ogc/comparison_ops.py:56-78 | the second coercion stage; CoerceStaged proves it equals the source's reassignments, and NumericTextBeforeDateRaises, DateBeforeBadTextRaises and CoerceFailureRaises prove its error cases |
| ComparisonOps.BoolPartnerStaged | sld_snake/ogc/comparison_ops.py:64-69 | the staged coercion of the non-bool side equals BoolPartner |
| ComparisonOps.CoerceStaged | sld_snake/ogc/comparison_ops.py:56-78 | the reassignments of val1 and val2 in the except branch equal Coerce |
| ComparisonOps.CompareSim | sld_snake/ogc/comparison_ops.py:49-84 | the staged comparison gives -1, 0 or 1 when it succeeds |
| ComparisonOps.CompareStaged | sld_snake/ogc/comparison_ops.py:53-84 | the imperative simulate equals CompareSim |
| ComparisonOps.NumericStageFirst | sld_snake/ogc/comparison_ops.py:53-55 | when both sides parse as numbers they are compared as floats |
| ComparisonOps.NumericTextBeforeDateRaises | sld_snake/ogc/comparison_ops.py:54-60 | numeric text against a date reaches parseDate as a float and raises NameError, because val1 was already converted |
| ComparisonOps.DateBeforeBadTextRaises | sld_snake/ogc/comparison_ops.py:57-60 | a date against text that parseDate rejects raises that error |
| ComparisonOps.BoolAgainstBoolWord | sld_snake/ogc/comparison_ops.py:62-78 | a bool against 'true' or 'false' in any case compares 0/1 against 1/0, in both orders |
| ComparisonOps.PaddedBoolWordRaises | sld_snake/ogc/comparison_ops.py:64-69 | 'true ' with trailing spaces is no bool word and raises ValueError |
| ComparisonOps.CoerceFailureRaises | sld_snake/ogc/comparison_ops.py:56-78 | an error in a coercion stage is the comparison's error |
| ComparisonOps.StringifyFallback | sld_snake/ogc/comparison_ops.py:80-84 | values whose types still differ after coercion are compared as their stringified texts |
| ComparisonOps.CompareExprs | sld_snake/ogc/comparison_ops.py:49-51 | expr0 is evaluated first, then expr1, and their errors propagate in that order |
| ComparisonOps.EvalBinary | sld_snake/ogc/comparison_ops.py:87-125 | each predicate is its sign test on the tri-state result; errors propagate |
| ComparisonOps.NotEqualNegatesEqual | sld_snake/ogc/comparison_ops.py:87-98 | NotEqualTo is the negation of EqualTo whenever the comparison succeeds |
| ComparisonOps.NaNFieldIsLessBothWays | sld_snake/ogc/comparison_ops.py:100-111 | a NaN field is less than any number and any number is less than it; it is never equal or greater |
| ComparisonOps.BinaryIgnoresMatchCase | sld_snake/ogc/comparison_ops.py:30-32 | matchCase never changes a binary comparison, since the case folding follows a return |
| ComparisonOps.EvalBetween | sld_snake/ogc/comparison_ops.py:297-301 | PropertyIsBetween.simulate; BetweenShortCircuits proves the upper test runs only after a lower True |
| ComparisonOps.EvalNull | sld_snake/ogc/comparison_ops.py:266-268 | PropertyIsNull.simulate; IsNullOnlyForNone proves it is True exactly for None and passes lookup errors on |
| ComparisonOps.EvalComparison | sld_snake/ogc/comparison_ops.py:87-301 | simulate of every comparison filter, each by its own operator; the rows of EvalBinary, EvalLike, EvalNull and EvalBetween give what each one states |
| ComparisonOps.BetweenShortCircuits | sld_snake/ogc/comparison_ops.py:297-301 | the upper test runs only when the lower test is True; a lower error or False is the result |
| ComparisonOps.IsNullOnlyForNone | sld_snake/ogc/comparison_ops.py:266-268 | PropertyIsNull is True exactly for None; 0, '', False and NaN give False; lookup errors propagate |
| ComparisonOps.BinarySpec | sld_snake/ogc/comparison_ops.py:14-20 | a binary comparison holds both wrapped operands in order; TypeError if either cannot be wrapped |
| ComparisonOps.NewBinary | sld_snake/ogc/comparison_ops.py:14-20 | the constructor's setters leave expr0, expr1 and matchCase reading back as BinarySpec's result |
| ComparisonOps.NewNull | sld_snake/ogc/comparison_ops.py:262-264 | PropertyIsNull keeps the converted property name, or raises TypeError |
| ComparisonOps.BoundaryOf | sld_snake/ogc/comparison_ops.py:303-309 | a boundary object of the expected class raises NameError (an undefined name); anything else is wrapped |
| ComparisonOps.SetBoundary | sld_snake/ogc/comparison_ops.py:303-309 | the boundary child is stored as BoundaryOf says, or the error is returned with nothing changed |
| ComparisonOps.BetweenSpec | sld_snake/ogc/comparison_ops.py:291-295 | PropertyIsBetween is built exactly when the expression and both boundaries are accepted |
| ComparisonOps.NewBetween | sld_snake/ogc/comparison_ops.py:291-295 | the constructor equals BetweenSpec |
| ComparisonOps.BoundaryObjectsRejected | sld_snake/ogc/comparison_ops.py:303-325 | a LowerBoundary passed as the lower boundary raises NameError; as the upper one it raises TypeError |
| Like.ReEscape | sld_snake/ogc/comparison_ops.py:159 | word characters are kept; every other character gets a backslash |
| Like.Tokenize | sld_snake/ogc/comparison_ops.py:150-159 | the first loop classifies every character as WC, SC, EC or its escaped text |
| Like.PairPass | sld_snake/ogc/comparison_ops.py:161-165 | the in-place pass over doubled escapes equals Pair |
| Like.UnescapePass | sld_snake/ogc/comparison_ops.py:167-173 | the in-place pass over wildcards equals Unescape |
| Like.JoinPass | sld_snake/ogc/comparison_ops.py:174-182 | the joining loop equals JoinToks |
| Like.Scan | sld_snake/ogc/comparison_ops.py:144-183 | the one-pass reading of a pattern, one piece per pattern character; PassesMatchScan proves the source's in-place passes produce exactly these pieces, and ScanAppend that text after a prefix not ending in a waiting escape is read on its own |
| Like.LikeRegex | sld_snake/ogc/comparison_ops.py:144-183 | the regular expression built from Scan's pieces; PatternToRegex proves `_pattern_to_regex` returns it |
| Like.PatternToRegex | sld_snake/ogc/comparison_ops.py:144-183 | _pattern_to_regex equals LikeRegex |
| Like.PassesMatchScan | sld_snake/ogc/comparison_ops.py:150-173 | the classify and two rewrite passes give exactly the tokens of the one-pass reading Scan |
| Like.LikeMatch | sld_snake/ogc/comparison_ops.py:247-252 | fails exactly when a lone escape is left; otherwise True exactly when the pattern matches the whole text, or the text without one final newline |
| Like.OrdinaryPatternMatchesItself | sld_snake/ogc/comparison_ops.py:144-183 | when case matters (matchCase true, the default), a pattern without special characters matches exactly itself, or itself plus a final newline |
| Like.WildcardAloneMatchesAnyLine | sld_snake/ogc/comparison_ops.py:147-173 | when case matters (matchCase true, the default), a lone wildcard matches any single line; with case ignored too, by CaseOnlyAffectsLetters |
| Like.EscapedSpecialIsLiteral | sld_snake/ogc/comparison_ops.py:167-171 | when case matters (matchCase true, the default), an escaped wildcard or single-char stands for itself, the two-character pattern matching exactly that character; with case ignored and a non-letter character, too, by CaseOnlyAffectsLetters |
| Like.ScanAppend | sld_snake/ogc/comparison_ops.py:150-173 | text after a prefix that does not end in a waiting escape is translated as if it stood alone |
| Like.EscapedSpecialInContext | sld_snake/ogc/comparison_ops.py:161-173 | an escaped wildcard or single-char anywhere in a pattern becomes one literal piece, and the pattern text around it is translated unchanged |
| Like.CaseOnlyAffectsLetters | sld_snake/ogc/comparison_ops.py:248-251 | ignoring case makes no difference for a pattern without letters |
| Like.FullMatch | sld_snake/ogc/comparison_ops.py:247-252 | the whole-text match of the compiled pieces, `.` and `.*` not crossing a newline; LikeMatch proves the `re.match` result is this match on the text or the text without one final newline, and CaseOnlyAffectsLetters that re.I only matters for letters |
| Like.TokenOf | sld_snake/ogc/comparison_ops.py:185-192 | a token is exactly one character of text; TypeError for non-text, ValueError for another length |
| Like.SetToken | sld_snake/ogc/comparison_ops.py:185-192 | the attribute is set to the character, or the error is returned with nothing changed |
| Like.SetTokens | sld_snake/ogc/comparison_ops.py:134-136 | wildCard, singleChar and escapeChar are set in that order; the first failure stops |
| Like.PatternOf | sld_snake/ogc/comparison_ops.py:237-245 | text becomes a Literal, a Literal is kept, anything else is refused |
| Like.SetPattern | sld_snake/ogc/comparison_ops.py:237-245 | the pattern child is set as PatternOf says, or TypeError with nothing changed |
| Like.Validate | sld_snake/ogc/comparison_ops.py:194-202 | ValueError exactly when two of the three characters coincide |
| Like.ReadLike | sld_snake/ogc/comparison_ops.py:204-235 | the getters read matchCase and the property name back from the element |
| Like.InitLike | sld_snake/ogc/comparison_ops.py:130-133 | the property name and the pattern are set, or TypeError |
| Like.LikeTail | sld_snake/ogc/comparison_ops.py:138-142 | IllegalValue exactly when the three characters are not pairwise distinct |
| Like.LikeSpec | sld_snake/ogc/comparison_ops.py:130-142 | a built PropertyIsLike has a property name and three distinct single-character tokens; IllegalValue exactly when everything else was accepted and two tokens coincide |
| Like.FinishLike | sld_snake/ogc/comparison_ops.py:138-142 | the last steps of the constructor equal LikeTail and leave the element reading back as the result |
| Like.NewLike | sld_snake/ogc/comparison_ops.py:130-142 | the constructor equals LikeSpec, and the element reads back as the built operator |
| Like.EvalLike | sld_snake/ogc/comparison_ops.py:247-252 | clashing tokens raise ValueError before the property is looked up; lookup errors propagate |
| LogicOps.Eval | sld_snake/ogc/logic_ops.py:81-111 | simulate of Not, And and Or over the comparison results; InvertNegates, AndMeansEveryExactlyTrue and OrMeansSomeExactlyTrue prove what each computes |
| LogicOps.EvalConds | sld_snake/ogc/logic_ops.py:91-92 | `all`/`any` of `simulate(data) is True` in key order; EvalCondsSplit, AndMeansEveryExactlyTrue, OrMeansSomeExactlyTrue and PrependedScalarRaises prove it stops at the first deciding condition and only the value True counts |
| LogicOps.EvalCondsSplit | sld_snake/ogc/logic_ops.py:91-92 | all/any over a concatenation is the first part's answer unless that is the neutral one |
| LogicOps.AndMeansEveryExactlyTrue | sld_snake/ogc/logic_ops.py:91-92 | And is True exactly when every condition evaluates to exactly True |
| LogicOps.OrMeansSomeExactlyTrue | sld_snake/ogc/logic_ops.py:110-111 | Or is True exactly when some condition evaluates to exactly True after conditions that are not |
| LogicOps.PrependedScalarRaises | sld_snake/ogc/logic_ops.py:102-104 | a plain value prepended by a reflected operator makes evaluation raise AttributeError |
| LogicOps.NewNot | sld_snake/ogc/logic_ops.py:54-56 | Not accepts exactly a logic operator, otherwise TypeError |
| LogicOps.Invert | sld_snake/ogc/logic_ops.py:19-20 | `~f` (logic_ops.py:84-85 for a Not); InvertNegates and InvertTwice prove it negates the value and twice gives back f's value |
| LogicOps.InvertNegates | sld_snake/ogc/logic_ops.py:81-85 | `~f` evaluates to the negation of f, and to f's error when f fails |
| LogicOps.InvertTwice | sld_snake/ogc/logic_ops.py:84-85 | `~~f` is f itself, except that it strips two Nots from a double negation; the value is f's in every case |
| LogicOps.Flatten | sld_snake/ogc/logic_ops.py:94-100 | the conditions `&=`/`\|=` adds for one argument: a combinator of the same kind is spliced and anything else is kept as it is; no same-kind combinator is left among them |
| LogicOps.FlattenAll | sld_snake/ogc/logic_ops.py:95-97 | splicing a list of conditions one by one leaves no combinator of the same kind among them |
| LogicOps.FlattenAllSameEval | sld_snake/ogc/logic_ops.py:94-100 | splicing same-kind conditions does not change the value |
| LogicOps.SpliceKeepsMeaning | sld_snake/ogc/logic_ops.py:94-100 | splicing a combinator into one of its kind evaluates like appending it |
| LogicOps.Numbered | sld_snake/ogc/logic_ops.py:60-66 | conditions numbered in order have keys 0..n-1 and keep their order |
| LogicOps.NumberedPut | sld_snake/ogc/logic_ops.py:68-69 | storing under key len(conditions) appends at the end |
| LogicOps.Pop | sld_snake/ogc/logic_ops.py:32-43 | removing one position leaves keys 0..n-2 over the other values in order |
| LogicOps.DelLoop | sld_snake/ogc/logic_ops.py:36-43 | the renumbering loop of `__delitem__`; DeleteIsListPop, DeleteOutOfOrderKeys and DeleteSparseKeysRaises prove its outcome on dense, out-of-order and sparse keys |
| LogicOps.DelSpec | sld_snake/ogc/logic_ops.py:32-43 | `del d[key]`: KeyError for a missing key, a plain dict drops the pair, a LogicDict runs DelLoop; DelItem proves the method equals it |
| LogicOps.DeleteIsListPop | sld_snake/ogc/logic_ops.py:32-43 | deleting key k from a type-checked dict keyed 0..n-1 is a list pop at k |
| LogicOps.DeleteOutOfOrderKeys | sld_snake/ogc/logic_ops.py:32-43 | with keys out of order, deleting a key leaves a stale entry |
| LogicOps.DeleteSparseKeysRaises | sld_snake/ogc/logic_ops.py:32-43 | with sparse keys, deleting inserts a new key while the keys are iterated and raises RuntimeError |
| LogicOps.LogicDict.constructor | sld_snake/ogc/logic_ops.py:24-25 | a new LogicDict is empty and type-checked |
| LogicOps.LogicDict.Plain | sld_snake/ogc/logic_ops.py:75 | a plain OrderedDict holds the given pairs with no type check |
| LogicOps.LogicDict.SetItem | sld_snake/ogc/logic_ops.py:27-30 | a type-checked dict refuses a non-logic value with TypeError and changes nothing; otherwise the value is stored under the key |
| LogicOps.OdPutLogic | sld_snake/ogc/logic_ops.py:27-30 | storing a logic value keeps every value a logic operator |
| LogicOps.LogicDict.DelItem | sld_snake/ogc/logic_ops.py:32-43 | the deletion loop leaves the entries and the error DelSpec specifies |
| LogicOps.AppendAllSplit | sld_snake/ogc/logic_ops.py:68-69 | appending two lists is appending one and then the other |
| LogicOps.AppendAllDense | sld_snake/ogc/logic_ops.py:68-69 | appending to a dict keyed 0..n-1 numbers the new values on in order |
| LogicOps.AppendAllStopsAtStray | sld_snake/ogc/logic_ops.py:27-30 | a type-checked append succeeds only if every appended value is a logic operator |
| LogicOps.Combinator.Init | sld_snake/ogc/logic_ops.py:47-50 | a new combinator has an empty type-checked conditions dict |
| LogicOps.Combinator.Append | sld_snake/ogc/logic_ops.py:68-69 | append_condition stores under key len(conditions) |
| LogicOps.Combinator.Prepend | sld_snake/ogc/logic_ops.py:71-76 | the new condition comes first and the others follow in order, in a new plain dict |
| LogicOps.Combinator.Combine | sld_snake/ogc/logic_ops.py:94-100 | `&=`: a combinator of the same kind has its conditions appended one by one, anything else is appended |
| LogicOps.NewCombinator | sld_snake/ogc/logic_ops.py:60-66 | And/Or are built exactly from logic operators, keyed 0..n-1 in argument order; TypeError otherwise |
| LogicOps.CombineKeepsMeaning | sld_snake/ogc/logic_ops.py:113-119 | after `&`/`\|` the combinator evaluates like one holding the old conditions and the argument |
| SldBase.IsSldVersion | sld_snake/base.py:24-28 | `sld_ver in (1, 2)` with Python's numeric equality; SldVersionValues proves 1, 2, 1.0, 2.0 and True pass and False, '1' and None do not |
| SldBase.NewSldConfig | sld_snake/base.py:23-35 | ValueError exactly when sld_ver is not 1 or 2; the inline preset alone sets zero_length_string_is_null |
| SldBase.SldVersionValues | sld_snake/base.py:24-28 | numeric equality admits 1.0, 2.0 and True but not '1' or False |
| SldBase.Qualified | sld_snake/base.py:55-56 | the tag is `{uri}` followed by the tag name |
| SldBase.RenderedText | sld_snake/base.py:58-62 | an element's text is rendered exactly when it has no children and the text is non-empty |
| SldBase.EtreeSpec | sld_snake/base.py:54-64 | `etree()` as a tree; EtreeShape proves its tag, attributes, text rule and children, and its KeyError on an unknown namespace |
| SldBase.Etree | sld_snake/base.py:54-64 | the method that appends children one by one equals EtreeSpec |
| SldBase.EtreeShape | sld_snake/base.py:54-64 | the tree fails exactly on an unknown namespace or a failing child; otherwise it has the qualified tag, the attributes, the text rule and one subtree per child, in order |
| SldBase.EtreeAllPointwise | sld_snake/base.py:58-60 | the children's subtrees are the children's trees, position by position |
| SldBase.StripSpec | sld_snake/base.py:69-87 | the text `no_xmlns` leaves; TextCopied, TagStripped, StripOnlyTouchesTags, StrayCloseRepeatsTag and UnclosedTagDropped prove what happens inside and outside tags |
| SldBase.StripXmlns | sld_snake/base.py:69-87 | the character loop equals StripSpec |
| SldBase.TextCopied | sld_snake/base.py:82-86 | characters outside tags are copied unchanged |
| SldBase.TagStripped | sld_snake/base.py:74-81 | a whole tag is emitted as `<`, its stripped contents and `>` |
| SldBase.StripOnlyTouchesTags | sld_snake/base.py:69-87 | on a well-formed document only the contents of tags change |
| SldBase.StrayCloseRepeatsTag | sld_snake/base.py:78-81 | a `>` outside a tag emits the previous tag's contents again |
| SldBase.UnclosedTagDropped | sld_snake/base.py:73-87 | the contents of an unclosed final tag are dropped |
| SldBase.Xml | sld_snake/base.py:66-88 | validation runs first, then the tree, then rendering, then stripping only when asked |

## Left out

- Floating point: doubles are exact reals plus NaN and the infinities. IEEE
  rounding, overflow and the sign of zero are not modelled.
- Utils.ReprText: `str(x)` of a float is always written positionally, with
  at most 17 fractional digits. It agrees with Python only for
  1e-4 <= |x| < 1e16 (and zero) with a short decimal expansion. Python
  writes exponent form (`1e+16`, `1e-05`) outside that range, so
  Utils.Stringify, OgcBase.NewLiteral, ComparisonOps.StringifyFallback and
  the text a LIKE pattern is matched against differ there.
- Digits are ASCII only. In Python, `\d` in the offset regexes and in
  `strptime`'s field patterns, and `float()`, also accept other Unicode
  decimal digits (Arabic-Indic, say); the model rejects such text.
- Case folding is ASCII only: `str.lower` folds A-Z and leaves every other
  character alone.
- `re.escape` is modelled with the rules of Python 3.6 (everything but
  letters, digits and `_` gets a backslash). The repository's own
  expectations (`\%`, `\!`, `\ `) only hold under those rules.
- `strptime` is modelled for the directives the formats use
  (`%Y %m %d %H %M %S %f %z`, literal `T`, `Z`, `-`, `:`, `.`). It follows
  Python 3.6: `%z` is `[+-]HHMM` only. Locale handling and the other
  directives are not modelled.
- Like.LikeMatch: the regex engine is replaced by a matcher for literals,
  `.*` and `.`. A pattern that keeps a lone escape character compiles to a
  raw backslash, which the model reports as `Unmodelled` instead of
  deciding what Python's regex parser does with it.
- Like.EvalLike: states only the error cases in its contract; what a
  successful match means is stated by LikeMatch and its lemmas.
- ElementTree serialisation (`ET.tostring`, `ET.Element`) is not modelled.
  `SldBase.Xml` takes the serialiser as a parameter. The regular expression
  that removes ` xmlns:…="…"` from a tag is a parameter as well. `validate()`
  enters as the error it would raise.
- Each element's copy of NAMESPACES is the fixed map; changing it on an
  instance is not modelled.
- LogicOps.Combinator.Combine: `a & a` (or `a | a`) iterates the
  conditions of a while appending to them, which raises RuntimeError in
  Python (sld_snake/ogc/logic_ops.py:95-97). The model passes the argument by
  value and appends a copy of its conditions, doubling them.
- LogicOps.Combinator.Append: after `__rand__`/`__ror__` the conditions
  are a plain OrderedDict. Deleting one of them leaves a gap in the keys, and
  the next append_condition stores under len(conditions), overwriting an
  existing key. The model's Combinator.Valid requires keys 0..n-1, so this
  sequence is not modelled.
- Aliasing: a combinator's conditions hold filters by value. If a
  combinator is mutated after being placed inside another, the outer one
  does not see the change.
- LogicOps.Eval takes the evaluation of the comparisons at its leaves as a
  parameter (`Comparisons(data)` gives the real one). The lemmas about
  And, Or and Not hold for any such evaluation.
- Deleting from the conditions of a Not is not modelled: the model only
  deletes from a combinator's LogicDict.
- The arithmetic nodes define no XML tag name, so `etree` of them raises
  AttributeError. The model's element datatype always carries a tag, so
  this is not modelled.
- SLDConfig is not read by any `simulate` in the source (PropertyIsNull
  ignores it). It is modelled on its own and passed to nothing.
- Spatial operators, GML parsing and the GDAL/OGR bindings are foreign
  calls and are not part of this model; `main.py` is file I/O.
