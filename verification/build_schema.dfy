/**
  The token builders: each option field mapped on its own to the token text
  it stands for, or to `null` (here `None`), plus the check that a pattern
  holds no reserved query operator.

  Unlike the encoder, the builders do not let global exclusion suppress the
  other tokens: every field is built independently.
 */
module BuildSchema {
  import opened Wrappers
  import opened JsStrings
  import opened Tokens
  import opened BaseSchema
  import opened TransformSchema

  // ------------------------------------------------------------ reserved operators

  /** The pattern holds `|` or `&&`, the query operators patterns may not use. */
  predicate HasReservedOperator(s: string) {
    Includes(s, "|") || Includes(s, "&&")
  }

  /**
    `validKeywordSchema.parse(raw)`: the keyword pattern rule, then the
    reserved-operator refinement.  The refinement also runs on a pattern that
    is too short, so both issues can be reported, in that order.
   */
  function ValidatePattern(raw: RawFields): (r: Result<string, seq<Issue>>)
    ensures r.Success? <==>
      && raw.pattern.Some? && raw.pattern.value.JsString?
      && Utf16Length(raw.pattern.value.s) >= MIN_PATTERN_LENGTH && !HasReservedOperator(raw.pattern.value.s)
    ensures r.Success? ==> r.value == raw.pattern.value.s
    ensures raw.pattern.None? ==> r == Failure([Required(PatternKey)])
    ensures raw.pattern.Some? && !raw.pattern.value.JsString? ==> r == Failure([InvalidType(PatternKey)])
    ensures r.Failure? && raw.pattern.Some? && raw.pattern.value.JsString? ==>
      var s := raw.pattern.value.s;
      r.error == (if Utf16Length(s) < MIN_PATTERN_LENGTH then [PatternTooShort] else [])
                 + (if HasReservedOperator(s) then [ReservedOperator] else [])
  {
    match PatternField(raw.pattern)
    case Success(s) =>
      if HasReservedOperator(s) then Failure([ReservedOperator]) else Success(s)
    case Failure(issues) =>
      if issues == [PatternTooShort] && HasReservedOperator(raw.pattern.value.s) then Failure(issues + [ReservedOperator])
      else Failure(issues)
  }

  /** The pattern rule of `validKeywordSchema` is the keyword pattern rule with the operator check added. */
  lemma ValidPatternIsKeywordPattern(raw: RawFields)
    ensures ValidatePattern(raw).Success? <==>
      PatternField(raw.pattern).Success? && !HasReservedOperator(PatternField(raw.pattern).value)
  {
  }

  /** Patterns with `|` or `&&` are refused. */
  lemma ReservedOperatorRefused()
    ensures ValidatePattern(EMPTY.(pattern := Some(JsString("keyword|other")))) == Failure([ReservedOperator])
    ensures ValidatePattern(EMPTY.(pattern := Some(JsString("keyword&&other")))) == Failure([ReservedOperator])
  {
    assert LiteralAt("keyword|other", 7, "|");
    assert LiteralAt("keyword&&other", 7, "&&");
  }

  /** A short pattern with an operator gets both issues, the length issue first. */
  lemma ShortAndReserved()
    ensures ValidatePattern(EMPTY.(pattern := Some(JsString("a|")))) == Failure([PatternTooShort, ReservedOperator])
  {
    assert LiteralAt("a|", 1, "|");
    assert [PatternTooShort] + [ReservedOperator] == [PatternTooShort, ReservedOperator];
  }

  /** Token text and a leading `[` are accepted unchanged. */
  lemma TokenTextAccepted()
    ensures ValidatePattern(EMPTY.(pattern := Some(JsString("(?#90)(?i)keyword")))) == Success("(?#90)(?i)keyword")
    ensures ValidatePattern(EMPTY.(pattern := Some(JsString("[FontHeight=12]")))) == Success("[FontHeight=12]")
  {
    NoReservedOperator("(?#90)(?i)keyword");
    NoReservedOperator("[FontHeight=12]");
  }

  /** A string with neither `|` nor `&` has no reserved operator. */
  lemma NoReservedOperator(s: string)
    requires forall i :: 0 <= i < |s| ==> s[i] != '|' && s[i] != '&'
    ensures !HasReservedOperator(s)
  {
    forall i | 0 <= i <= |s| ensures !LiteralAt(s, i, "|") && !LiteralAt(s, i, "&&") {
      if i < |s| {
        assert s[i..i + 1][0] == s[i];
      }
      if i + 2 <= |s| {
        assert s[i..i + 2][0] == s[i];
      }
    }
  }

  // ------------------------------------------------------------ field builders

  /** A boolean key with default `false`, mapped to `token` when true and to `None` otherwise. */
  function FlagTokenField(key: Key, v: Option<JsValue>, token: string): (r: Result<Option<string>, seq<Issue>>)
    ensures r.Success? <==> IsBoolOrAbsent(v)
    ensures r.Success? ==> r.value == if FlagOrFalse(v) then Some(token) else None
    ensures r.Failure? ==> r.error == [InvalidType(key)]
  {
    match FlagField(key, v)
    case Failure(issues) => Failure(issues)
    case Success(b) => Success(if b then Some(token) else None)
  }

  /** `casseSchema`: `true` becomes `(?i)`. */
  function BuildCasse(v: Option<JsValue>): (r: Result<Option<string>, seq<Issue>>)
    ensures r.Success? <==> IsBoolOrAbsent(v)
    ensures r.Success? ==> r.value == if FlagOrFalse(v) then Some("(?i)") else None
  {
    FlagTokenField(CasseKey, v, "(?i)")
  }

  /** `localExclusionSchema`: `true` becomes `(!!)`. */
  function BuildLocalExclusion(v: Option<JsValue>): (r: Result<Option<string>, seq<Issue>>)
    ensures r.Success? <==> IsBoolOrAbsent(v)
    ensures r.Success? ==> r.value == if FlagOrFalse(v) then Some("(!!)") else None
  {
    FlagTokenField(LocalExclusionKey, v, "(!!)")
  }

  /** `buildGlobalExclusion`: `true` becomes `!!` (the value schema is the one of `localExclusion`, which is the same). */
  function BuildGlobalExclusion(v: Option<JsValue>): (r: Result<Option<string>, seq<Issue>>)
    ensures r.Success? <==> IsBoolOrAbsent(v)
    ensures r.Success? ==> r.value == if FlagOrFalse(v) then Some("!!") else None
  {
    FlagTokenField(GlobalExclusionKey, v, "!!")
  }

  /**
    `precisionSchema`: a precision in [50, 100] other than 100 becomes `(?#N)`;
    100 and an absent key become `None`; other values are refused.
   */
  function BuildPrecision(v: Option<JsValue>): (r: Result<Option<string>, seq<Issue>>)
    ensures r.Success? <==> v.None? || (v.value.JsNumber? && MIN_PRECISION <= v.value.n <= MAX_PRECISION)
    ensures r.Success? ==> (r.value.None? <==> v.None? || v.value.n == DEFAULT_PRECISION)
    ensures r.Success? && r.value.Some? ==> r.value.value == PrecisionText(v.value.n)
    ensures r.Failure? ==> r.error == [if v.value.JsNumber? then PrecisionOutOfRange else InvalidType(PrecisionKey)]
  {
    match PrecisionField(v)
    case Failure(issues) => Failure(issues)
    case Success(n) => Success(if n != 0 && n != DEFAULT_PRECISION then Some(PrecisionText(n)) else None)
  }

  // ------------------------------------------------------------ keyword builder

  /** The output of `buildKeywordOptionsSchema`: one token (or `None`) per flag, and the pattern. */
  datatype BuiltKeyword = BuiltKeyword(
    casse: Option<string>,
    precision: Option<string>,
    localExclusion: Option<string>,
    globalExclusion: Option<string>,
    pattern: string)

  /**
    `buildKeywordOptionsSchema.parse(raw)`: every field built on its own; the
    issues come in the order of the merged keys (casse, precision,
    localExclusion, globalExclusion, pattern).
   */
  function BuildKeywordOptions(raw: RawFields): (r: Result<BuiltKeyword, seq<Issue>>)
    ensures r.Success? <==>
      && IsBoolOrAbsent(raw.casse) && IsBoolOrAbsent(raw.localExclusion) && IsBoolOrAbsent(raw.globalExclusion)
      && (raw.precision.None? || (raw.precision.value.JsNumber? && MIN_PRECISION <= raw.precision.value.n <= MAX_PRECISION))
      && raw.pattern.Some? && raw.pattern.value.JsString? && Utf16Length(raw.pattern.value.s) >= MIN_PATTERN_LENGTH
    ensures r.Success? ==>
      && r.value.pattern == raw.pattern.value.s
      && r.value.casse == (if FlagOrFalse(raw.casse) then Some("(?i)") else None)
      && r.value.localExclusion == (if FlagOrFalse(raw.localExclusion) then Some("(!!)") else None)
      && r.value.globalExclusion == (if FlagOrFalse(raw.globalExclusion) then Some("!!") else None)
      && r.value.precision ==
           (if raw.precision.None? || raw.precision.value.n == DEFAULT_PRECISION then None
            else Some(PrecisionText(raw.precision.value.n)))
    ensures r.Failure? ==>
      r.error == IssuesOf(BuildCasse(raw.casse)) + IssuesOf(BuildPrecision(raw.precision))
                 + IssuesOf(BuildLocalExclusion(raw.localExclusion)) + IssuesOf(BuildGlobalExclusion(raw.globalExclusion))
                 + IssuesOf(PatternField(raw.pattern))
  {
    var casse := BuildCasse(raw.casse);
    var precision := BuildPrecision(raw.precision);
    var localExclusion := BuildLocalExclusion(raw.localExclusion);
    var globalExclusion := BuildGlobalExclusion(raw.globalExclusion);
    var pattern := PatternField(raw.pattern);
    if casse.Success? && precision.Success? && localExclusion.Success? && globalExclusion.Success? && pattern.Success? then
      Success(BuiltKeyword(casse.value, precision.value, localExclusion.value, globalExclusion.value, pattern.value))
    else
      Failure(IssuesOf(casse) + IssuesOf(precision) + IssuesOf(localExclusion) + IssuesOf(globalExclusion) + IssuesOf(pattern))
  }

  /** The tokens of a keyword record, each written as the encoder would write it on its own. */
  function Built(k: KeywordOptions): BuiltKeyword {
    BuiltKeyword(
      if k.casse then Some("(?i)") else None,
      if k.precision != 0 && k.precision != DEFAULT_PRECISION then Some(PrecisionText(k.precision)) else None,
      if k.localExclusion then Some("(!!)") else None,
      if k.globalExclusion then Some("!!") else None,
      k.pattern)
  }

  /**
    Building from a keyword record succeeds exactly for valid records and
    gives its tokens; for an invalid one, an out-of-range precision is
    reported before a short pattern.
   */
  lemma BuildFromRecord(k: KeywordOptions)
    ensures var r := BuildKeywordOptions(KeywordToRaw(k));
      && (r.Success? <==> ValidKeyword(k))
      && (r.Success? ==> r.value == Built(k))
      && (r.Failure? ==>
            r.error == (if MIN_PRECISION <= k.precision <= MAX_PRECISION then [] else [PrecisionOutOfRange])
                       + (if Utf16Length(k.pattern) < MIN_PATTERN_LENGTH then [PatternTooShort] else []))
  {
    var none: seq<Issue> := [];
    var range := if MIN_PRECISION <= k.precision <= MAX_PRECISION then [] else [PrecisionOutOfRange];
    var short := if Utf16Length(k.pattern) < MIN_PATTERN_LENGTH then [PatternTooShort] else [];
    assert none + range + none + none + short == range + short;
  }

  /** A token or nothing, as text. */
  function TokenText(t: Option<string>): string {
    if t.Some? then t.value else ""
  }

  /**
    Without global exclusion, the encoder writes exactly the built tokens, in
    the order local exclusion, precision, casse, then the pattern.
   */
  lemma EncoderWritesBuiltTokens(k: KeywordOptions)
    requires ValidKeyword(k) && !k.globalExclusion
    ensures var b := Built(k);
      EncodeKeyword(k) == TokenText(b.localExclusion) + TokenText(b.precision) + TokenText(b.casse) + k.pattern
  {
    var b := Built(k);
    var l := if k.localExclusion then ["(!!)"] else [];
    var q := if k.precision != DEFAULT_PRECISION then [PrecisionText(k.precision)] else [];
    var c := if k.casse then ["(?i)"] else [];
    assert KeywordParts(k) == l + q + c + [k.pattern];
    JoinConcat(l + q + c, [k.pattern]);
    JoinConcat(l + q, c);
    JoinConcat(l, q);
    assert Join(l, "") == TokenText(b.localExclusion);
    assert Join(q, "") == TokenText(b.precision);
    assert Join(c, "") == TokenText(b.casse);
  }

  /**
    With global exclusion, the encoder keeps only the global and casse tokens
    and the pattern, while the builder still gives the precision and local
    exclusion tokens.
   */
  lemma EncoderSuppressesBuiltTokens(k: KeywordOptions)
    requires ValidKeyword(k) && k.globalExclusion
    ensures var b := Built(k);
      && EncodeKeyword(k) == TokenText(b.globalExclusion) + TokenText(b.casse) + k.pattern
      && b.globalExclusion == Some("!!")
      && (k.localExclusion ==> b.localExclusion == Some("(!!)"))
      && (k.precision != DEFAULT_PRECISION ==> b.precision == Some(PrecisionText(k.precision)))
  {
    var b := Built(k);
    var c := if k.casse then ["(?i)"] else [];
    assert KeywordParts(k) == ["!!"] + c + [k.pattern];
    JoinConcat(["!!"] + c, [k.pattern]);
    JoinConcat(["!!"], c);
    assert Join(c, "") == TokenText(b.casse);
  }

  /** All four flags set: all four tokens are built; the example of the tests with precision 50. */
  lemma AllTokensBuilt()
    ensures BuildKeywordOptions(RawFields(Some(JsString("keyword")), Some(JsBool(true)), Some(JsNumber(50)),
                                          Some(JsBool(true)), Some(JsBool(true)), None, None, None))
            == Success(BuiltKeyword(Some("(?i)"), Some("(?#50)"), Some("(!!)"), Some("!!"), "keyword"))
    ensures BuildKeywordOptions(EMPTY.(pattern := Some(JsString("test")), precision := Some(JsNumber(100))))
            == Success(BuiltKeyword(None, None, None, None, "test"))
    ensures BuildKeywordOptions(EMPTY) == Failure([Required(PatternKey)])
    ensures BuildKeywordOptions(EMPTY.(pattern := Some(JsString("ke")))) == Failure([PatternTooShort])
  {
    assert PrecisionText(50) == "(?#50)";
    var none: seq<Issue> := [];
    assert none + none + none + none + [Required(PatternKey)] == [Required(PatternKey)];
    assert none + none + none + none + [PatternTooShort] == [PatternTooShort];
  }

  // ------------------------------------------------------------ reader builder

  /** The output of `buildReaderOptionsSchema`. */
  datatype BuiltReader = BuiltReader(y: string, fontHeight: string, charExclusion: Option<string>)

  /**
    `buildReaderOptionsSchema.parse(raw)`: `y=<value>` (default `max`),
    `FontHeight=<n>` (default 10), and `exclude={S}` for a non-empty `S`.
   */
  function BuildReaderOptions(raw: RawFields): (r: Result<BuiltReader, seq<Issue>>)
    ensures r.Success? <==> ValidateReader(raw).Success?
    ensures r.Success? ==>
      var o := ValidateReader(raw).value;
      && r.value.y == "y=" + YText(o.y)
      && r.value.fontHeight == FONT_HEIGHT_KEY + IntToString(o.fontHeight)
      && (r.value.charExclusion.Some? <==> o.charExclusion.Some? && o.charExclusion.value != "")
      && (r.value.charExclusion.Some? ==> r.value.charExclusion.value == CHAR_EXCLUSION_KEY + o.charExclusion.value + "}")
    ensures r.Failure? ==> r.error == ValidateReader(raw).error
  {
    var y := YField(raw.y);
    var fontHeight := FontHeightField(raw.fontHeight);
    var charExclusion := CharExclusionField(raw.charExclusion);
    if y.Success? && fontHeight.Success? && charExclusion.Success? then
      Success(BuiltReader(
        "y=" + YText(y.value),
        FONT_HEIGHT_KEY + IntToString(fontHeight.value),
        if charExclusion.value.Some? && charExclusion.value.value != "" then Some(CHAR_EXCLUSION_KEY + charExclusion.value.value + "}") else None))
    else
      Failure(IssuesOf(y) + IssuesOf(fontHeight) + IssuesOf(charExclusion))
  }

  /**
    For a record whose fields are all truthy, the encoder writes the built
    reader tokens, font height first.
   */
  lemma EncoderWritesBuiltReader(o: ReaderOptions)
    requires o.fontHeight != 0 && YTruthy(o.y)
    ensures var b := BuildReaderOptions(ReaderToRaw(o));
      && b.Success?
      && ReaderParts(o) == [b.value.fontHeight, b.value.y] + (if b.value.charExclusion.Some? then [b.value.charExclusion.value] else [])
  {
    ReaderRevalidates(o);
  }

  /** The reader examples of the tests, including `y` 0, which the builder writes but the encoder drops. */
  lemma ReaderBuilderExamples()
    ensures BuildReaderOptions(EMPTY) == Success(BuiltReader("y=max", "FontHeight=10", None))
    ensures BuildReaderOptions(EMPTY.(y := Some(JsNumber(600)))).value.y == "y=600"
    ensures BuildReaderOptions(EMPTY.(y := Some(JsNumber(0)))).value.y == "y=0"
    ensures BuildReaderOptions(EMPTY.(y := Some(JsString("invalid")))) == Failure([InvalidY])
    ensures BuildReaderOptions(EMPTY.(charExclusion := Some(JsString("")))).value.charExclusion == None
    ensures BuildReaderOptions(EMPTY.(y := Some(JsString("max")), fontHeight := Some(JsNumber(12)), charExclusion := Some(JsString("abc"))))
            == Success(BuiltReader("y=max", "FontHeight=12", Some("exclude={abc}")))
  {
    assert "y=" + MAX_Y == "y=max";
    assert FONT_HEIGHT_KEY + IntToString(10) == "FontHeight=10";
    assert FONT_HEIGHT_KEY + IntToString(12) == "FontHeight=12";
    assert "y=" + IntToString(600) == "y=600";
    assert "y=" + IntToString(0) == "y=0";
    assert CHAR_EXCLUSION_KEY + "abc" + "}" == "exclude={abc}";
    var none: seq<Issue> := [];
    assert [InvalidY] + none + none == [InvalidY];
  }

  // ------------------------------------------------------------ string to tokens

  /**
    The object the preprocessing step of `stringToBuildKeywordOptions` builds:
    all three flags set explicitly from token presence, the precision read as
    the keyword decoder reads it (100 when absent), and the same stripped
    pattern.  It is the full object form of the record the keyword decoder reads.
   */
  function BuildFields(input: string): (raw: RawFields)
    ensures raw == KeywordToRaw(KeywordOptions(StripTokens(input), Occurs(Casse, input), DecodedPrecision(input),
                                               Occurs(GlobalExclusion, input), Occurs(LocalExclusion, input)))
  {
    var globalExclusion := Test(GlobalExclusion, input);
    var casse := Test(Casse, input);
    var precision := DecodedPrecision(input);
    var localExclusion := Test(LocalExclusion, input);
    RawFields(
      pattern := Some(JsString(StripTokens(input))),
      casse := Some(JsBool(casse)),
      precision := Some(JsNumber(precision)),
      globalExclusion := Some(JsBool(globalExclusion)),
      localExclusion := Some(JsBool(localExclusion)),
      y := None, fontHeight := None, charExclusion := None)
  }

  /**
    `stringToBuildKeywordOptions.parse(input)`: it accepts exactly the strings
    the keyword decoder accepts, and gives the tokens of the record the
    decoder reads; on a failure it reports the same issues with precision first.
   */
  function StringToBuildKeywordOptions(input: string): (b: Result<BuiltKeyword, seq<Issue>>)
    ensures var d := StringToKeywordOptions(input);
      && (b.Success? <==> d.Success?)
      && (b.Success? ==> b.value == Built(d.value))
      && (b.Failure? ==>
            b.error == (if MIN_PRECISION <= DecodedPrecision(input) <= MAX_PRECISION then [] else [PrecisionOutOfRange])
                       + (if Utf16Length(StripTokens(input)) < MIN_PATTERN_LENGTH then [PatternTooShort] else []))
  {
    var k := KeywordOptions(StripTokens(input), Occurs(Casse, input), DecodedPrecision(input),
                            Occurs(GlobalExclusion, input), Occurs(LocalExclusion, input));
    BuildFromRecord(k);
    KeywordDecodedFrom(input, k);
    BuildKeywordOptions(BuildFields(input))
  }
}
