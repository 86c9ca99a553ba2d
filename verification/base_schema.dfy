/**
  The two option families and their validation rules (`keywordOptionsSchema`,
  `readerOptionsSchema`): which JavaScript values each key accepts, the
  defaults filled in for absent keys, and the issues reported otherwise.

  Validation follows the object-schema semantics of the validation library the
  source uses: unknown keys are dropped, every key is checked, and the issues
  of all keys are reported together, in the order the keys are declared.
 */
module BaseSchema {
  import opened Wrappers
  import opened JsStrings

  const MIN_PATTERN_LENGTH: nat := 3
  const MAX_Y: string := "max"
  const MIN_PRECISION: int := 50
  const MAX_PRECISION: int := 100
  const DEFAULT_PRECISION: int := 100
  const DEFAULT_FONT_HEIGHT: int := 10

  /** A JavaScript value as it can appear under a key of an options object. */
  datatype JsValue = JsString(s: string) | JsNumber(n: int) | JsBool(b: bool)

  /** An options object before validation; `None` is an absent key. */
  datatype RawFields = RawFields(
    pattern: Option<JsValue>,
    casse: Option<JsValue>,
    precision: Option<JsValue>,
    globalExclusion: Option<JsValue>,
    localExclusion: Option<JsValue>,
    y: Option<JsValue>,
    fontHeight: Option<JsValue>,
    charExclusion: Option<JsValue>)

  /** The empty object `{}`. */
  const EMPTY: RawFields := RawFields(None, None, None, None, None, None, None, None)

  datatype Key =
    | PatternKey | CasseKey | PrecisionKey | GlobalExclusionKey | LocalExclusionKey
    | YKey | FontHeightKey | CharExclusionKey

  /** A validation failure, as the validation library reports it. */
  datatype Issue =
    | Required(key: Key)           // absent key without a default
    | InvalidType(key: Key)        // value of the wrong JavaScript type
    | PatternTooShort              // pattern shorter than MIN_PATTERN_LENGTH
    | PrecisionOutOfRange          // precision outside [MIN_PRECISION, MAX_PRECISION]
    | InvalidY                     // y neither "max" nor a number
    | ReservedOperator             // pattern containing `|` or `&&`
    | NoUnionMember(keywordIssues: seq<Issue>, readerIssues: seq<Issue>)

  /**
    Type and union failures abort the value they are about; length, range and
    refinement failures leave a "dirty" value that a union still reports.
   */
  predicate Fatal(i: Issue) {
    !(i.PatternTooShort? || i.PrecisionOutOfRange? || i.ReservedOperator?)
  }

  datatype KeywordOptions = KeywordOptions(
    pattern: string,
    casse: bool,
    precision: int,
    globalExclusion: bool,
    localExclusion: bool)

  datatype YValue = YMax | YNumber(n: int)

  datatype ReaderOptions = ReaderOptions(
    y: YValue,
    fontHeight: int,
    charExclusion: Option<string>)

  /** The union of the two families. */
  datatype Options = Keyword(keyword: KeywordOptions) | Reader(reader: ReaderOptions)

  /** The constraints `keywordOptionsSchema` puts on a keyword record. */
  predicate ValidKeyword(k: KeywordOptions) {
    Utf16Length(k.pattern) >= MIN_PATTERN_LENGTH && MIN_PRECISION <= k.precision <= MAX_PRECISION
  }

  function IssuesOf<T>(r: Result<T, seq<Issue>>): seq<Issue> {
    if r.Failure? then r.error else []
  }

  // ------------------------------------------------------------ field schemas

  /** `z.string().min(MIN_PATTERN_LENGTH)`, required; zod measures `s.length`, in UTF-16 code units. */
  function PatternField(v: Option<JsValue>): Result<string, seq<Issue>> {
    match v
    case None => Failure([Required(PatternKey)])
    case Some(JsString(s)) => if Utf16Length(s) < MIN_PATTERN_LENGTH then Failure([PatternTooShort]) else Success(s)
    case Some(_) => Failure([InvalidType(PatternKey)])
  }

  /** `z.boolean().default(false)` under key `key`. */
  function FlagField(key: Key, v: Option<JsValue>): Result<bool, seq<Issue>> {
    match v
    case None => Success(false)
    case Some(JsBool(b)) => Success(b)
    case Some(_) => Failure([InvalidType(key)])
  }

  /** `z.number().min(50).max(100).default(100)`. */
  function PrecisionField(v: Option<JsValue>): Result<int, seq<Issue>> {
    match v
    case None => Success(DEFAULT_PRECISION)
    case Some(JsNumber(n)) =>
      if n < MIN_PRECISION || n > MAX_PRECISION then Failure([PrecisionOutOfRange]) else Success(n)
    case Some(_) => Failure([InvalidType(PrecisionKey)])
  }

  /** `z.union([z.literal("max"), z.number()]).default("max")`. */
  function YField(v: Option<JsValue>): Result<YValue, seq<Issue>> {
    match v
    case None => Success(YMax)
    case Some(JsString(s)) => if s == MAX_Y then Success(YMax) else Failure([InvalidY])
    case Some(JsNumber(n)) => Success(YNumber(n))
    case Some(_) => Failure([InvalidY])
  }

  /** `z.number().default(10)`. */
  function FontHeightField(v: Option<JsValue>): Result<int, seq<Issue>> {
    match v
    case None => Success(DEFAULT_FONT_HEIGHT)
    case Some(JsNumber(n)) => Success(n)
    case Some(_) => Failure([InvalidType(FontHeightKey)])
  }

  /** `z.string().optional()`. */
  function CharExclusionField(v: Option<JsValue>): Result<Option<string>, seq<Issue>> {
    match v
    case None => Success(None)
    case Some(JsString(s)) => Success(Some(s))
    case Some(_) => Failure([InvalidType(CharExclusionKey)])
  }

  // ------------------------------------------------------------ object schemas

  predicate IsBoolOrAbsent(v: Option<JsValue>) {
    v.None? || v.value.JsBool?
  }

  predicate IsNumberOrAbsent(v: Option<JsValue>) {
    v.None? || v.value.JsNumber?
  }

  /** The value of an optional boolean key, `false` when absent. */
  function FlagOrFalse(v: Option<JsValue>): bool {
    v == Some(JsBool(true))
  }

  /** `keywordOptionsSchema.parse(raw)`. */
  function ValidateKeyword(raw: RawFields): (r: Result<KeywordOptions, seq<Issue>>)
    ensures r.Success? <==>
      && raw.pattern.Some? && raw.pattern.value.JsString? && Utf16Length(raw.pattern.value.s) >= MIN_PATTERN_LENGTH
      && IsBoolOrAbsent(raw.casse) && IsBoolOrAbsent(raw.globalExclusion) && IsBoolOrAbsent(raw.localExclusion)
      && (raw.precision.None? || (raw.precision.value.JsNumber? && MIN_PRECISION <= raw.precision.value.n <= MAX_PRECISION))
    ensures r.Success? ==>
      && ValidKeyword(r.value)
      && r.value.pattern == raw.pattern.value.s
      && r.value.casse == FlagOrFalse(raw.casse)
      && r.value.globalExclusion == FlagOrFalse(raw.globalExclusion)
      && r.value.localExclusion == FlagOrFalse(raw.localExclusion)
      && r.value.precision == (if raw.precision.None? then DEFAULT_PRECISION else raw.precision.value.n)
    ensures r.Failure? ==> r.error != []
  {
    var pattern := PatternField(raw.pattern);
    var casse := FlagField(CasseKey, raw.casse);
    var precision := PrecisionField(raw.precision);
    var globalExclusion := FlagField(GlobalExclusionKey, raw.globalExclusion);
    var localExclusion := FlagField(LocalExclusionKey, raw.localExclusion);
    if pattern.Success? && casse.Success? && precision.Success? && globalExclusion.Success? && localExclusion.Success? then
      Success(KeywordOptions(pattern.value, casse.value, precision.value, globalExclusion.value, localExclusion.value))
    else
      Failure(IssuesOf(pattern) + IssuesOf(casse) + IssuesOf(precision) + IssuesOf(globalExclusion) + IssuesOf(localExclusion))
  }

  /** `readerOptionsSchema.parse(raw)`. */
  function ValidateReader(raw: RawFields): (r: Result<ReaderOptions, seq<Issue>>)
    ensures r.Success? <==>
      && (raw.y.None? || raw.y.value == JsString(MAX_Y) || raw.y.value.JsNumber?)
      && IsNumberOrAbsent(raw.fontHeight)
      && (raw.charExclusion.None? || raw.charExclusion.value.JsString?)
    ensures r.Success? ==>
      && r.value.y == (if raw.y.Some? && raw.y.value.JsNumber? then YNumber(raw.y.value.n) else YMax)
      && r.value.fontHeight == (if raw.fontHeight.None? then DEFAULT_FONT_HEIGHT else raw.fontHeight.value.n)
      && r.value.charExclusion == (if raw.charExclusion.None? then None else Some(raw.charExclusion.value.s))
    ensures r.Failure? ==> r.error != [] && forall i :: 0 <= i < |r.error| ==> Fatal(r.error[i])
  {
    var y := YField(raw.y);
    var fontHeight := FontHeightField(raw.fontHeight);
    var charExclusion := CharExclusionField(raw.charExclusion);
    if y.Success? && fontHeight.Success? && charExclusion.Success? then
      Success(ReaderOptions(y.value, fontHeight.value, charExclusion.value))
    else
      Failure(IssuesOf(y) + IssuesOf(fontHeight) + IssuesOf(charExclusion))
  }

  /**
    When every key has the right type, the only issues left are a short
    pattern and an out-of-range precision, in that order.
   */
  lemma KeywordRangeIssues(raw: RawFields)
    requires raw.pattern.Some? && raw.pattern.value.JsString?
    requires IsBoolOrAbsent(raw.casse) && IsBoolOrAbsent(raw.globalExclusion) && IsBoolOrAbsent(raw.localExclusion)
    requires IsNumberOrAbsent(raw.precision)
    ensures var short := if Utf16Length(raw.pattern.value.s) < MIN_PATTERN_LENGTH then [PatternTooShort] else [];
      var range := if raw.precision.None? || MIN_PRECISION <= raw.precision.value.n <= MAX_PRECISION then [] else [PrecisionOutOfRange];
      IssuesOf(ValidateKeyword(raw)) == short + range
  {
    var none: seq<Issue> := [];
    assert IssuesOf(FlagField(CasseKey, raw.casse)) == none;
    assert IssuesOf(FlagField(GlobalExclusionKey, raw.globalExclusion)) == none;
    assert IssuesOf(FlagField(LocalExclusionKey, raw.localExclusion)) == none;
  }

  /**
    `z.union([keyword object, reader object]).parse(raw)`: the first shape that
    validates wins; when neither does, a keyword attempt whose issues are all
    non-fatal is reported as is, otherwise both attempts are reported together.
   */
  function ParseUnion(raw: RawFields): (r: Result<Options, seq<Issue>>)
    ensures ValidateKeyword(raw).Success? ==> r == Success(Keyword(ValidateKeyword(raw).value))
    ensures ValidateKeyword(raw).Failure? && ValidateReader(raw).Success? ==>
              r == Success(Reader(ValidateReader(raw).value))
    ensures r.Failure? <==> ValidateKeyword(raw).Failure? && ValidateReader(raw).Failure?
    ensures r.Failure? ==> r.error != []
  {
    match ValidateKeyword(raw)
    case Success(k) => Success(Keyword(k))
    case Failure(keywordIssues) =>
      match ValidateReader(raw)
      case Success(o) => Success(Reader(o))
      case Failure(readerIssues) =>
        if forall i :: 0 <= i < |keywordIssues| ==> !Fatal(keywordIssues[i]) then Failure(keywordIssues)
        else Failure([NoUnionMember(keywordIssues, readerIssues)])
  }

  // ------------------------------------------------------------ records as objects

  /** A validated keyword record handed on as an object: every key present. */
  function KeywordToRaw(k: KeywordOptions): RawFields {
    RawFields(Some(JsString(k.pattern)), Some(JsBool(k.casse)), Some(JsNumber(k.precision)),
              Some(JsBool(k.globalExclusion)), Some(JsBool(k.localExclusion)), None, None, None)
  }

  /** A validated reader record handed on as an object: `charExclusion` only when present. */
  function ReaderToRaw(o: ReaderOptions): RawFields {
    RawFields(None, None, None, None, None,
              Some(match o.y case YMax => JsString(MAX_Y) case YNumber(n) => JsNumber(n)),
              Some(JsNumber(o.fontHeight)),
              match o.charExclusion case None => None case Some(c) => Some(JsString(c)))
  }

  /** Validating a valid keyword record again gives it back unchanged, whatever the union order. */
  lemma KeywordRevalidates(k: KeywordOptions)
    requires ValidKeyword(k)
    ensures ValidateKeyword(KeywordToRaw(k)) == Success(k)
    ensures ParseUnion(KeywordToRaw(k)) == Success(Keyword(k))
  {
  }

  /** A reader record fails the keyword shape (no pattern) and passes the reader shape unchanged. */
  lemma ReaderRevalidates(o: ReaderOptions)
    ensures ValidateKeyword(ReaderToRaw(o)) == Failure([Required(PatternKey)])
    ensures ValidateReader(ReaderToRaw(o)) == Success(o)
    ensures ParseUnion(ReaderToRaw(o)) == Success(Reader(o))
  {
    var none: seq<Issue> := [];
    assert [Required(PatternKey)] + none + none + none + none == [Required(PatternKey)];
  }

  // ------------------------------------------------------------ examples from the tests

  /**
    A pattern of two characters is rejected, one of three accepted; two
    characters above U+FFFF are four code units and are accepted.
   */
  lemma PatternLengthBoundary()
    ensures ValidateKeyword(EMPTY.(pattern := Some(JsString("ke")))) == Failure([PatternTooShort])
    ensures ValidateKeyword(EMPTY.(pattern := Some(JsString("key"))))
            == Success(KeywordOptions("key", false, DEFAULT_PRECISION, false, false))
    ensures ValidateKeyword(EMPTY.(pattern := Some(JsString("\U{1F600}\U{1F600}")))).Success?
    ensures ValidateKeyword(EMPTY) == Failure([Required(PatternKey)])
  {
    assert 0 in SurrogatePairs("\U{1F600}\U{1F600}");
    var none: seq<Issue> := [];
    assert [PatternTooShort] + none + none + none + none == [PatternTooShort];
    assert [Required(PatternKey)] + none + none + none + none == [Required(PatternKey)];
  }

  /** Precision 49 and 101 are rejected; 50 and 100 are accepted. */
  lemma PrecisionBoundary(p: string)
    requires Utf16Length(p) >= MIN_PATTERN_LENGTH
    ensures ValidateKeyword(EMPTY.(pattern := Some(JsString(p)), precision := Some(JsNumber(49)))) == Failure([PrecisionOutOfRange])
    ensures ValidateKeyword(EMPTY.(pattern := Some(JsString(p)), precision := Some(JsNumber(101)))) == Failure([PrecisionOutOfRange])
    ensures ValidateKeyword(EMPTY.(pattern := Some(JsString(p)), precision := Some(JsNumber(50)))).Success?
    ensures ValidateKeyword(EMPTY.(pattern := Some(JsString(p)), precision := Some(JsNumber(100)))).Success?
  {
    var none: seq<Issue> := [];
    assert none + none + [PrecisionOutOfRange] + none + none == [PrecisionOutOfRange];
  }

  /** `y` accepts "max" and numbers and defaults to "max"; any other string is rejected. */
  lemma ReaderDefaults()
    ensures ValidateReader(EMPTY) == Success(ReaderOptions(YMax, DEFAULT_FONT_HEIGHT, None))
    ensures ValidateReader(EMPTY.(y := Some(JsString("invalid")))) == Failure([InvalidY])
    ensures ValidateReader(EMPTY.(y := Some(JsNumber(0)))).Success?
    ensures ValidateReader(EMPTY.(y := Some(JsString("600")), fontHeight := Some(JsString("12"))))
            == Failure([InvalidY, InvalidType(FontHeightKey)])
  {
    var none: seq<Issue> := [];
    assert [InvalidY] + none + none == [InvalidY];
    assert [InvalidY] + [InvalidType(FontHeightKey)] + none == [InvalidY, InvalidType(FontHeightKey)];
  }
}
