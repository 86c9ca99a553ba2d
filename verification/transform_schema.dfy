/**
  The string codec: the decoders `stringToKeywordOptions`,
  `stringToReaderOptions` and `stringToKeyword`, and the encoder
  `parseOptionsToString`.

  A keyword string is a pattern with optional flag tokens around it,
  `(!!)(?#90)(?i)keyword`; a reader string is a bracketed, comma-separated
  list, `[FontHeight=12,y=600,exclude={abc}]`.
 */
module TransformSchema {
  import opened Wrappers
  import opened JsStrings
  import opened Tokens
  import opened BaseSchema

  // ------------------------------------------------------------ keyword strings

  /** `Number(m[1]) || 100`: a captured precision of 0 falls back to 100. */
  function PrecisionValue(digits: string): (p: nat)
    requires AllDigits(digits)
    ensures p > 0
    ensures DigitsValue(digits) > 0 ==> p == DigitsValue(digits)
    ensures DigitsValue(digits) == 0 ==> p == DEFAULT_PRECISION
  {
    var v := DigitsValue(digits);
    if v == 0 then DEFAULT_PRECISION else v
  }

  /** `Number(m[1])` for the first match of a digit token, if there is one. */
  function FirstNumber(tok: Token, s: string): (r: Option<nat>)
    requires tok.Precision? || tok.Y? || tok.FontHeight?
    ensures r.Some? <==> Occurs(tok, s)
  {
    var m := Search(tok, s, 0);
    SearchOccurs(tok, s);
    if m.None? then None
    else
      SearchMatch(tok, s);
      DigitCapture(tok, s, m.value.start);
      Some(DigitsValue(m.value.capture))
  }

  /** The precision `stringToKeywordOptions` reads from `input`. */
  function DecodedPrecision(input: string): (p: int)
    ensures p > 0
    ensures !Occurs(Precision, input) ==> p == DEFAULT_PRECISION
    ensures FirstNumber(Precision, input) == Some(0) ==> p == DEFAULT_PRECISION
    ensures FirstNumber(Precision, input).Some? && FirstNumber(Precision, input).value > 0 ==>
      p == FirstNumber(Precision, input).value
  {
    var m := Search(Precision, input, 0);
    if m.None? then DEFAULT_PRECISION
    else
      SearchMatch(Precision, input);
      DigitCapture(Precision, input, m.value.start);
      PrecisionValue(m.value.capture)
  }

  /**
    The pattern part of a keyword string: the leftmost `(?i)`, then the
    leftmost precision token, then the leftmost `!!`, then the leftmost
    `(!!)` are cut out, each from what the previous step left (`RemoveTokens`),
    and the result is trimmed.
   */
  function StripTokens(input: string): (pattern: string)
    ensures |pattern| <= |input|
    ensures pattern == [] || (!IsSpace(pattern[0]) && !IsSpace(pattern[|pattern| - 1]))
  {
    Trim(RemoveTokens(input))
  }

  /** The four `replace` steps of the pattern computation, before trimming. */
  function RemoveTokens(input: string): (rest: string)
    ensures |rest| <= |input|
  {
    var noCasse := ReplaceFirst(Casse, input);
    var noPrecision := ReplaceFirst(Precision, noCasse);
    var noGlobal := ReplaceFirst(GlobalExclusion, noPrecision);
    ReplaceFirstChanges(Casse, input);
    ReplaceFirstChanges(Precision, noCasse);
    ReplaceFirstChanges(GlobalExclusion, noPrecision);
    ReplaceFirstChanges(LocalExclusion, noGlobal);
    ReplaceFirst(LocalExclusion, noGlobal)
  }

  /** The partial object the preprocessing step of `stringToKeywordOptions` builds. */
  function KeywordFields(input: string): (raw: RawFields)
    ensures raw.pattern == Some(JsString(StripTokens(input)))
    ensures IsBoolOrAbsent(raw.casse) && (FlagOrFalse(raw.casse) <==> Occurs(Casse, input))
    ensures IsBoolOrAbsent(raw.globalExclusion) && (FlagOrFalse(raw.globalExclusion) <==> Occurs(GlobalExclusion, input))
    ensures IsBoolOrAbsent(raw.localExclusion) && (FlagOrFalse(raw.localExclusion) <==> Occurs(LocalExclusion, input))
    ensures raw.precision.None? || raw.precision == Some(JsNumber(DecodedPrecision(input)))
    ensures raw.precision.None? ==> DecodedPrecision(input) == DEFAULT_PRECISION
  {
    RawFields(
      pattern := Some(JsString(StripTokens(input))),
      casse := if Test(Casse, input) then Some(JsBool(true)) else None,
      precision := if Test(Precision, input) then Some(JsNumber(DecodedPrecision(input))) else None,
      globalExclusion := if Test(GlobalExclusion, input) then Some(JsBool(true)) else None,
      localExclusion := if Test(LocalExclusion, input) then Some(JsBool(true)) else None,
      y := None, fontHeight := None, charExclusion := None)
  }

  /**
    `stringToKeywordOptions.parse(input)`: each flag is set exactly when its
    token occurs anywhere in the input; the parse fails only on a pattern that
    is too short or a precision outside [50, 100].
   */
  function StringToKeywordOptions(input: string): (r: Result<KeywordOptions, seq<Issue>>)
    ensures r.Success? <==>
      Utf16Length(StripTokens(input)) >= MIN_PATTERN_LENGTH && MIN_PRECISION <= DecodedPrecision(input) <= MAX_PRECISION
    ensures r.Success? ==>
      && r.value.pattern == StripTokens(input)
      && r.value.precision == DecodedPrecision(input)
      && (r.value.casse <==> Occurs(Casse, input))
      && (r.value.globalExclusion <==> Occurs(GlobalExclusion, input))
      && (r.value.localExclusion <==> Occurs(LocalExclusion, input))
  {
    ValidateKeyword(KeywordFields(input))
  }

  /** The decoder's answer is fixed by the pattern it strips, the precision it reads and the tokens that occur. */
  lemma KeywordDecodedFrom(input: string, k: KeywordOptions)
    requires StripTokens(input) == k.pattern && DecodedPrecision(input) == k.precision
    requires Occurs(Casse, input) == k.casse
    requires Occurs(GlobalExclusion, input) == k.globalExclusion
    requires Occurs(LocalExclusion, input) == k.localExclusion
    ensures var r := StringToKeywordOptions(input);
      && (r.Success? <==> ValidKeyword(k))
      && (r.Success? ==> r.value == k)
  {
  }

  /** A failed keyword decoding reports a short pattern, then an out-of-range precision, and nothing else. */
  lemma KeywordDecodeIssues(input: string)
    requires StringToKeywordOptions(input).Failure?
    ensures var short := if Utf16Length(StripTokens(input)) < MIN_PATTERN_LENGTH then [PatternTooShort] else [];
      var range := if MIN_PRECISION <= DecodedPrecision(input) <= MAX_PRECISION then [] else [PrecisionOutOfRange];
      StringToKeywordOptions(input).error == short + range
  {
    KeywordRangeIssues(KeywordFields(input));
  }

  // ------------------------------------------------------------ reader strings

  /** The partial object the preprocessing step of `stringToReaderOptions` builds. */
  function ReaderFields(input: string): (raw: RawFields)
    ensures raw.pattern.None? && raw.casse.None? && raw.precision.None?
    ensures raw.globalExclusion.None? && raw.localExclusion.None?
    ensures raw.fontHeight.Some? <==> Occurs(FontHeight, input)
    ensures raw.fontHeight.Some? ==> raw.fontHeight == Some(JsNumber(FirstNumber(FontHeight, input).value))
    ensures raw.y.Some? <==> Occurs(Y, input)
    ensures raw.y.Some? ==> raw.y == Some(JsNumber(FirstNumber(Y, input).value))
    ensures raw.charExclusion.Some? <==> Occurs(CharExclusion, input)
    ensures var e := Search(CharExclusion, input, 0);
      raw.charExclusion == if e.None? then None else Some(JsString(e.value.capture))
  {
    ReaderCaptures(input);
    SearchOccurs(Y, input);
    var y := Search(Y, input, 0);
    var exclusion := Search(CharExclusion, input, 0);
    RawFields(
      pattern := None, casse := None, precision := None,
      globalExclusion := None, localExclusion := None,
      y := if y.None? then None
           else if y.value.capture == MAX_Y then Some(JsString(MAX_Y))
           else Some(JsNumber(FirstNumber(Y, input).value)),
      fontHeight := match FirstNumber(FontHeight, input)
                    case None => None
                    case Some(n) => Some(JsNumber(n)),
      charExclusion := if exclusion.None? then None else Some(JsString(exclusion.value.capture)))
  }

  /**
    `stringToReaderOptions.parse(input)`: never fails; each field comes from the
    first match of its token, or takes its default.  `y` is `"max"` exactly
    when no `y=<digits>` occurs, since the token captures digits only.
   */
  function StringToReaderOptions(input: string): (r: Result<ReaderOptions, seq<Issue>>)
    ensures r.Success?
    ensures r.value.fontHeight == (if Occurs(FontHeight, input) then FirstNumber(FontHeight, input).value else DEFAULT_FONT_HEIGHT)
    ensures r.value.fontHeight >= 0
    ensures r.value.y == (if Occurs(Y, input) then YNumber(FirstNumber(Y, input).value) else YMax)
    ensures var e := Search(CharExclusion, input, 0);
      r.value.charExclusion == if e.None? then None else Some(e.value.capture)
    ensures r.value.charExclusion.None? <==> !Occurs(CharExclusion, input)
    ensures r.value.charExclusion.Some? ==>
      && r.value.charExclusion.value != []
      && forall k :: 0 <= k < |r.value.charExclusion.value| ==> r.value.charExclusion.value[k] != '}'
  {
    ReaderCaptures(input);
    ValidateReader(ReaderFields(input))
  }

  /** The captures the reader decoder reads: `y` is digits (never `"max"`), `exclude` non-empty without `}`. */
  lemma ReaderCaptures(input: string)
    ensures var y := Search(Y, input, 0);
      y.Some? ==> AllDigits(y.value.capture) && y.value.capture != MAX_Y
    ensures var e := Search(CharExclusion, input, 0);
      && (e.Some? <==> Occurs(CharExclusion, input))
      && (e.Some? ==> e.value.capture != [] && forall k :: 0 <= k < |e.value.capture| ==> e.value.capture[k] != '}')
  {
    var y := Search(Y, input, 0);
    if y.Some? {
      SearchMatch(Y, input);
      DigitCapture(Y, input, y.value.start);
      assert IsDigit(y.value.capture[0]);
    }
    var exclusion := Search(CharExclusion, input, 0);
    SearchOccurs(CharExclusion, input);
    if exclusion.Some? {
      SearchMatch(CharExclusion, input);
      CharExclusionCapture(input, exclusion.value.start);
    }
  }

  // ------------------------------------------------------------ dispatcher

  /** `input.startsWith("[")`. */
  predicate IsReaderString(input: string) {
    |input| > 0 && input[0] == '['
  }

  /**
    `stringToKeyword.parse(input)`: a string starting with `[` goes to the reader
    decoder, any other to the keyword decoder; a keyword decoding failure is
    passed on, and the decoded record passes the union unchanged.
   */
  function StringToKeyword(input: string): (r: Result<Options, seq<Issue>>)
    ensures IsReaderString(input) ==> r == Success(Reader(StringToReaderOptions(input).value))
    ensures !IsReaderString(input) ==>
      && (r.Success? <==> StringToKeywordOptions(input).Success?)
      && (r.Success? ==> r == Success(Keyword(StringToKeywordOptions(input).value)))
      && (r.Failure? ==> r.error == StringToKeywordOptions(input).error)
    ensures r.Success? ==> (r.value.Reader? <==> IsReaderString(input))
  {
    if IsReaderString(input) then
      var o := StringToReaderOptions(input).value;
      ReaderRevalidates(o);
      ParseUnion(ReaderToRaw(o))
    else
      match StringToKeywordOptions(input)
      case Failure(e) => Failure(e)
      case Success(k) =>
        KeywordRevalidates(k);
        ParseUnion(KeywordToRaw(k))
  }

  // ------------------------------------------------------------ encoder

  /** The token `(?#N)`. */
  function PrecisionText(n: int): string {
    "(?#" + IntToString(n) + ")"
  }

  /** The pieces of a keyword string, in order; global exclusion suppresses precision and local exclusion. */
  function KeywordParts(k: KeywordOptions): seq<string> {
    var casse := if k.casse then ["(?i)"] else [];
    var pattern := if k.pattern != "" then [k.pattern] else [];
    if k.globalExclusion then
      ["!!"] + casse + pattern
    else
      (if k.localExclusion then ["(!!)"] else [])
      + (if k.precision != 0 && k.precision != DEFAULT_PRECISION then [PrecisionText(k.precision)] else [])
      + casse + pattern
  }

  /**
    The keyword branch of `parseOptionsToString`: the flag tokens, then the
    pattern.  Without global exclusion and with every other flag at its
    default the output is the pattern alone; global exclusion puts `!!` first.
   */
  function EncodeKeyword(k: KeywordOptions): (s: string)
    ensures |k.pattern| <= |s| && s[|s| - |k.pattern|..] == k.pattern
    ensures s == k.pattern <==>
      !k.globalExclusion && !k.localExclusion && !k.casse && (k.precision == 0 || k.precision == DEFAULT_PRECISION)
    ensures k.globalExclusion ==> |s| >= 2 && s[..2] == "!!"
  {
    KeywordPartsJoin(k);
    Join(KeywordParts(k), "")
  }

  /** The joined parts end with the pattern, and the flag tokens before it are empty only when no flag is written. */
  lemma KeywordPartsJoin(k: KeywordOptions)
    ensures var s := Join(KeywordParts(k), "");
      && |k.pattern| <= |s| && s[|s| - |k.pattern|..] == k.pattern
      && (s == k.pattern <==>
            !k.globalExclusion && !k.localExclusion && !k.casse && (k.precision == 0 || k.precision == DEFAULT_PRECISION))
      && (k.globalExclusion ==> |s| >= 2 && s[..2] == "!!")
  {
    var parts := KeywordParts(k);
    var pattern := if k.pattern != "" then [k.pattern] else [];
    var flags := parts[..|parts| - |pattern|];
    assert parts == flags + pattern;
    JoinConcat(flags, pattern);
    assert Join(pattern, "") == k.pattern;
    FlagsJoinEmpty(flags);
    if k.globalExclusion {
      assert flags == ["!!"] + flags[1..];
      JoinConcat(["!!"], flags[1..]);
    }
  }

  /** The flag tokens join to nothing only when there are none, since none is empty. */
  lemma FlagsJoinEmpty(flags: seq<string>)
    requires forall i :: 0 <= i < |flags| ==> flags[i] != ""
    ensures Join(flags, "") == "" <==> flags == []
  {
    if flags != [] {
      JoinConcat([flags[0]], flags[1..]);
      assert flags == [flags[0]] + flags[1..];
    }
  }

  /** `v.toString()` for a `y` value. */
  function YText(y: YValue): string {
    match y
    case YMax => MAX_Y
    case YNumber(n) => IntToString(n)
  }

  /** JavaScript truthiness of a `y` value: `"max"` and non-zero numbers. */
  predicate YTruthy(y: YValue) {
    y.YMax? || y.n != 0
  }

  /** The pieces of a reader string: each field only when it is truthy. */
  function ReaderParts(o: ReaderOptions): seq<string> {
    (if o.fontHeight != 0 then [FONT_HEIGHT_KEY + IntToString(o.fontHeight)] else [])
    + (if YTruthy(o.y) then ["y=" + YText(o.y)] else [])
    + (if o.charExclusion.Some? && o.charExclusion.value != "" then [CHAR_EXCLUSION_KEY + o.charExclusion.value + "}"] else [])
  }

  /** The reader branch of `parseOptionsToString`. */
  function EncodeReader(o: ReaderOptions): (s: string)
    ensures |s| >= 2 && s[0] == '[' && s[|s| - 1] == ']'
  {
    "[" + Join(ReaderParts(o), ",") + "]"
  }

  /**
    `parseOptionsToString.parse(raw)`: the object is validated as a keyword
    record, else as a reader record, and the record that validates is encoded.
   */
  function ParseOptionsToString(raw: RawFields): (r: Result<string, seq<Issue>>)
    ensures r.Success? <==> ValidateKeyword(raw).Success? || ValidateReader(raw).Success?
    ensures ValidateKeyword(raw).Success? ==> r == Success(EncodeKeyword(ValidateKeyword(raw).value))
    ensures ValidateKeyword(raw).Failure? && ValidateReader(raw).Success? ==>
      r == Success(EncodeReader(ValidateReader(raw).value))
    ensures r.Success? && ValidateKeyword(raw).Failure? ==> IsReaderString(r.value)
  {
    match ParseUnion(raw)
    case Failure(e) => Failure(e)
    case Success(Keyword(k)) => Success(EncodeKeyword(k))
    case Success(Reader(o)) => Success(EncodeReader(o))
  }
}
