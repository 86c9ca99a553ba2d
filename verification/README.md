# socket-definitions option codec, modelled in Dafny

The core of socket-definitions is a small text codec for search options. It
works on two kinds of option record.

A **keyword** record holds a pattern and four flags: case sensitivity (`casse`),
a precision between 50 and 100, global exclusion and local exclusion. It is
written as flag tokens followed by the pattern, as in `(!!)(?#90)(?i)keyword`.

A **reader** record holds a `y` position (`"max"` or a number), a font height
and an optional exclusion text. It is written as a bracketed list, as in
`[FontHeight=12,y=600,exclude={abc}]`.

The codec has these parts:

- zod schemas that validate option objects (`src/base-schema.ts`);
- preprocessing decoders from strings to records, and an encoder from records
  back to strings (`src/transform-schema.ts`);
- "builder" schemas that turn each option into the token text it stands for
  (`src/build-schema.ts`);
- a user-agent classifier (`src/getDeviceType.ts`).

The model is functional throughout, because the source is: every operation
builds a fresh object or string from its input and keeps no state.

- `wrappers.dfy`: `Option` and `Result`.
- `js_strings.dfy`: the JavaScript string operations the source relies on.
  These are `trim`, `toLowerCase`/`toUpperCase`, `includes`, `join` and
  integer `toString`.
- `tokens.dfy`: the seven regular expressions of `src/base-schema.ts`.
  - Each one is a matcher anchored at an index. Greedy `\d+` and `[^}]+` with
    backtracking are written out as "the longest run, then the closing
    character".
  - A leftmost search `Search` covers `match`, `test` and the non-global
    `replace`.
  - The lemmas about them cover the leftmost match, captures, and what
    searching past a prefix does.
- `base_schema.dfy`: the two object schemas and their union, with zod's
  behaviour made explicit:
  - defaults apply to absent keys;
  - issues are listed in shape-key order;
  - the first union member that validates wins.
- `transform_schema.dfy`: the decoders `stringToKeywordOptions`,
  `stringToReaderOptions` and `stringToKeyword`, and the encoder
  `parseOptionsToString`.
- `keyword_round_trip.dfy`: decoding the encoder's keyword output gives back
  the record, in the canonical form the encoder can represent. Decoding is
  idempotent on the encoder's output (but not on arbitrary strings).
- `reader_round_trip.dfy`: decoding the encoder's reader output gives back
  the record.
- `build_schema.dfy`: the builder schemas and `stringToBuildKeywordOptions`.
  They are related to the records and to the encoder.
- `device_type.dfy`: `getDeviceType`.
- `documented_examples.dfy`: the example strings of `tests/regex.test.ts`,
  and the cases where the codec does not round-trip or accepts more than the
  builder (see below).

Values are modelled this way:

- An untyped JavaScript object handed to a schema is a `RawFields` record: one
  optional `JsValue` (string, integer number or boolean) per key.
- A zod issue is an `Issue`, one per failing key, in the order zod reports
  them.
- JavaScript numbers are unbounded integers.
- A string's `length` is its count of UTF-16 code units
  (`JsStrings.Utf16Length`): a character above U+FFFF counts twice, so the
  3-character minimum on patterns is the one zod applies.

### Where the codec does not round-trip

The model follows the code in each case.

- **Global exclusion hides other flags.** The encoder does not write
  precision or local exclusion when global exclusion is set, so those two
  come back as 100 and `false` (`tests/regex.test.ts:427-446` expects `!!keyword`
  and `!!(?i)keyword` for such records). `KeywordRoundTrip.KeywordRoundTrip`
  proves the round trip up to `KeywordRoundTrip.Canonical`;
  `DocumentedExamples.GlobalHidesOtherFlags` shows that the record itself is
  not recovered.
- **Decoding is idempotent only on encoder output.** `!!(!!)keyword` decodes
  to a record with both exclusions, which the encoder writes as
  `!!keyword`; one more round loses the local exclusion
  (`DocumentedExamples.DecodedRecordNotStable`). `KeywordRoundTrip.KeywordFixedPoint`
  holds for strings the encoder wrote.
- **Reserved operators.** Only the builder schema `validKeywordSchema` refuses
  `|` and `&&` (`BuildSchema.ValidatePattern`, as `tests/regex.test.ts:217-229`
  expects). The decoders accept such patterns
  (`DocumentedExamples.ReservedOperatorDecoded`).
- **Falsy reader fields are dropped.** The reader builder writes `y=0`
  (`tests/regex.test.ts:129-132`), but the encoder writes each reader field only
  when it is truthy: a font height of 0, a `y` of 0 and an empty exclusion are
  all dropped (`DocumentedExamples.FalsyReaderFieldsDropped`).
- **Reader parsing.** The reader decoder never fails.
  - Its `y` token captures digits only, so `[y=max]` decodes to `y` `"max"`
    (`tests/regex.test.ts:309-315`) only because `"max"` is the default.
  - A negative font height or `y` is written with its minus sign
    (`FontHeight=-5`) and read back as the default, since the tokens capture
    digits only.
  - An exclusion holding `}` is written as is and read back cut at the first `}`.
  - A keyword pattern starting with `[` is written unchanged and then routed
    to the reader decoder (`DocumentedExamples.BracketPatternMisrouted`).

## Model

| member | source | states |
|---|---|---|
| JsStrings.NatToStringValue | src/transform-schema.ts:126 | the decimal text the encoder writes for a number reads back as that number |
| JsStrings.Trim | src/transform-schema.ts:42 | `trim` cuts only white space, from both ends, and leaves no white space at either end |
| JsStrings.ToLower | src/getDeviceType.ts:7 | `toLowerCase` keeps the length and lower-cases each character |
| JsStrings.Includes | src/getDeviceType.ts:29 | `includes` holds exactly when the text occurs at some index |
| JsStrings.Utf16Length | src/base-schema.ts:11-17 | `length` counts at least one code unit per character |
| JsStrings.Utf16LengthBmp | src/base-schema.ts:11-17 | `length` equals the character count exactly when no character lies above U+FFFF |
| JsStrings.JoinConcat | src/transform-schema.ts:135 | joining with `""` distributes over concatenation of the part lists |
| Tokens.MatchAt | src/base-schema.ts:4-10 | a match of any token starts where it is anchored and ends after it, within the string |
| Tokens.SearchLeftmost | src/transform-schema.ts:24 | `match` returns the leftmost match; when it returns nothing, the token matches nowhere |
| Tokens.Test | src/transform-schema.ts:20 | `test` is true exactly when the token occurs somewhere |
| Tokens.SearchOccurs | src/transform-schema.ts:24-25 | `match` finds something exactly when the token occurs |
| Tokens.ReplaceFirstChanges | src/transform-schema.ts:37-41 | a non-global `replace` changes the string exactly when the token occurs, and then shortens it |
| Tokens.PrecisionMatchSemantics | src/base-schema.ts:5 | `(?#`, a non-empty digit run and `)` give a match capturing the run; conversely every match has that shape, with the capture as its run |
| Tokens.CharExclusionMatchSemantics | src/base-schema.ts:10 | `exclude={`, a non-empty text without `}` and `}` give a match capturing the text; conversely every match has that shape, with the capture as its text |
| Tokens.DigitCapture | src/base-schema.ts:5-9 | the captures of `(?#…)`, `y=` and `FontHeight=` are non-empty digit strings |
| Tokens.CharExclusionCapture | src/base-schema.ts:10 | the exclusion capture is non-empty and holds no `}` |
| Tokens.ReaderTokenStart | src/base-schema.ts:8-10 | a reader token match starts with `y=` and a digit, with `F`, or with `ex` |
| Tokens.LocalTokenIsNotGlobal | src/base-schema.ts:6-7 | the look-behind keeps `(!!)` from counting as global exclusion |
| Tokens.SearchShift | src/base-schema.ts:4-10 | a token that cannot start inside a prefix is found after the prefix exactly where it is found in the rest |
| Tokens.SearchPastPrefix | src/base-schema.ts:4-10 | searching a string behind a safe prefix gives the rest's match, shifted |
| Tokens.ReplacePastPrefix | src/transform-schema.ts:37-41 | `replace` behind a safe prefix leaves the prefix and replaces in the rest |
| BaseSchema.ValidateKeyword | src/base-schema.ts:14-22 | the keyword object validates iff the pattern is a string of at least 3 UTF-16 code units, the flags are booleans or absent and the precision is absent or in [50, 100]; absent keys take their defaults; failures report issues |
| BaseSchema.ValidateReader | src/base-schema.ts:25-29 | the reader object validates iff `y` is `"max"` or a number, the font height is a number and the exclusion a string (each may be absent); defaults are `"max"` and 10; every failure issue is fatal |
| BaseSchema.KeywordRangeIssues | src/base-schema.ts:15-19 | with well-typed keys, the only issues are a short pattern then an out-of-range precision, in that order |
| BaseSchema.ParseUnion | src/transform-schema.ts:86-89 | the keyword shape wins when it validates, else the reader shape; the union fails iff both fail |
| BaseSchema.KeywordRevalidates | src/transform-schema.ts:83 | a valid keyword record passes validation and the union unchanged |
| BaseSchema.ReaderRevalidates | src/transform-schema.ts:83 | a reader record fails the keyword shape with a missing pattern and passes the reader shape unchanged |
| BaseSchema.PatternLengthBoundary | src/base-schema.ts:11-17 | two characters are refused, three accepted, two characters above U+FFFF (four code units) accepted, a missing pattern is required |
| BaseSchema.PrecisionBoundary | src/base-schema.ts:19 | 49 and 101 are refused, 50 and 100 accepted |
| BaseSchema.ReaderDefaults | src/base-schema.ts:25-29 | the empty object gives `y` `"max"` and font height 10; other strings for `y` are refused |
| TransformSchema.PrecisionValue | src/transform-schema.ts:26 | a captured precision of 0 becomes 100; any other value is kept |
| TransformSchema.FirstNumber | src/transform-schema.ts:24-26 | a number is read exactly when the token occurs |
| TransformSchema.DecodedPrecision | src/transform-schema.ts:24-27 | the precision is the number in the first precision token when it is not 0; without a token, or with `(?#0)`, it is 100 |
| TransformSchema.StripTokens | src/transform-schema.ts:37-42 | the pattern is no longer than the input and has no white space at either end |
| TransformSchema.KeywordFields | src/transform-schema.ts:18-44 | each flag is set exactly when its token occurs anywhere; the pattern is the stripped input; precision is present only with its token |
| TransformSchema.StringToKeywordOptions | src/transform-schema.ts:13-45 | decoding succeeds iff the stripped pattern has at least 3 code units and the precision read is in [50, 100]; the record holds those values and the flags of the tokens that occur |
| TransformSchema.KeywordDecodedFrom | src/transform-schema.ts:13-45 | the decoded record is determined by the stripped pattern, the precision read and the tokens present |
| TransformSchema.KeywordDecodeIssues | src/transform-schema.ts:45 | a failed keyword decoding reports exactly a short pattern and then an out-of-range precision |
| TransformSchema.ReaderFields | src/transform-schema.ts:52-68 | the partial object holds the first font-height number, the first `y` number and the first exclusion text, each only when its token occurs |
| TransformSchema.StringToReaderOptions | src/transform-schema.ts:47-71 | reader decoding never fails; each field comes from the leftmost match of its token, else its default; `y` is `"max"` iff no `y=<digits>` occurs |
| TransformSchema.ReaderCaptures | src/transform-schema.ts:59-68 | the `y` capture is digits and never `"max"`; the exclusion capture exists iff the token occurs, and is non-empty without `}` |
| TransformSchema.StringToKeyword | src/transform-schema.ts:73-83 | a string starting with `[` goes to the reader decoder, any other to the keyword decoder, whose failures are passed on |
| TransformSchema.EncodeKeyword | src/transform-schema.ts:111-135 | the keyword encoding ends with the pattern; it is the pattern alone iff no flag is written; with global exclusion it starts with `!!` |
| TransformSchema.EncodeReader | src/transform-schema.ts:93-109 | the reader encoding is bracketed |
| TransformSchema.ParseOptionsToString | src/transform-schema.ts:85-136 | encoding succeeds iff the object validates as either shape; a valid keyword object is encoded as a keyword string, else a valid reader object as a reader string starting with `[` |
| KeywordRoundTrip.DecodeRendered | src/transform-schema.ts:13-45 | flag tokens in any order, each at most once, followed by a trimmed token-free pattern, decode to exactly those flags and that pattern |
| KeywordRoundTrip.EncodeAsFlags | src/transform-schema.ts:111-135 | the keyword encoding is its flag tokens followed by the pattern |
| KeywordRoundTrip.FlagsSpellCanonical | src/transform-schema.ts:111-135 | the encoder writes each token at most once, and exactly the flags of the canonical record |
| KeywordRoundTrip.KeywordRoundTrip | src/transform-schema.ts:13-136 | decoding the encoding of a valid record with a token-free trimmed pattern gives its canonical form |
| KeywordRoundTrip.EncodeIgnoresSuppressed | src/transform-schema.ts:111-120 | with global exclusion set, precision and local exclusion do not affect the output |
| KeywordRoundTrip.KeywordFixedPoint | src/transform-schema.ts:13-136 | on the encoder's output decoding is idempotent: the record decoded from an encoding encodes and decodes to itself |
| KeywordRoundTrip.SearchRendered | src/transform-schema.ts:24-41 | in flag tokens followed by a pattern, a token search stops at the first segment that spells the token |
| KeywordRoundTrip.StripRendered | src/transform-schema.ts:37-42 | stripping removes every flag segment and leaves the pattern |
| KeywordRoundTrip.OccursRendered | src/transform-schema.ts:20-35 | a keyword token occurs exactly when some segment spells it |
| KeywordRoundTrip.PrecisionRendered | src/transform-schema.ts:24-27 | the precision read is the first precision segment's value, with 0 read as 100 |
| ReaderRoundTrip.Layout | src/transform-schema.ts:99-108 | for a record whose fields are all written, the encoding is `[`, the font height part, `,`, the `y` part, then the exclusion part if any and `]` |
| ReaderRoundTrip.FontHeightFound | src/transform-schema.ts:54-57 | the font height the encoder writes is the one the decoder finds first |
| ReaderRoundTrip.YFound | src/transform-schema.ts:59-63 | the `y` the encoder writes is read back: a number as itself, `"max"` as the default |
| ReaderRoundTrip.ExclusionFound | src/transform-schema.ts:65-68 | the exclusion the encoder writes is the one the decoder captures |
| ReaderRoundTrip.ReaderRoundTrip | src/transform-schema.ts:47-109 | decoding the encoding of a reader record with a positive font height, a positive or `"max"` `y` and a non-empty brace-free exclusion gives the record back |
| BuildSchema.ValidatePattern | src/build-schema.ts:4-11 | a pattern passes iff it is a string of at least 3 code units without a pipe or `&&`; a short pattern with an operator gets both issues, length first |
| BuildSchema.ValidPatternIsKeywordPattern | src/build-schema.ts:5-6 | the builder's pattern rule is the keyword pattern rule plus the operator check |
| BuildSchema.ReservedOperatorRefused | src/build-schema.ts:6-8 | `keyword` pipe `other` and `keyword&&other` are refused |
| BuildSchema.ShortAndReserved | src/build-schema.ts:5-9 | `a` followed by a pipe gets a short-pattern issue and then a reserved-operator issue |
| BuildSchema.TokenTextAccepted | src/build-schema.ts:5-9 | token text and a leading `[` pass the builder's pattern rule unchanged |
| BuildSchema.NoReservedOperator | src/build-schema.ts:6 | text with neither a pipe nor `&` passes the operator check |
| BuildSchema.FlagTokenField | src/build-schema.ts:15-33 | a boolean flag or its default `false` becomes its token when true and null otherwise; a non-boolean is refused |
| BuildSchema.BuildCasse | src/build-schema.ts:15-17 | `true` becomes `(?i)`; `false` or absent becomes null; a non-boolean is refused |
| BuildSchema.BuildLocalExclusion | src/build-schema.ts:25-27 | `true` becomes `(!!)`; `false` or absent becomes null; a non-boolean is refused |
| BuildSchema.BuildGlobalExclusion | src/build-schema.ts:29-33 | `true` becomes `!!`; `false` or absent becomes null; a non-boolean is refused |
| BuildSchema.BuildPrecision | src/build-schema.ts:19-23 | precision in [50, 100] or absent is accepted; 100 and absent give null, any other value `(?#N)` |
| BuildSchema.BuildKeywordOptions | src/build-schema.ts:35-42 | the merged builder succeeds iff every flag is a boolean or absent, the precision is valid and the pattern is a string of at least 3 code units; each flag's token, the precision token (null for 100 or absent) and the pattern are given; it reports issues in key order |
| BuildSchema.BuildFromRecord | src/build-schema.ts:35-42 | building a keyword record succeeds iff the record is valid, and gives the tokens of each flag |
| BuildSchema.EncoderWritesBuiltTokens | src/build-schema.ts:15-27 | without global exclusion, the encoder's output is the built tokens followed by the pattern |
| BuildSchema.EncoderSuppressesBuiltTokens | src/build-schema.ts:29-33 | with global exclusion, the builder still builds precision and local tokens that the encoder leaves out |
| BuildSchema.AllTokensBuilt | src/build-schema.ts:35-42 | all four flags give all four tokens; precision 100 gives null; a missing or short pattern is refused |
| BuildSchema.BuildReaderOptions | src/build-schema.ts:44-57 | the reader builder succeeds iff the reader object validates, and writes `y=`, `FontHeight=` and, for a non-empty exclusion, `exclude={…}` |
| BuildSchema.EncoderWritesBuiltReader | src/build-schema.ts:44-57 | for truthy font height and `y`, the encoder's reader parts are the built parts |
| BuildSchema.ReaderBuilderExamples | src/build-schema.ts:44-57 | defaults give `y=max` and `FontHeight=10`; `y` 0 gives `y=0`; `"invalid"` is refused; an empty exclusion gives null |
| BuildSchema.BuildFields | src/build-schema.ts:59-98 | the preprocessed object holds every key: the flags of the tokens present, the decoded precision and the stripped pattern |
| BuildSchema.StringToBuildKeywordOptions | src/build-schema.ts:59-98 | building from a string succeeds iff keyword decoding does, gives the tokens of the decoded record, and reports the precision issue before the pattern issue |
| DeviceType.GetDeviceType | src/getDeviceType.ts:5-32 | the answer is `"mobile"` or `"web"`, and `"mobile"` iff some indicator occurs in the lower-cased user agent |
| DeviceType.EmptyIsWeb | src/getDeviceType.ts:29-31 | the empty user agent is web |
| DeviceType.CaseInsensitive | src/getDeviceType.ts:7 | upper-casing a user agent does not change its class |
| DeviceType.SameLowerSameType | src/getDeviceType.ts:7 | user agents equal once lower-cased get the same class |
| DeviceType.Monotone | src/getDeviceType.ts:29 | a user agent containing a mobile user agent is mobile |
| DeviceType.MobileExamples | src/getDeviceType.ts:13-17 | `iPhone` and `Windows Phone` user agents are mobile |
| DocumentedExamples.PlainPattern | src/transform-schema.ts:73-83 | a pattern with no token characters decodes, through the dispatcher, to itself with default flags |
| DocumentedExamples.ReservedOperatorDecoded | src/transform-schema.ts:13-45 | patterns holding a pipe or `&&` decode successfully and keep the operators |
| DocumentedExamples.KeywordExample | src/transform-schema.ts:122-135 | local exclusion, precision 90 and case sensitivity are written `(!!)(?#90)(?i)` before the pattern and read back |
| DocumentedExamples.GlobalHidesOtherFlags | src/transform-schema.ts:111-120 | a record with all flags set encodes as `!!` plus the pattern and does not come back unchanged |
| DocumentedExamples.DecodedRecordNotStable | src/transform-schema.ts:13-45 | `!!(!!)` before a plain pattern decodes to both exclusions, and one more round of encoding and decoding drops the local one |
| DocumentedExamples.ZeroPrecisionReadAsDefault | src/transform-schema.ts:26 | `(?#0)` is read as precision 100 |
| DocumentedExamples.ReaderExample | src/transform-schema.ts:99-108 | `[FontHeight=12,y=600,exclude={…}]` is written for its record and decodes back to it |
| DocumentedExamples.ReaderDefaultsExample | src/transform-schema.ts:99-108 | the default reader record is written `[FontHeight=10,y=max]` and decodes back to itself |
| DocumentedExamples.NoReaderTokens | src/transform-schema.ts:47-71 | a string without reader tokens decodes to the reader defaults |
| DocumentedExamples.FalsyReaderFieldsDropped | src/transform-schema.ts:99-107 | a zero font height, a zero `y` and an empty exclusion are written as `[]` |
| DocumentedExamples.BracketPatternMisrouted | src/transform-schema.ts:78-80 | a valid keyword record whose pattern starts with `[` is encoded as is and decoded as a reader record |

## Left out

- Inputs that are not strings. The preprocessors' `typeof input !== "string"` branches return `{}`, which then fails for want of a pattern or takes the reader defaults. The model's decoders take strings only.
- Object values other than strings, integer numbers and booleans. `null`, arrays, objects, `undefined` given explicitly, and non-integer or non-finite numbers are not modelled. JavaScript numbers are unbounded integers here, so `Number` of a very long digit run is exact rather than rounded.
- Issue objects. zod's messages, paths and codes are reduced to one `Issue` constructor per kind.
- The `isNaN` refinement on `y` in `buildReaderOptionsSchema`. It can never fail once `y` has passed the union of `"max"` and a number, so it is not modelled.
- JsStrings.ToLower: only ASCII letters change case. The full Unicode case mapping of `toLowerCase`/`toUpperCase` is not modelled.
- JsStrings.Trim: only ASCII white space is trimmed. Unicode space separators and the byte-order mark are not.
- DeviceType.GetDeviceType: inherits the ASCII-only lower-casing above.
- TransformSchema.EncodeKeyword: its own contract states the pattern at the end, when the output is the pattern alone, and the leading `!!`. The full token sequence is stated by `KeywordRoundTrip.EncodeAsFlags`, whose flag segments are defined over the encoder and so cannot appear in the encoder's own contract.
- TransformSchema.EncodeReader: its own contract only states the brackets. Its content is stated by `ReaderRoundTrip.Layout` and `ReaderRoundTrip.ReaderRoundTrip`.
- ReaderRoundTrip.ReaderRoundTrip: proved only for records with a positive font height, a positive or `"max"` `y`, and an exclusion that is absent or non-empty and free of `}` (and of `y` when `y` is `"max"`). Outside that range: a zero field is not written (`DocumentedExamples.FalsyReaderFieldsDropped`); a negative font height or `y` is written with a minus sign and read back as the default; an exclusion holding `}` is read back cut at the first `}`; and a `y=<digits>` inside the exclusion of a `"max"` record is read as the `y` value.
- KeywordRoundTrip.KeywordRoundTrip: proved for patterns holding no token text and no surrounding white space. Other patterns lose text to the decoder's token stripping.
- The socket transport, call services, Android call bridge, React hooks and shared type declarations are not part of this model: they are I/O and UI glue with no codec logic.
