/**
  Decoding an encoded keyword string.

  An encoded keyword string is a run of flag segments (`!!`, `(!!)`, `(?#N)`,
  `(?i)`) followed by the pattern.  The proofs follow the decoder over such a
  string segment by segment: a token search stops at the segment that spells
  the token, since no other segment contains it, and cutting that segment out
  leaves the remaining segments and the pattern in place.
 */
module KeywordRoundTrip {
  import opened Wrappers
  import opened JsStrings
  import opened Tokens
  import opened BaseSchema
  import opened TransformSchema

  /** One flag segment of a keyword string. */
  datatype Flag = GlobalFlag | LocalFlag | PrecisionFlag(n: nat) | CasseFlag

  function FlagText(f: Flag): (t: string)
    ensures |t| >= 2 && t[0] != '[' && t[|t| - 1] != '('
  {
    match f
    case GlobalFlag => "!!"
    case LocalFlag => "(!!)"
    case PrecisionFlag(n) => PrecisionText(n)
    case CasseFlag => "(?i)"
  }

  function FlagToken(f: Flag): Token {
    match f
    case GlobalFlag => GlobalExclusion
    case LocalFlag => LocalExclusion
    case PrecisionFlag(_) => Precision
    case CasseFlag => Casse
  }

  function FlagCapture(f: Flag): string {
    match f
    case PrecisionFlag(n) => NatToString(n)
    case _ => ""
  }

  /** The segments written one after the other. */
  function Render(fs: seq<Flag>): string {
    if fs == [] then "" else FlagText(fs[0]) + Render(fs[1..])
  }

  /** Whether some segment of `fs` spells `tok`. */
  predicate HasFlag(fs: seq<Flag>, tok: Token) {
    fs != [] && (FlagToken(fs[0]) == tok || HasFlag(fs[1..], tok))
  }

  /** The value of the first precision segment. */
  function FirstPrecision(fs: seq<Flag>): Option<nat> {
    if fs == [] then None
    else if fs[0].PrecisionFlag? then Some(fs[0].n)
    else FirstPrecision(fs[1..])
  }

  /** Where the first segment spelling `tok` sits in `Render(fs)`, and its capture. */
  function FirstMatch(fs: seq<Flag>, tok: Token): Option<Match> {
    if fs == [] then None
    else if FlagToken(fs[0]) == tok then Some(Match(0, |FlagText(fs[0])|, FlagCapture(fs[0])))
    else Shifted(FirstMatch(fs[1..], tok), |FlagText(fs[0])|)
  }

  /** `fs` without its first segment spelling `tok`. */
  function Without(fs: seq<Flag>, tok: Token): seq<Flag> {
    if fs == [] then []
    else if FlagToken(fs[0]) == tok then fs[1..]
    else [fs[0]] + Without(fs[1..], tok)
  }

  /** No keyword token matches anywhere in `p`. */
  predicate TokenFree(p: string) {
    forall tok: Token, j :: tok.IsKeywordToken() && 0 <= j <= |p| ==> MatchAt(tok, p, j).None?
  }

  /** Each keyword token spelled at most once: the four strip steps remove every segment. */
  predicate StripsAll(fs: seq<Flag>) {
    Without(Without(Without(Without(fs, Casse), Precision), GlobalExclusion), LocalExclusion) == []
  }

  // ------------------------------------------------------------ one segment

  /** A segment is matched, at its start, by the token it spells. */
  lemma OwnMatch(f: Flag, b: string)
    ensures MatchAt(FlagToken(f), FlagText(f) + b, 0) == Some(Match(0, |FlagText(f)|, FlagCapture(f)))
  {
    var s := FlagText(f) + b;
    if f.PrecisionFlag? {
      var d := NatToString(f.n);
      assert s == "(?#" + d + ")" + b;
      assert s[3 + |d|] == ')';
      DigitRunExact(s, 3, |d|);
      assert s[3..3 + |d|] == d;
    }
  }

  /** No other keyword token matches at an index inside a segment. */
  lemma ForeignMiss(f: Flag, tok: Token, b: string, j: nat)
    requires tok.IsKeywordToken() && tok != FlagToken(f)
    requires j < |FlagText(f)|
    ensures MatchAt(tok, FlagText(f) + b, j).None?
  {
    var s := FlagText(f) + b;
    match f
    case GlobalFlag =>
      assert s[0] == '!' && s[1] == '!';
    case LocalFlag =>
      assert s[0] == '(' && s[1] == '!' && s[2] == '!' && s[3] == ')';
    case CasseFlag =>
      assert s[0] == '(' && s[1] == '?' && s[2] == 'i' && s[3] == ')';
    case PrecisionFlag(n) =>
      var d := NatToString(n);
      assert s == "(?#" + d + ")" + b;
      assert s[0] == '(' && s[1] == '?' && s[2] == '#';
      if 3 <= j {
        assert j < 3 + |d| ==> IsDigit(s[j]);
        assert j == 3 + |d| ==> s[j] == ')';
      }
  }

  // ------------------------------------------------------------ a run of segments

  lemma RenderCons(fs: seq<Flag>, p: string)
    requires fs != []
    ensures Render(fs) + p == FlagText(fs[0]) + (Render(fs[1..]) + p)
  {
  }

  /**
    Over segments followed by a token-free pattern, the leftmost match of a
    keyword token is the first segment spelling it, and `replace` cuts out
    exactly that segment.
   */
  lemma {:induction false} SearchRendered(fs: seq<Flag>, p: string, tok: Token)
    requires tok.IsKeywordToken() && TokenFree(p)
    ensures Search(tok, Render(fs) + p, 0) == FirstMatch(fs, tok)
    ensures ReplaceFirst(tok, Render(fs) + p) == Render(Without(fs, tok)) + p
    decreases |fs|
  {
    if fs == [] {
      assert Render(fs) + p == p;
      SearchLeftmost(tok, p, 0);
    } else {
      var f, t, b := fs[0], FlagText(fs[0]), Render(fs[1..]) + p;
      RenderCons(fs, p);
      if FlagToken(f) == tok {
        OwnMatch(f, b);
        assert (t + b)[|t|..] == b;
      } else {
        forall j | 0 <= j < |t| ensures MatchAt(tok, t + b, j).None? {
          ForeignMiss(f, tok, b, j);
        }
        SearchRendered(fs[1..], p, tok);
        SearchPastPrefix(tok, t, b);
        ReplacePastPrefix(tok, t, b);
        assert Without(fs, tok) == [f] + Without(fs[1..], tok);
        RenderCons(Without(fs, tok), p);
        assert Without(fs, tok)[1..] == Without(fs[1..], tok);
      }
    }
  }

  lemma {:induction false} FirstMatchFound(fs: seq<Flag>, tok: Token)
    ensures FirstMatch(fs, tok).Some? <==> HasFlag(fs, tok)
    ensures tok == Precision ==> (FirstPrecision(fs).Some? <==> HasFlag(fs, tok))
    ensures tok == Precision && FirstMatch(fs, tok).Some? ==>
      FirstPrecision(fs).Some? && FirstMatch(fs, tok).value.capture == NatToString(FirstPrecision(fs).value)
    decreases |fs|
  {
    if fs != [] {
      FirstMatchFound(fs[1..], tok);
    }
  }

  /** The four `replace` steps remove every segment and leave the pattern. */
  lemma RemoveRendered(fs: seq<Flag>, p: string)
    requires StripsAll(fs) && TokenFree(p)
    ensures RemoveTokens(Render(fs) + p) == p
  {
    var w1 := Without(fs, Casse);
    var w2 := Without(w1, Precision);
    var w3 := Without(w2, GlobalExclusion);
    SearchRendered(fs, p, Casse);
    SearchRendered(w1, p, Precision);
    SearchRendered(w2, p, GlobalExclusion);
    SearchRendered(w3, p, LocalExclusion);
    var empty: seq<Flag> := [];
    assert Without(w3, LocalExclusion) == empty;
    assert Render(empty) + p == p;
  }

  lemma StripRendered(fs: seq<Flag>, p: string)
    requires StripsAll(fs) && TokenFree(p) && Trim(p) == p
    ensures StripTokens(Render(fs) + p) == p
  {
    RemoveRendered(fs, p);
  }

  /** A keyword token occurs in segments plus a token-free pattern exactly when a segment spells it. */
  lemma OccursRendered(fs: seq<Flag>, p: string, tok: Token)
    requires tok.IsKeywordToken() && TokenFree(p)
    ensures Occurs(tok, Render(fs) + p) <==> HasFlag(fs, tok)
  {
    SearchRendered(fs, p, tok);
    FirstMatchFound(fs, tok);
    SearchOccurs(tok, Render(fs) + p);
  }

  /** The precision the decoder reads off segments: the first precision segment's value, 0 read as 100. */
  function SpelledPrecision(fs: seq<Flag>): int {
    match FirstPrecision(fs)
    case None => DEFAULT_PRECISION
    case Some(n) => if n == 0 then DEFAULT_PRECISION else n
  }

  lemma PrecisionRendered(fs: seq<Flag>, p: string)
    requires TokenFree(p)
    ensures DecodedPrecision(Render(fs) + p) == SpelledPrecision(fs)
  {
    var s := Render(fs) + p;
    SearchRendered(fs, p, Precision);
    FirstMatchFound(fs, Precision);
    var m := Search(Precision, s, 0);
    if m.Some? {
      var n := FirstPrecision(fs).value;
      NatToStringValue(n);
      assert m.value.capture == NatToString(n);
      assert DecodedPrecision(s) == PrecisionValue(m.value.capture);
    } else {
      assert DecodedPrecision(s) == DEFAULT_PRECISION;
    }
  }

  /**
    Flag segments in any order, each token at most once, followed by a
    trimmed, token-free pattern, decode to the flags they spell and the
    pattern: each flag is set exactly when its segment is present, and the
    precision is the first precision segment's value (0 read as 100).
   */
  lemma DecodeRendered(fs: seq<Flag>, p: string)
    requires StripsAll(fs) && TokenFree(p) && Trim(p) == p
    ensures var k := KeywordOptions(p, HasFlag(fs, Casse), SpelledPrecision(fs), HasFlag(fs, GlobalExclusion), HasFlag(fs, LocalExclusion));
      var r := StringToKeywordOptions(Render(fs) + p);
      && (r.Success? <==> ValidKeyword(k))
      && (r.Success? ==> r.value == k)
  {
    var k := KeywordOptions(p, HasFlag(fs, Casse), SpelledPrecision(fs), HasFlag(fs, GlobalExclusion), HasFlag(fs, LocalExclusion));
    StripRendered(fs, p);
    OccursRendered(fs, p, Casse);
    OccursRendered(fs, p, GlobalExclusion);
    OccursRendered(fs, p, LocalExclusion);
    PrecisionRendered(fs, p);
    KeywordDecodedFrom(Render(fs) + p, k);
  }

  // ------------------------------------------------------------ the canonical form

  /**
    The record the encoder can represent: with global exclusion set, precision
    and local exclusion are not written, so they come back as 100 and false.
   */
  function Canonical(k: KeywordOptions): KeywordOptions {
    if k.globalExclusion then k.(precision := DEFAULT_PRECISION, localExclusion := false) else k
  }

  /** The segments the encoder writes before the pattern of a valid record. */
  function Flags(k: KeywordOptions): seq<Flag>
    requires ValidKeyword(k)
  {
    var casse := if k.casse then [CasseFlag] else [];
    if k.globalExclusion then [GlobalFlag] + casse
    else
      (if k.localExclusion then [LocalFlag] else [])
      + (if k.precision != DEFAULT_PRECISION then [PrecisionFlag(k.precision)] else [])
      + casse
  }

  lemma {:induction false} RenderConcat(a: seq<Flag>, b: seq<Flag>)
    ensures Render(a + b) == Render(a) + Render(b)
    decreases |a|
  {
    if a == [] {
      assert a + b == b;
    } else {
      assert (a + b)[1..] == a[1..] + b;
      RenderConcat(a[1..], b);
    }
  }

  /** The encoder's output for a valid record is its segments followed by the pattern. */
  lemma EncodeAsFlags(k: KeywordOptions)
    requires ValidKeyword(k)
    ensures EncodeKeyword(k) == Render(Flags(k)) + k.pattern
  {
    if k.globalExclusion {
      EncodeGlobalAsFlags(k);
    } else {
      EncodeLocalAsFlags(k);
    }
  }

  lemma EncodeGlobalAsFlags(k: KeywordOptions)
    requires ValidKeyword(k) && k.globalExclusion
    ensures EncodeKeyword(k) == Render(Flags(k)) + k.pattern
  {
    var casseT: seq<string> := if k.casse then ["(?i)"] else [];
    var casseF: seq<Flag> := if k.casse then [CasseFlag] else [];
    assert Join(casseT, "") == Render(casseF);
    assert Join([k.pattern], "") == k.pattern;
    assert KeywordParts(k) == ["!!"] + casseT + [k.pattern];
    JoinConcat(["!!"] + casseT, [k.pattern]);
    JoinConcat(["!!"], casseT);
    RenderConcat([GlobalFlag], casseF);
  }

  lemma EncodeLocalAsFlags(k: KeywordOptions)
    requires ValidKeyword(k) && !k.globalExclusion
    ensures EncodeKeyword(k) == Render(Flags(k)) + k.pattern
  {
    var casseT: seq<string> := if k.casse then ["(?i)"] else [];
    var casseF: seq<Flag> := if k.casse then [CasseFlag] else [];
    var localT: seq<string> := if k.localExclusion then ["(!!)"] else [];
    var localF: seq<Flag> := if k.localExclusion then [LocalFlag] else [];
    var precisionT: seq<string> := if k.precision != DEFAULT_PRECISION then [PrecisionText(k.precision)] else [];
    var precisionF: seq<Flag> := if k.precision != DEFAULT_PRECISION then [PrecisionFlag(k.precision)] else [];
    assert Join(casseT, "") == Render(casseF);
    assert Join([k.pattern], "") == k.pattern;
    assert Join(localT, "") == Render(localF);
    assert Join(precisionT, "") == Render(precisionF);
    assert KeywordParts(k) == localT + precisionT + casseT + [k.pattern];
    JoinConcat(localT + precisionT + casseT, [k.pattern]);
    JoinConcat(localT + precisionT, casseT);
    JoinConcat(localT, precisionT);
    RenderConcat(localF + precisionF, casseF);
    RenderConcat(localF, precisionF);
  }

  lemma {:induction false} WithoutConcat(a: seq<Flag>, b: seq<Flag>, tok: Token)
    ensures Without(a + b, tok) == if HasFlag(a, tok) then Without(a, tok) + b else a + Without(b, tok)
    decreases |a|
  {
    if a == [] {
      assert a + b == b;
    } else {
      assert (a + b)[1..] == a[1..] + b;
      WithoutConcat(a[1..], b, tok);
    }
  }

  lemma {:induction false} HasFlagConcat(a: seq<Flag>, b: seq<Flag>, tok: Token)
    ensures HasFlag(a + b, tok) <==> HasFlag(a, tok) || HasFlag(b, tok)
    ensures FirstPrecision(a + b) == if FirstPrecision(a).Some? then FirstPrecision(a) else FirstPrecision(b)
    decreases |a|
  {
    if a == [] {
      assert a + b == b;
    } else {
      assert (a + b)[1..] == a[1..] + b;
      HasFlagConcat(a[1..], b, tok);
    }
  }

  /** The segments of a valid record spell each token at most once, and exactly the canonical flags. */
  lemma FlagsSpellCanonical(k: KeywordOptions)
    requires ValidKeyword(k)
    ensures StripsAll(Flags(k))
    ensures HasFlag(Flags(k), Casse) <==> k.casse
    ensures HasFlag(Flags(k), GlobalExclusion) <==> k.globalExclusion
    ensures HasFlag(Flags(k), LocalExclusion) <==> Canonical(k).localExclusion
    ensures SpelledPrecision(Flags(k)) == Canonical(k).precision
  {
    var fs := Flags(k);
    var c: seq<Flag> := if k.casse then [CasseFlag] else [];
    if k.globalExclusion {
      assert fs == [GlobalFlag] + c;
      HasFlagConcat([GlobalFlag], c, LocalExclusion);
      assert Without(fs, Casse) == [GlobalFlag];
    } else {
      var l: seq<Flag> := if k.localExclusion then [LocalFlag] else [];
      var q: seq<Flag> := if k.precision != DEFAULT_PRECISION then [PrecisionFlag(k.precision)] else [];
      assert fs == l + q + c;
      HasFlagConcat(l + q, c, Casse);
      HasFlagConcat(l, q, Casse);
      HasFlagConcat(l + q, c, Precision);
      HasFlagConcat(l, q, Precision);
      HasFlagConcat(l + q, c, GlobalExclusion);
      HasFlagConcat(l, q, GlobalExclusion);
      HasFlagConcat(l + q, c, LocalExclusion);
      HasFlagConcat(l, q, LocalExclusion);
      WithoutConcat(l + q, c, Casse);
      WithoutConcat(l, q, Precision);
      assert Without(fs, Casse) == l + q;
      assert Without(l + q, Precision) == l;
    }
  }

  /**
    Decoding what the encoder writes for a valid record gives the record back
    in canonical form, provided its pattern holds no token text and no
    surrounding white space.
   */
  lemma KeywordRoundTrip(k: KeywordOptions)
    requires ValidKeyword(k) && TokenFree(k.pattern) && Trim(k.pattern) == k.pattern
    ensures StringToKeywordOptions(EncodeKeyword(k)) == Success(Canonical(k))
  {
    var fs := Flags(k);
    assert EncodeKeyword(k) == Render(fs) + k.pattern by {
      EncodeAsFlags(k);
    }
    FlagsSpellCanonical(k);
    DecodeRendered(fs, k.pattern);
  }

  /** Global exclusion hides precision and local exclusion from the output. */
  lemma EncodeIgnoresSuppressed(k: KeywordOptions)
    ensures EncodeKeyword(Canonical(k)) == EncodeKeyword(k)
  {
  }

  /**
    On the encoder's own output, decoding is idempotent: the record decoded
    from an encoded record (with a token-free, trimmed pattern) encodes and
    decodes to itself.  A string the encoder did not write need not have this
    property (`DocumentedExamples.DecodedRecordNotStable`).
   */
  lemma KeywordFixedPoint(k: KeywordOptions)
    requires ValidKeyword(k) && TokenFree(k.pattern) && Trim(k.pattern) == k.pattern
    ensures var d := StringToKeywordOptions(EncodeKeyword(k));
      d.Success? && StringToKeywordOptions(EncodeKeyword(d.value)) == d
  {
    KeywordRoundTrip(k);
    KeywordRoundTrip(Canonical(k));
  }
}
