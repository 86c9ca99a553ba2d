/**
  Worked examples of the codec, each derived from the general lemmas: the
  example strings of `tests/regex.test.ts`, and the cases where the codec does
  not round-trip or is more lenient than the builder (global exclusion hiding
  flags, decoding idempotent only on encoder output, reserved operators
  passing the decoder, falsy reader fields left out, a `[` pattern routed to
  the reader decoder).
 */
module DocumentedExamples {
  import opened Wrappers
  import opened JsStrings
  import opened Tokens
  import opened BaseSchema
  import opened TransformSchema
  import opened KeywordRoundTrip
  import opened ReaderRoundTrip

  /** A character that starts no keyword token, no reader string and is not white space. */
  predicate PlainChar(c: char) {
    c != '(' && c != '!' && c != '[' && !IsSpace(c)
  }

  /** Plain text: every character is plain. */
  predicate Plain(p: string) {
    forall i :: 0 <= i < |p| ==> PlainChar(p[i])
  }

  lemma PlainConcat(a: string, b: string)
    requires Plain(a) && Plain(b)
    ensures Plain(a + b)
  {
    forall i | 0 <= i < |a + b| ensures PlainChar((a + b)[i]) {
      if i >= |a| {
        assert (a + b)[i] == b[i - |a|];
      }
    }
  }

  /** A plain text holds no keyword token. */
  lemma PlainTextTokenFree(p: string)
    requires Plain(p)
    ensures TokenFree(p)
  {
    forall tok: Token, j | tok.IsKeywordToken() && 0 <= j <= |p| ensures MatchAt(tok, p, j).None? {
      if j < |p| {
        assert PlainChar(p[j]);
      }
    }
  }

  /** A plain text is its own trim. */
  lemma PlainTrimmed(p: string)
    requires Plain(p)
    ensures Trim(p) == p
  {
    if p != [] {
      assert PlainChar(p[0]) && PlainChar(p[|p| - 1]);
    }
    TrimNoOuterSpace(p);
  }

  /** A plain pattern, with no flag segments in front of it, decodes to itself and default flags. */
  lemma PlainKeywordDecoded(p: string)
    requires Plain(p)
    ensures var r := StringToKeywordOptions(p);
      && (r.Success? <==> Utf16Length(p) >= MIN_PATTERN_LENGTH)
      && (r.Success? ==> r.value == KeywordOptions(p, false, DEFAULT_PRECISION, false, false))
  {
    PlainTextTokenFree(p);
    assert !Occurs(Casse, p) && !Occurs(Precision, p) && !Occurs(GlobalExclusion, p) && !Occurs(LocalExclusion, p);
    assert RemoveTokens(p) == p by {
      ReplaceFirstChanges(Casse, p);
      ReplaceFirstChanges(Precision, p);
      ReplaceFirstChanges(GlobalExclusion, p);
      ReplaceFirstChanges(LocalExclusion, p);
    }
    PlainTrimmed(p);
    KeywordDecodedFrom(p, KeywordOptions(p, false, DEFAULT_PRECISION, false, false));
  }

  /** The dispatcher hands a plain pattern to the keyword decoder. */
  lemma PlainPattern(p: string)
    requires Plain(p)
    ensures var r := StringToKeyword(p);
      && (r.Success? <==> Utf16Length(p) >= MIN_PATTERN_LENGTH)
      && (r.Success? ==> r.value == Keyword(KeywordOptions(p, false, DEFAULT_PRECISION, false, false)))
  {
    PlainKeywordDecoded(p);
    if p != [] {
      assert PlainChar(p[0]);
    }
    assert !IsReaderString(p);
  }

  /**
    The decoders never look for reserved operators: a plain pattern holding
    `|` or `&&` decodes to a keyword record that keeps them.
   */
  lemma ReservedOperatorDecoded(a: string, b: string)
    requires Plain(a) && Plain(b) && |a| + |b| >= 2
    ensures StringToKeyword(a + "|" + b) == Success(Keyword(KeywordOptions(a + "|" + b, false, DEFAULT_PRECISION, false, false)))
    ensures StringToKeyword(a + "&&" + b) == Success(Keyword(KeywordOptions(a + "&&" + b, false, DEFAULT_PRECISION, false, false)))
  {
    assert Plain("|") && Plain("&&");
    PlainConcat(a, "|");
    PlainConcat(a + "|", b);
    PlainPattern(a + "|" + b);
    PlainConcat(a, "&&");
    PlainConcat(a + "&&", b);
    PlainPattern(a + "&&" + b);
  }

  /** The flag segments of the keyword example of the tests, as text. */
  lemma ExampleFlagsText()
    ensures Render([LocalFlag, PrecisionFlag(90), CasseFlag]) == "(!!)(?#90)(?i)"
  {
    var fs := [LocalFlag, PrecisionFlag(90), CasseFlag];
    assert NatToString(90) == "90";
    assert PrecisionText(90) == "(?#90)";
    assert fs[1..] == [PrecisionFlag(90), CasseFlag] && fs[1..][1..] == [CasseFlag] && [CasseFlag][1..] == [];
    assert Render([CasseFlag]) == "(?i)";
    assert Render(fs[1..]) == "(?#90)" + "(?i)";
    assert Render(fs) == "(!!)" + ("(?#90)" + "(?i)");
  }

  /**
    The tests' `(!!)(?#90)(?i)keyword`: local exclusion, precision 90 and
    case sensitivity are written in that order before the pattern, and read back.
   */
  lemma KeywordExample(p: string)
    requires Plain(p) && Utf16Length(p) >= MIN_PATTERN_LENGTH
    ensures var k := KeywordOptions(p, true, 90, false, true);
      && EncodeKeyword(k) == "(!!)(?#90)(?i)" + p
      && StringToKeywordOptions(EncodeKeyword(k)) == Success(k)
  {
    var k := KeywordOptions(p, true, 90, false, true);
    assert EncodeKeyword(k) == "(!!)(?#90)(?i)" + p by {
      EncodeAsFlags(k);
      assert Flags(k) == [LocalFlag, PrecisionFlag(90), CasseFlag];
      ExampleFlagsText();
    }
    assert StringToKeywordOptions(EncodeKeyword(k)) == Success(k) by {
      PlainTextTokenFree(p);
      PlainTrimmed(p);
      KeywordRoundTrip.KeywordRoundTrip(k);
    }
  }

  /**
    With global exclusion set, precision and local exclusion are not written,
    so a record holding all of them does not survive encoding and decoding.
   */
  lemma GlobalHidesOtherFlags(p: string)
    requires Plain(p) && Utf16Length(p) >= MIN_PATTERN_LENGTH
    ensures var k := KeywordOptions(p, false, 90, true, true);
      && EncodeKeyword(k) == "!!" + p
      && StringToKeywordOptions(EncodeKeyword(k)) == Success(KeywordOptions(p, false, DEFAULT_PRECISION, true, false))
      && StringToKeywordOptions(EncodeKeyword(k)) != Success(k)
  {
    var k := KeywordOptions(p, false, 90, true, true);
    assert EncodeKeyword(k) == "!!" + p by {
      EncodeAsFlags(k);
      assert Flags(k) == [GlobalFlag];
      assert Render(Flags(k)) == "!!" + "";
    }
    assert StringToKeywordOptions(EncodeKeyword(k)) == Success(Canonical(k)) by {
      PlainTextTokenFree(p);
      PlainTrimmed(p);
      KeywordRoundTrip.KeywordRoundTrip(k);
    }
  }

  /**
    Decoding is idempotent on the encoder's output only: `!!(!!)` before a
    plain pattern decodes to a record with both exclusions, which the encoder
    writes as `!!` alone, so one more round loses the local exclusion.
   */
  lemma DecodedRecordNotStable(p: string)
    requires Plain(p) && Utf16Length(p) >= MIN_PATTERN_LENGTH
    ensures var d := KeywordOptions(p, false, DEFAULT_PRECISION, true, true);
      && StringToKeywordOptions("!!(!!)" + p) == Success(d)
      && StringToKeywordOptions(EncodeKeyword(d)) == Success(KeywordOptions(p, false, DEFAULT_PRECISION, true, false))
      && StringToKeywordOptions(EncodeKeyword(d)) != Success(d)
  {
    var d := KeywordOptions(p, false, DEFAULT_PRECISION, true, true);
    PlainTextTokenFree(p);
    PlainTrimmed(p);
    GlobalLocalSegments();
    DecodeRendered([GlobalFlag, LocalFlag], p);
    KeywordRoundTrip.KeywordRoundTrip(d);
  }

  /** The segments `!!` then `(!!)`: each strip step removes one, and they spell both exclusions and nothing else. */
  lemma GlobalLocalSegments()
    ensures var fs := [GlobalFlag, LocalFlag];
      && Render(fs) == "!!(!!)" && StripsAll(fs) && SpelledPrecision(fs) == DEFAULT_PRECISION
      && !HasFlag(fs, Casse) && HasFlag(fs, GlobalExclusion) && HasFlag(fs, LocalExclusion)
  {
    var fs := [GlobalFlag, LocalFlag];
    assert fs[1..] == [LocalFlag] && [LocalFlag][1..] == [];
    assert Render(fs) == "!!" + ("(!!)" + "");
    assert Without([LocalFlag], Casse) == [LocalFlag] && Without([LocalFlag], Precision) == [LocalFlag];
    assert Without(fs, GlobalExclusion) == [LocalFlag];
    assert !HasFlag([LocalFlag], Casse) && HasFlag([LocalFlag], LocalExclusion);
  }

  /** A precision token of 0 is read as the default precision 100. */
  lemma ZeroPrecisionReadAsDefault(p: string)
    requires Plain(p) && Utf16Length(p) >= MIN_PATTERN_LENGTH
    ensures StringToKeywordOptions("(?#0)" + p) == Success(KeywordOptions(p, false, DEFAULT_PRECISION, false, false))
  {
    var fs := [PrecisionFlag(0)];
    var k := KeywordOptions(p, false, DEFAULT_PRECISION, false, false);
    ZeroPrecisionSegment();
    assert StringToKeywordOptions(Render(fs) + p) == Success(k) by {
      PlainTextTokenFree(p);
      PlainTrimmed(p);
      DecodeRendered(fs, p);
    }
  }

  /** The single segment `(?#0)` spells the default precision and no other flag. */
  lemma ZeroPrecisionSegment()
    ensures var fs := [PrecisionFlag(0)];
      && Render(fs) == "(?#0)" && StripsAll(fs) && SpelledPrecision(fs) == DEFAULT_PRECISION
      && !HasFlag(fs, Casse) && !HasFlag(fs, GlobalExclusion) && !HasFlag(fs, LocalExclusion)
  {
    var fs := [PrecisionFlag(0)];
    assert NatToString(0) == "0";
    assert fs[1..] == [];
    assert Render(fs) == "(?#0)";
    assert Without(fs, Casse) == fs by { assert Without(fs[1..], Casse) == []; }
    assert Without(fs, Precision) == [];
    assert !HasFlag(fs[1..], Casse) && !HasFlag(fs[1..], GlobalExclusion) && !HasFlag(fs[1..], LocalExclusion);
  }

  /** The decimal texts the reader examples use. */
  lemma ExampleNumbers()
    ensures IntToString(12) == "12" && IntToString(600) == "600"
  {
    assert NatToString(1) == "1";
    assert NatToString(12) == NatToString(1) + [DigitChar(2)] == "12";
    assert NatToString(6) == "6";
    assert NatToString(60) == NatToString(6) + [DigitChar(0)] == "60";
    assert NatToString(600) == NatToString(60) + [DigitChar(0)] == "600";
  }

  /**
    The tests' `[FontHeight=12,y=600,exclude={abc}]`, for any exclusion
    text `c` without `}`: it is what the encoder writes for its record, and
    it decodes back to that record.
   */
  lemma ReaderExample(c: string)
    requires c != [] && '}' !in c
    ensures var o := ReaderOptions(YNumber(600), 12, Some(c));
      && EncodeReader(o) == "[FontHeight=12,y=600," + (CHAR_EXCLUSION_KEY + c + "}") + "]"
      && StringToReaderOptions(EncodeReader(o)) == Success(o)
  {
    var o := ReaderOptions(YNumber(600), 12, Some(c));
    var e := CHAR_EXCLUSION_KEY + c + "}";
    assert ReaderParts(o) == ["FontHeight=12", "y=600", e] by {
      ExampleNumbers();
      assert FONT_HEIGHT_KEY + "12" == "FontHeight=12";
      assert "y=" + "600" == "y=600";
    }
    assert Join(ReaderParts(o), ",") == "FontHeight=12,y=600," + e by {
      JoinThree("FontHeight=12", "y=600", e, ",");
      assert "FontHeight=12" + "," + ("y=600" + "," + e) == "FontHeight=12,y=600," + e;
    }
    assert EncodeReader(o) == "[FontHeight=12,y=600," + e + "]" by {
      Regroup("[", "FontHeight=12,y=600,", e);
      assert "[" + "FontHeight=12,y=600," == "[FontHeight=12,y=600,";
    }
    ReaderRoundTrip.ReaderRoundTrip(o);
  }

  /** The default reader record is written `[FontHeight=10,y=max]` and decodes back to itself. */
  lemma ReaderDefaultsExample()
    ensures var o := ReaderOptions(YMax, DEFAULT_FONT_HEIGHT, None);
      && EncodeReader(o) == "[" + "FontHeight=10" + "," + "y=max" + "]"
      && StringToReaderOptions(EncodeReader(o)) == Success(o)
  {
    var o := ReaderOptions(YMax, DEFAULT_FONT_HEIGHT, None);
    assert IntToString(10) == "10";
    assert FONT_HEIGHT_KEY + "10" == "FontHeight=10";
    assert "y=" + MAX_Y == "y=max";
    assert ReaderParts(o) == ["FontHeight=10", "y=max"];
    JoinTwo("FontHeight=10", "y=max", ",");
    ReaderRoundTrip.ReaderRoundTrip(o);
  }

  /** A reader string without any reader token decodes to the defaults. */
  lemma NoReaderTokens(s: string)
    requires 'y' !in s && 'F' !in s && NoExcludeStart(s)
    ensures StringToReaderOptions(s) == Success(ReaderOptions(YMax, DEFAULT_FONT_HEIGHT, None))
  {
    NotFound(Y, s);
    NotFound(CharExclusion, s);
    PrefixHasNo(FontHeight, s, []);
    assert s + [] == s;
    ReaderTokenStart(FontHeight, s, |s|);
    SearchLeftmost(FontHeight, s, 0);
    SearchOccurs(FontHeight, s);
    SearchOccurs(Y, s);
  }

  /**
    Falsy reader fields are not written: a zero font height, a zero `y` and an
    empty exclusion give `[]`, which decodes to the defaults instead.
   */
  lemma FalsyReaderFieldsDropped()
    ensures var o := ReaderOptions(YNumber(0), 0, Some(""));
      && EncodeReader(o) == "[]"
      && StringToReaderOptions(EncodeReader(o)) == Success(ReaderOptions(YMax, DEFAULT_FONT_HEIGHT, None))
  {
    var o := ReaderOptions(YNumber(0), 0, Some(""));
    assert ReaderParts(o) == [];
    NoReaderTokens("[]");
  }

  /**
    A keyword pattern starting with `[` is encoded as is, and the dispatcher
    then sends it to the reader decoder: the keyword record is lost.
   */
  lemma BracketPatternMisrouted()
    ensures var k := KeywordOptions("[abc", false, DEFAULT_PRECISION, false, false);
      && ValidKeyword(k)
      && EncodeKeyword(k) == "[abc"
      && StringToKeyword(EncodeKeyword(k)) == Success(Reader(ReaderOptions(YMax, DEFAULT_FONT_HEIGHT, None)))
  {
    var k := KeywordOptions("[abc", false, DEFAULT_PRECISION, false, false);
    assert KeywordParts(k) == ["[abc"];
    assert Join(KeywordParts(k), "") == "[abc";
    NoReaderTokens("[abc");
  }
}
