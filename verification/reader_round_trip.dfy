/**
  Decoding an encoded reader string.

  An encoded reader string is `[FontHeight=N,y=V]` or
  `[FontHeight=N,y=V,exclude={S}]` once its falsy fields are dropped.  Each
  token search is followed past the parts in front of the one that spells it.
 */
module ReaderRoundTrip {
  import opened Wrappers
  import opened JsStrings
  import opened Tokens
  import opened BaseSchema
  import opened TransformSchema

  /** No index of `a` starts `ex`: every `e` is followed, still inside `a`, by something other than `x`. */
  predicate NoExcludeStart(a: string) {
    forall i :: 0 <= i < |a| && a[i] == 'e' ==> i + 1 < |a| && a[i + 1] != 'x'
  }

  /**
    The records the encoder writes in full: a positive font height, a `y` of
    `"max"` or a positive number, and an exclusion text that is non-empty and
    free of `}` (and of `y` when `y` is `"max"`, so that no `y=<digits>` can be
    read from it).
   */
  predicate RoundTrips(o: ReaderOptions) {
    && o.fontHeight > 0
    && (o.y.YNumber? ==> o.y.n > 0)
    && (o.charExclusion.Some? ==>
          && o.charExclusion.value != []
          && '}' !in o.charExclusion.value
          && (o.y.YMax? ==> 'y' !in o.charExclusion.value))
  }

  /** A reader token cannot start inside a prefix that lacks its first characters. */
  lemma PrefixHasNo(tok: Token, a: string, b: string)
    requires (tok == Y && 'y' !in a) || (tok == FontHeight && 'F' !in a) || (tok == CharExclusion && NoExcludeStart(a))
    ensures forall j :: 0 <= j < |a| ==> MatchAt(tok, a + b, j).None?
  {
    forall j | 0 <= j < |a| ensures MatchAt(tok, a + b, j).None? {
      ReaderTokenStart(tok, a + b, j);
      assert (a + b)[j] == a[j];
      assert j + 1 < |a| ==> (a + b)[j + 1] == a[j + 1];
    }
  }

  /** A token that matches nowhere in `u` is not found there. */
  lemma NotFound(tok: Token, u: string)
    requires (tok == Y && 'y' !in u) || (tok == CharExclusion && NoExcludeStart(u))
    ensures Search(tok, u, 0).None?
  {
    PrefixHasNo(tok, u, []);
    assert u + [] == u;
    ReaderTokenStart(tok, u, |u|);
    SearchLeftmost(tok, u, 0);
  }

  lemma NoExcludeStartConcat(a: string, b: string)
    requires NoExcludeStart(a) && NoExcludeStart(b)
    ensures NoExcludeStart(a + b)
  {
  }

  lemma Regroup(a: string, b: string, c: string)
    ensures a + b + c == a + (b + c)
  {
  }

  // ------------------------------------------------------------ the parts

  /** `FontHeight=<digits>` followed by a non-digit matches at its start, capturing the digits. */
  lemma FontHeightPartMatch(d: string, r: string)
    requires d != [] && AllDigits(d) && r != [] && !IsDigit(r[0])
    ensures Search(FontHeight, FONT_HEIGHT_KEY + d + r, 0) == Some(Match(0, 11 + |d|, d))
  {
    FontHeightPartShape(d, r);
    SearchAtStart(FontHeight, FONT_HEIGHT_KEY + d + r);
  }

  /** `FontHeight=<digits>` followed by a non-digit: the run after the key is exactly the digits. */
  lemma FontHeightPartShape(d: string, r: string)
    requires d != [] && AllDigits(d) && r != [] && !IsDigit(r[0])
    ensures FontHeightAt(FONT_HEIGHT_KEY + d + r, 0) == Some(Match(0, 11 + |d|, d))
  {
    var s := FONT_HEIGHT_KEY + d + r;
    assert s[0..11] == FONT_HEIGHT_KEY;
    assert s[11 + |d|] == r[0];
    assert forall x :: 11 <= x < 11 + |d| ==> s[x] == d[x - 11];
    DigitRunExact(s, 11, |d|);
    assert s[11..11 + |d|] == d;
  }

  /** `y=<digits>` followed by a non-digit matches at its start, capturing the digits. */
  lemma YPartMatch(d: string, r: string)
    requires d != [] && AllDigits(d) && r != [] && !IsDigit(r[0])
    ensures Search(Y, "y=" + d + r, 0) == Some(Match(0, 2 + |d|, d))
  {
    YPartShape(d, r);
    SearchAtStart(Y, "y=" + d + r);
  }

  /** `y=<digits>` followed by a non-digit: the run after `y=` is exactly the digits. */
  lemma YPartShape(d: string, r: string)
    requires d != [] && AllDigits(d) && r != [] && !IsDigit(r[0])
    ensures YAt("y=" + d + r, 0) == Some(Match(0, 2 + |d|, d))
  {
    var s := "y=" + d + r;
    assert forall x :: 2 <= x < 2 + |d| ==> s[x] == d[x - 2];
    DigitRunExact(s, 2, |d|);
    assert s[2..2 + |d|] == d;
  }

  /** `exclude={S}` with `S` non-empty and free of `}` matches at its start, capturing `S`. */
  lemma ExcludePartMatch(c: string, r: string)
    requires c != [] && '}' !in c
    ensures Search(CharExclusion, CHAR_EXCLUSION_KEY + c + "}" + r, 0) == Some(Match(0, 10 + |c|, c))
  {
    var s := CHAR_EXCLUSION_KEY + c + "}" + r;
    assert s[0..9] == CHAR_EXCLUSION_KEY;
    assert s[9 + |c|] == '}';
    NonBraceRunExact(s, 9, |c|);
    assert s[9..9 + |c|] == c;
  }

  // ------------------------------------------------------------ the whole string

  /** What follows the `y` part: the exclusion part when there is one, then `]`. */
  function Tail(o: ReaderOptions): string {
    (if o.charExclusion.Some? && o.charExclusion.value != "" then "," + (CHAR_EXCLUSION_KEY + o.charExclusion.value + "}") else "")
    + "]"
  }

  /** The pieces `ReaderParts` yields for a record that round-trips. */
  lemma PartsLayout(o: ReaderOptions)
    requires RoundTrips(o)
    ensures var f := FONT_HEIGHT_KEY + NatToString(o.fontHeight);
      var y := "y=" + YText(o.y);
      ReaderParts(o) == if o.charExclusion.Some? then [f, y, CHAR_EXCLUSION_KEY + o.charExclusion.value + "}"] else [f, y]
  {
  }

  lemma Layout(o: ReaderOptions)
    requires RoundTrips(o)
    ensures EncodeReader(o) == "[" + (FONT_HEIGHT_KEY + NatToString(o.fontHeight)) + "," + ("y=" + YText(o.y)) + Tail(o)
  {
    var f := FONT_HEIGHT_KEY + NatToString(o.fontHeight);
    var y := "y=" + YText(o.y);
    PartsLayout(o);
    if o.charExclusion.Some? {
      JoinThree(f, y, CHAR_EXCLUSION_KEY + o.charExclusion.value + "}", ",");
    } else {
      JoinTwo(f, y, ",");
    }
  }

  lemma FontHeightIn(s: string, d: string, rest: string)
    requires d != [] && AllDigits(d) && rest != [] && rest[0] == ','
    requires s == "[" + (FONT_HEIGHT_KEY + d) + rest
    ensures Search(FontHeight, s, 0) == Some(Match(1, 12 + |d|, d))
  {
    var b := FONT_HEIGHT_KEY + d + rest;
    assert s == "[" + b by {
      Regroup("[", FONT_HEIGHT_KEY + d, rest);
    }
    assert Search(FontHeight, "[" + b, 0) == Shifted(Search(FontHeight, b, 0), 1) by {
      PrefixHasNo(FontHeight, "[", b);
      SearchPastPrefix(FontHeight, "[", b);
    }
    FontHeightPartMatch(d, rest);
  }

  lemma YNumberIn(s: string, p: string, d: string, t: string)
    requires 'y' !in p && d != [] && AllDigits(d) && t != [] && !IsDigit(t[0])
    requires s == p + ("y=" + d) + t
    ensures Search(Y, s, 0) == Some(Match(|p|, |p| + 2 + |d|, d))
  {
    var b := "y=" + d + t;
    assert s == p + b by {
      Regroup(p, "y=" + d, t);
    }
    assert Search(Y, p + b, 0) == Shifted(Search(Y, b, 0), |p|) by {
      PrefixHasNo(Y, p, b);
      SearchPastPrefix(Y, p, b);
    }
    YPartMatch(d, t);
  }

  lemma YMaxIn(s: string, p: string, t: string)
    requires 'y' !in p && 'y' !in t
    requires s == p + ("y=" + "max") + t
    ensures Search(Y, s, 0).None?
  {
    var u := "=max" + t;
    var b := "y" + u;
    assert s == p + b by {
      Regroup(p, "y=max", t);
      assert "y=max" + t == "y" + u;
    }
    assert Search(Y, p + b, 0) == Shifted(Search(Y, b, 0), |p|) by {
      PrefixHasNo(Y, p, b);
      SearchPastPrefix(Y, p, b);
    }
    YMissesAfterY(u);
  }

  /** A lone `y` followed by text without `y` and not starting with `=<digit>` holds no `y=<digits>`. */
  lemma YMissesAfterY(u: string)
    requires 'y' !in u && |u| >= 2 && u[0] == '=' && !IsDigit(u[1])
    ensures Search(Y, "y" + u, 0).None?
  {
    SearchSkip(Y, "y" + u, 1);
    SearchShift(Y, "y", u, 0);
    NotFound(Y, u);
  }

  lemma ExclusionIn(s: string, p: string, c: string)
    requires NoExcludeStart(p) && c != [] && '}' !in c
    requires s == p + (CHAR_EXCLUSION_KEY + c + "}" + "]")
    ensures Search(CharExclusion, s, 0) == Some(Match(|p|, |p| + 10 + |c|, c))
  {
    PrefixHasNo(CharExclusion, p, CHAR_EXCLUSION_KEY + c + "}" + "]");
    SearchPastPrefix(CharExclusion, p, CHAR_EXCLUSION_KEY + c + "}" + "]");
    ExcludePartMatch(c, "]");
  }

  /** The text in front of the exclusion part has no `ex`. */
  lemma HeadHasNoExclude(d: string, yText: string)
    requires AllDigits(d) && 'e' !in yText
    ensures NoExcludeStart("[" + (FONT_HEIGHT_KEY + d) + "," + ("y=" + yText))
  {
    assert NoExcludeStart("[FontHeight=") by {
      assert forall i :: 0 <= i < 12 && "[FontHeight="[i] == 'e' ==> i == 6;
    }
    assert "[" + (FONT_HEIGHT_KEY + d) + "," + ("y=" + yText) == "[FontHeight=" + (d + "," + ("y=" + yText));
    assert 'e' !in d + "," + ("y=" + yText);
    NoExcludeStartConcat("[FontHeight=", d + "," + ("y=" + yText));
  }

  /** The reader decoder reads a record off the first matches of its three tokens. */
  lemma DecodeFromMatches(s: string, o: ReaderOptions)
    requires o.fontHeight >= 0 && (o.y.YNumber? ==> o.y.n >= 0)
    requires Search(FontHeight, s, 0).Some? && Search(FontHeight, s, 0).value.capture == NatToString(o.fontHeight)
    requires o.y.YNumber? ==> Search(Y, s, 0).Some? && Search(Y, s, 0).value.capture == NatToString(o.y.n)
    requires o.y.YMax? ==> Search(Y, s, 0).None?
    requires o.charExclusion.Some? ==> Search(CharExclusion, s, 0).Some? && Search(CharExclusion, s, 0).value.capture == o.charExclusion.value
    requires o.charExclusion.None? ==> Search(CharExclusion, s, 0).None?
    ensures StringToReaderOptions(s) == Success(o)
  {
    NatToStringValue(o.fontHeight);
    if o.y.YNumber? {
      NatToStringValue(o.y.n);
    }
  }

  lemma FontHeightFound(o: ReaderOptions)
    requires RoundTrips(o)
    ensures var m := Search(FontHeight, EncodeReader(o), 0);
      m.Some? && m.value.capture == NatToString(o.fontHeight)
  {
    var d := NatToString(o.fontHeight);
    var rest := "," + ("y=" + YText(o.y)) + Tail(o);
    assert EncodeReader(o) == "[" + (FONT_HEIGHT_KEY + d) + rest by {
      Layout(o);
      Regroup("[" + (FONT_HEIGHT_KEY + d) + ",", "y=" + YText(o.y), Tail(o));
      Regroup("[" + (FONT_HEIGHT_KEY + d), ",", ("y=" + YText(o.y)) + Tail(o));
      Regroup("[" + (FONT_HEIGHT_KEY + d), "," + ("y=" + YText(o.y)), Tail(o));
    }
    FontHeightIn(EncodeReader(o), d, rest);
  }

  /** The text before the `y=` entry holds no `y`. */
  lemma HeadHasNoY(d: string)
    requires AllDigits(d)
    ensures 'y' !in "[" + (FONT_HEIGHT_KEY + d) + ","
  {
    assert forall i :: 0 <= i < |d| ==> IsDigit(d[i]);
  }

  /** Under the `y=max` default, nothing after the `y=` entry holds a `y`. */
  lemma TailHasNoY(o: ReaderOptions)
    requires RoundTrips(o) && o.y.YMax?
    ensures 'y' !in Tail(o)
  {
    if o.charExclusion.Some? {
      var c := o.charExclusion.value;
      assert Tail(o) == "," + (CHAR_EXCLUSION_KEY + c + "}") + "]";
    }
  }

  lemma YFound(o: ReaderOptions)
    requires RoundTrips(o)
    ensures var m := Search(Y, EncodeReader(o), 0);
      && (o.y.YNumber? ==> m.Some? && m.value.capture == NatToString(o.y.n))
      && (o.y.YMax? ==> m.None?)
  {
    var p := "[" + (FONT_HEIGHT_KEY + NatToString(o.fontHeight)) + ",";
    Layout(o);
    HeadHasNoY(NatToString(o.fontHeight));
    if o.y.YNumber? {
      YNumberIn(EncodeReader(o), p, NatToString(o.y.n), Tail(o));
    } else {
      TailHasNoY(o);
      YMaxIn(EncodeReader(o), p, Tail(o));
    }
  }

  lemma ExclusionFound(o: ReaderOptions)
    requires RoundTrips(o)
    ensures var m := Search(CharExclusion, EncodeReader(o), 0);
      && (o.charExclusion.Some? ==> m.Some? && m.value.capture == o.charExclusion.value)
      && (o.charExclusion.None? ==> m.None?)
  {
    var head := "[" + (FONT_HEIGHT_KEY + NatToString(o.fontHeight)) + "," + ("y=" + YText(o.y));
    Layout(o);
    HeadHasNoExclude(NatToString(o.fontHeight), YText(o.y));
    if o.charExclusion.Some? {
      ExclusionIn(EncodeReader(o), head + ",", o.charExclusion.value);
    } else {
      NoExcludeStartConcat(head, "]");
      NotFound(CharExclusion, EncodeReader(o));
    }
  }

  /**
    Decoding what the encoder writes for a reader record gives the record
    back, for every record whose fields are all written.
   */
  lemma ReaderRoundTrip(o: ReaderOptions)
    requires RoundTrips(o)
    ensures StringToReaderOptions(EncodeReader(o)) == Success(o)
  {
    FontHeightFound(o);
    YFound(o);
    ExclusionFound(o);
    DecodeFromMatches(EncodeReader(o), o);
  }
}
