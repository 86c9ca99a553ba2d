/**
  The seven token patterns of the option strings and the three ways the codec
  uses a regular expression: `re.test(s)` (does it occur anywhere),
  `s.match(re)` (the leftmost match and its capture group) and
  `s.replace(re, "")` (remove the leftmost match only, no `g` flag).

  No regular-expression engine is modelled: each pattern is a matcher anchored
  at one index (`MatchAt`), and `Search` scans indices left to right as the
  engine does.  Where a pattern backtracks (`\d+\)`, `[^}]+\}`), the greedy
  run either reaches the closing character or no shorter run can, so a match
  exists exactly when the maximal run is followed by the closing character
  (`PrecisionMatchSemantics`, `CharExclusionMatchSemantics`).
 */
module Tokens {
  import opened Wrappers
  import opened JsStrings

  /** `CASSE`, `PRECISION`, `GLOBAL_EXCLUSION`, `LOCAL_EXCLUSION`, `Y`, `FONT_HEIGHT`, `CHAR_EXCLUSION`. */
  datatype Token = Casse | Precision | GlobalExclusion | LocalExclusion | Y | FontHeight | CharExclusion {
    /** One of the four tokens of a keyword string. */
    predicate IsKeywordToken() {
      Casse? || Precision? || GlobalExclusion? || LocalExclusion?
    }
  }

  const FONT_HEIGHT_KEY: string := "FontHeight="
  const CHAR_EXCLUSION_KEY: string := "exclude={"

  /** A match: the half-open index range it covers and its first capture group ("" if none). */
  datatype Match = Match(start: nat, end: nat, capture: string)

  /** Length of the longest run of decimal digits starting at `i` (what greedy `\d+` consumes). */
  function DigitRun(s: string, i: nat): (n: nat)
    requires i <= |s|
    ensures i + n <= |s|
    ensures forall k :: i <= k < i + n ==> IsDigit(s[k])
    ensures i + n == |s| || !IsDigit(s[i + n])
    decreases |s| - i
  {
    if i < |s| && IsDigit(s[i]) then 1 + DigitRun(s, i + 1) else 0
  }

  /** Length of the longest run of characters other than `}` starting at `i` (greedy `[^}]+`). */
  function NonBraceRun(s: string, i: nat): (n: nat)
    requires i <= |s|
    ensures i + n <= |s|
    ensures forall k :: i <= k < i + n ==> s[k] != '}'
    ensures i + n == |s| || s[i + n] == '}'
    decreases |s| - i
  {
    if i < |s| && s[i] != '}' then 1 + NonBraceRun(s, i + 1) else 0
  }

  /** `/\(\?i\)/` anchored at `i`. */
  function CasseAt(s: string, i: nat): (r: Option<Match>)
    requires i <= |s|
  {
    if i + 4 <= |s| && s[i] == '(' && s[i + 1] == '?' && s[i + 2] == 'i' && s[i + 3] == ')'
    then Some(Match(i, i + 4, "")) else None
  }

  /** `/\(\?#(\d+)\)/` anchored at `i`; the capture is the digit run. */
  function PrecisionAt(s: string, i: nat): (r: Option<Match>)
    requires i <= |s|
  {
    if i + 3 <= |s| && s[i] == '(' && s[i + 1] == '?' && s[i + 2] == '#' then
      var n := DigitRun(s, i + 3);
      if n > 0 && i + 3 + n < |s| && s[i + 3 + n] == ')'
      then Some(Match(i, i + 4 + n, s[i + 3..i + 3 + n])) else None
    else None
  }

  /** `/(?<!\()!!/` anchored at `i`: the character before must not be `(`. */
  function GlobalExclusionAt(s: string, i: nat): (r: Option<Match>)
    requires i <= |s|
  {
    if i + 2 <= |s| && s[i] == '!' && s[i + 1] == '!' && (i == 0 || s[i - 1] != '(')
    then Some(Match(i, i + 2, "")) else None
  }

  /** `/\(\!\!\)/` anchored at `i`. */
  function LocalExclusionAt(s: string, i: nat): (r: Option<Match>)
    requires i <= |s|
  {
    if i + 4 <= |s| && s[i] == '(' && s[i + 1] == '!' && s[i + 2] == '!' && s[i + 3] == ')'
    then Some(Match(i, i + 4, "")) else None
  }

  /** `/y=(\d+)/` anchored at `i`; the capture is the digit run. */
  function YAt(s: string, i: nat): (r: Option<Match>)
    requires i <= |s|
  {
    if i + 2 <= |s| && s[i] == 'y' && s[i + 1] == '=' then
      var n := DigitRun(s, i + 2);
      if n > 0 then Some(Match(i, i + 2 + n, s[i + 2..i + 2 + n])) else None
    else None
  }

  /** `/FontHeight=(\d+)/` anchored at `i`; the capture is the digit run. */
  function FontHeightAt(s: string, i: nat): (r: Option<Match>)
    requires i <= |s|
  {
    if LiteralAt(s, i, FONT_HEIGHT_KEY) then
      var n := DigitRun(s, i + 11);
      if n > 0 then Some(Match(i, i + 11 + n, s[i + 11..i + 11 + n])) else None
    else None
  }

  /** `/exclude=\{([^}]+)\}/` anchored at `i`; the capture is the text inside the braces. */
  function CharExclusionAt(s: string, i: nat): (r: Option<Match>)
    requires i <= |s|
  {
    if LiteralAt(s, i, CHAR_EXCLUSION_KEY) then
      var n := NonBraceRun(s, i + 9);
      if n > 0 && i + 9 + n < |s| then Some(Match(i, i + 10 + n, s[i + 9..i + 9 + n])) else None
    else None
  }

  /** The match of `tok` anchored at index `i` of `s`, if any. */
  function MatchAt(tok: Token, s: string, i: nat): (r: Option<Match>)
    requires i <= |s|
    ensures r.Some? ==> r.value.start == i && i < r.value.end <= |s|
  {
    match tok
    case Casse => CasseAt(s, i)
    case Precision => PrecisionAt(s, i)
    case GlobalExclusion => GlobalExclusionAt(s, i)
    case LocalExclusion => LocalExclusionAt(s, i)
    case Y => YAt(s, i)
    case FontHeight => FontHeightAt(s, i)
    case CharExclusion => CharExclusionAt(s, i)
  }

  /** `tok` matches somewhere in `s`. */
  ghost predicate Occurs(tok: Token, s: string) {
    exists j :: 0 <= j <= |s| && MatchAt(tok, s, j).Some?
  }

  /** The leftmost match of `tok` at an index `>= from`. */
  function Search(tok: Token, s: string, from: nat): (r: Option<Match>)
    requires from <= |s|
    ensures r.Some? ==> from <= r.value.start < r.value.end <= |s|
    decreases |s| - from
  {
    var m := MatchAt(tok, s, from);
    if m.Some? || from == |s| then m else Search(tok, s, from + 1)
  }

  /**
    `Search` finds the leftmost match: what it returns is a match at its own
    start, with no match between `from` and that start; when it finds nothing,
    there is no match at any index from `from` on.
   */
  lemma SearchLeftmost(tok: Token, s: string, from: nat)
    requires from <= |s|
    ensures var r := Search(tok, s, from);
      && (r.Some? ==> MatchAt(tok, s, r.value.start) == r)
      && (r.Some? ==> forall j :: from <= j < r.value.start ==> MatchAt(tok, s, j).None?)
      && (r.None? ==> forall j :: from <= j <= |s| ==> MatchAt(tok, s, j).None?)
  {
    SearchFound(tok, s, from);
    SearchNoneBefore(tok, s, from);
  }

  lemma {:induction false} SearchFound(tok: Token, s: string, from: nat)
    requires from <= |s|
    ensures Search(tok, s, from).Some? ==> MatchAt(tok, s, Search(tok, s, from).value.start) == Search(tok, s, from)
    decreases |s| - from
  {
    if MatchAt(tok, s, from).None? && from < |s| {
      assert Search(tok, s, from) == Search(tok, s, from + 1);
      SearchFound(tok, s, from + 1);
    }
  }

  /** No index between `from` and what `Search` returns (or the end, when it returns nothing) matches. */
  lemma {:induction false} SearchNoneBefore(tok: Token, s: string, from: nat)
    requires from <= |s|
    ensures var stop := if Search(tok, s, from).Some? then Search(tok, s, from).value.start else |s| + 1;
      forall j :: from <= j < stop ==> MatchAt(tok, s, j).None?
    decreases |s| - from
  {
    var m := MatchAt(tok, s, from);
    if m.Some? {
      assert Search(tok, s, from) == m;
    } else if from == |s| {
      assert Search(tok, s, from) == None;
    } else {
      assert Search(tok, s, from) == Search(tok, s, from + 1);
      SearchNoneBefore(tok, s, from + 1);
    }
  }

  /** `re.test(s)`: true exactly when the token occurs anywhere in `s`. */
  function Test(tok: Token, s: string): (b: bool)
    ensures b <==> Occurs(tok, s)
  {
    SearchOccurs(tok, s);
    Search(tok, s, 0).Some?
  }

  /** A search from the start finds something exactly when the token occurs. */
  lemma SearchOccurs(tok: Token, s: string)
    ensures Search(tok, s, 0).Some? <==> Occurs(tok, s)
  {
    SearchLeftmost(tok, s, 0);
  }

  /** The match a search from the start returns is the match at its own start. */
  lemma SearchMatch(tok: Token, s: string)
    requires Search(tok, s, 0).Some?
    ensures var r := Search(tok, s, 0); MatchAt(tok, s, r.value.start) == r
  {
    SearchLeftmost(tok, s, 0);
  }

  /** `s.replace(re, "")`: the leftmost match, if any, is cut out; nothing else changes. */
  function ReplaceFirst(tok: Token, s: string): string {
    Remove(s, Search(tok, s, 0))
  }

  /** `replace` changes the string exactly when the token occurs, and then makes it shorter. */
  lemma ReplaceFirstChanges(tok: Token, s: string)
    ensures ReplaceFirst(tok, s) == s <==> !Occurs(tok, s)
    ensures Occurs(tok, s) ==> |ReplaceFirst(tok, s)| < |s|
  {
    SearchOccurs(tok, s);
    if Occurs(tok, s) {
      var m := Search(tok, s, 0).value;
      assert |ReplaceFirst(tok, s)| == |s| - (m.end - m.start);
    }
  }

  /** `s` without the characters of match `m`, if there is one. */
  function Remove(s: string, m: Option<Match>): string
    requires m.Some? ==> m.value.start <= m.value.end <= |s|
  {
    match m
    case None => s
    case Some(x) => s[..x.start] + s[x.end..]
  }

  lemma RemoveShifted(a: string, b: string, m: Option<Match>)
    requires m.Some? ==> m.value.start <= m.value.end <= |b|
    ensures Remove(a + b, Shifted(m, |a|)) == a + Remove(b, m)
  {
    if m.Some? {
      var s, x := a + b, m.value;
      assert s[..|a| + x.start] == a + b[..x.start];
      assert s[|a| + x.end..] == b[x.end..];
    }
  }

  // ------------------------------------------------------------ regex semantics

  /** `(?#`, then `n > 0` decimal digits, then `)`, starting at `i`. */
  predicate PrecisionShape(s: string, i: nat, n: nat) {
    && n > 0 && i + 3 + n < |s| && s[i] == '(' && s[i + 1] == '?' && s[i + 2] == '#'
    && (forall k :: i + 3 <= k < i + 3 + n ==> IsDigit(s[k])) && s[i + 3 + n] == ')'
  }

  /**
    `\(\?#(\d+)\)` with backtracking: a match at `i` exists exactly when some
    non-empty digit run after `(?#` is followed by `)`, and the capture is that run.
   */
  lemma PrecisionMatchSemantics(s: string, i: nat, n: nat)
    requires i <= |s|
    ensures PrecisionShape(s, i, n) ==> PrecisionAt(s, i) == Some(Match(i, i + 4 + n, s[i + 3..i + 3 + n]))
    ensures PrecisionAt(s, i).Some? ==> PrecisionShape(s, i, |PrecisionAt(s, i).value.capture|)
  {
  }

  /** `exclude={`, then `n > 0` characters other than `}`, then `}`, starting at `i`. */
  predicate CharExclusionShape(s: string, i: nat, n: nat) {
    && LiteralAt(s, i, CHAR_EXCLUSION_KEY) && n > 0 && i + 9 + n < |s|
    && (forall k :: i + 9 <= k < i + 9 + n ==> s[k] != '}') && s[i + 9 + n] == '}'
  }

  /**
    `exclude=\{([^}]+)\}` with backtracking: a match at `i` exists exactly when
    `exclude={` is followed by a non-empty text without `}` and then `}`; the
    capture is that text.
   */
  lemma CharExclusionMatchSemantics(s: string, i: nat, n: nat)
    requires i <= |s|
    ensures CharExclusionShape(s, i, n) ==> CharExclusionAt(s, i) == Some(Match(i, i + 10 + n, s[i + 9..i + 9 + n]))
    ensures CharExclusionAt(s, i).Some? ==> CharExclusionShape(s, i, |CharExclusionAt(s, i).value.capture|)
  {
  }

  /** The capture of a digit token is a non-empty run of decimal digits. */
  lemma DigitCapture(tok: Token, s: string, i: nat)
    requires tok.Precision? || tok.Y? || tok.FontHeight?
    requires i <= |s| && MatchAt(tok, s, i).Some?
    ensures MatchAt(tok, s, i).value.capture != [] && AllDigits(MatchAt(tok, s, i).value.capture)
  {
  }

  /** The capture of the `exclude` token is non-empty and holds no `}`. */
  lemma CharExclusionCapture(s: string, i: nat)
    requires i <= |s| && MatchAt(CharExclusion, s, i).Some?
    ensures var c := MatchAt(CharExclusion, s, i).value.capture;
      c != [] && forall k :: 0 <= k < |c| ==> c[k] != '}'
  {
  }

  /** What a match of a reader token needs at its start: `y=` and a digit, `F`, `ex`. */
  lemma ReaderTokenStart(tok: Token, s: string, j: nat)
    requires j <= |s|
    ensures MatchAt(tok, s, j).Some? && tok.Y? ==> j + 2 < |s| && s[j] == 'y' && s[j + 1] == '=' && IsDigit(s[j + 2])
    ensures MatchAt(tok, s, j).Some? && tok.FontHeight? ==> j < |s| && s[j] == 'F'
    ensures MatchAt(tok, s, j).Some? && tok.CharExclusion? ==> j + 1 < |s| && s[j] == 'e' && s[j + 1] == 'x'
  {
    if MatchAt(tok, s, j).Some? && tok.FontHeight? {
      assert s[j..j + 11][0] == 'F';
    }
    if MatchAt(tok, s, j).Some? && tok.CharExclusion? {
      assert s[j..j + 9][0] == 'e' && s[j..j + 9][1] == 'x';
    }
  }

  /** The local-exclusion token `(!!)` on its own never counts as global exclusion. */
  lemma LocalTokenIsNotGlobal()
    ensures Test(LocalExclusion, "(!!)")
    ensures !Test(GlobalExclusion, "(!!)")
  {
    var s := "(!!)";
    assert LocalExclusionAt(s, 0).Some?;
    forall j | 0 <= j <= |s| ensures GlobalExclusionAt(s, j).None? {
      assert s[0] == '(' && s[1] == '!' && s[2] == '!' && s[3] == ')';
    }
  }

  // ------------------------------------------------------------ prefixes

  /** A match moved `d` characters to the right. */
  function Shifted(m: Option<Match>, d: nat): Option<Match> {
    match m
    case None => None
    case Some(x) => Some(Match(x.start + d, x.end + d, x.capture))
  }

  /** `n` digits from `k` followed by a non-digit (or the end) make a digit run of exactly `n`. */
  lemma {:induction false} DigitRunExact(s: string, k: nat, n: nat)
    requires k + n <= |s|
    requires forall x :: k <= x < k + n ==> IsDigit(s[x])
    requires k + n == |s| || !IsDigit(s[k + n])
    ensures DigitRun(s, k) == n
    decreases n
  {
    if n > 0 {
      DigitRunExact(s, k + 1, n - 1);
    }
  }

  /** `n` characters other than `}` from `k` followed by `}` (or the end) make a run of exactly `n`. */
  lemma {:induction false} NonBraceRunExact(s: string, k: nat, n: nat)
    requires k + n <= |s|
    requires forall x :: k <= x < k + n ==> s[x] != '}'
    requires k + n == |s| || s[k + n] == '}'
    ensures NonBraceRun(s, k) == n
    decreases n
  {
    if n > 0 {
      NonBraceRunExact(s, k + 1, n - 1);
    }
  }

  lemma DigitRunShift(a: string, b: string, j: nat)
    requires j <= |b|
    ensures DigitRun(a + b, |a| + j) == DigitRun(b, j)
  {
    var n := DigitRun(b, j);
    DigitRunExact(a + b, |a| + j, n);
  }

  /** A match at index `q`, with none before it, is what `Search` returns. */
  lemma SearchFindsLeftmost(tok: Token, s: string, q: nat)
    requires q <= |s| && MatchAt(tok, s, q).Some?
    requires forall j :: 0 <= j < q ==> MatchAt(tok, s, j).None?
    ensures Search(tok, s, 0) == MatchAt(tok, s, q)
  {
    SearchLeftmost(tok, s, 0);
  }

  lemma GlobalExclusionShift(a: string, b: string, j: nat)
    requires j <= |b|
    requires a == [] || a[|a| - 1] != '('
    ensures GlobalExclusionAt(a + b, |a| + j) == Shifted(GlobalExclusionAt(b, j), |a|)
  {
    var s := a + b;
    if j == 0 && |a| > 0 {
      assert s[|a| - 1] == a[|a| - 1];
    } else if j > 0 {
      assert s[|a| + j - 1] == b[j - 1];
    }
  }

  lemma SliceShift(a: string, b: string, i: nat, j: nat)
    requires i <= j <= |b|
    ensures (a + b)[|a| + i..|a| + j] == b[i..j]
  {
  }

  lemma PrecisionShift(a: string, b: string, j: nat)
    requires j <= |b|
    ensures PrecisionAt(a + b, |a| + j) == Shifted(PrecisionAt(b, j), |a|)
  {
    if j + 3 <= |b| {
      DigitRunShift(a, b, j + 3);
      var n := DigitRun(b, j + 3);
      SliceShift(a, b, j + 3, j + 3 + n);
    }
  }

  /**
    Putting text `a` in front of `b` moves every match inside `b` by `|a|`;
    for `GLOBAL_EXCLUSION`, whose look-behind sees the character before the
    match, `a` must not end with `(`.
   */
  predicate PrefixSafe(tok: Token, a: string) {
    tok.GlobalExclusion? ==> a == [] || a[|a| - 1] != '('
  }

  lemma YShift(a: string, b: string, j: nat)
    requires j <= |b|
    ensures YAt(a + b, |a| + j) == Shifted(YAt(b, j), |a|)
  {
    if j + 2 <= |b| {
      DigitRunShift(a, b, j + 2);
      var n := DigitRun(b, j + 2);
      SliceShift(a, b, j + 2, j + 2 + n);
    }
  }

  lemma FontHeightShift(a: string, b: string, j: nat)
    requires j <= |b|
    ensures FontHeightAt(a + b, |a| + j) == Shifted(FontHeightAt(b, j), |a|)
  {
    if j + 11 <= |b| {
      SliceShift(a, b, j, j + 11);
      DigitRunShift(a, b, j + 11);
      var n := DigitRun(b, j + 11);
      SliceShift(a, b, j + 11, j + 11 + n);
    }
  }

  lemma NonBraceRunShift(a: string, b: string, j: nat)
    requires j <= |b|
    ensures NonBraceRun(a + b, |a| + j) == NonBraceRun(b, j)
  {
    var n := NonBraceRun(b, j);
    NonBraceRunExact(a + b, |a| + j, n);
  }

  lemma CharExclusionShift(a: string, b: string, j: nat)
    requires j <= |b|
    ensures CharExclusionAt(a + b, |a| + j) == Shifted(CharExclusionAt(b, j), |a|)
  {
    if j + 9 <= |b| {
      SliceShift(a, b, j, j + 9);
      NonBraceRunShift(a, b, j + 9);
      var n := NonBraceRun(b, j + 9);
      SliceShift(a, b, j + 9, j + 9 + n);
    }
  }

  lemma MatchAtShift(tok: Token, a: string, b: string, j: nat)
    requires j <= |b|
    requires PrefixSafe(tok, a)
    ensures MatchAt(tok, a + b, |a| + j) == Shifted(MatchAt(tok, b, j), |a|)
  {
    match tok
    case GlobalExclusion => GlobalExclusionShift(a, b, j);
    case Precision => PrecisionShift(a, b, j);
    case Y => YShift(a, b, j);
    case FontHeight => FontHeightShift(a, b, j);
    case CharExclusion => CharExclusionShift(a, b, j);
    case _ =>
  }

  /** Searching from `|a| + j` in `a + b` is searching from `j` in `b`, moved by `|a|`. */
  lemma {:induction false} SearchShift(tok: Token, a: string, b: string, j: nat)
    requires PrefixSafe(tok, a)
    requires j <= |b|
    ensures Search(tok, a + b, |a| + j) == Shifted(Search(tok, b, j), |a|)
    decreases |b| - j
  {
    var stop := SearchStopsAt(tok, a, b, j);
    if !stop {
      SearchShift(tok, a, b, j + 1);
    }
  }

  /**
    One step of `SearchShift`: either both searches stop at this index with
    shifted results, or both move on to the next index.
   */
  lemma SearchStopsAt(tok: Token, a: string, b: string, j: nat) returns (stop: bool)
    requires PrefixSafe(tok, a)
    requires j <= |b|
    ensures stop ==> Search(tok, a + b, |a| + j) == Shifted(Search(tok, b, j), |a|)
    ensures !stop ==> j < |b| && Search(tok, b, j) == Search(tok, b, j + 1)
    ensures !stop ==> Search(tok, a + b, |a| + j) == Search(tok, a + b, |a| + j + 1)
  {
    var m := MatchAt(tok, b, j);
    MatchAtShift(tok, a, b, j);
    stop := m.Some? || j == |b|;
  }

  /** A match at index 0 is what `Search` returns. */
  lemma SearchAtStart(tok: Token, s: string)
    requires MatchAt(tok, s, 0).Some?
    ensures Search(tok, s, 0) == MatchAt(tok, s, 0)
  {
  }

  /** Positions with no match can be skipped. */
  lemma {:induction false} SearchSkip(tok: Token, s: string, k: nat)
    requires k <= |s|
    requires forall j :: 0 <= j < k ==> MatchAt(tok, s, j).None?
    ensures Search(tok, s, 0) == Search(tok, s, k)
    decreases k
  {
    if k > 0 {
      SearchSkip(tok, s, k - 1);
    }
  }

  /**
    If a token matches at no index inside the prefix `a`, searching `a + b`
    finds the match of `b`, moved by `|a|`.
   */
  lemma SearchPastPrefix(tok: Token, a: string, b: string)
    requires PrefixSafe(tok, a)
    requires forall j :: 0 <= j < |a| ==> MatchAt(tok, a + b, j).None?
    ensures Search(tok, a + b, 0) == Shifted(Search(tok, b, 0), |a|)
  {
    SearchSkip(tok, a + b, |a|);
    SearchShift(tok, a, b, 0);
  }

  /** Removing the first match from `a + b` leaves `a` alone when the token matches nowhere inside `a`. */
  lemma ReplacePastPrefix(tok: Token, a: string, b: string)
    requires PrefixSafe(tok, a)
    requires forall j :: 0 <= j < |a| ==> MatchAt(tok, a + b, j).None?
    ensures ReplaceFirst(tok, a + b) == a + ReplaceFirst(tok, b)
  {
    SearchPastPrefix(tok, a, b);
    RemoveShifted(a, b, Search(tok, b, 0));
  }
}
