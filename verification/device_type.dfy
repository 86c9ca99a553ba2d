/**
  User-agent classification: a user agent is `"mobile"` when its lower-cased
  text contains one of a fixed list of mobile indicators, `"web"` otherwise.
 */
module DeviceType {
  import opened JsStrings

  /** The fifteen indicators, in the order they are tried. */
  const MOBILE_INDICATORS: seq<string> := [
    "mobile", "android", "iphone", "ipad", "ipod", "blackberry", "windows phone",
    "opera mini", "iemobile", "webos", "palm", "symbian", "kindle", "silk", "fennec"]

  const MOBILE: string := "mobile"
  const WEB: string := "web"

  /** `indicators.some(indicator => ua.includes(indicator))`. */
  function AnyIncluded(ua: string, indicators: seq<string>): (b: bool)
    ensures b <==> exists i :: 0 <= i < |indicators| && Includes(ua, indicators[i])
    decreases |indicators|
  {
    |indicators| > 0 && (Includes(ua, indicators[0]) || AnyIncluded(ua, indicators[1..]))
  }

  /** Some indicator occurs in the lower-cased user agent. */
  ghost predicate MobileIndicated(userAgent: string) {
    exists i :: 0 <= i < |MOBILE_INDICATORS| && Includes(ToLower(userAgent), MOBILE_INDICATORS[i])
  }

  /** `getDeviceType(userAgent)`. */
  function GetDeviceType(userAgent: string): (r: string)
    ensures r == MOBILE || r == WEB
    ensures r == MOBILE <==> MobileIndicated(userAgent)
  {
    var ua := ToLower(userAgent);
    if AnyIncluded(ua, MOBILE_INDICATORS) then MOBILE else WEB
  }

  /** No indicator is empty. */
  lemma IndicatorsNonEmpty()
    ensures forall i :: 0 <= i < |MOBILE_INDICATORS| ==> |MOBILE_INDICATORS[i]| > 0
  {
  }

  /** The empty user agent is classified as web. */
  lemma EmptyIsWeb()
    ensures GetDeviceType("") == WEB
  {
    IndicatorsNonEmpty();
    forall i | 0 <= i < |MOBILE_INDICATORS| ensures !Includes(ToLower(""), MOBILE_INDICATORS[i]) {
      assert |ToLower("")| == 0;
    }
  }

  /** Two user agents that agree once lower-cased get the same class. */
  lemma SameLowerSameType(a: string, b: string)
    requires ToLower(a) == ToLower(b)
    ensures GetDeviceType(a) == GetDeviceType(b)
  {
  }

  /** Lower-casing an upper-cased text is lower-casing the text itself. */
  lemma LowerOfUpper(s: string)
    ensures ToLower(ToUpper(s)) == ToLower(s)
  {
    forall i | 0 <= i < |s| ensures ToLower(ToUpper(s))[i] == ToLower(s)[i] {
      var c := s[i];
      assert ToUpper(s)[i] == UpperChar(c);
    }
  }

  /** Classification ignores case: a user agent and its upper-cased form get the same class. */
  lemma CaseInsensitive(userAgent: string)
    ensures GetDeviceType(ToUpper(userAgent)) == GetDeviceType(userAgent)
  {
    LowerOfUpper(userAgent);
    SameLowerSameType(ToUpper(userAgent), userAgent);
  }

  /** Lower-casing works character by character, so it distributes over concatenation. */
  lemma LowerConcat(a: string, b: string)
    ensures ToLower(a + b) == ToLower(a) + ToLower(b)
  {
  }

  /** Text found in `t` is found in `a + t + b`, `|a|` characters further on. */
  lemma IncludedInside(a: string, t: string, b: string, w: string, i: nat)
    requires LiteralAt(t, i, w)
    ensures LiteralAt(a + t + b, |a| + i, w)
  {
    var s := a + t + b;
    assert s[|a| + i..|a| + i + |w|] == t[i..i + |w|];
  }

  /**
    Classification is monotone: a user agent that contains a mobile user
    agent as a substring is mobile too.
   */
  lemma Monotone(a: string, t: string, b: string)
    requires GetDeviceType(t) == MOBILE
    ensures GetDeviceType(a + t + b) == MOBILE
  {
    var k :| 0 <= k < |MOBILE_INDICATORS| && Includes(ToLower(t), MOBILE_INDICATORS[k]);
    var w := MOBILE_INDICATORS[k];
    var i :| 0 <= i <= |ToLower(t)| && LiteralAt(ToLower(t), i, w);
    LowerConcat(a + t, b);
    LowerConcat(a, t);
    IncludedInside(ToLower(a), ToLower(t), ToLower(b), w, i);
    assert Includes(ToLower(a + t + b), w);
  }

  /** An iPhone user agent is mobile, whatever the case of `iPhone`; so is `Windows Phone`. */
  lemma MobileExamples()
    ensures GetDeviceType("Mozilla/5.0 (iPhone)") == MOBILE
    ensures GetDeviceType("Windows Phone 8") == MOBILE
  {
    assert LiteralAt(ToLower("Mozilla/5.0 (iPhone)"), 13, "iphone");
    assert LiteralAt(ToLower("Windows Phone 8"), 0, "windows phone");
  }
}
