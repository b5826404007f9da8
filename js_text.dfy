/** JavaScript string and value semantics that the controllers rely on:
    `String.prototype.trim` and the dynamic values a parsed JSON body can hold. */
module JsText {

  /** A field read out of a parsed JSON request body (`unknown` in the source).
      `Undefined` is a field that is absent. Numbers are finite reals: JSON has
      no NaN, and an overflowing literal such as `1e400`, which parses to
      Infinity, is rejected by `isValidStars` just as any real above 5 is. */
  datatype JsValue =
    | Undefined
    | JsString(s: string)
    | JsNumber(n: real)
    | JsOther

  /** The characters ECMAScript counts as WhiteSpace or LineTerminator, which
      `trim` strips from both ends of a string. */
  predicate IsJsWhitespace(c: char) {
    c == '\t' || c == '\n' || c == '\U{000B}' || c == '\U{000C}' || c == '\r' ||
    c == ' ' || c == '\U{00A0}' || c == '\U{1680}' ||
    ('\U{2000}' <= c <= '\U{200A}') ||
    c == '\U{2028}' || c == '\U{2029}' || c == '\U{202F}' || c == '\U{205F}' ||
    c == '\U{3000}' || c == '\U{FEFF}'
  }

  predicate AllWhitespace(s: string) {
    forall i :: 0 <= i < |s| ==> IsJsWhitespace(s[i])
  }

  /** The position of the first non-whitespace character of `s` at or
      after `i`, or `|s|` when there is none. */
  function SkipWhitespace(s: string, i: nat): (j: nat)
    requires i <= |s|
    ensures i <= j <= |s|
    ensures forall k :: i <= k < j ==> IsJsWhitespace(s[k])
    ensures j < |s| ==> !IsJsWhitespace(s[j])
    decreases |s| - i
  {
    if i == |s| || !IsJsWhitespace(s[i]) then i else SkipWhitespace(s, i + 1)
  }

  /** The end of `s[lo..hi]` once its trailing whitespace is dropped. */
  function SkipWhitespaceBack(s: string, lo: nat, hi: nat): (j: nat)
    requires lo <= hi <= |s|
    ensures lo <= j <= hi
    ensures forall k :: j <= k < hi ==> IsJsWhitespace(s[k])
    ensures lo < j ==> !IsJsWhitespace(s[j - 1])
  {
    if hi == lo || !IsJsWhitespace(s[hi - 1]) then hi else SkipWhitespaceBack(s, lo, hi - 1)
  }

  /** `String.prototype.trim`: the slice of `s` left once leading and
      trailing whitespace is dropped. It neither starts nor ends with
      whitespace, only whitespace was dropped, and it is empty exactly when
      `s` is all whitespace. */
  function Trim(s: string): (r: string)
    ensures var lo := SkipWhitespace(s, 0);
      lo + |r| <= |s| && r == s[lo..lo + |r|] &&
      (forall k :: 0 <= k < lo ==> IsJsWhitespace(s[k])) &&
      (forall k :: lo + |r| <= k < |s| ==> IsJsWhitespace(s[k]))
    ensures r != [] ==> !IsJsWhitespace(r[0]) && !IsJsWhitespace(r[|r| - 1])
    ensures r == [] <==> AllWhitespace(s)
  {
    var lo := SkipWhitespace(s, 0);
    var hi := SkipWhitespaceBack(s, lo, |s|);
    s[lo..hi]
  }

  /** Trimming a trimmed string changes nothing. */
  lemma TrimIdempotent(s: string)
    ensures Trim(Trim(s)) == Trim(s)
  {
    var r := Trim(s);
    if r != [] {
      assert SkipWhitespace(r, 0) == 0;
      assert SkipWhitespaceBack(r, 0, |r|) == |r|;
    }
  }

  /** `isNonEmptyString` (server/src/controllers/hotels.controller.ts): a string
      that still has a character after trimming. */
  predicate IsNonEmptyString(v: JsValue) {
    v.JsString? && |Trim(v.s)| > 0
  }

  /** A value passes `isNonEmptyString` exactly when it is a string holding at
      least one non-whitespace character. */
  lemma IsNonEmptyStringIff(v: JsValue)
    ensures IsNonEmptyString(v) <==>
      v.JsString? && exists i :: 0 <= i < |v.s| && !IsJsWhitespace(v.s[i])
  {
  }

  /** A string whose first character is not whitespace passes `isNonEmptyString`. */
  lemma NonBlankByFirst(s: string)
    requires s != [] && !IsJsWhitespace(s[0])
    ensures IsNonEmptyString(JsString(s))
  {
    assert !AllWhitespace(s);
  }

  /** Trimming a string that passes `isNonEmptyString` gives one that passes too. */
  lemma TrimmedStaysNonEmpty(v: JsValue)
    ensures IsNonEmptyString(v) ==> IsNonEmptyString(JsString(Trim(v.s)))
  {
    if v.JsString? {
      TrimIdempotent(v.s);
    }
  }

  /** `isValidStars`: a number that is an integer between 1 and 5. */
  predicate IsValidStars(v: JsValue) {
    v.JsNumber? && v.n.Floor as real == v.n && 1.0 <= v.n <= 5.0
  }

  /** The values that pass `isValidStars` are exactly the numbers 1, 2, 3, 4, 5. */
  lemma IsValidStarsIff(v: JsValue)
    ensures IsValidStars(v) <==>
      v.JsNumber? && (v.n == 1.0 || v.n == 2.0 || v.n == 3.0 || v.n == 4.0 || v.n == 5.0)
  {
  }
}
