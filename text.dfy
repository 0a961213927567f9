/** String helpers the scripts rely on: `String.prototype.trim`,
    `toLowerCase`, `includes`, and the `truncateText` display helper. */
module Text {
  import opened Values

  /** The characters `trim` removes: ECMAScript WhiteSpace (tab, vertical
      tab, form feed, ZWNBSP and every space separator) and LineTerminator. */
  predicate IsJsWhitespace(c: char) {
    c == '\t' || c == '\n' || c == '\U{000B}' || c == '\U{000C}' || c == '\r' ||
    c == ' ' || c == '\U{00A0}' || c == '\U{1680}' ||
    ('\U{2000}' <= c <= '\U{200A}') ||
    c == '\U{2028}' || c == '\U{2029}' || c == '\U{202F}' || c == '\U{205F}' ||
    c == '\U{3000}' || c == '\U{FEFF}'
  }

  predicate AllWhitespace(s: string) {
    forall k :: 0 <= k < |s| ==> IsJsWhitespace(s[k])
  }

  /** The index of the first character at or after `i` that is not
      whitespace, or `|s|`. */
  function SkipWs(s: string, i: nat): (j: nat)
    requires i <= |s|
    ensures i <= j <= |s|
    ensures forall k :: i <= k < j ==> IsJsWhitespace(s[k])
    ensures j < |s| ==> !IsJsWhitespace(s[j])
    decreases |s| - i
  {
    if i < |s| && IsJsWhitespace(s[i]) then SkipWs(s, i + 1) else i
  }

  /** Moving `e` back over whitespace, but not below `lo`: the end of the
      last character before `e` that is not whitespace. */
  function SkipWsBack(s: string, lo: nat, e: nat): (j: nat)
    requires lo <= e <= |s|
    ensures lo <= j <= e
    ensures forall k :: j <= k < e ==> IsJsWhitespace(s[k])
    ensures j > lo ==> !IsJsWhitespace(s[j - 1])
    decreases e
  {
    if e > lo && IsJsWhitespace(s[e - 1]) then SkipWsBack(s, lo, e - 1) else e
  }

  /** `s.trim()`: the infix of `s` that starts at its first character
      that is not whitespace; everything before and after it is
      whitespace, it neither starts nor ends with whitespace, and it is
      empty exactly when `s` is all whitespace. */
  function Trim(s: string): (r: string)
    ensures var i := SkipWs(s, 0); i + |r| <= |s| && r == s[i..i + |r|]
    ensures forall k :: 0 <= k < SkipWs(s, 0) ==> IsJsWhitespace(s[k])
    ensures forall k :: SkipWs(s, 0) + |r| <= k < |s| ==> IsJsWhitespace(s[k])
    ensures r == [] || (!IsJsWhitespace(r[0]) && !IsJsWhitespace(r[|r| - 1]))
    ensures r == [] <==> AllWhitespace(s)
  {
    var i := SkipWs(s, 0);
    var j := SkipWsBack(s, i, |s|);
    s[i..j]
  }

  lemma TrimIdempotent(s: string)
    ensures Trim(Trim(s)) == Trim(s)
  {
    var r := Trim(s);
    if r != [] {
      assert SkipWs(r, 0) == 0;
      assert SkipWsBack(r, 0, |r|) == |r|;
      assert r[0..|r|] == r;
    }
  }

  /** ASCII lower-casing of one character. */
  function LowerChar(c: char): char {
    if 'A' <= c <= 'Z' then (c as int + 32) as char else c
  }

  /** `s.toLowerCase()`, restricted to the ASCII letters: no upper-case
      letter is left, each one becomes its lower-case partner, and every
      other character stays where it was. */
  function Lower(s: string): (r: string)
    ensures |r| == |s|
    ensures forall k :: 0 <= k < |r| ==> !('A' <= r[k] <= 'Z')
    ensures forall k :: 0 <= k < |s| && 'A' <= s[k] <= 'Z' ==> r[k] as int == s[k] as int + 32
    ensures forall k :: 0 <= k < |s| && !('A' <= s[k] <= 'Z') ==> r[k] == s[k]
  {
    seq(|s|, k requires 0 <= k < |s| => LowerChar(s[k]))
  }

  lemma LowerIdempotent(s: string)
    ensures Lower(Lower(s)) == Lower(s)
  {
  }

  /** `s.includes(q)`: `q` occurs in `s` at some position. */
  predicate Includes(s: string, q: string) {
    (|q| <= |s| && s[..|q|] == q) || (s != [] && Includes(s[1..], q))
  }

  /** `truncateText(text, maxLength)` on a string: text up to `maxLength`
      characters is returned unchanged; longer text is cut to its first
      `maxLength` characters followed by "...". */
  function Truncate(text: string, maxLength: nat): (r: string)
    ensures |text| <= maxLength ==> r == text
    ensures |text| > maxLength ==> |r| == maxLength + 3
    ensures |text| > maxLength ==> r[..maxLength] == text[..maxLength] && r[maxLength..] == "..."
  {
    if |text| > maxLength then text[..maxLength] + "..." else text
  }

  /** `truncateText` of the newer scripts, which first maps a non-string
      argument to "". */
  function TruncateValue(text: Field, maxLength: nat): (r: string)
    ensures text.Absent? ==> r == ""
    ensures text.Str? ==> r == Truncate(text.s, maxLength)
    ensures |r| <= maxLength + 3
  {
    match text
    case Absent => ""
    case Str(s) => Truncate(s, maxLength)
  }

  /** The default `maxLength` of the sidebars' `truncateText`. */
  const SIDEBAR_PREVIEW: nat := 150
  /** The default `maxLength` of the overlays' `truncateText`. */
  const SPOTLIGHT_PREVIEW: nat := 100
}
