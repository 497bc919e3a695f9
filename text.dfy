/** JavaScript's String.prototype.trim, as used by the "is this title blank?" guards. */
module Text {

  /** The characters trim removes: ECMAScript WhiteSpace (tab, VT, FF, space, NBSP,
      BOM and the Unicode Zs category) and LineTerminator (LF, CR, LS, PS). */
  predicate IsWhitespace(c: char) {
    || c == '\t' || c == '\n' || c == '\U{000B}' || c == '\U{000C}' || c == '\r'
    || c == ' ' || c == '\U{00A0}' || c == '\U{1680}'
    || ('\U{2000}' <= c <= '\U{200A}')
    || c == '\U{2028}' || c == '\U{2029}' || c == '\U{202F}' || c == '\U{205F}'
    || c == '\U{3000}' || c == '\U{FEFF}'
  }

  /** `s.trim()` is the empty string, i.e. falsy in a JavaScript condition. */
  predicate IsBlank(s: string) {
    forall i :: 0 <= i < |s| ==> IsWhitespace(s[i])
  }

  /** Number of whitespace characters at the front of `s`. */
  function LeadingSpace(s: string): (k: nat)
    ensures k <= |s|
    ensures forall i :: 0 <= i < k ==> IsWhitespace(s[i])
    ensures k < |s| ==> !IsWhitespace(s[k])
  {
    if s == [] || !IsWhitespace(s[0]) then 0 else 1 + LeadingSpace(s[1..])
  }

  /** Length of `s` once the whitespace at its end is dropped. */
  function TrailingStart(s: string): (k: nat)
    ensures k <= |s|
    ensures forall i :: k <= i < |s| ==> IsWhitespace(s[i])
    ensures 0 < k ==> !IsWhitespace(s[k - 1])
  {
    if s == [] || !IsWhitespace(s[|s| - 1]) then |s| else TrailingStart(s[..|s| - 1])
  }

  /** `s.trim()`: the longest infix of `s` that neither starts nor ends with whitespace. */
  function Trim(s: string): (r: string)
    ensures r == [] <==> IsBlank(s)
    ensures r != [] ==> !IsWhitespace(r[0]) && !IsWhitespace(r[|r| - 1])
    ensures exists a, b :: (0 <= a <= b <= |s| && r == s[a..b]
      && (forall i :: 0 <= i < a ==> IsWhitespace(s[i]))
      && (forall i :: b <= i < |s| ==> IsWhitespace(s[i])))
  {
    var a := LeadingSpace(s);
    var b := a + TrailingStart(s[a..]);
    assert s[a..][..b - a] == s[a..b];
    assert a < |s| ==> s[a..][0] == s[a];
    assert forall i :: b <= i < |s| ==> s[i] == s[a..][i - a];
    s[a..b]
  }
}
