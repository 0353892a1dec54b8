/**
 The part of JavaScript's String.prototype.trim that the view model relies on:
 strip the white-space and line-terminator characters of ECMAScript
 (sections 12.2 and 12.3 of ECMA-262) from both ends of a string.
 */
module JsString {

  /** The characters `trim` removes: TAB, VT, FF, SP, NBSP, ZWNBSP, the other
      space separators of Unicode category Zs, LF, CR, LS and PS. */
  predicate IsWhiteSpace(c: char) {
    || c == '\t' || c == '\n' || c == '\U{000B}' || c == '\U{000C}' || c == '\r'
    || c == ' ' || c == '\U{00A0}' || c == '\U{1680}'
    || ('\U{2000}' <= c <= '\U{200A}')
    || c == '\U{2028}' || c == '\U{2029}' || c == '\U{202F}' || c == '\U{205F}'
    || c == '\U{3000}' || c == '\U{FEFF}'
  }

  /** True when every character of `s` at an index in [lo, hi) is white space. */
  ghost predicate WhiteSpaceBetween(s: string, lo: int, hi: int)
    requires 0 <= lo && hi <= |s|
  {
    forall i :: lo <= i < hi ==> IsWhiteSpace(s[i])
  }

  /** The number of white-space characters `s` starts with. */
  function LeadingWhiteSpace(s: string): (n: nat)
    ensures n <= |s|
    ensures WhiteSpaceBetween(s, 0, n)
    ensures n < |s| ==> !IsWhiteSpace(s[n])
  {
    if s != [] && IsWhiteSpace(s[0]) then 1 + LeadingWhiteSpace(s[1..]) else 0
  }

  /** The number of white-space characters `s` ends with. */
  function TrailingWhiteSpace(s: string): (n: nat)
    ensures n <= |s|
    ensures WhiteSpaceBetween(s, |s| - n, |s|)
    ensures n < |s| ==> !IsWhiteSpace(s[|s| - 1 - n])
  {
    if s != [] && IsWhiteSpace(s[|s| - 1]) then 1 + TrailingWhiteSpace(s[..|s| - 1]) else 0
  }

  /** `s.trim()`: the result is the piece of `s` that follows its leading white
      space and is followed only by white space; it neither starts nor ends with
      white space, and it is empty exactly when `s` is all white space. */
  function Trim(s: string): (r: string)
    ensures LeadingWhiteSpace(s) + |r| <= |s|
    ensures r == s[LeadingWhiteSpace(s)..LeadingWhiteSpace(s) + |r|]
    ensures WhiteSpaceBetween(s, LeadingWhiteSpace(s) + |r|, |s|)
    ensures r != [] ==> !IsWhiteSpace(r[0]) && !IsWhiteSpace(r[|r| - 1])
    ensures r == [] <==> WhiteSpaceBetween(s, 0, |s|)
  {
    var k := LeadingWhiteSpace(s);
    if k == |s| then
      []
    else
      var n := TrailingWhiteSpace(s);
      s[k..|s| - n]
  }

  /** Trimming twice is trimming once. */
  lemma TrimIdempotent(s: string)
    ensures Trim(Trim(s)) == Trim(s)
  {
  }
}
