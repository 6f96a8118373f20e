/**
 * The part of JavaScript's `String.prototype.trim` that the to-do component
 * relies on: removing leading and trailing white space. A string is seen as
 * a sequence of Unicode scalar values.
 */
module JsString {

  /** The ECMAScript WhiteSpace and LineTerminator code points: TAB, VT, FF,
      SPACE, NBSP, ZWNBSP, the space separators (category Zs), LF, CR, LS and PS. */
  predicate IsWhitespace(c: char) {
    || c == '\t' || c == '\n' || c == '\U{000B}' || c == '\U{000C}' || c == '\r'
    || c == ' ' || c == '\U{00A0}' || c == '\U{1680}'
    || ('\U{2000}' <= c <= '\U{200A}')
    || c == '\U{2028}' || c == '\U{2029}' || c == '\U{202F}' || c == '\U{205F}'
    || c == '\U{3000}' || c == '\U{FEFF}'
  }

  /** Every character of `s` is white space (the empty string included). */
  predicate IsBlank(s: string) {
    forall k :: 0 <= k < |s| ==> IsWhitespace(s[k])
  }

  /** `s` without its leading white space: a suffix of `s`, everything cut off is
      white space, and what is left does not start with white space. */
  function TrimStart(s: string): (r: string)
    ensures |r| <= |s| && r == s[|s| - |r|..]
    ensures forall k :: 0 <= k < |s| - |r| ==> IsWhitespace(s[k])
    ensures r == [] || !IsWhitespace(r[0])
  {
    if s != [] && IsWhitespace(s[0]) then TrimStart(s[1..]) else s
  }

  /** `s` without its trailing white space: a prefix of `s`, everything cut off is
      white space, and what is left does not end with white space. */
  function TrimEnd(s: string): (r: string)
    ensures |r| <= |s| && r == s[..|r|]
    ensures forall k :: |r| <= k < |s| ==> IsWhitespace(s[k])
    ensures r == [] || !IsWhitespace(r[|r| - 1])
  {
    if s != [] && IsWhitespace(s[|s| - 1]) then TrimEnd(s[..|s| - 1]) else s
  }

  /** `r` is the slice of `s` that starts at `a`, with only white space before
      and after it. */
  ghost predicate CutAt(s: string, r: string, a: int) {
    && 0 <= a && a + |r| <= |s| && r == s[a..a + |r|]
    && IsBlank(s[..a]) && IsBlank(s[a + |r|..])
  }

  /** `s.trim()`: neither end of the result is white space, and the result is
      empty exactly when `s` is made of white space only. */
  function Trim(s: string): (r: string)
    ensures |r| <= |s|
    ensures r == [] <==> IsBlank(s)
    ensures r == [] || (!IsWhitespace(r[0]) && !IsWhitespace(r[|r| - 1]))
  {
    TrimEnd(TrimStart(s))
  }

  /** `s.trim()` is `s` with white space cut from both ends: a slice of `s`
      with nothing but white space before and after it. */
  lemma TrimCutsWhitespace(s: string)
    ensures exists a :: CutAt(s, Trim(s), a)
  {
    var head := TrimStart(s);
    CutEnds(s, head, TrimEnd(head));
    assert CutAt(s, Trim(s), |s| - |head|);
  }

  /** Cutting white space off the front of `s` gives `head`, and cutting white
      space off the back of `head` gives `r`: so `r` is a slice of `s` with
      white space on both sides. */
  lemma CutEnds(s: string, head: string, r: string)
    requires |head| <= |s| && head == s[|s| - |head|..]
    requires forall k :: 0 <= k < |s| - |head| ==> IsWhitespace(s[k])
    requires |r| <= |head| && r == head[..|r|]
    requires forall k :: |r| <= k < |head| ==> IsWhitespace(head[k])
    ensures CutAt(s, r, |s| - |head|)
  {
    var a := |s| - |head|;
    forall k | a + |r| <= k < |s|
      ensures IsWhitespace(s[k])
    {
      assert s[k] == head[k - a];
    }
  }
}
