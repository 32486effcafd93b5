/**
 * The part of ECMAScript's String.prototype.trim that the chat's send guard
 * depends on: leading and trailing white space and line terminators are cut off.
 */
module JsString {

  /** The ECMAScript WhiteSpace and LineTerminator code points (all in the BMP). */
  predicate IsWhitespace(c: char) {
    var n := c as int;
    n == 0x09 || n == 0x0A || n == 0x0B || n == 0x0C || n == 0x0D || n == 0x20 ||
    n == 0xA0 || n == 0x1680 || (0x2000 <= n <= 0x200A) || n == 0x2028 || n == 0x2029 ||
    n == 0x202F || n == 0x205F || n == 0x3000 || n == 0xFEFF
  }

  predicate AllWhitespace(s: string) {
    forall i :: 0 <= i < |s| ==> IsWhitespace(s[i])
  }

  /** Drops the leading white space: the result is a suffix of `s` that is empty or
      starts with a non-white character, and everything dropped was white. */
  function TrimStart(s: string): (r: string)
    ensures |r| <= |s| && r == s[|s| - |r|..]
    ensures r == [] || !IsWhitespace(r[0])
    ensures forall i :: 0 <= i < |s| - |r| ==> IsWhitespace(s[i])
    decreases |s|
  {
    if |s| > 0 && IsWhitespace(s[0]) then TrimStart(s[1..]) else s
  }

  /** Drops the trailing white space: the result is a prefix of `s` that is empty or
      ends with a non-white character, and everything dropped was white. */
  function TrimEnd(s: string): (r: string)
    ensures |r| <= |s| && r == s[..|r|]
    ensures r == [] || !IsWhitespace(r[|r| - 1])
    ensures forall i :: |r| <= i < |s| ==> IsWhitespace(s[i])
    decreases |s|
  {
    if |s| > 0 && IsWhitespace(s[|s| - 1]) then TrimEnd(s[..|s| - 1]) else s
  }

  /** String.prototype.trim: the input with only leading and trailing white space
      removed, so that what is left is empty or has non-white characters at both ends. */
  function Trim(s: string): (r: string)
    ensures |r| <= |s|
    ensures r == [] || (!IsWhitespace(r[0]) && !IsWhitespace(r[|r| - 1]))
    ensures exists a :: CutAt(s, r, a)
  {
    var t := TrimStart(s);
    var r := TrimEnd(t);
    TrimStartCut(s);
    TrimEndCut(t);
    CutCompose(s, t, r, |s| - |t|);
    r
  }

  /** `r` is what remains of `s` after cutting `a` white characters from the front and
      only white characters from the back. */
  predicate CutAt(s: string, r: string, a: int) {
    0 <= a <= |s| - |r| && r == s[a..a + |r|] &&
    AllWhitespace(s[..a]) && AllWhitespace(s[a + |r|..])
  }

  /** The front cut of TrimStart, as a slice. */
  lemma TrimStartCut(s: string)
    ensures var t := TrimStart(s); AllWhitespace(s[..|s| - |t|])
  {
    var t := TrimStart(s);
    AllWhitespaceSlice(s, 0, |s| - |t|);
    assert s[0..|s| - |t|] == s[..|s| - |t|];
  }

  /** The back cut of TrimEnd, as a slice. */
  lemma TrimEndCut(t: string)
    ensures var r := TrimEnd(t); AllWhitespace(t[|r|..])
  {
    var r := TrimEnd(t);
    AllWhitespaceSlice(t, |r|, |t|);
    assert t[|r|..|t|] == t[|r|..];
  }

  /** Cutting white space from the front and then from the back of what is left. */
  lemma CutCompose(s: string, t: string, r: string, a: int)
    requires 0 <= a <= |s| && t == s[a..] && |r| <= |t| && r == t[..|r|]
    requires AllWhitespace(s[..a]) && AllWhitespace(t[|r|..])
    ensures CutAt(s, r, a)
  {
    assert t[|r|..] == s[a + |r|..];
  }

  lemma AllWhitespaceSlice(s: string, lo: int, hi: int)
    requires 0 <= lo <= hi <= |s|
    requires forall i :: lo <= i < hi ==> IsWhitespace(s[i])
    ensures AllWhitespace(s[lo..hi])
  {
    forall i | 0 <= i < hi - lo ensures IsWhitespace(s[lo..hi][i]) {
      assert s[lo..hi][i] == s[lo + i];
    }
  }

  /** A string trims to "" exactly when every character of it is white space. */
  lemma TrimEmptyIff(s: string)
    ensures Trim(s) == "" <==> AllWhitespace(s)
  {
    var t := TrimStart(s);
    if t == [] {
      assert AllWhitespace(s);
    } else {
      assert !IsWhitespace(s[|s| - |t|]);
      assert TrimEnd(t) != [];
    }
  }
}
