/**
 A model of JavaScript's `String.prototype.trim`, the one string primitive the
 Home page's submit check relies on. `trim` removes, from both ends, every code
 point that ECMA-262 classifies as WhiteSpace (section 12.2) or LineTerminator
 (section 12.3). Strings are sequences of code points here; JavaScript's UTF-16
 code units make no difference, because every trimmable code point lies in the
 Basic Multilingual Plane.
 */
module JsString {

  /** WhiteSpace of section 12.2 of ECMA-262: TAB, VT, FF, ZWNBSP and every code
      point of the Unicode general category Zs (Space_Separator, Unicode 15). */
  predicate IsWhiteSpace(c: char) {
    || c == '\t' || c == '\U{000B}' || c == '\U{000C}' || c == '\U{FEFF}'
    // category Zs
    || c == ' ' || c == '\U{00A0}' || c == '\U{1680}'
    || ('\U{2000}' <= c <= '\U{200A}')
    || c == '\U{202F}' || c == '\U{205F}' || c == '\U{3000}'
  }

  /** LineTerminator of section 12.3 of ECMA-262: LF, CR, LINE SEPARATOR and
      PARAGRAPH SEPARATOR. */
  predicate IsLineTerminator(c: char) {
    c == '\n' || c == '\r' || c == '\U{2028}' || c == '\U{2029}'
  }

  /** The code points `trim` strips. */
  predicate IsTrimmable(c: char) {
    IsWhiteSpace(c) || IsLineTerminator(c)
  }

  /** True iff the string consists of trimmable code points only (the empty
      string included). This is the reference notion the submit check is
      stated against. */
  predicate Blank(s: string) {
    forall i :: 0 <= i < |s| ==> IsTrimmable(s[i])
  }

  /** `trimStart`: the longest suffix of `s` that does not begin with a
      trimmable code point. */
  function TrimStart(s: string): (r: string)
    ensures |r| <= |s| && r == s[|s| - |r|..]
    ensures forall i :: 0 <= i < |s| - |r| ==> IsTrimmable(s[i])
    ensures r != [] ==> !IsTrimmable(r[0])
    decreases |s|
  {
    if s != [] && IsTrimmable(s[0]) then
      var r := TrimStart(s[1..]);
      assert forall i :: 1 <= i < |s| - |r| ==> s[i] == s[1..][i - 1];
      r
    else
      s
  }

  /** `trimEnd`: the longest prefix of `s` that does not end with a trimmable
      code point. */
  function TrimEnd(s: string): (r: string)
    ensures |r| <= |s| && r == s[..|r|]
    ensures forall i :: |r| <= i < |s| ==> IsTrimmable(s[i])
    ensures r != [] ==> !IsTrimmable(r[|r| - 1])
    decreases |s|
  {
    if s != [] && IsTrimmable(s[|s| - 1]) then
      var r := TrimEnd(s[..|s| - 1]);
      assert forall i :: |r| <= i < |s| - 1 ==> s[i] == s[..|s| - 1][i];
      r
    else
      s
  }

  /** `trim`: strip both ends. The result is empty exactly for blank input, and
      otherwise starts and ends with a code point `trim` keeps. */
  function Trim(s: string): (r: string)
    ensures |r| <= |s|
    ensures r == [] <==> Blank(s)
    ensures r != [] ==> !IsTrimmable(r[0]) && !IsTrimmable(r[|r| - 1])
  {
    var t := TrimStart(s);
    var r := TrimEnd(t);
    if r != [] then
      assert r[0] == t[0];
      r
    else
      assert t == s[|s| - |t|..];
      r
  }

  /** `trimStart` skips exactly a blank prefix in front of a code point it keeps. */
  lemma TrimStartSkipsBlankPrefix(w: string, m: string)
    requires Blank(w)
    requires m != [] && !IsTrimmable(m[0])
    ensures TrimStart(w + m) == m
  {
    var s := w + m;
    assert s[|w|] == m[0];
  }

  /** `trimEnd` drops exactly a blank suffix behind a code point it keeps. */
  lemma TrimEndDropsBlankSuffix(m: string, w: string)
    requires Blank(w)
    requires m != [] && !IsTrimmable(m[|m| - 1])
    ensures TrimEnd(m + w) == m
  {
    var s := m + w;
    assert s[|m| - 1] == m[|m| - 1];
  }

  /** Trim is determined by its input: padding a string that starts and ends
      with kept code points by blank strings on either side trims back to it. */
  lemma TrimOfPadded(w1: string, m: string, w2: string)
    requires Blank(w1) && Blank(w2)
    requires m != [] && !IsTrimmable(m[0]) && !IsTrimmable(m[|m| - 1])
    ensures Trim(w1 + m + w2) == m
  {
    assert w1 + m + w2 == w1 + (m + w2);
    TrimStartSkipsBlankPrefix(w1, m + w2);
    TrimEndDropsBlankSuffix(m, w2);
  }

  /** Trimming twice is trimming once. */
  lemma TrimIdempotent(s: string)
    ensures Trim(Trim(s)) == Trim(s)
  {
    var t := Trim(s);
    if t != [] {
      assert [] + t + [] == t;
      TrimOfPadded([], t, []);
    }
  }
}
