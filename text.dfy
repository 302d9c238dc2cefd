/**
 * The string primitives the storefront calls: `toLowerCase`, `toUpperCase`,
 * `trim` and `includes`. Case mapping is restricted to ASCII letters; every
 * other character is left as it is.
 */
module Text {

  predicate IsUpperAscii(c: char) { 'A' <= c <= 'Z' }

  predicate IsLowerAscii(c: char) { 'a' <= c <= 'z' }

  function LowerChar(c: char): (d: char)
    ensures !IsUpperAscii(d)
    ensures IsUpperAscii(c) || d == c
  {
    if IsUpperAscii(c) then (c as int + 32) as char else c
  }

  function UpperChar(c: char): (d: char)
    ensures !IsLowerAscii(d)
    ensures IsLowerAscii(c) || d == c
  {
    if IsLowerAscii(c) then (c as int - 32) as char else c
  }

  /** `s.toLowerCase()` on ASCII letters. */
  function ToLower(s: string): (r: string)
    ensures |r| == |s|
    ensures forall i :: 0 <= i < |r| ==> !IsUpperAscii(r[i])
    ensures forall i :: 0 <= i < |r| && !IsUpperAscii(s[i]) ==> r[i] == s[i]
    ensures SameUpToCase(r, s)
  {
    seq(|s|, i requires 0 <= i < |s| => LowerChar(s[i]))
  }

  /** `s.toUpperCase()` on ASCII letters. */
  function ToUpper(s: string): (r: string)
    ensures |r| == |s|
    ensures forall i :: 0 <= i < |r| ==> !IsLowerAscii(r[i])
    ensures forall i :: 0 <= i < |r| && !IsLowerAscii(s[i]) ==> r[i] == s[i]
    ensures SameUpToCase(r, s)
  {
    seq(|s|, i requires 0 <= i < |s| => UpperChar(s[i]))
  }

  /** Two strings spell the same letters, position by position, ignoring ASCII case. */
  predicate SameUpToCase(a: string, b: string) {
    |a| == |b| && forall i :: 0 <= i < |a| ==> LowerChar(a[i]) == LowerChar(b[i])
  }

  /** The upper-case form is the only string with the same letters up to case and no lower-case letter. */
  lemma ToUpperUnique(s: string, r: string)
    requires SameUpToCase(r, s)
    requires forall i :: 0 <= i < |r| ==> !IsLowerAscii(r[i])
    ensures r == ToUpper(s)
  {
    var u := ToUpper(s);
    forall i | 0 <= i < |r| ensures r[i] == u[i] {
      assert LowerChar(r[i]) == LowerChar(u[i]);
    }
  }

  /** Upper-casing twice is upper-casing once. */
  lemma ToUpperIdempotent(s: string)
    ensures ToUpper(ToUpper(s)) == ToUpper(s)
  {
  }

  /** A string with no lower-case ASCII letter is its own upper-case form. */
  lemma ToUpperIdentity(s: string)
    requires forall i :: 0 <= i < |s| ==> !IsLowerAscii(s[i])
    ensures ToUpper(s) == s
  {
  }

  /** A string with no upper-case ASCII letter is its own lower-case form. */
  lemma ToLowerIdentity(s: string)
    requires forall i :: 0 <= i < |s| ==> !IsUpperAscii(s[i])
    ensures ToLower(s) == s
  {
  }

  /**
   * The characters `String.prototype.trim` removes: the ECMAScript
   * WhiteSpace (TAB, VT, FF, SP, NBSP, ZWNBSP and the Space_Separator
   * category) and LineTerminator (LF, CR, LS, PS) code points.
   */
  predicate IsJsWhitespace(c: char) {
    || c == '\t' || c == '\U{000B}' || c == '\U{000C}' || c == ' '
    || c == '\U{00A0}' || c == '\U{FEFF}' || c == '\U{1680}'
    || ('\U{2000}' <= c <= '\U{200A}')
    || c == '\U{202F}' || c == '\U{205F}' || c == '\U{3000}'
    || c == '\n' || c == '\r' || c == '\U{2028}' || c == '\U{2029}'
  }

  /** Number of leading whitespace characters. */
  function LeadingWs(s: string): (k: nat)
    ensures k <= |s|
    ensures forall i :: 0 <= i < k ==> IsJsWhitespace(s[i])
    ensures k < |s| ==> !IsJsWhitespace(s[k])
  {
    if s != [] && IsJsWhitespace(s[0]) then 1 + LeadingWs(s[1..]) else 0
  }

  /** Number of trailing whitespace characters. */
  function TrailingWs(s: string): (k: nat)
    ensures k <= |s|
    ensures forall i :: |s| - k <= i < |s| ==> IsJsWhitespace(s[i])
    ensures k < |s| ==> !IsJsWhitespace(s[|s| - 1 - k])
  {
    if s != [] && IsJsWhitespace(s[|s| - 1]) then 1 + TrailingWs(s[..|s| - 1]) else 0
  }

  /** `r` occurs in `s` at offset `a`, with only whitespace before and after it. */
  predicate PaddedAt(s: string, r: string, a: int) {
    && OccursAt(s, r, a)
    && (forall i :: 0 <= i < a ==> IsJsWhitespace(s[i]))
    && (forall i :: a + |r| <= i < |s| ==> IsJsWhitespace(s[i]))
  }

  /** `r` is `s` with its surrounding whitespace removed: padded by whitespace in `s`, and neither starting nor ending with whitespace. */
  ghost predicate IsTrimOf(s: string, r: string) {
    && (r != [] ==> !IsJsWhitespace(r[0]) && !IsJsWhitespace(r[|r| - 1]))
    && (r == [] <==> forall i :: 0 <= i < |s| ==> IsJsWhitespace(s[i]))
    && exists a | 0 <= a <= |s| :: PaddedAt(s, r, a)
  }

  /** `s.trim()`: the slice of `s` between its leading and its trailing whitespace. */
  function Trim(s: string): (r: string)
    ensures |r| <= |s|
    ensures IsTrimOf(s, r)
  {
    var a := LeadingWs(s);
    var t := s[a..];
    var b := TrailingWs(t);
    var r := t[..|t| - b];
    assert PaddedAt(s, r, a) by {
      forall i | a + |r| <= i < |s| ensures IsJsWhitespace(s[i]) {
        assert s[i] == t[i - a];
      }
    }
    assert r == [] ==> a == |s|;
    r
  }

  /** A string has exactly one trimmed form. */
  lemma TrimUnique(s: string, r1: string, r2: string)
    requires IsTrimOf(s, r1) && IsTrimOf(s, r2)
    ensures r1 == r2
  {
    if r1 != [] {
      assert r2 != [];
      var a1 :| 0 <= a1 <= |s| && PaddedAt(s, r1, a1);
      var a2 :| 0 <= a2 <= |s| && PaddedAt(s, r2, a2);
      var e1, e2 := a1 + |r1| - 1, a2 + |r2| - 1;
      assert s[a1] == r1[0] && s[e1] == r1[|r1| - 1];
      assert s[a2] == r2[0] && s[e2] == r2[|r2| - 1];
      assert a1 == a2;
      assert e1 == e2;
      assert r1 == s[a1..a1 + |r1|] == r2;
    }
  }

  /** `t` occurs in `s` starting at offset `i`. */
  predicate OccursAt(s: string, t: string, i: int) {
    0 <= i <= |s| - |t| && s[i..i + |t|] == t
  }

  /** `s.includes(t)`: `t` occurs in `s` at some offset. */
  predicate Contains(s: string, t: string) {
    exists i | 0 <= i <= |s| - |t| :: OccursAt(s, t, i)
  }

  /** The index of the first occurrence of `pat` in `s`, as `indexOf` finds it. */
  function IndexOf(s: string, pat: string): (r: int)
    ensures r == -1 || 0 <= r <= |s| - |pat|
    ensures r >= 0 ==> OccursAt(s, pat, r)
    ensures r >= 0 ==> forall j :: 0 <= j < r ==> !OccursAt(s, pat, j)
    ensures r == -1 ==> forall j :: !OccursAt(s, pat, j)
  {
    if |s| < |pat| then -1
    else if s[..|pat|] == pat then 0
    else
      var k := IndexOf(s[1..], pat);
      forall j | 1 <= j <= |s| - |pat|
        ensures OccursAt(s, pat, j) <==> OccursAt(s[1..], pat, j - 1)
      {
        assert s[1..][j - 1..j - 1 + |pat|] == s[j..j + |pat|];
      }
      if k == -1 then -1 else k + 1
  }

  /** `s.replace(pat, rep)` with a string pattern: only the first occurrence is replaced. */
  function ReplaceFirst(s: string, pat: string, rep: string): (r: string)
  {
    var k := IndexOf(s, pat);
    if k < 0 then s else s[..k] + rep + s[k + |pat|..]
  }

  /** A string that starts with `pat` has its first occurrence at 0, so replacing removes exactly that prefix. */
  lemma ReplaceFirstPrefix(pat: string, t: string)
    ensures ReplaceFirst(pat + t, pat, "") == t
  {
    var s := pat + t;
    assert s[..|pat|] == pat;
    assert s[|pat|..] == t;
  }
}
