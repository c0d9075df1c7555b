/**
 * String helpers with the meaning the JavaScript runtime gives them:
 * lower-casing (ASCII letters only), substring search (`includes`), the
 * white-space class of `\s` and `trim`, and the word characters of `\b`.
 */
module Text {

  predicate IsAsciiUpper(c: char)
  {
    'A' <= c <= 'Z'
  }

  /** `toLowerCase` on one character, restricted to ASCII letters. */
  function LowerChar(c: char): char
  {
    if IsAsciiUpper(c) then (c as int + 32) as char else c
  }

  /** `toLowerCase` on a string, restricted to ASCII letters. */
  function Lower(s: string): (r: string)
    ensures |r| == |s|
    ensures forall i :: 0 <= i < |s| ==> r[i] == LowerChar(s[i])
  {
    seq(|s|, i requires 0 <= i < |s| => LowerChar(s[i]))
  }

  /** Lower-casing leaves no upper-case letter behind, so doing it twice is
      the same as doing it once. */
  lemma LowerIdempotent(s: string)
    ensures forall i :: 0 <= i < |s| ==> !IsAsciiUpper(Lower(s)[i])
    ensures Lower(Lower(s)) == Lower(s)
  {
  }

  /** `p` occurs in `t` starting at position `i`. */
  predicate OccursAt(t: string, p: string, i: int)
  {
    0 <= i && i + |p| <= |t| && t[i..i + |p|] == p
  }

  /** `t.includes(p)`; the empty string occurs in every string. */
  predicate Contains(t: string, p: string)
  {
    exists i | 0 <= i <= |t| - |p| :: OccursAt(t, p, i)
  }

  /** An occurrence of an occurrence is an occurrence. */
  lemma ContainsTransitive(t: string, k: string, b: string)
    requires Contains(t, k) && Contains(k, b)
    ensures Contains(t, b)
  {
    var i :| 0 <= i <= |t| - |k| && OccursAt(t, k, i);
    var j :| 0 <= j <= |k| - |b| && OccursAt(k, b, j);
    assert t[i..i + |k|] == k;
    forall m | 0 <= m < |b|
      ensures t[i + j + m] == b[m]
    {
      assert t[i + j + m] == t[i..i + |k|][j + m] == k[j + m] == k[j..j + |b|][m];
    }
    assert t[i + j..i + j + |b|] == b;
    assert OccursAt(t, b, i + j);
  }

  /** Line terminators: what `.` in a regular expression does not match. */
  predicate IsLineTerminator(c: char)
  {
    c == '\n' || c == '\r' || c == '\U{2028}' || c == '\U{2029}'
  }

  /** The white-space class shared by `\s` and `String.prototype.trim`. */
  predicate IsWhitespace(c: char)
  {
    || IsLineTerminator(c)
    || c == '\t' || c == '\U{000B}' || c == '\U{000C}' || c == ' '
    || c == '\U{00A0}' || c == '\U{FEFF}' || c == '\U{1680}'
    || ('\U{2000}' <= c <= '\U{200A}')
    || c == '\U{202F}' || c == '\U{205F}' || c == '\U{3000}'
  }

  predicate AllWhitespace(s: string)
  {
    forall i :: 0 <= i < |s| ==> IsWhitespace(s[i])
  }

  /** Neither the first nor the last character is white space. */
  predicate IsTrimmed(s: string)
  {
    |s| == 0 || (!IsWhitespace(s[0]) && !IsWhitespace(s[|s| - 1]))
  }

  /** The number of white-space characters at the start of `s`. */
  function LeadingWhitespace(s: string): (n: nat)
    ensures n <= |s|
    ensures AllWhitespace(s[..n])
    ensures n < |s| ==> !IsWhitespace(s[n])
    decreases |s|
  {
    if |s| > 0 && IsWhitespace(s[0]) then 1 + LeadingWhitespace(s[1..]) else 0
  }

  /** The number of white-space characters at the end of `s`. */
  function TrailingWhitespace(s: string): (n: nat)
    ensures n <= |s|
    ensures AllWhitespace(s[|s| - n..])
    ensures n < |s| ==> !IsWhitespace(s[|s| - n - 1])
    decreases |s|
  {
    if |s| > 0 && IsWhitespace(s[|s| - 1]) then 1 + TrailingWhitespace(s[..|s| - 1]) else 0
  }

  /** `String.prototype.trim`: the slice of `s` left after removing white
      space from both ends. */
  function Trim(s: string): (r: string)
    ensures IsTrimmed(r)
    ensures exists a :: OccursAt(s, r, a) && AllWhitespace(s[..a]) && AllWhitespace(s[a + |r|..])
    ensures IsTrimmed(s) ==> r == s
  {
    var a := LeadingWhitespace(s);
    var rest := s[a..];
    var b := TrailingWhitespace(rest);
    var r := rest[..|rest| - b];
    assert r == s[a..a + |r|];
    assert s[a + |r|..] == rest[|rest| - b..];
    assert OccursAt(s, r, a);
    r
  }

  /** A string with no '(' in it. */
  predicate NoOpenParen(s: string)
  {
    forall i :: 0 <= i < |s| ==> s[i] != '('
  }
}
