/**
 * String helpers shared by the model: JavaScript's notion of white space
 * (used by `String.prototype.trim` and by the regular-expression class `\s`),
 * `trim` itself, prefix and substring tests, and `toLowerCase` as far as
 * the comparisons of the model can observe it.
 */
module Text {

  /** The characters JavaScript's `trim` removes and `\s` matches:
      the WhiteSpace and LineTerminator code points of ECMAScript. */
  predicate IsSpace(c: char) {
    c == '\t' || c == '\n' || c == '\U{000B}' || c == '\U{000C}' || c == '\r' ||
    c == ' ' || c == '\U{00A0}' || c == '\U{1680}' ||
    ('\U{2000}' <= c <= '\U{200A}') ||
    c == '\U{2028}' || c == '\U{2029}' || c == '\U{202F}' || c == '\U{205F}' ||
    c == '\U{3000}' || c == '\U{FEFF}'
  }

  /** Every character of `s` is white space (vacuously true of ""). */
  predicate AllSpace(s: string) {
    forall i :: 0 <= i < |s| ==> IsSpace(s[i])
  }

  /** No character of `s` is white space: what `\S+` matches when `s` is non-empty. */
  predicate NoSpace(s: string) {
    forall i :: 0 <= i < |s| ==> !IsSpace(s[i])
  }

  /** Number of leading white-space characters. */
  function LeadingSpace(s: string): (k: nat)
    ensures k <= |s|
    ensures AllSpace(s[..k])
    ensures k < |s| ==> !IsSpace(s[k])
  {
    if |s| > 0 && IsSpace(s[0]) then
      var k := 1 + LeadingSpace(s[1..]);
      assert s[..k] == [s[0]] + s[1..][..k - 1];
      k
    else 0
  }

  /** Index where the trailing white space of `s` begins. */
  function TrailingSpaceStart(s: string): (k: nat)
    ensures k <= |s|
    ensures AllSpace(s[k..])
    ensures 0 < k ==> !IsSpace(s[k - 1])
  {
    if |s| > 0 && IsSpace(s[|s| - 1]) then
      var k := TrailingSpaceStart(s[..|s| - 1]);
      assert s[k..] == s[..|s| - 1][k..] + [s[|s| - 1]];
      k
    else |s|
  }

  /** `String.prototype.trim`. */
  function Trim(s: string): (r: string)
    ensures r == [] <==> AllSpace(s)
    ensures r != [] ==> !IsSpace(r[0]) && !IsSpace(r[|r| - 1])
    ensures exists i, j :: 0 <= i <= j <= |s| && r == s[i..j] && AllSpace(s[..i]) && AllSpace(s[j..])
  {
    var i := LeadingSpace(s);
    var t := s[i..];
    var j := TrailingSpaceStart(t);
    assert t[..j] == s[i..i + j];
    assert t[j..] == s[i + j..];
    SpaceAround(s, i, i + j);
    t[..j]
  }

  /** A string made of a white-space prefix `s[..i]` and a white-space suffix `s[i..]` is white space. */
  lemma SpaceAround(s: string, i: nat, j: nat)
    requires i <= j <= |s| && AllSpace(s[..i]) && AllSpace(s[j..])
    ensures i == j ==> AllSpace(s)
  {
    if i == j {
      forall m | 0 <= m < |s| ensures IsSpace(s[m]) {
        if m < i { assert s[m] == s[..i][m]; } else { assert s[m] == s[j..][m - j]; }
      }
    }
  }

  /** JavaScript's falsiness test `!s.trim()`: the trimmed string is empty. */
  predicate IsBlank(s: string) {
    Trim(s) == []
  }

  /** `s.startsWith(prefix)`. */
  predicate StartsWith(s: string, prefix: string) {
    |prefix| <= |s| && s[..|prefix|] == prefix
  }

  /** `t` occurs in `s` starting at position `k`. */
  predicate OccursAt(s: string, t: string, k: nat) {
    k + |t| <= |s| && s[k..k + |t|] == t
  }

  /** `s.includes(t)`. */
  predicate Contains(s: string, t: string) {
    exists k: nat :: k <= |s| && OccursAt(s, t, k)
  }

  /** `toLowerCase` on one character, restricted to what matters when the
      result is compared with ASCII text: A-Z, and the Kelvin sign, whose
      lower case is the ASCII letter k. Other characters are kept. */
  function LowerChar(c: char): (r: char)
    ensures 'A' <= c <= 'Z' ==> r as int == c as int + 32
    ensures r != c ==> ('A' <= c <= 'Z' || c == '\U{212A}')
    ensures 'a' <= r <= 'z' ==> ('a' <= c <= 'z' || 'A' <= c <= 'Z' || c == '\U{212A}')
  {
    if 'A' <= c <= 'Z' then (c as int + 32) as char
    else if c == '\U{212A}' then 'k'
    else c
  }

  /** `String.prototype.toLowerCase`, character by character. */
  function ToLower(s: string): (r: string)
    ensures |r| == |s|
    ensures forall i :: 0 <= i < |s| ==> r[i] == LowerChar(s[i])
  {
    if s == [] then [] else [LowerChar(s[0])] + ToLower(s[1..])
  }

  /** Lowering is idempotent: a lower-cased key lowers to itself. */
  lemma LowerCharIdempotent(c: char)
    ensures LowerChar(LowerChar(c)) == LowerChar(c)
  {
  }

  lemma {:induction false} ToLowerIdempotent(s: string)
    ensures ToLower(ToLower(s)) == ToLower(s)
  {
    var l := ToLower(s);
    forall i | 0 <= i < |s| ensures ToLower(l)[i] == l[i] {
      LowerCharIdempotent(s[i]);
    }
  }
}
