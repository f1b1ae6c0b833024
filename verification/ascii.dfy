/** ASCII-only case mapping and substring search, standing in for Java's
    `String.toUpperCase`, `String.toLowerCase` and `String.contains`. Letters
    outside A-Z/a-z are left unchanged. */
module Ascii {

  function LowerChar(c: char): char {
    if 'A' <= c <= 'Z' then (c as int + 32) as char else c
  }

  function UpperChar(c: char): char {
    if 'a' <= c <= 'z' then (c as int - 32) as char else c
  }

  /** Character-wise lower-casing: same length, each character lowered. */
  function Lower(s: string): (r: string)
    ensures |r| == |s|
    ensures forall i :: 0 <= i < |s| ==> r[i] == LowerChar(s[i])
  {
    seq(|s|, i requires 0 <= i < |s| => LowerChar(s[i]))
  }

  /** `t` occurs in `s` starting at index `i`. */
  predicate Occurs(s: string, t: string, i: int) {
    0 <= i && i + |t| <= |s| && s[i..i + |t|] == t
  }

  /** Java's `s.contains(t)`: some occurrence of `t` in `s` (the empty string occurs everywhere). */
  predicate Contains(s: string, t: string) {
    exists i | 0 <= i <= |s| - |t| :: Occurs(s, t, i)
  }

  /** A string containing a character the container lacks is not contained. */
  lemma MissingCharNotContained(s: string, t: string, k: int)
    requires 0 <= k < |t| && t[k] !in s
    ensures !Contains(s, t)
  {
  }

  /** The only characters that lower to an ASCII lower-case letter are that
      letter and its upper-case form. */
  lemma LowerCharPreimage(c: char, l: char)
    requires 'a' <= l <= 'z'
    ensures LowerChar(c) == l ==> c == l || c == UpperChar(l)
  {
  }

  /** Lower-casing forgets any earlier upper-casing of a character. */
  lemma LowerOfUpper(c: char)
    ensures LowerChar(UpperChar(c)) == LowerChar(c)
  {
  }
}
