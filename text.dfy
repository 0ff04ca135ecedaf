/** Character-level facts shared by the scanners: JavaScript's line terminators (which `.`
    does not match) and the case folding the `i` flag applies to ASCII literals. */
module Text {

  /** The four code units that a JavaScript `.` refuses to match. */
  predicate IsLineTerminator(c: char) {
    c == '\n' || c == '\r' || c == '\U{2028}' || c == '\U{2029}'
  }

  /** No line terminator anywhere in `t`. */
  predicate OneLine(t: string) {
    forall k :: 0 <= k < |t| ==> !IsLineTerminator(t[k])
  }

  /** ASCII lower-casing. */
  function Lower(c: char): (d: char)
    ensures 'A' <= c <= 'Z' ==> 'a' <= d <= 'z'
    ensures !('A' <= c <= 'Z') ==> d == c
  {
    if 'A' <= c <= 'Z' then (c as int + 32) as char else c
  }

  /** Two characters are equal once case is ignored. */
  predicate SameLetter(a: char, b: char) {
    Lower(a) == Lower(b)
  }

  /** Ignoring case cannot turn a line terminator into anything else. */
  lemma SameLetterKeepsTerminators(a: char, b: char)
    requires SameLetter(a, b) && !IsLineTerminator(b)
    ensures !IsLineTerminator(a)
  {
  }

  /** `p` is a prefix of `s`, compared exactly (case-sensitively). */
  predicate StartsWith(s: string, p: string) {
    |p| <= |s| && s[..|p|] == p
  }
}
