/** Character-level helpers shared by the PHP and JavaScript string rules. */
module Text {

  /** ASCII lower-casing, the only case folding PCRE's `i` flag and JavaScript's `/i`
      apply to the letters used in this project's patterns. */
  function Lower(c: char): char {
    if 'A' <= c <= 'Z' then (c as int + 32) as char else c
  }

  /** Case-insensitive equality of two strings. */
  predicate EqualsIgnoreCase(a: string, b: string) {
    |a| == |b| && forall i :: 0 <= i < |a| ==> Lower(a[i]) == Lower(b[i])
  }

  /** `s` has `lit` (compared case-insensitively) at index `i`. */
  predicate AtIgnoreCase(s: string, i: nat, lit: string) {
    i + |lit| <= |s| && EqualsIgnoreCase(s[i..i + |lit|], lit)
  }

  /** `s` ends with `suffix`, compared case-insensitively. */
  predicate EndsWithIgnoreCase(s: string, suffix: string) {
    |suffix| <= |s| && AtIgnoreCase(s, |s| - |suffix|, suffix)
  }

  /** The characters PHP's `trim` strips by default: space, tab, line feed,
      carriage return, NUL and vertical tab. */
  predicate IsTrimmed(c: char) {
    c == ' ' || c == '\t' || c == '\n' || c == '\r' || c == '\0' || c == '\U{B}'
  }

  predicate AllTrimmed(s: string) {
    forall i :: 0 <= i < |s| ==> IsTrimmed(s[i])
  }

  /** The number of trimmed characters at the start of `s`. */
  function LeadingTrimmed(s: string): (k: nat)
    ensures k <= |s| && AllTrimmed(s[..k])
    ensures k == |s| || !IsTrimmed(s[k])
  {
    if s != [] && IsTrimmed(s[0]) then
      var k := LeadingTrimmed(s[1..]);
      assert s[..k + 1] == [s[0]] + s[1..][..k];
      k + 1
    else
      0
  }

  /** The index where the run of trimmed characters at the end of `s` begins. */
  function TrailingTrimmed(s: string): (k: nat)
    ensures k <= |s| && AllTrimmed(s[k..])
    ensures k == 0 || !IsTrimmed(s[k - 1])
  {
    if s != [] && IsTrimmed(s[|s| - 1]) then
      var k := TrailingTrimmed(s[..|s| - 1]);
      assert s[k..] == s[..|s| - 1][k..] + [s[|s| - 1]];
      k
    else
      |s|
  }

  /** `r` is `s` with the trimmed characters removed from both ends: the middle of `s`,
      neither starting nor ending with a trimmed character. */
  ghost predicate IsTrimOf(s: string, r: string) {
    exists a, b {:trigger s[a..b]} :: 0 <= a <= b <= |s| && r == s[a..b] && AllTrimmed(s[..a]) && AllTrimmed(s[b..])
      && (r == [] || (!IsTrimmed(r[0]) && !IsTrimmed(r[|r| - 1])))
  }

  /** PHP's `trim($s)` with the default character list. */
  function Trim(s: string): (r: string)
    ensures IsTrimOf(s, r)
  {
    var a := LeadingTrimmed(s);
    var b := a + TrailingTrimmed(s[a..]);
    assert s[b..] == s[a..][b - a..];
    assert s[a..b] == [] || !IsTrimmed(s[a..b][0]) by {
      if a < b { assert s[a..b][0] == s[a]; }
    }
    s[a..b]
  }
}
