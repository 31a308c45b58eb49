/** The two URL patterns `find_ssp_image` applies to a string (mockmaster-designer.php),
    written out as string functions: `#^https?://#i` and the leftmost, greedy
    `#https?://[^)'"\s]+#i`. */
module UrlMatch {
  import opened Wrappers
  import opened Text

  /** The length of the scheme `http://` or `https://` at index `i` of `s`, compared
      case-insensitively, or 0 when neither is there. */
  function SchemeLength(s: string, i: nat): (n: nat)
    ensures n == 8 <==> AtIgnoreCase(s, i, "https://")
    ensures n == 7 <==> AtIgnoreCase(s, i, "http://")
    ensures n == 0 || n == 7 || n == 8
  {
    if AtIgnoreCase(s, i, "https://") then
      // the fifth character is an `s`, where `http://` has its colon
      assert Lower(s[i..i + 8][4]) == Lower("https://"[4]);
      assert s[i..i + 8][4] == s[i..i + 7][4];
      8
    else if AtIgnoreCase(s, i, "http://") then 7
    else 0
  }

  /** `#^https?://#i`. */
  predicate StartsWithScheme(s: string) {
    SchemeLength(s, 0) > 0
  }

  /** The characters `[^)'"\s]` excludes: `)`, the two quotes and PCRE's `\s` (space, tab,
      line feed, vertical tab, form feed, carriage return). */
  predicate IsStop(c: char) {
    c == ')' || c == '\'' || c == '"' || c == ' ' || c == '\t' || c == '\n' || c == '\U{B}' || c == '\U{C}' || c == '\r'
  }

  /** `s[a..j]` is a non-empty run of non-stop characters that cannot be extended. */
  ghost predicate MaximalRun(s: string, a: int, j: int) {
    0 <= a < j <= |s| && (forall k :: a <= k < j ==> !IsStop(s[k])) && (j == |s| || IsStop(s[j]))
  }

  /** `s[i..j]` is a greedy match of `https?://[^)'"\s]+` starting at `i`. */
  ghost predicate UrlMatchAt(s: string, i: int, j: int) {
    0 <= i && (
      (AtIgnoreCase(s, i, "http://") && MaximalRun(s, i + 7, j)) ||
      (AtIgnoreCase(s, i, "https://") && MaximalRun(s, i + 8, j)))
  }

  /** The end of the run of non-stop characters that starts at `j`. */
  function RunEnd(s: string, j: nat): (e: nat)
    requires j <= |s|
    ensures j <= e <= |s|
    ensures forall k :: j <= k < e ==> !IsStop(s[k])
    ensures e == |s| || IsStop(s[e])
    decreases |s| - j
  {
    if j == |s| || IsStop(s[j]) then j else RunEnd(s, j + 1)
  }

  /** A maximal run ends where `RunEnd` says. */
  lemma MaximalRunEnd(s: string, a: int, j: int)
    requires MaximalRun(s, a, j)
    ensures RunEnd(s, a) == j
  {
  }

  /** The end of the match that starts at `i`, if one does. */
  function MatchEnd(s: string, i: nat): (r: Option<nat>)
    ensures r.Some? ==> UrlMatchAt(s, i, r.value)
    ensures r.None? ==> forall j :: !UrlMatchAt(s, i, j)
  {
    var n := SchemeLength(s, i);
    if n == 0 then None
    else
      var e := RunEnd(s, i + n);
      if e > i + n then Some(e)
      else
        assert forall j :: !UrlMatchAt(s, i, j) by {
          forall j | UrlMatchAt(s, i, j) ensures false {
            MaximalRunEnd(s, i + n, j);
          }
        }
        None
  }

  /** The leftmost match at or after `from`, as the pair of its bounds. */
  function FirstMatch(s: string, from: nat): (r: Option<(nat, nat)>)
    ensures r.Some? ==> from <= r.value.0 && UrlMatchAt(s, r.value.0, r.value.1)
    ensures r.Some? ==> forall i, j :: from <= i < r.value.0 ==> !UrlMatchAt(s, i, j)
    ensures r.None? ==> forall i, j :: from <= i ==> !UrlMatchAt(s, i, j)
    decreases |s| - from
  {
    if from >= |s| then
      assert forall i, j :: from <= i ==> !UrlMatchAt(s, i, j) by {
        forall i, j | from <= i ensures !UrlMatchAt(s, i, j) {
          assert !AtIgnoreCase(s, i, "http://") && !AtIgnoreCase(s, i, "https://");
        }
      }
      None
    else
      match MatchEnd(s, from)
      case Some(e) => Some((from, e))
      case None =>
        var r := FirstMatch(s, from + 1);
        assert forall j :: !UrlMatchAt(s, from, j);
        r
  }

  /** `preg_match('#https?://[^)\'"\s]+#i', $s, $m) ? $m[0] : none`: the leftmost match,
      extended as far as it goes; none when the pattern matches nowhere. */
  function EmbeddedUrl(s: string): (r: Option<string>)
    ensures r.None? <==> forall i, j :: !UrlMatchAt(s, i, j)
    ensures r.Some? ==> exists i, j ::
      UrlMatchAt(s, i, j) && r.value == s[i..j] && (forall i', j' :: i' < i ==> !UrlMatchAt(s, i', j'))
  {
    match FirstMatch(s, 0)
    case Some((i, j)) =>
      assert forall i', j' :: i' < 0 ==> !UrlMatchAt(s, i', j');
      Some(s[i..j])
    case None => None
  }

  /** Every match starts with its scheme. */
  lemma MatchStartsWithScheme(s: string, i: int, j: int)
    requires UrlMatchAt(s, i, j)
    ensures StartsWithScheme(s[i..j])
  {
    if AtIgnoreCase(s, i, "http://") {
      assert s[i..j][0..7] == s[i..i + 7];
    } else {
      assert s[i..j][0..8] == s[i..i + 8];
    }
  }

  /** A match is determined by where it starts: `http://` and `https://` cannot both be
      there, and the run after the scheme is maximal. */
  lemma MatchUnique(s: string, i: int, j1: int, j2: int)
    requires UrlMatchAt(s, i, j1) && UrlMatchAt(s, i, j2)
    ensures j1 == j2
  {
    if AtIgnoreCase(s, i, "http://") && AtIgnoreCase(s, i, "https://") {
      assert Lower(s[i + 4]) == ':' && Lower(s[i + 4]) == 's';
    }
    if AtIgnoreCase(s, i, "http://") {
      MaximalRunEnd(s, i + 7, j1);
      MaximalRunEnd(s, i + 7, j2);
    } else {
      MaximalRunEnd(s, i + 8, j1);
      MaximalRunEnd(s, i + 8, j2);
    }
  }

  /** The embedded URL is the leftmost match. */
  lemma EmbeddedUrlIsLeftmost(s: string, i: int, j: int)
    requires UrlMatchAt(s, i, j)
    requires forall i', j' :: i' < i ==> !UrlMatchAt(s, i', j')
    ensures EmbeddedUrl(s) == Some(s[i..j])
  {
    var r := EmbeddedUrl(s);
    var i0, j0 :| UrlMatchAt(s, i0, j0) && r.value == s[i0..j0] && (forall i', j' :: i' < i0 ==> !UrlMatchAt(s, i', j'));
    assert i0 == i;
    MatchUnique(s, i, j, j0);
  }
}
