/**
 * Text metrics used by the editor, under the assumption that every character
 * occupies exactly one screen cell: the screen width of a string is its length
 * and a screen-column substring is a character substring clipped to the string.
 * The real helpers (neo-blessed's strWidth and StringUtils.scrSubstr) also
 * expand tabs and count double-width characters; they are not part of this model.
 */
module TextMetrics {

  function Min(a: int, b: int): int { if a <= b then a else b }

  function Max(a: int, b: int): int { if a <= b then b else a }

  /** strWidth(s): one cell per character. */
  function Width(s: string): nat { |s| }

  /**
   * scrSubstr(s, start, len): the part of `s` that starts at screen column
   * `start` and spans `len` columns, clipped to the string; empty when the
   * span is empty or lies past the end. With one cell per character this is
   * also JavaScript's `s.substr(start, len)` for non-negative `start`.
   */
  function ScrSubstr(s: string, start: nat, len: int): (r: string)
    ensures |r| <= |s|
    ensures 0 <= len && start + len <= |s| ==> r == s[start..start + len]
    ensures start >= |s| || len <= 0 ==> r == ""
  {
    var lo := Min(start, |s|);
    var hi := Min(start + len, |s|);
    if hi <= lo then "" else s[lo..hi]
  }

  /** scrSubstr(s, start) without a length (and `s.substr(start)`): from `start` to the end. */
  function ScrSubstrFrom(s: string, start: nat): (r: string)
    ensures |r| == Max(|s| - start, 0)
    ensures start <= |s| ==> r == s[start..]
  {
    s[Min(start, |s|)..]
  }

  /** Cutting a line at any column and gluing the two parts back gives the line. */
  lemma PrefixSuffix(s: string, col: nat)
    ensures ScrSubstr(s, 0, col) + ScrSubstrFrom(s, col) == s
  {
    if col < |s| {
      assert s[..col] + s[col..] == s;
    }
  }

  predicate IsBlank(c: char) { c == ' ' || c == '\t' }

  /** The number of spaces and tabs a line starts with. */
  function LeadingBlanks(s: string): (n: nat)
    ensures n <= |s|
    ensures forall k :: 0 <= k < n ==> IsBlank(s[k])
    ensures n < |s| ==> !IsBlank(s[n])
  {
    if |s| == 0 || !IsBlank(s[0]) then 0 else 1 + LeadingBlanks(s[1..])
  }

  /**
   * The index the scans of keyHome and keyEnter settle on: that of the first
   * character which is neither a space nor a tab, and 0 when the line has no
   * such character (the scan then never breaks and keeps its initial 0).
   */
  function FirstNonBlank(s: string): (n: nat)
    ensures (exists k :: 0 <= k < |s| && !IsBlank(s[k])) ==>
              n < |s| && !IsBlank(s[n]) && forall k :: 0 <= k < n ==> IsBlank(s[k])
    ensures (forall k :: 0 <= k < |s| ==> IsBlank(s[k])) ==> n == 0
  {
    var k := LeadingBlanks(s);
    if k == |s| then 0 else k
  }

  /** `pat` occurs in `s` starting at index `i`. */
  predicate OccursAt(s: string, pat: string, i: int)
  {
    0 <= i && i + |pat| <= |s| && s[i..i + |pat|] == pat
  }

  /** The first occurrence of `pat` in `s` at or after `from`, or -1. */
  function IndexFrom(s: string, pat: string, from: nat): (r: int)
    decreases |s| - from
    ensures r == -1 || (from <= r && OccursAt(s, pat, r))
    ensures r == -1 ==> forall i :: from <= i ==> !OccursAt(s, pat, i)
    ensures r != -1 ==> forall i :: from <= i < r ==> !OccursAt(s, pat, i)
  {
    if from + |pat| > |s| then -1
    else if s[from..from + |pat|] == pat then from
    else IndexFrom(s, pat, from + 1)
  }

  /** JavaScript's `s.indexOf(pat)`: the index of the first occurrence, or -1 when there is none. */
  function IndexOf(s: string, pat: string): (r: int)
    ensures r == -1 <==> forall i :: !OccursAt(s, pat, i)
    ensures r != -1 ==> OccursAt(s, pat, r) && forall i :: 0 <= i < r ==> !OccursAt(s, pat, i)
  {
    IndexFrom(s, pat, 0)
  }
}
