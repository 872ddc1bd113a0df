/**
 * One pass of the forward search: the first line at or after a start line that
 * contains the search text, and the column where the text first occurs there.
 */
module Find {
  import opened TextMetrics

  datatype Option<T> = None | Some(value: T)

  /** A position in the line array: line index and column. */
  datatype Match = Match(line: nat, column: nat)

  /** The scan of findNextPromise, lines 1036-1054, from line `start` to the end of the buffer. */
  function FindFrom(lines: seq<string>, start: nat, pat: string): (m: Option<Match>)
    decreases |lines| - start
    ensures m.Some? ==> start <= m.value.line < |lines|
    ensures m.Some? ==> m.value.column == IndexOf(lines[m.value.line], pat) != -1
    ensures m.Some? ==> OccursAt(lines[m.value.line], pat, m.value.column)
    ensures m.Some? ==> forall n :: start <= n < m.value.line ==> IndexOf(lines[n], pat) == -1
    ensures m.None? <==> forall n :: start <= n < |lines| ==> IndexOf(lines[n], pat) == -1
  {
    if start >= |lines| then None
    else
      var idx := IndexOf(lines[start], pat);
      if idx > -1 then Some(Match(start, idx)) else FindFrom(lines, start + 1, pat)
  }

  /** The scan finds the first line with an occurrence: any such line at or after `start` is not before the match. */
  lemma FindFromFirst(lines: seq<string>, start: nat, pat: string, n: nat)
    requires start <= n < |lines| && IndexOf(lines[n], pat) != -1
    ensures FindFrom(lines, start, pat).Some?
    ensures FindFrom(lines, start, pat).value.line <= n
  {
  }

  /**
   * Any start line between `start` and the line of the match gives the same
   * match: the lines skipped on the way hold no occurrence.
   */
  lemma {:induction false} FindFromLater(lines: seq<string>, start: nat, mid: nat, pat: string)
    requires FindFrom(lines, start, pat).Some?
    requires start <= mid <= FindFrom(lines, start, pat).value.line
    ensures FindFrom(lines, mid, pat) == FindFrom(lines, start, pat)
    decreases mid - start
  {
    if start < mid {
      FindFromLater(lines, start + 1, mid, pat);
    }
  }

  /**
   * A pass that starts on the line of the previous match finds that match
   * again: in SHIFT_SELECT mode the scan restarts at indexFindPosY and reads
   * that line from its first column, not from indexFindPosX.
   */
  lemma FindFromAgain(lines: seq<string>, start: nat, pat: string)
    requires FindFrom(lines, start, pat).Some?
    ensures FindFrom(lines, FindFrom(lines, start, pat).value.line, pat) == FindFrom(lines, start, pat)
  {
  }
}
