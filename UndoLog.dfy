/**
 * The undo log of the editor: the records the handlers push before they edit,
 * and the effect undo has on the line array when it pops one.
 */
module UndoLog {
  import opened TextMetrics

  /**
   * DoData: one undo record. `line` and `column` are where undo puts the
   * cursor back, `texts` the saved lines, and `delSize` (0 when omitted)
   * chooses how undo applies them:
   *   -1  texts overwrite the lines from `line` on (block indent and unindent);
   *    0  texts[0] overwrites line `line` and the other texts are inserted after it;
   *   n>0 texts[0] overwrites line `line` and the n-1 lines after it are removed.
   */
  datatype DoData = DoData(line: nat, column: nat, texts: seq<string>, delSize: int)

  /** The shapes the handlers push: delSize is -1 or more, and a removing record saves one line. */
  predicate WellFormed(d: DoData)
  {
    d.delSize >= -1 && (d.delSize > 0 ==> |d.texts| == 1)
  }

  /**
   * Undo can apply the record without leaving a hole in the line array: the
   * first line it writes is a line of the buffer or the one just past its end
   * (JavaScript appends on a write at index `length`, and splice clamps).
   */
  predicate Fits(d: DoData, lines: seq<string>)
  {
    d.texts == [] || d.line <= |lines|
  }

  /** The line array after undo applies record `d` to `lines`. */
  function UndoBuffers(lines: seq<string>, d: DoData): (r: seq<string>)
    requires WellFormed(d) && Fits(d, lines)
    ensures d.texts == [] ==> r == lines
    ensures d.delSize == -1 && d.texts != [] ==> |r| == Max(|lines|, d.line + |d.texts|)
    ensures d.delSize == -1 && d.line + |d.texts| <= |lines| ==> |r| == |lines|
    ensures d.delSize == 0 && d.texts != [] ==> |r| == |lines| + |d.texts| - (Min(d.line + 1, |lines|) - d.line)
    ensures d.delSize > 0 ==> |r| == |lines| + 1 - (Min(d.line + d.delSize, |lines|) - d.line)
    ensures d.texts != [] ==>
      r[..d.line] == lines[..d.line] && r[d.line..d.line + |d.texts|] == d.texts && r[d.line] == d.texts[0]
  {
    if d.texts == [] then lines
    else if d.delSize == -1 then lines[..d.line] + d.texts + lines[Min(d.line + |d.texts|, |lines|)..]
    else if d.delSize == 0 then lines[..d.line] + d.texts + lines[Min(d.line + 1, |lines|)..]
    else lines[..d.line] + d.texts + lines[Min(d.line + d.delSize, |lines|)..]
  }

  /**
   * A record whose line is the length of the buffer (the line it names was
   * removed after it was pushed) appends its texts to the buffer.
   */
  lemma UndoAtEndAppends(lines: seq<string>, d: DoData)
    requires WellFormed(d) && d.line == |lines|
    ensures UndoBuffers(lines, d) == lines + d.texts
  {
    if d.texts != [] {
      assert lines[..d.line] == lines;
    }
  }

  /** The cursor line after undo applies record `d` with the cursor on line `curLine`. */
  function UndoLine(d: DoData, curLine: nat): nat
  {
    if d.delSize == -1 then curLine
    else if d.delSize == 0 then (if d.texts == [] then curLine else d.line + |d.texts| - 1)
    else d.line
  }

  /** Undo leaves the cursor on a line of the buffer. */
  lemma UndoLineInside(lines: seq<string>, d: DoData, curLine: nat)
    requires WellFormed(d) && Fits(d, lines) && curLine < |lines|
    ensures UndoLine(d, curLine) < |UndoBuffers(lines, d)|
  {
  }
}
