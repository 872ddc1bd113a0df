/**
 * The effect of each editing handler on the line array, as a function of the
 * lines before it, together with the undo record the handler pushes and the
 * proof that undo applied to that record gives the lines back.
 */
module Edits {
  import opened TextMetrics
  import opened LineArray
  import opened Selection
  import opened UndoLog

  // ---------------------------------------------------------------- selectedDel

  /**
   * selectedDel on an ordered selection ending inside the buffer. One line:
   * the selected columns are cut out. Several lines: the head of the first line
   * and the tail of the last are joined on the first line and the lines
   * strictly between are removed; the loop stops before y2, so the old last
   * line stays, right after the joined one.
   */
  function DeleteSelection(lines: seq<string>, r: Rect): (res: seq<string>)
    requires InOrder(r) && r.y2 < |lines|
    ensures r.y1 == r.y2 ==> (
      && |res| == |lines|
      && res[r.y1] == ScrSubstr(lines[r.y1], 0, r.x1) + ScrSubstrFrom(lines[r.y1], r.x2)
      && forall k :: 0 <= k < |lines| && k != r.y1 ==> res[k] == lines[k])
    ensures r.y1 < r.y2 ==> (
      && |res| == |lines| - (r.y2 - r.y1 - 1)
      && res[r.y1] == ScrSubstr(lines[r.y1], 0, r.x1) + ScrSubstrFrom(lines[r.y2], r.x2)
      && res[..r.y1] == lines[..r.y1]
      && res[r.y1 + 1..] == lines[r.y2..])
  {
    var s1 := lines[r.y1];
    if r.y1 == r.y2 then
      lines[r.y1 := ScrSubstr(s1, 0, r.x1) + ScrSubstr(s1, r.x2, Width(s1) - r.x2)]
    else
      lines[..r.y1] + [ScrSubstr(s1, 0, r.x1) + ScrSubstrFrom(lines[r.y2], r.x2)] + lines[r.y2..]
  }

  /**
   * Undo after selectedDel restores the lines: the single-line record saves
   * the edited line, the multi-line record saves lines y1 .. y2-1, which are
   * exactly the ones that were overwritten or removed.
   */
  lemma UndoDeleteSelection(lines: seq<string>, r: Rect, column: nat)
    requires InOrder(r) && r.y2 < |lines|
    ensures r.y1 == r.y2 ==>
      UndoBuffers(DeleteSelection(lines, r), DoData(r.y1, column, [lines[r.y1]], 0)) == lines
    ensures r.y1 < r.y2 ==>
      UndoBuffers(DeleteSelection(lines, r), DoData(r.y1, r.x1, lines[r.y1..r.y2], 0)) == lines
  {
    var res := DeleteSelection(lines, r);
    if r.y1 == r.y2 {
      UndoRestoresLine(lines, r.y1, res[r.y1], column);
      assert res == lines[r.y1 := res[r.y1]];
    } else {
      calc {
        UndoBuffers(res, DoData(r.y1, r.x1, lines[r.y1..r.y2], 0));
        res[..r.y1] + lines[r.y1..r.y2] + res[r.y1 + 1..];
        lines[..r.y1] + lines[r.y1..r.y2] + lines[r.y2..];
        { assert lines[..r.y1] + lines[r.y1..r.y2] == lines[..r.y2]; }
        lines[..r.y2] + lines[r.y2..];
        lines;
      }
    }
  }

  // ------------------------------------------------ one edited line (inputData, keyDelete, keyBS, paste)

  /** Undo of a record that saved line `i` before the line was overwritten restores the lines. */
  lemma UndoRestoresLine(lines: seq<string>, i: nat, x: string, column: nat)
    requires i < |lines|
    ensures UndoBuffers(lines[i := x], DoData(i, column, [lines[i]], 0)) == lines
  {
    assert lines[i := x][..i] + [lines[i]] + lines[i := x][i + 1..] == lines;
  }

  /**
   * inputData: `text` typed at column `col`, pushing the rest of the line
   * right (insert mode) or writing over as many columns as it is wide.
   */
  function InsertText(line: string, col: nat, text: string, insert: bool): (r: string)
    ensures insert ==> |r| == |line| + |text|
    ensures col <= |line| ==> |r| >= col + |text|
    ensures col <= |line| ==> r[..col] == line[..col] && r[col..col + |text|] == text
    ensures insert && col <= |line| ==> r[col + |text|..] == line[col..]
    ensures !insert && col + |text| <= |line| ==> |r| == |line| && r[col + |text|..] == line[col + |text|..]
    ensures !insert && col <= |line| && col + |text| > |line| ==> r == line[..col] + text
    ensures col > |line| ==> r == line + text
  {
    if insert then ScrSubstr(line, 0, col) + text + ScrSubstrFrom(line, col)
    else ScrSubstr(line, 0, col) + text + ScrSubstrFrom(line, col + Width(text))
  }

  /** keyDelete inside a line: the character at the cursor goes. */
  function DeleteChar(line: string, col: nat): (r: string)
    requires col < |line|
    ensures |r| + 1 == |line|
    ensures r[..col] == line[..col] && r[col..] == line[col + 1..]
  {
    var firstText := ScrSubstr(line, 0, col);
    firstText + ScrSubstrFrom(line, |firstText| + 1)
  }

  /** keyBS inside a line: the character before the cursor goes. */
  function Backspace(line: string, col: nat): (r: string)
    requires 0 < col <= |line|
    ensures |r| + 1 == |line|
    ensures r[..col - 1] == line[..col - 1] && r[col - 1..] == line[col..]
  {
    var firstText := ScrSubstr(line, 0, col);
    var lastText := ScrSubstrFrom(line, |firstText|);
    ScrSubstr(firstText, 0, |firstText| - 1) + lastText
  }

  /** Backspace at column c removes the same character as Delete at column c-1. */
  lemma BackspaceIsDeleteBefore(line: string, col: nat)
    requires 0 < col <= |line|
    ensures Backspace(line, col) == DeleteChar(line, col - 1)
  {
    var b, d := Backspace(line, col), DeleteChar(line, col - 1);
    assert b == b[..col - 1] + b[col - 1..];
    assert d == d[..col - 1] + d[col - 1..];
  }

  // ---------------------------------------------------------------- line joins

  /**
   * keyDelete at the end of a line that has a successor, as written: the joined
   * text is stored on line i and then line i itself is spliced out, so the
   * successor survives unjoined and the current line is lost.
   */
  function JoinNextAsWritten(lines: seq<string>, i: nat): (r: seq<string>)
    requires i + 1 < |lines|
    ensures r == lines[..i] + lines[i + 1..]
  {
    RemoveAt(lines[i := lines[i] + lines[i + 1]], i)
  }

  /**
   * The undo record keyDelete pushes there saves only the successor line, so
   * undo does not bring the lost line back: the buffer stays one line shorter.
   */
  lemma UndoJoinNextLosesLine(lines: seq<string>, i: nat, column: nat)
    requires i + 1 < |lines|
    ensures UndoBuffers(JoinNextAsWritten(lines, i), DoData(i, column, [lines[i + 1]], 0))
            == lines[..i] + lines[i + 1..]
    ensures |UndoBuffers(JoinNextAsWritten(lines, i), DoData(i, column, [lines[i + 1]], 0))| == |lines| - 1
  {
    var r := JoinNextAsWritten(lines, i);
    assert r[i] == lines[i + 1];
    assert r[i := lines[i + 1]] == r;
    assert r[..i] + [lines[i + 1]] + r[i + 1..] == r;
  }

  /** keyBS at column 0 of line i > 0: line i is appended to line i-1 and removed. */
  function MergeUp(lines: seq<string>, i: nat): (r: seq<string>)
    requires 0 < i < |lines|
    ensures |r| == |lines| - 1
    ensures r[i - 1] == lines[i - 1] + lines[i]
    ensures r[..i - 1] == lines[..i - 1] && r[i..] == lines[i + 1..]
  {
    RemoveAt(lines[i - 1 := lines[i - 1] + lines[i]], i)
  }

  /** Undo of keyBS's record, which saves both joined lines, splits them again. */
  lemma UndoMergeUp(lines: seq<string>, i: nat)
    requires 0 < i < |lines|
    ensures UndoBuffers(MergeUp(lines, i), DoData(i - 1, 0, [lines[i - 1], lines[i]], 0)) == lines
  {
    var r := MergeUp(lines, i);
    calc {
      UndoBuffers(r, DoData(i - 1, 0, [lines[i - 1], lines[i]], 0));
      r[..i - 1] + [lines[i - 1], lines[i]] + r[i..];
      lines[..i - 1] + [lines[i - 1], lines[i]] + lines[i + 1..];
      { assert lines[..i - 1] + [lines[i - 1], lines[i]] == lines[..i + 1]; }
      lines[..i + 1] + lines[i + 1..];
      lines;
    }
  }

  // ---------------------------------------------------------------- keyEnter

  /** The leading blanks keyEnter carries onto the new line (only when the line has a non-blank character). */
  function IndentOf(line: string): (p: string)
    ensures |p| <= |line| && p == line[..|p|]
    ensures forall k :: 0 <= k < |p| ==> IsBlank(p[k])
  {
    line[..FirstNonBlank(line)]
  }

  /**
   * keyEnter on line i at column col: the head before the cursor stays on
   * line i, and a new line i+1 holds the indent followed by the tail.
   */
  function SplitLine(lines: seq<string>, i: nat, col: nat): (r: seq<string>)
    requires i < |lines|
    ensures |r| == |lines| + 1
    ensures r[..i] == lines[..i] && r[i + 2..] == lines[i + 1..]
    ensures r[i] == ScrSubstr(lines[i], 0, col)
    ensures r[i + 1] == IndentOf(lines[i]) + ScrSubstrFrom(lines[i], |r[i]|)
    ensures r[i] + ScrSubstrFrom(r[i + 1], |IndentOf(lines[i])|) == lines[i]
  {
    var line := lines[i];
    var firstLine := ScrSubstr(line, 0, col);
    var lastLine := IndentOf(line) + ScrSubstrFrom(line, |firstLine|);
    var r := InsertAt(lines, i, lastLine)[i := firstLine][i + 1 := lastLine];
    assert r == lines[..i] + [firstLine, lastLine] + lines[i + 1..];
    PrefixSuffix(line, col);
    r
  }

  /** Undo of keyEnter's record (delSize 2) removes the new line and restores the split one. */
  lemma UndoSplitLine(lines: seq<string>, i: nat, col: nat)
    requires i < |lines|
    ensures UndoBuffers(SplitLine(lines, i, col), DoData(i, col, [lines[i]], 2)) == lines
  {
    var r := SplitLine(lines, i, col);
    assert UndoBuffers(r, DoData(i, col, [lines[i]], 2)) == r[..i] + [lines[i]] + r[i + 2..];
    assert lines == lines[..i] + [lines[i]] + lines[i + 1..];
  }

  // ---------------------------------------------------------------- keyTab / keyUntab

  /** keyTab on a selection: a tab is put in front of every line from y1 to y2. */
  function IndentLines(lines: seq<string>, y1: nat, y2: nat): (r: seq<string>)
    ensures |r| == |lines|
    ensures forall k :: 0 <= k < |lines| ==> r[k] == if y1 <= k <= y2 then "\t" + lines[k] else lines[k]
  {
    seq(|lines|, k requires 0 <= k < |lines| => if y1 <= k <= y2 then "\t" + lines[k] else lines[k])
  }

  /** keyUntab on one line: a leading tab, if there is one, is removed. */
  function StripTab(line: string): string
  {
    if ScrSubstr(line, 0, 1) == "\t" then ScrSubstrFrom(line, 1) else line
  }

  /** keyUntab on a selection: a leading tab is removed from every line from y1 to y2 that has one. */
  function UnindentLines(lines: seq<string>, y1: nat, y2: nat): (r: seq<string>)
    ensures |r| == |lines|
    ensures forall k :: 0 <= k < |lines| ==> r[k] == if y1 <= k <= y2 then StripTab(lines[k]) else lines[k]
  {
    seq(|lines|, k requires 0 <= k < |lines| => if y1 <= k <= y2 then StripTab(lines[k]) else lines[k])
  }

  /** Unindenting the lines just indented gives them back. */
  lemma UnindentAfterIndent(lines: seq<string>, y1: nat, y2: nat)
    ensures UnindentLines(IndentLines(lines, y1, y2), y1, y2) == lines
  {
    var r := UnindentLines(IndentLines(lines, y1, y2), y1, y2);
    forall k | 0 <= k < |lines| ensures r[k] == lines[k] {
      if y1 <= k <= y2 {
        var t := "\t" + lines[k];
        assert ScrSubstr(t, 0, 1) == "\t";
        assert ScrSubstrFrom(t, 1) == lines[k];
      }
    }
  }

  /**
   * Undo of a block record (delSize -1) holding lines y1..y2 overwrites them
   * back; every change confined to those lines is undone and the length stays.
   */
  lemma UndoOverwrite(lines: seq<string>, changed: seq<string>, y1: nat, y2: nat)
    requires y1 <= y2 < |lines| && |changed| == |lines|
    requires forall k :: 0 <= k < |lines| && !(y1 <= k <= y2) ==> changed[k] == lines[k]
    ensures UndoBuffers(changed, DoData(y1, 0, lines[y1..y2 + 1], -1)) == lines
  {
    var r := UndoBuffers(changed, DoData(y1, 0, lines[y1..y2 + 1], -1));
    assert r == changed[..y1] + lines[y1..y2 + 1] + changed[y2 + 1..];
    forall k | 0 <= k < |lines| ensures r[k] == lines[k] {
      if k < y1 {
        assert r[k] == changed[k];
      } else if k <= y2 {
        assert r[k] == lines[y1..y2 + 1][k - y1];
      } else {
        assert r[k] == changed[k];
      }
    }
  }

  // ---------------------------------------------------------------- paste

  /**
   * paste of n >= 2 clipboard lines at column col of line i, as written: line
   * i becomes the WHOLE old line followed by the first clip (not its head
   * before the cursor), the middle clips become lines of their own, and the
   * last clip is followed by the tail of the old line after the cursor.
   */
  function PasteLines(lines: seq<string>, i: nat, col: nat, clips: seq<string>): (r: seq<string>)
    requires i < |lines| && |clips| >= 2
    ensures |r| == |lines| + |clips| - 1
    ensures r[..i] == lines[..i] && r[i + |clips|..] == lines[i + 1..]
    ensures r[i] == lines[i] + clips[0]
    ensures forall k :: 0 < k < |clips| - 1 ==> r[i + k] == clips[k]
    ensures r[i + |clips| - 1] == clips[|clips| - 1] + ScrSubstrFrom(lines[i], col)
  {
    var n := |clips|;
    lines[..i] + [lines[i] + clips[0]] + clips[1..n - 1] + [clips[n - 1] + ScrSubstrFrom(lines[i], col)] + lines[i + 1..]
  }

  /** Undo of paste's record (delSize n) removes the n-1 inserted lines and restores line i. */
  lemma UndoPasteLines(lines: seq<string>, i: nat, col: nat, clips: seq<string>)
    requires i < |lines| && |clips| >= 2
    ensures UndoBuffers(PasteLines(lines, i, col, clips), DoData(i, col, [lines[i]], |clips|)) == lines
  {
    var r := PasteLines(lines, i, col, clips);
    calc {
      UndoBuffers(r, DoData(i, col, [lines[i]], |clips|));
      r[..i] + [lines[i]] + r[i + |clips|..];
      lines[..i] + [lines[i]] + lines[i + 1..];
      lines;
    }
  }

  /**
   * Cut after selectAll on a buffer of two or more lines does not empty it:
   * the first line becomes empty and the old last line survives after it,
   * because selectedDel's loop stops before the selection's last line.
   */
  lemma DeleteWholeBufferKeepsLastLine(lines: seq<string>)
    requires |lines| >= 2
    ensures DeleteSelection(lines, WholeBuffer(lines)) == ["", lines[|lines| - 1]]
  {
    var r := WholeBuffer(lines);
    var last := lines[|lines| - 1];
    assert ScrSubstrFrom(last, r.x2) == "";
    assert lines[r.y2..] == [last];
  }
}
