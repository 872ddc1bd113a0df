/**
 * The selection of the editor: its four modes, the rectangle (x1, y1)-(x2, y2)
 * given by two cursor positions, the normalisation selectSort applies before
 * any operation that reads it, and the text copy and cut take from it.
 */
module Selection {
  import opened TextMetrics

  /** EDIT_MODE: plain editing, toggled selection, block selection, selection by shifted keys. */
  datatype EditMode = Edit | Select | Block | ShiftSelect

  /** IEditSelect: the anchor (x1, y1) and the other end (x2, y2), as (column, line). */
  datatype Rect = Rect(x1: nat, y1: nat, x2: nat, y2: nat)

  /** (x1, y1) does not come after (x2, y2) in document order. */
  predicate InOrder(r: Rect)
  {
    r.y1 < r.y2 || (r.y1 == r.y2 && r.x1 <= r.x2)
  }

  /** The rectangle with its two ends exchanged. */
  function Swapped(r: Rect): Rect
  {
    Rect(r.x2, r.y2, r.x1, r.y1)
  }

  /**
   * selectSort: exchange the two ends when the first comes after the second.
   * When y1 == y2 the source swaps y1 and y2 as well as x1 and x2; the swap of
   * two equal lines changes nothing, so both branches exchange the two ends.
   */
  function Sorted(r: Rect): (s: Rect)
    ensures InOrder(s)
    ensures s == r || s == Swapped(r)
    ensures s == r <==> InOrder(r)
    ensures {(s.x1, s.y1), (s.x2, s.y2)} == {(r.x1, r.y1), (r.x2, r.y2)}
  {
    if r.y1 > r.y2 then Rect(r.x2, r.y2, r.x1, r.y1)
    else if r.y1 == r.y2 && r.x1 > r.x2 then Rect(r.x2, r.y2, r.x1, r.y1)
    else r
  }

  /** Sorting a sorted selection changes nothing. */
  lemma SortedIdempotent(r: Rect)
    ensures Sorted(Sorted(r)) == Sorted(r)
  {
  }

  /** The part of line `y` that a selection of several lines covers. */
  function CopiedLine(lines: seq<string>, r: Rect, y: nat): string
    requires r.y1 < r.y2 < |lines| && r.y1 <= y <= r.y2
  {
    if y == r.y1 then ScrSubstrFrom(lines[y], r.x1)
    else if y == r.y2 then ScrSubstr(lines[y], 0, r.x2)
    else lines[y]
  }

  /**
   * The lines copy and cut put on the clipboard for an ordered selection that
   * ends inside the buffer: the selected columns of a single line, or the tail
   * of the first line, the whole lines between, and the head of the last line.
   */
  function SelectedTexts(lines: seq<string>, r: Rect): (t: seq<string>)
    requires InOrder(r) && r.y2 < |lines|
    ensures |t| == r.y2 - r.y1 + 1
  {
    if r.y1 == r.y2 then [ScrSubstr(lines[r.y1], r.x1, r.x2 - r.x1)]
    else seq(r.y2 - r.y1 + 1, k requires 0 <= k <= r.y2 - r.y1 => CopiedLine(lines, r, r.y1 + k))
  }

  /**
   * What copy takes is exactly what selectedDel removes: the first selected
   * line is its kept head followed by the first copied text, the last is the
   * last copied text followed by its kept tail, and the lines between are copied whole.
   */
  lemma SelectedTextsCover(lines: seq<string>, r: Rect)
    requires InOrder(r) && r.y2 < |lines|
    ensures var t := SelectedTexts(lines, r);
      if r.y1 == r.y2 then
        lines[r.y1] == ScrSubstr(lines[r.y1], 0, r.x1) + t[0] + ScrSubstrFrom(lines[r.y1], r.x2)
      else
        lines[r.y1] == ScrSubstr(lines[r.y1], 0, r.x1) + t[0] &&
        lines[r.y2] == t[|t| - 1] + ScrSubstrFrom(lines[r.y2], r.x2) &&
        forall k :: 0 < k < |t| - 1 ==> t[k] == lines[r.y1 + k]
  {
    var s1 := lines[r.y1];
    var s2 := lines[r.y2];
    if r.y1 == r.y2 {
      if r.x1 < |s1| {
        if r.x2 < |s1| {
          assert s1 == s1[..r.x1] + s1[r.x1..r.x2] + s1[r.x2..];
        } else {
          assert s1 == s1[..r.x1] + s1[r.x1..];
        }
      }
    } else {
      var t := SelectedTexts(lines, r);
      assert t[0] == CopiedLine(lines, r, r.y1);
      assert t[|t| - 1] == CopiedLine(lines, r, r.y2);
      assert forall k :: 0 < k < |t| - 1 ==> t[k] == CopiedLine(lines, r, r.y1 + k);
      PrefixSuffix(s1, r.x1);
      PrefixSuffix(s2, r.x2);
    }
  }

  /** The rectangle selectAll sets (lines 947-954): from the start of the buffer to the end of its last line. */
  function WholeBuffer(lines: seq<string>): (r: Rect)
    requires |lines| >= 1
    ensures InOrder(r) && r.y1 == 0 && r.y2 == |lines| - 1
  {
    Rect(0, 0, Width(lines[|lines| - 1]), |lines| - 1)
  }

  /** Copy after selectAll takes every line of the buffer, whole and in order. */
  lemma CopyWholeBuffer(lines: seq<string>)
    requires |lines| >= 1
    ensures SelectedTexts(lines, WholeBuffer(lines)) == lines
  {
    var r := WholeBuffer(lines);
    var t := SelectedTexts(lines, r);
    if |lines| == 1 {
      assert t[0] == lines[0][0..|lines[0]|] == lines[0];
      assert lines == [lines[0]];
    } else {
      forall k | 0 <= k < |lines| ensures t[k] == lines[k] {
        assert t[k] == CopiedLine(lines, r, k);
      }
    }
  }
}
