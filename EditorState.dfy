/**
 * The editing state of the editor taken as one value, and the effect of each
 * key handler on it as a function. The class Editor changes its fields in
 * place and is proved to end in the state these functions give; the lemmas
 * here relate the handlers to undo.
 */
module EditorState {
  import opened TextMetrics
  import opened LineArray
  import opened Selection
  import opened UndoLog
  import opened Edits

  /**
   * The fields the key handlers read and write: the line array, the cursor
   * (line, column) and the column it remembers (curColumnMax), the first
   * visible line, the undo log, the selection and the mode.
   */
  datatype EditState = EditState(lines: seq<string>, line: nat, column: nat, columnMax: nat,
                                 firstLine: int, log: seq<DoData>, sel: Rect, mode: EditMode)

  /** Every record on the undo log has a shape undo knows. */
  predicate LogWellFormed(log: seq<DoData>)
  {
    forall d :: d in log ==> WellFormed(d)
  }

  /** A non-empty line array, the cursor on one of its lines, a well-formed undo log. */
  predicate StateValid(s: EditState)
  {
    |s.lines| >= 1 && s.line < |s.lines| && LogWellFormed(s.log)
  }

  /** The record undo applies next. */
  function Top(log: seq<DoData>): DoData
    requires log != []
  {
    log[|log| - 1]
  }

  /** Undo can run: the log is empty, or its last record lies inside the lines. */
  predicate Undoable(s: EditState)
  {
    StateValid(s) && (s.log != [] ==> Fits(Top(s.log), s.lines))
  }

  /** Pushing a well-formed record keeps the log well formed. */
  lemma PushWellFormed(log: seq<DoData>, d: DoData)
    requires LogWellFormed(log) && WellFormed(d)
    ensures LogWellFormed(log + [d])
  {
    forall e | e in log + [d] ensures WellFormed(e) {
      if e != d {
        assert e in log;
      }
    }
  }

  // ------------------------------------------------------------ cursor movement

  /** keyPressCommon's mode change: the next plain key ends a shifted selection. */
  function AfterKeyPress(m: EditMode): EditMode
  {
    if m == ShiftSelect then Edit else m
  }

  /** The cursor put at `p`, followed by keyPressCommon (the selection end and curColumnMax follow it). */
  function Moved(s: EditState, p: (nat, nat)): EditState
  {
    s.(line := p.0, column := p.1, columnMax := p.1,
       sel := s.sel.(x2 := p.1, y2 := p.0), mode := AfterKeyPress(s.mode))
  }

  /**
   * keyLeft: one column left (from past the end of the line, to its last
   * column but one), or from column 0 to the end of the previous line.
   */
  function LeftOf(lines: seq<string>, l: nat, c: nat): (p: (nat, nat))
    requires l < |lines|
    ensures p.0 < |lines| && p.1 <= |lines[p.0]|
    ensures p.0 == l ==> p.1 <= c && (c > 0 && c <= |lines[l]| ==> p.1 == c - 1)
    ensures p.0 != l ==> c == 0 && 0 < l && p == (l - 1, |lines[l - 1]|)
  {
    if c > 0 then (l, Max(Min(c, |lines[l]|) - 1, 0))
    else if l > 0 then (l - 1, |lines[l - 1]|)
    else (l, c)
  }

  /** keyRight: one column right inside the line, or from its end to the start of the next line. */
  function RightOf(lines: seq<string>, l: nat, c: nat): (p: (nat, nat))
    requires l < |lines|
    ensures p.0 < |lines|
    ensures p.0 == l ==> p.1 == if c < |lines[l]| then c + 1 else c
    ensures p.0 != l ==> c == |lines[l]| && p == (l + 1, 0)
  {
    if c < |lines[l]| then (l, c + 1)
    else if c == |lines[l]| && l != |lines| - 1 then (l + 1, 0)
    else (l, c)
  }

  /** Inside the buffer and away from its very end, keyLeft takes back keyRight. */
  lemma LeftUndoesRight(lines: seq<string>, l: nat, c: nat)
    requires l < |lines| && c <= |lines[l]| && !(l == |lines| - 1 && c == |lines[l]|)
    ensures var q := RightOf(lines, l, c); LeftOf(lines, q.0, q.1) == (l, c)
  {
  }

  /** Inside the buffer and away from its very start, keyRight takes back keyLeft. */
  lemma RightUndoesLeft(lines: seq<string>, l: nat, c: nat)
    requires l < |lines| && c <= |lines[l]| && (l > 0 || c > 0)
    ensures var q := LeftOf(lines, l, c); RightOf(lines, q.0, q.1) == (l, c)
  {
  }

  /**
   * Where keyUp and keyDown leave the cursor on line t for the remembered
   * column c: the end of the line when c is past it, otherwise keyRight
   * followed by keyLeft, which keeps (t, c) except at the end of the last line.
   */
  function Settle(lines: seq<string>, t: nat, c: nat): (p: (nat, nat))
    requires t < |lines|
    ensures p.0 < |lines| && p.1 <= |lines[p.0]|
    ensures |lines[t]| < c ==> p == (t, |lines[t]|)
    ensures c <= |lines[t]| && !(t == |lines| - 1 && c == |lines[t]|) ==> p == (t, c)
  {
    var q := RightOf(lines, t, c);
    if |lines[t]| < c then (t, |lines[t]|)
    else if t == |lines| - 1 && c == |lines[t]| then LeftOf(lines, q.0, q.1)
    else
      LeftUndoesRight(lines, t, c);
      LeftOf(lines, q.0, q.1)
  }

  /**
   * At the end of the last line the keyRight/keyLeft pair moves the cursor:
   * one column left, or from an empty last line to the end of the line above.
   */
  lemma SettleAtBufferEnd(lines: seq<string>, c: nat)
    requires |lines| >= 1 && c == |lines[|lines| - 1]|
    ensures var t := |lines| - 1;
      if c > 0 then Settle(lines, t, c) == (t, c - 1)
      else if t > 0 then Settle(lines, t, c) == (t - 1, |lines[t - 1]|)
      else Settle(lines, t, c) == (t, 0)
  {
  }

  /** keyUp and keyDown once they have chosen line t (lines 372-388 and 394-410). */
  function VerticalState(s: EditState, t: nat): EditState
    requires t < |s.lines|
  {
    var c := Max(s.column, s.columnMax);
    var p := Settle(s.lines, t, c);
    s.(line := p.0, column := p.1, columnMax := if |s.lines[t]| < c then c else p.1,
       sel := s.sel.(x2 := p.1, y2 := p.0), mode := AfterKeyPress(s.mode))
  }

  /** The line keyUp moves to. */
  function UpTarget(s: EditState): nat
  {
    if s.line > 0 then s.line - 1 else 0
  }

  /** The line keyDown moves to. */
  function DownTarget(s: EditState): nat
  {
    if s.line + 1 < |s.lines| then s.line + 1 else s.line
  }

  /** The unshifted arrow key that a shifted one moves with. */
  datatype Arrow = Left | Right | Up | Down

  /** The move of an arrow key. */
  function ArrowState(s: EditState, a: Arrow): (t: EditState)
    requires StateValid(s)
    ensures StateValid(t)
  {
    match a
    case Left => Moved(s, LeftOf(s.lines, s.line, s.column))
    case Right => Moved(s, RightOf(s.lines, s.line, s.column))
    case Up => VerticalState(s, UpTarget(s))
    case Down => VerticalState(s, DownTarget(s))
  }

  /**
   * shiftMode (lines 413-420): the anchor is put at the cursor unless the mode
   * is SHIFT_SELECT, the arrow moves, and the mode becomes SELECT.
   */
  function ShiftState(s: EditState, a: Arrow): (t: EditState)
    requires StateValid(s)
    ensures StateValid(t) && t.mode == Select
  {
    var anchored := if s.mode != ShiftSelect then s.(sel := s.sel.(x1 := s.column, y1 := s.line)) else s;
    ArrowState(anchored, a).(mode := Select)
  }

  /**
   * Since shiftMode leaves SELECT rather than SHIFT_SELECT, a second shifted
   * arrow re-anchors the selection where the first one left the cursor: a
   * shifted selection never spans more than one key press.
   */
  lemma ShiftReanchors(s: EditState, a: Arrow, b: Arrow)
    requires StateValid(s)
    ensures var t := ShiftState(s, a); var u := ShiftState(t, b);
      u.sel.x1 == t.column && u.sel.y1 == t.line
  {
  }

  /**
   * keyHome: to the first non-blank column, or to column 0 when already there.
   * A line of blanks counts as having its first non-blank at column 0.
   */
  function HomeColumn(line: string, c: nat): (h: nat)
    ensures h <= |line|
    ensures h == 0 || (h == FirstNonBlank(line) && c != h && !IsBlank(line[h]))
    ensures c != FirstNonBlank(line) ==> h == FirstNonBlank(line)
    ensures c == FirstNonBlank(line) ==> h == 0
  {
    var ne := FirstNonBlank(line);
    if c == ne then 0 else ne
  }

  /** Pressing keyHome twice from the first non-blank column comes back to it. */
  lemma HomeToggles(line: string)
    requires exists k :: 0 <= k < |line| && !IsBlank(line[k])
    requires FirstNonBlank(line) > 0
    ensures HomeColumn(line, FirstNonBlank(line)) == 0
    ensures HomeColumn(line, HomeColumn(line, FirstNonBlank(line))) == FirstNonBlank(line)
  {
  }

  // ------------------------------------------------------------ viewport

  /**
   * The prologue of screenMemSave (lines 177-191) on firstLine, for the cursor
   * on line `cur` of `count` lines, the last visible line `last`, `rows` view
   * rows and a view `height` lines high.
   */
  function ScrolledFirstLine(first: int, cur: nat, last: int, count: nat, rows: nat, height: int): (f: int)
    ensures cur == 0 ==> f == first
    ensures cur > 0 ==> 0 <= f <= Max(first, 0) + 1
  {
    if cur == 0 then first
    else
      var f1 := if cur <= first then first - 1 else first;
      var f2 := if f1 <= 0 then 0 else f1;
      if last - f2 >= 10 && last - cur <= 0 && rows as int >= height then
        var f3 := if f2 <= count then f2 + 1 else f2;
        if count as int <= height - 5 then 0 else f3
      else f2
  }

  // ------------------------------------------------------------ selection

  /**
   * The record selectedDel pushes: a single-line selection saves the selected
   * line under the cursor's position (lines 127-130), a multi-line one saves
   * the lines y1 .. y2-1 from the selection's start (lines 135-161).
   */
  function DelRecord(lines: seq<string>, r: Rect, line: nat, column: nat): (d: DoData)
    requires r.y1 <= r.y2 < |lines|
    ensures WellFormed(d) && d.delSize == 0
    ensures r.y1 == r.y2 ==> d.texts == [lines[r.y1]] && d.line == line
    ensures r.y1 < r.y2 ==> d.texts == lines[r.y1..r.y2] && d.line == r.y1 && d.column == r.x1
  {
    if r.y1 == r.y2 then DoData(line, column, [lines[r.y1]], 0)
    else DoData(r.y1, r.x1, lines[r.y1..r.y2], 0)
  }

  /** selectedDel on a writable buffer (lines 117-174). */
  function SelectedDelState(s: EditState): (t: EditState)
    requires StateValid(s)
    ensures StateValid(t) && t.mode == Edit && t.sel == Sorted(s.sel)
    ensures Sorted(s.sel).y2 >= |s.lines| ==> t == s.(sel := Sorted(s.sel), mode := Edit)
    ensures Sorted(s.sel).y2 < |s.lines| ==>
      t.line == Sorted(s.sel).y1 && t.column == Sorted(s.sel).x1 && t.columnMax == t.column &&
      t.lines == DeleteSelection(s.lines, Sorted(s.sel)) && |t.log| == |s.log| + 1
  {
    var r := Sorted(s.sel);
    if r.y2 >= |s.lines| then s.(sel := r, mode := Edit)
    else
      var rec := DelRecord(s.lines, r, s.line, s.column);
      PushWellFormed(s.log, rec);
      EditState(DeleteSelection(s.lines, r), r.y1, r.x1, r.x1,
                if r.y1 < s.firstLine then r.y1 - 10 else s.firstLine,
                s.log + [rec], r, Edit)
  }

  /**
   * Undo after selectedDel restores the lines when the selection spans several
   * lines, or lies on the cursor's line; the single-line record saves the
   * selected line under the CURSOR's line number (line 130).
   */
  lemma SelectedDelThenUndo(s: EditState)
    requires StateValid(s)
    requires Sorted(s.sel).y2 < |s.lines|
    requires Sorted(s.sel).y1 == Sorted(s.sel).y2 ==> s.line == Sorted(s.sel).y1
    ensures Undoable(SelectedDelState(s))
    ensures UndoState(SelectedDelState(s)).lines == s.lines
    ensures UndoState(SelectedDelState(s)).log == s.log
  {
    var r := Sorted(s.sel);
    UndoDeleteSelection(s.lines, r, s.column);
    assert (s.log + [Top(SelectedDelState(s).log)])[..|s.log|] == s.log;
  }

  /** What the editing handlers do first (inputData, keyDelete, keyEnter, paste): a selection is deleted. */
  function Prelude(s: EditState): (t: EditState)
    requires StateValid(s)
    ensures StateValid(t) && t.mode == Edit
  {
    if s.mode == Edit then s else SelectedDelState(s)
  }

  // ------------------------------------------------------------ edits

  /** inputData in EDIT mode (lines 579-591). */
  function InputDataState(s: EditState, text: string, insert: bool): (t: EditState)
    requires StateValid(s)
    ensures StateValid(t)
    ensures |t.lines| == |s.lines| && t.line == s.line
    ensures forall k :: 0 <= k < |s.lines| && k != s.line ==> t.lines[k] == s.lines[k]
    ensures t.lines[s.line] == InsertText(s.lines[s.line], s.column, text, insert)
    ensures insert && s.column <= |s.lines[s.line]| ==>
      t.lines[t.line] == s.lines[s.line][..s.column] + text + s.lines[s.line][s.column..]
    ensures t.column == s.column + |text| && t.columnMax == t.column
    ensures t.log == s.log + [DoData(s.line, s.column, [s.lines[s.line]], 0)]
  {
    var i := s.line;
    var line := s.lines[i];
    var c := s.column + Width(text);
    PushWellFormed(s.log, DoData(i, s.column, [line], 0));
    var r := InsertText(line, s.column, text, insert);
    assert s.column <= |line| ==> r == r[..s.column] + r[s.column..s.column + |text|] + r[s.column + |text|..];
    s.(lines := s.lines[i := r], column := c, columnMax := c,
       log := s.log + [DoData(i, s.column, [line], 0)])
  }

  /** inputData followed by undo gives back the lines, the cursor and the log. */
  lemma InputDataThenUndo(s: EditState, text: string, insert: bool)
    requires StateValid(s)
    ensures Undoable(InputDataState(s, text, insert))
    ensures var u := UndoState(InputDataState(s, text, insert));
      u.lines == s.lines && u.line == s.line && u.column == s.column && u.log == s.log
  {
    var t := InputDataState(s, text, insert);
    UndoRestoresLine(s.lines, s.line, t.lines[s.line], s.column);
    assert t.lines == s.lines[s.line := t.lines[s.line]];
    assert t.log[..|t.log| - 1] == s.log;
  }

  /** keyDelete in EDIT mode (lines 447-469). */
  function KeyDeleteState(s: EditState): (t: EditState)
    requires StateValid(s)
    ensures StateValid(t)
    ensures t.line == s.line && t.column == s.column && t.columnMax == s.column
    ensures s.column < |s.lines[s.line]| ==>
      t.lines == s.lines[s.line := DeleteChar(s.lines[s.line], s.column)] &&
      t.log == s.log + [DoData(s.line, s.column, [s.lines[s.line]], 0)]
    ensures s.column >= |s.lines[s.line]| && s.line + 1 < |s.lines| ==>
      t.lines == s.lines[..s.line] + s.lines[s.line + 1..] &&
      t.log == s.log + [DoData(s.line, s.column, [s.lines[s.line + 1]], 0)]
    ensures s.column >= |s.lines[s.line]| && s.line + 1 >= |s.lines| ==> t.lines == s.lines && t.log == s.log
  {
    var i := s.line;
    var c := s.column;
    var line := s.lines[i];
    if c < Width(line) then
      PushWellFormed(s.log, DoData(i, c, [line], 0));
      s.(lines := s.lines[i := DeleteChar(line, c)], columnMax := c,
         log := s.log + [DoData(i, c, [line], 0)])
    else if i + 1 < |s.lines| then
      PushWellFormed(s.log, DoData(i, c, [s.lines[i + 1]], 0));
      s.(lines := JoinNextAsWritten(s.lines, i), columnMax := c,
         log := s.log + [DoData(i, c, [s.lines[i + 1]], 0)])
    else s.(columnMax := c)
  }

  /** keyDelete inside a line followed by undo gives back the lines, the cursor and the log. */
  lemma KeyDeleteThenUndo(s: EditState)
    requires StateValid(s) && s.column < |s.lines[s.line]|
    ensures Undoable(KeyDeleteState(s))
    ensures var u := UndoState(KeyDeleteState(s));
      u.lines == s.lines && u.line == s.line && u.column == s.column && u.log == s.log
  {
    var t := KeyDeleteState(s);
    UndoRestoresLine(s.lines, s.line, t.lines[s.line], s.column);
    assert t.log[..|t.log| - 1] == s.log;
  }

  /**
   * keyDelete at the end of a line that has a successor loses the line under
   * the cursor, and undo does not bring it back (lines 457-463).
   */
  lemma KeyDeleteAtEndThenUndo(s: EditState)
    requires StateValid(s) && s.column >= |s.lines[s.line]| && s.line + 1 < |s.lines|
    ensures Undoable(KeyDeleteState(s))
    ensures UndoState(KeyDeleteState(s)).lines == s.lines[..s.line] + s.lines[s.line + 1..]
  {
    UndoJoinNextLosesLine(s.lines, s.line, s.column);
  }

  /**
   * keyBS's selection step (lines 475-482): after selectedDel the cursor is put
   * at the selection's start, even when selectedDel left the lines alone
   * because the selection ends past the buffer.
   */
  function BackspacePrelude(s: EditState): (t: EditState)
    requires StateValid(s)
    ensures |t.lines| >= 1 && LogWellFormed(t.log) && t.mode == Edit
    ensures s.mode != Edit ==> t.line == Sorted(s.sel).y1 && t.column == Sorted(s.sel).x1
    ensures s.mode == Edit || Sorted(s.sel).y1 < |s.lines| ==> StateValid(t)
  {
    if s.mode == Edit then s
    else
      var u := SelectedDelState(s);
      u.(line := u.sel.y1, column := u.sel.x1, columnMax := u.sel.x1)
  }

  /** keyBS once in EDIT mode (lines 484-519). */
  function KeyBSState(s: EditState): (t: EditState)
    requires |s.lines| >= 1 && LogWellFormed(s.log) && s.mode == Edit
    ensures |t.lines| >= 1 && LogWellFormed(t.log) && t.mode == Edit
    ensures s.line < |s.lines| ==> t.line < |t.lines|
  {
    var i := s.line;
    var c := s.column;
    if i == 0 && c == 0 then s
    else if i >= |s.lines| then s.(columnMax := c)
    else if c == 0 then
      var lines := MergeUp(s.lines, i);
      var w := Width(s.lines[i - 1]);
      var up := VerticalState(s.(lines := lines), i - 1);
      PushWellFormed(s.log, DoData(i - 1, c, [s.lines[i - 1], s.lines[i]], 0));
      up.(column := w, columnMax := w,
          log := s.log + [DoData(i - 1, c, [s.lines[i - 1], s.lines[i]], 0)])
    else if c <= Width(s.lines[i]) then
      PushWellFormed(s.log, DoData(i, c, [s.lines[i]], 0));
      s.(lines := s.lines[i := Backspace(s.lines[i], c)], column := c - 1, columnMax := c - 1,
         log := s.log + [DoData(i, c, [s.lines[i]], 0)], sel := s.sel.(x2 := c - 1, y2 := i))
    else
      s.(lines := s.lines[i := ""], columnMax := c, sel := s.sel.(x2 := c, y2 := i))
  }

  /**
   * keyBS at column 0 of a line below the first joins it to the previous line:
   * one line fewer, the cursor at the join on the previous line (unless that
   * line is the empty last line), and undo gives back both lines and the cursor.
   */
  lemma KeyBSJoinThenUndo(s: EditState)
    requires StateValid(s) && s.mode == Edit && s.column == 0 && s.line > 0
    requires |s.lines[s.line - 1]| + |s.lines[s.line]| > 0 || s.line < |s.lines| - 1
    ensures var t := KeyBSState(s);
      |t.lines| == |s.lines| - 1 && t.line == s.line - 1 && t.column == |s.lines[s.line - 1]|
    ensures Undoable(KeyBSState(s))
    ensures var u := UndoState(KeyBSState(s));
      u.lines == s.lines && u.line == s.line && u.column == s.column && u.log == s.log
  {
    var i := s.line;
    var lines := MergeUp(s.lines, i);
    var c := Max(s.column, s.columnMax);
    var p := Settle(lines, i - 1, c);
    assert p.0 == i - 1 by {
      if |lines[i - 1]| >= c && i - 1 == |lines| - 1 && c == |lines[i - 1]| {
        SettleAtBufferEnd(lines, c);
      }
    }
    UndoMergeUp(s.lines, i);
    var t := KeyBSState(s);
    assert t.log[..|t.log| - 1] == s.log;
  }

  /**
   * The case KeyBSJoinThenUndo leaves out: Backspace at column 0 of an empty
   * last line below an empty line merges the two, and the keyUp that follows
   * lands at the end of the merged last line, where keyRight then keyLeft
   * bounce the cursor up once more: it ends two lines up, not one.
   */
  lemma KeyBSJoinAtEmptyEnd(s: EditState)
    requires StateValid(s) && s.mode == Edit && s.column == 0 && s.columnMax == 0
    requires s.line >= 2 && s.line == |s.lines| - 1 && s.lines[s.line] == "" && s.lines[s.line - 1] == ""
    ensures |KeyBSState(s).lines| == |s.lines| - 1
    ensures KeyBSState(s).line == s.line - 2 && KeyBSState(s).column == 0
  {
    var lines := MergeUp(s.lines, s.line);
    assert lines[s.line - 1] == "";
    SettleAtBufferEnd(lines, 0);
  }

  /** keyBS inside a line followed by undo gives back the lines, the cursor and the log. */
  lemma KeyBSInLineThenUndo(s: EditState)
    requires StateValid(s) && s.mode == Edit && 0 < s.column <= |s.lines[s.line]|
    ensures var t := KeyBSState(s);
      t.lines == s.lines[s.line := Backspace(s.lines[s.line], s.column)] && t.column == s.column - 1
    ensures Undoable(KeyBSState(s))
    ensures var u := UndoState(KeyBSState(s));
      u.lines == s.lines && u.line == s.line && u.column == s.column && u.log == s.log
  {
    var t := KeyBSState(s);
    UndoRestoresLine(s.lines, s.line, t.lines[s.line], s.column);
    assert t.log[..|t.log| - 1] == s.log;
  }

  /** keyEnter once in EDIT mode (lines 691-719), with the viewport fields screenMemSave reads. */
  function KeyEnterState(s: EditState, last: int, rows: nat, height: int): (t: EditState)
    requires StateValid(s)
    ensures StateValid(t)
    ensures t.lines == SplitLine(s.lines, s.line, s.column)
    ensures t.log == s.log + [DoData(s.line, s.column, [s.lines[s.line]], 2)]
  {
    var i := s.line;
    var line := s.lines[i];
    var p1 := IndentOf(line);
    var lines := SplitLine(s.lines, i, s.column);
    PushWellFormed(s.log, DoData(i, s.column, [line], 2));
    var split := s.(lines := lines, column := |p1|, columnMax := |p1|,
                    firstLine := ScrolledFirstLine(s.firstLine, i, last, |lines|, rows, height),
                    log := s.log + [DoData(i, s.column, [line], 2)]);
    VerticalState(split, DownTarget(split))
  }

  /**
   * keyEnter grows the buffer by exactly one line, made of the head before the
   * cursor and the indent followed by the tail, and undo gives back the lines,
   * the cursor and the log.
   */
  lemma KeyEnterThenUndo(s: EditState, last: int, rows: nat, height: int)
    requires StateValid(s)
    ensures var t := KeyEnterState(s, last, rows, height);
      |t.lines| == |s.lines| + 1 &&
      t.lines[s.line] + ScrSubstrFrom(t.lines[s.line + 1], |IndentOf(s.lines[s.line])|) == s.lines[s.line]
    ensures Undoable(KeyEnterState(s, last, rows, height))
    ensures var u := UndoState(KeyEnterState(s, last, rows, height));
      u.lines == s.lines && u.line == s.line && u.column == s.column && u.log == s.log
  {
    UndoSplitLine(s.lines, s.line, s.column);
    var t := KeyEnterState(s, last, rows, height);
    assert t.log[..|t.log| - 1] == s.log;
  }

  /** The block edits keyTab and keyUntab may run: in a selection mode the selection lies in the buffer. */
  predicate BlockReady(s: EditState)
  {
    StateValid(s) && (s.mode != Edit ==> Sorted(s.sel).y2 < |s.lines|)
  }

  /** keyTab (lines 522-541); in EDIT mode it types a tab through inputData. */
  function KeyTabState(s: EditState, insert: bool): (t: EditState)
    requires BlockReady(s)
    ensures StateValid(t)
  {
    if s.mode != Edit then
      var r := Sorted(s.sel);
      PushWellFormed(s.log, DoData(r.y1, 0, s.lines[r.y1..r.y2 + 1], -1));
      s.(sel := r, lines := IndentLines(s.lines, r.y1, r.y2),
         log := s.log + [DoData(r.y1, 0, s.lines[r.y1..r.y2 + 1], -1)])
    else InputDataState(s, "\t", insert)
  }

  /** keyUntab (lines 543-565); in EDIT mode it strips the cursor's line and pushes no record. */
  function KeyUntabState(s: EditState): (t: EditState)
    requires BlockReady(s)
    ensures StateValid(t)
  {
    if s.mode != Edit then
      var r := Sorted(s.sel);
      PushWellFormed(s.log, DoData(r.y1, 0, s.lines[r.y1..r.y2 + 1], -1));
      s.(sel := r, lines := UnindentLines(s.lines, r.y1, r.y2),
         log := s.log + [DoData(r.y1, 0, s.lines[r.y1..r.y2 + 1], -1)])
    else s.(lines := s.lines[s.line := StripTab(s.lines[s.line])])
  }

  /**
   * keyTab on a selection puts a tab in front of exactly the lines y1..y2 and
   * pushes one block record; undo overwrites them back, keeping the length and
   * the cursor line (the column goes to 0, the record's column).
   */
  lemma KeyTabThenUndo(s: EditState, insert: bool)
    requires BlockReady(s) && s.mode != Edit
    ensures var r := Sorted(s.sel); var t := KeyTabState(s, insert);
      |t.lines| == |s.lines| &&
      (forall k :: 0 <= k < |s.lines| ==> t.lines[k] == if r.y1 <= k <= r.y2 then "\t" + s.lines[k] else s.lines[k]) &&
      t.log == s.log + [DoData(r.y1, 0, s.lines[r.y1..r.y2 + 1], -1)]
    ensures Undoable(KeyTabState(s, insert))
    ensures var u := UndoState(KeyTabState(s, insert));
      u.lines == s.lines && u.line == s.line && u.column == 0 && u.log == s.log
  {
    var r := Sorted(s.sel);
    var t := KeyTabState(s, insert);
    UndoOverwrite(s.lines, t.lines, r.y1, r.y2);
    assert t.log[..|t.log| - 1] == s.log;
  }

  /** keyUntab on a selection followed by undo gives back the lines and the log. */
  lemma KeyUntabThenUndo(s: EditState)
    requires BlockReady(s) && s.mode != Edit
    ensures Undoable(KeyUntabState(s))
    ensures var u := UndoState(KeyUntabState(s));
      u.lines == s.lines && u.line == s.line && u.log == s.log
  {
    var r := Sorted(s.sel);
    var t := KeyUntabState(s);
    UndoOverwrite(s.lines, t.lines, r.y1, r.y2);
    assert t.log[..|t.log| - 1] == s.log;
  }

  /** keyUntab on a selection takes back keyTab on the same selection. */
  lemma UntabAfterTab(s: EditState, insert: bool)
    requires BlockReady(s) && s.mode != Edit
    ensures BlockReady(KeyTabState(s, insert))
    ensures KeyUntabState(KeyTabState(s, insert)).lines == s.lines
  {
    var r := Sorted(s.sel);
    SortedIdempotent(s.sel);
    UnindentAfterIndent(s.lines, r.y1, r.y2);
  }

  /** The text part of paste in edit mode (lines 833-863): the lines, the cursor and the one record it pushes. */
  function PasteText(s: EditState, clips: seq<string>): (u: EditState)
    requires StateValid(s)
    ensures StateValid(u) && u.mode == s.mode && u.firstLine == s.firstLine
    ensures u.log == s.log + [DoData(s.line, s.column, [s.lines[s.line]], if |clips| == 1 then 0 else |clips|)]
  {
    var i := s.line;
    var c := s.column;
    var str := s.lines[i];
    var n := |clips|;
    PushWellFormed(s.log, DoData(i, c, [str], if n == 1 then 0 else n));
    if n == 1 then
      s.(lines := s.lines[i := InsertText(str, c, clips[0], true)], column := c + Width(clips[0]),
         log := s.log + [DoData(i, c, [str], 0)])
    else if n == 0 then
      s.(log := s.log + [DoData(i, c, [str], 0)])
    else
      s.(lines := PasteLines(s.lines, i, c, clips), line := i + n - 1,
         column := Width(clips[n - 1] + ScrSubstrFrom(str, c)),
         log := s.log + [DoData(i, c, [str], n)])
  }

  /** paste in edit mode (lines 831-869): the text part, then the scroll when the cursor left the view. */
  function PasteState(s: EditState, clips: seq<string>, last: int, rows: nat, height: int): (t: EditState)
    requires StateValid(s)
    ensures StateValid(t) && t.mode == Edit
  {
    var u := PasteText(s, clips);
    u.(firstLine := if u.line > last then ScrolledFirstLine(u.firstLine, u.line, last, |u.lines|, rows, height)
                    else u.firstLine,
       columnMax := u.column, mode := Edit)
  }

  /**
   * paste of n >= 2 lines grows the buffer by n-1, moves the cursor down n-1
   * lines and pushes one record of delSize n; undo removes the inserted lines
   * and gives back the lines, the cursor and the log.
   */
  lemma PasteLinesThenUndo(s: EditState, clips: seq<string>, last: int, rows: nat, height: int)
    requires StateValid(s) && |clips| >= 2
    ensures var t := PasteState(s, clips, last, rows, height);
      |t.lines| == |s.lines| + |clips| - 1 && t.line == s.line + |clips| - 1 &&
      t.log == s.log + [DoData(s.line, s.column, [s.lines[s.line]], |clips|)]
    ensures Undoable(PasteState(s, clips, last, rows, height))
    ensures var u := UndoState(PasteState(s, clips, last, rows, height));
      u.lines == s.lines && u.line == s.line && u.column == s.column && u.log == s.log
  {
    UndoPasteLines(s.lines, s.line, s.column, clips);
    var t := PasteState(s, clips, last, rows, height);
    assert t.log[..|t.log| - 1] == s.log;
  }

  /** paste of a single line inserts it at the cursor; undo gives back the lines, the cursor and the log. */
  lemma PasteOneThenUndo(s: EditState, clip: string, last: int, rows: nat, height: int)
    requires StateValid(s)
    ensures var t := PasteState(s, [clip], last, rows, height);
      t.lines == s.lines[s.line := InsertText(s.lines[s.line], s.column, clip, true)] &&
      t.column == s.column + |clip|
    ensures Undoable(PasteState(s, [clip], last, rows, height))
    ensures var u := UndoState(PasteState(s, [clip], last, rows, height));
      u.lines == s.lines && u.line == s.line && u.column == s.column && u.log == s.log
  {
    var t := PasteState(s, [clip], last, rows, height);
    UndoRestoresLine(s.lines, s.line, t.lines[s.line], s.column);
    assert t.log[..|t.log| - 1] == s.log;
  }

  // ------------------------------------------------------------ undo

  /** undo (lines 872-931): apply the last record, put the cursor back, pop the record. */
  function UndoState(s: EditState): (t: EditState)
    requires Undoable(s)
    ensures StateValid(t)
    ensures s.log == [] ==> t == s
    ensures s.log != [] ==> t.log == s.log[..|s.log| - 1] && t.lines == UndoBuffers(s.lines, Top(s.log))
  {
    if s.log == [] then s
    else
      var d := Top(s.log);
      var l := UndoLine(d, s.line);
      UndoLineInside(s.lines, d, s.line);
      assert LogWellFormed(s.log[..|s.log| - 1]) by {
        forall e | e in s.log[..|s.log| - 1] ensures WellFormed(e) {
          assert e in s.log;
        }
      }
      s.(lines := UndoBuffers(s.lines, d), line := l, column := d.column, columnMax := d.column,
         firstLine := if d.delSize != -1 && l < s.firstLine then l else s.firstLine,
         log := s.log[..|s.log| - 1])
  }
}
