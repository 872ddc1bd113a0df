/**
 * The editor as an object: the fields of the abstract class Editor that the
 * key handlers change in place, and the handlers as methods. Each handler is
 * proved to leave the fields in the state the matching function of
 * EditorState gives, so the round trips proved there hold of the object.
 */
module EditorCore {
  import opened TextMetrics
  import opened LineArray
  import opened Selection
  import opened UndoLog
  import opened Edits
  import opened EditorState
  import opened FileText
  import opened Find

  /** STATE_CLIPBOARD: whether the clipboard lines were copied or cut. */
  datatype ClipState = ClipCopy | ClipCut

  /** The process-wide clipboard, held by the editor as a value: the lines and how they got there. */
  datatype Clipboard = Clipboard(texts: seq<string>, state: ClipState)

  /** The scan keyHome and keyEnter share: the index of the first character that is not a space or a tab, else 0. */
  method ScanNonBlank(line: string) returns (ne: nat)
    ensures ne == FirstNonBlank(line)
  {
    ne := 0;
    var n := 0;
    while n < |line|
      invariant 0 <= n <= |line|
      invariant ne == 0
      invariant forall k :: 0 <= k < n ==> IsBlank(line[k])
    {
      if line[n] != ' ' && line[n] != '\t' {
        ne := n;
        break;
      }
      n := n + 1;
    }
  }

  /** The lines copy and cut collect from an ordered selection inside the buffer (lines 766-783 and 800-817). */
  method CollectSelected(lines: seq<string>, r: Rect) returns (texts: seq<string>)
    requires InOrder(r) && r.y2 < |lines|
    ensures texts == SelectedTexts(lines, r)
  {
    if r.y1 == r.y2 {
      texts := [ScrSubstr(lines[r.y1], r.x1, r.x2 - r.x1)];
    } else {
      texts := [];
      var y := r.y1;
      while y <= r.y2
        invariant r.y1 <= y <= r.y2 + 1
        invariant |texts| == y - r.y1
        invariant forall k :: 0 <= k < |texts| ==> texts[k] == CopiedLine(lines, r, r.y1 + k)
      {
        var str := "";
        if y == r.y1 {
          str := ScrSubstrFrom(lines[y], r.x1);
        } else if y == r.y2 {
          str := ScrSubstr(lines[y], 0, r.x2);
        } else {
          str := lines[y];
        }
        texts := texts + [str];
        y := y + 1;
      }
    }
  }

  /** The lines of a multi-line paste after `y` steps of its loop (lines 848-860). */
  ghost function PastedSoFar(b0: seq<string>, i: nat, clips: seq<string>, tail: string, y: nat): seq<string>
    requires i < |b0| && 2 <= |clips| && y <= |clips|
  {
    if y == 0 then b0
    else
      b0[..i] + [b0[i] + clips[0]] + clips[1..Min(y, |clips| - 1)]
      + (if y == |clips| then [clips[|clips| - 1] + tail] else []) + b0[i + 1..]
  }

  /** The first step of the paste loop appends the first clip to the cursor's line. */
  lemma PasteFirstStep(b0: seq<string>, i: nat, clips: seq<string>, tail: string)
    requires i < |b0| && 2 <= |clips|
    ensures b0[i := b0[i] + clips[0]] == PastedSoFar(b0, i, clips, tail, 1)
  {
    assert clips[1..1] == [];
  }

  /** A middle step of the paste loop inserts clip y as line i + y. */
  lemma PasteMiddleStep(b0: seq<string>, i: nat, clips: seq<string>, tail: string, y: nat)
    requires i < |b0| && 1 <= y < |clips| - 1
    ensures InsertAt(PastedSoFar(b0, i, clips, tail, y), i + y, clips[y]) == PastedSoFar(b0, i, clips, tail, y + 1)
  {
    var p := PastedSoFar(b0, i, clips, tail, y);
    assert p[..i + y] == b0[..i] + [b0[i] + clips[0]] + clips[1..y];
    assert p[i + y..] == b0[i + 1..];
    assert clips[1..y + 1] == clips[1..y] + [clips[y]];
  }

  /** The last step of the paste loop inserts the last clip followed by the tail as line i + n - 1. */
  lemma PasteLastStep(b0: seq<string>, i: nat, clips: seq<string>, tail: string)
    requires i < |b0| && 2 <= |clips|
    ensures var y := |clips| - 1;
      InsertAt(PastedSoFar(b0, i, clips, tail, y), i + y, clips[y] + tail) == PastedSoFar(b0, i, clips, tail, y + 1)
  {
    var y := |clips| - 1;
    var p := PastedSoFar(b0, i, clips, tail, y);
    assert p[..i + y] == b0[..i] + [b0[i] + clips[0]] + clips[1..y];
    assert p[i + y..] == b0[i + 1..];
  }

  /** The first step of selectedDel's multi-line loop puts the joined line in place of line y1. */
  lemma JoinedLineFirst(b0: seq<string>, y1: nat, str: string)
    requires y1 < |b0|
    ensures b0[y1 := str] == b0[..y1] + [str] + b0[y1 + 1..]
  {
  }

  /**
   * One later step of selectedDel's multi-line loop: with line y1 already
   * joined, the line after it is b0[y], and removing it moves on to y + 1.
   */
  lemma JoinedLineStep(b0: seq<string>, y1: nat, str: string, y: nat)
    requires y1 < y < |b0|
    ensures (b0[..y1] + [str] + b0[y..])[y1 + 1] == b0[y]
    ensures RemoveAt(b0[..y1] + [str] + b0[y..], y1 + 1) == b0[..y1] + [str] + b0[y + 1..]
  {
    RemoveAfter(b0[..y1] + [str], b0[y..]);
    assert b0[y..][1..] == b0[y + 1..];
  }

  /** Where a findNext pass starts: the cursor's line in EDIT mode, else the line of the last match. */
  function SearchStart(mode: EditMode, curLine: nat, indexFindPosY: nat): nat
  {
    if mode == Edit then curLine else indexFindPosY
  }

  class Editor {
    /** The line array. */
    var buffers: seq<string>
    /** The cursor: line, column, and the column kept while moving up and down. */
    var curLine: nat
    var curColumn: nat
    var curColumnMax: nat
    /** The first and last line shown in the view. */
    var firstLine: int
    var lastLine: int
    /** The height of the view in lines (the field `line`). */
    var viewHeight: int
    /** The number of rows of the view buffer (viewBuffers.length). */
    var viewRows: nat
    var isInsert: bool
    var isReadOnly: bool
    var isDosMode: bool
    var editMode: EditMode
    var editSelect: Rect
    /** The undo log, a stack whose top is its last element. */
    var doInfo: seq<DoData>
    var clipboard: Clipboard
    var findStr: string
    var indexFindPosX: int
    var indexFindPosY: nat

    /** The fields the key handlers change, as one value. */
    ghost function State(): EditState
      reads this
    {
      EditState(buffers, curLine, curColumn, curColumnMax, firstLine, doInfo, editSelect, editMode)
    }

    /** A loaded buffer: at least one line, the cursor on one of them, an undo log undo can read. */
    ghost predicate Valid()
      reads this
    {
      StateValid(State())
    }

    /**
     * The view as screenMemSave leaves it: first and last visible line inside
     * the buffer, in order, and the cursor not above the first one.
     */
    ghost predicate ViewportSettled()
      reads this
    {
      0 <= firstLine <= lastLine < |buffers| && firstLine <= curLine
    }

    /** The field initialisers of the class; the line array and undo log start empty. */
    constructor ()
      ensures buffers == [] && doInfo == []
      ensures curLine == 0 && curColumn == 0 && curColumnMax == 0
      ensures firstLine == 0 && lastLine == 0 && viewHeight == 0 && viewRows == 0
      ensures !isInsert && !isReadOnly && !isDosMode
      ensures editMode == Edit && editSelect == Rect(0, 0, 0, 0)
      ensures clipboard == Clipboard([], ClipCopy)
      ensures findStr == "" && indexFindPosX == 0 && indexFindPosY == 0
    {
      buffers := [];
      curLine := 0;
      curColumn := 0;
      curColumnMax := 0;
      firstLine := 0;
      lastLine := 0;
      viewHeight := 0;
      viewRows := 0;
      isInsert := false;
      isReadOnly := false;
      isDosMode := false;
      editMode := Edit;
      editSelect := Rect(0, 0, 0, 0);
      doInfo := [];
      clipboard := Clipboard([], ClipCopy);
      findStr := "";
      indexFindPosX := 0;
      indexFindPosY := 0;
    }

    // ---------------------------------------------------------------- cursor keys

    /** keyPressCommon: the selection end and curColumnMax follow the cursor; a shifted selection ends. */
    method KeyPressCommon()
      modifies this`editSelect, this`curColumnMax, this`editMode
      ensures State() == Moved(old(State()), (curLine, curColumn))
    {
      editSelect := editSelect.(x2 := curColumn, y2 := curLine);
      curColumnMax := curColumn;
      if editMode == ShiftSelect {
        editMode := Edit;
      }
    }

    method KeyLeft()
      requires curLine < |buffers|
      modifies this`curLine, this`curColumn, this`editSelect, this`curColumnMax, this`editMode
      ensures curLine < |buffers|
      ensures State() == Moved(old(State()), LeftOf(buffers, old(curLine), old(curColumn)))
    {
      if curColumn > 0 {
        var text := ScrSubstr(buffers[curLine], 0, curColumn);
        curColumn := Width(ScrSubstr(text, 0, |text| - 1));
      } else if curLine > 0 {
        curLine := curLine - 1;
        curColumn := Width(buffers[curLine]);
      }
      KeyPressCommon();
    }

    method KeyRight()
      requires curLine < |buffers|
      modifies this`curLine, this`curColumn, this`editSelect, this`curColumnMax, this`editMode
      ensures curLine < |buffers|
      ensures State() == Moved(old(State()), RightOf(buffers, old(curLine), old(curColumn)))
    {
      var str := buffers[curLine];
      var strlen := Width(str);
      if strlen > curColumn {
        var text := ScrSubstr(buffers[curLine], curColumn, Width("\t"));
        if text != "" {
          curColumn := curColumn + Width(ScrSubstr(text, 0, 1));
        }
      } else if strlen == curColumn && curLine != |buffers| - 1 {
        curLine := curLine + 1;
        curColumn := 0;
      }
      KeyPressCommon();
    }

    /**
     * The tail keyUp and keyDown share once the target line is chosen (lines
     * 374-388 and 396-410): the cursor takes the larger of its column and
     * curColumnMax, clamped to the end of the line, else is settled by a
     * keyRight followed by a keyLeft.
     */
    method SettleOnLine()
      requires curLine < |buffers|
      modifies this`curLine, this`curColumn, this`editSelect, this`curColumnMax, this`editMode
      ensures curLine < |buffers|
      ensures State() == VerticalState(old(State()), old(curLine))
    {
      if curColumnMax < curColumn {
        curColumnMax := curColumn;
      } else {
        curColumn := curColumnMax;
      }
      var strlen := Width(buffers[curLine]);
      if strlen < curColumn {
        curColumn := strlen;
      } else {
        KeyRight();
        KeyLeft();
      }
      editSelect := editSelect.(x2 := curColumn, y2 := curLine);
      if editMode == ShiftSelect {
        editMode := Edit;
      }
    }

    /**
     * keyUp. The cursor may sit one line past the end of the buffer, as keyBS
     * leaves it after joining the last line to the one above.
     */
    method KeyUp()
      requires 1 <= |buffers| && curLine <= |buffers|
      modifies this`curLine, this`curColumn, this`editSelect, this`curColumnMax, this`editMode
      ensures curLine < |buffers|
      ensures State() == VerticalState(old(State()), UpTarget(old(State())))
    {
      if curLine > 0 {
        curLine := curLine - 1;
      }
      SettleOnLine();
    }

    method KeyDown()
      requires curLine < |buffers|
      modifies this`curLine, this`curColumn, this`editSelect, this`curColumnMax, this`editMode
      ensures curLine < |buffers|
      ensures State() == VerticalState(old(State()), DownTarget(old(State())))
    {
      if curLine < |buffers| - 1 {
        curLine := curLine + 1;
      }
      SettleOnLine();
    }

    method KeyHome()
      requires curLine < |buffers|
      modifies this`curColumn, this`editSelect, this`curColumnMax, this`editMode
      ensures State() == Moved(old(State()), (curLine, HomeColumn(buffers[curLine], old(curColumn))))
    {
      var line := buffers[curLine];
      var ne := ScanNonBlank(line);
      var was := curColumn;
      curColumn := if was == ne then 0 else Width(ScrSubstr(line, 0, ne));
      KeyPressCommon();
    }

    method KeyEnd()
      requires curLine < |buffers|
      modifies this`curColumn, this`editSelect, this`curColumnMax, this`editMode
      ensures State() == Moved(old(State()), (curLine, |buffers[curLine]|))
    {
      if buffers[curLine] != "" {
        curColumn := Width(buffers[curLine]);
      } else {
        curColumn := 0;
      }
      KeyPressCommon();
    }

    /**
     * The second half of keyPgUp and keyPgDn (lines 629-643 and 666-680): the
     * cursor takes the larger of its column and curColumnMax, clamped to the
     * end of its new line, and the selection end follows it.
     */
    method PageColumn()
      requires curLine < |buffers|
      modifies this`curColumn, this`curColumnMax, this`editSelect, this`editMode
      ensures curColumnMax == Max(old(curColumn), old(curColumnMax))
      ensures curColumn == Min(curColumnMax, |buffers[curLine]|)
      ensures editSelect == old(editSelect).(x2 := curColumn, y2 := curLine)
      ensures editMode == AfterKeyPress(old(editMode))
    {
      if curColumnMax < curColumn {
        curColumnMax := curColumn;
      } else {
        curColumn := curColumnMax;
      }
      var strlen := Width(buffers[curLine]);
      if strlen < curColumn {
        curColumn := strlen;
      }
      editSelect := editSelect.(x2 := curColumn, y2 := curLine);
      if editMode == ShiftSelect {
        editMode := Edit;
      }
    }

    /**
     * The first half of keyPgUp (lines 617-627): the view moves up by its size
     * (lastLine - firstLine) and the cursor keeps its place in the view; at the
     * top the cursor goes to line 0.
     */
    method PageUpLines()
      requires ViewportSettled() && curLine < |buffers|
      modifies this`firstLine, this`curLine
      ensures ViewportSettled() && curLine < |buffers|
      ensures old(firstLine) == 0 ==> firstLine == 0 && curLine == 0
      ensures old(firstLine) != 0 ==>
        firstLine == Max(old(firstLine) - (old(lastLine) - old(firstLine)), 0) &&
        curLine == firstLine + old(curLine) - old(firstLine)
      ensures curLine <= old(curLine)
    {
      var size := lastLine - firstLine;
      var cur := curLine - firstLine;
      if firstLine == 0 {
        curLine := 0;
      } else {
        firstLine := firstLine - size;
        if firstLine < 0 {
          firstLine := 0;
        }
        var l := firstLine + cur;
        if l <= 0 {
          l := 0;
        }
        curLine := l;
      }
    }

    method KeyPgUp()
      requires Valid() && ViewportSettled()
      modifies this`firstLine, this`curLine, this`curColumn, this`curColumnMax, this`editSelect, this`editMode
      ensures Valid() && ViewportSettled()
      ensures old(firstLine) == 0 ==> firstLine == 0 && curLine == 0
      ensures old(firstLine) != 0 ==>
        firstLine == Max(old(firstLine) - (old(lastLine) - old(firstLine)), 0) &&
        curLine == firstLine + old(curLine) - old(firstLine)
      ensures curLine <= old(curLine)
      ensures curColumnMax == Max(old(curColumn), old(curColumnMax))
      ensures curColumn == Min(curColumnMax, |buffers[curLine]|)
      ensures editSelect == old(editSelect).(x2 := curColumn, y2 := curLine)
      ensures editMode == AfterKeyPress(old(editMode))
    {
      PageUpLines();
      PageColumn();
    }

    /**
     * The first half of keyPgDn (lines 647-664): the view moves down by its
     * size, no further than the view height allows, and the cursor keeps its
     * place in it; when the buffer is shorter than the view, or the view is
     * already past the bottom, the cursor goes to the last line.
     */
    method PageDownLines()
      requires ViewportSettled() && curLine < |buffers|
      modifies this`firstLine, this`curLine
      ensures ViewportSettled() && curLine < |buffers|
      ensures |buffers| < viewHeight - 1 || old(firstLine) > |buffers| - viewHeight + 1 ==>
        curLine == |buffers| - 1 && firstLine == old(firstLine)
      ensures !(|buffers| < viewHeight - 1 || old(firstLine) > |buffers| - viewHeight + 1) ==>
        firstLine == Min(old(lastLine), |buffers| - viewHeight + 1) &&
        curLine == Min(old(lastLine) + old(curLine) - old(firstLine), |buffers| - 1)
      ensures curLine >= old(curLine)
    {
      var size := lastLine - firstLine;
      var cur := curLine - firstLine;
      if |buffers| < viewHeight - 1 {
        curLine := |buffers| - 1;
      } else if firstLine > |buffers| - viewHeight + 1 {
        curLine := |buffers| - 1;
      } else {
        var l := firstLine + size + cur;
        firstLine := l - cur;
        if firstLine > |buffers| - viewHeight + 1 {
          firstLine := |buffers| - viewHeight + 1;
        }
        if |buffers| <= l {
          l := |buffers| - 1;
        }
        curLine := l;
      }
    }

    method KeyPgDn()
      requires Valid() && ViewportSettled()
      modifies this`firstLine, this`curLine, this`curColumn, this`curColumnMax, this`editSelect, this`editMode
      ensures Valid() && ViewportSettled()
      ensures |buffers| < viewHeight - 1 || old(firstLine) > |buffers| - viewHeight + 1 ==>
        curLine == |buffers| - 1 && firstLine == old(firstLine)
      ensures !(|buffers| < viewHeight - 1 || old(firstLine) > |buffers| - viewHeight + 1) ==>
        firstLine == Min(old(lastLine), |buffers| - viewHeight + 1) &&
        curLine == Min(old(lastLine) + old(curLine) - old(firstLine), |buffers| - 1)
      ensures curLine >= old(curLine)
      ensures curColumnMax == Max(old(curColumn), old(curColumnMax))
      ensures curColumn == Min(curColumnMax, |buffers[curLine]|)
      ensures editSelect == old(editSelect).(x2 := curColumn, y2 := curLine)
      ensures editMode == AfterKeyPress(old(editMode))
    {
      PageDownLines();
      PageColumn();
    }

    /** shiftMode with the arrow key the shifted key stands for (keyShiftLeft and the others). */
    method ShiftMode(arrow: Arrow)
      requires Valid()
      modifies this`curLine, this`curColumn, this`curColumnMax, this`editSelect, this`editMode
      ensures Valid()
      ensures State() == ShiftState(old(State()), arrow)
    {
      if editMode != ShiftSelect {
        editSelect := editSelect.(x1 := curColumn, y1 := curLine);
      }
      match arrow {
        case Left => KeyLeft();
        case Right => KeyRight();
        case Up => KeyUp();
        case Down => KeyDown();
      }
      editMode := EditMode.Select;
    }

    // ---------------------------------------------------------------- selection

    method SelectSort()
      modifies this`editSelect
      ensures editSelect == Sorted(old(editSelect))
    {
      if editSelect.y1 > editSelect.y2 {
        editSelect := Rect(editSelect.x2, editSelect.y2, editSelect.x1, editSelect.y1);
      } else if editSelect.y1 == editSelect.y2 {
        if editSelect.x1 > editSelect.x2 {
          editSelect := Rect(editSelect.x2, editSelect.y2, editSelect.x1, editSelect.y1);
        }
      }
    }

    /**
     * The multi-line branch of selectedDel (lines 135-162): the first selected
     * line becomes its head joined to the tail of the last one, and the lines
     * after it up to y2 - 1 go; returns the lines y1 .. y2-1 as they were.
     */
    method DeleteSelectedLines(r: Rect) returns (saveTexts: seq<string>)
      requires InOrder(r) && r.y1 < r.y2 < |buffers|
      modifies this`buffers
      ensures buffers == DeleteSelection(old(buffers), r)
      ensures saveTexts == old(buffers)[r.y1..r.y2]
    {
      var str1 := buffers[r.y1];
      var str2 := buffers[r.y2];
      var str3 := ScrSubstr(str1, 0, r.x1);
      var str4 := ScrSubstrFrom(str2, r.x2);
      var str := str3 + str4;
      saveTexts := CollapseLines(r.y1, r.y2, str);
    }

    /**
     * The loop of selectedDel's multi-line branch (lines 144-158): line y1
     * becomes `str` and the lines y1+1 .. y2-1 are spliced out one at a time;
     * the lines y1 .. y2-1 as they were are returned.
     */
    method CollapseLines(y1: nat, y2: nat, str: string) returns (saveTexts: seq<string>)
      requires y1 < y2 < |buffers|
      modifies this`buffers
      ensures buffers == old(buffers)[..y1] + [str] + old(buffers)[y2..]
      ensures saveTexts == old(buffers)[y1..y2]
    {
      saveTexts := [];
      ghost var b0 := buffers;
      var lines := buffers;
      var y := y1;
      while y < y2
        invariant y1 <= y <= y2
        invariant saveTexts == b0[y1..y]
        invariant y == y1 ==> lines == b0
        invariant y > y1 ==> lines == b0[..y1] + [str] + b0[y..]
      {
        assert b0[y1..y + 1] == b0[y1..y] + [b0[y]];
        if y == y1 {
          JoinedLineFirst(b0, y1, str);
          saveTexts := saveTexts + [lines[y1]];
          lines := lines[y1 := str];
        } else if y == y2 {
          // the loop stops before y2, so this branch (lines 148-151) never runs
          assert false;
        } else {
          JoinedLineStep(b0, y1, str, y);
          saveTexts := saveTexts + [lines[y1 + 1]];
          lines := RemoveAt(lines, y1 + 1);
        }
        y := y + 1;
      }
      buffers := lines;
    }

    /** doInfo.push: a record of a shape undo knows goes on top of the log. */
    method PushUndo(d: DoData)
      requires WellFormed(d) && LogWellFormed(doInfo)
      modifies this`doInfo
      ensures doInfo == old(doInfo) + [d] && Top(doInfo) == d
      ensures LogWellFormed(doInfo)
    {
      PushWellFormed(doInfo, d);
      doInfo := doInfo + [d];
    }

    /** The single-line branch of selectedDel (lines 132-134): the columns x1 .. x2 of line y1 go. */
    method DeleteWithinLine(r: Rect)
      requires InOrder(r) && r.y1 == r.y2 < |buffers|
      modifies this`buffers
      ensures buffers == DeleteSelection(old(buffers), r)
    {
      var str := buffers[r.y1];
      var str1 := ScrSubstr(str, 0, r.x1);
      var str2 := ScrSubstr(str, r.x2, Width(str) - r.x2);
      buffers := buffers[r.y1 := str1 + str2];
    }

    /** The deleting part of selectedDel (lines 127-162): the record goes on the log and the sorted selection r leaves the lines. */
    method RemoveSelection(r: Rect)
      requires InOrder(r) && r.y2 < |buffers| && LogWellFormed(doInfo)
      modifies this`buffers, this`doInfo
      ensures buffers == DeleteSelection(old(buffers), r)
      ensures doInfo == old(doInfo) + [DelRecord(old(buffers), r, curLine, curColumn)]
      ensures LogWellFormed(doInfo)
    {
      if r.y1 == r.y2 {
        var str := buffers[r.y1];
        PushUndo(DoData(curLine, curColumn, [str], 0));
        DeleteWithinLine(r);
      } else {
        var saveTexts := DeleteSelectedLines(r);
        PushUndo(DoData(r.y1, r.x1, saveTexts, 0));
      }
    }

    method SelectedDel()
      requires Valid()
      modifies this`buffers, this`doInfo, this`curLine, this`curColumn, this`curColumnMax,
               this`firstLine, this`editSelect, this`editMode
      ensures Valid()
      ensures isReadOnly ==> State() == old(State())
      ensures !isReadOnly ==> State() == SelectedDelState(old(State()))
    {
      if isReadOnly {
        return;
      }
      DeleteSelected();
    }

    /** selectedDel past its read-only test (lines 120-173). */
    method DeleteSelected()
      requires Valid()
      modifies this`buffers, this`doInfo, this`curLine, this`curColumn, this`curColumnMax,
               this`firstLine, this`editSelect, this`editMode
      ensures Valid()
      ensures State() == SelectedDelState(old(State()))
    {
      SelectSort();
      if editSelect.y2 >= |buffers| {
        editMode := Edit;
        return;
      }
      RemoveSelection(editSelect);
      curLine := editSelect.y1;
      curColumn := editSelect.x1;
      curColumnMax := curColumn;
      if curLine < firstLine {
        firstLine := curLine - 10;
      }
      editMode := Edit;
      if |buffers| == 0 {
        // the buffer keeps at least one line, so the push at line 172 never runs
        assert false;
      }
    }

    /** The selection step the editing handlers take first: in a selection mode the selection is deleted. */
    method LeaveSelection()
      requires Valid() && !isReadOnly
      modifies this`buffers, this`doInfo, this`curLine, this`curColumn, this`curColumnMax,
               this`firstLine, this`editSelect, this`editMode
      ensures Valid()
      ensures State() == Prelude(old(State()))
    {
      if editMode != Edit {
        SelectedDel();
        editMode := Edit;
      }
    }

    /** select: toggle SELECT and anchor an empty selection at the cursor. */
    method Select()
      modifies this`editMode, this`editSelect
      ensures editMode == if old(editMode) == EditMode.Select then Edit else EditMode.Select
      ensures editSelect == Rect(curColumn, curLine, curColumn, curLine)
    {
      if editMode == EditMode.Select {
        editMode := Edit;
      } else {
        editMode := EditMode.Select;
      }
      editSelect := Rect(curColumn, curLine, curColumn, curLine);
    }

    /** selectAll: the selection from the start of the buffer to the end of its last line. */
    method SelectAll()
      requires |buffers| >= 1
      modifies this`editMode, this`editSelect
      ensures editMode == ShiftSelect
      ensures editSelect == WholeBuffer(buffers)
    {
      editMode := ShiftSelect;
      editSelect := Rect(0, 0, Width(buffers[|buffers| - 1]), |buffers| - 1);
    }

    /** blockSelect: BLOCK mode, with an empty selection anchored at the cursor. */
    method BlockSelect()
      modifies this`editMode, this`editSelect
      ensures editMode == Block
      ensures editSelect == Rect(curColumn, curLine, curColumn, curLine)
    {
      editMode := Block;
      editSelect := editSelect.(x2 := curColumn, y2 := curLine);
      editSelect := editSelect.(x1 := curColumn, y1 := curLine);
    }

    /** keyInsert: toggle between insert and overwrite. */
    method KeyInsert()
      modifies this`isInsert
      ensures isInsert == !old(isInsert)
    {
      isInsert := !isInsert;
    }

    method KeyEscape()
      modifies this`editMode
      ensures editMode == Edit
    {
      if editMode != Edit {
        editMode := Edit;
      }
    }

    method GotoTop()
      modifies this`curLine, this`firstLine, this`editMode
      ensures curLine == 0 && firstLine == 0 && editMode == Edit
    {
      curLine := 0;
      firstLine := 0;
      editMode := Edit;
    }

    method GotoLast()
      requires |buffers| >= 1
      modifies this`curLine, this`firstLine, this`editMode
      ensures curLine == |buffers| - 1 && firstLine == curLine - 10 && editMode == Edit
    {
      curLine := |buffers| - 1;
      firstLine := curLine - 10;
      editMode := Edit;
    }

    // ---------------------------------------------------------------- edits

    /** The typing part of inputData (lines 579-591): one record, then the text goes in at the cursor. */
    method TypeInEdit(text: string)
      requires Valid()
      modifies this`buffers, this`doInfo, this`curColumn, this`curColumnMax
      ensures State() == InputDataState(old(State()), text, isInsert)
    {
      if curLine < |buffers| {
        var line := buffers[curLine];
        doInfo := doInfo + [DoData(curLine, curColumn, [line], 0)];
        if isInsert {
          line := ScrSubstr(line, 0, curColumn) + text + ScrSubstrFrom(line, curColumn);
        } else {
          line := ScrSubstr(line, 0, curColumn) + text + ScrSubstrFrom(line, curColumn + Width(text));
        }
        buffers := buffers[curLine := line];
        curColumn := curColumn + Width(text);
      }
      curColumnMax := curColumn;
    }

    method InputData(text: string)
      requires Valid()
      modifies this`buffers, this`doInfo, this`curLine, this`curColumn, this`curColumnMax,
               this`firstLine, this`editSelect, this`editMode
      ensures Valid()
      ensures isReadOnly ==> State() == old(State())
      ensures !isReadOnly ==> State() == InputDataState(Prelude(old(State())), text, isInsert)
    {
      if isReadOnly {
        return;
      }
      LeaveSelection();
      TypeInEdit(text);
    }

    method KeyDelete()
      requires Valid()
      modifies this`buffers, this`doInfo, this`curLine, this`curColumn, this`curColumnMax,
               this`firstLine, this`editSelect, this`editMode
      ensures Valid()
      ensures isReadOnly ==> State() == old(State())
      ensures !isReadOnly ==> State() == KeyDeleteState(Prelude(old(State())))
    {
      if isReadOnly {
        return;
      }
      LeaveSelection();
      DeleteInEdit();
    }

    /** keyDelete past its selection step (lines 447-469). */
    method DeleteInEdit()
      requires Valid()
      modifies this`buffers, this`doInfo, this`curColumnMax
      ensures State() == KeyDeleteState(old(State()))
    {
      var line := buffers[curLine];
      if curColumn < Width(line) {
        doInfo := doInfo + [DoData(curLine, curColumn, [line], 0)];
        var firstText := ScrSubstr(line, 0, curColumn);
        var lastText := ScrSubstrFrom(line, |firstText| + 1);
        line := firstText + lastText;
        buffers := buffers[curLine := line];
      } else if curLine + 1 < |buffers| {
        var line2 := buffers[curLine + 1];
        doInfo := doInfo + [DoData(curLine, curColumn, [line2], 0)];
        buffers := buffers[curLine := line + line2];
        buffers := RemoveAt(buffers, curLine);
      }
      curColumnMax := curColumn;
      if |buffers| == 0 {
        // the buffer keeps at least one line, so the push at line 468 never runs
        assert false;
      }
    }

    /**
     * The selection step of keyBS (lines 475-482): in a selection mode the
     * selection is deleted and the cursor goes to its start.
     */
    method BackspaceSelection()
      requires Valid() && !isReadOnly
      modifies this`buffers, this`doInfo, this`curLine, this`curColumn, this`curColumnMax,
               this`firstLine, this`editSelect, this`editMode
      ensures State() == BackspacePrelude(old(State()))
    {
      if editMode != Edit {
        SelectedDel();
        editMode := Edit;
        curLine := editSelect.y1;
        curColumn := editSelect.x1;
        curColumnMax := curColumn;
      }
    }

    /** keyBS at column 0 of a line below the first (lines 490-500): the line is joined to the one above. */
    method BackspaceJoin()
      requires |buffers| >= 1 && LogWellFormed(doInfo) && editMode == Edit
      requires 0 < curLine < |buffers| && curColumn == 0
      modifies this`buffers, this`doInfo, this`curLine, this`curColumn, this`curColumnMax,
               this`editSelect, this`editMode
      ensures State() == KeyBSState(old(State()))
    {
      var line := buffers[curLine];
      var line2 := buffers[curLine - 1];
      doInfo := doInfo + [DoData(curLine - 1, curColumn, [line2, line], 0)];
      var tmpLine2Width := Width(line2);
      buffers := buffers[curLine - 1 := line2 + line];
      buffers := RemoveAt(buffers, curLine);
      KeyUp();
      curColumn := tmpLine2Width;
      curColumnMax := curColumn;
    }

    /**
     * keyBS at a column past 0 (lines 501-517): the character before the
     * cursor goes; when the cursor is past the end of the line the line is
     * emptied and no record is pushed.
     */
    method BackspaceInLine()
      requires |buffers| >= 1 && LogWellFormed(doInfo) && editMode == Edit
      requires curLine < |buffers| && curColumn > 0
      modifies this`buffers, this`doInfo, this`curColumn, this`curColumnMax, this`editSelect
      ensures State() == KeyBSState(old(State()))
    {
      var line := buffers[curLine];
      var line2 := "";
      var strSize := Width(buffers[curLine]);
      if curColumn <= strSize {
        doInfo := doInfo + [DoData(curLine, curColumn, [line], 0)];
        var firstText := ScrSubstr(buffers[curLine], 0, curColumn);
        var lastText := ScrSubstrFrom(buffers[curLine], |firstText|);
        firstText := ScrSubstr(firstText, 0, |firstText| - 1);
        line2 := firstText + lastText;
        curColumn := Width(firstText);
      }
      buffers := buffers[curLine := line2];
      editSelect := editSelect.(x2 := curColumn, y2 := curLine);
      curColumnMax := curColumn;
    }

    /**
     * keyBS. After deleting a selection the cursor goes to the selection's
     * start even when nothing was deleted because the selection ends past the
     * buffer; the cursor can then lie past the buffer, so Valid is promised
     * only when the selection starts inside it.
     */
    method KeyBS()
      requires Valid()
      modifies this`buffers, this`doInfo, this`curLine, this`curColumn, this`curColumnMax,
               this`firstLine, this`editSelect, this`editMode
      ensures |buffers| >= 1 && LogWellFormed(doInfo)
      ensures old(editMode) == Edit || Sorted(old(editSelect)).y1 < |old(buffers)| ==> Valid()
      ensures isReadOnly ==> State() == old(State())
      ensures !isReadOnly ==> State() == KeyBSState(BackspacePrelude(old(State())))
    {
      if isReadOnly {
        return;
      }
      BackspaceSelection();
      if curLine == 0 && curColumn == 0 {
        return;
      }
      if |buffers| > curLine {
        if curColumn == 0 && |buffers| > 0 && curLine > 0 {
          BackspaceJoin();
        } else {
          BackspaceInLine();
        }
      } else {
        curColumnMax := curColumn;
      }
    }

    /** The lines y1..y2 a block record saves (lines 528-531 and 549-552). */
    method SaveBlock(y1: nat, y2: nat) returns (save: seq<string>)
      requires y1 <= y2 < |buffers|
      ensures save == buffers[y1..y2 + 1]
    {
      save := [];
      var y := y1;
      while y <= y2
        invariant y1 <= y <= y2 + 1
        invariant save == buffers[y1..y]
      {
        save := save + [buffers[y]];
        y := y + 1;
      }
    }

    /** A tab goes in front of each of the lines y1..y2 (lines 534-536). */
    method IndentBlock(y1: nat, y2: nat)
      requires y2 < |buffers|
      modifies this`buffers
      ensures buffers == IndentLines(old(buffers), y1, y2)
    {
      ghost var b0 := buffers;
      var y := y1;
      while y <= y2
        invariant y1 <= y <= y2 + 1 || y == y1
        invariant |buffers| == |b0|
        invariant forall k :: 0 <= k < |b0| ==> buffers[k] == if y1 <= k < y then "\t" + b0[k] else b0[k]
      {
        buffers := buffers[y := "\t" + buffers[y]];
        y := y + 1;
      }
    }

    /** A leading tab, where there is one, leaves each of the lines y1..y2 (lines 555-559). */
    method UnindentBlock(y1: nat, y2: nat)
      requires y2 < |buffers|
      modifies this`buffers
      ensures buffers == UnindentLines(old(buffers), y1, y2)
    {
      ghost var b0 := buffers;
      var y := y1;
      while y <= y2
        invariant y1 <= y <= y2 + 1 || y == y1
        invariant |buffers| == |b0|
        invariant forall k :: 0 <= k < |b0| ==> buffers[k] == if y1 <= k < y then StripTab(b0[k]) else b0[k]
      {
        if ScrSubstr(buffers[y], 0, 1) == "\t" {
          buffers := buffers[y := ScrSubstrFrom(buffers[y], 1)];
        }
        y := y + 1;
      }
    }

    /** keyTab: indent the selected lines (a tab in front of each), or type a tab in EDIT mode. */
    method KeyTab()
      requires BlockReady(State())
      modifies this`buffers, this`doInfo, this`curLine, this`curColumn, this`curColumnMax,
               this`firstLine, this`editSelect, this`editMode
      ensures Valid()
      ensures isReadOnly ==> State() == old(State())
      ensures !isReadOnly ==> State() == KeyTabState(old(State()), isInsert)
    {
      if isReadOnly {
        return;
      }
      if editMode != Edit {
        SelectSort();
        var r := editSelect;
        var save := SaveBlock(r.y1, r.y2);
        doInfo := doInfo + [DoData(r.y1, 0, save, -1)];
        IndentBlock(r.y1, r.y2);
      } else {
        InputData("\t");
      }
    }

    /** keyUntab: remove a leading tab from the selected lines, or from the cursor's line in EDIT mode. */
    method KeyUntab()
      requires BlockReady(State())
      modifies this`buffers, this`doInfo, this`editSelect
      ensures Valid()
      ensures isReadOnly ==> State() == old(State())
      ensures !isReadOnly ==> State() == KeyUntabState(old(State()))
    {
      if isReadOnly {
        return;
      }
      if editMode != Edit {
        SelectSort();
        var r := editSelect;
        var save := SaveBlock(r.y1, r.y2);
        doInfo := doInfo + [DoData(r.y1, 0, save, -1)];
        UnindentBlock(r.y1, r.y2);
      } else {
        if ScrSubstr(buffers[curLine], 0, 1) == "\t" {
          buffers := buffers[curLine := ScrSubstrFrom(buffers[curLine], 1)];
        }
      }
    }

    /**
     * The prologue of screenMemSave (lines 176-199): it scrolls firstLine
     * toward the cursor and returns false, since both callers reach it in EDIT
     * mode and the view is rebuilt only in SELECT mode.
     */
    method ScreenMemSave() returns (drawn: bool)
      requires Valid() && editMode != EditMode.Select
      modifies this`firstLine
      ensures !drawn
      ensures firstLine == ScrolledFirstLine(old(firstLine), curLine, lastLine, |buffers|, viewRows, viewHeight)
    {
      if curLine > 0 {
        if curLine >= |buffers| {
          // the cursor is on a line of the buffer, so the clamp at line 178 never runs
          assert false;
        }
        if curLine <= firstLine {
          firstLine := firstLine - 1;
        }
        if firstLine <= 0 {
          firstLine := 0;
        }
        if lastLine - firstLine >= 10 && lastLine - curLine <= 0 {
          if viewRows >= viewHeight {
            if firstLine <= |buffers| {
              firstLine := firstLine + 1;
            }
            if |buffers| <= viewHeight - 5 {
              firstLine := 0;
            }
          }
        }
      }
      drawn := false;
    }

    /**
     * The line split of keyEnter (lines 691-713): the record is pushed, the
     * cursor's line keeps the head before the cursor and a new line after it
     * holds the line's indent followed by the tail; returns the indent width.
     */
    method SplitAtCursor() returns (indent: nat)
      requires curLine < |buffers| && LogWellFormed(doInfo)
      modifies this`buffers, this`doInfo
      ensures indent == |IndentOf(old(buffers)[curLine])|
      ensures buffers == SplitLine(old(buffers), curLine, curColumn)
      ensures doInfo == old(doInfo) + [DoData(curLine, curColumn, [old(buffers)[curLine]], 2)]
      ensures LogWellFormed(doInfo)
    {
      var line := buffers[curLine];
      var ne := ScanNonBlank(line);
      var p1 := ScrSubstr(line, 0, ne);
      PushWellFormed(doInfo, DoData(curLine, curColumn, [line], 2));
      doInfo := doInfo + [DoData(curLine, curColumn, [line], 2)];
      if |buffers| > curLine {
        var head := ScrSubstr(line, 0, curColumn);
        var tail := p1 + ScrSubstrFrom(line, |head|);
        buffers := InsertAt(buffers, curLine, tail);
        buffers := buffers[curLine := head];
        buffers := buffers[curLine + 1 := tail];
      } else {
        // the cursor is on a line of the buffer, so the push at line 712 never runs
        assert false;
      }
      indent := |p1|;
    }

    /**
     * keyEnter. The source tests the method `indentMode` rather than the flag
     * `isIndentMode`, so the indent of the line is always carried over.
     */
    method KeyEnter()
      requires Valid()
      modifies this`buffers, this`doInfo, this`curLine, this`curColumn, this`curColumnMax,
               this`firstLine, this`editSelect, this`editMode
      ensures Valid()
      ensures isReadOnly ==> State() == old(State())
      ensures !isReadOnly ==> State() == KeyEnterState(Prelude(old(State())), lastLine, viewRows, viewHeight)
    {
      if isReadOnly {
        return;
      }
      LeaveSelection();
      EnterInEdit();
    }

    /** keyEnter once in EDIT mode (lines 691-719). */
    method EnterInEdit()
      requires Valid() && editMode == Edit
      modifies this`buffers, this`doInfo, this`curLine, this`curColumn, this`curColumnMax,
               this`firstLine, this`editSelect, this`editMode
      ensures Valid()
      ensures State() == KeyEnterState(old(State()), lastLine, viewRows, viewHeight)
    {
      ghost var s := State();
      var indent := SplitAtCursor();
      var _ := ScreenMemSave();
      curColumn := indent;
      curColumnMax := curColumn;
      assert State() == s.(lines := SplitLine(s.lines, s.line, s.column),
                           column := |IndentOf(s.lines[s.line])|, columnMax := |IndentOf(s.lines[s.line])|,
                           firstLine := ScrolledFirstLine(s.firstLine, s.line, lastLine, |buffers|, viewRows, viewHeight),
                           log := s.log + [DoData(s.line, s.column, [s.lines[s.line]], 2)]);
      KeyDown();
    }

    // ---------------------------------------------------------------- clipboard

    method Copy()
      requires Valid()
      modifies this`editSelect, this`editMode, this`clipboard, this`curColumnMax
      ensures Valid()
      ensures old(editMode) == Edit ==> State() == old(State()) && clipboard == old(clipboard)
      ensures old(editMode) != Edit && Sorted(old(editSelect)).y2 >= |buffers| ==>
        State() == old(State()).(sel := Sorted(old(editSelect)), mode := Edit) && clipboard == old(clipboard)
      ensures old(editMode) != Edit && Sorted(old(editSelect)).y2 < |buffers| ==>
        State() == old(State()).(sel := Sorted(old(editSelect)), mode := Edit, columnMax := curColumn) &&
        clipboard == Clipboard(SelectedTexts(buffers, Sorted(old(editSelect))), ClipCopy)
    {
      if editMode == Edit {
        return;
      }
      SelectSort();
      if editSelect.y2 >= |buffers| {
        editMode := Edit;
        return;
      }
      var strTexts := CollectSelected(buffers, editSelect);
      clipboard := Clipboard(strTexts, ClipCopy);
      curColumnMax := curColumn;
      editMode := Edit;
    }

    method Cut()
      requires Valid()
      modifies this`buffers, this`doInfo, this`curLine, this`curColumn, this`curColumnMax,
               this`firstLine, this`editSelect, this`editMode, this`clipboard
      ensures Valid()
      ensures old(editMode) == Edit ==> State() == old(State()) && clipboard == old(clipboard)
      ensures old(editMode) != Edit && Sorted(old(editSelect)).y2 >= |old(buffers)| ==>
        State() == old(State()).(sel := Sorted(old(editSelect)), mode := Edit) && clipboard == old(clipboard)
      ensures old(editMode) != Edit && Sorted(old(editSelect)).y2 < |old(buffers)| ==>
        clipboard == Clipboard(SelectedTexts(old(buffers), Sorted(old(editSelect))), ClipCut) &&
        if isReadOnly then State() == old(State()).(sel := Sorted(old(editSelect)), mode := Edit, columnMax := curColumn)
        else State() == SelectedDelState(old(State()))
    {
      if editMode == Edit {
        return;
      }
      SelectSort();
      if editSelect.y2 >= |buffers| {
        editMode := Edit;
        return;
      }
      var strTexts := CollectSelected(buffers, editSelect);
      clipboard := Clipboard(strTexts, ClipCut);
      SortedIdempotent(old(editSelect));
      SelectedDel();
      curColumnMax := curColumn;
      editMode := Edit;
    }

    /**
     * The loop of a paste that is not a single line (lines 848-860): the first
     * clip is appended to the cursor's whole line, the middle clips become
     * lines of their own and the last clip, followed by the tail after the
     * cursor, ends the run; the cursor goes to the end of that last line, past
     * the old tail, not to the end of the last clip.
     */
    method PasteClipLines(clips: seq<string>, str: string, str2: string)
      requires curLine < |buffers| && |clips| != 1
      requires str == buffers[curLine] && str2 == ScrSubstrFrom(str, curColumn)
      modifies this`buffers, this`curLine, this`curColumn
      ensures |clips| == 0 ==> buffers == old(buffers) && curLine == old(curLine) && curColumn == old(curColumn)
      ensures |clips| >= 2 ==>
        && buffers == PasteLines(old(buffers), old(curLine), old(curColumn), clips)
        && curLine == old(curLine) + |clips| - 1
        && curColumn == Width(clips[|clips| - 1] + str2)
    {
      ghost var b0 := buffers;
      ghost var i := curLine;
      ghost var c0 := curColumn;
      var y := 0;
      while y < |clips|
        invariant 0 <= y <= |clips|
        invariant y == |clips| && y >= 2 ==> curLine == i + |clips| - 1 && curColumn == |clips[|clips| - 1] + str2|
        invariant !(y == |clips| && y >= 2) ==> curLine == i && curColumn == c0
        invariant |clips| >= 2 ==> buffers == PastedSoFar(b0, i, clips, str2, y)
        invariant |clips| == 0 ==> buffers == b0
      {
        if y == 0 {
          PasteFirstStep(b0, i, clips, str2);
          buffers := buffers[curLine := str + clips[y]];
        } else if y == |clips| - 1 {
          var clip := clips[y];
          var clip2 := clip + str2;
          PasteLastStep(b0, i, clips, str2);
          buffers := InsertAt(buffers, curLine + y, clip2);
          curColumn := Width(clip2);
          curLine := curLine + |clips| - 1;
        } else {
          PasteMiddleStep(b0, i, clips, str2, y);
          buffers := InsertAt(buffers, curLine + y, clips[y]);
        }
        y := y + 1;
      }
    }

    /** The text part of paste in edit mode (lines 833-863). */
    method PasteClips(clips: seq<string>)
      requires Valid()
      modifies this`buffers, this`doInfo, this`curLine, this`curColumn
      ensures State() == PasteText(old(State()), clips)
    {
      var str := buffers[curLine];
      var str1 := ScrSubstr(str, 0, curColumn);
      var str2 := ScrSubstrFrom(str, curColumn);
      if |clips| == 1 {
        var clipStr := clips[0];
        doInfo := doInfo + [DoData(curLine, curColumn, [buffers[curLine]], 0)];
        buffers := buffers[curLine := str1 + clips[0] + str2];
        curColumn := curColumn + Width(clipStr);
      } else {
        doInfo := doInfo + [DoData(curLine, curColumn, [buffers[curLine]], |clips|)];
        PasteClipLines(clips, str, str2);
      }
    }

    /** paste once in EDIT mode (lines 831-869). */
    method PasteInEdit()
      requires Valid() && editMode == Edit
      modifies this`buffers, this`doInfo, this`curLine, this`curColumn, this`curColumnMax,
               this`firstLine, this`editMode
      ensures Valid()
      ensures State() == PasteState(old(State()), clipboard.texts, lastLine, viewRows, viewHeight)
    {
      ghost var s0 := State();
      PasteClips(clipboard.texts);
      ghost var u := PasteText(s0, clipboard.texts);
      assert State() == u;
      if curLine > lastLine {
        var _ := ScreenMemSave();
      }
      curColumnMax := curColumn;
      editMode := Edit;
      assert State() == u.(firstLine := firstLine, columnMax := u.column, mode := Edit);
    }

    method Paste()
      requires Valid()
      modifies this`buffers, this`doInfo, this`curLine, this`curColumn, this`curColumnMax,
               this`firstLine, this`editSelect, this`editMode
      ensures Valid()
      ensures isReadOnly ==> State() == old(State())
      ensures !isReadOnly ==>
        State() == PasteState(Prelude(old(State())), clipboard.texts, lastLine, viewRows, viewHeight)
    {
      if isReadOnly {
        return;
      }
      if editMode != Edit {
        SelectedDel();
      }
      PasteInEdit();
    }

    // ---------------------------------------------------------------- undo

    /**
     * The delSize -1 branch of undo (lines 882-886): the saved lines overwrite
     * the lines from d.line on, each write past the end appending one line.
     */
    method UndoOverwrite(d: DoData)
      requires d.delSize == -1 && Fits(d, buffers)
      modifies this`buffers
      ensures buffers == UndoBuffers(old(buffers), d)
    {
      ghost var b0 := buffers;
      var line := d.line;
      var n := 0;
      while n < |d.texts|
        invariant 0 <= n <= |d.texts|
        invariant n == 0 ==> buffers == b0
        invariant n > 0 ==> buffers == b0[..line] + d.texts[..n] + b0[Min(line + n, |b0|)..]
      {
        buffers := SetAt(buffers, line + n, d.texts[n]);
        n := n + 1;
        assert d.texts[..n] == d.texts[..n - 1] + [d.texts[n - 1]];
      }
      assert d.texts[..n] == d.texts;
    }

    /** The delSize 0 branch of undo (lines 887-895): texts[0] overwrites line d.line, the rest are inserted after it. */
    method UndoInsert(d: DoData)
      requires d.delSize == 0 && Fits(d, buffers)
      modifies this`buffers
      ensures buffers == UndoBuffers(old(buffers), d)
    {
      ghost var b0 := buffers;
      var line := d.line;
      var n := 0;
      while n < |d.texts|
        invariant 0 <= n <= |d.texts|
        invariant n == 0 ==> buffers == b0
        invariant n > 0 ==> buffers == b0[..line] + d.texts[..n] + b0[Min(line + 1, |b0|)..]
      {
        if n == 0 {
          buffers := SetAt(buffers, line, d.texts[n]);
          assert buffers == b0[..line] + d.texts[..1] + b0[Min(line + 1, |b0|)..];
        } else {
          buffers := InsertAt(buffers, line + n, d.texts[n]);
          assert d.texts[..n + 1] == d.texts[..n] + [d.texts[n]];
          assert buffers == b0[..line] + d.texts[..n + 1] + b0[Min(line + 1, |b0|)..];
        }
        n := n + 1;
      }
      assert d.texts[..n] == d.texts;
    }

    /**
     * The branch of undo for delSize > 0 (lines 905-918): the saved line
     * overwrites line d.line (appended when d.line is the line count) and the
     * delSize - 1 lines after it go; a removal past the end does nothing.
     */
    method UndoRemove(d: DoData)
      requires d.delSize > 0 && |d.texts| == 1 && d.line <= |buffers|
      modifies this`buffers
      ensures buffers == UndoBuffers(old(buffers), d)
    {
      ghost var b0 := buffers;
      var line := d.line;
      var delSize := d.delSize;
      var str := d.texts[0];
      var y := line;
      while y <= line + delSize
        invariant line <= y <= line + delSize + 1
        invariant y == line ==> buffers == b0
        invariant y > line ==> buffers == b0[..line] + [str] + b0[Min(Min(y, line + delSize), |b0|)..]
      {
        if line == y || line + delSize == y {
          buffers := SetAt(buffers, line, str);
        } else {
          buffers := RemoveAt(buffers, line + 1);
        }
        y := y + 1;
      }
    }

    method Undo()
      requires Undoable(State())
      modifies this`buffers, this`curLine, this`curColumn, this`curColumnMax, this`firstLine, this`doInfo
      ensures Valid()
      ensures State() == UndoState(old(State()))
    {
      if |doInfo| == 0 {
        return;
      }
      var doData := doInfo[|doInfo| - 1];
      assert doData in doInfo;
      var line := doData.line;
      if doData.delSize == -1 {
        UndoOverwrite(doData);
      } else if doData.delSize == 0 {
        UndoInsert(doData);
        if |doData.texts| > 0 {
          curLine := line + |doData.texts| - 1;
        }
        if curLine < firstLine {
          firstLine := curLine;
        }
      } else {
        UndoRemove(doData);
        curLine := doData.line;
        if curLine < firstLine {
          firstLine := curLine;
        }
      }
      curColumn := doData.column;
      doInfo := doInfo[..|doInfo| - 1];
      curColumnMax := curColumn;
    }

    // ---------------------------------------------------------------- files and search

    /** newFile: an empty line array and log, the cursor at the start, insert mode on, no search. */
    method NewFile()
      modifies this`buffers, this`firstLine, this`curLine, this`curColumn, this`curColumnMax,
               this`isInsert, this`findStr, this`indexFindPosX, this`indexFindPosY, this`doInfo
      ensures buffers == [] && doInfo == []
      ensures firstLine == 0 && curLine == 0 && curColumn == 0 && curColumnMax == 0
      ensures isInsert && findStr == "" && indexFindPosX == 0 && indexFindPosY == 0
    {
      buffers := [];
      firstLine := 0;
      curLine := 0;
      curColumn := 0;
      curColumnMax := 0;
      isInsert := true;
      findStr := "";
      indexFindPosX := 0;
      indexFindPosY := 0;
      doInfo := [];
    }

    /**
     * load on the text `data` read from the file: it fails on an empty text and
     * otherwise keeps the lines split on line feeds, without their first CR.
     */
    method Load(data: string) returns (ok: bool)
      modifies this`buffers, this`firstLine, this`curLine, this`curColumn, this`curColumnMax,
               this`isInsert, this`findStr, this`indexFindPosX, this`indexFindPosY, this`doInfo, this`isDosMode
      ensures ok == (data != "")
      ensures doInfo == [] && firstLine == 0 && curLine == 0 && curColumn == 0 && curColumnMax == 0
      ensures isInsert && findStr == "" && indexFindPosX == 0 && indexFindPosY == 0
      ensures !ok ==> buffers == [] && isDosMode == old(isDosMode)
      ensures ok ==> Loaded(buffers, isDosMode) == LoadText(data) && Valid()
    {
      NewFile();
      if data == "" {
        return false;
      }
      var dosMode := false;
      var items := SplitLines(data);
      var k := 0;
      while k < |items|
        invariant 0 <= k <= |items|
        invariant |buffers| == k
        invariant forall j :: 0 <= j < k ==> buffers[j] == RemoveFirstCR(items[j])
        invariant dosMode <==> exists j :: 0 <= j < k && '\r' in items[j]
        modifies this`buffers
      {
        var item := items[k];
        var item2 := RemoveFirstCR(item);
        if item2 != item {
          dosMode := true;
        }
        buffers := buffers + [item2];
        k := k + 1;
      }
      isDosMode := dosMode;
      ok := true;
    }

    /** The text save writes to the file: the lines joined with CR LF in DOS mode, LF otherwise. */
    method Save() returns (data: string)
      ensures data == SaveText(Loaded(buffers, isDosMode))
    {
      data := JoinLines(buffers, if isDosMode then "\r\n" else "\n");
    }

    /**
     * The inner loop of findNextPromise (lines 1036-1054) from line `start`:
     * the first line holding findStr and the column of its first occurrence
     * there, or idx -1 when no line from `start` on holds it.
     */
    method ScanForward(start: nat) returns (n: nat, idx: int)
      requires findStr != ""
      modifies this`indexFindPosX
      ensures idx == -1 <==> FindFrom(buffers, start, findStr).None?
      ensures idx != -1 ==> 0 <= idx && FindFrom(buffers, start, findStr) == Some(Match(n, idx))
      ensures idx == -1 && start < |buffers| ==> indexFindPosX == 0
      ensures indexFindPosX == 0 || indexFindPosX == old(indexFindPosX)
    {
      n := start;
      idx := -1;
      while n < |buffers|
        invariant start <= n
        invariant idx == -1
        invariant forall k :: start <= k < n && k < |buffers| ==> IndexOf(buffers[k], findStr) == -1
        invariant n > start ==> indexFindPosX == 0
        invariant n == start ==> indexFindPosX == old(indexFindPosX)
      {
        idx := IndexOf(buffers[n], findStr);
        if idx > -1 {
          FindFromFirst(buffers, start, findStr, n);
          return;
        }
        indexFindPosX := 0;
        n := n + 1;
      }
    }

    /** The match branch of findNextPromise (lines 1038-1051): select the match and put the cursor after it. */
    method SelectMatch(n: nat, idx: nat)
      modifies this`indexFindPosX, this`indexFindPosY, this`editMode, this`editSelect,
               this`curColumn, this`curLine, this`curColumnMax, this`firstLine
      ensures indexFindPosX == idx + |findStr| && indexFindPosY == n
      ensures editMode == ShiftSelect && editSelect == Rect(idx, n, idx + |findStr|, n)
      ensures curLine == n && curColumn == idx + |findStr| && curColumnMax == curColumn
      ensures firstLine == n - 10
    {
      var textSize := Width(findStr);
      indexFindPosX := idx + textSize;
      indexFindPosY := n;
      editMode := ShiftSelect;
      editSelect := Rect(idx, n, idx + textSize, n);
      curColumn := idx + textSize;
      curLine := n;
      curColumnMax := curColumn;
      firstLine := curLine - 10;
    }

    /**
     * One pass of findNextPromise: from the cursor's line in EDIT mode, else
     * from the line of the last match, find the first line holding findStr and
     * select the match with the cursor after it; without a match the next pass
     * starts from the top.
     */
    method FindNext() returns (found: bool)
      requires Valid()
      modifies this`indexFindPosX, this`indexFindPosY, this`editMode, this`editSelect,
               this`curColumn, this`curLine, this`curColumnMax, this`firstLine
      ensures Valid()
      ensures findStr == "" ==> (
        && !found && State() == old(State())
        && indexFindPosX == old(indexFindPosX) && indexFindPosY == old(indexFindPosY))
      ensures findStr != "" ==>
        (found <==> FindFrom(buffers, SearchStart(old(editMode), old(curLine), old(indexFindPosY)), findStr).Some?)
      ensures found ==>
        var m := FindFrom(buffers, SearchStart(old(editMode), old(curLine), old(indexFindPosY)), findStr);
        m.Some? &&
        var x2 := m.value.column + |findStr|;
        && indexFindPosX == x2 && indexFindPosY == m.value.line
        && editMode == ShiftSelect && editSelect == Rect(m.value.column, m.value.line, x2, m.value.line)
        && curLine == m.value.line && curColumn == x2 && curColumnMax == x2
        && firstLine == m.value.line - 10
      ensures findStr != "" && !found ==> State() == old(State()) && indexFindPosY == 0
    {
      if findStr == "" {
        return false;
      }
      found := SearchPass();
    }

    /** One pass of findNextPromise for a non-empty search text (lines 1030-1055). */
    method SearchPass() returns (found: bool)
      requires Valid() && findStr != ""
      modifies this`indexFindPosX, this`indexFindPosY, this`editMode, this`editSelect,
               this`curColumn, this`curLine, this`curColumnMax, this`firstLine
      ensures Valid()
      ensures found <==> FindFrom(buffers, SearchStart(old(editMode), old(curLine), old(indexFindPosY)), findStr).Some?
      ensures found ==>
        var m := FindFrom(buffers, SearchStart(old(editMode), old(curLine), old(indexFindPosY)), findStr);
        m.Some? &&
        var x2 := m.value.column + |findStr|;
        && indexFindPosX == x2 && indexFindPosY == m.value.line
        && editMode == ShiftSelect && editSelect == Rect(m.value.column, m.value.line, x2, m.value.line)
        && curLine == m.value.line && curColumn == x2 && curColumnMax == x2
        && firstLine == m.value.line - 10
      ensures !found ==> State() == old(State()) && indexFindPosY == 0
    {
      ghost var start := SearchStart(editMode, curLine, indexFindPosY);
      if editMode == Edit {
        indexFindPosX := 0;
        indexFindPosY := curLine;
      }
      assert indexFindPosY == start;
      var n, idx := ScanForward(indexFindPosY);
      if idx > -1 {
        SelectMatch(n, idx);
        return true;
      }
      indexFindPosY := 0;
      return false;
    }
  }

  // ---------------------------------------------------------------- sessions

  /** Typing text in EDIT mode and then undo give back the lines, the cursor and the undo log. */
  method TypeThenUndo(e: Editor, text: string)
    requires e.Valid() && e.editMode == Edit && !e.isReadOnly
    modifies e
    ensures e.buffers == old(e.buffers) && e.doInfo == old(e.doInfo)
    ensures e.curLine == old(e.curLine) && e.curColumn == old(e.curColumn)
  {
    InputDataThenUndo(e.State(), text, e.isInsert);
    e.InputData(text);
    e.Undo();
  }

  /** Enter in EDIT mode adds exactly one line, and undo gives back the lines, the cursor and the log. */
  method EnterThenUndo(e: Editor)
    requires e.Valid() && e.editMode == Edit && !e.isReadOnly
    modifies e
    ensures e.buffers == old(e.buffers) && e.doInfo == old(e.doInfo)
    ensures e.curLine == old(e.curLine) && e.curColumn == old(e.curColumn)
  {
    KeyEnterThenUndo(e.State(), e.lastLine, e.viewRows, e.viewHeight);
    e.KeyEnter();
    assert |e.buffers| == |old(e.buffers)| + 1;
    e.Undo();
  }

  /** Pasting two or more clipboard lines in EDIT mode and then undo give back the lines, cursor and log. */
  method PasteThenUndo(e: Editor)
    requires e.Valid() && e.editMode == Edit && !e.isReadOnly && |e.clipboard.texts| >= 2
    modifies e
    ensures e.buffers == old(e.buffers) && e.doInfo == old(e.doInfo)
    ensures e.curLine == old(e.curLine) && e.curColumn == old(e.curColumn)
  {
    PasteLinesThenUndo(e.State(), e.clipboard.texts, e.lastLine, e.viewRows, e.viewHeight);
    e.Paste();
    e.Undo();
  }

  /** Indenting a selection with Tab and then undo give back the lines and the log; the cursor column goes to 0. */
  method IndentThenUndo(e: Editor)
    requires BlockReady(e.State()) && e.editMode != Edit && !e.isReadOnly
    modifies e
    ensures e.buffers == old(e.buffers) && e.doInfo == old(e.doInfo)
    ensures e.curLine == old(e.curLine) && e.curColumn == 0
  {
    KeyTabThenUndo(e.State(), e.isInsert);
    e.KeyTab();
    e.Undo();
  }

  /**
   * findNext twice in a row selects the same match: the first pass leaves
   * SHIFT_SELECT mode, so the second starts on the matched line again.
   */
  method FindNextTwice(e: Editor) returns (first: bool, sel1: Rect, second: bool, sel2: Rect)
    requires e.Valid() && e.findStr != ""
    modifies e
    ensures first ==> second && sel2 == sel1
  {
    ghost var start := SearchStart(e.editMode, e.curLine, e.indexFindPosY);
    first := e.FindNext();
    sel1 := e.editSelect;
    if first {
      FindFromAgain(e.buffers, start, e.findStr);
    }
    second := e.FindNext();
    sel2 := e.editSelect;
  }
}
