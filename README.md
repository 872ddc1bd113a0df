# Editor engine of mdir.js, modelled in Dafny

This project models the text-editing engine of mdir.js, the abstract class `Editor` in
`src/editor/Editor.ts`. Its state is:

- the line array `buffers`;
- the cursor `(curLine, curColumn, curColumnMax)`;
- the selection rectangle `editSelect` and the `editMode` (edit, select, block, shift-select);
- the viewport `firstLine`/`lastLine`;
- the undo stack `doInfo` of records `(line, column, texts, delSize)`;
- the clipboard and the find position.

The key handlers change this state in place. `EditorCore.Editor` is a Dafny `class` with
these fields, and each handler is a method with a `modifies` frame on the fields it touches.

Every state-changing method is proved against a pure specification. `EditorCore.Editor.State()`
projects the fields onto the value `EditorState.EditState`, and the method's `ensures` ties the
new state to one step function of the old state. Examples are `InputDataState`, `KeyEnterState`
and `UndoState`. The edit/undo round trips are then proved as lemmas about these step functions.
The loops of the source stay loops, with their invariants:

- the line collapse of `selectedDel`;
- the lines of `copy`/`cut`;
- the indent loops of `keyTab`/`keyUntab`;
- the insertion loop of `paste`;
- the three record shapes of `undo`;
- the blank scan of `keyHome`;
- the line scan of `findNextPromise`.

Modules, one per file:

- `TextMetrics`: screen width and screen substring, leading blanks, `indexOf`.
- `LineArray`: JavaScript `splice(i, 0, x)` and `splice(i, 1)` on a line array.
- `Selection`: edit modes, the selection rectangle, `selectSort`, the texts `copy` collects.
- `UndoLog`: the undo record and what `undo` does to the buffer for each record shape.
- `Edits`: the buffer effect of each handler, and the lemmas that undo reverses it.
- `EditorState`: the editor snapshot, one step function per handler, and the round trips.
- `FileText`: the line split of `load` and the join of `save`, without the filesystem.
- `Find`: one pass of the forward search.
- `EditorCore`: the `Editor` class itself.

**Width assumption.** Screen width (`strWidth`) and `StringUtils.scrSubstr` come from
libraries that are not part of this model. Every character is taken to be one cell wide:

- `Width(s) = |s|`;
- `ScrSubstr(s, a, n) = s[min(a,|s|)..min(a+n,|s|)]`.

Under this assumption, the places where the source mixes screen columns with `.substr`
character offsets coincide. An example is `keyBS`, src/editor/Editor.ts:506-510.

**Undo record.** The record class `DoData` is defined in a file that is not part of this model.
From its uses at src/editor/Editor.ts:882-925, a missing `delSize` means 0. The three shapes are:

- `delSize == -1` overwrites `texts.length` lines in place;
- `delSize == 0` overwrites the first line and inserts the others after it;
- `delSize > 0` overwrites one line and removes the `delSize - 1` lines after it.

**Behaviour of the code as written.** The model follows the code, including these behaviours:

- `selectedDel` collapses a multi-line selection but keeps the old last line. Its loop stops
  before `y2`, so the branch that would drop it never runs (src/editor/Editor.ts:144-157).
  Selecting everything and cutting leaves `["", last line]`
  (`Edits.DeleteWholeBufferKeepsLastLine`).
- A single-line `selectedDel` records the cursor line, not `y1`
  (src/editor/Editor.ts:127-130).
  `EditorState.SelectedDelThenUndo` therefore needs the cursor on the selected line.
- `keyDelete` at the end of a line removes the current line instead of joining the next line
  to it (src/editor/Editor.ts:458-462). Its undo record holds the next line, so undo does not
  bring the removed line back (`EditorState.KeyDeleteAtEndThenUndo`).
- Multi-line `paste` appends the first clip to the whole current line, not to the part before
  the cursor (src/editor/Editor.ts:850).
- `keyEnter` tests the method `this.indentMode`, which is always truthy, so the new line always
  takes the indent of the old one (src/editor/Editor.ts:693).
- `shiftMode` sets mode SELECT rather than SHIFT_SELECT. Every shifted arrow key therefore
  re-anchors the selection at the cursor (`EditorState.ShiftReanchors`).
- `newFile` leaves `buffers` empty (src/editor/Editor.ts:268-281).
- `keyUp` and `keyDown` settle the cursor on the new line by calling `keyRight` and then
  `keyLeft` (src/editor/Editor.ts:378-384 and 400-406). At the very end of the last line
  `keyRight` stays put and `keyLeft` still moves, so the cursor steps back one character, or to
  the end of the line above when the last line is empty (`EditorState.SettleAtBufferEnd`).
  `keyEnter` ends with `keyDown` (src/editor/Editor.ts:718) and goes through the same step.
- `keyBS` at column 0 of an empty last line below an empty line merges the two and then calls
  `keyUp`. When the remembered column is 0, the cursor ends two lines up instead of one
  (src/editor/Editor.ts:490-500, `EditorState.KeyBSJoinAtEmptyEnd`).
- After a multi-line `paste` the cursor is at the end of the last pasted line, past the old
  tail of the line, not at the end of the last clip (src/editor/Editor.ts:853-855).
- `keyLeft` from a column past the end of the line goes to the column before the line's last
  character, not to its end (src/editor/Editor.ts:346-347).
- `keyBS` with the cursor past the end of the line clears the line and pushes no undo record
  (src/editor/Editor.ts:501-512).
- `keyBS` in a selection mode whose selection starts below the last line moves the cursor
  there, outside the buffer.
- Undoing `keyTab` or `keyUntab` on a block puts the column at 0 (src/editor/Editor.ts:927).
- `findNextPromise` in shift-select mode starts its scan at the line of the current match, so
  it finds the same match again (`Find.FindFromAgain`, `EditorCore.FindNextTwice`).
- When `findNextPromise` reaches the end of the buffer it asks whether to search again from the
  beginning. Answering "Yes" ends the search and "No" searches again
  (src/editor/Editor.ts:1055-1060).

## Model

| member | source | states |
|---|---|---|
| TextMetrics.ScrSubstr | src/editor/Editor.ts:132-133 | the screen substring lies inside the string: an in-range span is exactly that slice, and an empty or out-of-range span gives "" |
| TextMetrics.ScrSubstrFrom | src/editor/Editor.ts:141 | the suffix from a column has length max(len - col, 0) and is the slice from there when the column is inside |
| TextMetrics.PrefixSuffix | src/editor/Editor.ts:834-835 | the prefix up to any column followed by the suffix from it gives back the whole line |
| TextMetrics.LeadingBlanks | src/editor/Editor.ts:693-701 | the count covers only spaces and tabs and stops at the first other character |
| TextMetrics.FirstNonBlank | src/editor/Editor.ts:596-601 | the index of the first character that is neither space nor tab, with every earlier one blank; 0 when the line is all blanks |
| TextMetrics.IndexFrom | src/editor/Editor.ts:1037 | -1 means the pattern occurs at no position from `from` on; otherwise the pattern occurs there and at no earlier position |
| TextMetrics.IndexOf | src/editor/Editor.ts:1037 | -1 exactly when the pattern occurs nowhere; otherwise the first occurrence |
| LineArray.InsertAt | src/editor/Editor.ts:707 | splice(i, 0, x): one more line, x at the clamped index, lines before it kept, lines after it shifted up by one |
| LineArray.SetAt | src/editor/Editor.ts:884 | `a[i] = x` with i at most the length: x lands at i, every other line is kept, and the array grows by one exactly when i is the length |
| LineArray.RemoveAt | src/editor/Editor.ts:151 | splice(i, 1): one line fewer when i is inside, no change past the end, every other line kept in order |
| Selection.Sorted | src/editor/Editor.ts:93-115 | the result is in order (y1 < y2, or y1 == y2 and x1 <= x2); it is the rectangle itself or its two corners swapped; it is unchanged exactly when already in order; the set of corners is kept |
| Selection.SortedIdempotent | src/editor/Editor.ts:93-115 | sorting a sorted selection changes nothing |
| Selection.SelectedTexts | src/editor/Editor.ts:766-783 | copy collects one text per selected line |
| Selection.SelectedTextsCover | src/editor/Editor.ts:766-783 | the copied texts are the selected parts of the lines: the first and last line are cut at x1 and x2, and the lines between are whole |
| Selection.WholeBuffer | src/editor/Editor.ts:947-954 | select-all spans from line 0 to the last line, in order |
| Selection.CopyWholeBuffer | src/editor/Editor.ts:947-954 | copying after select-all yields the whole buffer |
| UndoLog.UndoBuffers | src/editor/Editor.ts:882-925 | for a record whose line is at most the line count, by shape: the length stays the same or grows past the end (-1), grows by texts - 1 (0) or shrinks by delSize - 1 clipped at the end (> 0); lines before the record are kept and the saved texts land from its line on |
| UndoLog.UndoAtEndAppends | src/editor/Editor.ts:882-925 | a record whose line is the line count appends its saved texts to the buffer |
| UndoLog.UndoLineInside | src/editor/Editor.ts:897-919 | the cursor line that undo restores lies inside the restored buffer, also when the record appends |
| Edits.DeleteSelection | src/editor/Editor.ts:127-162 | deleting a selection on one line joins prefix(x1) and suffix(x2) and keeps the other lines; on several lines it joins prefix(x1) of y1 with suffix(x2) of y2 and drops lines y1+1..y2-1, keeping everything before and from y2 on |
| Edits.UndoDeleteSelection | src/editor/Editor.ts:127-162 | undoing the record selectedDel pushes restores the buffer, for one line and for several |
| Edits.UndoRestoresLine | src/editor/Editor.ts:887-895 | undoing a one-line delSize-0 record of a line's old text restores the buffer, whatever the line was changed to |
| Edits.InsertText | src/editor/Editor.ts:581-589 | typing puts the text at the column; insert mode keeps the rest after it; overwrite mode replaces as many characters as the text is long, and cuts the line after the text when the text runs past its end; past the end of the line the text is appended |
| Edits.DeleteChar | src/editor/Editor.ts:448-456 | Delete removes exactly the character at the column |
| Edits.Backspace | src/editor/Editor.ts:501-512 | Backspace removes exactly the character before the column |
| Edits.BackspaceIsDeleteBefore | src/editor/Editor.ts:501-512 | Backspace at a column equals Delete one column to the left |
| Edits.JoinNextAsWritten | src/editor/Editor.ts:457-463 | keyDelete at the end of a line leaves the buffer with the current line removed |
| Edits.UndoJoinNextLosesLine | src/editor/Editor.ts:457-463 | undoing keyDelete at the end of a line does not restore the removed line: the buffer stays one line shorter |
| Edits.MergeUp | src/editor/Editor.ts:490-500 | Backspace at column 0 merges the line into the previous one: one line fewer, every other line kept |
| Edits.UndoMergeUp | src/editor/Editor.ts:490-500 | undoing the merge with its two-line record restores the buffer |
| Edits.IndentOf | src/editor/Editor.ts:693-701 | the indent is a prefix of the line made only of spaces and tabs |
| Edits.SplitLine | src/editor/Editor.ts:702-709 | Enter gives one more line: the prefix before the cursor, then indent + the rest; the other lines are kept, and prefix + rest is the old line |
| Edits.UndoSplitLine | src/editor/Editor.ts:904-925 | undoing the delSize-2 record of Enter restores the buffer |
| Edits.IndentLines | src/editor/Editor.ts:533-536 | exactly lines y1..y2 get a leading tab; the length and all other lines are kept |
| Edits.UnindentLines | src/editor/Editor.ts:554-559 | exactly lines y1..y2 lose one leading tab when they have one; the length and all other lines are kept |
| Edits.UnindentAfterIndent | src/editor/Editor.ts:522-565 | unindenting a block right after indenting it gives back the lines |
| Edits.UndoOverwrite | src/editor/Editor.ts:882-886 | a delSize -1 record of lines y1..y2 restores them whatever was written over them, leaving the length unchanged |
| Edits.PasteLines | src/editor/Editor.ts:846-860 | pasting n >= 2 clips grows the buffer by n - 1: the current line gets the first clip appended, the middle clips become lines, and the last clip takes the rest of the old line after the cursor; the lines around are kept |
| Edits.UndoPasteLines | src/editor/Editor.ts:904-925 | undoing the delSize-n record of a multi-line paste restores the buffer |
| Edits.DeleteWholeBufferKeepsLastLine | src/editor/Editor.ts:144-157 | deleting a select-all selection of two or more lines leaves "" and the old last line |
| EditorState.LeftOf | src/editor/Editor.ts:344-352 | Left stays inside the buffer: one column left on the line, or to the end of the previous line from column 0 |
| EditorState.RightOf | src/editor/Editor.ts:354-367 | Right moves one column right, or from the end of the line to the start of the next |
| EditorState.LeftUndoesRight | src/editor/Editor.ts:344-367 | Left after Right returns to the same place, except at the end of the buffer |
| EditorState.RightUndoesLeft | src/editor/Editor.ts:344-367 | Right after Left returns to the same place, except at the start of the buffer |
| EditorState.Settle | src/editor/Editor.ts:378-384 | where keyUp/keyDown leave the cursor on the chosen line: inside the buffer; a column past the end of the line goes to the line end; any other position except the end of the buffer is kept by the keyRight/keyLeft pair |
| EditorState.SettleAtBufferEnd | src/editor/Editor.ts:400-406 | at the very end of the last line the keyRight/keyLeft pair moves the cursor back one character, or to the end of the previous line when the last line is empty |
| EditorState.ArrowState | src/editor/Editor.ts:344-411 | every arrow key keeps the editor state valid |
| EditorState.ShiftState | src/editor/Editor.ts:413-433 | a shifted arrow keeps the state valid and leaves the mode SELECT |
| EditorState.ShiftReanchors | src/editor/Editor.ts:413-420 | after two shifted arrows the selection anchor is where the second one started |
| EditorState.HomeColumn | src/editor/Editor.ts:594-605 | Home goes to the first non-blank column from any other column, and to column 0 from that column |
| EditorState.HomeToggles | src/editor/Editor.ts:594-605 | pressing Home twice toggles between the first non-blank character and column 0 |
| EditorState.ScrolledFirstLine | src/editor/Editor.ts:176-191 | the view's first line is kept when the cursor is on line 0 and otherwise lies between 0 and the old first line + 1 |
| EditorState.DelRecord | src/editor/Editor.ts:127-162 | selectedDel records one line's old text (at the cursor line) for a one-line selection, or lines y1..y2-1 at (y1, x1) for several, as a delSize-0 record |
| EditorState.SelectedDelState | src/editor/Editor.ts:117-174 | the selection is sorted and the mode is EDIT; a selection past the buffer changes nothing else; otherwise the selection is deleted, the cursor goes to (y1, x1) with columnMax x1, and one record is pushed |
| EditorState.SelectedDelThenUndo | src/editor/Editor.ts:117-174 | undo after selectedDel restores the buffer and the undo log |
| EditorState.Prelude | src/editor/Editor.ts:571-580 | the selection step every editing key takes first leaves a valid state in EDIT mode |
| EditorState.InputDataState | src/editor/Editor.ts:571-592 | typing changes only the cursor line, to InsertText of it in the current insert or overwrite mode (prefix + text + suffix in insert mode), moves the column by the text's width with columnMax following, and pushes the line's old text |
| EditorState.InputDataThenUndo | src/editor/Editor.ts:571-592 | undo after typing restores the buffer, line, column and undo log |
| EditorState.KeyDeleteState | src/editor/Editor.ts:439-470 | Delete inside the line removes one character and pushes the old line; at the end of the line it removes the current line and pushes the next one; at the end of the buffer it changes nothing; the cursor stays |
| EditorState.KeyDeleteThenUndo | src/editor/Editor.ts:439-456 | undo after Delete inside a line restores the buffer, cursor and log |
| EditorState.KeyDeleteAtEndThenUndo | src/editor/Editor.ts:457-463 | undo after Delete at the end of a line leaves the buffer without the removed line |
| EditorState.BackspacePrelude | src/editor/Editor.ts:475-482 | Backspace on a selection moves the cursor to the selection start and enters EDIT mode |
| EditorState.KeyBSState | src/editor/Editor.ts:472-520 | Backspace keeps the buffer non-empty, the log well formed and a cursor inside the buffer inside it |
| EditorState.KeyBSJoinThenUndo | src/editor/Editor.ts:490-500 | Backspace at column 0 shrinks the buffer by one and puts the cursor at the end of the previous line; undo restores buffer, cursor and log |
| EditorState.KeyBSJoinAtEmptyEnd | src/editor/Editor.ts:490-500 | Backspace at column 0 of an empty last line below an empty line, with remembered column 0, leaves one line fewer and the cursor two lines up at column 0 |
| EditorState.KeyBSInLineThenUndo | src/editor/Editor.ts:501-517 | Backspace inside a line removes the character before the cursor and moves it left; undo restores buffer, cursor and log |
| EditorState.KeyEnterState | src/editor/Editor.ts:683-720 | Enter splits the cursor line and pushes a delSize-2 record of the old line |
| EditorState.KeyEnterThenUndo | src/editor/Editor.ts:702-709 | Enter grows the buffer by one line whose halves give back the old line; undo restores buffer, cursor and log |
| EditorState.KeyTabState | src/editor/Editor.ts:522-541 | Tab keeps the state valid |
| EditorState.KeyUntabState | src/editor/Editor.ts:543-565 | Shift-Tab keeps the state valid |
| EditorState.KeyTabThenUndo | src/editor/Editor.ts:525-537 | Tab on a block prefixes a tab to exactly lines y1..y2 and pushes one delSize -1 record of them; undo restores the buffer and log with the column at 0 |
| EditorState.KeyUntabThenUndo | src/editor/Editor.ts:546-559 | undo after Shift-Tab on a block restores the buffer and log |
| EditorState.UntabAfterTab | src/editor/Editor.ts:522-565 | Shift-Tab right after Tab on a block gives back the lines |
| EditorState.PasteText | src/editor/Editor.ts:826-862 | pasting keeps the state valid and pushes one record of the cursor line, with delSize 0 for one clip and the clip count otherwise |
| EditorState.PasteState | src/editor/Editor.ts:826-870 | paste keeps the state valid and ends in EDIT mode |
| EditorState.PasteLinesThenUndo | src/editor/Editor.ts:846-862 | pasting n >= 2 clips grows the buffer by n - 1 and moves the cursor down n - 1 lines; undo restores buffer, cursor and log |
| EditorState.PasteOneThenUndo | src/editor/Editor.ts:838-845 | pasting one clip inserts it at the cursor and moves the column past it; undo restores buffer, cursor and log |
| EditorState.UndoState | src/editor/Editor.ts:872-931 | undo on an empty log changes nothing; otherwise it pops exactly the top record and applies it to the buffer, keeping the state valid |
| FileText.SplitLines | src/editor/Editor.ts:291 | splitting on newlines gives at least one line, none holding a newline |
| FileText.FirstCR | src/editor/Editor.ts:293 | the index of a carriage return with none before it |
| FileText.RemoveFirstCR | src/editor/Editor.ts:293 | a line without a carriage return is unchanged; otherwise exactly its first carriage return is removed and every other character kept in order |
| FileText.LoadText | src/editor/Editor.ts:290-299 | a loaded text always has at least one line |
| FileText.JoinSplit | src/editor/Editor.ts:291 | joining the split lines with newlines gives back the text |
| FileText.SplitJoin | src/editor/Editor.ts:291 | splitting newline-joined lines that hold no newline gives back the lines |
| FileText.JoinCRLF | src/editor/Editor.ts:313 | joining with CRLF equals joining with LF lines that end in a carriage return |
| FileText.LoadSaveLF | src/editor/Editor.ts:283-313 | a text without carriage returns loads in Unix mode, and saving it gives back the text |
| FileText.LoadSaveCRLF | src/editor/Editor.ts:283-313 | CRLF-joined lines load as those lines in DOS mode, and saving gives back the text |
| Find.FindFrom | src/editor/Editor.ts:1036-1054 | the match is the first line at or after the start that contains the pattern, at its first occurrence; no match exactly when no such line exists |
| Find.FindFromFirst | src/editor/Editor.ts:1036-1054 | a line containing the pattern guarantees a match at or before it |
| Find.FindFromLater | src/editor/Editor.ts:1036-1054 | a scan started at any line between the start and the line of the match finds the same match |
| Find.FindFromAgain | src/editor/Editor.ts:1033-1054 | a scan that restarts at the line of a match finds that same match |
| EditorCore.ScanNonBlank | src/editor/Editor.ts:596-601 | the blank-scanning loop of Home finds the first non-blank character |
| EditorCore.CollectSelected | src/editor/Editor.ts:766-783 | the copy loop collects exactly the selected texts |
| EditorCore.Editor.constructor | src/editor/Editor.ts:39-81 | a new editor has no lines, an empty undo log, the cursor at the origin, overwrite mode, EDIT mode and no search |
| EditorCore.Editor.KeyPressCommon | src/editor/Editor.ts:1128-1135 | the cursor is kept and the selection end follows it |
| EditorCore.Editor.KeyLeft | src/editor/Editor.ts:344-352 | the cursor moves to the left neighbour |
| EditorCore.Editor.KeyRight | src/editor/Editor.ts:354-367 | the cursor moves to the right neighbour |
| EditorCore.Editor.SettleOnLine | src/editor/Editor.ts:378-388 | the column is clamped to the target line as an up or down move does |
| EditorCore.Editor.KeyUp | src/editor/Editor.ts:369-389 | the cursor moves one line up, keeping the remembered column where the line allows |
| EditorCore.Editor.KeyDown | src/editor/Editor.ts:391-411 | the cursor moves one line down, keeping the remembered column where the line allows |
| EditorCore.Editor.KeyHome | src/editor/Editor.ts:594-605 | the cursor goes to the Home column of its line |
| EditorCore.Editor.KeyEnd | src/editor/Editor.ts:607-614 | the cursor goes to the end of its line |
| EditorCore.Editor.PageColumn | src/editor/Editor.ts:635-643 | after a page move the remembered column is the larger of column and columnMax, clamped to the line |
| EditorCore.Editor.PageUpLines | src/editor/Editor.ts:616-634 | Page Up scrolls the view up by one page height and keeps the cursor's row in the view; at the top it goes to line 0; the cursor never moves down |
| EditorCore.Editor.KeyPgUp | src/editor/Editor.ts:616-644 | Page Up keeps the state valid, scrolls by a page and places the column as a page move does |
| EditorCore.Editor.PageDownLines | src/editor/Editor.ts:646-671 | Page Down goes to the last line when the buffer ends inside the view; otherwise it scrolls by a page, clamped to the buffer end; the cursor never moves up |
| EditorCore.Editor.KeyPgDn | src/editor/Editor.ts:646-681 | Page Down keeps the state valid, scrolls by a page and places the column as a page move does |
| EditorCore.Editor.ShiftMode | src/editor/Editor.ts:413-433 | a shifted arrow key steps the state as ShiftState does |
| EditorCore.Editor.SelectSort | src/editor/Editor.ts:93-115 | the selection is replaced by its sorted form |
| EditorCore.Editor.DeleteSelectedLines | src/editor/Editor.ts:135-162 | a multi-line selection is deleted as DeleteSelection says, and lines y1..y2-1 are returned for the undo record |
| EditorCore.Editor.CollapseLines | src/editor/Editor.ts:144-157 | the loop replaces lines y1..y2-1 by the one joined line and returns those lines |
| EditorCore.Editor.PushUndo | src/editor/Editor.ts:130 | the record goes on top of the undo log, which stays well formed |
| EditorCore.Editor.DeleteWithinLine | src/editor/Editor.ts:127-134 | a one-line selection is deleted as DeleteSelection says |
| EditorCore.Editor.RemoveSelection | src/editor/Editor.ts:127-162 | the selection is deleted and exactly the DelRecord of the old buffer is pushed |
| EditorCore.Editor.SelectedDel | src/editor/Editor.ts:117-174 | read-only changes nothing; otherwise the state steps as SelectedDelState says |
| EditorCore.Editor.DeleteSelected | src/editor/Editor.ts:119-174 | the state steps as SelectedDelState says |
| EditorCore.Editor.LeaveSelection | src/editor/Editor.ts:574-577 | an editing key first deletes the selection and enters EDIT mode, as Prelude says |
| EditorCore.Editor.Select | src/editor/Editor.ts:937-945 | toggles SELECT mode and anchors an empty selection at the cursor |
| EditorCore.Editor.SelectAll | src/editor/Editor.ts:947-954 | enters SHIFT_SELECT with the whole buffer selected |
| EditorCore.Editor.BlockSelect | src/editor/Editor.ts:956-962 | enters BLOCK mode with an empty selection at the cursor |
| EditorCore.Editor.KeyInsert | src/editor/Editor.ts:435-437 | toggles between insert and overwrite |
| EditorCore.Editor.KeyEscape | src/editor/Editor.ts:933-935 | returns to EDIT mode |
| EditorCore.Editor.GotoTop | src/editor/Editor.ts:744-748 | the cursor and the view go to line 0 in EDIT mode |
| EditorCore.Editor.GotoLast | src/editor/Editor.ts:750-754 | the cursor goes to the last line, the view to ten lines above it, in EDIT mode |
| EditorCore.Editor.TypeInEdit | src/editor/Editor.ts:579-591 | typing in EDIT mode steps the state as InputDataState says |
| EditorCore.Editor.InputData | src/editor/Editor.ts:571-592 | read-only changes nothing; otherwise the selection is left and the text typed as InputDataState says |
| EditorCore.Editor.KeyDelete | src/editor/Editor.ts:439-470 | read-only changes nothing; otherwise the selection is left and Delete steps as KeyDeleteState says |
| EditorCore.Editor.DeleteInEdit | src/editor/Editor.ts:446-469 | Delete in EDIT mode steps as KeyDeleteState says |
| EditorCore.Editor.BackspaceSelection | src/editor/Editor.ts:475-482 | Backspace on a selection deletes it and steps as BackspacePrelude says |
| EditorCore.Editor.BackspaceJoin | src/editor/Editor.ts:490-500 | Backspace at column 0 merges the line up as KeyBSState says |
| EditorCore.Editor.BackspaceInLine | src/editor/Editor.ts:501-517 | Backspace inside a line steps as KeyBSState says |
| EditorCore.Editor.KeyBS | src/editor/Editor.ts:472-520 | read-only changes nothing; otherwise the state steps as BackspacePrelude then KeyBSState say, and stays valid unless the selection started below the buffer |
| EditorCore.Editor.SaveBlock | src/editor/Editor.ts:528-532 | returns the texts of lines y1..y2 and changes nothing |
| EditorCore.Editor.IndentBlock | src/editor/Editor.ts:533-536 | the loop prefixes a tab to lines y1..y2 as IndentLines says |
| EditorCore.Editor.UnindentBlock | src/editor/Editor.ts:554-559 | the loop strips a leading tab from lines y1..y2 as UnindentLines says |
| EditorCore.Editor.KeyTab | src/editor/Editor.ts:522-541 | read-only changes nothing; otherwise Tab steps as KeyTabState says and the state stays valid |
| EditorCore.Editor.KeyUntab | src/editor/Editor.ts:543-565 | read-only changes nothing; otherwise Shift-Tab steps as KeyUntabState says and the state stays valid |
| EditorCore.Editor.ScreenMemSave | src/editor/Editor.ts:176-199 | only the view's first line changes, as ScrolledFirstLine says, and no view is drawn outside SELECT mode |
| EditorCore.Editor.SplitAtCursor | src/editor/Editor.ts:690-709 | the cursor line is split as SplitLine says, the indent width is returned and the delSize-2 record is pushed |
| EditorCore.Editor.KeyEnter | src/editor/Editor.ts:683-720 | read-only changes nothing; otherwise the selection is left and Enter steps as KeyEnterState says |
| EditorCore.Editor.EnterInEdit | src/editor/Editor.ts:690-719 | Enter in EDIT mode steps as KeyEnterState says |
| EditorCore.Editor.Copy | src/editor/Editor.ts:756-788 | in EDIT mode nothing happens; a selection past the buffer is only sorted; otherwise the clipboard gets exactly the selected texts as a copy and the mode returns to EDIT |
| EditorCore.Editor.Cut | src/editor/Editor.ts:790-824 | as Copy, with a cut clipboard, and the selection is then deleted as SelectedDelState says unless read-only |
| EditorCore.Editor.PasteClipLines | src/editor/Editor.ts:846-862 | no clips change nothing; n >= 2 clips are inserted as PasteLines says, with the cursor n - 1 lines down at the end of the last pasted line, past the old tail |
| EditorCore.Editor.PasteClips | src/editor/Editor.ts:830-862 | pasting the clips steps the state as PasteText says |
| EditorCore.Editor.PasteInEdit | src/editor/Editor.ts:830-869 | paste in EDIT mode steps as PasteState says |
| EditorCore.Editor.Paste | src/editor/Editor.ts:826-870 | read-only changes nothing; otherwise the selection is left and the clipboard pasted as PasteState says |
| EditorCore.Editor.UndoOverwrite | src/editor/Editor.ts:882-886 | the loop overwrites the record's lines as UndoBuffers says |
| EditorCore.Editor.UndoInsert | src/editor/Editor.ts:887-903 | the loop restores the first line and inserts the others as UndoBuffers says |
| EditorCore.Editor.UndoRemove | src/editor/Editor.ts:904-925 | the loop removes delSize - 1 lines and restores one as UndoBuffers says |
| EditorCore.Editor.Undo | src/editor/Editor.ts:872-931 | undo steps the state as UndoState says and keeps it valid |
| EditorCore.Editor.NewFile | src/editor/Editor.ts:268-281 | the buffer and undo log are emptied, the cursor and view reset, insert mode on and the search cleared |
| EditorCore.Editor.Load | src/editor/Editor.ts:283-302 | succeeds exactly for non-empty data; then the buffer and DOS mode are what the line split gives, and the state is valid; on failure the buffer is left empty |
| EditorCore.Editor.Save | src/editor/Editor.ts:313 | the saved text is the lines joined with CRLF in DOS mode and LF otherwise |
| EditorCore.Editor.ScanForward | src/editor/Editor.ts:1036-1054 | the scan loop reports no match exactly when FindFrom finds none, and otherwise the same line and column |
| EditorCore.Editor.SelectMatch | src/editor/Editor.ts:1038-1051 | a match is selected in SHIFT_SELECT mode with the cursor after it and the find position updated |
| EditorCore.Editor.FindNext | src/editor/Editor.ts:1027-1062 | an empty search string changes nothing; otherwise it finds exactly when FindFrom finds from the start line, selects that match and moves the cursor to its end; without a match the state is kept and the search wraps to line 0 |
| EditorCore.Editor.SearchPass | src/editor/Editor.ts:1033-1054 | one pass of the scan, as FindNext with a non-empty search string |
| EditorCore.TypeThenUndo | src/editor/Editor.ts:571-592 | typing then undo restores the buffer, the log and the cursor |
| EditorCore.EnterThenUndo | src/editor/Editor.ts:683-720 | Enter then undo restores the buffer, the log and the cursor |
| EditorCore.PasteThenUndo | src/editor/Editor.ts:826-870 | multi-line paste then undo restores the buffer, the log and the cursor |
| EditorCore.IndentThenUndo | src/editor/Editor.ts:522-541 | block Tab then undo restores the buffer and the log, with the column at 0 |
| EditorCore.FindNextTwice | src/editor/Editor.ts:1027-1054 | in shift-select mode a second find selects the same match as the first |

## Left out

- Filesystem access of `load` and `save`: reading and writing files, the temporary file and
  its rename, and file permissions. The model keeps only the split into lines and the join.
- The dialog-driven operations `gotoLinePromise`, `fileNewPromise`, `fileSavePromise`,
  `fileSaveAsPromise`, `findPromise` and `quitPromise`, and the message-box retry of
  `findNextPromise`. They wait on user prompts.
- `filePreviousPromise`, the backward search (src/editor/Editor.ts:1064-1102). It mirrors the
  forward scan with `lastIndexOf`, and only the forward scan is modelled.
- The view-building loop of `screenMemSave` (src/editor/Editor.ts:195-255). It needs the line
  tokenizer, which is not part of this model, and nothing bounds its retry. Only its prologue is
  modelled. The callers `keyEnter` and `paste` reach it in EDIT mode, so the loop is not what
  they change.
- `postUpdateLines` and `postLoad` are hooks for subclasses and are treated as doing nothing.
- The real `strWidth` and `scrSubstr` for tabs and double-width characters. Every character is
  taken to be one cell wide.
- The process-wide clipboard singleton. It is the field `clipboard` of the editor.
- Logging.
- `src/panel/Selection.ts`. It only holds a file list and reads directories.
- `indentMode`, `encoding`, the file and title fields, `lineNumberView`, `setEditor` and the
  mouse handler. They hold settings or draw the screen, and no modelled handler depends on them.
- Buffers that were never loaded are `undefined` in the source and the empty sequence here.
- Integer width: line and column numbers are unbounded, as JavaScript numbers are exact in this range.
- EditorCore.Editor.Undo: requires that the top record's line is at most the line count. A
  record pointing further out makes JavaScript write holes into the array, which a sequence
  cannot hold. A record at the line count is modelled: undo appends its texts.
- EditorCore.Editor.KeyTab: requires, in a selection mode, that the selection lies inside the
  buffer, because writes past the end would leave holes in the array.
- EditorCore.Editor.KeyUntab: same requirement as KeyTab.
- EditorCore.Editor.KeyPgUp: requires the viewport as `screenMemSave` leaves it, with
  0 <= firstLine <= lastLine < number of lines. The view fields are otherwise set by
  drawing code that is not modelled.
- EditorCore.Editor.KeyPgDn: same requirement as KeyPgUp.
- EditorCore.Editor.KeyBS: promises a valid state only when the cursor stays in the buffer. A
  selection starting below the last line moves the cursor outside it, as the source does.
- EditorCore.Editor.KeyEnter: requires a valid state, so the branch that appends a line when
  the cursor is below the last line (src/editor/Editor.ts:710-712) is not modelled.
- EditorCore.Editor.FindNext: one pass only. When nothing is found the source asks whether to
  search again, and answering "No" repeats the scan from line 0. The model stops after the pass
  with the position reset to line 0, and a following call then scans from there.
- EditorCore.Editor.NewFile: does not promise a valid state, because the source leaves the
  buffer empty.
