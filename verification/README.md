# PDCurses 3.4 core, modelled in Dafny

A model of the platform-independent core of PDCurses 3.4, in the variant
where every routine takes an explicit `SESSION *`. The library keeps a
grid of 16-bit character cells per window. Drawing marks the changed
columns of each row. Refreshing copies a window's changes onto the
virtual screen `curscr` (`wnoutrefresh`), then sends `curscr`'s changed
rows to the terminal (`doupdate`). Keys come in through a pushback
stack and a cooked-mode line buffer, and a line editor sits on top.
Soft function-key labels occupy a line at the bottom of the screen.

The model is functional. Its state is immutable records, and every
routine is a function from the old state to a status and the new state.

- **Cells** (`cells.dfy`, `attr.dfy`). A cell is a `bv16`: the character
  in the low byte, then the video attributes and a 5-bit colour pair.
  The attribute routines are bit functions on that value.
- **Store** (`store.dfy`, `window.dfy`). Lines of cells live in a heap of
  blocks. A window row is a reference `(block, row, column offset)`, so
  a subwindow is a view that shares its parent's cells, and views of
  views compose. Which window owns a block is tracked apart from the
  `_SUBWIN` flag, because `delwin` decides what to free from the flag.
  Changed columns are the `_firstch`/`_lastch` pair of each row, with
  `_NO_CHANGE = -1`.
- **Drawing** (`border.dfy`, `clear.dfy`, `readback.dfy`, `strdrivers.dfy`).
  The drawing routines are stated by the cells they leave and the way
  they widen the change spans. `waddnstr` and `winsnstr` are modelled as
  the sequences of `waddch`/`winsch` calls they issue.
- **Drawing on a session** (`syncdraw.dfy`, `syncclear.dfy`). wchgat,
  wborder, whline, wvline, wclrtoeol, wclrtobot, werase and wclear as
  whole routines: the null-window ERR, the drawing, and every PDC_sync
  they make. PDC_sync refreshes a window with immedok set at once, and
  touches a window with syncok set together with its ancestors.
- **Refresh** (`refresh.dfy`). `wnoutrefresh`, `doupdate` and `wrefresh`,
  with the platform's line painter as a recorded trace of calls. A
  replay function gives the trace its meaning on a model terminal.
- **Input** (`getch.dfy`, `getstr.dfy`, `mouse.dfy`). `wgetch` is a fold
  over a finite sequence of poll results, which stands in for the
  platform's key queue. Sleeps and echoes are recorded as effects.
  `wgetnstr` is a fold over keys.
- **Soft labels** (`slk.dfy`) and the **session lifecycle**
  (`initscr.dfy`, `util.dfy`).

## Model

| member | source | states |
|---|---|---|
| Cells.ColorPair | curses.h:596 | COLOR_PAIR sets no bit outside the colour field, and PAIR_NUMBER recovers the pair modulo 32 |
| Cells.PairNumber | curses.h:597 | PAIR_NUMBER is below 32, and shifting it back gives exactly the colour field of the cell |
| Cells.ColorPairRoundTrip | curses.h:596-597 | PAIR_NUMBER(COLOR_PAIR(n)) == n for every pair below 32 |
| Cells.FieldLayout | src/chars.h:70-91 | the character and attribute fields partition the 16 bits; the colour field (bits 11-15) lies in the attribute field; bold, reverse and blink are distinct bits outside it; A_STANDOUT is reverse and bold |
| Cells.NormalAliases | src/chars.h:78-85 | the attributes without a bit in the 16-bit build (underline, alternate charset, protect, invisible, ...) change no cell they are OR-ed into |
| MouseDefs.ActionOf | curses.h:109 | the action held in a button's status is one of the eight values of BUTTON_ACTION_MASK |
| MouseDefs.ButtonChangedBit | curses.h:140 | BUTTON_CHANGED(x) is bit x-1 and is disjoint from the moved, position and wheel bits |
| MouseDefs.MaskLayout | curses.h:147-184 | button 2's and 3's event masks are button 1's shifted by 5 and 10 bits; "moved" is the "triple clicked" bit; the wheel mask lies above every button mask |
| Attr.AttrOff | src/attr.c:100-110 | wattroff clears every requested bit, adds no bit, keeps every other attribute bit, and never holds character bits |
| Attr.AttrOn | src/attr.c:119-141 | wattron: a requested colour replaces the current one, and no requested colour keeps it |
| Attr.AttrOnVideo | src/attr.c:128-138 | wattron keeps every non-colour bit already on and adds the requested video bits |
| Attr.AttrOnOffInverse | src/attr.c:100-141 | wattron of video bits not yet set followed by wattroff of the same bits restores the attributes |
| Attr.AttrSet | src/attr.c:150-160 | wattrset stores the attribute field only: no character bits, the same video bits and the same colour pair |
| Attr.ColorSet | src/attr.c:202-212 | wcolor_set changes only the colour field, to the requested pair modulo 32 |
| Attr.AttrGet | src/attr.c:221-235 | wattr_get splits the attributes into video bits and a pair below 32, which recombine to the stored attributes |
| Attr.AttrSetPair | src/attr.c:272-282 | wattr_set followed by wattr_get returns the same video attributes and the same pair (modulo 32) |
| Attr.AttrSetGetRoundTrip | src/attr.c:150-235 | wattrset followed by wattr_get returns the video bits and the colour pair that were set |
| Attr.ApplyAttr | src/attr.c:100-282 | each attribute routine returns ERR exactly for a null window, and otherwise changes nothing but the window's current attributes |
| Attr.StandoutReplaces | src/attr.c:169-195 | standout leaves exactly A_STANDOUT and standend exactly A_NORMAL, whatever was set before (attrset, not attron) |
| Attr.GetAttrs | src/attr.c:197-200 | getattrs is the current attributes, or 0 for a null window |
| Attr.ChgAtAttr | src/attr.c:301 | the attribute field wchgat gives a cell holds no character bits, the requested video bits, and the requested colour with the new pair |
| Attr.ChgAtAttrPair | src/attr.c:301 | with no colour in the attribute argument, a restyled cell shows exactly the requested pair |
| Attr.RestyleKeepsChar | src/attr.c:305-308 | a restyled cell keeps its character and carries exactly the new attributes |
| Attr.Restyled | src/attr.c:303-308 | each restyled cell of the run is the old cell's character with the new attributes |
| Attr.WChgAt | src/attr.c:301-316 | wchgat's drawing before its PDC_sync (the whole routine is SyncDraw.WChgAtCall): the cursor row restyled from the cursor to the end of the row (n < 0) or to min(curx+n, maxx)-1, keeping characters; the span widens over the run; the cursor and every other cell stay |
| Border.Passthru | src/border.c:102-129 | `_attr_passthru` keeps the character; a colour of its own wins, else the window's, else the background's; background video bits are always added, the window's only when the character has no colour |
| Border.SideRows | src/border.c:159-163 | the side pass writes the left character at column 0 and the right one at the last column of each inner row, and nothing else |
| Border.TopBottom | src/border.c:153-157 | the top and bottom pass writes the edge characters between the corners of rows 0 and maxy-1, and nothing else |
| Border.Corners | src/border.c:165-168 | the corner pass writes the four corner cells, and nothing else |
| Border.CornersCompose | src/border.c:165-168 | the two row-end writes of the corner pass leave the four corners in place |
| Border.RowEnds | src/border.c:165-168 | the two end cells of one row are written, the right one last |
| Border.PassesAt | src/border.c:153-168 | at every cell, the three passes leave the border picture's value |
| Border.PassesCompose | src/border.c:153-168 | the top/bottom pass, then the side pass, then the corners compose to the border picture |
| Border.Bordering | src/border.c:153-174 | wborder's writes leave every outer cell holding its edge or corner character and every inner cell as it was |
| Border.BorderedRows | src/border.c:131-179 | the border picture depends on the window only through its rows |
| Border.WBorder | src/border.c:141-174 | wborder's drawing before its PDC_sync (the whole routine is SyncDraw.WBorderCall): zero arguments become the ACS defaults; outer cells hold the rendered border, inner cells are unchanged, every row is marked changed across the full width, and the cursor stays |
| Border.Box | src/border.c:189-194 | box(v, h) is wborder(v, v, h, h, 0, 0, 0, 0) |
| Border.BoxCells | src/border.c:189-194 | box leaves `v` on the sides, `h` on the top and bottom, and the default corner symbol in the corners |
| Border.WHLine | src/border.c:203-220 | whline's drawing before its PDC_sync (the whole routine is SyncDraw.WHLineCall): ERR for n < 1; otherwise it writes only columns curx..min(curx+n, maxx)-1 of the cursor row, widens that row's span over them, and keeps the cursor |
| Border.VLineCells | src/border.c:263-270 | the vertical line's cells are column curx of the rows it covers, and nothing else |
| Border.FirstsWidened | src/border.c:272-273 | the first edge of each drawn row never moves right and ends at or left of the column |
| Border.LastsWidened | src/border.c:275-276 | the last edge of each drawn row never moves left and ends at or right of the column |
| Border.WVLine | src/border.c:260-277 | wvline's drawing before its PDC_sync (the whole routine is SyncDraw.WVLineCall): ERR for n < 1; otherwise it writes column curx on rows cury..min(cury+n, maxy)-1, widens those rows' spans to include the column, and changes nothing else |
| Border.VLineSpans | src/border.c:263-277 | the spans after wvline: each drawn row widened to the cursor column, the other rows unchanged |
| Border.VLineSpansWf | src/border.c:263-277 | the widened spans only grow, stay inside the row, and take in the drawn column |
| Clear.WClrToEol | src/clear.c:61-74 | wclrtoeol's drawing before its PDC_sync (the whole routine, with the null-window ERR, is SyncDraw.WClrToEolCall): the cursor row from curx to the right edge holds the background; the span becomes [min(first, curx), maxx-1]; the cursor and all other cells stay |
| Clear.BlankRows | src/clear.c:99-107 | the rows from `i` down are filled with the background across the full width; the rows above keep their cells |
| Clear.SpansFrom | src/clear.c:99-107 | the rows from `i` down are marked changed across the full width; the other spans stay |
| Clear.BlankSpans | src/clear.c:99-107 | blanking the rows below keeps the spans well formed and marks those rows fully changed |
| Clear.WClrToBot | src/clear.c:96-108 | the cells and spans wclrtobot leaves if no PDC_sync intervenes (the whole routine is SyncClear.ClrToBot): every cell after the cursor in reading order holds the background, rows below are fully changed, the cursor row as in wclrtoeol, and the cursor and rows above stay |
| Clear.ClrToBotResult | src/clear.c:99-108 | blanking the rows below and then the rest of the cursor row clears everything after the cursor |
| Clear.ClrToBotSpans | src/clear.c:99-108 | the spans after wclrtobot: rows below fully changed, the cursor row widened as in wclrtoeol |
| Clear.ClrToBotCells | src/clear.c:99-108 | the cells after wclrtobot: background after the cursor, old values before it |
| Clear.WErase | src/clear.c:125-128 | werase's storage part if no PDC_sync intervenes (the whole routine is SyncClear.WEraseCall): every cell holds the background, the cursor is at the origin and every row is fully changed; ERR with nothing changed for a window without cells |
| Clear.EraseResult | src/clear.c:125-128 | clearing to the bottom from the origin blanks every cell and marks every row fully changed |
| Clear.ClearedFromOrigin | src/clear.c:125-128 | from the origin, "every cell after the cursor" is every cell |
| Clear.EraseSpans | src/clear.c:125-128 | clearing from the origin leaves every row changed across the full width |
| Clear.WClear | src/clear.c:145-146 | wclear's storage part if no PDC_sync intervenes (the whole routine is SyncClear.WClearCall): werase with the clear flag set; the flag is set whether or not the erase succeeds |
| Clear.ClearResult | src/clear.c:145-146 | erasing a window whose clear flag is set, before any refresh, keeps the flag and blanks every cell |
| Store.RowCells | src/curspriv.h:71 | a window row read through its reference has the window's width and holds the window's cells in order |
| Store.WriteRun | src/window.c:332-339 | writing through a line reference changes exactly the addressed columns of that one line and no other stored cell |
| Store.WriteRunSeenThrough | src/window.c:332-339 | a run written through one window is seen through every other window exactly at the cells on the same line and columns |
| Store.BackedSameShape | src/window.c:332-339 | storage of the same shape backs the same windows |
| Store.FillRow | src/clear.c:68-69 | filling cells lo..hi of a row sets exactly those cells and leaves the span alone |
| Store.PutRun | src/border.c:211-212 | storing a run into a row sets exactly those cells, in order, and keeps the store well formed |
| Store.SetCell | src/border.c:165-168 | storing one cell sets exactly that cell |
| Store.Widen | src/border.c:216-220 | the drawing routines' span update only widens: the first edge moves left to cover the change, the last edge right |
| Store.WidenSpansIn | src/border.c:216-220 | widening within the row keeps every edge either NO_CHANGE or a column of the row |
| Store.WidenWf | src/border.c:216-220 | widening within the row keeps the window well formed and its cells as they were |
| Store.TouchWin | src/window.c:400-401 | touchwin (not part of this model; stated as dupwin does it by hand) marks every row changed across its full width and changes nothing else |
| Store.TouchWinWf | src/window.c:400-401 | touching a window keeps it well formed |
| Store.TouchWinIdempotent | src/window.c:400-401 | touching a window that is already touched everywhere changes nothing |
| Store.UntouchWin | src/initscr.c:183-184 | untouchwin (not part of this model) marks every row unchanged and changes nothing else |
| Store.WMove | src/inch.c:76-79 | wmove (not part of this model) fails outside the window and otherwise moves only the cursor |
| ReadBack.CharOf | src/instr.c:76-79 | each byte winnstr stores is the character bits of its cell, the attributes dropped |
| ReadBack.CharsFrom | src/instr.c:76-81 | winnstr's buffer is the character bits of `cnt` cells from the cursor, then a NUL |
| ReadBack.WInNStr | src/instr.c:63-84 | winnstr: ERR for a null window or buffer; otherwise it returns the count, n clamped to the rest of the line (n < 0 meaning all of it), stores that many characters and a NUL, and leaves the window alone |
| ReadBack.WInStr | src/instr.c:94-99 | winstr returns OK (not the count) with the rest of the cursor row's characters, or ERR for a null buffer |
| ReadBack.CellsFrom | src/inchstr.c:75-80 | winchnstr's buffer is `cnt` full cells from the cursor, attributes included, then a 0 |
| ReadBack.WInChNStr | src/inchstr.c:59-83 | winchnstr: ERR for a null window or buffer or a negative n; otherwise OK (not the count, against its description) with min(n, rest of line) full cells and a 0 |
| ReadBack.WInChStr | src/inchstr.c:92-97 | winchstr reads full cells to the end of the line |
| ReadBack.InStrIsCharsOfInChStr | src/instr.c:63-84 | what winnstr reads is what winchnstr reads, reduced to character bits |
| ReadBack.WInCh | src/inch.c:45-53 | winch is the full cell under the cursor, or (chtype)ERR for a null window |
| ReadBack.MvWInCh | src/inch.c:72-80 | mvwinch returns (chtype)ERR with the window unchanged when the move fails; otherwise the cell at (y, x), with only the cursor moved |
| ReadBack.MvWInChReadsStored | src/inch.c:72-80 | a cell stored at (y, x) is what mvwinch reads back there |
| StrDrivers.Issue | src/addstr.c:73-78 | a driver issues its calls in order and stops right after the first failure, returning ERR; OK when all succeed |
| StrDrivers.IssueAllOk | src/addstr.c:73-80 | when every call succeeds, all of them are issued and the result is OK |
| StrDrivers.Drive | src/addstr.c:73-78 | the C loop (call while the previous succeeded) issues exactly what Issue describes |
| StrDrivers.ByteCell | src/addstr.c:75 | a byte passed as a chtype is zero-extended: it carries no attribute bits and keeps the byte |
| StrDrivers.AddCalls | src/addstr.c:73-78 | waddnstr's waddch calls are the first min(n, strlen) characters in order, or all of them for n < 0 |
| StrDrivers.WAddNStr | src/addstr.c:64-81 | waddnstr: ERR with no call for a null window or string; otherwise AddCalls in order, stopping with ERR at the first failed waddch, with earlier characters kept |
| StrDrivers.MvWAddNStr | src/addstr.c:135-145 | mvwaddnstr returns ERR without any waddch call when the move fails, otherwise waddnstr from the new cursor |
| StrDrivers.InsCount | src/insstr.c:39-41 | the corrected count: n characters when 0 <= n <= strlen, the whole string otherwise |
| StrDrivers.InsCalls | src/insstr.c:82-84 | winsnstr's winsch calls are the first InsCount characters, last one first |
| StrDrivers.WInsNStr | src/insstr.c:68-87 | winsnstr: ERR with no call for a null window or string; otherwise InsCalls, stopping with ERR at the first failed winsch |
| StrDrivers.InsCountAsWritten | src/insstr.c:79 | the count the code computes: any n below the length, negative or not, becomes the length; a larger n stays |
| StrDrivers.InsCallsAsWritten | src/insstr.c:79-84 | the calls the code issues read the string's memory up to the as-written count, the NUL and beyond included |
| StrDrivers.InsCountAsWrittenWrong | src/insstr.c:79 | "abc" with n = 1 inserts three characters, and "ab" with n = 3 first inserts the NUL behind the string |
| StrDrivers.InsCountBounded | src/insstr.c:39-41 | with the corrected count, winsnstr never inserts more than n characters (n >= 0) and never reads past the string |
| StrDrivers.InsertAt | src/insstr.c:30-39 | inserting a character at the cursor shifts the rest of the line right and drops the last cell |
| StrDrivers.InsertAll | src/insstr.c:82-84 | a run of insertions at a fixed cursor, applied in call order |
| StrDrivers.InsertReversedReadsForward | src/insstr.c:30-39 | inserting characters last-first at a fixed cursor leaves them reading forward, followed by the old rest of the line, cut to the width |
| StrDrivers.InsStrReadsForward | src/insstr.c:68-87 | winsnstr's calls leave its text reading forward at the cursor |
| Util.CharText | src/util.c:86 | unctrl looks only at the low byte of a chtype |
| Util.Unctrl | src/util.c:78-103 | unctrl: a printable character stands for itself, DEL is "^?", any other control character is '^' and the character 0x40 above; the result has length 1 or 2 |
| Util.UnctrlDistinguishes | src/util.c:78-103 | two chtypes print alike exactly when their character bytes agree |
| Util.UnctrlIgnoresAttributes | src/util.c:86 | attribute bits never change what unctrl prints |
| Util.StartedLines | src/util.c:122-125 | after initscr, LINES is the screen's rows less the soft-label and ripped-off lines |
| Util.EraseChar | src/termattr.c:81-86 | erasechar is ^H, the character the line editor deletes with |
| Util.KillChar | src/termattr.c:102-107 | killchar is ^U, the character the line editor kills the line with |
| Util.WordChar | src/termattr.c:145-150 | wordchar is ^W, the character the line editor deletes a word with |
| Util.TermAttrs | src/termattr.c:116-128 | termattrs always has blink, bold and reverse, never character bits, and has the colour field exactly when the screen is not monochrome |
| Util.TermAttrsWide | src/termattr.c:130-136 | term_attrs is exactly blink, bold and reverse: the other WA_ attributes it names have no bit in the 16-bit build, and it never reports colour |
| Util.LongName | src/termattr.c:109-114 | longname is ttytype with its 9-character "pdcurses\|" prefix dropped |
| Util.LongNameOf | src/termattr.c:109-114 | longname of "pdcurses\|" followed by a description is that description |
| Util.StartedNames | src/initscr.c:203 | after initscr, longname is "PDC on " followed by the platform's name |
| Windows.OwnedRows | src/window.c:189-221 | an owning window's row `i` refers to line `i` of its own block, from column 0 |
| Windows.Block | src/window.c:189-221 | a fresh block has the requested number of lines, each of the requested width, every cell the given value |
| Windows.FreshBlockFrame | src/window.c:189-221 | adding a fresh block changes no cell seen through an existing window |
| Windows.OwnerWf | src/window.c:189-221 | a window owning a fresh block of its own size is well formed over it |
| Windows.MakeNew | src/window.c:134-187 | PDC_makenew: the requested geometry, a blank background, the bottom margin on the last line, no parent, the clear flag exactly for a LINES x COLS window, every row changed |
| Windows.NewWin | src/window.c:233-256 | newwin: NULL when zero extents (defaulted to the rest of the screen) still pass the screen's edge or allocation fails; otherwise a fresh id for a window that owns a fresh block, every cell blank, cursor at the origin, every row changed |
| Windows.FreshWindowErased | src/window.c:249-253 | whatever the fresh block held, newwin's werase leaves every cell blank and the window as built |
| Windows.EraseOfTouched | src/window.c:249-253 | erasing a window already touched everywhere with the cursor at the origin changes only its cells |
| Windows.NewWinKeepsStore | src/window.c:233-256 | newwin keeps the store consistent and every existing window's cells as they were |
| Windows.DelWin | src/window.c:258-280 | delwin: ERR for a null window; otherwise the window leaves the store, and its block is freed exactly when neither _SUBWIN nor _SUBPAD is set |
| Windows.DelWinKeepsStore | src/window.c:258-280 | deleting a window that no other window depends on keeps the store consistent |
| Windows.MvWin | src/window.c:282-295 | mvwin: ERR with no change unless the moved window fits the LINES x COLS screen; otherwise only the origin changes and the window is touched |
| Windows.ViewRows | src/window.c:332-339 | a view's row `i` is the original's row `i + j` shifted `k` columns right |
| Windows.ViewGet | src/window.c:332-339 | a view is backed by its original's storage, and its cell (i, c) is the original's cell (i + j, c + k) |
| Windows.ViewCompose | src/window.c:332-339 | a view of a view is a view of the original at the summed offset |
| Windows.ViewWriteShared | src/window.c:332-339 | a cell written through a view is seen through the original at the shifted position, and no other cell of the original changes |
| Windows.SubWinRecord | src/window.c:297-342 | subwin's record: NULL unless the rectangle lies inside the original (zero extents defaulting to one less than the remaining extent) and allocation succeeds; otherwise a view at the offset, inheriting attributes, background and modes, marked _SUBWIN with the original as parent |
| Windows.SubWin | src/window.c:297-342 | subwin adds that record under a fresh id and leaves the storage untouched, so the new window shows the original's cells |
| Windows.SubWinKeepsStore | src/window.c:297-342 | subwin keeps the store consistent |
| Windows.SubWinShows | src/window.c:332-339 | cell (i, c) of the new subwindow is the original's cell at (i + offset, c + offset) |
| Windows.SubWinRecordShows | src/window.c:332-339 | a subwindow record is well formed over the original's storage and shows its cells at the offset |
| Windows.DerWin | src/window.c:344-347 | derwin is subwin with the position taken relative to the original's origin |
| Windows.MvDerWin | src/window.c:349-372 | mvderwin: ERR with no change for a null window, no parent, or an offset that leaves the parent; otherwise the window becomes a view of its parent at the new offset, with its screen origin and spans unchanged |
| Windows.CopyBlock | src/window.c:394-402 | the duplicate's block holds the original's cells row by row |
| Windows.Duplicate | src/window.c:394-423 | the duplicate has the original's cursor, geometry, attributes, background and modes, without immedok, syncok or the delay, and every row changed |
| Windows.DupStore | src/window.c:374-426 | the store after a successful dupwin: a fresh block holding the original's cells, owned by a new window |
| Windows.DupStoreCopies | src/window.c:394-423 | the duplicate's cells equal the original's, and its fields are the original's apart from what dupwin does not copy |
| Windows.DupWinAsWritten | src/window.c:374-426 | dupwin as written: NULL for a null window or failed allocation; otherwise a fresh owning window whose flags are copied verbatim, _SUBWIN included |
| Windows.DupWinAsWrittenLeaks | src/window.c:410 | duplicating a subwindow as written gives an owning window marked _SUBWIN, and deleting it leaves its block allocated with no window reading it |
| Windows.DupWin | src/window.c:374-426 | dupwin with _SUBWIN cleared on the owning duplicate: cells, cursor, geometry, attributes, background and modes equal the original's, every row changed |
| Windows.DupWinKeepsStore | src/window.c:374-426 | dupwin keeps the store consistent |
| Windows.DupStoreKeepsStore | src/window.c:374-426 | the store after a successful dupwin is consistent and every other window's cells are unchanged |
| Windows.DupThenDelRestores | src/window.c:258-280 | with _SUBWIN cleared, dupwin followed by delwin of the duplicate restores the windows and the storage |
| Windows.DupStoreThenDel | src/window.c:269-272 | deleting the duplicate frees exactly the block dupwin allocated |
| Windows.AddOwnerKeepsStore | src/window.c:189-221 | adding a window that owns a fresh block of its size keeps the store consistent and every other window's cells |
| Windows.FreshBlockKeepsStore | src/window.c:189-221 | adding a fresh block keeps the store consistent and every window's cells |
| Windows.ResizeCursorAsWrittenEscapes | src/window.c:468-469 | a cursor on row 5 of a window resized to 3 rows lands on row 3, outside the window |
| Windows.ResizeCursor | src/window.c:468-469 | the corrected clamp keeps a coordinate that still exists and otherwise moves it to the last row or column |
| Windows.ResizeKeepsCursorIn | src/window.c:468-469 | with the corrected clamp, a cursor inside the window stays inside the resized window and keeps every coordinate that still exists |
| Windows.Resized | src/window.c:486-502 | the resized window takes the new geometry and rows, keeps the old flags, attributes, modes, parent and background, adjusts the margins, and clamps the cursor with the corrected clamp (Windows.ResizeCursor), not the written min(cur, extent) |
| Windows.ResizedLine | src/window.c:471-479 | row `i` of a resized owning window holds the old cells where both extents have them and blanks elsewhere |
| Windows.ResizedBlock | src/window.c:471-479 | the resized owner's block is werase's blanks with the overlap copied from the old window |
| Windows.ResizeWindow | src/window.c:428-512 | resize_window, with the corrected cursor clamp: NULL with no change for a null window or when the new window cannot be built; otherwise the same id holds the resized window, a subwindow becoming a new view of its parent at its screen origin |
| Windows.WResize | src/window.c:514-517 | wresize reports resize_window's outcome as OK or ERR |
| Windows.ResizeWindowKeepsStore | src/window.c:428-512 | resize_window keeps the store consistent when no subwindow still reads the lines the owner gives up |
| Windows.ResizeSubKeepsStore | src/window.c:445-450 | resizing a subwindow keeps the store consistent |
| Windows.ResizeOwnerKeepsStore | src/window.c:471-509 | resizing an owning window keeps the store consistent when no subwindow reads its old lines |
| Windows.OtherWinStaysBacked | src/window.c:481-483 | a window sharing no block with the resized one stays backed when its block is swapped for a fresh one |
| Windows.ResizeOwnerKeepsCells | src/window.c:471-479 | a resized owning window keeps its cells where the old and new extents overlap and is blank elsewhere |
| Windows.ResizeSubShowsParent | src/window.c:445-450 | a resized subwindow lies inside its parent at the offset of their screen origins and shows the parent's cells there |
| Windows.ResizedViewShowsParent | src/window.c:445-450 | a window given the rows of a view of its parent shows the parent's cells at the view's offset |
| Windows.Chain | src/window.c:525-526 | the windows wsyncup walks: the window, then each ancestor along the _parent links |
| Windows.ChainFrame | src/window.c:525-526 | the chain depends only on the parent links, so touching windows does not change it |
| Windows.WSyncUp | src/window.c:519-527 | wsyncup touches the window, then its parent, and so on up the chain |
| Windows.SyncUpUnfold | src/window.c:519-527 | the walk from a window is touching it, then the walk from its parent |
| Windows.WSyncUpTouchesChain | src/window.c:519-527 | after wsyncup, the window and every ancestor are touched and no other window changes |
| Windows.SyncUpChainStep | src/window.c:519-527 | the inductive step: touching the window, then walking up from its parent, touches exactly the chain |
| Windows.TouchingKeepsStore | src/window.c:519-527 | touching windows keeps the store consistent |
| Windows.SyncOk | src/window.c:529-539 | syncok: ERR for a null window; otherwise only the window's _sync flag changes, to the argument |
| Windows.ChainTouchedMeans | src/window.c:557-564 | wsyncdown's walk finds a change exactly when some window of the chain has one |
| Windows.WSyncDown | src/window.c:551-565 | wsyncdown touches the window exactly when it or an ancestor has a change; no other window changes |
| Windows.WCurSyncUp | src/window.c:541-549 | wcursyncup walks up the chain, moving each parent's cursor to its child's cursor plus the child's offset |
| Windows.CurSyncStep | src/window.c:547-548 | one step sets the parent's cursor to the child's plus its offset, when that is a cell of the parent |
| Windows.WCurSyncUpCursorOnly | src/window.c:541-549 | wcursyncup changes nothing but cursors |
| Windows.StepCursorOnly | src/window.c:547-548 | one step changes nothing but the parent's cursor |
| Windows.MoveCursorOnly | src/window.c:547-548 | the wmove of a step changes nothing but the cursor |
| Windows.WCurSyncUpFrame | src/window.c:541-549 | wcursyncup moves only the cursors of the ancestors, never the window's own |
| Windows.WCurSyncUpMoves | src/window.c:541-549 | after wcursyncup, each window of the chain that has a parent has that parent's cursor where wmove puts the child's final cursor plus the child's offset |
| Windows.CurSyncUpStep | src/window.c:541-549 | the inductive step of WCurSyncUpMoves: the first move, then the walk from the parent |
| Windows.FollowsAcrossStep | src/window.c:541-549 | an ancestor follows its parent the same way whether or not the first move is counted |
| Refresh.TrimFirst | src/refresh.c:86-87 | the first edge advances only over columns where the window already agrees with curscr, and stops at a difference |
| Refresh.TrimLast | src/refresh.c:89-90 | the last edge retreats only over agreeing columns, and stops at a difference |
| Refresh.RefreshRow | src/refresh.c:78-107 | one row of wnoutrefresh: the trimmed span of the window row is copied to curscr at the window's column, and curscr's span widens to the copied columns |
| Refresh.CopyTrimmed | src/refresh.c:94-107 | the copy of the trimmed span and the curscr span widened over it |
| Refresh.CopiedRow | src/refresh.c:94-97 | the copied row agrees with the window on the whole original span and changes only the trimmed columns |
| Refresh.ScreenRow | src/refresh.c:73-114 | a curscr row the window covers goes through RefreshRow; any other row is unchanged |
| Refresh.WNoutRefresh | src/refresh.c:60-126 | wnoutrefresh: ERR with no change for a null window, pad or subpad; otherwise curscr equals the window on every column of every changed span and nowhere else changes, curscr's spans only widen, the window is left with no changes and no clear flag, and curscr's cursor follows unless leaveok |
| Refresh.CopyIn | src/refresh.c:73-123 | curscr after copying the window in row by row, with the cursor moved unless leaveok |
| Refresh.RefreshedRows | src/refresh.c:73-114 | the row-by-row facts assembled into the whole-screen statement |
| Refresh.RefreshKeepsSynced | src/refresh.c:99-107 | whatever wnoutrefresh copies lies inside curscr's widened spans, so the terminal stays in step with curscr outside them |
| Refresh.RowKeepsSynced | src/refresh.c:99-107 | a column outside a row's new span was outside the old one and did not change |
| Refresh.RefreshCleanCopiesNothing | src/refresh.c:73-114 | a window with no changed span copies nothing to curscr |
| Refresh.CleanRowUnchanged | src/refresh.c:75 | a row with no change leaves its curscr row and span as they were |
| Refresh.WNoutRefreshTwice | src/refresh.c:110-113 | a second wnoutrefresh right after the first copies nothing more |
| Refresh.ApplyPaint | src/refresh.c:172-175 | only a line paint changes the terminal, and only on its row and columns |
| Refresh.Apply | src/refresh.c:147-188 | a trace of platform calls replayed in order |
| Refresh.ApplyAppend | src/refresh.c:147-188 | replaying two traces one after the other is replaying their concatenation |
| Refresh.ApplyCons | src/refresh.c:147-188 | replaying a trace starting with one call is that call, then the rest |
| Refresh.ApplyNoPaint | src/refresh.c:184-185 | a trace without line paints leaves the terminal's lines alone |
| Refresh.PaintRows | src/refresh.c:147-180 | doupdate's row loop sends one paint per row with a change (every row in full when repainting), in row order, covering that row's span |
| Refresh.RowPainted | src/refresh.c:172-175 | painting a row's span over a row that agrees elsewhere yields curscr's row |
| Refresh.RowUnpainted | src/refresh.c:153 | a row doupdate does not paint already shows curscr's row |
| Refresh.PaintRowsShow | src/refresh.c:147-180 | replaying the row loop on a terminal in step with curscr outside the spans leaves every row from `y` showing curscr and the rows above untouched |
| Refresh.PaintRowStep | src/refresh.c:153-178 | one turn of the row loop leaves its row showing curscr and the other rows untouched |
| Refresh.ResetSpans | src/refresh.c:177-178 | every row the loop visits ends with NO_CHANGE |
| Refresh.DoUpdate | src/refresh.c:128-191 | doupdate: ERR with no change without curscr; after endwin it resets the program mode and repaints every row in full, as it does when curscr's clear flag is set, and otherwise paints each changed span; afterwards every span is NO_CHANGE, the clear flag is off and the cursor is recorded |
| Refresh.TraceParts | src/refresh.c:138-188 | doupdate's calls are the mode reset, the row loop and the cursor move, in that order |
| Refresh.DoUpdateShows | src/refresh.c:128-191 | replaying doupdate's calls on a terminal in step with curscr outside the spans (any terminal, when it repaints everything) leaves the terminal showing exactly curscr |
| Refresh.AllRowsShow | src/refresh.c:147-180 | the whole row loop over a terminal whose rows agree with curscr outside the spans yields curscr's lines |
| Refresh.DoUpdateTwice | src/refresh.c:177-188 | a second doupdate right after the first paints nothing, so the terminal keeps what it shows |
| Refresh.RefreshCopiesDirty | src/refresh.c:73-114 | after wnoutrefresh, curscr holds the window's cell at every position the window had marked changed |
| Refresh.CopiedDirty | src/refresh.c:73-114 | a curscr refreshed from a window holds the window's cell at each of its changed positions |
| Refresh.WRefresh | src/refresh.c:193-213 | wrefresh: ERR with no change and no paint for a null window, pad or subpad; for curscr a full repaint; otherwise wnoutrefresh then doupdate, repainting in full when a full-screen window had its clear flag set |
| Refresh.Refresh | src/refresh.c:215-220 | refresh is wrefresh of stdscr |
| Refresh.WRefreshShows | src/refresh.c:193-213 | after wrefresh of a window, the terminal shows curscr, and every position the window had changed shows the window's cell |
| Refresh.WRefreshPaintsCurscr | src/refresh.c:193-213 | after wrefresh, the terminal shows the curscr that wnoutrefresh produced |
| Refresh.WRefreshCurscrRepaints | src/refresh.c:204-205 | wrefresh of curscr repaints everything, whatever the terminal showed before |
| Refresh.WRedrawLnAsWritten | src/refresh.c:222-239 | wredrawln as written checks for a null window and a range past the bottom but not for a start above the top |
| Refresh.WRedrawLnAsWrittenUnderruns | src/refresh.c:229 | a one-row redraw from row -1 passes the guard and writes span entry -1 |
| Refresh.SetSpans | src/refresh.c:232-236 | the entries start..start+num-1 are set and no others change |
| Refresh.WRedrawLn | src/refresh.c:222-239 | corrected wredrawln: ERR with no change for a null window or a range outside the window; otherwise exactly rows start..start+num-1 become changed across the full width |
| Refresh.WRedrawLnGuard | src/refresh.c:229 | the corrected guard accepts exactly the calls the written one accepts whose entries are all rows of the window, except empty ranges above the top |
| Refresh.NewWinAsWrittenAboveScreen | src/window.c:246-248 | newwin as written accepts a window at row -1 of a 24 by 80 screen, and no curscr can hold that window |
| Refresh.NewWinPlacedOnScreen | src/window.c:246-248 | on a curscr of the physical screen's size, a window newwin builds lies on the screen exactly when its origin is not above or left of it, that is exactly when the corrected guard (near edges checked too) accepts it |
| Refresh.RedrawWin | src/refresh.c:241-249 | redrawwin is ERR for a null window and otherwise wredrawln over every row |
| Refresh.RedrawWinIsTouchWin | src/refresh.c:241-249 | redrawwin does what touchwin does |
| Refresh.ImmedWin | src/window.c:227-228 | a window with immedok set (not a pad) is left as wrefresh leaves it; otherwise unchanged |
| Refresh.PdcSync | src/window.c:223-231 | PDC_sync: immedok refreshes the window at once; then syncok touches the window and every ancestor, and nothing else about the windows changes |
| Refresh.SyncWins | src/window.c:223-231 | the windows after PDC_sync: the window replaced, then its chain touched when syncok is set |
| Refresh.SyncUpReplaced | src/window.c:229-230 | wsyncup after replacing the window touches the new window and the old ancestors, and nothing else |
| SyncDraw.Sync | src/window.c:223-231 | PDC_sync after a drawing routine: OK over the same storage; refreshed exactly when immedok is set on a window that is no pad, which shows every changed cell on curscr, keeps the others, and drops the window's changes and clear flag; without it curscr, the terminal and the calls are untouched; under syncok the window and its ancestors end up touched |
| SyncDraw.SyncIsPdcSync | src/window.c:223-231 | Sync agrees with PDC_sync (Refresh.PdcSync) run on the windows with the drawn window put in place |
| SyncDraw.SyncTerminal | src/window.c:227-228 | PDC_sync keeps a terminal that agrees with curscr in agreement, and after a refresh the terminal shows curscr line for line |
| SyncDraw.WChgAtCall | src/attr.c:291-321 | wchgat with its closing PDC_sync: ERR with nothing changed exactly for a null window; otherwise OK over storage of the same shape, the window still drawable |
| SyncDraw.WChgAtCallOutcome | src/attr.c:300-318 | wchgat then PDC_sync: the run from the cursor to the end position restyled with its characters kept, every other cell kept; the windows as PDC_sync leaves them after the span widens over the run; with immedok the run is on curscr at once |
| SyncDraw.WBorderCall | src/border.c:131-179 | wborder with its closing PDC_sync: ERR with nothing changed exactly for a null window; otherwise OK over storage of the same shape |
| SyncDraw.WBorderCallOutcome | src/border.c:141-176 | wborder then PDC_sync: the border picture of Border.WBorder with every row touched, the windows as PDC_sync leaves them; with immedok every cell of the window is on curscr at once |
| SyncDraw.WBorderCallShown | src/border.c:170-176 | with immedok on a window that is no pad, wborder leaves the whole window on curscr |
| SyncDraw.WHLineCall | src/border.c:196-225 | whline with its closing PDC_sync: ERR with nothing changed exactly for a null window or n < 1; otherwise OK over storage of the same shape |
| SyncDraw.WHLineCallOutcome | src/border.c:206-222 | whline then PDC_sync: the line drawn from the cursor to the end position, every other cell kept; the windows as PDC_sync leaves them after the row's span widens; with immedok the line is on curscr at once |
| SyncDraw.WVLineCall | src/border.c:254-282 | wvline with its closing PDC_sync: ERR with nothing changed exactly for a null window or n < 1; otherwise OK over storage of the same shape |
| SyncDraw.WVLineCallOutcome | src/border.c:262-279 | wvline then PDC_sync: the cursor column drawn down n rows or to the bottom, every other cell kept; the windows as PDC_sync leaves them after those rows' spans widen; with immedok the drawn column is on curscr at once |
| SyncDraw.WVLineCallShown | src/border.c:272-279 | with immedok on a window that is no pad, the drawn stretch of the column is on curscr after wvline |
| SyncDraw.WClrToEolCall | src/clear.c:50-78 | wclrtoeol with its closing PDC_sync: ERR with nothing changed exactly for a null window; otherwise OK over storage of the same shape |
| SyncDraw.WClrToEolCallOutcome | src/clear.c:61-76 | wclrtoeol then PDC_sync: the cursor row blanked from the cursor to the right edge, every other cell kept; the windows as PDC_sync leaves them after the span widens to [min(first, curx), maxx-1]; with immedok the blanked stretch is on curscr at once |
| SyncClear.ClrRows | src/clear.c:99-104 | the loop of wclrtobot, each row's wclrtoeol with its PDC_sync: the rows below the cursor hold the background across the full width and every other cell is kept; without immedok or syncok those rows are fully changed and the other spans kept; with immedok those rows are on curscr and every other cell is shown or kept |
| SyncClear.ClrTail | src/clear.c:105-111 | after the loop: the cursor restored, the rest of the cursor row cleared with its PDC_sync, then wclrtobot's own PDC_sync, leaving what ClearedBelow describes |
| SyncClear.ClrToBot | src/clear.c:87-112 | wclrtobot on a window, every PDC_sync included: the cells after the cursor are the background, the cells before it kept, the cursor kept; the windows as PDC_sync leaves Clear.WClrToBot's window; with immedok the cleared part is on curscr and the rest shown or kept; without it curscr, the terminal and the calls are untouched |
| SyncClear.WClrToBotCall | src/clear.c:87-112 | wclrtobot: ERR with nothing changed exactly for a null window; otherwise ClrToBot's outcome |
| SyncClear.EraseAll | src/clear.c:125-128 | werase of a window with cells, every PDC_sync included: every cell holds the background, the cursor is at the origin, the windows as PDC_sync leaves Clear.WErase's window, and with immedok every cell is on curscr |
| SyncClear.ErasedByClear | src/clear.c:125-128 | wclrtobot from the origin, once wmove has put the cursor there, leaves what werase leaves |
| SyncClear.WEraseCall | src/clear.c:121-129 | werase: ERR with nothing changed exactly for a null window or a window without cells (where wmove fails); otherwise EraseAll's outcome |
| SyncClear.WClearCall | src/clear.c:138-147 | wclear: ERR with nothing changed for a null window; ERR with only the clear flag set for a window without cells; otherwise every cell the background, with the flag still set when immedok is off and spent by PDC_sync's refresh when it is on |
| SyncClear.ClearedByErase | src/clear.c:145-146 | werase on the window with its clear flag set leaves what wclear promises |
| SyncClear.ChainReplaced | src/window.c:519-527 | replacing a window by one with the same parent keeps the links and the chain of ancestors wsyncup walks from any window |
| Getch.Ungetch | src/getch.c:305-318 | PDC_ungetch: ERR with no change once NUNGETCH keys are stacked; otherwise the key goes on top and nothing else changes |
| Getch.UngetchLifo | src/getch.c:188-189 | two pushed-back keys come back last-in-first-out and leave the input as it was |
| Getch.FlushInp | src/getch.c:320-334 | flushinp empties the pushback stack and leaves nothing buffered (read index past write index) |
| Getch.FlushedInputIsEmpty | src/getch.c:329-331 | after flushinp, wgetch behaves as on input that never held a key |
| Getch.FilterButton | src/getch.c:96-117 | one pass of the filter clears button i's changes bit exactly when it is set and its action is untrapped under the mask shifted by 5i |
| Getch.FilterChanges | src/getch.c:94-132 | each button bit survives iff it was set and its event is wanted (triple clicks always); the moved bit iff some BUTTONk_MOVED is trapped; the wheel bits iff MOUSE_WHEEL_SCROLL is trapped; other bits stay |
| Getch.ButtonMaskIsShift | src/getch.c:98-114 | shifting button 1's mask by 5i picks exactly the named mask of button i+1 |
| Getch.FilterByNamedMask | src/getch.c:94-117 | a button event passes iff it changed and it is a triple click or its named mask is trapped |
| Getch.MouseKey | src/getch.c:84-150 | `_mouse_key`: -1 when no changes bit survives; on a soft label, that label's function key iff button 1's status has the pressed or clicked bit, else -1; elsewhere KEY_MOUSE |
| Getch.SlkKeyActions | src/getch.c:141-147 | the label test is on bits: a double click or a move also yields the function key, a triple click or release does not |
| Getch.WaitCount | src/getch.c:161-176 | the number of 50 ms sleeps: twice the halfdelay tenths, else the window delay in 50 ms steps but at least one, else none |
| Getch.Entry | src/getch.c:178-184 | wgetch first refreshes a window that is not a pad and is touched or whose cursor is not where the screen's is (unless leaveok) |
| Getch.Classify | src/getch.c:230-242 | a special key is dropped (-1) without keypad, a mouse event becomes `_mouse_key`'s result, any other key passes |
| Getch.TranslateCr | src/getch.c:251-252 | '\r' becomes '\n' exactly when autocr is on and raw mode is off |
| Getch.BufferKey | src/getch.c:269-276 | '\b' drops the last unread key if any; another key is stored while fewer than INBUFSIZ-2 are; nothing else changes |
| Getch.Feed | src/getch.c:269-276 | cooked-mode buffering of keys one after the other keeps the buffer within its bounds |
| Getch.FeedStores | src/getch.c:269-276 | buffering keys other than '\b' stores them in order from the write index, up to the INBUFSIZ-2 limit, and touches no other slot |
| Getch.Loop | src/getch.c:203-282 | the fetch loop: idle polls sleep or time out; unwanted keys are skipped; in raw or cbreak mode the key is returned; in cooked mode keys are buffered until a line end returns the first |
| Getch.LoopLeavesSuffix | src/getch.c:203-282 | the polls the loop leaves unread are the last ones |
| Getch.TimeoutNaps | src/getch.c:207-223 | with a timeout and nothing ready, the loop sleeps exactly WaitCount times and then returns ERR |
| Getch.BlockingWaits | src/getch.c:218-223 | without timeout or nodelay, idle polls never end the call: it sleeps and polls again |
| Getch.NodelayReturnsAtOnce | src/getch.c:218-220 | with nodelay and no timeout, nothing ready means ERR at once, with no sleep |
| Getch.SpecialKeyDropped | src/getch.c:234-247 | without keypad mode a special key is dropped and the loop goes on |
| Getch.WGetch | src/getch.c:152-283 | wgetch: after the entry refresh, the last pushed-back key if any; else in cooked mode the next buffered key; else the fetch loop over an emptied buffer |
| Getch.WGetchFetches | src/getch.c:196-203 | with nothing stacked or buffered, wgetch is the entry refresh followed by the fetch loop |
| Getch.WGetchTimesOut | src/getch.c:161-223 | with a timeout and no key arriving, wgetch sleeps WaitCount times after the entry refresh and returns ERR |
| Getch.LoopOrdinaryStep | src/getch.c:254-276 | one ordinary key in cooked mode is stored, echoed when echo is on, and the loop goes on |
| Getch.LoopBackspaceStep | src/getch.c:269-273 | '\b' in cooked mode drops the last unread key and the loop goes on |
| Getch.LoopNewlineStep | src/getch.c:278-281 | a newline in cooked mode is stored if there is room and the first buffered key is returned |
| Getch.LoopTyped | src/getch.c:203-276 | in cooked mode the loop takes ordinary keys into the buffer, echoing each when echo is on, and keeps waiting |
| Getch.LineStored | src/getch.c:264-281 | after a line of ordinary keys and a newline, the buffer holds the line, as much as fits |
| Getch.CookedLine | src/getch.c:193-281 | a line typed in cooked mode is stored, its first key returned and the read index moved past it, so later calls return the rest in order |
| Getch.BackspaceExample | src/getch.c:269-281 | typing a, b, '\b', c and a newline in cooked mode buffers "ac\n" and returns 'a' |
| Getch.BackspaceExampleBuffer | src/getch.c:269-276 | the buffer behind that example holds "ac\n" |
| GetStr.ToByte | src/getstr.c:178 | a key below 0x100 is stored as its own byte |
| GetStr.PutSpace | src/getstr.c:108-116 | one space of a tab is stored and echoed below the limit; at the limit the editor beeps and keeps the buffer |
| GetStr.Spaces | src/getstr.c:106-117 | the spaces of a tab, each subject to the limit: the buffer never exceeds n |
| GetStr.TabWidth | src/getstr.c:105 | a tab stands for between 1 and TABSIZE spaces, reaching the next tab stop from the start column; once the echoed cursor has wrapped left of the start column, C's truncating `%` makes it between TABSIZE and 2*TABSIZE-1 |
| GetStr.TabSpaces | src/getstr.c:103-118 | a tab stores as many of its spaces as the limit allows and beeps once for each of the others |
| GetStr.TabWithoutMoving | src/getstr.c:103-118 | without echo the cursor stays put, so every tab is a full TabWidth of spaces |
| GetStr.EraseLast | src/getstr.c:120-130 | ^H removes the last character, rubbing out twice for a control character when echoing |
| GetStr.EraseKey | src/getstr.c:120-130 | ^H removes the last character when there is one and otherwise changes nothing |
| GetStr.KillLine | src/getstr.c:132-142 | ^U erases characters from the end until none is left |
| GetStr.KillEmpties | src/getstr.c:132-142 | ^U empties the buffer |
| GetStr.DropSpaces | src/getstr.c:146-153 | the first loop of ^W drops the trailing spaces and nothing else |
| GetStr.DropWord | src/getstr.c:154-163 | the second loop of ^W drops the trailing run of non-spaces and nothing else |
| GetStr.DeleteWord | src/getstr.c:144-164 | ^W deletes the trailing spaces and the word before them |
| GetStr.Step | src/getstr.c:100-189 | every key other than a line end keeps the count equal to the buffer's length and at most n |
| GetStr.OrdinaryKey | src/getstr.c:173-187 | an ordinary key is appended as its byte iff the count is below n, it is not a special key and it is below 0x100; at the limit the editor beeps |
| GetStr.Edit | src/getstr.c:96-192 | the editor's loop handles each key and refreshes, until a line end; the count stays equal to the buffer's length and at most n |
| GetStr.EditNext | src/getstr.c:96-192 | a key that does not end the line is handled, refreshed, and the edit goes on with the next key |
| GetStr.EditEnd | src/getstr.c:166-171 | a newline or return ends the edit with the buffer as it stands |
| GetStr.EditExample | src/getstr.c:96-194 | a, b, ^H, c and a newline with a limit of 10 give "ac" |
| GetStr.TypeAB | src/getstr.c:173-187 | the first two keys of the example store "ab" |
| GetStr.EraseTypeC | src/getstr.c:120-187 | ^H then c turn "ab" into "ac" |
| GetStr.Codes | src/getstr.c:178 | the character codes of plain keys |
| GetStr.CodesCons | src/getstr.c:178 | the codes of a key list are the first code, then the codes of the rest |
| GetStr.PlainStep | src/getstr.c:173-187 | a plain key below the limit is appended and the edit goes on |
| GetStr.PlainTyping | src/getstr.c:96-194 | plain keys that fit under the limit followed by a line end give exactly what was typed |
| GetStr.ReadingModes | src/getstr.c:86-92 | the editor reads with echo off, cbreak on and nodelay off |
| GetStr.WGetNStr | src/getstr.c:69-201 | wgetnstr: ERR only for a null session, window or buffer; otherwise at most n characters and a NUL are stored, and echo, cbreak and nodelay are restored to their entry values |
| Slk.LabelCount | src/slk.c:114-138 | the number of labels: 8 for formats 0 and 1, 12 for 2 and 3, 10 for 55 |
| Slk.SlkInit | src/slk.c:107-148 | slk_init: ERR with no change once the screen exists or for an unknown format; otherwise the format is recorded and the labels start empty and left-justified |
| Slk.SkipSpaces | src/slk.c:230-231 | the copy starts at the first non-space |
| Slk.CopyCount | src/slk.c:235-243 | the copy takes up to the NUL, at most the field width |
| Slk.TrimAsWritten | src/slk.c:247-248 | the written trailing-space loop steps back while i + j is nonzero, so it can pass the first copied character |
| Slk.SetLengthAsWrittenUnderflows | src/slk.c:247-248 | for a label of k spaces the written loop leaves the length at -k, so the NUL lands before the label array |
| Slk.AllSpacesTrimAsWritten | src/slk.c:247-248 | the written loop walks back over every space of an all-space label |
| Slk.Trim | src/slk.c:247-248 | the corrected loop stops at the first copied character and drops only trailing spaces |
| Slk.StoredText | src/slk.c:226-252 | the stored text of a label: leading spaces skipped, at most the field width copied, trailing spaces dropped |
| Slk.StoredTextIsTrimmed | src/slk.c:226-252 | the stored text equals an independent definition: drop leading spaces, cut to the width, drop trailing spaces |
| Slk.StoredTextTrimmed | src/slk.c:226-252 | the stored text has no space at either end |
| Slk.TakeAfterSkip | src/slk.c:230-243 | the copy loop takes the first width characters of the label without its leading spaces |
| Slk.DropLeadingIsSkip | src/slk.c:230-231 | the skip loop drops exactly the leading spaces |
| Slk.DropTrailingIsTrim | src/slk.c:247-248 | the corrected trim drops exactly the trailing spaces |
| Slk.SlkSet | src/slk.c:204-258 | slk_set: ERR with no change for a label number outside 1..labels or a justification outside 0..2; a null or empty label is cleared; any other is stored as StoredText with its justification; the other labels stay |
| Slk.SlkLabel | src/slk.c:274-293 | slk_label is the stored text for a valid label number and null otherwise |
| Slk.SetThenLabel | src/slk.c:204-293 | setting a label and reading it back gives the text with surrounding spaces dropped and cut to the width |
| Slk.SetThenLabelExact | src/slk.c:204-293 | a label without surrounding spaces that fits its field comes back unchanged |
| Slk.LabelOffset | src/slk.c:164-179 | the text starts at 0, (L-len)/2 or L-len for left, centre and right, and fits the field |
| Slk.FieldCells | src/slk.c:181-185 | the field holds the text at its offset and spaces elsewhere, exactly L cells |
| Slk.DrawOne | src/slk.c:152-186 | `_drawone` writes nothing while hidden; otherwise exactly the L cells of the field on the label line |
| Slk.DrawOneShowsLabel | src/slk.c:152-186 | a label that fits is drawn whole, and reading the field back without padding gives the label |
| Slk.FieldShowsText | src/slk.c:181-185 | the text drawn into a field it fits reads back, padding aside |
| Slk.FieldCellsPadded | src/slk.c:181-185 | a text that fits its field sits between two runs of spaces |
| Slk.DropPadding | src/slk.c:181-185 | dropping the spaces around a text without spaces at its ends gives the text |
| Slk.DropLeadingSpaces | src/slk.c:181-185 | dropping leading spaces from spaces followed by such a text gives the text with its tail |
| Slk.DropTrailingSpaces | src/slk.c:181-185 | dropping trailing spaces from such a text followed by spaces gives the text |
| Slk.BaseWidth | src/slk.c:414-417 | the field width before the final decrement is COLS / labels, capped at 31 |
| Slk.LayoutAsWritten | src/slk.c:407-497 | `_slk_calc` as written: the field width and each label's start column per format |
| Slk.LayoutAsWrittenOverlaps | src/slk.c:466 | on a 120-column screen in the 4-4-4 layout the fifth and sixth fields share column 49 |
| Slk.Layout | src/slk.c:407-497 | the corrected layout, with the sixth label one column right of the fifth's field |
| Slk.LayoutFits | src/slk.c:407-497 | whenever the width is not negative, every format places its labels left to right, inside the screen and without overlap |
| Slk.EightFit | src/slk.c:421-452 | the 4-4 and 3-2-3 layouts place eight fields side by side inside the screen |
| Slk.TenFit | src/slk.c:480-489 | the 5-5 layout places ten fields side by side inside the screen |
| Slk.TwelveFit | src/slk.c:454-478 | the 4-4-4 layouts place twelve fields side by side inside the screen |
| Slk.SlkCalc | src/slk.c:407-497 | `_slk_calc` sets the field width and every label's start column from the corrected layout (Slk.Layout), not the written one of src/slk.c:466 |
| Slk.FirstField | src/slk.c:574-581 | the first label whose field covers x, numbered from 1, or 0 when none does |
| Slk.MouseInSlk | src/slk.c:565-582 | PDC_mouse_in_slk: 0 unless there are labels on screen and y is the label line; then the first label covering x, or 0 |
| Slk.ClickFindsLabel | src/slk.c:565-582 | a click on the label line inside a laid-out label's field reports exactly that label |
| Slk.ApartOrdered | src/slk.c:574-581 | fields laid out apart do not share a column, so at most one covers any x |
| Lifecycle.SlkLines | src/slk.c:503-509 | the soft labels take two lines for format 3, one for the others, none without slk_init |
| Lifecycle.CountTop | src/initscr.c:157-167 | the lines ripped off the top are counted among all the ripped lines |
| Lifecycle.NewCurscr | src/initscr.c:145 | curscr starts the size of the screen, blank, fully changed, with the cursor at the origin |
| Lifecycle.Untouched | src/initscr.c:183-186 | preserving the screen leaves curscr with no row changed and its clear flag off |
| Lifecycle.Preserved | src/initscr.c:184-185 | preserving the screen leaves stdscr with no row changed and its clear flag off |
| Lifecycle.InitScr | src/initscr.c:98-206 | initscr: NULL with no change while a session is alive or when the screen cannot open; NULL when it is smaller than 2x2 or curscr or stdscr cannot be built; otherwise the session starts with the initial modes, curscr and stdscr in place |
| Lifecycle.BuildScreens | src/initscr.c:145-206 | on a screen at least 2x2: curscr, then the soft-label and ripped-off lines taken from LINES, then stdscr below the top ones, then the finishing touches |
| Lifecycle.MakeStdscr | src/initscr.c:171-177 | stdscr is LINES by COLS at the first row below the top lines, blank; failure leaves the session as it was |
| Lifecycle.Start | src/initscr.c:177-203 | the end of initscr: untouch both screens when preserving, else set curscr's clear flag; reset the mouse; mark the screen alive and name it |
| Lifecycle.BuiltStarts | src/initscr.c:98-206 | a session initscr builds has the initial modes (autocr, cbreak, echo on, raw off, no mouse events trapped), the reset mouse, and LINES as the screen less the taken lines |
| Lifecycle.BuiltWindows | src/initscr.c:171-189 | stdscr is blank below the top lines, and curscr's clear flag is set unless preserving |
| Lifecycle.StartedRuns | src/initscr.c:199 | a session initscr starts is running: not ended |
| Lifecycle.EndWin | src/initscr.c:208-220 | endwin marks the screen not alive and keeps everything else |
| Lifecycle.SessionDoUpdate | src/refresh.c:138-145 | doupdate on a session paints curscr and revives the screen |
| Lifecycle.EndwinUntilDoupdate | src/initscr.c:208-227 | after endwin isendwin holds until doupdate, which repaints everything and leaves the session running and the terminal showing curscr |
| Lifecycle.NoScreenNotEnded | src/initscr.c:222-227 | isendwin is false without a screen |
| Lifecycle.DelScreen | src/initscr.c:245-264 | delscreen deletes stdscr and leaves the session without stdscr, curscr or screen |
| Lifecycle.DelScreenKeepsStore | src/initscr.c:254-257 | delscreen keeps the store consistent when nothing depends on stdscr |
| Lifecycle.SpansOnlyKeepsStore | src/initscr.c:286 | changing only a window's spans and clear flag keeps the store consistent |
| Lifecycle.ResizeCurscr | src/initscr.c:282 | curscr resized: the new size, old cells where the extents overlap and blanks elsewhere, every row fully changed, the cursor clamped with the corrected clamp |
| Lifecycle.RefreshStdscr | src/initscr.c:299-300 | touchwin then wnoutrefresh copies all of stdscr onto curscr and leaves it with no changes |
| Lifecycle.ResizeStdscr | src/initscr.c:283-300 | stdscr resized to the new size at its old origin (ERR with no store change on failure), then copied onto curscr in full |
| Lifecycle.ResizeTerm | src/initscr.c:266-303 | resize_term, with the corrected cursor clamp for curscr and stdscr: ERR without stdscr or when the platform cannot resize; otherwise LINES is the new rows less the ripped-off and soft-label lines, curscr and stdscr are resized in turn (a failure keeps earlier steps), and success forces a full repaint |

## Left out

- Pads and subpads (`newpad`, `subpad`, `prefresh`, `copywin`) are not part of this model. Only their flags appear, as the `_PAD` and `_SUBPAD` tests in wnoutrefresh, wgetch and delwin.
- `waddch`, `winsch`, `wmove`, `touchwin`, `untouchwin` and `is_wintouched` are not part of this model. The drivers hand their calls to a step parameter. `wmove`, `touchwin` and `untouchwin` are stated by the contracts their callers rely on.
- printw and scanw formatting is left out because it goes through the C library's vsnprintf.
- beep and flash, the panel library, and clipboard access are left out.
- Platform hooks are recorded as calls, not performed. `PDC_transform_line`, `PDC_gotoyx` and `PDC_reset_prog_mode` become trace entries, replayed on a model terminal. `PDC_check_key` and `PDC_get_key` become a finite sequence of polls. `napms` becomes a recorded sleep. `PDC_scr_open`, `PDC_resize_screen` and `PDC_get_termsize` become parameters.
- Allocation (`PDC_malloc`, `PDC_makelines`, `free`) is a success flag per call. A negative extent counts as a failed allocation, because the size wraps to a huge unsigned request.
- A null SESSION is not modelled; every routine takes a session. A null window is an ERR result in the session-level members (the SyncDraw and SyncClear calls, ApplyAttr, ReadBack, Refresh, Windows); the members named below take a window that exists.
- Getch.WGetch: takes a window that exists; the ERR return for a null window (src/getch.c:156) is not modelled.
- StrDrivers.MvWAddNStr: takes a window that exists; the ERR return through wmove's null check is not modelled.
- subwin, winstr and winchstr read the window before any null check, so their models require a window.
- SyncClear.WClrToBotCall: wclrtobot reads the cursor before its null check (src/clear.c:89-90), so a null window is undefined in C; the model returns ERR for it, as the check that follows intends.
- Attr.WChgAt: the drawing only; the ERR for a null window (src/attr.c:298-299) and the closing PDC_sync (src/attr.c:318) are in SyncDraw.WChgAtCall. The end column curx + n is computed on unbounded integers; in C it overflows `int` for n > INT_MAX - curx (src/attr.c:304) and then restyles nothing.
- Border.WBorder: the drawing only; the ERR for a null window (src/border.c:138) and the closing PDC_sync (src/border.c:176) are in SyncDraw.WBorderCall. A window with no row or no column is excluded, because the routine then writes outside its lines.
- Border.WHLine: the drawing only; the null-window ERR (src/border.c:203) and PDC_sync (src/border.c:222) are in SyncDraw.WHLineCall. curx + n is unbounded; in C it overflows `int` for n > INT_MAX - curx (src/border.c:207) and draws nothing.
- Border.WVLine: the drawing only; the null-window ERR (src/border.c:260) and PDC_sync (src/border.c:279) are in SyncDraw.WVLineCall. cury + n is unbounded; in C it overflows `int` for n > INT_MAX - cury (src/border.c:263) and draws nothing.
- Clear.WClrToEol: the drawing only; the null-window ERR (src/clear.c:58) and PDC_sync (src/clear.c:76) are in SyncDraw.WClrToEolCall.
- Clear.WClrToBot: the cells and spans without the PDC_sync after each row (src/clear.c:76) and at the end (src/clear.c:110); with immedok or syncok the spans and the clear flag end up as SyncClear.ClrToBot says instead.
- Clear.WErase: the storage part without PDC_sync; the whole routine, whose spans differ under immedok or syncok, is SyncClear.WEraseCall.
- Clear.WClear: the clear flag stays set only when no refresh follows; under immedok werase's PDC_sync refreshes the window and clears the flag (src/refresh.c:116-117), as SyncClear.WClearCall states.
- ReadBack.WInNStr: curx + n is unbounded; in C it overflows `int` for n > INT_MAX - curx (src/instr.c:73), skips the clamp and copies past the row.
- ReadBack.WInChNStr: curx + n is unbounded; in C it overflows `int` for n > INT_MAX - curx (src/inchstr.c:72), skips the clamp and copies past the row.
- Refresh.WNoutRefresh: requires the window to lie on the screen (OnScreen). newwin lets a window start above or left of the screen (see Findings), and wnoutrefresh would then write before curscr's first row (src/refresh.c:73-78); that write is outside the model.
- Refresh.WRefresh: inherits Refresh.WNoutRefresh's on-screen requirement; so do SyncDraw.Ready and every member that refreshes a window with immedok.
- Windows.Resized: uses the corrected cursor clamp min(cur, extent - 1); the written min(cur, extent) is Windows.ResizeCursorAsWrittenEscapes (see Findings).
- Windows.ResizeWindow: leaves the corrected cursor, not the written min(cur, new extent).
- Lifecycle.ResizeCurscr: clamps curscr's cursor with the corrected clamp, not resize_window's written one.
- Slk.SlkCalc: uses the corrected layout (Slk.Layout), with the sixth label at centre - L + 1, not the written centre - L - 1 of src/slk.c:466 (see Findings).
- Slk.DrawOne: a label byte of 0x80 or more is drawn as that byte. src/slk.c:237 copies it through a plain `char`, which where `char` is signed becomes 0xFF80..0xFFFF, every attribute bit set, when waddch draws it (src/slk.c:184-185).
- Slk.SlkSet: stores label bytes as 0..255, without the sign extension of src/slk.c:237 described under Slk.DrawOne.
- The `ripoffline` callbacks and initscr's diagnostics are left out. Ripped-off lines are only counted.
- PDC_init_atrtab's colour table and def_shell_mode are left out.
- Key modifiers (src/getch.c:336-361) are left out.
- mvgetch and mvwgetch are left out. They are wmove followed by wgetch.
- The soft-label window itself is left out: slk_refresh, slk_noutrefresh, slk_clear, slk_restore, slk_touch, the slk attribute routines, PDC_slk_initialize and PDC_slk_free. `_drawone` is modelled on a label line of cells, and the label window's resize in resize_term is skipped.
- filter, use_env, delay_output, newterm, set_term and is_termresized are left out as thin wrappers over session fields.
- baudrate, has_ic, has_il and termname are constants in the model without contracts.
- The 32-bit `CHTYPE_LONG` layout and ACS_PICK's alternate-charset branch are left out; only the default 16-bit build is modelled.
- Mouse masks are modelled as sets of bit positions, not as integers.
- Getch.MouseKey: requires the status to hold three buttons, as MOUSE_STATUS always does.
- GetStr.WGetNStr: the cursor column each tab is measured from is supplied with the key, because the echoing `waddch` is not part of this model.
- Lifecycle.ResizeTerm: requires at least one column and windows whose blocks are not shared with subwindows. The code frees those blocks regardless (see Windows.ResizeWindowKeepsStore). It resizes curscr and stdscr with the corrected cursor clamp.
- Lifecycle.BuildScreens: ripped-off lines are taken as a count from the top and the total, without their init callbacks.

## Findings

| source | as written | input that shows it | evidently intended | confidence | as-written member | corrected member |
|---|---|---|---|---|---|---|
| src/insstr.c:79 | `n < len` (negative or not) becomes `len`, and `n > len` stays | "abc" with n = 1 inserts 3 characters; "ab" with n = 3 inserts the NUL and a byte past it | insert min(n, len) characters, or all for n < 0, as the routine's description says | high, not executed | StrDrivers.InsCountAsWrittenWrong | StrDrivers.InsCountBounded |
| src/window.c:468-469 | the resized cursor is min(old, new extent) | a cursor on row 5 of a window resized to 3 rows lands on row 3, outside the window | min(old, new extent - 1) | high, not executed | Windows.ResizeCursorAsWrittenEscapes | Windows.ResizeKeepsCursorIn |
| src/window.c:410 | dupwin copies `_flags` verbatim, `_SUBWIN` included, onto a window that owns new lines; delwin frees lines only without `_SUBWIN` (line 269) | dupwin of a subwindow, then delwin of the duplicate: its lines are never freed | clear `_SUBWIN` on the duplicate | medium, not executed | Windows.DupWinAsWrittenLeaks | Windows.DupThenDelRestores |
| src/slk.c:247-248 | the trailing-space loop runs while `i + j` is nonzero, so it walks back over the skipped leading spaces | slk_set with a label of 3 spaces leaves the length at -3 and writes the NUL at label[-3] | stop at the first copied character (an empty label) | high, not executed | Slk.SetLengthAsWrittenUnderflows | Slk.Trim |
| src/refresh.c:229 | the guard rejects only start > maxy and start + num > maxy | wredrawln(win, -1, 1) passes and writes `_firstch[-1]` | also reject start < 0 | high, not executed | Refresh.WRedrawLnAsWrittenUnderruns | Refresh.WRedrawLn |
| src/slk.c:466 | the sixth label of the 4-4-4 layouts starts at centre - L - 1, where L is the field width plus one | 120 columns, format 2: fields are 9 wide, label 5 covers columns 41..49 and label 6 starts at 49 | centre - L + 1, one blank column after label 5, as labels 7 and 8 mirror it | medium, not executed | Slk.LayoutAsWrittenOverlaps | Slk.LayoutFits |
| src/window.c:246-248 | newwin checks only `begy + nlines > lines` and `begx + ncols > cols` | newwin(1, 1, -1, 0) on a 24 by 80 screen returns a window at row -1; wnoutrefresh then copies it into `curscr->_y[-1]` (src/refresh.c:73-78) | also reject begy < 0 and begx < 0 | medium, not executed | Refresh.NewWinAsWrittenAboveScreen | Refresh.NewWinPlacedOnScreen |
