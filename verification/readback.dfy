/**
 * Reading the window back (instr.c, inchstr.c, inch.c): the characters
 * or the full cells from the cursor onward, and the cell under the
 * cursor.  None of these routines changes a cell or a span.
 */
module ReadBack {
  import opened Base
  import opened Cells
  import opened Store

  /** How many cells winnstr reads: n, or the rest of the line when n < 0 or n runs past it. */
  function InStrCount(w: Win, n: int): int
  {
    if n < 0 || w.curx + n > w.maxx then w.maxx - w.curx else n
  }

  /** The character bits of a cell, as the byte a `char` buffer receives. */
  function CharOf(c: Cell): (b: Byte)
    ensures b as bv16 == c & A_CHARTEXT
  {
    (c & A_CHARTEXT) as Byte
  }

  /** The character bits of `cnt` cursor-row cells from the cursor, then a NUL. */
  function CharsFrom(h: Heap, w: Win, cnt: nat): (s: seq<Byte>)
    requires Backed(h, w) && CursorIn(w) && w.curx + cnt <= w.maxx
    ensures |s| == cnt + 1 && s[cnt] == 0
    ensures forall i :: 0 <= i < cnt ==> s[i] == CharOf(Get(h, w, w.cury, w.curx + i))
  {
    seq(cnt, i requires 0 <= i < cnt => CharOf(Get(h, w, w.cury, w.curx + i))) + [0]
  }

  /**
   * winnstr: ERR for a null window or buffer; otherwise the count read,
   * at most the rest of the line, and the buffer holding the character
   * bits of that many cells from the cursor followed by a NUL.
   */
  function WInNStr(h: Heap, w: Option<Win>, bufOk: bool, n: int): (r: (int, seq<Byte>))
    requires w.Some? ==> Wf(h, w.value) && CursorIn(w.value)
    ensures r.0 == -1 <==> w.None? || !bufOk
    ensures r.0 == -1 ==> r.1 == []
    ensures r.0 != -1 ==> 0 <= r.0 <= w.value.maxx - w.value.curx
    ensures r.0 != -1 && 0 <= n && w.value.curx + n <= w.value.maxx ==> r.0 == n
    ensures r.0 != -1 && (n < 0 || w.value.curx + n > w.value.maxx) ==> r.0 == w.value.maxx - w.value.curx
    ensures r.0 != -1 ==> |r.1| == r.0 + 1 && r.1[r.0] == 0
    ensures r.0 != -1 ==> forall i :: 0 <= i < r.0 ==>
      r.1[i] == CharOf(Get(h, w.value, w.value.cury, w.value.curx + i))
  {
    if w.None? || !bufOk then (-1, [])
    else
      var cnt := InStrCount(w.value, n);
      (cnt, CharsFrom(h, w.value, cnt))
  }

  /**
   * winstr: OK with the rest of the cursor row's characters, or ERR for a
   * null buffer.  The routine reads the window's width before any check,
   * so the window must exist.
   */
  function WInStr(h: Heap, w: Win, bufOk: bool): (r: (Status, seq<Byte>))
    requires Wf(h, w) && CursorIn(w)
    ensures r.0 == ERR <==> !bufOk
    ensures r.0 == OK ==> r.1 == WInNStr(h, Some(w), true, w.maxx - w.curx).1
    ensures r.0 == OK ==> |r.1| == w.maxx - w.curx + 1
  {
    var (k, s) := WInNStr(h, Some(w), bufOk, w.maxx);
    if k == -1 then (ERR, s) else (OK, s)
  }

  /** The `cnt` cursor-row cells from the cursor, then a 0 terminator. */
  function CellsFrom(h: Heap, w: Win, cnt: nat): (s: seq<Cell>)
    requires Backed(h, w) && CursorIn(w) && w.curx + cnt <= w.maxx
    ensures |s| == cnt + 1 && s[cnt] == 0
    ensures forall i :: 0 <= i < cnt ==> s[i] == Get(h, w, w.cury, w.curx + i)
  {
    RowCells(h, w, w.cury)[w.curx .. w.curx + cnt] + [0]
  }

  /**
   * winchnstr: ERR for a null window or buffer or a negative n; otherwise
   * OK (not the count) and the buffer holding min(n, rest of line) full
   * cells, attributes included, followed by a 0 terminator.
   */
  function WInChNStr(h: Heap, w: Option<Win>, bufOk: bool, n: int): (r: (Status, seq<Cell>))
    requires w.Some? ==> Wf(h, w.value) && CursorIn(w.value)
    ensures r.0 == ERR <==> w.None? || !bufOk || n < 0
    ensures r.0 == ERR ==> r.1 == []
    ensures r.0 == OK ==> |r.1| == Min(n, w.value.maxx - w.value.curx) + 1 && r.1[|r.1| - 1] == 0
    ensures r.0 == OK ==> forall i :: 0 <= i < |r.1| - 1 ==>
      r.1[i] == Get(h, w.value, w.value.cury, w.value.curx + i)
  {
    if w.None? || !bufOk || n < 0 then (ERR, [])
    else
      var cnt := if w.value.curx + n > w.value.maxx then w.value.maxx - w.value.curx else n;
      (OK, CellsFrom(h, w.value, cnt))
  }

  /** winchstr: winchnstr up to the end of the line; the window must exist. */
  function WInChStr(h: Heap, w: Win, bufOk: bool): (r: (Status, seq<Cell>))
    requires Wf(h, w) && CursorIn(w)
    ensures r.0 == ERR <==> !bufOk
    ensures r.0 == OK ==> |r.1| == w.maxx - w.curx + 1
    ensures r.0 == OK ==> forall i :: 0 <= i < w.maxx - w.curx ==> r.1[i] == Get(h, w, w.cury, w.curx + i)
  {
    WInChNStr(h, Some(w), bufOk, w.maxx - w.curx)
  }

  /** (chtype)ERR: -1 truncated to the 16-bit cell. */
  const CELL_ERR: Cell := 0xffff

  /** winch: the full cell under the cursor, or (chtype)ERR for a null window. */
  function WInCh(h: Heap, w: Option<Win>): (r: Cell)
    requires w.Some? ==> Wf(h, w.value) && CursorIn(w.value)
    ensures w.None? ==> r == CELL_ERR
    ensures w.Some? ==> r == Get(h, w.value, w.value.cury, w.value.curx)
  {
    if w.None? then CELL_ERR else Get(h, w.value, w.value.cury, w.value.curx)
  }

  /**
   * mvwinch (and mvinch on the standard screen): (chtype)ERR with the
   * window unchanged when the move fails, otherwise the cell at (y, x),
   * with the cursor left there.
   */
  function MvWInCh(h: Heap, w: Option<Win>, y: int, x: int): (r: (Cell, Option<Win>))
    requires w.Some? ==> Wf(h, w.value)
    ensures w.None? ==> r == (CELL_ERR, None)
    ensures w.Some? && !(0 <= y < w.value.maxy && 0 <= x < w.value.maxx) ==> r == (CELL_ERR, w)
    ensures w.Some? && 0 <= y < w.value.maxy && 0 <= x < w.value.maxx ==>
      r.1 == Some(w.value.(cury := y, curx := x)) && r.0 == Get(h, w.value, y, x)
  {
    if w.None? then (CELL_ERR, None)
    else
      var (st, w') := WMove(w.value, y, x);
      if st == ERR then (CELL_ERR, w) else (WInCh(h, Some(w')), Some(w'))
  }

  /** A cell stored at (y, x) is what mvwinch reads back there. */
  lemma MvWInChReadsStored(h: Heap, w: Win, y: int, x: int, v: Cell)
    requires Wf(h, w) && 0 <= y < w.maxy && 0 <= x < w.maxx
    ensures MvWInCh(SetCell(h, w, y, x, v), Some(w), y, x).0 == v
  {
  }

  /** The run winchnstr reads from the cursor, reduced to character bits, is what winnstr reads. */
  lemma InStrIsCharsOfInChStr(h: Heap, w: Win, n: int)
    requires Wf(h, w) && CursorIn(w) && 0 <= n
    ensures WInNStr(h, Some(w), true, n).0 == |WInChNStr(h, Some(w), true, n).1| - 1
    ensures forall i :: 0 <= i < WInNStr(h, Some(w), true, n).0 ==>
      WInNStr(h, Some(w), true, n).1[i] == CharOf(WInChNStr(h, Some(w), true, n).1[i])
  {
  }
}
