/**
 * Clearing (clear.c): blanking with the window's background character
 * from the cursor to the end of the line, to the end of the window, or
 * the whole window.
 */
module Clear {
  import opened Base
  import opened Cells
  import opened Store

  /**
   * wclrtoeol's drawing, before its PDC_sync (SyncDraw.WClrToEolCall
   * adds the null check and the sync): the cursor row from the cursor column to the right edge
   * holds the background; the row's first edge widens to the cursor
   * column and its last edge becomes the right edge; the cursor and all
   * other cells stay.
   */
  function WClrToEol(h: Heap, w: Win): (d: Drawn)
    requires Wf(h, w) && CursorIn(w)
    ensures d.status == OK
    ensures d.win.rows == w.rows && d.win.maxy == w.maxy && d.win.maxx == w.maxx
    ensures SameShape(h, d.heap) && Wf(d.heap, d.win)
    ensures d.win == w.(firstch := d.win.firstch, lastch := d.win.lastch)
    ensures forall r, c :: 0 <= r < w.maxy && 0 <= c < w.maxx ==>
      Get(d.heap, d.win, r, c) == (if r == w.cury && c >= w.curx then w.bkgd else Get(h, w, r, c))
    ensures d.win.firstch[w.cury] == WidenFirst(w.firstch[w.cury], w.curx)
    ensures d.win.lastch[w.cury] == w.maxx - 1
    ensures forall r :: 0 <= r < w.maxy && r != w.cury ==>
      d.win.firstch[r] == w.firstch[r] && d.win.lastch[r] == w.lastch[r]
  {
    var y := w.cury;
    var h' := FillRow(h, w, y, w.curx, w.maxx - 1, w.bkgd);
    var w' := w.(firstch := w.firstch[y := WidenFirst(w.firstch[y], w.curx)],
                 lastch := w.lastch[y := w.maxx - 1]);
    Drawn(OK, h', w')
  }

  /** Rows `i .. maxy-1` filled with the background across the full width. */
  function BlankRows(h: Heap, w: Win, i: int): (h': Heap)
    requires Wf(h, w) && 0 <= i
    ensures SameShape(h, h') && Wf(h', w)
    ensures forall r, c :: 0 <= r < w.maxy && 0 <= c < w.maxx ==>
      Get(h', w, r, c) == (if r >= i then w.bkgd else Get(h, w, r, c))
    decreases w.maxy - i
  {
    if i >= w.maxy then h
    else BlankRows(FillRow(h, w, i, 0, w.maxx - 1, w.bkgd), w, i + 1)
  }

  /** Spans after blanking rows `i ..`: those rows are changed across the full width. */
  function SpansFrom(f: seq<int>, i: int, v: int): (f': seq<int>)
    ensures |f'| == |f|
    ensures forall r :: 0 <= r < |f| ==> f'[r] == (if r >= i then v else f[r])
  {
    seq(|f|, r requires 0 <= r < |f| => if r >= i then v else f[r])
  }

  /**
   * wclrtobot: every cell after the cursor in reading order (the rest of
   * the cursor row and every row below) holds the background; rows
   * below are marked changed across the full width, the cursor row as
   * in wclrtoeol; the cursor and the rows above stay.  These are the
   * cells and spans before any PDC_sync; SyncClear.ClrToBot runs the
   * routine with the sync after every row and at the end.
   */
  function WClrToBot(h: Heap, w: Win): (d: Drawn)
    requires Wf(h, w) && CursorIn(w)
    ensures d.status == OK
    ensures d.win.rows == w.rows && d.win.maxy == w.maxy && d.win.maxx == w.maxx
    ensures SameShape(h, d.heap) && Wf(d.heap, d.win)
    ensures d.win == w.(firstch := d.win.firstch, lastch := d.win.lastch)
    ensures ClearedToBottom(h, w, d.heap, d.win)
    ensures SpansToBottom(w, d.win)
  {
    ClrToBotResult(h, w);
    var h1 := BlankRows(h, w, w.cury + 1);
    WClrToEol(h1, BlankSpans(h1, w, w.cury + 1))
  }

  /** Blanking the rows below the cursor and then the rest of the cursor row clears to the bottom. */
  lemma ClrToBotResult(h: Heap, w: Win)
    requires Wf(h, w) && CursorIn(w)
    ensures var h1 := BlankRows(h, w, w.cury + 1);
      var w1 := BlankSpans(h1, w, w.cury + 1);
      Wf(h1, w1) && CursorIn(w1) &&
      var d := WClrToEol(h1, w1);
      d.status == OK && d.win.rows == w.rows && d.win.maxy == w.maxy && d.win.maxx == w.maxx &&
      SameShape(h, d.heap) && Wf(d.heap, d.win) &&
      d.win == w.(firstch := d.win.firstch, lastch := d.win.lastch) &&
      ClearedToBottom(h, w, d.heap, d.win) && SpansToBottom(w, d.win)
  {
    var below := w.cury + 1;
    var h1 := BlankRows(h, w, below);
    var w1 := BlankSpans(h1, w, below);
    var d := WClrToEol(h1, w1);
    ClrToBotCells(h, w, h1, w1, d);
    ClrToBotSpans(w, w1, d.win);
  }

  /**
   * Every cell of `w'` after the cursor of `w` in reading order holds
   * w's background, and every cell before it is as `w` had it.
   */
  predicate ClearedToBottom(h: Heap, w: Win, h': Heap, w': Win)
    requires Backed(h, w) && Backed(h', w') && w'.maxy == w.maxy && w'.maxx == w.maxx
  {
    forall r, c :: 0 <= r < w.maxy && 0 <= c < w.maxx ==>
      Get(h', w', r, c) == (if r > w.cury || (r == w.cury && c >= w.curx) then w.bkgd else Get(h, w, r, c))
  }

  /**
   * The spans wclrtobot leaves: rows below the cursor changed across the
   * full width, the cursor row's first edge widened to the cursor column
   * and its last edge at the right edge, the rows above as they were.
   */
  predicate SpansToBottom(w: Win, w': Win)
    requires Shaped(w) && Shaped(w') && w'.maxy == w.maxy && CursorIn(w)
  {
    (forall r :: w.cury < r < w.maxy ==> w'.firstch[r] == 0 && w'.lastch[r] == w.maxx - 1) &&
    w'.firstch[w.cury] == WidenFirst(w.firstch[w.cury], w.curx) &&
    w'.lastch[w.cury] == w.maxx - 1 &&
    forall r :: 0 <= r < w.cury ==> w'.firstch[r] == w.firstch[r] && w'.lastch[r] == w.lastch[r]
  }

  /** The spans of wclrtobot: rows below set to the full width, the cursor row widened. */
  lemma ClrToBotSpans(w: Win, w1: Win, w2: Win)
    requires Shaped(w) && CursorIn(w) && Shaped(w1) && Shaped(w2) && w1.maxy == w.maxy && w2.maxy == w.maxy
    requires w1 == w.(firstch := w1.firstch, lastch := w1.lastch)
    requires forall r :: 0 <= r < w.maxy ==>
      w1.firstch[r] == (if r > w.cury then 0 else w.firstch[r]) &&
      w1.lastch[r] == (if r > w.cury then w.maxx - 1 else w.lastch[r])
    requires w2 == w1.(firstch := w2.firstch, lastch := w2.lastch)
    requires w2.firstch[w.cury] == WidenFirst(w1.firstch[w.cury], w.curx)
    requires w2.lastch[w.cury] == w.maxx - 1
    requires forall r :: 0 <= r < w.maxy && r != w.cury ==>
      w2.firstch[r] == w1.firstch[r] && w2.lastch[r] == w1.lastch[r]
    ensures w2 == w.(firstch := w2.firstch, lastch := w2.lastch)
    ensures SpansToBottom(w, w2)
  {
  }

  /** The spans after blanking rows `i ..`, which keeps the window well formed. */
  function BlankSpans(h: Heap, w: Win, i: int): (w': Win)
    requires Wf(h, w) && 0 <= i && w.maxx >= 1
    ensures w'.rows == w.rows && w'.maxy == w.maxy && w'.maxx == w.maxx && w'.bkgd == w.bkgd
    ensures w'.cury == w.cury && w'.curx == w.curx
    ensures Wf(h, w') && w' == w.(firstch := w'.firstch, lastch := w'.lastch)
    ensures forall r :: 0 <= r < w.maxy ==>
      w'.firstch[r] == (if r >= i then 0 else w.firstch[r]) &&
      w'.lastch[r] == (if r >= i then w.maxx - 1 else w.lastch[r])
  {
    w.(firstch := SpansFrom(w.firstch, i, 0), lastch := SpansFrom(w.lastch, i, w.maxx - 1))
  }

  /** The cells of wclrtobot: rows below blanked, then the rest of the cursor row. */
  lemma ClrToBotCells(h: Heap, w: Win, h1: Heap, w1: Win, d: Drawn)
    requires Wf(h, w) && CursorIn(w)
    requires Wf(h1, w) && w1 == w.(firstch := w1.firstch, lastch := w1.lastch) && Wf(h1, w1)
    requires w1.rows == w.rows && w1.maxy == w.maxy && w1.maxx == w.maxx && w1.bkgd == w.bkgd
    requires forall r, c :: 0 <= r < w.maxy && 0 <= c < w.maxx ==>
      Get(h1, w, r, c) == (if r > w.cury then w.bkgd else Get(h, w, r, c))
    requires Wf(d.heap, d.win) && d.win.rows == w.rows && d.win.maxy == w.maxy && d.win.maxx == w.maxx
    requires forall r, c :: 0 <= r < w.maxy && 0 <= c < w.maxx ==>
      Get(d.heap, d.win, r, c) == (if r == w.cury && c >= w.curx then w.bkgd else Get(h1, w1, r, c))
    ensures ClearedToBottom(h, w, d.heap, d.win)
  {
    forall r, c | 0 <= r < w.maxy && 0 <= c < w.maxx
      ensures Get(d.heap, d.win, r, c) ==
        (if r > w.cury || (r == w.cury && c >= w.curx) then w.bkgd else Get(h, w, r, c))
    {
      assert Get(h1, w1, r, c) == Get(h1, w, r, c);
    }
  }

  /**
   * werase's storage part, before PDC_sync (SyncClear.WEraseCall has
   * the whole routine): ERR, with nothing changed, for a window without cells
   * (the move to the origin fails); otherwise every cell holds the
   * background, the cursor is at the origin and every row is marked
   * changed across the full width.
   */
  function WErase(h: Heap, w: Win): (d: Drawn)
    requires Wf(h, w)
    ensures d.status == ERR <==> w.maxy == 0 || w.maxx == 0
    ensures d.status == ERR ==> d.heap == h && d.win == w
    ensures SameShape(h, d.heap) && Wf(d.heap, d.win)
    ensures d.status == OK ==> d.win == TouchWin(w).(cury := 0, curx := 0)
    ensures d.status == OK ==> forall r, c :: 0 <= r < w.maxy && 0 <= c < w.maxx ==>
      Get(d.heap, d.win, r, c) == w.bkgd
  {
    var moved := WMove(w, 0, 0);
    if moved.0 == ERR then Drawn(ERR, h, w)
    else
      EraseResult(h, w);
      WClrToBot(h, moved.1)
  }

  /** wclrtobot from the origin blanks every cell and leaves every row changed across the full width. */
  lemma EraseResult(h: Heap, w: Win)
    requires Wf(h, w) && w.maxy > 0 && w.maxx > 0
    ensures Wf(h, WMove(w, 0, 0).1) && CursorIn(WMove(w, 0, 0).1)
    ensures var d := WClrToBot(h, WMove(w, 0, 0).1);
      d.status == OK && SameShape(h, d.heap) && Wf(d.heap, d.win) &&
      d.win == TouchWin(w).(cury := 0, curx := 0) &&
      forall r, c :: 0 <= r < w.maxy && 0 <= c < w.maxx ==> Get(d.heap, d.win, r, c) == w.bkgd
  {
    var w0 := WMove(w, 0, 0).1;
    assert w0 == w.(cury := 0, curx := 0);
    var d := WClrToBot(h, w0);
    EraseSpans(w, w0, d.win);
    ClearedFromOrigin(h, w0, d.heap, d.win);
  }

  /** Clearing to the bottom from the origin clears every cell. */
  lemma ClearedFromOrigin(h: Heap, w: Win, h': Heap, w': Win)
    requires Backed(h, w) && Backed(h', w') && w'.maxy == w.maxy && w'.maxx == w.maxx
    requires w.cury == 0 && w.curx == 0 && ClearedToBottom(h, w, h', w')
    ensures forall r, c :: 0 <= r < w.maxy && 0 <= c < w.maxx ==> Get(h', w', r, c) == w.bkgd
  {
  }

  /** wclrtobot from the origin leaves every row changed across the full width. */
  lemma EraseSpans(w: Win, w0: Win, w2: Win)
    requires Shaped(w) && SpansIn(w) && w0 == w.(cury := 0, curx := 0) && w.maxy > 0 && w.maxx > 0
    requires Shaped(w2) && w2.maxy == w.maxy && w2 == w0.(firstch := w2.firstch, lastch := w2.lastch)
    requires SpansToBottom(w0, w2)
    ensures w2 == TouchWin(w).(cury := 0, curx := 0)
  {
    assert w2.firstch == Repeat(0, w.maxy as nat);
    assert w2.lastch == Repeat(w.maxx - 1, w.maxy as nat);
  }

  /**
   * wclear's storage part, before PDC_sync (SyncClear.WClearCall has
   * the whole routine): sets the window's clear flag, so the next
   * refresh repaints the whole screen, then erases it; the flag is set
   * whether or not the erase succeeds.
   */
  function WClear(h: Heap, w: Win): (d: Drawn)
    requires Wf(h, w)
    ensures d.win.clear
    ensures d.status == ERR <==> w.maxy == 0 || w.maxx == 0
    ensures SameShape(h, d.heap) && Wf(d.heap, d.win)
    ensures d.win.rows == w.rows && d.win.maxy == w.maxy && d.win.maxx == w.maxx
    ensures d.status == OK ==> forall r, c :: 0 <= r < w.maxy && 0 <= c < w.maxx ==>
      Get(d.heap, d.win, r, c) == w.bkgd
  {
    ClearResult(h, w);
    WErase(h, w.(clear := true))
  }

  /** Erasing the window with its clear flag set, before any refresh, keeps the flag and blanks every cell. */
  lemma ClearResult(h: Heap, w: Win)
    requires Wf(h, w)
    ensures Wf(h, w.(clear := true))
    ensures var d := WErase(h, w.(clear := true));
      d.win.clear && (d.status == ERR <==> w.maxy == 0 || w.maxx == 0) &&
      SameShape(h, d.heap) && Wf(d.heap, d.win) &&
      d.win.rows == w.rows && d.win.maxy == w.maxy && d.win.maxx == w.maxx &&
      (d.status == OK ==> forall r, c :: 0 <= r < w.maxy && 0 <= c < w.maxx ==> Get(d.heap, d.win, r, c) == w.bkgd)
  {
    var w' := w.(clear := true);
    assert Shaped(w') && w'.rows == w.rows && w'.bkgd == w.bkgd;
    assert Wf(h, w');
    var d := WErase(h, w');
    assert d.status == OK ==> d.win.clear;
  }
}
