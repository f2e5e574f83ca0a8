/**
 * wclrtobot, werase and wclear as a session runs them, with every
 * PDC_sync they make (clear.c): wclrtobot blanks each row below the
 * cursor through wclrtoeol, which ends in PDC_sync, restores the
 * cursor, blanks the rest of the cursor row the same way and ends with
 * a PDC_sync of its own; werase moves the cursor to the origin first,
 * and wclear sets the clear flag before that.
 */
module SyncClear {
  import opened Base
  import opened Cells
  import opened Store
  import opened Windows
  import opened Refresh
  import opened SyncDraw
  import Clear

  /**
   * The session state `s` followed by PDC_sync of window `id`, drawn
   * into as `v` over `h`: the platform calls of the sync come after
   * those already made.
   */
  function Then(s: Done, id: WinId, h: Heap, v: Win, cols: int): (t: Done)
    requires Ready(s.heap, s.wins, id, s.cs, cols) && Wf(h, v) && v.parent == s.wins[id].parent
    requires v.immed ==> OnScreen(v, s.cs, cols)
    ensures t.status == s.status && t.heap == h && Ready(h, t.wins, id, t.cs, cols)
    ensures Respanned(v, t.wins[id])
  {
    SyncReady(h, s.wins, id, v, s.cs, s.sp, cols);
    var u := Sync(h, s.wins, id, v, s.cs, s.sp, cols);
    Done(s.status, h, u.wins, u.cs, u.sp, s.paints + u.paints)
  }

  /** `w'` is `w` but for its spans and clear flag. */
  predicate Respanned(w: Win, w': Win)
  {
    w' == w.(firstch := w'.firstch, lastch := w'.lastch, clear := w'.clear)
  }

  /** `w'` is `w` but for its spans, clear flag and cursor. */
  predicate Stays(w: Win, w': Win)
  {
    w' == w.(firstch := w'.firstch, lastch := w'.lastch, clear := w'.clear, cury := w'.cury, curx := w'.curx)
  }

  /** Then, as PDC_sync: the windows as SyncedWins says; curscr, terminal and calls kept without a refresh. */
  lemma ThenWins(s: Done, id: WinId, h: Heap, v: Win, cols: int)
    requires Ready(s.heap, s.wins, id, s.cs, cols) && Wf(h, v) && v.parent == s.wins[id].parent
    requires v.immed ==> OnScreen(v, s.cs, cols)
    ensures var t := Then(s, id, h, v, cols);
      SyncedWins(h, s.wins, id, v, Immediate(v), t.wins) &&
      (!Immediate(v) ==> t.cs == s.cs && t.sp == s.sp && t.paints == s.paints)
  {
  }

  /** The cell of curscr under cell (`i`, `c`) of `w`, when the screen has one. */
  function Under(cs: Curscr, w: Win, i: int, c: int): Option<Cell>
  {
    if 0 <= w.begy + i < |cs.lines| && 0 <= w.begx + c < |cs.lines[w.begy + i]|
    then Some(cs.lines[w.begy + i][w.begx + c]) else None
  }

  /** Two windows over the same part of the screen. */
  predicate SamePlace(w: Win, w': Win)
  {
    w'.begy == w.begy && w'.begx == w.begx && w'.maxy == w.maxy && w'.maxx == w.maxx
  }

  /**
   * From (`h`, `w`, `cs`) to (`h'`, `w'`, `cs'`), every cell of the
   * window is on curscr at the end, or neither it nor the curscr cell
   * under it changed.
   */
  ghost predicate ShownOrKept(h: Heap, w: Win, cs: Curscr, h': Heap, w': Win, cs': Curscr)
    requires Backed(h, w) && Backed(h', w') && SamePlace(w, w')
  {
    forall i, c :: 0 <= i < w.maxy && 0 <= c < w.maxx ==>
      CellShown(h', w', cs', i, c) || (Get(h', w', i, c) == Get(h, w, i, c) && Under(cs', w', i, c) == Under(cs, w, i, c))
  }

  /** Every cell of `v` over `h` that differs from `w` over `h0` is marked changed. */
  ghost predicate ChangesMarked(h0: Heap, w: Win, h: Heap, v: Win)
    requires Backed(h0, w) && Backed(h, v) && SamePlace(w, v)
  {
    forall i, c :: 0 <= i < w.maxy && 0 <= c < w.maxx && Get(h, v, i, c) != Get(h0, w, i, c) ==> Dirty(v, i, c)
  }

  /** ShownOrKept composes. */
  lemma ShownOrKeptTrans(h0: Heap, w0: Win, cs0: Curscr, h1: Heap, w1: Win, cs1: Curscr, h2: Heap, w2: Win, cs2: Curscr)
    requires Backed(h0, w0) && Backed(h1, w1) && Backed(h2, w2) && SamePlace(w0, w1) && SamePlace(w1, w2)
    requires ShownOrKept(h0, w0, cs0, h1, w1, cs1) && ShownOrKept(h1, w1, cs1, h2, w2, cs2)
    ensures ShownOrKept(h0, w0, cs0, h2, w2, cs2)
  {
    forall i, c | 0 <= i < w0.maxy && 0 <= c < w0.maxx
      ensures CellShown(h2, w2, cs2, i, c) ||
        (Get(h2, w2, i, c) == Get(h0, w0, i, c) && Under(cs2, w2, i, c) == Under(cs0, w0, i, c))
    {
      assert CellShown(h1, w1, cs1, i, c) || (Get(h1, w1, i, c) == Get(h0, w0, i, c) && Under(cs1, w1, i, c) == Under(cs0, w0, i, c));
      assert CellShown(h2, w2, cs2, i, c) || (Get(h2, w2, i, c) == Get(h1, w1, i, c) && Under(cs2, w2, i, c) == Under(cs1, w1, i, c));
    }
  }

  /** Nothing happening is ShownOrKept. */
  lemma ShownOrKeptSame(h: Heap, w: Win, w': Win, cs: Curscr)
    requires Wf(h, w) && Wf(h, w') && w'.rows == w.rows && SamePlace(w, w')
    ensures ShownOrKept(h, w, cs, h, w', cs)
  {
    SameRowsCells(h, w, w');
  }

  /** What curscr shows from a position on stays shown across ShownOrKept. */
  lemma ShownFromKept(h1: Heap, w1: Win, cs1: Curscr, h2: Heap, w2: Win, cs2: Curscr, y: int, x: int)
    requires Backed(h1, w1) && Backed(h2, w2) && SamePlace(w1, w2)
    requires ShownFrom(h1, w1, cs1, y, x) && ShownOrKept(h1, w1, cs1, h2, w2, cs2)
    ensures ShownFrom(h2, w2, cs2, y, x)
  {
    forall i, c | 0 <= i < w2.maxy && 0 <= c < w2.maxx && (i > y || (i == y && c >= x))
      ensures CellShown(h2, w2, cs2, i, c)
    {
      assert CellShown(h1, w1, cs1, i, c);
    }
  }

  /** A shown row stretch stays shown across ShownOrKept. */
  lemma RowShownKept(h1: Heap, w1: Win, cs1: Curscr, h2: Heap, w2: Win, cs2: Curscr, y: int, lo: int, hi: int)
    requires Backed(h1, w1) && Backed(h2, w2) && SamePlace(w1, w2)
    requires RowShown(h1, w1, cs1, y, lo, hi) && ShownOrKept(h1, w1, cs1, h2, w2, cs2)
    ensures RowShown(h2, w2, cs2, y, lo, hi)
  {
    forall c | 0 <= y < w2.maxy && lo <= c <= hi && 0 <= c < w2.maxx
      ensures CellShown(h2, w2, cs2, y, c)
    {
      assert CellShown(h1, w1, cs1, y, c);
    }
  }

  /** Row `y` shown from column `x` to the right edge, and every row below, is ShownFrom(`y`, `x`). */
  lemma ShownFromJoin(h: Heap, w: Win, cs: Curscr, y: int, x: int)
    requires Backed(h, w) && RowShown(h, w, cs, y, x, w.maxx - 1) && ShownFrom(h, w, cs, y + 1, 0)
    ensures ShownFrom(h, w, cs, y, x)
  {
    forall i, c | 0 <= i < w.maxy && 0 <= c < w.maxx && (i > y || (i == y && c >= x))
      ensures CellShown(h, w, cs, i, c)
    {
      if i == y {
        assert x <= c <= w.maxx - 1;
      } else {
        assert i > y + 1 || (i == y + 1 && c >= 0);
      }
    }
  }

  /** ShownFrom depends only on the rows and the place of the window. */
  lemma ShownFromCarry(h: Heap, a: Win, b: Win, cs: Curscr, y: int, x: int)
    requires Wf(h, a) && Wf(h, b) && a.rows == b.rows && SamePlace(a, b)
    requires ShownFrom(h, a, cs, y, x)
    ensures ShownFrom(h, b, cs, y, x)
  {
    SameRowsCells(h, a, b);
    forall i, c | 0 <= i < b.maxy && 0 <= c < b.maxx && (i > y || (i == y && c >= x))
      ensures CellShown(h, b, cs, i, c)
    {
      assert CellShown(h, a, cs, i, c);
    }
  }

  /** ShownOrKept depends only on the rows and the place of the windows. */
  lemma ShownOrKeptCarry(h0: Heap, w0: Win, a0: Win, cs0: Curscr, h: Heap, a: Win, b: Win, cs: Curscr)
    requires Wf(h0, w0) && Wf(h0, a0) && a0.rows == w0.rows && SamePlace(w0, a0)
    requires Wf(h, a) && Wf(h, b) && a.rows == b.rows && SamePlace(a, b) && SamePlace(w0, a)
    requires ShownOrKept(h0, a0, cs0, h, a, cs)
    ensures ShownOrKept(h0, w0, cs0, h, b, cs)
  {
    SameRowsCells(h0, w0, a0);
    SameRowsCells(h, a, b);
  }

  /**
   * A refresh that shows the changes of `v` keeps or shows every cell of
   * any window on the same rows, when `v` marks every cell it changed
   * from `w` over `h0`.
   */
  lemma ShownOrKeptBySync(h0: Heap, w: Win, h: Heap, v: Win, cs: Curscr, cols: int, cs': Curscr, w': Win)
    requires Wf(h0, w) && Wf(h, v) && SamePlace(w, v) && ChangesMarked(h0, w, h, v)
    requires ScreenOk(cs, cols) && OnScreen(v, cs, cols) && ScreenOk(cs', cols) && |cs'.lines| == |cs.lines|
    requires ShowsChanges(h, v, cs, cols, cs')
    requires Wf(h, w') && w'.rows == v.rows && SamePlace(v, w')
    ensures ShownOrKept(h0, w, cs, h, w', cs')
  {
    SameRowsCells(h, v, w');
    forall i, c | 0 <= i < w.maxy && 0 <= c < w.maxx
      ensures CellShown(h, w', cs', i, c) || (Get(h, w', i, c) == Get(h0, w, i, c) && Under(cs', w', i, c) == Under(cs, w, i, c))
    {
      if Dirty(v, i, c) {
        ChangedShown(h, v, cs, cols, cs', i, c);
      }
    }
  }

  /**
   * With immedok, Then keeps or shows every cell of the window, when the
   * drawing marked every cell it changed.
   */
  lemma ThenShownOrKept(s: Done, id: WinId, h: Heap, v: Win, cols: int)
    requires Ready(s.heap, s.wins, id, s.cs, cols) && Wf(h, v) && v.parent == s.wins[id].parent
    requires v.immed ==> OnScreen(v, s.cs, cols)
    requires Immediate(v) && SamePlace(s.wins[id], v) && ChangesMarked(s.heap, s.wins[id], h, v)
    ensures var t := Then(s, id, h, v, cols);
      Ready(h, t.wins, id, t.cs, cols) && SamePlace(s.wins[id], t.wins[id]) &&
      ShownOrKept(s.heap, s.wins[id], s.cs, h, t.wins[id], t.cs)
  {
    var u := Sync(h, s.wins, id, v, s.cs, s.sp, cols);
    SyncRows(h, s.wins, id, v, s.cs, s.sp, cols);
    ShownOrKeptBySync(s.heap, s.wins[id], h, v, s.cs, cols, u.cs, u.wins[id]);
  }

  /** Cell (`i`, `c`) of `w'` over `h'`: the background on rows `lo` to `hi`, as `w` over `h` had it elsewhere. */
  ghost predicate BlankedRows(h: Heap, w: Win, lo: int, hi: int, h': Heap, w': Win)
    requires Backed(h, w) && Backed(h', w') && w'.maxy == w.maxy && w'.maxx == w.maxx
  {
    forall i, c :: 0 <= i < w.maxy && 0 <= c < w.maxx ==>
      Get(h', w', i, c) == (if lo <= i <= hi then w.bkgd else Get(h, w, i, c))
  }

  /** BlankedRows depends only on the rows the window shows. */
  lemma BlankedRowsCarry(h: Heap, w: Win, lo: int, hi: int, h': Heap, a: Win, b: Win)
    requires Backed(h, w) && Wf(h', a) && Wf(h', b) && a.rows == b.rows && a.maxy == w.maxy && a.maxx == w.maxx
    requires b.maxy == w.maxy && b.maxx == w.maxx
    requires BlankedRows(h, w, lo, hi, h', a)
    ensures BlankedRows(h, w, lo, hi, h', b)
  {
    SameRowsCells(h', a, b);
  }

  /**
   * The spans after blanking rows `lo` to `hi` of `w` in full: without a
   * refresh the clear flag stays, and without syncok too those rows are
   * changed across the full width and the others are as they were.  What
   * a refresh or syncok leaves is what the closing PDC_sync leaves, so
   * nothing more is needed of the rows before it.
   */
  ghost predicate RowsSpans(w: Win, lo: int, hi: int, w': Win)
    requires Shaped(w) && Shaped(w') && w'.maxy == w.maxy
  {
    (!Immediate(w) ==> w'.clear == w.clear) &&
    (!Immediate(w) && !w.sync ==> forall i :: 0 <= i < w.maxy ==>
      w'.firstch[i] == (if lo <= i <= hi then 0 else w.firstch[i]) &&
      w'.lastch[i] == (if lo <= i <= hi then w.maxx - 1 else w.lastch[i]))
  }

  /** wclrtoeol from column 0 of row `y`: the row blanked, every changed cell marked, the row changed in full. */
  lemma RowDrawn(h: Heap, w: Win, y: int)
    requires Wf(h, w) && 0 <= y < w.maxy && w.maxx >= 1
    ensures var v := w.(cury := y, curx := 0); Wf(h, v) && CursorIn(v)
    ensures var d := Clear.WClrToEol(h, w.(cury := y, curx := 0));
      Wf(d.heap, d.win) && SamePlace(w, d.win) && d.win.rows == w.rows && SameShape(h, d.heap) &&
      d.win == w.(cury := y, curx := 0, firstch := d.win.firstch, lastch := d.win.lastch) &&
      BlankedRows(h, w, y, y, d.heap, d.win) && ChangesMarked(h, w, d.heap, d.win) && RowDirty(d.win, y, 0, w.maxx - 1) &&
      forall i :: 0 <= i < w.maxy ==>
        d.win.firstch[i] == (if i == y then 0 else w.firstch[i]) &&
        d.win.lastch[i] == (if i == y then w.maxx - 1 else w.lastch[i])
  {
    RowBlanked(h, w, y);
  }

  /** The cells of RowDrawn: row `y` blanked and changed in full, the others kept. */
  lemma RowBlanked(h: Heap, w: Win, y: int)
    requires Wf(h, w) && 0 <= y < w.maxy && w.maxx >= 1
    ensures var v := w.(cury := y, curx := 0); Wf(h, v) && CursorIn(v)
    ensures var d := Clear.WClrToEol(h, w.(cury := y, curx := 0));
      Backed(d.heap, d.win) && SamePlace(w, d.win) &&
      BlankedRows(h, w, y, y, d.heap, d.win) && ChangesMarked(h, w, d.heap, d.win) && RowDirty(d.win, y, 0, w.maxx - 1)
  {
    RowMarked(h, w, y);
  }

  /** The marks of RowDrawn: row `y` changed in full, so every changed cell is marked. */
  lemma RowMarked(h: Heap, w: Win, y: int)
    requires Wf(h, w) && 0 <= y < w.maxy && w.maxx >= 1
    ensures var v := w.(cury := y, curx := 0); Wf(h, v) && CursorIn(v)
    ensures var d := Clear.WClrToEol(h, w.(cury := y, curx := 0));
      Backed(d.heap, d.win) && SamePlace(w, d.win) && ChangesMarked(h, w, d.heap, d.win) && RowDirty(d.win, y, 0, w.maxx - 1)
  {
  }

  /**
   * One turn of wclrtobot's loop: the cursor to column 0 of row `y`,
   * then wclrtoeol with its PDC_sync.
   */
  function ClrRow(s: Done, id: WinId, y: int, cols: int): (t: Done)
    requires Ready(s.heap, s.wins, id, s.cs, cols) && 0 <= y < s.wins[id].maxy && s.wins[id].maxx >= 1
    ensures t.status == s.status && SameShape(s.heap, t.heap) && Ready(t.heap, t.wins, id, t.cs, cols)
    ensures Stays(s.wins[id], t.wins[id]) && t.wins[id].cury == y && t.wins[id].curx == 0
  {
    var v := s.wins[id].(cury := y, curx := 0);
    RowDrawn(s.heap, s.wins[id], y);
    var d := Clear.WClrToEol(s.heap, v);
    Then(s, id, d.heap, d.win, cols)
  }

  /** One turn of the loop: the windows and the spans; without a refresh curscr, terminal and calls kept. */
  lemma ClrRowWins(s: Done, id: WinId, y: int, cols: int)
    requires Ready(s.heap, s.wins, id, s.cs, cols) && 0 <= y < s.wins[id].maxy && s.wins[id].maxx >= 1
    ensures var t := ClrRow(s, id, y, cols); var w := s.wins[id];
      Around(s.wins, id, w.sync, t.wins) && RowsSpans(w, y, y, t.wins[id]) &&
      (!Immediate(w) ==> t.cs == s.cs && t.sp == s.sp && t.paints == s.paints)
  {
    var w := s.wins[id];
    RowDrawn(s.heap, w, y);
    var d := Clear.WClrToEol(s.heap, w.(cury := y, curx := 0));
    ThenWins(s, id, d.heap, d.win, cols);
    var t := ClrRow(s, id, y, cols);
    SyncedRowsSpans(d.heap, s.wins, id, w, d.win, y, y, t.wins);
  }

  /** One turn of the loop: row `y` blanked, every other cell kept. */
  lemma ClrRowCells(s: Done, id: WinId, y: int, cols: int)
    requires Ready(s.heap, s.wins, id, s.cs, cols) && 0 <= y < s.wins[id].maxy && s.wins[id].maxx >= 1
    ensures var t := ClrRow(s, id, y, cols); var w := s.wins[id];
      BlankedRows(s.heap, w, y, y, t.heap, t.wins[id])
  {
    var w := s.wins[id];
    RowDrawn(s.heap, w, y);
    var d := Clear.WClrToEol(s.heap, w.(cury := y, curx := 0));
    var t := ClrRow(s, id, y, cols);
    BlankedRowsCarry(s.heap, w, y, y, d.heap, d.win, t.wins[id]);
  }

  /** PDC_sync of a window whose rows `lo` to `hi` were changed in full leaves the spans RowsSpans describes. */
  lemma SyncedRowsSpans(h: Heap, wins: map<WinId, Win>, id: WinId, w: Win, v: Win, lo: int, hi: int, r: map<WinId, Win>)
    requires Linked(wins) && id in wins && Shaped(w) && Shaped(v) && v.maxy == w.maxy && lo <= hi
    requires v == w.(cury := v.cury, curx := v.curx, firstch := v.firstch, lastch := v.lastch)
    requires forall i :: 0 <= i < w.maxy ==>
      v.firstch[i] == (if lo <= i <= hi then 0 else w.firstch[i]) &&
      v.lastch[i] == (if lo <= i <= hi then w.maxx - 1 else w.lastch[i])
    requires SyncedWins(h, wins, id, v, Immediate(v), r)
    ensures Shaped(r[id]) && r[id].maxy == w.maxy && RowsSpans(w, lo, hi, r[id])
  {
  }

  /** One turn of the loop with immedok: the row is on curscr, every other cell kept or shown. */
  lemma ClrRowScreen(s: Done, id: WinId, y: int, cols: int)
    requires Ready(s.heap, s.wins, id, s.cs, cols) && 0 <= y < s.wins[id].maxy && s.wins[id].maxx >= 1
    requires Immediate(s.wins[id])
    ensures var t := ClrRow(s, id, y, cols); var w := s.wins[id];
      SamePlace(w, t.wins[id]) &&
      ShownOrKept(s.heap, w, s.cs, t.heap, t.wins[id], t.cs) && RowShown(t.heap, t.wins[id], t.cs, y, 0, w.maxx - 1)
  {
    var w := s.wins[id];
    var v := w.(cury := y, curx := 0);
    RowDrawn(s.heap, w, y);
    var d := Clear.WClrToEol(s.heap, v);
    ThenShownOrKept(s, id, d.heap, d.win, cols);
    SyncRowShown(d.heap, s.wins, id, d.win, s.cs, s.sp, cols, y, 0, w.maxx - 1);
  }

  /** SameShape composes. */
  lemma SameShapeTrans(h0: Heap, h1: Heap, h2: Heap)
    requires SameShape(h0, h1) && SameShape(h1, h2)
    ensures SameShape(h0, h2)
  {
  }

  /** Around composes, when the window keeps its parent. */
  lemma AroundTrans(w0: map<WinId, Win>, w1: map<WinId, Win>, w2: map<WinId, Win>, id: WinId, sync: bool)
    requires Linked(w0) && id in w0 && Around(w0, id, sync, w1) && w1[id].parent == w0[id].parent
    requires Around(w1, id, sync, w2)
    ensures Around(w0, id, sync, w2)
  {
    AroundParents(w0, w1, id, sync);
    ChainFrame(w0, w1, id);
    var c := Chain(w0, id);
    forall u | u in w0 && u != id
      ensures w2[u] == (if sync && u in c then TouchWin(w0[u]) else w0[u])
    {
      if sync && u in c {
        TouchWinIdempotent(TouchWin(w0[u]));
      }
    }
  }

  /** Around keeps every parent link but that of `id`. */
  lemma AroundParents(w0: map<WinId, Win>, w1: map<WinId, Win>, id: WinId, sync: bool)
    requires Linked(w0) && id in w0 && Around(w0, id, sync, w1) && w1[id].parent == w0[id].parent
    ensures forall u :: u in w0 ==> w1[u].parent == w0[u].parent
  {
  }

  /** Rows `lo` to `hi` of `w'` over `h'` are on curscr. */
  ghost predicate RowsShown(h': Heap, w': Win, cs': Curscr, lo: int, hi: int)
    requires Backed(h', w')
  {
    forall i, c :: lo <= i <= hi && 0 <= i < w'.maxy && 0 <= c < w'.maxx ==> CellShown(h', w', cs', i, c)
  }

  /** Shown rows stay shown across ShownOrKept. */
  lemma RowsShownKept(h1: Heap, w1: Win, cs1: Curscr, h2: Heap, w2: Win, cs2: Curscr, lo: int, hi: int)
    requires Backed(h1, w1) && Backed(h2, w2) && SamePlace(w1, w2)
    requires RowsShown(h1, w1, cs1, lo, hi) && ShownOrKept(h1, w1, cs1, h2, w2, cs2)
    ensures RowsShown(h2, w2, cs2, lo, hi)
  {
    forall i, c | lo <= i <= hi && 0 <= i < w2.maxy && 0 <= c < w2.maxx
      ensures CellShown(h2, w2, cs2, i, c)
    {
      assert CellShown(h1, w1, cs1, i, c);
    }
  }

  /** Shown rows `lo` to `y - 1` and a shown row `y` are shown rows `lo` to `y`. */
  lemma RowsShownAdd(h: Heap, w: Win, cs: Curscr, lo: int, y: int)
    requires Backed(h, w) && RowsShown(h, w, cs, lo, y - 1) && RowShown(h, w, cs, y, 0, w.maxx - 1)
    ensures RowsShown(h, w, cs, lo, y)
  {
    forall i, c | lo <= i <= y && 0 <= i < w.maxy && 0 <= c < w.maxx
      ensures CellShown(h, w, cs, i, c)
    {
      if i == y {
        assert 0 <= c <= w.maxx - 1;
      }
    }
  }

  /** RowsShown depends only on the rows and the place of the window. */
  lemma RowsShownCarry(h: Heap, a: Win, b: Win, cs: Curscr, lo: int, hi: int)
    requires Wf(h, a) && Wf(h, b) && a.rows == b.rows && SamePlace(a, b)
    requires RowsShown(h, a, cs, lo, hi)
    ensures RowsShown(h, b, cs, lo, hi)
  {
    SameRowsCells(h, a, b);
    forall i, c | lo <= i <= hi && 0 <= i < b.maxy && 0 <= c < b.maxx
      ensures CellShown(h, b, cs, i, c)
    {
      assert CellShown(h, a, cs, i, c);
    }
  }

  /** Row `y` shown from column `x` and the rows below it shown are ShownFrom(`y`, `x`). */
  lemma ShownFromRows(h: Heap, w: Win, cs: Curscr, y: int, x: int)
    requires Backed(h, w) && RowShown(h, w, cs, y, x, w.maxx - 1) && RowsShown(h, w, cs, y + 1, w.maxy - 1)
    ensures ShownFrom(h, w, cs, y, x)
  {
    forall i, c | 0 <= i < w.maxy && 0 <= c < w.maxx && (i > y || (i == y && c >= x))
      ensures CellShown(h, w, cs, i, c)
    {
      if i == y {
        assert x <= c <= w.maxx - 1;
      } else {
        assert y + 1 <= i <= w.maxy - 1;
      }
    }
  }

  /** The spans of the loop's turns so far followed by those of one more turn. */
  lemma RowsSpansAdd(w: Win, lo: int, y: int, a: Win, b: Win)
    requires Shaped(w) && Shaped(a) && Shaped(b) && a.maxy == w.maxy && b.maxy == w.maxy && lo < y
    requires Stays(w, a) && Stays(a, b)
    requires RowsSpans(w, lo, y - 1, a) && RowsSpans(a, y, y, b)
    ensures RowsSpans(w, lo, y, b)
  {
  }

  /** The cells of the loop's turns so far followed by those of one more turn. */
  lemma BlankedRowsAdd(h: Heap, w: Win, lo: int, y: int, ha: Heap, a: Win, hb: Heap, b: Win)
    requires Backed(h, w) && Backed(ha, a) && Backed(hb, b) && SamePlace(w, a) && SamePlace(a, b) && a.bkgd == w.bkgd
    requires lo <= y && BlankedRows(h, w, lo, y - 1, ha, a) && BlankedRows(ha, a, y, y, hb, b)
    ensures BlankedRows(h, w, lo, y, hb, b)
  {
  }

  /**
   * wclrtobot's loop before row `y`, on window `id` of `wins` over `h`:
   * until a turn has run, the state `s` is the start; after that the
   * windows around are as Around says and the spans as RowsSpans says
   * for the rows from the one below the cursor to `y - 1`; without a
   * refresh curscr, the terminal and the calls are as they were.
   */
  ghost predicate BelowWins(h: Heap, wins: map<WinId, Win>, id: WinId, cs: Curscr, sp: Phys, cols: int, y: int, s: Done)
    requires Ready(h, wins, id, cs, cols)
  {
    BelowState(h, wins, id, cs, sp, cols, y, s) && BelowAround(wins, id, y, s.wins)
  }

  /** The part of BelowWins about the state as a whole. */
  ghost predicate BelowState(h: Heap, wins: map<WinId, Win>, id: WinId, cs: Curscr, sp: Phys, cols: int, y: int, s: Done)
    requires Ready(h, wins, id, cs, cols)
  {
    var w := wins[id];
    Ready(s.heap, s.wins, id, s.cs, cols) && s.status == OK && SameShape(h, s.heap) && Stays(w, s.wins[id]) &&
    (y <= w.cury + 1 ==> s == Done(OK, h, wins, cs, sp, [])) &&
    (!Immediate(w) ==> s.cs == cs && s.sp == sp && s.paints == [])
  }

  /** The part of BelowWins about the windows once a turn has run. */
  ghost predicate BelowAround(wins: map<WinId, Win>, id: WinId, y: int, a: map<WinId, Win>)
    requires Linked(wins) && id in wins && Shaped(wins[id]) && id in a && Shaped(a[id]) && a[id].maxy == wins[id].maxy
  {
    BelowChain(wins, id, y, a) && BelowSpans(wins, id, y, a)
  }

  /** The windows around, once a turn has run. */
  ghost predicate BelowChain(wins: map<WinId, Win>, id: WinId, y: int, a: map<WinId, Win>)
    requires Linked(wins) && id in wins
  {
    y > wins[id].cury + 1 ==> Around(wins, id, wins[id].sync, a)
  }

  /** The spans of the window, once a turn has run. */
  ghost predicate BelowSpans(wins: map<WinId, Win>, id: WinId, y: int, a: map<WinId, Win>)
    requires id in wins && Shaped(wins[id]) && id in a && Shaped(a[id]) && a[id].maxy == wins[id].maxy
  {
    y > wins[id].cury + 1 ==> RowsSpans(wins[id], wins[id].cury + 1, y - 1, a[id])
  }

  /** The loop's cells before row `y`: the rows from the one below the cursor to `y - 1` blanked, the others kept. */
  ghost predicate BelowCells(h: Heap, wins: map<WinId, Win>, id: WinId, cs: Curscr, sp: Phys, cols: int, y: int, s: Done)
    requires Ready(h, wins, id, cs, cols) && BelowWins(h, wins, id, cs, sp, cols, y, s)
  {
    BlankedRows(h, wins[id], wins[id].cury + 1, y - 1, s.heap, s.wins[id])
  }

  /** The loop's screen before row `y`, with immedok: those rows on curscr, every other cell kept or shown. */
  ghost predicate BelowScreen(h: Heap, wins: map<WinId, Win>, id: WinId, cs: Curscr, sp: Phys, cols: int, y: int, s: Done)
    requires Ready(h, wins, id, cs, cols) && BelowWins(h, wins, id, cs, sp, cols, y, s)
  {
    var w := wins[id];
    Immediate(w) ==>
      ShownOrKept(h, w, cs, s.heap, s.wins[id], s.cs) && RowsShown(s.heap, s.wins[id], s.cs, w.cury + 1, y - 1)
  }

  /** wclrtobot's loop before row `y`: BelowWins, BelowCells and BelowScreen. */
  ghost predicate Below(h: Heap, wins: map<WinId, Win>, id: WinId, cs: Curscr, sp: Phys, cols: int, y: int, s: Done)
    requires Ready(h, wins, id, cs, cols)
  {
    BelowWins(h, wins, id, cs, sp, cols, y, s) && BelowCells(h, wins, id, cs, sp, cols, y, s) &&
    BelowScreen(h, wins, id, cs, sp, cols, y, s)
  }

  /** Before the loop's first turn. */
  lemma BelowStart(h: Heap, wins: map<WinId, Win>, id: WinId, cs: Curscr, sp: Phys, cols: int)
    requires Ready(h, wins, id, cs, cols)
    ensures Below(h, wins, id, cs, sp, cols, wins[id].cury + 1, Done(OK, h, wins, cs, sp, []))
  {
    ShownOrKeptSame(h, wins[id], wins[id], cs);
  }

  /** One turn of the loop keeps BelowWins. */
  lemma BelowWinsStep(h: Heap, wins: map<WinId, Win>, id: WinId, cs: Curscr, sp: Phys, cols: int, y: int, s: Done)
    requires Ready(h, wins, id, cs, cols) && CursorIn(wins[id]) && wins[id].cury + 1 <= y < wins[id].maxy
    requires BelowWins(h, wins, id, cs, sp, cols, y, s)
    ensures BelowWins(h, wins, id, cs, sp, cols, y + 1, ClrRow(s, id, y, cols))
  {
    ClrRowWins(s, id, y, cols);
    BelowWinsAdd(h, wins, id, cs, sp, cols, y, s, ClrRow(s, id, y, cols));
  }

  /** BelowWins before row `y` and the windows of the turn on row `y` give BelowWins before row `y + 1`. */
  lemma BelowWinsAdd(h: Heap, wins: map<WinId, Win>, id: WinId, cs: Curscr, sp: Phys, cols: int, y: int, s: Done, t: Done)
    requires Ready(h, wins, id, cs, cols) && CursorIn(wins[id]) && wins[id].cury + 1 <= y < wins[id].maxy
    requires BelowWins(h, wins, id, cs, sp, cols, y, s)
    requires t.status == s.status && SameShape(s.heap, t.heap) && Ready(t.heap, t.wins, id, t.cs, cols)
    requires Stays(s.wins[id], t.wins[id])
    requires Around(s.wins, id, s.wins[id].sync, t.wins) && RowsSpans(s.wins[id], y, y, t.wins[id])
    requires !Immediate(s.wins[id]) ==> t.cs == s.cs && t.sp == s.sp && t.paints == s.paints
    ensures BelowWins(h, wins, id, cs, sp, cols, y + 1, t)
  {
    var w := wins[id];
    SameShapeTrans(h, s.heap, t.heap);
    assert BelowState(h, wins, id, cs, sp, cols, y + 1, t);
    BelowAroundAdd(wins, id, y, s.wins, t.wins);
  }

  /** BelowAround before row `y` and the windows of the turn on row `y` give BelowAround before row `y + 1`. */
  lemma BelowAroundAdd(wins: map<WinId, Win>, id: WinId, y: int, a: map<WinId, Win>, b: map<WinId, Win>)
    requires Linked(wins) && id in wins && id in a && id in b && wins[id].cury + 1 <= y
    requires Shaped(wins[id]) && Shaped(a[id]) && Shaped(b[id]) && a[id].maxy == wins[id].maxy && b[id].maxy == wins[id].maxy
    requires y <= wins[id].cury + 1 ==> a == wins
    requires Stays(wins[id], a[id]) && Stays(a[id], b[id])
    requires BelowAround(wins, id, y, a)
    requires Around(a, id, a[id].sync, b) && RowsSpans(a[id], y, y, b[id])
    ensures BelowAround(wins, id, y + 1, b)
  {
    var w := wins[id];
    if y > w.cury + 1 {
      ChainAdd(wins, id, y, a, b);
      SpansAdd(wins, id, y, a, b);
    } else {
      AroundRowsFirst(wins, id, y, a, b);
    }
  }

  /** Around up to row `y - 1` followed by Around for the turn on row `y`. */
  lemma ChainAdd(wins: map<WinId, Win>, id: WinId, y: int, a: map<WinId, Win>, b: map<WinId, Win>)
    requires Linked(wins) && id in wins && id in a && wins[id].cury + 1 < y && Stays(wins[id], a[id])
    requires Around(wins, id, wins[id].sync, a) && Around(a, id, a[id].sync, b)
    ensures BelowChain(wins, id, y + 1, b)
  {
    AroundTrans(wins, a, b, id, wins[id].sync);
  }

  /** RowsSpans up to row `y - 1` followed by RowsSpans for the turn on row `y`. */
  lemma SpansAdd(wins: map<WinId, Win>, id: WinId, y: int, a: map<WinId, Win>, b: map<WinId, Win>)
    requires id in wins && id in a && id in b && wins[id].cury + 1 < y
    requires Shaped(wins[id]) && Shaped(a[id]) && Shaped(b[id]) && a[id].maxy == wins[id].maxy && b[id].maxy == wins[id].maxy
    requires Stays(wins[id], a[id]) && Stays(a[id], b[id])
    requires RowsSpans(wins[id], wins[id].cury + 1, y - 1, a[id]) && RowsSpans(a[id], y, y, b[id])
    ensures BelowSpans(wins, id, y + 1, b)
  {
    RowsSpansAdd(wins[id], wins[id].cury + 1, y, a[id], b[id]);
  }

  /** The first turn, on row `y`, from the windows as they were. */
  lemma AroundRowsFirst(wins: map<WinId, Win>, id: WinId, y: int, a: map<WinId, Win>, b: map<WinId, Win>)
    requires Linked(wins) && id in wins && id in b && a == wins && y == wins[id].cury + 1
    requires Shaped(wins[id]) && Shaped(b[id]) && b[id].maxy == wins[id].maxy
    requires Around(a, id, a[id].sync, b) && RowsSpans(a[id], y, y, b[id])
    ensures BelowAround(wins, id, y + 1, b)
  {
  }

  /** One turn of the loop keeps BelowCells. */
  lemma BelowCellsStep(h: Heap, wins: map<WinId, Win>, id: WinId, cs: Curscr, sp: Phys, cols: int, y: int, s: Done)
    requires Ready(h, wins, id, cs, cols) && CursorIn(wins[id]) && wins[id].cury + 1 <= y < wins[id].maxy
    requires BelowWins(h, wins, id, cs, sp, cols, y, s) && BelowCells(h, wins, id, cs, sp, cols, y, s)
    ensures var t := ClrRow(s, id, y, cols);
      BelowWins(h, wins, id, cs, sp, cols, y + 1, t) && BelowCells(h, wins, id, cs, sp, cols, y + 1, t)
  {
    BelowWinsStep(h, wins, id, cs, sp, cols, y, s);
    ClrRowCells(s, id, y, cols);
    BelowCellsAdd(h, wins, id, cs, sp, cols, y, s, ClrRow(s, id, y, cols));
  }

  /** BelowCells before row `y` and the cells of the turn on row `y` give BelowCells before row `y + 1`. */
  lemma BelowCellsAdd(h: Heap, wins: map<WinId, Win>, id: WinId, cs: Curscr, sp: Phys, cols: int, y: int, s: Done, t: Done)
    requires Ready(h, wins, id, cs, cols) && CursorIn(wins[id]) && wins[id].cury + 1 <= y < wins[id].maxy
    requires BelowWins(h, wins, id, cs, sp, cols, y, s) && BelowCells(h, wins, id, cs, sp, cols, y, s)
    requires BelowWins(h, wins, id, cs, sp, cols, y + 1, t) && Stays(s.wins[id], t.wins[id])
    requires BlankedRows(s.heap, s.wins[id], y, y, t.heap, t.wins[id])
    ensures BelowCells(h, wins, id, cs, sp, cols, y + 1, t)
  {
    var w := wins[id];
    BlankedRowsAdd(h, w, w.cury + 1, y, s.heap, s.wins[id], t.heap, t.wins[id]);
  }

  /** One turn of the loop keeps BelowScreen. */
  lemma BelowScreenStep(h: Heap, wins: map<WinId, Win>, id: WinId, cs: Curscr, sp: Phys, cols: int, y: int, s: Done)
    requires Ready(h, wins, id, cs, cols) && CursorIn(wins[id]) && wins[id].cury + 1 <= y < wins[id].maxy
    requires BelowWins(h, wins, id, cs, sp, cols, y, s) && BelowScreen(h, wins, id, cs, sp, cols, y, s)
    ensures var t := ClrRow(s, id, y, cols);
      BelowWins(h, wins, id, cs, sp, cols, y + 1, t) && BelowScreen(h, wins, id, cs, sp, cols, y + 1, t)
  {
    var t := ClrRow(s, id, y, cols);
    BelowWinsStep(h, wins, id, cs, sp, cols, y, s);
    if Immediate(wins[id]) {
      ClrRowScreen(s, id, y, cols);
    }
    BelowScreenAdd(h, wins, id, cs, sp, cols, y, s, t);
  }

  /** BelowScreen before row `y` and the screen of the turn on row `y` give BelowScreen before row `y + 1`. */
  lemma BelowScreenAdd(h: Heap, wins: map<WinId, Win>, id: WinId, cs: Curscr, sp: Phys, cols: int, y: int, s: Done, t: Done)
    requires Ready(h, wins, id, cs, cols) && CursorIn(wins[id]) && wins[id].cury + 1 <= y < wins[id].maxy
    requires BelowWins(h, wins, id, cs, sp, cols, y, s) && BelowScreen(h, wins, id, cs, sp, cols, y, s)
    requires BelowWins(h, wins, id, cs, sp, cols, y + 1, t) && Stays(s.wins[id], t.wins[id])
    requires Immediate(s.wins[id]) ==> (SamePlace(s.wins[id], t.wins[id]) &&
      ShownOrKept(s.heap, s.wins[id], s.cs, t.heap, t.wins[id], t.cs) &&
      RowShown(t.heap, t.wins[id], t.cs, y, 0, s.wins[id].maxx - 1))
    ensures BelowScreen(h, wins, id, cs, sp, cols, y + 1, t)
  {
    var w := wins[id];
    if Immediate(w) {
      ShownOrKeptTrans(h, w, cs, s.heap, s.wins[id], s.cs, t.heap, t.wins[id], t.cs);
      RowsShownKept(s.heap, s.wins[id], s.cs, t.heap, t.wins[id], t.cs, w.cury + 1, y - 1);
      RowsShownAdd(t.heap, t.wins[id], t.cs, w.cury + 1, y);
    }
  }

  /** wclrtobot puts the cursor back where it was once the loop is done. */
  function Restore(s: Done, id: WinId, y: int, x: int): (u: Done)
    requires id in s.wins
    ensures u.wins.Keys == s.wins.Keys && u.wins[id] == s.wins[id].(cury := y, curx := x)
  {
    s.(wins := s.wins[id := s.wins[id].(cury := y, curx := x)])
  }

  /** After the loop, putting the cursor back keeps BelowWins, and the window is as it was but for spans and clear flag. */
  lemma RestoreWins(h: Heap, wins: map<WinId, Win>, id: WinId, cs: Curscr, sp: Phys, cols: int, s: Done)
    requires Ready(h, wins, id, cs, cols) && CursorIn(wins[id]) && wins[id].cury + 1 < wins[id].maxy
    requires BelowWins(h, wins, id, cs, sp, cols, wins[id].maxy, s)
    ensures var u := Restore(s, id, wins[id].cury, wins[id].curx);
      BelowWins(h, wins, id, cs, sp, cols, wins[id].maxy, u) && Respanned(wins[id], u.wins[id])
  {
    RestoreState(h, wins, id, cs, sp, cols, s);
    RestoreAround(h, wins, id, cs, sp, cols, s);
  }

  /** Putting the cursor back keeps BelowState. */
  lemma RestoreState(h: Heap, wins: map<WinId, Win>, id: WinId, cs: Curscr, sp: Phys, cols: int, s: Done)
    requires Ready(h, wins, id, cs, cols) && CursorIn(wins[id]) && wins[id].cury + 1 < wins[id].maxy
    requires BelowState(h, wins, id, cs, sp, cols, wins[id].maxy, s)
    ensures var u := Restore(s, id, wins[id].cury, wins[id].curx);
      BelowState(h, wins, id, cs, sp, cols, wins[id].maxy, u) && Respanned(wins[id], u.wins[id])
  {
    RestoreReady(s, id, wins[id].cury, wins[id].curx, cols);
  }

  /** Putting the cursor back keeps BelowAround. */
  lemma RestoreAround(h: Heap, wins: map<WinId, Win>, id: WinId, cs: Curscr, sp: Phys, cols: int, s: Done)
    requires Ready(h, wins, id, cs, cols) && CursorIn(wins[id]) && wins[id].cury + 1 < wins[id].maxy
    requires BelowState(h, wins, id, cs, sp, cols, wins[id].maxy, s) && BelowAround(wins, id, wins[id].maxy, s.wins)
    ensures var u := Restore(s, id, wins[id].cury, wins[id].curx);
      BelowState(h, wins, id, cs, sp, cols, wins[id].maxy, u) && BelowAround(wins, id, wins[id].maxy, u.wins)
  {
    var w := wins[id];
    var u := Restore(s, id, w.cury, w.curx);
    RestoreState(h, wins, id, cs, sp, cols, s);
    AroundReplaced(wins, id, w.sync, s.wins, u.wins[id]);
    RowsSpansMoved(w, w.cury + 1, w.maxy - 1, s.wins[id], u.wins[id]);
  }

  /** Putting the cursor back keeps the window drawable. */
  lemma RestoreReady(s: Done, id: WinId, y: int, x: int, cols: int)
    requires Ready(s.heap, s.wins, id, s.cs, cols)
    ensures var u := Restore(s, id, y, x); Ready(u.heap, u.wins, id, u.cs, cols) && u.wins[id].rows == s.wins[id].rows
  {
    var v := s.wins[id].(cury := y, curx := x);
    MovedWf(s.heap, s.wins[id], y, x);
    LinkedUpdate(s.wins, id, v);
    assert Restore(s, id, y, x).wins == s.wins[id := v];
  }

  /** Wf does not look at the cursor. */
  lemma MovedWf(h: Heap, w: Win, y: int, x: int)
    requires Wf(h, w)
    ensures Wf(h, w.(cury := y, curx := x))
  {
  }

  /** Around does not look at the window `id` itself, but for its shape and parent. */
  lemma AroundReplaced(wins: map<WinId, Win>, id: WinId, sync: bool, m: map<WinId, Win>, v: Win)
    requires Linked(wins) && id in wins && Around(wins, id, sync, m) && Shaped(v) && v.parent == m[id].parent
    ensures Around(wins, id, sync, m[id := v])
  {
    LinkedUpdate(m, id, v);
  }

  /** RowsSpans does not look at the cursor. */
  lemma RowsSpansMoved(w: Win, lo: int, hi: int, a: Win, b: Win)
    requires Shaped(w) && Shaped(a) && a.maxy == w.maxy && RowsSpans(w, lo, hi, a)
    requires b == a.(cury := b.cury, curx := b.curx)
    ensures Shaped(b) && RowsSpans(w, lo, hi, b)
  {
  }

  /** Putting the cursor back keeps BelowCells. */
  lemma RestoreCells(h: Heap, wins: map<WinId, Win>, id: WinId, cs: Curscr, sp: Phys, cols: int, s: Done)
    requires Ready(h, wins, id, cs, cols) && CursorIn(wins[id]) && wins[id].cury + 1 < wins[id].maxy
    requires BelowWins(h, wins, id, cs, sp, cols, wins[id].maxy, s) && BelowCells(h, wins, id, cs, sp, cols, wins[id].maxy, s)
    ensures var u := Restore(s, id, wins[id].cury, wins[id].curx);
      BelowWins(h, wins, id, cs, sp, cols, wins[id].maxy, u) && BelowCells(h, wins, id, cs, sp, cols, wins[id].maxy, u)
  {
    var w := wins[id];
    var u := Restore(s, id, w.cury, w.curx);
    RestoreWins(h, wins, id, cs, sp, cols, s);
    BlankedRowsCarry(h, w, w.cury + 1, w.maxy - 1, s.heap, s.wins[id], u.wins[id]);
  }

  /** Putting the cursor back keeps BelowScreen. */
  lemma RestoreScreen(h: Heap, wins: map<WinId, Win>, id: WinId, cs: Curscr, sp: Phys, cols: int, s: Done)
    requires Ready(h, wins, id, cs, cols) && CursorIn(wins[id]) && wins[id].cury + 1 < wins[id].maxy
    requires BelowWins(h, wins, id, cs, sp, cols, wins[id].maxy, s) && BelowScreen(h, wins, id, cs, sp, cols, wins[id].maxy, s)
    ensures var u := Restore(s, id, wins[id].cury, wins[id].curx);
      BelowWins(h, wins, id, cs, sp, cols, wins[id].maxy, u) && BelowScreen(h, wins, id, cs, sp, cols, wins[id].maxy, u)
  {
    var w := wins[id];
    var u := Restore(s, id, w.cury, w.curx);
    RestoreWins(h, wins, id, cs, sp, cols, s);
    if Immediate(w) {
      ShownOrKeptCarry(h, w, w, cs, s.heap, s.wins[id], u.wins[id], s.cs);
      RowsShownCarry(s.heap, s.wins[id], u.wins[id], s.cs, w.cury + 1, w.maxy - 1);
    }
  }

  /** The end of wclrtobot: wclrtoeol on the cursor row, with its PDC_sync. */
  function CursorRow(s: Done, id: WinId, cols: int): (t: Done)
    requires Ready(s.heap, s.wins, id, s.cs, cols) && CursorIn(s.wins[id])
    ensures t.status == s.status && SameShape(s.heap, t.heap) && Ready(t.heap, t.wins, id, t.cs, cols)
    ensures Respanned(s.wins[id], t.wins[id])
  {
    var d := Clear.WClrToEol(s.heap, s.wins[id]);
    Then(s, id, d.heap, d.win, cols)
  }

  /** wclrtobot's closing PDC_sync. */
  function FinalSync(t: Done, id: WinId, cols: int): (r: Done)
    requires Ready(t.heap, t.wins, id, t.cs, cols)
    ensures r.status == t.status && r.heap == t.heap && Ready(r.heap, r.wins, id, r.cs, cols)
    ensures Respanned(t.wins[id], r.wins[id])
  {
    Then(t, id, t.heap, t.wins[id], cols)
  }

  /**
   * The spans wclrtoeol and PDC_sync leave: without a refresh the clear
   * flag stays, and without syncok too the cursor row's first edge
   * widens to the cursor column and its last edge becomes the right
   * edge, the other rows kept; a refresh drops the clear flag and,
   * without syncok, leaves nothing marked; under syncok every row is
   * changed across the full width.
   */
  ghost predicate EolSpans(w: Win, w': Win)
    requires Shaped(w) && Shaped(w') && w'.maxy == w.maxy && CursorIn(w)
  {
    (!Immediate(w) ==> w'.clear == w.clear) &&
    (!Immediate(w) && !w.sync ==>
      w'.firstch[w.cury] == WidenFirst(w.firstch[w.cury], w.curx) && w'.lastch[w.cury] == w.maxx - 1 &&
      forall i :: 0 <= i < w.maxy && i != w.cury ==> w'.firstch[i] == w.firstch[i] && w'.lastch[i] == w.lastch[i]) &&
    (Immediate(w) ==> !w'.clear) && (Immediate(w) && !w.sync ==> Clean(w')) && (w.sync ==> w' == TouchWin(w'))
  }

  /** PDC_sync of the window wclrtoeol leaves gives the spans EolSpans describes. */
  lemma SyncedEolSpans(h: Heap, wins: map<WinId, Win>, id: WinId, w: Win, v: Win, r: map<WinId, Win>)
    requires Linked(wins) && id in wins && Shaped(w) && CursorIn(w) && Shaped(v) && v.maxy == w.maxy
    requires v == w.(firstch := v.firstch, lastch := v.lastch)
    requires v.firstch[w.cury] == WidenFirst(w.firstch[w.cury], w.curx) && v.lastch[w.cury] == w.maxx - 1
    requires forall i :: 0 <= i < w.maxy && i != w.cury ==> v.firstch[i] == w.firstch[i] && v.lastch[i] == w.lastch[i]
    requires SyncedWins(h, wins, id, v, Immediate(v), r)
    ensures Shaped(r[id]) && r[id].maxy == w.maxy && EolSpans(w, r[id])
  {
  }

  /** wclrtoeol on the cursor row with its PDC_sync: the windows, the spans, and curscr kept without a refresh. */
  lemma CursorRowWins(s: Done, id: WinId, cols: int)
    requires Ready(s.heap, s.wins, id, s.cs, cols) && CursorIn(s.wins[id])
    ensures var t := CursorRow(s, id, cols); var w := s.wins[id];
      Around(s.wins, id, w.sync, t.wins) && EolSpans(w, t.wins[id]) &&
      (!Immediate(w) ==> t.cs == s.cs && t.sp == s.sp && t.paints == s.paints)
  {
    var w := s.wins[id];
    var d := Clear.WClrToEol(s.heap, w);
    ThenWins(s, id, d.heap, d.win, cols);
    SyncedEolSpans(d.heap, s.wins, id, w, d.win, CursorRow(s, id, cols).wins);
  }

  /** wclrtoeol on the cursor row with its PDC_sync: the cells. */
  lemma CursorRowCells(s: Done, id: WinId, cols: int)
    requires Ready(s.heap, s.wins, id, s.cs, cols) && CursorIn(s.wins[id])
    ensures var t := CursorRow(s, id, cols); ClearedToEol(s.heap, s.wins[id], t.heap, t.wins[id])
  {
    var w := s.wins[id];
    var d := Clear.WClrToEol(s.heap, w);
    ClrToEolDrawn(s.heap, w);
    ClearedToEolCarry(s.heap, w, d.heap, d.win, CursorRow(s, id, cols).wins[id]);
  }

  /** wclrtoeol marks every cell it changes, and the cursor row from the cursor on. */
  lemma EolMarked(h: Heap, w: Win)
    requires Wf(h, w) && CursorIn(w)
    ensures var d := Clear.WClrToEol(h, w);
      SamePlace(w, d.win) && ChangesMarked(h, w, d.heap, d.win) && RowDirty(d.win, w.cury, w.curx, w.maxx - 1)
  {
  }

  /** wclrtoeol on the cursor row with its PDC_sync, with immedok: the stretch on curscr, every other cell kept or shown. */
  lemma CursorRowScreen(s: Done, id: WinId, cols: int)
    requires Ready(s.heap, s.wins, id, s.cs, cols) && CursorIn(s.wins[id]) && Immediate(s.wins[id])
    ensures var t := CursorRow(s, id, cols); var w := s.wins[id];
      SamePlace(w, t.wins[id]) && ShownOrKept(s.heap, w, s.cs, t.heap, t.wins[id], t.cs) &&
      RowShown(t.heap, t.wins[id], t.cs, w.cury, w.curx, w.maxx - 1)
  {
    var w := s.wins[id];
    var d := Clear.WClrToEol(s.heap, w);
    EolMarked(s.heap, w);
    ThenShownOrKept(s, id, d.heap, d.win, cols);
    SyncRowShown(d.heap, s.wins, id, d.win, s.cs, s.sp, cols, w.cury, w.curx, w.maxx - 1);
  }

  /** The closing PDC_sync: the windows as SyncedWins says for the window as it was; curscr kept without a refresh. */
  lemma FinalSyncWins(t: Done, id: WinId, cols: int)
    requires Ready(t.heap, t.wins, id, t.cs, cols)
    ensures var r := FinalSync(t, id, cols); var w := t.wins[id];
      SyncedWins(t.heap, t.wins, id, w, Immediate(w), r.wins) &&
      (!Immediate(w) ==> r.cs == t.cs && r.sp == t.sp && r.paints == t.paints)
  {
    ThenWins(t, id, t.heap, t.wins[id], cols);
  }

  /** The closing PDC_sync with immedok keeps or shows every cell. */
  lemma FinalSyncScreen(t: Done, id: WinId, cols: int)
    requires Ready(t.heap, t.wins, id, t.cs, cols) && Immediate(t.wins[id])
    ensures var r := FinalSync(t, id, cols);
      SamePlace(t.wins[id], r.wins[id]) && ShownOrKept(t.heap, t.wins[id], t.cs, r.heap, r.wins[id], r.cs)
  {
    ThenShownOrKept(t, id, t.heap, t.wins[id], cols);
  }

  /** Without a refresh and without syncok, the spans once the loop is over: the rows below the cursor full, the others as they were. */
  lemma BelowPlain(wins: map<WinId, Win>, id: WinId, a: map<WinId, Win>)
    requires Linked(wins) && id in wins && Shaped(wins[id]) && CursorIn(wins[id]) && id in a && Shaped(a[id])
    requires a[id].maxy == wins[id].maxy && Respanned(wins[id], a[id])
    requires BelowSpans(wins, id, wins[id].maxy, a) && (wins[id].cury + 1 >= wins[id].maxy ==> a == wins)
    requires !Immediate(wins[id]) && !wins[id].sync
    ensures a[id].clear == wins[id].clear
    ensures forall i :: 0 <= i < wins[id].maxy ==>
      a[id].firstch[i] == (if i > wins[id].cury then 0 else wins[id].firstch[i]) &&
      a[id].lastch[i] == (if i > wins[id].cury then wins[id].maxx - 1 else wins[id].lastch[i])
  {
  }

  /** Without a refresh and without syncok, the window at the end is the one wclrtobot draws. */
  lemma PlainTail(w: Win, a: Win, b: Win, v: Win)
    requires Shaped(w) && CursorIn(w) && Shaped(a) && Shaped(b) && Shaped(v)
    requires a.maxy == w.maxy && b.maxy == w.maxy && v.maxy == w.maxy
    requires !Immediate(w) && !w.sync && Respanned(w, a) && Respanned(a, b) && a.clear == w.clear
    requires forall i :: 0 <= i < w.maxy ==>
      a.firstch[i] == (if i > w.cury then 0 else w.firstch[i]) &&
      a.lastch[i] == (if i > w.cury then w.maxx - 1 else w.lastch[i])
    requires CursorIn(a) && EolSpans(a, b)
    requires v == w.(firstch := v.firstch, lastch := v.lastch) && Clear.SpansToBottom(w, v)
    ensures b == v
  {
    assert b.firstch == v.firstch;
    assert b.lastch == v.lastch;
  }

  /** The windows around: those of the loop, then of the cursor row, then of the closing PDC_sync. */
  lemma ToBottomAround(wins: map<WinId, Win>, id: WinId, a: map<WinId, Win>, b: map<WinId, Win>, c: map<WinId, Win>)
    requires Linked(wins) && id in wins && id in a && Linked(a) && Respanned(wins[id], a[id])
    requires BelowChain(wins, id, wins[id].maxy, a) && (wins[id].cury + 1 >= wins[id].maxy ==> a == wins)
    requires Around(a, id, a[id].sync, b) && Respanned(a[id], b[id]) && Around(b, id, b[id].sync, c)
    ensures Around(wins, id, wins[id].sync, c)
  {
    var w := wins[id];
    if w.cury + 1 < w.maxy {
      AroundTrans(wins, a, b, id, w.sync);
    }
    AroundTrans(wins, b, c, id, w.sync);
  }

  /**
   * The windows at the end of wclrtobot, as PDC_sync of the window it
   * draws would leave them: `a` after the loop, `b` after the cursor
   * row, `c` after the closing PDC_sync, over `hr`.
   */
  lemma ToBottomWins(wins: map<WinId, Win>, id: WinId, a: map<WinId, Win>, b: map<WinId, Win>, c: map<WinId, Win>, hr: Heap, v: Win)
    requires Linked(wins) && id in wins && Shaped(wins[id]) && CursorIn(wins[id])
    requires id in a && Linked(a) && Shaped(a[id]) && a[id].maxy == wins[id].maxy && Respanned(wins[id], a[id])
    requires BelowAround(wins, id, wins[id].maxy, a) && (wins[id].cury + 1 >= wins[id].maxy ==> a == wins)
    requires Around(a, id, a[id].sync, b) && Shaped(b[id]) && b[id].maxy == wins[id].maxy && Respanned(a[id], b[id])
    requires CursorIn(a[id]) && EolSpans(a[id], b[id])
    requires SyncedWins(hr, b, id, b[id], Immediate(b[id]), c)
    requires Shaped(v) && v.maxy == wins[id].maxy && v == wins[id].(firstch := v.firstch, lastch := v.lastch)
    requires Clear.SpansToBottom(wins[id], v)
    ensures SyncedWins(hr, wins, id, v, Immediate(wins[id]), c)
  {
    var w := wins[id];
    ToBottomAround(wins, id, a, b, c);
    if !Immediate(w) && !w.sync {
      BelowPlain(wins, id, a);
      PlainTail(w, a[id], b[id], v);
    } else if !Immediate(w) {
      BelowClear(wins, id, a);
    }
  }

  /** Without a refresh, the clear flag once the loop is over is as it was. */
  lemma BelowClear(wins: map<WinId, Win>, id: WinId, a: map<WinId, Win>)
    requires id in wins && Shaped(wins[id]) && id in a && Shaped(a[id]) && a[id].maxy == wins[id].maxy
    requires BelowSpans(wins, id, wins[id].maxy, a) && (wins[id].cury + 1 >= wins[id].maxy ==> a == wins)
    requires !Immediate(wins[id])
    ensures a[id].clear == wins[id].clear
  {
  }

  /** The windows at the end of wclrtobot, from the state after the loop. */
  lemma TailWins(h: Heap, wins: map<WinId, Win>, id: WinId, cs: Curscr, sp: Phys, cols: int, s: Done)
    requires Ready(h, wins, id, cs, cols) && CursorIn(wins[id])
    requires Below(h, wins, id, cs, sp, cols, wins[id].maxy, s) && Respanned(wins[id], s.wins[id])
    ensures var r := FinalSync(CursorRow(s, id, cols), id, cols);
      r.status == OK && SameShape(h, r.heap) && Ready(r.heap, r.wins, id, r.cs, cols) &&
      SyncedWins(r.heap, wins, id, Clear.WClrToBot(h, wins[id]).win, Immediate(wins[id]), r.wins) &&
      (!Immediate(wins[id]) ==> r.cs == cs && r.sp == sp && r.paints == [])
  {
    var t := CursorRow(s, id, cols);
    var r := FinalSync(t, id, cols);
    CursorRowWins(s, id, cols);
    FinalSyncWins(t, id, cols);
    SameShapeTrans(h, s.heap, t.heap);
    ToBottomWins(wins, id, s.wins, t.wins, r.wins, r.heap, Clear.WClrToBot(h, wins[id]).win);
  }

  /** The rows below the cursor blanked, then the cursor row from the cursor on: cleared to the bottom. */
  lemma ToBottomCells(h: Heap, w: Win, hs: Heap, ws: Win, hr: Heap, wr: Win)
    requires Backed(h, w) && Backed(hs, ws) && Backed(hr, wr) && CursorIn(w)
    requires SamePlace(w, ws) && SamePlace(w, wr) && ws.cury == w.cury && ws.curx == w.curx && ws.bkgd == w.bkgd
    requires BlankedRows(h, w, w.cury + 1, w.maxy - 1, hs, ws) && ClearedToEol(hs, ws, hr, wr)
    ensures Clear.ClearedToBottom(h, w, hr, wr)
  {
  }

  /** The cells at the end of wclrtobot, from the state `s` after the loop on window `w` over `h`. */
  lemma TailCells(h: Heap, w: Win, s: Done, id: WinId, cols: int)
    requires Wf(h, w) && CursorIn(w) && Ready(s.heap, s.wins, id, s.cs, cols) && Respanned(w, s.wins[id])
    requires BlankedRows(h, w, w.cury + 1, w.maxy - 1, s.heap, s.wins[id])
    ensures var r := FinalSync(CursorRow(s, id, cols), id, cols);
      SamePlace(w, r.wins[id]) && Clear.ClearedToBottom(h, w, r.heap, r.wins[id])
  {
    var t := CursorRow(s, id, cols);
    var r := FinalSync(t, id, cols);
    CursorRowCells(s, id, cols);
    ClearedToEolCarry(s.heap, s.wins[id], t.heap, t.wins[id], r.wins[id]);
    ToBottomCells(h, w, s.heap, s.wins[id], r.heap, r.wins[id]);
  }

  /** TailCells, from the state after wclrtobot's loop. */
  lemma TailCellsBelow(h: Heap, wins: map<WinId, Win>, id: WinId, cs: Curscr, sp: Phys, cols: int, s: Done)
    requires Ready(h, wins, id, cs, cols) && CursorIn(wins[id])
    requires Below(h, wins, id, cs, sp, cols, wins[id].maxy, s) && Respanned(wins[id], s.wins[id])
    ensures var r := FinalSync(CursorRow(s, id, cols), id, cols);
      SamePlace(wins[id], r.wins[id]) && Clear.ClearedToBottom(h, wins[id], r.heap, r.wins[id])
  {
    TailCells(h, wins[id], s, id, cols);
  }

  /** Kept or shown after the loop, the cursor row and the closing PDC_sync; the rows below and the cursor row's stretch shown. */
  lemma ToBottomScreen(h: Heap, w: Win, cs: Curscr, hs: Heap, ws: Win, css: Curscr, ht: Heap, wt: Win, cst: Curscr,
                       hr: Heap, wr: Win, csr: Curscr)
    requires Backed(h, w) && Backed(hs, ws) && Backed(ht, wt) && Backed(hr, wr)
    requires SamePlace(w, ws) && SamePlace(ws, wt) && SamePlace(wt, wr)
    requires ShownOrKept(h, w, cs, hs, ws, css) && RowsShown(hs, ws, css, w.cury + 1, w.maxy - 1)
    requires ShownOrKept(hs, ws, css, ht, wt, cst) && RowShown(ht, wt, cst, w.cury, w.curx, w.maxx - 1)
    requires ShownOrKept(ht, wt, cst, hr, wr, csr)
    ensures ShownOrKept(h, w, cs, hr, wr, csr) && ShownFrom(hr, wr, csr, w.cury, w.curx)
  {
    ShownOrKeptTrans(h, w, cs, hs, ws, css, ht, wt, cst);
    ShownOrKeptTrans(h, w, cs, ht, wt, cst, hr, wr, csr);
    RowsShownKept(hs, ws, css, ht, wt, cst, w.cury + 1, w.maxy - 1);
    RowsShownKept(ht, wt, cst, hr, wr, csr, w.cury + 1, w.maxy - 1);
    RowShownKept(ht, wt, cst, hr, wr, csr, w.cury, w.curx, w.maxx - 1);
    ShownFromRows(hr, wr, csr, w.cury, w.curx);
  }

  /** With immedok, the screen at the end of wclrtobot, from the state after the loop. */
  lemma TailScreen(h: Heap, wins: map<WinId, Win>, id: WinId, cs: Curscr, sp: Phys, cols: int, s: Done)
    requires Ready(h, wins, id, cs, cols) && CursorIn(wins[id])
    requires Below(h, wins, id, cs, sp, cols, wins[id].maxy, s) && Respanned(wins[id], s.wins[id])
    ensures var r := FinalSync(CursorRow(s, id, cols), id, cols);
      Immediate(wins[id]) ==>
        SamePlace(wins[id], r.wins[id]) && ShownOrKept(h, wins[id], cs, r.heap, r.wins[id], r.cs) &&
        ShownFrom(r.heap, r.wins[id], r.cs, wins[id].cury, wins[id].curx)
  {
    if Immediate(wins[id]) {
      var t := CursorRow(s, id, cols);
      var r := FinalSync(t, id, cols);
      CursorRowScreen(s, id, cols);
      FinalSyncScreen(t, id, cols);
      ToBottomScreen(h, wins[id], cs, s.heap, s.wins[id], s.cs, t.heap, t.wins[id], t.cs, r.heap, r.wins[id], r.cs);
    }
  }

  /**
   * wclrtobot's loop from row `y` on: wclrtoeol with its PDC_sync from
   * column 0 of each row to the last, the cursor left on the last.
   */
  method ClrRows(h: Heap, wins: map<WinId, Win>, id: WinId, cs: Curscr, sp: Phys, cols: int, y: int, s: Done) returns (r: Done)
    requires Ready(h, wins, id, cs, cols) && CursorIn(wins[id]) && wins[id].cury + 1 <= y <= wins[id].maxy
    requires Below(h, wins, id, cs, sp, cols, y, s)
    ensures Below(h, wins, id, cs, sp, cols, wins[id].maxy, r)
    decreases wins[id].maxy - y, 1
  {
    if y == wins[id].maxy {
      r := s;
    } else {
      var t := ClrRowStep(h, wins, id, cs, sp, cols, y, s);
      r := ClrRowsAfter(h, wins, id, cs, sp, cols, y, t);
    }
  }

  /** The loop from row `y + 1` on, once its turn on row `y` has run. */
  method ClrRowsAfter(h: Heap, wins: map<WinId, Win>, id: WinId, cs: Curscr, sp: Phys, cols: int, y: int, t: Done) returns (r: Done)
    requires Ready(h, wins, id, cs, cols) && CursorIn(wins[id]) && wins[id].cury + 1 <= y < wins[id].maxy
    requires Below(h, wins, id, cs, sp, cols, y + 1, t)
    ensures Below(h, wins, id, cs, sp, cols, wins[id].maxy, r)
    decreases wins[id].maxy - y, 0
  {
    r := ClrRows(h, wins, id, cs, sp, cols, y + 1, t);
  }

  /** One turn of wclrtobot's loop, on row `y`. */
  method ClrRowStep(h: Heap, wins: map<WinId, Win>, id: WinId, cs: Curscr, sp: Phys, cols: int, y: int, s: Done) returns (t: Done)
    requires Ready(h, wins, id, cs, cols) && CursorIn(wins[id]) && wins[id].cury + 1 <= y < wins[id].maxy
    requires Below(h, wins, id, cs, sp, cols, y, s)
    ensures Below(h, wins, id, cs, sp, cols, y + 1, t)
  {
    BelowWinsStep(h, wins, id, cs, sp, cols, y, s);
    BelowCellsStep(h, wins, id, cs, sp, cols, y, s);
    BelowScreenStep(h, wins, id, cs, sp, cols, y, s);
    t := ClrRow(s, id, y, cols);
  }

  /**
   * wclrtobot up to its last wclrtoeol: when there are rows below the
   * cursor, the loop over them and the cursor put back; otherwise nothing.
   */
  method ClrBelow(h: Heap, wins: map<WinId, Win>, id: WinId, cs: Curscr, sp: Phys, cols: int) returns (s: Done)
    requires Ready(h, wins, id, cs, cols) && CursorIn(wins[id])
    ensures Below(h, wins, id, cs, sp, cols, wins[id].maxy, s) && Respanned(wins[id], s.wins[id])
  {
    var w := wins[id];
    s := Done(OK, h, wins, cs, sp, []);
    BelowStart(h, wins, id, cs, sp, cols);
    if w.cury + 1 < w.maxy {
      var l := ClrRows(h, wins, id, cs, sp, cols, w.cury + 1, s);
      RestoreWins(h, wins, id, cs, sp, cols, l);
      RestoreCells(h, wins, id, cs, sp, cols, l);
      RestoreScreen(h, wins, id, cs, sp, cols, l);
      s := Restore(l, id, w.cury, w.curx);
    }
  }

  /**
   * What wclrtobot leaves on window `id` of `wins` over `h`, its PDC_syncs
   * included, as `r`: OK, with the window cleared from the cursor to its
   * end and the windows as SyncedWins says for the spans of
   * Clear.WClrToBot.  With immedok on a window that is no pad, every cell
   * of the window is on curscr or kept, and the cleared part is on
   * curscr; otherwise curscr, the terminal and the calls are untouched.
   */
  ghost predicate ClearedBelow(h: Heap, wins: map<WinId, Win>, id: WinId, cs: Curscr, sp: Phys, cols: int, r: Done)
    requires Ready(h, wins, id, cs, cols) && CursorIn(wins[id])
  {
    var w := wins[id];
    r.status == OK && SameShape(h, r.heap) && Ready(r.heap, r.wins, id, r.cs, cols) &&
    SyncedWins(r.heap, wins, id, Clear.WClrToBot(h, w).win, Immediate(w), r.wins) &&
    SamePlace(w, r.wins[id]) && Clear.ClearedToBottom(h, w, r.heap, r.wins[id]) &&
    (!Immediate(w) ==> r.cs == cs && r.sp == sp && r.paints == []) &&
    (Immediate(w) ==> ShownOrKept(h, w, cs, r.heap, r.wins[id], r.cs) && ShownFrom(r.heap, r.wins[id], r.cs, w.cury, w.curx))
  }

  /** wclrtobot on a window, with the PDC_sync of every wclrtoeol it makes and its own. */
  method ClrToBot(h: Heap, wins: map<WinId, Win>, id: WinId, cs: Curscr, sp: Phys, cols: int) returns (r: Done)
    requires Ready(h, wins, id, cs, cols) && CursorIn(wins[id])
    ensures ClearedBelow(h, wins, id, cs, sp, cols, r)
  {
    var s := ClrBelow(h, wins, id, cs, sp, cols);
    r := ClrTail(h, wins, id, cs, sp, cols, s);
  }

  /** wclrtobot's last wclrtoeol and closing PDC_sync, from the state `s` after the loop. */
  method ClrTail(h: Heap, wins: map<WinId, Win>, id: WinId, cs: Curscr, sp: Phys, cols: int, s: Done) returns (r: Done)
    requires Ready(h, wins, id, cs, cols) && CursorIn(wins[id])
    requires Below(h, wins, id, cs, sp, cols, wins[id].maxy, s) && Respanned(wins[id], s.wins[id])
    ensures ClearedBelow(h, wins, id, cs, sp, cols, r)
  {
    TailWins(h, wins, id, cs, sp, cols, s);
    TailCellsBelow(h, wins, id, cs, sp, cols, s);
    TailScreen(h, wins, id, cs, sp, cols, s);
    r := FinalSync(CursorRow(s, id, cols), id, cols);
  }

  /** wclrtobot: ERR, with nothing changed, for a null window; otherwise ClrToBot. */
  method WClrToBotCall(h: Heap, wins: map<WinId, Win>, id: Option<WinId>, cs: Curscr, sp: Phys, cols: int) returns (r: Done)
    requires id.Some? ==> Ready(h, wins, id.value, cs, cols) && CursorIn(wins[id.value])
    ensures id.None? <==> r.status == ERR
    ensures id.None? ==> r == Done(ERR, h, wins, cs, sp, [])
    ensures id.Some? ==> ClearedBelow(h, wins, id.value, cs, sp, cols, r)
  {
    if id.None? {
      return Done(ERR, h, wins, cs, sp, []);
    }
    r := ClrToBot(h, wins, id.value, cs, sp, cols);
  }

  /** The chains of a window's ancestors do not look at the window `id` itself, but for its parent. */
  lemma {:induction false} ChainReplaced(wins: map<WinId, Win>, id: WinId, v: Win, u: WinId)
    requires Linked(wins) && id in wins && Shaped(v) && v.parent == wins[id].parent && u in wins
    ensures Linked(wins[id := v]) && Chain(wins[id := v], u) == Chain(wins, u)
    decreases u
  {
    LinkedUpdate(wins, id, v);
    if wins[u].parent.Some? {
      ChainReplaced(wins, id, v, wins[u].parent.value);
    }
  }

  /** SyncedWins does not look at the window `id` it starts from, but for its parent. */
  lemma SyncedReplaced(h: Heap, wins: map<WinId, Win>, id: WinId, ws: map<WinId, Win>, v: Win, immediate: bool, r: map<WinId, Win>)
    requires Linked(wins) && id in wins && id in ws && ws == wins[id := ws[id]]
    requires Shaped(ws[id]) && ws[id].parent == wins[id].parent
    requires Linked(ws) && SyncedWins(h, ws, id, v, immediate, r)
    ensures SyncedWins(h, wins, id, v, immediate, r)
  {
    ChainReplaced(wins, id, ws[id], id);
  }

  /** The window `id` of `wins` replaced by `m`, the same but for cursor and clear flag, can still be drawn into. */
  lemma ReplacedReady(h: Heap, wins: map<WinId, Win>, id: WinId, cs: Curscr, cols: int, m: Win)
    requires Ready(h, wins, id, cs, cols)
    requires m == wins[id].(cury := m.cury, curx := m.curx, clear := m.clear)
    ensures Ready(h, wins[id := m], id, cs, cols) && Immediate(m) == Immediate(wins[id])
  {
    LinkedUpdate(wins, id, m);
  }

  /**
   * What werase leaves on window `id` of `wins` over `h`, its PDC_syncs
   * included, as `r` when it succeeds: every cell holds the background;
   * the windows are as SyncedWins says for the spans of Clear.WErase;
   * with immedok on a window that is no pad every cell is on curscr, and
   * otherwise curscr, the terminal and the calls are untouched.
   */
  ghost predicate Erased(h: Heap, wins: map<WinId, Win>, id: WinId, cs: Curscr, sp: Phys, cols: int, r: Done)
    requires Ready(h, wins, id, cs, cols)
  {
    var w := wins[id];
    r.status == OK && SameShape(h, r.heap) && Ready(r.heap, r.wins, id, r.cs, cols) &&
    SyncedWins(r.heap, wins, id, Clear.WErase(h, w).win, Immediate(w), r.wins) &&
    SamePlace(w, r.wins[id]) &&
    (forall i, c :: 0 <= i < w.maxy && 0 <= c < w.maxx ==> Get(r.heap, r.wins[id], i, c) == w.bkgd) &&
    (!Immediate(w) ==> r.cs == cs && r.sp == sp && r.paints == []) &&
    (Immediate(w) ==> ShownFrom(r.heap, r.wins[id], r.cs, 0, 0))
  }

  /** wclrtobot from the origin of the window, moved there, is werase. */
  lemma ErasedByClear(h: Heap, wins: map<WinId, Win>, id: WinId, cs: Curscr, sp: Phys, cols: int, ws: map<WinId, Win>, r: Done)
    requires Ready(h, wins, id, cs, cols) && wins[id].maxy > 0 && wins[id].maxx > 0
    requires ws == wins[id := wins[id].(cury := 0, curx := 0)]
    requires Ready(h, ws, id, cs, cols) && CursorIn(ws[id]) && ClearedBelow(h, ws, id, cs, sp, cols, r)
    ensures Erased(h, wins, id, cs, sp, cols, r)
  {
    ErasedWins(h, wins, id, cs, sp, cols, ws, r);
    ErasedCells(h, wins, id, cs, sp, cols, ws, r);
  }

  /** The windows of ErasedByClear. */
  lemma ErasedWins(h: Heap, wins: map<WinId, Win>, id: WinId, cs: Curscr, sp: Phys, cols: int, ws: map<WinId, Win>, r: Done)
    requires Ready(h, wins, id, cs, cols) && wins[id].maxy > 0 && wins[id].maxx > 0
    requires ws == wins[id := wins[id].(cury := 0, curx := 0)]
    requires Ready(h, ws, id, cs, cols) && CursorIn(ws[id]) && ClearedBelow(h, ws, id, cs, sp, cols, r)
    ensures Immediate(ws[id]) == Immediate(wins[id])
    ensures SyncedWins(r.heap, wins, id, Clear.WErase(h, wins[id]).win, Immediate(wins[id]), r.wins)
  {
    var w := wins[id];
    EraseIsClrToBot(h, w);
    SyncedReplaced(r.heap, wins, id, ws, Clear.WErase(h, w).win, Immediate(w), r.wins);
  }

  /** The cells and the screen of ErasedByClear. */
  lemma ErasedCells(h: Heap, wins: map<WinId, Win>, id: WinId, cs: Curscr, sp: Phys, cols: int, ws: map<WinId, Win>, r: Done)
    requires Ready(h, wins, id, cs, cols) && wins[id].maxy > 0 && wins[id].maxx > 0
    requires ws == wins[id := wins[id].(cury := 0, curx := 0)]
    requires Ready(h, ws, id, cs, cols) && CursorIn(ws[id]) && ClearedBelow(h, ws, id, cs, sp, cols, r)
    ensures SamePlace(wins[id], r.wins[id])
    ensures forall i, c :: 0 <= i < wins[id].maxy && 0 <= c < wins[id].maxx ==> Get(r.heap, r.wins[id], i, c) == wins[id].bkgd
    ensures Immediate(wins[id]) ==> ShownFrom(r.heap, r.wins[id], r.cs, 0, 0)
  {
    ErasedFromOrigin(h, ws[id], r.heap, r.wins[id]);
  }

  /** werase on a window with cells is wclrtobot from its origin. */
  lemma EraseIsClrToBot(h: Heap, w: Win)
    requires Wf(h, w) && w.maxy > 0 && w.maxx > 0
    ensures Wf(h, w.(cury := 0, curx := 0)) && CursorIn(w.(cury := 0, curx := 0))
    ensures Clear.WErase(h, w) == Clear.WClrToBot(h, w.(cury := 0, curx := 0))
  {
  }

  /** wclrtobot from the origin leaves the background in every cell. */
  lemma ErasedFromOrigin(h: Heap, m: Win, h': Heap, w': Win)
    requires Backed(h, m) && Backed(h', w') && SamePlace(m, w') && m.cury == 0 && m.curx == 0
    requires Clear.ClearedToBottom(h, m, h', w')
    ensures forall i, c :: 0 <= i < m.maxy && 0 <= c < m.maxx ==> Get(h', w', i, c) == m.bkgd
  {
  }

  /** werase on a window with cells: wclrtobot from the origin, its PDC_syncs included. */
  method EraseAll(h: Heap, wins: map<WinId, Win>, id: WinId, cs: Curscr, sp: Phys, cols: int) returns (r: Done)
    requires Ready(h, wins, id, cs, cols) && wins[id].maxy > 0 && wins[id].maxx > 0
    ensures Erased(h, wins, id, cs, sp, cols, r)
  {
    var m := wins[id].(cury := 0, curx := 0);
    ReplacedReady(h, wins, id, cs, cols, m);
    var ws := wins[id := m];
    r := ClrToBot(h, ws, id, cs, sp, cols);
    ErasedByClear(h, wins, id, cs, sp, cols, ws, r);
  }

  /**
   * werase: ERR, with nothing changed, for a null window or one without
   * cells, where wmove to the origin fails; otherwise EraseAll.
   */
  method WEraseCall(h: Heap, wins: map<WinId, Win>, id: Option<WinId>, cs: Curscr, sp: Phys, cols: int) returns (r: Done)
    requires id.Some? ==> Ready(h, wins, id.value, cs, cols)
    ensures r.status == ERR <==> id.None? || wins[id.value].maxy == 0 || wins[id.value].maxx == 0
    ensures r.status == ERR ==> r == Done(ERR, h, wins, cs, sp, [])
    ensures r.status == OK ==> Erased(h, wins, id.value, cs, sp, cols, r)
  {
    if id.None? || WMove(wins[id.value], 0, 0).0 == ERR {
      return Done(ERR, h, wins, cs, sp, []);
    }
    r := EraseAll(h, wins, id.value, cs, sp, cols);
  }

  /**
   * wclear: ERR, with nothing changed, for a null window; otherwise the
   * clear flag set and werase on the window so flagged.  For a window
   * without cells the flag stays set and ERR is returned.
   */
  method WClearCall(h: Heap, wins: map<WinId, Win>, id: Option<WinId>, cs: Curscr, sp: Phys, cols: int) returns (r: Done)
    requires id.Some? ==> Ready(h, wins, id.value, cs, cols)
    ensures r.status == ERR <==> id.None? || wins[id.value].maxy == 0 || wins[id.value].maxx == 0
    ensures id.None? ==> r == Done(ERR, h, wins, cs, sp, [])
    ensures id.Some? && r.status == ERR ==>
      r == Done(ERR, h, wins[id.value := wins[id.value].(clear := true)], cs, sp, [])
    ensures r.status == OK ==> Cleared(h, wins, id.value, cs, sp, cols, r)
  {
    if id.None? {
      return Done(ERR, h, wins, cs, sp, []);
    }
    var k := id.value;
    var c := wins[k].(clear := true);
    ReplacedReady(h, wins, k, cs, cols, c);
    var wc := wins[k := c];
    r := WEraseCall(h, wc, Some(k), cs, sp, cols);
    if r.status == OK {
      ClearedByErase(h, wins, k, cs, sp, cols, wc, r);
    }
  }

  /**
   * What wclear leaves on window `id` of `wins` over `h` when it
   * succeeds: what werase leaves (every cell the background, the windows
   * as SyncedWins says for the spans and flag of Clear.WClear), with the
   * clear flag set until a refresh consumes it: kept without immedok,
   * spent by the refresh with it.
   */
  ghost predicate Cleared(h: Heap, wins: map<WinId, Win>, id: WinId, cs: Curscr, sp: Phys, cols: int, r: Done)
    requires Ready(h, wins, id, cs, cols)
  {
    var w := wins[id];
    r.status == OK && SameShape(h, r.heap) && Ready(r.heap, r.wins, id, r.cs, cols) &&
    SyncedWins(r.heap, wins, id, Clear.WClear(h, w).win, Immediate(w), r.wins) &&
    SamePlace(w, r.wins[id]) &&
    (forall i, c :: 0 <= i < w.maxy && 0 <= c < w.maxx ==> Get(r.heap, r.wins[id], i, c) == w.bkgd) &&
    (!Immediate(w) ==> r.wins[id].clear && r.cs == cs && r.sp == sp && r.paints == []) &&
    (Immediate(w) ==> !r.wins[id].clear && ShownFrom(r.heap, r.wins[id], r.cs, 0, 0))
  }

  /** werase on the window with its clear flag set is wclear. */
  lemma ClearedByErase(h: Heap, wins: map<WinId, Win>, id: WinId, cs: Curscr, sp: Phys, cols: int, wc: map<WinId, Win>, r: Done)
    requires Ready(h, wins, id, cs, cols) && wc == wins[id := wins[id].(clear := true)]
    requires Ready(h, wc, id, cs, cols) && Erased(h, wc, id, cs, sp, cols, r)
    ensures Cleared(h, wins, id, cs, sp, cols, r)
  {
    var w := wins[id];
    assert Clear.WClear(h, w).win == Clear.WErase(h, wc[id]).win;
    SyncedReplaced(r.heap, wins, id, wc, Clear.WClear(h, w).win, Immediate(w), r.wins);
  }
}
