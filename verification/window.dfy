/**
 * Window creation, hierarchy and geometry (window.c).  Windows live in a
 * Store keyed by id; a window pointer is a WinId, a null pointer None.
 * An owning window gets a fresh block of lines; a subwindow's rows are
 * references into its parent's rows, shifted by its offset.
 */
module Windows {
  import opened Base
  import opened Cells
  import opened Store
  import opened Clear

  /** The sizes window creation consults: LINES and COLS, and the screen's SP->lines and SP->cols. */
  datatype Dims = Dims(lines: int, cols: int, spLines: int, spCols: int)

  /**
   * The lines of a new window can be allocated: PDC_malloc succeeds and
   * neither extent is negative (a negative extent reaches PDC_malloc as a
   * huge unsigned size).
   */
  predicate Allocates(allocOk: bool, nlines: int, ncols: int)
  {
    allocOk && nlines >= 0 && ncols >= 0
  }

  /** Rows 0 .. n-1 of block `b`, each seen from column 0. */
  function OwnedRows(b: BlockId, n: nat): (rows: seq<RowRef>)
    ensures |rows| == n
    ensures forall i :: 0 <= i < n ==> rows[i] == RowRef(b, i, 0)
  {
    seq(n, i requires 0 <= i < n => RowRef(b, i, 0))
  }

  /** A block of `nlines` lines of `ncols` copies of `v`. */
  function Block(nlines: nat, ncols: nat, v: Cell): (blk: seq<Line>)
    ensures |blk| == nlines
    ensures forall i :: 0 <= i < nlines ==> blk[i] == Repeat(v, ncols)
  {
    Repeat(Repeat(v, ncols), nlines)
  }

  /**
   * PDC_makenew: a zero-filled window of the given geometry with a blank
   * background, a bottom margin on its last line, no parent (offsets -1),
   * the clear flag set exactly for a LINES x COLS window, and every row
   * marked changed.
   */
  function MakeNew(nlines: nat, ncols: nat, begy: int, begx: int, d: Dims, rows: seq<RowRef>): (w: Win)
    requires |rows| == nlines
    ensures Shaped(w) && w.rows == rows && w.maxy == nlines && w.maxx == ncols
    ensures w.begy == begy && w.begx == begx && w.cury == 0 && w.curx == 0
    ensures w.bkgd == BLANK && w.attrs == A_NORMAL && w.flags == 0 && w.owns.None?
    ensures w.clear <==> nlines == d.lines && ncols == d.cols
    ensures !w.leaveit && !w.scroll && !w.nodelay && !w.immed && !w.sync && !w.useKeypad && w.delayms == 0
    ensures w.tmarg == 0 && w.bmarg == nlines - 1
    ensures w.pary == -1 && w.parx == -1 && w.parent.None?
    ensures forall r :: 0 <= r < nlines ==> w.firstch[r] == 0 && w.lastch[r] == ncols - 1
  {
    var untouched := Repeat(NO_CHANGE, nlines);
    TouchWin(Win(0, 0, nlines, ncols, begy, begx, 0, A_NORMAL, BLANK,
                 nlines == d.lines && ncols == d.cols,
                 false, false, false, false, false, false,
                 rows, untouched, untouched,
                 0, nlines - 1, 0, -1, -1, None, None))
  }

  /** A block that is not yet in the heap changes nothing seen through windows backed by the heap. */
  lemma FreshBlockFrame(h: Heap, b: BlockId, blk: seq<Line>, v: Win)
    requires b !in h && Wf(h, v)
    ensures Wf(h[b := blk], v)
    ensures forall r, c :: 0 <= r < v.maxy && 0 <= c < v.maxx ==> Get(h[b := blk], v, r, c) == Get(h, v, r, c)
  {
    forall r | 0 <= r < |v.rows|
      ensures RowBacked(h[b := blk], v.rows[r], v.maxx) && v.rows[r].block != b
    {
      assert RowBacked(h, v.rows[r], v.maxx);
    }
  }

  /** A window owning a fresh block of its own size is well formed over it. */
  lemma OwnerWf(h: Heap, b: BlockId, blk: seq<Line>, w: Win)
    requires Shaped(w) && SpansIn(w) && b !in h && |blk| == w.maxy
    requires forall i :: 0 <= i < w.maxy ==> |blk[i]| == w.maxx
    requires w.rows == OwnedRows(b, w.maxy as nat)
    ensures Wf(h[b := blk], w)
    ensures forall r, c :: 0 <= r < w.maxy && 0 <= c < w.maxx ==> Get(h[b := blk], w, r, c) == blk[r][c]
  {
  }

  /** The extent newwin uses: the requested one, or the rest of the screen when it is 0. */
  function NewWinExtent(n: int, rest: int): int
  {
    if n == 0 then rest else n
  }

  /**
   * newwin: NULL when the window would extend past the physical screen or
   * cannot be allocated; otherwise a fresh id for a window as PDC_makenew
   * builds it, owning a fresh block, erased: every cell blank, the cursor
   * at the origin, every row marked changed.
   */
  function NewWin(st: Store, d: Dims, nlines: int, ncols: int, begy: int, begx: int, allocOk: bool): (r: (Option<WinId>, Store))
    ensures r.0.None? <==>
      begy + NewWinExtent(nlines, d.lines - begy) > d.spLines ||
      begx + NewWinExtent(ncols, d.cols - begx) > d.spCols ||
      !Allocates(allocOk, NewWinExtent(nlines, d.lines - begy), NewWinExtent(ncols, d.cols - begx))
    ensures r.0.None? ==> r.1 == st
    ensures r.0.Some? ==>
      r.0.value == st.nextWin && r.0.value in r.1.wins &&
      r.1.wins == st.wins[r.0.value := r.1.wins[r.0.value]] &&
      r.1.nextWin == st.nextWin + 1 && r.1.nextBlock == st.nextBlock + 1
    ensures r.0.Some? ==>
      var w := r.1.wins[r.0.value];
      Shaped(w) &&
      w.maxy == NewWinExtent(nlines, d.lines - begy) && w.maxx == NewWinExtent(ncols, d.cols - begx) &&
      w.begy == begy && w.begx == begx && w.cury == 0 && w.curx == 0 &&
      w.bkgd == BLANK && w.bmarg == w.maxy - 1 && (w.clear <==> w.maxy == d.lines && w.maxx == d.cols) &&
      w.parent.None? && w.flags == 0 && w.owns == Some(st.nextBlock) &&
      w.rows == OwnedRows(st.nextBlock, w.maxy as nat) &&
      forall y :: 0 <= y < w.maxy ==> w.firstch[y] == 0 && w.lastch[y] == w.maxx - 1
    ensures r.0.Some? ==>
      var w := r.1.wins[r.0.value];
      r.1.heap == st.heap[st.nextBlock := Block(w.maxy as nat, w.maxx as nat, BLANK)]
  {
    var nl := NewWinExtent(nlines, d.lines - begy);
    var nc := NewWinExtent(ncols, d.cols - begx);
    if begy + nl > d.spLines || begx + nc > d.spCols || !Allocates(allocOk, nl, nc) then (None, st)
    else
      var b := st.nextBlock;
      var w := MakeNew(nl, nc, begy, begx, d, OwnedRows(b, nl)).(owns := Some(b));
      (Some(st.nextWin), Store(st.wins[st.nextWin := w], st.heap[b := Block(nl, nc, BLANK)], st.nextWin + 1, b + 1))
  }

  /**
   * newwin's storage is what werase leaves in the freshly allocated
   * window, whatever the allocation held: every cell blank, and the
   * window itself (cursor at the origin, every row changed) as built.
   */
  lemma FreshWindowErased(h: Heap, b: BlockId, garbage: seq<Line>, w: Win, hg: Heap, hb: Heap)
    requires b !in h && Shaped(w) && w.rows == OwnedRows(b, w.maxy as nat)
    requires |garbage| == w.maxy && forall i :: 0 <= i < w.maxy ==> |garbage[i]| == w.maxx
    requires w.cury == 0 && w.curx == 0 && w.bkgd == BLANK && w.maxy > 0 && w.maxx > 0
    requires forall y :: 0 <= y < w.maxy ==> w.firstch[y] == 0 && w.lastch[y] == w.maxx - 1
    requires hg == h[b := garbage] && hb == h[b := Block(w.maxy as nat, w.maxx as nat, BLANK)]
    ensures Wf(hg, w) && Wf(hb, w)
    ensures WErase(hg, w).win == w
    ensures forall y, x :: 0 <= y < w.maxy && 0 <= x < w.maxx ==> Get(WErase(hg, w).heap, w, y, x) == Get(hb, w, y, x)
  {
    OwnerWf(h, b, garbage, w);
    OwnerWf(h, b, Block(w.maxy as nat, w.maxx as nat, BLANK), w);
    EraseOfTouched(hg, w);
  }

  /** Erasing a window already touched everywhere with the cursor at the origin changes only its cells. */
  lemma EraseOfTouched(h: Heap, w: Win)
    requires Wf(h, w) && w.cury == 0 && w.curx == 0 && w.maxy > 0 && w.maxx > 0
    requires forall y :: 0 <= y < w.maxy ==> w.firstch[y] == 0 && w.lastch[y] == w.maxx - 1
    ensures WErase(h, w).win == w
    ensures forall y, x :: 0 <= y < w.maxy && 0 <= x < w.maxx ==> Get(WErase(h, w).heap, w, y, x) == w.bkgd
  {
    TouchWinIdempotent(w);
    var d := WErase(h, w);
    assert d.status == OK;
    assert d.win == TouchWin(w).(cury := 0, curx := 0);
  }

  /** newwin keeps the store consistent and every existing window's cells as they were. */
  lemma NewWinKeepsStore(st: Store, d: Dims, nlines: int, ncols: int, begy: int, begx: int, allocOk: bool)
    requires StoreOk(st)
    ensures StoreOk(NewWin(st, d, nlines, ncols, begy, begx, allocOk).1)
    ensures forall id, y, x :: id in st.wins && 0 <= y < st.wins[id].maxy && 0 <= x < st.wins[id].maxx ==>
      Wf(NewWin(st, d, nlines, ncols, begy, begx, allocOk).1.heap, st.wins[id]) &&
      Get(NewWin(st, d, nlines, ncols, begy, begx, allocOk).1.heap, st.wins[id], y, x) == Get(st.heap, st.wins[id], y, x)
  {
    var r := NewWin(st, d, nlines, ncols, begy, begx, allocOk);
    if r.0.Some? {
      var w := r.1.wins[st.nextWin];
      var blk := Block(w.maxy as nat, w.maxx as nat, BLANK);
      assert SpansIn(w) && OwnershipAgrees(w);
      AddOwnerKeepsStore(st, w, blk);
      assert r.1 == Store(st.wins[st.nextWin := w], st.heap[st.nextBlock := blk], st.nextWin + 1, st.nextBlock + 1);
      assert r.1.heap == st.heap[st.nextBlock := blk];
      forall id | id in st.wins
        ensures Wf(r.1.heap, st.wins[id])
      {
        assert r.1.wins[id] == st.wins[id];
      }
    }
  }

  /** The window in the store a non-null pointer names. */
  predicate Valid(st: Store, id: Option<WinId>)
  {
    id.Some? ==> id.value in st.wins
  }

  /**
   * delwin: ERR for a null window; otherwise the window leaves the store,
   * and its lines are freed exactly when neither _SUBWIN nor _SUBPAD is
   * set (a subwindow's lines belong to its parent).
   */
  function DelWin(st: Store, id: Option<WinId>): (r: (Status, Store))
    requires Valid(st, id)
    ensures r.0 == ERR <==> id.None?
    ensures id.None? ==> r.1 == st
    ensures id.Some? ==> r.1.wins == st.wins - {id.value} && r.1.nextWin == st.nextWin && r.1.nextBlock == st.nextBlock
    ensures id.Some? && st.wins[id.value].flags & (SUBWIN | SUBPAD) != 0 ==> r.1.heap == st.heap
    ensures id.Some? && st.wins[id.value].flags & (SUBWIN | SUBPAD) == 0 && st.wins[id.value].owns.Some? ==>
      r.1.heap == st.heap - {st.wins[id.value].owns.value}
  {
    if id.None? then (ERR, st)
    else
      var w := st.wins[id.value];
      var h := if w.flags & (SUBWIN | SUBPAD) == 0 && w.owns.Some? then st.heap - {w.owns.value} else st.heap;
      (OK, Store(st.wins - {id.value}, h, st.nextWin, st.nextBlock))
  }

  /** No other window is a child of `id` or reads the lines `id` owns. */
  predicate NoDependents(st: Store, id: WinId)
    requires id in st.wins
  {
    forall v :: v in st.wins && v != id ==>
      st.wins[v].parent != Some(id) &&
      (st.wins[id].owns.Some? ==> forall r :: 0 <= r < |st.wins[v].rows| ==> st.wins[v].rows[r].block != st.wins[id].owns.value)
  }

  /** Deleting a window nothing depends on keeps the store consistent. */
  lemma DelWinKeepsStore(st: Store, id: WinId)
    requires StoreOk(st) && id in st.wins && NoDependents(st, id)
    ensures StoreOk(DelWin(st, Some(id)).1)
  {
    var r := DelWin(st, Some(id)).1;
    var w := st.wins[id];
    forall v | v in r.wins
      ensures Wf(r.heap, r.wins[v])
    {
      var u := st.wins[v];
      assert Wf(st.heap, u);
      forall i | 0 <= i < |u.rows|
        ensures RowBacked(r.heap, u.rows[i], u.maxx)
      {
        assert RowBacked(st.heap, u.rows[i], u.maxx);
      }
    }
  }

  /** A block no window reads: storage that can no longer be freed. */
  predicate Orphaned(st: Store, b: BlockId)
  {
    b in st.heap &&
    forall v :: v in st.wins ==> forall r :: 0 <= r < |st.wins[v].rows| ==> st.wins[v].rows[r].block != b
  }

  /**
   * mvwin: ERR with nothing changed for a null window or a position that
   * would put part of the window off the LINES x COLS screen; otherwise
   * only the window's origin changes, and the whole window is marked
   * changed.
   */
  function MvWin(st: Store, id: Option<WinId>, y: int, x: int, lines: int, cols: int): (r: (Status, Store))
    requires Valid(st, id) && (id.Some? ==> Shaped(st.wins[id.value]))
    ensures r.0 == OK <==> id.Some? && 0 <= y && y + st.wins[id.value].maxy <= lines &&
                                       0 <= x && x + st.wins[id.value].maxx <= cols
    ensures r.0 == ERR ==> r.1 == st
    ensures r.0 == OK ==>
      r.1.heap == st.heap && id.value in r.1.wins &&
      r.1.wins == st.wins[id.value := r.1.wins[id.value]] &&
      var w := st.wins[id.value];
      var w' := r.1.wins[id.value];
      w' == w.(begy := y, begx := x, firstch := w'.firstch, lastch := w'.lastch) && Shaped(w') &&
      forall i :: 0 <= i < w.maxy ==> w'.firstch[i] == 0 && w'.lastch[i] == w.maxx - 1
  {
    if id.None? then (ERR, st)
    else
      var w := st.wins[id.value];
      if y + w.maxy > lines || y < 0 || x + w.maxx > cols || x < 0 then (ERR, st)
      else (OK, st.(wins := st.wins[id.value := TouchWin(w).(begy := y, begx := x)]))
  }

  /** A row reference moved `k` columns right. */
  function Shift(ref: RowRef, k: nat): RowRef
  {
    ref.(off := ref.off + k)
  }

  /**
   * `v` is a view of `o` at offset (j, k): each row of `v` is the row of
   * `o` j further down, seen from k columns further right, and `v` lies
   * inside `o`.
   */
  predicate ViewOf(v: Win, o: Win, j: int, k: int)
    requires Shaped(v) && Shaped(o)
  {
    0 <= j && j + v.maxy <= o.maxy && 0 <= k && k + v.maxx <= o.maxx &&
    forall i :: 0 <= i < v.maxy ==> v.rows[i] == Shift(o.rows[j + i], k)
  }

  /** The rows of a view of `o` at (j, k), `n` rows high. */
  function ViewRows(o: Win, j: int, k: int, n: nat): (rows: seq<RowRef>)
    requires Shaped(o) && 0 <= j && j + n <= o.maxy && 0 <= k
    ensures |rows| == n
    ensures forall i :: 0 <= i < n ==> rows[i] == Shift(o.rows[j + i], k)
  {
    seq(n, i requires 0 <= i < n => Shift(o.rows[j + i], k))
  }

  /**
   * View aliasing: a view is backed by its original's storage, and its
   * cell (i, c) is the original's cell (i + j, c + k).
   */
  lemma ViewGet(h: Heap, v: Win, o: Win, j: int, k: int)
    requires Wf(h, o) && Shaped(v) && ViewOf(v, o, j, k)
    ensures Backed(h, v) && Distinct(v)
    ensures forall i, c :: 0 <= i < v.maxy && 0 <= c < v.maxx ==> Get(h, v, i, c) == Get(h, o, i + j, c + k)
  {
    forall i | 0 <= i < |v.rows|
      ensures RowBacked(h, v.rows[i], v.maxx)
    {
      assert RowBacked(h, o.rows[j + i], o.maxx);
    }
    forall i1, i2 | 0 <= i1 < |v.rows| && 0 <= i2 < |v.rows| && i1 != i2
      ensures !SameLine(v.rows[i1], v.rows[i2])
    {
      assert !SameLine(o.rows[j + i1], o.rows[j + i2]);
    }
  }

  /** A view of a view is a view of the original at the summed offset. */
  lemma ViewCompose(v2: Win, v1: Win, o: Win, j1: int, k1: int, j2: int, k2: int)
    requires Shaped(v2) && Shaped(v1) && Shaped(o)
    requires ViewOf(v1, o, j1, k1) && ViewOf(v2, v1, j2, k2)
    ensures ViewOf(v2, o, j1 + j2, k1 + k2)
  {
    forall i | 0 <= i < v2.maxy
      ensures v2.rows[i] == Shift(o.rows[j1 + j2 + i], k1 + k2)
    {
      assert v1.rows[j2 + i] == Shift(o.rows[j1 + (j2 + i)], k1);
    }
  }

  /**
   * A cell written through a view is seen through the original at the
   * shifted position, and no other cell of the original changes.
   */
  lemma ViewWriteShared(h: Heap, v: Win, o: Win, j: int, k: int, i: int, c: int, val: Cell)
    requires Wf(h, o) && Shaped(v) && SpansIn(v) && ViewOf(v, o, j, k) && 0 <= i < v.maxy && 0 <= c < v.maxx
    ensures Wf(h, v)
    ensures Backed(SetCell(h, v, i, c, val), o)
    ensures forall y, x :: 0 <= y < o.maxy && 0 <= x < o.maxx ==>
      Get(SetCell(h, v, i, c, val), o, y, x) == (if y == i + j && x == c + k then val else Get(h, o, y, x))
  {
    ViewGet(h, v, o, j, k);
    var h' := SetCell(h, v, i, c, val);
    BackedSameShape(h, h', o);
    assert RowBacked(h, v.rows[i], v.maxx);
    forall y, x | 0 <= y < o.maxy && 0 <= x < o.maxx
      ensures Get(h', o, y, x) == (if y == i + j && x == c + k then val else Get(h, o, y, x))
    {
      assert RowBacked(h, o.rows[y], o.maxx);
      WriteRunSeenThrough(h, v.rows[i], c, [val], o, y, x);
      assert h' == WriteRun(h, v.rows[i], c, [val]);
      if y != i + j {
        assert !SameLine(o.rows[y], o.rows[i + j]);
      }
    }
  }

  /**
   * The extent subwin uses: the requested one, or, when it is 0, one less
   * than what remains of the original past the offset (newwin's default
   * is the whole remaining extent).
   */
  function SubWinExtent(n: int, origExtent: int, offset: int): int
  {
    if n == 0 then origExtent - 1 - offset else n
  }

  /** The rectangle of a subwindow at screen position (begy, begx) lies inside `o`. */
  predicate FitsIn(o: Win, nlines: int, ncols: int, begy: int, begx: int)
  {
    begy >= o.begy && begx >= o.begx &&
    begy + nlines <= o.begy + o.maxy && begx + ncols <= o.begx + o.maxx
  }

  /**
   * The window subwin builds over `o`, before it gets an id: NULL unless
   * the requested rectangle lies inside `o` and the window can be
   * allocated; otherwise a view of `o` at the offset of (begy, begx) from
   * o's origin, inheriting o's attributes, background and modes, marked
   * _SUBWIN with `o` as parent.
   */
  function SubWinRecord(st: Store, orig: WinId, nlines: int, ncols: int, begy: int, begx: int, d: Dims, allocOk: bool): (r: Option<Win>)
    requires orig in st.wins && Shaped(st.wins[orig])
    ensures var o := st.wins[orig];
      r.Some? <==> (FitsIn(o, nlines, ncols, begy, begx) &&
        Allocates(allocOk, SubWinExtent(nlines, o.maxy, begy - o.begy), SubWinExtent(ncols, o.maxx, begx - o.begx)))
    ensures r.Some? ==>
      var o := st.wins[orig];
      var v := r.value;
      Shaped(v) && SpansIn(v) && ViewOf(v, o, begy - o.begy, begx - o.begx) &&
      v.maxy == SubWinExtent(nlines, o.maxy, begy - o.begy) && v.maxx == SubWinExtent(ncols, o.maxx, begx - o.begx) &&
      v.begy == begy && v.begx == begx && v.pary == begy - o.begy && v.parx == begx - o.begx &&
      v.parent == Some(orig) && v.flags == SUBWIN && v.owns.None? &&
      v.cury == 0 && v.curx == 0 &&
      v.attrs == o.attrs && v.bkgd == o.bkgd && v.leaveit == o.leaveit && v.scroll == o.scroll &&
      v.nodelay == o.nodelay && v.useKeypad == o.useKeypad && v.immed == o.immed && v.sync == o.sync &&
      (v.clear <==> v.maxy == d.lines && v.maxx == d.cols) &&
      forall i :: 0 <= i < v.maxy ==> v.firstch[i] == 0 && v.lastch[i] == v.maxx - 1
  {
    var o := st.wins[orig];
    var j := begy - o.begy;
    var k := begx - o.begx;
    if !FitsIn(o, nlines, ncols, begy, begx) then None
    else
      var nl := SubWinExtent(nlines, o.maxy, j);
      var nc := SubWinExtent(ncols, o.maxx, k);
      if !Allocates(allocOk, nl, nc) then None
      else
        var w := MakeNew(nl, nc, begy, begx, d, ViewRows(o, j, k, nl));
        Some(w.(attrs := o.attrs, bkgd := o.bkgd, leaveit := o.leaveit, scroll := o.scroll,
                nodelay := o.nodelay, useKeypad := o.useKeypad, immed := o.immed, sync := o.sync,
                pary := j, parx := k, parent := Some(orig), flags := SUBWIN))
  }

  /**
   * subwin: the window SubWinRecord builds, under a fresh id; the storage
   * is untouched, so the new window shows o's cells.  The routine reads
   * o's origin before its null check, so `orig` must name a window.
   */
  function SubWin(st: Store, orig: WinId, nlines: int, ncols: int, begy: int, begx: int, d: Dims, allocOk: bool): (r: (Option<WinId>, Store))
    requires orig in st.wins && Shaped(st.wins[orig])
    ensures r.0.None? <==> SubWinRecord(st, orig, nlines, ncols, begy, begx, d, allocOk).None?
    ensures r.0.None? ==> r.1 == st
    ensures r.0.Some? ==>
      r.0.value == st.nextWin && r.1.heap == st.heap && r.1.nextBlock == st.nextBlock && r.1.nextWin == st.nextWin + 1 &&
      r.1.wins == st.wins[st.nextWin := SubWinRecord(st, orig, nlines, ncols, begy, begx, d, allocOk).value]
  {
    var v := SubWinRecord(st, orig, nlines, ncols, begy, begx, d, allocOk);
    if v.None? then (None, st)
    else (Some(st.nextWin), st.(wins := st.wins[st.nextWin := v.value], nextWin := st.nextWin + 1))
  }

  /** subwin keeps the store consistent. */
  lemma SubWinKeepsStore(st: Store, orig: WinId, nlines: int, ncols: int, begy: int, begx: int, d: Dims, allocOk: bool)
    requires StoreOk(st) && orig in st.wins
    ensures StoreOk(SubWin(st, orig, nlines, ncols, begy, begx, d, allocOk).1)
  {
    var rec := SubWinRecord(st, orig, nlines, ncols, begy, begx, d, allocOk);
    if rec.Some? {
      var v := rec.value;
      SubWinRecordShows(st.heap, st.wins[orig], v, begy - st.wins[orig].begy, begx - st.wins[orig].begx);
      AddWindowKeepsStore(st, v);
    }
  }

  /** The cell (i, c) of the window subwin creates (the record SubWin stores) is the original's cell at the offset. */
  lemma SubWinShows(st: Store, orig: WinId, nlines: int, ncols: int, begy: int, begx: int, d: Dims, allocOk: bool)
    requires StoreOk(st) && orig in st.wins
    ensures var rec := SubWinRecord(st, orig, nlines, ncols, begy, begx, d, allocOk);
      var o := st.wins[orig];
      rec.Some? ==> forall i, c :: 0 <= i < rec.value.maxy && 0 <= c < rec.value.maxx ==>
        Get(st.heap, rec.value, i, c) == Get(st.heap, o, i + begy - o.begy, c + begx - o.begx)
  {
    var rec := SubWinRecord(st, orig, nlines, ncols, begy, begx, d, allocOk);
    if rec.Some? {
      SubWinRecordShows(st.heap, st.wins[orig], rec.value, begy - st.wins[orig].begy, begx - st.wins[orig].begx);
    }
  }

  /** A subwindow record is well formed over its original's storage and shows its cells at the offset. */
  lemma SubWinRecordShows(h: Heap, o: Win, v: Win, j: int, k: int)
    requires Wf(h, o) && Shaped(v) && SpansIn(v) && ViewOf(v, o, j, k) && v.flags == SUBWIN && v.owns.None?
    ensures Wf(h, v) && OwnershipAgrees(v) && v.flags & (PAD | SUBPAD) == 0
    ensures forall i, c :: 0 <= i < v.maxy && 0 <= c < v.maxx ==> Get(h, v, i, c) == Get(h, o, i + j, c + k)
  {
    ViewGet(h, v, o, j, k);
  }

  /** Adding a well-formed window under the next id, over the same storage, keeps the store consistent. */
  lemma AddWindowKeepsStore(st: Store, v: Win)
    requires StoreOk(st) && Wf(st.heap, v) && OwnershipAgrees(v) && v.flags & (PAD | SUBPAD) == 0
    requires v.flags & SUBWIN != 0 ==> v.parent.Some?
    requires v.parent.Some? ==> v.parent.value in st.wins
    ensures StoreOk(st.(wins := st.wins[st.nextWin := v], nextWin := st.nextWin + 1))
  {
  }

  /** derwin: subwin with the position taken relative to o's origin. */
  function DerWin(st: Store, orig: WinId, nlines: int, ncols: int, begy: int, begx: int, d: Dims, allocOk: bool): (r: (Option<WinId>, Store))
    requires orig in st.wins && Shaped(st.wins[orig])
    ensures r == SubWin(st, orig, nlines, ncols, begy + st.wins[orig].begy, begx + st.wins[orig].begx, d, allocOk)
    ensures var o := st.wins[orig];
      r.0.Some? ==> var v := r.1.wins[r.0.value];
        v.pary == begy && v.parx == begx && v.begy == o.begy + begy && v.begx == o.begx + begx
  {
    SubWin(st, orig, nlines, ncols, begy + st.wins[orig].begy, begx + st.wins[orig].begx, d, allocOk)
  }

  /**
   * mvderwin: ERR with nothing changed for a null window, a window
   * without a parent, or an offset that does not keep the window inside
   * its parent; otherwise the window becomes a view of its parent at the
   * new offset, and nothing else about it changes, not even its screen
   * origin or its change spans.
   */
  function MvDerWin(st: Store, id: Option<WinId>, pary: int, parx: int): (r: (Status, Store))
    requires StoreOk(st) && Valid(st, id)
    ensures r.0 == OK <==> (id.Some? && st.wins[id.value].parent.Some? &&
      var w := st.wins[id.value];
      var p := st.wins[w.parent.value];
      0 <= pary && 0 <= parx && pary + w.maxy <= p.maxy && parx + w.maxx <= p.maxx)
    ensures r.0 == ERR ==> r.1 == st
    ensures r.0 == OK ==>
      var w := st.wins[id.value];
      id.value in r.1.wins &&
      var w' := r.1.wins[id.value];
      r.1 == st.(wins := st.wins[id.value := w']) &&
      w' == w.(rows := w'.rows, pary := pary, parx := parx) && Shaped(w') &&
      ViewOf(w', st.wins[w.parent.value], pary, parx)
  {
    if id.None? || st.wins[id.value].parent.None? then (ERR, st)
    else
      var w := st.wins[id.value];
      var p := st.wins[w.parent.value];
      if pary < 0 || parx < 0 || pary + w.maxy > p.maxy || parx + w.maxx > p.maxx then (ERR, st)
      else
        var w' := w.(rows := ViewRows(p, pary, parx, w.maxy as nat), pary := pary, parx := parx);
        (OK, st.(wins := st.wins[id.value := w']))
  }

  /** The cells of `w`, row by row, as a block of its own. */
  function CopyBlock(h: Heap, w: Win): (blk: seq<Line>)
    requires Backed(h, w)
    ensures |blk| == w.maxy
    ensures forall i :: 0 <= i < w.maxy ==> |blk[i]| == w.maxx
    ensures forall i, c :: 0 <= i < w.maxy && 0 <= c < w.maxx ==> blk[i][c] == Get(h, w, i, c)
  {
    seq(w.maxy, i requires 0 <= i < w.maxy => RowCells(h, w, i))
  }

  /**
   * The window dupwin builds from `w` over block `b`, with the given
   * flags: w's cursor, geometry, attributes, background and modes, except
   * that immedok, syncok and the input delay are not copied (they keep
   * PDC_makenew's zeros), and every row marked changed.
   */
  function Duplicate(w: Win, b: BlockId, flags: bv32): (n: Win)
    requires Shaped(w)
    ensures Shaped(n) && n.rows == OwnedRows(b, w.maxy as nat) && n.owns == Some(b) && n.flags == flags
    ensures n == w.(rows := n.rows, firstch := n.firstch, lastch := n.lastch, flags := flags,
                    immed := false, sync := false, delayms := 0, owns := Some(b))
    ensures forall i :: 0 <= i < w.maxy ==> n.firstch[i] == 0 && n.lastch[i] == w.maxx - 1
  {
    var m := MakeNew(w.maxy as nat, w.maxx as nat, w.begy, w.begx, Dims(0, 0, 0, 0), OwnedRows(b, w.maxy as nat));
    m.(curx := w.curx, cury := w.cury, flags := flags, attrs := w.attrs, clear := w.clear,
       leaveit := w.leaveit, scroll := w.scroll, nodelay := w.nodelay, useKeypad := w.useKeypad,
       tmarg := w.tmarg, bmarg := w.bmarg, parx := w.parx, pary := w.pary, parent := w.parent,
       bkgd := w.bkgd, owns := Some(b))
  }

  /** The store after dupwin of `w` when allocation succeeds, the duplicate carrying `flags`. */
  function DupStore(st: Store, w: Win, flags: bv32): (r: Store)
    requires Backed(st.heap, w)
    ensures st.nextWin in r.wins && r.wins[st.nextWin] == Duplicate(w, st.nextBlock, flags)
    ensures r.wins == st.wins[st.nextWin := Duplicate(w, st.nextBlock, flags)]
    ensures r.heap == st.heap[st.nextBlock := CopyBlock(st.heap, w)]
    ensures r.nextWin == st.nextWin + 1 && r.nextBlock == st.nextBlock + 1
  {
    Store(st.wins[st.nextWin := Duplicate(w, st.nextBlock, flags)], st.heap[st.nextBlock := CopyBlock(st.heap, w)],
          st.nextWin + 1, st.nextBlock + 1)
  }

  /**
   * dupwin as written: NULL for a null window or a failed allocation;
   * otherwise a fresh window owning a copy of w's cells, with w's flags
   * copied verbatim, _SUBWIN included.
   */
  function DupWinAsWritten(st: Store, id: Option<WinId>, allocOk: bool): (r: (Option<WinId>, Store))
    requires Valid(st, id) && (id.Some? ==> Backed(st.heap, st.wins[id.value]))
    ensures r.0.None? <==> id.None? || !allocOk
    ensures r.0.Some? ==> r.0.value == st.nextWin && r.0.value in r.1.wins
    ensures r.0.Some? ==> r.1.wins[r.0.value].flags == st.wins[id.value].flags
    ensures r.0.Some? ==> r.1.wins[r.0.value].owns == Some(st.nextBlock)
  {
    if id.None? || !allocOk then (None, st)
    else (Some(st.nextWin), DupStore(st, st.wins[id.value], st.wins[id.value].flags))
  }

  /**
   * dupwin, with the duplicate's _SUBWIN flag cleared since it owns its
   * lines: NULL for a null window or a failed allocation; otherwise a
   * fresh window whose cells equal w's, with w's cursor, geometry,
   * attributes, background and modes (not immedok, syncok or the input
   * delay), every row marked changed.
   */
  function DupWin(st: Store, id: Option<WinId>, allocOk: bool): (r: (Option<WinId>, Store))
    requires Valid(st, id) && (id.Some? ==> Backed(st.heap, st.wins[id.value]))
    ensures r.0.None? <==> id.None? || !allocOk
    ensures r.0.None? ==> r.1 == st
    ensures r.0.Some? ==> r.0.value == st.nextWin && r.0.value in r.1.wins
    ensures r.0.Some? ==>
      var w := st.wins[id.value];
      var n := r.1.wins[r.0.value];
      r.1.wins == st.wins[st.nextWin := n] &&
      Shaped(n) && n.maxy == w.maxy && n.maxx == w.maxx && n.begy == w.begy && n.begx == w.begx &&
      n.cury == w.cury && n.curx == w.curx && n.attrs == w.attrs && n.bkgd == w.bkgd &&
      n.flags == w.flags & !SUBWIN && n.owns == Some(st.nextBlock) && n.parent == w.parent &&
      !n.immed && !n.sync &&
      (forall i :: 0 <= i < w.maxy ==> n.firstch[i] == 0 && n.lastch[i] == w.maxx - 1) &&
      Backed(r.1.heap, n) &&
      forall i, c :: 0 <= i < w.maxy && 0 <= c < w.maxx ==> Get(r.1.heap, n, i, c) == Get(st.heap, w, i, c)
  {
    if id.None? || !allocOk then (None, st)
    else
      var w := st.wins[id.value];
      DupStoreCopies(st, w, w.flags & !SUBWIN);
      (Some(st.nextWin), DupStore(st, w, w.flags & !SUBWIN))
  }

  /** The duplicate's fields and cells are the original's, apart from what dupwin does not copy. */
  lemma DupStoreCopies(st: Store, w: Win, flags: bv32)
    requires Backed(st.heap, w)
    ensures var r := DupStore(st, w, flags);
      var n := r.wins[st.nextWin];
      Shaped(n) && n.maxy == w.maxy && n.maxx == w.maxx && n.begy == w.begy && n.begx == w.begx &&
      n.cury == w.cury && n.curx == w.curx && n.attrs == w.attrs && n.bkgd == w.bkgd &&
      n.flags == flags && n.owns == Some(st.nextBlock) && n.parent == w.parent &&
      !n.immed && !n.sync &&
      (forall i :: 0 <= i < w.maxy ==> n.firstch[i] == 0 && n.lastch[i] == w.maxx - 1) &&
      Backed(r.heap, n) &&
      forall i, c :: 0 <= i < w.maxy && 0 <= c < w.maxx ==> Get(r.heap, n, i, c) == Get(st.heap, w, i, c)
  {
    var r := DupStore(st, w, flags);
    var n := r.wins[st.nextWin];
    assert forall i :: 0 <= i < |n.rows| ==> RowBacked(r.heap, n.rows[i], n.maxx);
  }

  /** dupwin keeps the store consistent. */
  lemma DupWinKeepsStore(st: Store, id: Option<WinId>, allocOk: bool)
    requires StoreOk(st) && Valid(st, id)
    ensures StoreOk(DupWin(st, id, allocOk).1)
  {
    if id.Some? && allocOk {
      DupStoreKeepsStore(st, st.wins[id.value]);
    }
  }

  /** The store after a successful dupwin is consistent, and every other window keeps its cells. */
  lemma DupStoreKeepsStore(st: Store, w: Win)
    requires StoreOk(st) && Backed(st.heap, w) && w.flags & (PAD | SUBPAD) == 0
    requires w.parent.Some? ==> w.parent.value in st.wins
    ensures StoreOk(DupStore(st, w, w.flags & !SUBWIN))
  {
    var n := Duplicate(w, st.nextBlock, w.flags & !SUBWIN);
    assert OwnershipAgrees(n);
    AddOwnerKeepsStore(st, n, CopyBlock(st.heap, w));
  }

  /**
   * Adding, under the next id, a window that owns a fresh block of its
   * own size keeps the store consistent and every existing window's
   * cells as they were.
   */
  lemma AddOwnerKeepsStore(st: Store, n: Win, blk: seq<Line>)
    requires StoreOk(st) && Shaped(n) && SpansIn(n) && OwnershipAgrees(n) && n.flags & (PAD | SUBPAD) == 0
    requires n.rows == OwnedRows(st.nextBlock, n.maxy as nat) && n.owns == Some(st.nextBlock)
    requires |blk| == n.maxy && forall i :: 0 <= i < n.maxy ==> |blk[i]| == n.maxx
    requires n.parent.Some? ==> n.parent.value in st.wins
    ensures StoreOk(Store(st.wins[st.nextWin := n], st.heap[st.nextBlock := blk], st.nextWin + 1, st.nextBlock + 1))
    ensures forall u, y, x :: u in st.wins && 0 <= y < st.wins[u].maxy && 0 <= x < st.wins[u].maxx ==>
      Wf(st.heap[st.nextBlock := blk], st.wins[u]) &&
      Get(st.heap[st.nextBlock := blk], st.wins[u], y, x) == Get(st.heap, st.wins[u], y, x)
  {
    var st1 := st.(heap := st.heap[st.nextBlock := blk], nextBlock := st.nextBlock + 1);
    FreshBlockKeepsStore(st, blk);
    OwnerWf(st.heap, st.nextBlock, blk, n);
    AddWindowKeepsStore(st1, n);
  }

  /** A fresh block in the heap keeps the store consistent and every window's cells as they were. */
  lemma FreshBlockKeepsStore(st: Store, blk: seq<Line>)
    requires StoreOk(st)
    ensures StoreOk(st.(heap := st.heap[st.nextBlock := blk], nextBlock := st.nextBlock + 1))
    ensures forall u, y, x :: u in st.wins && 0 <= y < st.wins[u].maxy && 0 <= x < st.wins[u].maxx ==>
      Wf(st.heap[st.nextBlock := blk], st.wins[u]) &&
      Get(st.heap[st.nextBlock := blk], st.wins[u], y, x) == Get(st.heap, st.wins[u], y, x)
  {
    assert st.nextBlock !in st.heap;
    forall u | u in st.wins
      ensures Wf(st.heap[st.nextBlock := blk], st.wins[u])
      ensures forall y, x :: 0 <= y < st.wins[u].maxy && 0 <= x < st.wins[u].maxx ==>
        Get(st.heap[st.nextBlock := blk], st.wins[u], y, x) == Get(st.heap, st.wins[u], y, x)
    {
      FreshBlockFrame(st.heap, st.nextBlock, blk, st.wins[u]);
    }
  }

  /**
   * dupwin as written, applied to a subwindow: the duplicate owns a
   * fresh block yet carries _SUBWIN, so the store no longer agrees with
   * the flags about who frees it, and deleting the duplicate leaves its
   * block allocated with no window reading it.
   */
  lemma DupWinAsWrittenLeaks(st: Store, id: WinId)
    requires StoreOk(st) && id in st.wins && st.wins[id].flags & SUBWIN != 0
    ensures var r := DupWinAsWritten(st, Some(id), true);
      r.0 == Some(st.nextWin) && !StoreOk(r.1) &&
      Orphaned(DelWin(r.1, r.0).1, st.nextBlock)
  {
    var r := DupWinAsWritten(st, Some(id), true);
    var n := r.1.wins[st.nextWin];
    assert !OwnershipAgrees(n);
    var g := DelWin(r.1, r.0).1;
    assert g.heap == r.1.heap;
    forall v | v in g.wins
      ensures forall i :: 0 <= i < |g.wins[v].rows| ==> g.wins[v].rows[i].block != st.nextBlock
    {
      assert g.wins[v] == st.wins[v];
      forall i | 0 <= i < |g.wins[v].rows|
        ensures g.wins[v].rows[i].block != st.nextBlock
      {
        assert RowBacked(st.heap, st.wins[v].rows[i], st.wins[v].maxx);
      }
    }
  }

  /**
   * With _SUBWIN cleared, deleting a duplicate frees its block again:
   * dupwin followed by delwin leaves the windows and the storage as they
   * were, only the allocation counters having moved on.
   */
  lemma DupThenDelRestores(st: Store, id: WinId)
    requires StoreOk(st) && id in st.wins
    ensures var r := DupWin(st, Some(id), true);
      r.0 == Some(st.nextWin) &&
      DelWin(r.1, r.0).1 == st.(nextWin := st.nextWin + 1, nextBlock := st.nextBlock + 1)
  {
    DupStoreThenDel(st, st.wins[id]);
  }

  /** Deleting the duplicate (without _SUBWIN) frees exactly the block dupwin allocated. */
  lemma DupStoreThenDel(st: Store, w: Win)
    requires StoreOk(st) && Backed(st.heap, w) && w.flags & (PAD | SUBPAD) == 0
    ensures var r := DupStore(st, w, w.flags & !SUBWIN);
      st.nextWin in r.wins &&
      DelWin(r, Some(st.nextWin)).1 == st.(nextWin := st.nextWin + 1, nextBlock := st.nextBlock + 1)
  {
    var f := w.flags & !SUBWIN;
    assert f & (SUBWIN | SUBPAD) == 0;
    var n := Duplicate(w, st.nextBlock, f);
    var r := DupStore(st, w, f);
    assert st.nextBlock !in st.heap && st.nextWin !in st.wins;
    MapAddRemove(st.wins, st.nextWin, n);
    MapAddRemove(st.heap, st.nextBlock, CopyBlock(st.heap, w));
    var d := DelWin(r, Some(st.nextWin)).1;
    assert d.wins == st.wins && d.heap == st.heap;
  }

  /** The screen row the soft-label window moves to on a resize: the first soft-label line. */
  datatype SlkPlace = SlkPlace(slkWin: Option<WinId>, slkLines: int)

  /**
   * The cursor coordinate resize_window keeps, as written: the old
   * coordinate or the new extent, whichever is smaller.
   */
  function ResizeCursorAsWritten(cur: int, extent: int): int
  {
    Min(cur, extent)
  }

  /** The cursor coordinate kept on a resize: the old one, or the last row or column when that is gone. */
  function ResizeCursor(cur: int, extent: int): (r: int)
    ensures 0 <= cur < extent ==> r == cur
    ensures 0 <= cur && 0 < extent ==> 0 <= r < extent
  {
    Max(0, Min(cur, extent - 1))
  }

  /**
   * The as-written clamp can leave the cursor one past the last row or
   * column: a cursor at row 5 of a window resized to 3 rows lands on row
   * 3, outside the window.
   */
  lemma ResizeCursorAsWrittenEscapes()
    ensures ResizeCursorAsWritten(5, 3) == 3 && !(0 <= ResizeCursorAsWritten(5, 3) < 3)
    ensures ResizeCursor(5, 3) == 2
  {
  }

  /** The top margin after a resize: kept when it still names a row, else 0. */
  function ResizeTmarg(tmarg: int, newMaxy: int): int
  {
    if tmarg > newMaxy - 1 then 0 else tmarg
  }

  /** The bottom margin after a resize: it follows the last row when it was there, and is capped by it otherwise. */
  function ResizeBmarg(bmarg: int, oldMaxy: int, newMaxy: int): int
  {
    if bmarg == oldMaxy - 1 then newMaxy - 1 else Min(bmarg, newMaxy - 1)
  }

  /**
   * The window resize_window leaves: the new record's geometry, rows,
   * offsets and spans, with the old window's flags, attributes, modes,
   * margins (adjusted), parent and background, and the old cursor
   * clamped into the new extent.
   */
  function Resized(w: Win, n: Win): (r: Win)
    requires Shaped(n)
    ensures Shaped(r) && r.rows == n.rows && r.maxy == n.maxy && r.maxx == n.maxx
    ensures r.begy == n.begy && r.begx == n.begx && r.pary == n.pary && r.parx == n.parx
    ensures r.firstch == n.firstch && r.lastch == n.lastch && r.owns == n.owns && r.delayms == n.delayms
    ensures r.flags == w.flags && r.attrs == w.attrs && r.bkgd == w.bkgd && r.clear == w.clear
    ensures r.leaveit == w.leaveit && r.scroll == w.scroll && r.nodelay == w.nodelay && r.useKeypad == w.useKeypad
    ensures r.immed == w.immed && r.sync == w.sync && r.parent == w.parent
    ensures r.tmarg == ResizeTmarg(w.tmarg, n.maxy) && r.bmarg == ResizeBmarg(w.bmarg, w.maxy, n.maxy)
    ensures r.cury == ResizeCursor(w.cury, n.maxy) && r.curx == ResizeCursor(w.curx, n.maxx)
  {
    n.(flags := w.flags, attrs := w.attrs, clear := w.clear, leaveit := w.leaveit, scroll := w.scroll,
       nodelay := w.nodelay, useKeypad := w.useKeypad,
       tmarg := ResizeTmarg(w.tmarg, n.maxy), bmarg := ResizeBmarg(w.bmarg, w.maxy, n.maxy),
       parent := w.parent, immed := w.immed, sync := w.sync, bkgd := w.bkgd,
       curx := ResizeCursor(w.curx, n.maxx), cury := ResizeCursor(w.cury, n.maxy))
  }

  /** Row `i` of a resized owner: w's cells where both windows have them, blanks elsewhere. */
  function ResizedLine(h: Heap, w: Win, i: nat, ncols: nat): (line: Line)
    requires Backed(h, w)
    ensures |line| == ncols
    ensures forall c :: 0 <= c < ncols ==> line[c] == (if i < w.maxy && c < w.maxx then Get(h, w, i, c) else BLANK)
  {
    seq(ncols, c requires 0 <= c < ncols => if i < w.maxy && c < w.maxx then Get(h, w, i, c) else BLANK)
  }

  /** The block of a resized owner: werase's blanks, with the overlap copied from w. */
  function ResizedBlock(h: Heap, w: Win, nlines: nat, ncols: nat): (blk: seq<Line>)
    requires Backed(h, w)
    ensures |blk| == nlines
    ensures forall i :: 0 <= i < nlines ==> blk[i] == ResizedLine(h, w, i, ncols)
  {
    seq(nlines, i requires 0 <= i < nlines => ResizedLine(h, w, i, ncols))
  }

  /** The window a subwindow is resized into: a new view of its parent at its screen origin. */
  function ResizeSubRecord(st: Store, w: Win, nlines: int, ncols: int, d: Dims, allocOk: bool): Option<Win>
    requires w.parent.Some? && w.parent.value in st.wins && Shaped(st.wins[w.parent.value])
  {
    SubWinRecord(st, w.parent.value, nlines, ncols, w.begy, w.begx, d, allocOk)
  }

  /**
   * resize_window (and wresize, which reports the same outcome as OK or
   * ERR): NULL with nothing changed for a null window or when the new
   * window cannot be built; otherwise the same window id holds the
   * resized window.  A subwindow becomes a new view of its parent at its
   * screen origin; any other window gets a fresh block holding its old
   * cells where old and new extents overlap and blanks elsewhere, its old
   * block is freed, and the soft-label window moves to the first
   * soft-label line.
   */
  function ResizeWindow(st: Store, id: Option<WinId>, nlines: int, ncols: int, d: Dims, slk: SlkPlace, allocOk: bool): (r: (Option<WinId>, Store))
    requires StoreOk(st) && Valid(st, id)
    ensures r.0.None? <==> (id.None? ||
      (st.wins[id.value].flags & SUBWIN != 0 && ResizeSubRecord(st, st.wins[id.value], nlines, ncols, d, allocOk).None?) ||
      (st.wins[id.value].flags & SUBWIN == 0 && !Allocates(allocOk, nlines, ncols)))
    ensures r.0.None? ==> r.1 == st
    ensures r.0.Some? ==> (r.0 == id && id.value in r.1.wins && r.1.nextWin == st.nextWin &&
      r.1.wins == st.wins[id.value := r.1.wins[id.value]])
    ensures r.0.Some? ==> r.1.wins[id.value].flags == st.wins[id.value].flags && r.1.wins[id.value].parent == st.wins[id.value].parent
    ensures r.0.Some? && st.wins[id.value].flags & SUBWIN != 0 ==>
      var w := st.wins[id.value];
      r.1.heap == st.heap && r.1.nextBlock == st.nextBlock &&
      r.1.wins[id.value] == Resized(w, ResizeSubRecord(st, w, nlines, ncols, d, allocOk).value)
    ensures r.0.Some? && st.wins[id.value].flags & SUBWIN == 0 ==>
      var w := st.wins[id.value];
      var n := r.1.wins[id.value];
      r.1.nextBlock == st.nextBlock + 1 &&
      r.1.heap == (st.heap - {w.owns.value})[st.nextBlock := ResizedBlock(st.heap, w, nlines as nat, ncols as nat)] &&
      Shaped(n) && n.maxy == nlines && n.maxx == ncols && n.owns == Some(st.nextBlock) &&
      n.rows == OwnedRows(st.nextBlock, nlines as nat) &&
      (if slk.slkWin == id then n.begy == d.spLines - slk.slkLines && n.begx == 0 else n.begy == w.begy && n.begx == w.begx) &&
      n.pary == -1 && n.parx == -1 && n.delayms == 0 &&
      forall i :: 0 <= i < nlines ==> n.firstch[i] == 0 && n.lastch[i] == ncols - 1
  {
    if id.None? then (None, st)
    else
      var w := st.wins[id.value];
      if w.flags & SUBWIN != 0 then
        var rec := ResizeSubRecord(st, w, nlines, ncols, d, allocOk);
        if rec.None? then (None, st)
        else (id, st.(wins := st.wins[id.value := Resized(w, rec.value)]))
      else if !Allocates(allocOk, nlines, ncols) then (None, st)
      else
        var b := st.nextBlock;
        var begy := if slk.slkWin == id then d.spLines - slk.slkLines else w.begy;
        var begx := if slk.slkWin == id then 0 else w.begx;
        var n := MakeNew(nlines, ncols, begy, begx, d, OwnedRows(b, nlines)).(owns := Some(b));
        var h := (st.heap - {w.owns.value})[b := ResizedBlock(st.heap, w, nlines, ncols)];
        (id, Store(st.wins[id.value := Resized(w, n)], h, st.nextWin, b + 1))
  }

  /** wresize: resize_window's outcome as a status. */
  function WResize(st: Store, id: Option<WinId>, nlines: int, ncols: int, d: Dims, slk: SlkPlace, allocOk: bool): (r: (Status, Store))
    requires StoreOk(st) && Valid(st, id)
    ensures (r.0 == OK) == ResizeWindow(st, id, nlines, ncols, d, slk, allocOk).0.Some?
    ensures r.1 == ResizeWindow(st, id, nlines, ncols, d, slk, allocOk).1
  {
    var (p, st') := ResizeWindow(st, id, nlines, ncols, d, slk, allocOk);
    (if p.Some? then OK else ERR, st')
  }

  /** No window other than `id` reads the block `id` owns. */
  predicate BlockUnshared(st: Store, id: WinId)
    requires id in st.wins
  {
    st.wins[id].owns.Some? ==>
      forall v :: v in st.wins && v != id ==>
        forall i :: 0 <= i < |st.wins[v].rows| ==> st.wins[v].rows[i].block != st.wins[id].owns.value
  }

  /**
   * resize_window keeps the store consistent, provided no subwindow
   * still reads the lines an owning window gives up (the routine frees
   * them regardless).
   */
  lemma ResizeWindowKeepsStore(st: Store, id: WinId, nlines: int, ncols: int, d: Dims, slk: SlkPlace, allocOk: bool)
    requires StoreOk(st) && id in st.wins && BlockUnshared(st, id)
    ensures StoreOk(ResizeWindow(st, Some(id), nlines, ncols, d, slk, allocOk).1)
  {
    var r := ResizeWindow(st, Some(id), nlines, ncols, d, slk, allocOk);
    var w := st.wins[id];
    if r.0.Some? {
      if w.flags & SUBWIN != 0 {
        ResizeSubKeepsStore(st, id, nlines, ncols, d, allocOk);
      } else {
        ResizeOwnerKeepsStore(st, id, r.1);
      }
    }
  }

  /** Resizing a subwindow keeps the store consistent: the new view lies inside its parent. */
  lemma ResizeSubKeepsStore(st: Store, id: WinId, nlines: int, ncols: int, d: Dims, allocOk: bool)
    requires StoreOk(st) && id in st.wins && st.wins[id].flags & SUBWIN != 0
    requires ResizeSubRecord(st, st.wins[id], nlines, ncols, d, allocOk).Some?
    ensures var w := st.wins[id];
      StoreOk(st.(wins := st.wins[id := Resized(w, ResizeSubRecord(st, w, nlines, ncols, d, allocOk).value)]))
  {
    var w := st.wins[id];
    var p := st.wins[w.parent.value];
    var v := ResizeSubRecord(st, w, nlines, ncols, d, allocOk).value;
    ResizedViewShowsParent(st.heap, w, v, p, w.begy - p.begy, w.begx - p.begx);
    ReplaceWindowKeepsStore(st, id, Resized(w, v));
  }

  /** Replacing a window by a well-formed one with the same flags and parent, over the same storage, keeps the store consistent. */
  lemma ReplaceWindowKeepsStore(st: Store, id: WinId, n: Win)
    requires StoreOk(st) && id in st.wins && Wf(st.heap, n) && OwnershipAgrees(n)
    requires n.flags == st.wins[id].flags && n.parent == st.wins[id].parent
    ensures StoreOk(st.(wins := st.wins[id := n]))
  {
  }

  /** Resizing an owning window whose lines no subwindow reads keeps the store consistent. */
  lemma ResizeOwnerKeepsStore(st: Store, id: WinId, r: Store)
    requires StoreOk(st) && id in st.wins && BlockUnshared(st, id) && st.wins[id].flags & SUBWIN == 0
    requires id in r.wins
    requires var w := st.wins[id];
      var n := r.wins[id];
      r.wins == st.wins[id := n] && r.nextWin == st.nextWin && r.nextBlock == st.nextBlock + 1 &&
      Shaped(n) && SpansIn(n) && n.flags == w.flags && n.parent == w.parent &&
      n.owns == Some(st.nextBlock) && n.rows == OwnedRows(st.nextBlock, n.maxy as nat) &&
      r.heap == (st.heap - {w.owns.value})[st.nextBlock := ResizedBlock(st.heap, w, n.maxy as nat, n.maxx as nat)]
    ensures StoreOk(r)
  {
    var w := st.wins[id];
    var n := r.wins[id];
    var b := st.nextBlock;
    var h0 := st.heap - {w.owns.value};
    var blk := ResizedBlock(st.heap, w, n.maxy as nat, n.maxx as nat);
    assert b !in h0;
    OwnerWf(h0, b, blk, n);
    forall u | u in r.wins
      ensures Wf(r.heap, r.wins[u]) && OwnershipAgrees(r.wins[u])
    {
      if u != id {
        OtherWinStaysBacked(st, id, r.heap, blk, u);
      }
    }
  }

  /** A window that shares no block with `id` stays backed when `id`'s block is swapped for a fresh one. */
  lemma OtherWinStaysBacked(st: Store, id: WinId, h: Heap, blk: seq<Line>, u: WinId)
    requires StoreOk(st) && id in st.wins && BlockUnshared(st, id) && st.wins[id].flags & SUBWIN == 0
    requires u in st.wins && u != id
    requires h == (st.heap - {st.wins[id].owns.value})[st.nextBlock := blk]
    ensures Wf(h, st.wins[u])
  {
    var v := st.wins[u];
    forall i | 0 <= i < |v.rows|
      ensures RowBacked(h, v.rows[i], v.maxx)
    {
      assert RowBacked(st.heap, v.rows[i], v.maxx);
    }
  }

  /**
   * A resized owning window keeps its cells where the old and new
   * extents overlap and is blank elsewhere.
   */
  lemma ResizeOwnerKeepsCells(st: Store, id: WinId, nlines: int, ncols: int, d: Dims, slk: SlkPlace, allocOk: bool)
    requires StoreOk(st) && id in st.wins && BlockUnshared(st, id) && st.wins[id].flags & SUBWIN == 0
    requires ResizeWindow(st, Some(id), nlines, ncols, d, slk, allocOk).0.Some?
    ensures var r := ResizeWindow(st, Some(id), nlines, ncols, d, slk, allocOk).1;
      var w := st.wins[id];
      Wf(r.heap, r.wins[id]) &&
      forall i, c :: 0 <= i < nlines && 0 <= c < ncols ==>
        Get(r.heap, r.wins[id], i, c) == (if i < w.maxy && c < w.maxx then Get(st.heap, w, i, c) else BLANK)
  {
    var r := ResizeWindow(st, Some(id), nlines, ncols, d, slk, allocOk).1;
    var w := st.wins[id];
    var n := r.wins[id];
    var blk := ResizedBlock(st.heap, w, nlines as nat, ncols as nat);
    assert st.nextBlock !in st.heap - {w.owns.value};
    OwnerWf(st.heap - {w.owns.value}, st.nextBlock, blk, n);
  }

  /** `n` is well formed over `h` and shows the cells of `p` in `hp` at offset (j, k). */
  predicate ShowsAt(h: Heap, n: Win, hp: Heap, p: Win, j: int, k: int)
    requires Backed(hp, p)
  {
    Wf(h, n) &&
    forall i, c :: 0 <= i < n.maxy && 0 <= c < n.maxx && 0 <= i + j < p.maxy && 0 <= c + k < p.maxx ==>
      Get(h, n, i, c) == Get(hp, p, i + j, c + k)
  }

  /**
   * A resized subwindow (the sub-window branch of ResizeWindow) lies
   * inside its parent, at the offset of their screen origins, and shows
   * the parent's cells there.
   */
  lemma ResizeSubShowsParent(st: Store, w: Win, nlines: int, ncols: int, d: Dims, allocOk: bool)
    requires w.parent.Some? && w.parent.value in st.wins && Wf(st.heap, st.wins[w.parent.value])
    requires ResizeSubRecord(st, w, nlines, ncols, d, allocOk).Some?
    ensures var p := st.wins[w.parent.value];
      var n := Resized(w, ResizeSubRecord(st, w, nlines, ncols, d, allocOk).value);
      0 <= w.begy - p.begy && w.begy - p.begy + n.maxy <= p.maxy &&
      0 <= w.begx - p.begx && w.begx - p.begx + n.maxx <= p.maxx &&
      ShowsAt(st.heap, n, st.heap, p, w.begy - p.begy, w.begx - p.begx)
  {
    var p := st.wins[w.parent.value];
    var v := ResizeSubRecord(st, w, nlines, ncols, d, allocOk).value;
    ResizedViewShowsParent(st.heap, w, v, p, w.begy - p.begy, w.begx - p.begx);
  }

  /** A window given the rows of a view of `p` shows p's cells at the view's offset. */
  lemma ResizedViewShowsParent(h: Heap, w: Win, v: Win, p: Win, j: int, k: int)
    requires Wf(h, p) && Shaped(v) && SpansIn(v) && ViewOf(v, p, j, k)
    ensures ShowsAt(h, Resized(w, v), h, p, j, k)
  {
    ViewGet(h, v, p, j, k);
    var n := Resized(w, v);
    assert SpansIn(n);
    forall i, c | 0 <= i < v.maxy && 0 <= c < v.maxx
      ensures Get(h, n, i, c) == Get(h, p, i + j, c + k)
    {
      assert Get(h, n, i, c) == Get(h, v, i, c);
    }
  }

  /**
   * A cursor inside the window stays inside the resized window whenever
   * that has a cell, and keeps each coordinate that still exists.
   */
  lemma ResizeKeepsCursorIn(st: Store, id: WinId, nlines: int, ncols: int, d: Dims, slk: SlkPlace, allocOk: bool)
    requires StoreOk(st) && id in st.wins && CursorIn(st.wins[id])
    requires ResizeWindow(st, Some(id), nlines, ncols, d, slk, allocOk).0.Some?
    ensures var w := st.wins[id];
      var n := ResizeWindow(st, Some(id), nlines, ncols, d, slk, allocOk).1.wins[id];
      n.maxy > 0 && n.maxx > 0 ==>
        CursorIn(n) && (w.cury < n.maxy ==> n.cury == w.cury) && (w.curx < n.maxx ==> n.curx == w.curx)
  {
  }

  /** Every window has the shape of its rows and a parent created before it. */
  predicate Linked(wins: map<WinId, Win>)
  {
    (forall u :: u in wins ==> Shaped(wins[u])) &&
    forall u {:trigger wins[u]} :: u in wins && wins[u].parent.Some? ==>
      wins[u].parent.value in wins && wins[u].parent.value < u
  }

  /** Replacing a window by one of the same shape and parent keeps the links. */
  lemma LinkedUpdate(wins: map<WinId, Win>, id: WinId, w: Win)
    requires Linked(wins) && id in wins && Shaped(w) && w.parent == wins[id].parent
    ensures Linked(wins[id := w])
  {
  }

  /** `id` and its ancestors along the _parent chain. */
  function Chain(wins: map<WinId, Win>, id: WinId): (c: set<WinId>)
    requires Linked(wins) && id in wins
    ensures id in c && c <= wins.Keys
    ensures forall a :: a in c ==> a <= id
    decreases id
  {
    {id} + (if wins[id].parent.Some? then Chain(wins, wins[id].parent.value) else {})
  }

  /** The chain from a window with a parent is the window and the chain from its parent. */
  lemma ChainUnfold(wins: map<WinId, Win>, id: WinId)
    requires Linked(wins) && id in wins && wins[id].parent.Some?
    ensures Chain(wins, id) == {id} + Chain(wins, wins[id].parent.value)
  {
  }

  /** The chain depends only on the parent links. */
  lemma {:induction false} ChainFrame(w1: map<WinId, Win>, w2: map<WinId, Win>, id: WinId)
    requires Linked(w1) && Linked(w2) && w1.Keys == w2.Keys && id in w1
    requires forall u :: u in w1 ==> w2[u].parent == w1[u].parent
    ensures Chain(w1, id) == Chain(w2, id)
    decreases id
  {
    if w1[id].parent.Some? {
      ChainFrame(w1, w2, w1[id].parent.value);
    }
  }

  /**
   * wsyncup: touches `id`, then its parent, and so on up the chain, as
   * the routine's loop does.
   */
  function WSyncUp(wins: map<WinId, Win>, id: Option<WinId>): (r: map<WinId, Win>)
    requires Linked(wins) && (id.Some? ==> id.value in wins)
    ensures Linked(r) && r.Keys == wins.Keys
    ensures forall u :: u in wins ==> r[u].parent == wins[u].parent
    decreases if id.Some? then id.value + 1 else 0
  {
    if id.None? then wins
    else
      var w := wins[id.value];
      var t := TouchWin(w);
      assert t.parent == w.parent;
      LinkedUpdate(wins, id.value, t);
      WSyncUp(wins[id.value := t], w.parent)
  }

  /** The walk from a window is touching it, then the walk from its parent. */
  lemma SyncUpUnfold(wins: map<WinId, Win>, id: WinId)
    requires Linked(wins) && id in wins
    ensures Linked(wins[id := TouchWin(wins[id])])
    ensures WSyncUp(wins, Some(id)) == WSyncUp(wins[id := TouchWin(wins[id])], wins[id].parent)
  {
    LinkedUpdate(wins, id, TouchWin(wins[id]));
  }

  /**
   * What wsyncup does: `id` and every ancestor is touched; no other
   * window changes.
   */
  lemma {:induction false} WSyncUpTouchesChain(wins: map<WinId, Win>, id: WinId)
    requires Linked(wins) && id in wins
    ensures forall u :: u in wins ==>
      WSyncUp(wins, Some(id))[u] == (if u in Chain(wins, id) then TouchWin(wins[u]) else wins[u])
    decreases id, 1
  {
    var w := wins[id];
    var wins' := wins[id := TouchWin(w)];
    LinkedUpdate(wins, id, TouchWin(w));
    var r := WSyncUp(wins', w.parent);
    SyncUpUnfold(wins, id);
    if w.parent.Some? {
      SyncUpChainStep(wins, id, r);
    } else {
      assert Chain(wins, id) == {id} && r == wins';
    }
  }

  /** The inductive step of WSyncUpTouchesChain: touch `id`, then the walk from its parent. */
  lemma {:induction false} SyncUpChainStep(wins: map<WinId, Win>, id: WinId, r: map<WinId, Win>)
    requires Linked(wins) && id in wins && wins[id].parent.Some?
    requires var w := wins[id]; Linked(wins[id := TouchWin(w)]) && r == WSyncUp(wins[id := TouchWin(w)], w.parent)
    ensures forall u :: u in wins ==> r[u] == (if u in Chain(wins, id) then TouchWin(wins[u]) else wins[u])
    decreases id, 0
  {
    var w := wins[id];
    var wins' := wins[id := TouchWin(w)];
    var p := w.parent.value;
    WSyncUpTouchesChain(wins', p);
    assert TouchWin(w).parent == w.parent;
    ChainFrame(wins, wins', p);
    ChainUnfold(wins, id);
    forall u | u in wins
      ensures r[u] == (if u in Chain(wins, id) then TouchWin(wins[u]) else wins[u])
    {
      if u == id {
        assert u !in Chain(wins', p);
      } else {
        assert wins'[u] == wins[u];
        assert u in Chain(wins, id) <==> u in Chain(wins', p);
      }
    }
  }

  /** syncok: ERR for a null window; otherwise the window's _sync flag becomes `bf` and nothing else changes. */
  function SyncOk(w: Option<Win>, bf: bool): (r: (Status, Option<Win>))
    ensures r.0 == ERR <==> w.None?
    ensures r.1.Some? <==> w.Some?
    ensures w.Some? ==> r.1.value.sync == bf && r.1.value.(sync := w.value.sync) == w.value
  {
    if w.None? then (ERR, None) else (OK, Some(w.value.(sync := bf)))
  }

  /** Touching windows keeps the store consistent (TouchWinWf: no cell changes either). */
  lemma TouchingKeepsStore(st: Store, wins: map<WinId, Win>)
    requires StoreOk(st) && wins.Keys == st.wins.Keys
    requires forall u :: u in wins ==> wins[u] == st.wins[u] || wins[u] == TouchWin(st.wins[u])
    ensures StoreOk(st.(wins := wins))
  {
    forall u | u in wins
      ensures Wf(st.heap, wins[u]) && wins[u].rows == st.wins[u].rows && wins[u].maxx == st.wins[u].maxx
      ensures OwnershipAgrees(wins[u]) && wins[u].flags == st.wins[u].flags && wins[u].parent == st.wins[u].parent
    {
      TouchWinWf(st.heap, st.wins[u]);
    }
  }

  /** Some window along the chain from `id` has a change; the walk wsyncdown makes. */
  predicate ChainTouched(wins: map<WinId, Win>, id: WinId)
    requires Linked(wins) && id in wins
    decreases id
  {
    IsWinTouched(wins[id]) || (wins[id].parent.Some? && ChainTouched(wins, wins[id].parent.value))
  }

  /** The walk finds a change exactly when some window of the chain has one. */
  lemma {:induction false} ChainTouchedMeans(wins: map<WinId, Win>, id: WinId)
    requires Linked(wins) && id in wins
    ensures ChainTouched(wins, id) <==> exists a :: a in Chain(wins, id) && IsWinTouched(wins[a])
    decreases id
  {
    var w := wins[id];
    if w.parent.Some? {
      var p := w.parent.value;
      ChainTouchedMeans(wins, p);
      ChainUnfold(wins, id);
    } else {
      assert Chain(wins, id) == {id};
    }
  }

  /**
   * wsyncdown: `id` is touched when it or some ancestor has a change,
   * and otherwise nothing changes; no other window changes.
   */
  function WSyncDown(wins: map<WinId, Win>, id: Option<WinId>): (r: map<WinId, Win>)
    requires Linked(wins) && (id.Some? ==> id.value in wins)
    ensures r.Keys == wins.Keys
    ensures id.None? ==> r == wins
    ensures id.Some? ==>
      r == wins[id.value := if exists a :: a in Chain(wins, id.value) && IsWinTouched(wins[a])
                            then TouchWin(wins[id.value]) else wins[id.value]]
  {
    if id.None? then wins
    else
      ChainTouchedMeans(wins, id.value);
      if ChainTouched(wins, id.value) then wins[id.value := TouchWin(wins[id.value])] else wins
  }

  /**
   * wcursyncup: walking up from `id`, each parent's cursor is moved to
   * its child's cursor (as just updated) plus the child's offset, as the
   * routine's loop does.
   */
  function WCurSyncUp(wins: map<WinId, Win>, id: Option<WinId>): (r: map<WinId, Win>)
    requires Linked(wins) && (id.Some? ==> id.value in wins)
    ensures Linked(r) && r.Keys == wins.Keys
    decreases if id.Some? then id.value + 1 else 0
  {
    if id.None? || wins[id.value].parent.None? then wins
    else WCurSyncUp(CurSyncStep(wins, id.value), wins[id.value].parent)
  }

  /** One step of the walk keeps every parent link and changes no window but the parent of `id`. */
  lemma StepFrame(wins: map<WinId, Win>, id: WinId)
    requires Linked(wins) && id in wins && wins[id].parent.Some?
    ensures var s := CurSyncStep(wins, id); forall u :: u in wins ==> s[u].parent == wins[u].parent
    ensures var s := CurSyncStep(wins, id); forall u :: u in wins && u != wins[id].parent.value ==> s[u] == wins[u]
  {
  }

  /** The walk from a window with a parent is one step, then the walk from the parent. */
  lemma CurSyncUpUnfold(wins: map<WinId, Win>, id: WinId)
    requires Linked(wins) && id in wins && wins[id].parent.Some?
    ensures WCurSyncUp(wins, Some(id)) == WCurSyncUp(CurSyncStep(wins, id), wins[id].parent)
  {
  }

  /** One step of wcursyncup: the parent of `id` gets the cursor of `id` plus its offset, if that is a cell. */
  function CurSyncStep(wins: map<WinId, Win>, id: WinId): (r: map<WinId, Win>)
    requires Linked(wins) && id in wins && wins[id].parent.Some?
    ensures Linked(r) && r.Keys == wins.Keys
  {
    var w := wins[id];
    var p := w.parent.value;
    var pw := WMove(wins[p], w.pary + w.cury, w.parx + w.curx).1;
    LinkedUpdate(wins, p, pw);
    wins[p := pw]
  }

  /** A window with its cursor forgotten. */
  function Sans(w: Win): Win
  {
    w.(cury := 0, curx := 0)
  }

  /** `b` is `a` with at most its cursor moved. */
  predicate CursorOnly(a: Win, b: Win)
  {
    Sans(a) == Sans(b)
  }

  /** wcursyncup changes nothing but cursors. */
  lemma {:induction false} WCurSyncUpCursorOnly(wins: map<WinId, Win>, id: WinId)
    requires Linked(wins) && id in wins
    ensures var r := WCurSyncUp(wins, Some(id));
      forall u :: u in wins ==> CursorOnly(wins[u], r[u])
    decreases id
  {
    var w := wins[id];
    if w.parent.Some? {
      var p := w.parent.value;
      var wins' := CurSyncStep(wins, id);
      var r := WCurSyncUp(wins', Some(p));
      CurSyncUpUnfold(wins, id);
      WCurSyncUpCursorOnly(wins', p);
      forall u | u in wins
        ensures CursorOnly(wins[u], r[u])
      {
        StepCursorOnly(wins, id, u);
      }
    }
  }

  /** One step of wcursyncup changes nothing but the parent's cursor. */
  lemma StepCursorOnly(wins: map<WinId, Win>, id: WinId, u: WinId)
    requires Linked(wins) && id in wins && wins[id].parent.Some? && u in wins
    ensures CursorOnly(wins[u], CurSyncStep(wins, id)[u])
  {
    var w := wins[id];
    var p := w.parent.value;
    var r := CurSyncStep(wins, id);
    if u == p {
      MoveCursorOnly(wins[p], w.pary + w.cury, w.parx + w.curx);
    } else {
      assert r[u] == wins[u];
    }
  }

  /** wmove changes nothing but the cursor. */
  lemma MoveCursorOnly(w: Win, y: int, x: int)
    ensures CursorOnly(w, WMove(w, y, x).1)
  {
    var m := w.(cury := y, curx := x);
    assert Sans(m) == Sans(w);
  }

  /** wcursyncup moves only cursors of the ancestors of `id`; `id` itself is left as it was. */
  lemma {:induction false} WCurSyncUpFrame(wins: map<WinId, Win>, id: WinId)
    requires Linked(wins) && id in wins
    ensures var r := WCurSyncUp(wins, Some(id));
      r[id] == wins[id] && forall u :: u in wins && u !in Chain(wins, id) ==> r[u] == wins[u]
    decreases id
  {
    var w := wins[id];
    if w.parent.Some? {
      var p := w.parent.value;
      var wins' := CurSyncStep(wins, id);
      var r := WCurSyncUp(wins', Some(p));
      CurSyncUpUnfold(wins, id);
      WCurSyncUpFrame(wins', p);
      StepFrame(wins, id);
      ChainFrame(wins, wins', p);
      ChainUnfold(wins, id);
      assert id !in Chain(wins', p);
      forall u | u in wins && u !in Chain(wins, id)
        ensures r[u] == wins[u]
      {
        assert u != p;
      }
    }
  }

  /**
   * After the walk, the parent of `u` has its cursor where wmove puts it
   * for u's final cursor plus u's offset.
   */
  predicate ParentFollows(before: map<WinId, Win>, after: map<WinId, Win>, u: WinId)
    requires Linked(before) && u in before && before[u].parent.Some? && before.Keys == after.Keys
  {
    var q := before[u].parent.value;
    after[q] == WMove(before[q], before[u].pary + after[u].cury, before[u].parx + after[u].curx).1
  }

  /**
   * What wcursyncup computes: every window of the chain from `id` that
   * has a parent ends with that parent's cursor where wmove puts it for
   * the child's final cursor plus the child's offset.
   */
  lemma {:induction false} WCurSyncUpMoves(wins: map<WinId, Win>, id: WinId)
    requires Linked(wins) && id in wins
    ensures var r := WCurSyncUp(wins, Some(id));
      forall u :: u in Chain(wins, id) && wins[u].parent.Some? ==> ParentFollows(wins, r, u)
    decreases id
  {
    var w := wins[id];
    if w.parent.Some? {
      var p := w.parent.value;
      var wins' := CurSyncStep(wins, id);
      var r := WCurSyncUp(wins', Some(p));
      CurSyncUpUnfold(wins, id);
      WCurSyncUpMoves(wins', p);
      WCurSyncUpFrame(wins, id);
      WCurSyncUpFrame(wins', p);
      StepFrame(wins, id);
      ChainFrame(wins, wins', p);
      CurSyncUpStep(wins, id, wins', r);
    }
  }

  /** The inductive step of WCurSyncUpMoves: the first move, then the walk from the parent. */
  lemma CurSyncUpStep(wins: map<WinId, Win>, id: WinId, wins': map<WinId, Win>, r: map<WinId, Win>)
    requires Linked(wins) && id in wins && wins[id].parent.Some?
    requires wins' == CurSyncStep(wins, id) && r.Keys == wins.Keys
    requires var p := wins[id].parent.value;
      r[p] == wins'[p] && r[id] == wins[id] && Chain(wins, p) == Chain(wins', p) &&
      forall u :: u in Chain(wins', p) && wins'[u].parent.Some? ==> ParentFollows(wins', r, u)
    ensures forall u :: u in Chain(wins, id) && wins[u].parent.Some? ==> ParentFollows(wins, r, u)
  {
    var p := wins[id].parent.value;
    ChainUnfold(wins, id);
    forall u | u in Chain(wins, id) && wins[u].parent.Some?
      ensures ParentFollows(wins, r, u)
    {
      if u == id {
        StepMovesParent(wins, id);
        FirstFollows(wins, id, r);
      } else {
        assert u in Chain(wins', p);
        assert wins'[u].parent == wins[u].parent;
        FollowsAcrossStep(wins, id, wins', r, u);
      }
    }
  }

  /** The first step of the walk puts the parent's cursor at the child's cursor plus its offset. */
  lemma StepMovesParent(wins: map<WinId, Win>, id: WinId)
    requires Linked(wins) && id in wins && wins[id].parent.Some?
    ensures var w := wins[id]; var p := w.parent.value;
      CurSyncStep(wins, id)[p] == WMove(wins[p], w.pary + w.cury, w.parx + w.curx).1
  {
  }

  /** The first step of the walk leaves the parent of `id` following `id`, which the rest of the walk does not move. */
  lemma FirstFollows(wins: map<WinId, Win>, id: WinId, r: map<WinId, Win>)
    requires Linked(wins) && id in wins && wins[id].parent.Some? && r.Keys == wins.Keys && r[id] == wins[id]
    requires var w := wins[id]; var p := w.parent.value;
      r[p] == WMove(wins[p], w.pary + w.cury, w.parx + w.curx).1
    ensures ParentFollows(wins, r, id)
  {
  }

  /** A window above `id` follows its parent the same way whether or not the first move is counted. */
  lemma FollowsAcrossStep(wins: map<WinId, Win>, id: WinId, wins': map<WinId, Win>, r: map<WinId, Win>, u: WinId)
    requires Linked(wins) && id in wins && wins[id].parent.Some?
    requires wins' == CurSyncStep(wins, id) && r.Keys == wins.Keys
    requires u in wins && u <= wins[id].parent.value && wins'[u].parent.Some? && ParentFollows(wins', r, u)
    ensures ParentFollows(wins, r, u)
  {
    var p := wins[id].parent.value;
    var q := wins[u].parent.value;
    assert q < u <= p;
    assert wins'[q] == wins[q];
    assert wins'[u].parent == wins[u].parent && wins'[u].pary == wins[u].pary && wins'[u].parx == wins[u].parx;
  }
}
