/**
 * The drawing and clearing routines as the library runs them on a
 * session: each refuses a null window with ERR, draws into the window
 * (the Attr, Border and Clear models), and ends with PDC_sync, which
 * refreshes a window with immedok set at once and touches a window with
 * syncok set together with its ancestors.  wclrtobot calls PDC_sync once
 * for every row it clears (through wclrtoeol) and once more at the end.
 */
module SyncDraw {
  import opened Base
  import opened Cells
  import opened Store
  import opened Windows
  import opened Refresh
  import Attr
  import Border
  import Clear

  /**
   * What a call leaves: its status, the storage, the windows, curscr,
   * the terminal's state and the platform calls made along the way.
   */
  datatype Done = Done(status: Status, heap: Heap, wins: map<WinId, Win>, cs: Curscr, sp: Phys, paints: seq<Paint>)

  /** A window a refresh copies: immedok set on a window that is no pad. */
  predicate Immediate(w: Win)
  {
    w.immed && w.flags & (PAD | SUBPAD) == 0
  }

  /**
   * Window `id` of `wins` can be drawn into over `h`, and refreshed when
   * immedok is set.
   */
  predicate Ready(h: Heap, wins: map<WinId, Win>, id: WinId, cs: Curscr, cols: int)
  {
    Linked(wins) && id in wins && Wf(h, wins[id]) && ScreenOk(cs, cols) &&
    (wins[id].immed ==> OnScreen(wins[id], cs, cols))
  }

  /**
   * curscr after a refresh of `v` over `h`, seen through the window: a
   * cell `v` had marked changed shows the window's cell, any other keeps
   * what curscr showed before.
   */
  ghost predicate ShowsChanges(h: Heap, v: Win, cs: Curscr, cols: int, cs': Curscr)
    requires Backed(h, v) && ScreenOk(cs, cols) && OnScreen(v, cs, cols)
    requires ScreenOk(cs', cols) && |cs'.lines| == |cs.lines|
  {
    forall i, c :: 0 <= i < v.maxy && 0 <= c < v.maxx ==>
      cs'.lines[v.begy + i][v.begx + c] ==
        (if Dirty(v, i, c) then Get(h, v, i, c) else cs.lines[v.begy + i][v.begx + c])
  }

  /**
   * The windows `r` beside window `id` after drawing into it and PDC_sync:
   * none added or removed, the links kept, and under syncok (`sync`) the
   * ancestors of `id` touched while every other window is as it was.
   */
  ghost predicate Around(wins: map<WinId, Win>, id: WinId, sync: bool, r: map<WinId, Win>)
    requires Linked(wins) && id in wins
  {
    r.Keys == wins.Keys && Linked(r) &&
    forall u :: u in wins && u != id ==>
      r[u] == (if sync && u in Chain(wins, id) then TouchWin(wins[u]) else wins[u])
  }

  /**
   * The windows after PDC_sync, when window `id` of `wins` had been drawn
   * into and become `v`, and `immediate` says whether it was refreshed:
   * the others as Around says; the window is `v` but for its spans and
   * clear flag; without a refresh it keeps the clear flag, and without
   * syncok too it is exactly `v`; a refresh drops the clear flag and,
   * without syncok, leaves no change marked; with syncok every row ends
   * up changed across the full width.
   */
  ghost predicate SyncedWins(h: Heap, wins: map<WinId, Win>, id: WinId, v: Win, immediate: bool, r: map<WinId, Win>)
    requires Linked(wins) && id in wins
  {
    Around(wins, id, v.sync, r) && Wf(h, r[id]) &&
    r[id] == v.(firstch := r[id].firstch, lastch := r[id].lastch, clear := r[id].clear) &&
    (!immediate ==> r[id].clear == v.clear) &&
    (!immediate && !v.sync ==> r[id] == v) &&
    (immediate ==> !r[id].clear) &&
    (immediate && !v.sync ==> Clean(r[id])) &&
    (v.sync ==> r[id] == TouchWin(r[id]))
  }

  /**
   * PDC_sync once window `id` has been drawn into and become `v` over
   * `h`: the windows as SyncedWins says, refreshed exactly when immedok
   * is set on a window that is no pad.  A refresh shows on curscr every
   * cell `v` marked changed and keeps the others, and revives the
   * terminal; without one, curscr, the terminal and the calls are as
   * they were.
   */
  function Sync(h: Heap, wins: map<WinId, Win>, id: WinId, v: Win, cs: Curscr, sp: Phys, cols: int): (r: Done)
    requires Linked(wins) && id in wins && Wf(h, v) && v.parent == wins[id].parent && ScreenOk(cs, cols)
    requires v.immed ==> OnScreen(v, cs, cols)
    ensures r.status == OK && r.heap == h && SyncedWins(h, wins, id, v, Immediate(v), r.wins)
    ensures ScreenOk(r.cs, cols) && |r.cs.lines| == |cs.lines|
    ensures !Immediate(v) ==> r.cs == cs && r.sp == sp && r.paints == []
    ensures Immediate(v) ==> !r.cs.clear && r.sp.alive && ShowsChanges(h, v, cs, cols, r.cs)
  {
    var m := ImmedSyncWins(h, wins, id, v, cs, cols);
    var s := ImmedScreen(h, v, cs, sp, cols);
    Done(OK, h, m, s.0, s.1, s.2)
  }

  /**
   * The windows half of PDC_sync: the window wrefresh leaves in place of
   * `id`, and under syncok the window and its ancestors touched.
   */
  function ImmedSyncWins(h: Heap, wins: map<WinId, Win>, id: WinId, v: Win, cs: Curscr, cols: int): (r: map<WinId, Win>)
    requires Linked(wins) && id in wins && Wf(h, v) && v.parent == wins[id].parent && ScreenOk(cs, cols)
    requires v.immed ==> OnScreen(v, cs, cols)
    ensures SyncedWins(h, wins, id, v, Immediate(v), r)
  {
    SyncWinsOutcome(h, wins, id, v, cs, cols);
    SyncWins(wins, id, ImmedWin(h, v, cs, cols), v.sync)
  }

  /** SyncWins of the window wrefresh leaves gives the windows SyncedWins describes. */
  lemma SyncWinsOutcome(h: Heap, wins: map<WinId, Win>, id: WinId, v: Win, cs: Curscr, cols: int)
    requires Linked(wins) && id in wins && Wf(h, v) && v.parent == wins[id].parent && ScreenOk(cs, cols)
    requires v.immed ==> OnScreen(v, cs, cols)
    ensures Wf(h, ImmedWin(h, v, cs, cols))
    ensures SyncedWins(h, wins, id, v, Immediate(v), SyncWins(wins, id, ImmedWin(h, v, cs, cols), v.sync))
  {
    var q := ImmedWin(h, v, cs, cols);
    ImmedWinWf(h, v, cs, cols);
    SyncWinsFacts(h, wins, id, q, v.sync);
  }

  /**
   * The immedok half of PDC_sync on the screen: wrefresh's curscr, terminal
   * state and calls for a window with immedok set, nothing otherwise.
   */
  function ImmedScreen(h: Heap, v: Win, cs: Curscr, sp: Phys, cols: int): (r: (Curscr, Phys, seq<Paint>))
    requires Wf(h, v) && ScreenOk(cs, cols) && (v.immed ==> OnScreen(v, cs, cols))
    ensures ScreenOk(r.0, cols) && |r.0.lines| == |cs.lines|
    ensures !Immediate(v) ==> r == (cs, sp, [])
    ensures Immediate(v) ==> !r.0.clear && r.1.alive && ShowsChanges(h, v, cs, cols, r.0)
  {
    if v.immed then
      var t := WRefresh(h, Window(v), cs, sp, cols);
      if Immediate(v) then
        RefreshShowsChanges(h, v, cs, sp, cols);
        (t.2, t.3, t.4)
      else (t.2, t.3, t.4)
    else (cs, sp, [])
  }

  /** Sync is PDC_sync run on the windows with `id` replaced by its drawn self. */
  lemma SyncIsPdcSync(h: Heap, wins: map<WinId, Win>, id: WinId, v: Win, cs: Curscr, sp: Phys, cols: int)
    requires Linked(wins) && id in wins && Wf(h, v) && v.parent == wins[id].parent && ScreenOk(cs, cols)
    requires v.immed ==> OnScreen(v, cs, cols)
    ensures Linked(wins[id := v])
    ensures var r := Sync(h, wins, id, v, cs, sp, cols);
      (r.wins, r.cs, r.sp, r.paints) == PdcSync(h, wins[id := v], id, cs, sp, cols)
  {
    LinkedUpdate(wins, id, v);
    SyncWinsReplaced(h, wins, id, v, cs, cols);
  }

  /** The windows half of Sync is SyncWins run on the windows with `id` already replaced. */
  lemma SyncWinsReplaced(h: Heap, wins: map<WinId, Win>, id: WinId, v: Win, cs: Curscr, cols: int)
    requires Linked(wins) && id in wins && Wf(h, v) && v.parent == wins[id].parent && ScreenOk(cs, cols)
    requires v.immed ==> OnScreen(v, cs, cols)
    requires Linked(wins[id := v])
    ensures ImmedSyncWins(h, wins, id, v, cs, cols) == SyncWins(wins[id := v], id, ImmedWin(h, v, cs, cols), v.sync)
  {
    var q := ImmedWin(h, v, cs, cols);
    assert wins[id := v][id := q] == wins[id := q];
  }

  /** SyncWins after drawing keeps the links and leaves the window well formed; touched when syncok is set. */
  lemma SyncWinsFacts(h: Heap, wins: map<WinId, Win>, id: WinId, q: Win, sync: bool)
    requires Linked(wins) && id in wins && Wf(h, q) && q.parent == wins[id].parent
    ensures var r := SyncWins(wins, id, q, sync);
      Linked(r) && Wf(h, r[id]) && (sync ==> r[id] == TouchWin(r[id]))
  {
    var r := SyncWins(wins, id, q, sync);
    forall u | u in wins
      ensures Shaped(r[u]) && r[u].parent == wins[u].parent
    {
      if u != id && sync && u in Chain(wins, id) {
        assert r[u] == TouchWin(wins[u]);
      }
    }
    SyncLinked(wins, id, r);
    if sync {
      SyncWinsTouched(h, wins, id, q);
    }
  }

  /** Under syncok the window SyncWins leaves is the touched window, well formed and touched already. */
  lemma SyncWinsTouched(h: Heap, wins: map<WinId, Win>, id: WinId, q: Win)
    requires Linked(wins) && id in wins && Wf(h, q) && q.parent == wins[id].parent
    ensures var t := SyncWins(wins, id, q, true)[id]; Wf(h, t) && t == TouchWin(t)
  {
    TouchWinWf(h, q);
    TouchWinIdempotent(TouchWin(q));
  }

  /** The window wrefresh leaves (through ImmedWin) stays well formed over the same storage. */
  lemma ImmedWinWf(h: Heap, w: Win, cs: Curscr, cols: int)
    requires Wf(h, w) && ScreenOk(cs, cols) && (w.immed ==> OnScreen(w, cs, cols))
    ensures Wf(h, ImmedWin(h, w, cs, cols))
  {
    var v := ImmedWin(h, w, cs, cols);
    assert v.rows == w.rows && v.maxy == w.maxy && v.maxx == w.maxx;
  }

  /** PDC_sync keeps every window's parent and shape, so the links hold. */
  lemma SyncLinked(wins: map<WinId, Win>, id: WinId, r: map<WinId, Win>)
    requires Linked(wins) && id in wins && r.Keys == wins.Keys
    requires forall u :: u in wins ==> Shaped(r[u]) && r[u].parent == wins[u].parent
    ensures Linked(r)
  {
  }

  /** A refresh through wrefresh shows the window's changed cells on curscr and keeps the rest. */
  lemma RefreshShowsChanges(h: Heap, v: Win, cs: Curscr, sp: Phys, cols: int)
    requires Wf(h, v) && ScreenOk(cs, cols) && OnScreen(v, cs, cols) && Immediate(v)
    ensures var q := WRefresh(h, Window(v), cs, sp, cols);
      ScreenOk(q.2, cols) && |q.2.lines| == |cs.lines| && ShowsChanges(h, v, cs, cols, q.2)
  {
    var n := WNoutRefresh(h, Some(v), cs, cols);
    var q := WRefresh(h, Window(v), cs, sp, cols);
    ShowsChangesOfRefreshed(h, v, cs, cols, n.2, q.2);
  }

  /** A curscr whose lines are those of wnoutrefresh's shows the window's changes and keeps the rest. */
  lemma ShowsChangesOfRefreshed(h: Heap, v: Win, cs: Curscr, cols: int, n: Curscr, cs': Curscr)
    requires Wf(h, v) && ScreenOk(cs, cols) && OnScreen(v, cs, cols) && ScreenRefreshed(h, v, cs, cols, n)
    requires ScreenOk(cs', cols) && cs'.lines == n.lines
    ensures |cs'.lines| == |cs.lines| && ShowsChanges(h, v, cs, cols, cs')
  {
    forall i, c | 0 <= i < v.maxy && 0 <= c < v.maxx
      ensures cs'.lines[v.begy + i][v.begx + c] ==
        (if Dirty(v, i, c) then Get(h, v, i, c) else cs.lines[v.begy + i][v.begx + c])
    {
      RefreshedCell(h, v, cs, cols, n, i, c);
    }
  }

  /** One cell of wnoutrefresh's curscr: the window's cell where it had changed, curscr's old cell elsewhere. */
  lemma RefreshedCell(h: Heap, v: Win, cs: Curscr, cols: int, n: Curscr, i: int, c: int)
    requires Wf(h, v) && ScreenOk(cs, cols) && OnScreen(v, cs, cols) && ScreenRefreshed(h, v, cs, cols, n)
    requires 0 <= i < v.maxy && 0 <= c < v.maxx
    ensures n.lines[v.begy + i][v.begx + c] ==
      (if Dirty(v, i, c) then Get(h, v, i, c) else cs.lines[v.begy + i][v.begx + c])
  {
    var j := v.begy + i;
    assert RowRefreshed(h, v, cs, j, RowUpdate(n.lines[j], n.firstch[j], n.lastch[j]));
  }

  /**
   * PDC_sync keeps the terminal in step with curscr: replaying its calls
   * on a terminal that agrees with curscr outside the spans gives one that
   * agrees with the new curscr, and after a refresh the terminal shows
   * curscr line for line.
   */
  lemma SyncTerminal(h: Heap, wins: map<WinId, Win>, id: WinId, v: Win, cs: Curscr, sp: Phys, cols: int, term: seq<Line>)
    requires Linked(wins) && id in wins && Wf(h, v) && v.parent == wins[id].parent && ScreenOk(cs, cols)
    requires v.immed ==> OnScreen(v, cs, cols)
    requires Synced(term, cs)
    ensures var r := Sync(h, wins, id, v, cs, sp, cols);
      Synced(Apply(term, r.paints), r.cs) && (Immediate(v) ==> Apply(term, r.paints) == r.cs.lines)
  {
    if Immediate(v) {
      WRefreshShows(h, v, cs, sp, cols, term);
    }
  }

  /** The window PDC_sync leaves is the window it was given but for spans and clear flag. */
  lemma SyncRows(h: Heap, wins: map<WinId, Win>, id: WinId, v: Win, cs: Curscr, sp: Phys, cols: int)
    requires Linked(wins) && id in wins && Wf(h, v) && v.parent == wins[id].parent && ScreenOk(cs, cols)
    requires v.immed ==> OnScreen(v, cs, cols)
    ensures var r := Sync(h, wins, id, v, cs, sp, cols);
      Wf(h, r.wins[id]) && r.wins[id].rows == v.rows && r.wins[id].maxy == v.maxy && r.wins[id].maxx == v.maxx
  {
  }

  /** Two windows on the same rows of the same storage hold the same cells. */
  lemma SameRowsCells(h: Heap, a: Win, b: Win)
    requires Wf(h, a) && Wf(h, b) && a.rows == b.rows && a.maxy == b.maxy && a.maxx == b.maxx
    ensures forall i, c :: 0 <= i < a.maxy && 0 <= c < a.maxx ==> Get(h, a, i, c) == Get(h, b, i, c)
  {
  }

  /** One cell of ShowsChanges: a changed cell of the window is on curscr. */
  lemma ChangedShown(h: Heap, v: Win, cs: Curscr, cols: int, cs': Curscr, i: int, c: int)
    requires Backed(h, v) && ScreenOk(cs, cols) && OnScreen(v, cs, cols)
    requires ScreenOk(cs', cols) && |cs'.lines| == |cs.lines|
    requires ShowsChanges(h, v, cs, cols, cs')
    requires 0 <= i < v.maxy && 0 <= c < v.maxx && Dirty(v, i, c)
    ensures cs'.lines[v.begy + i][v.begx + c] == Get(h, v, i, c)
  {
  }

  /** PDC_sync leaves window `id` drawable, curscr as wide and as tall as before. */
  lemma SyncReady(h: Heap, wins: map<WinId, Win>, id: WinId, v: Win, cs: Curscr, sp: Phys, cols: int)
    requires Linked(wins) && id in wins && Wf(h, v) && v.parent == wins[id].parent && ScreenOk(cs, cols)
    requires v.immed ==> OnScreen(v, cs, cols)
    ensures var r := Sync(h, wins, id, v, cs, sp, cols); Ready(h, r.wins, id, r.cs, cols)
  {
  }

  /** The cell of curscr under cell (`i`, `c`) of `w'`, and the window's cell there, agree. */
  ghost predicate CellShown(h': Heap, w': Win, cs': Curscr, i: int, c: int)
    requires Backed(h', w') && 0 <= i < w'.maxy && 0 <= c < w'.maxx
  {
    0 <= w'.begy + i < |cs'.lines| && 0 <= w'.begx + c < |cs'.lines[w'.begy + i]| &&
    cs'.lines[w'.begy + i][w'.begx + c] == Get(h', w', i, c)
  }

  /** curscr shows the cells of row `i` of `w'` over `h'` from column `lo` to column `hi`. */
  ghost predicate RowShown(h': Heap, w': Win, cs': Curscr, i: int, lo: int, hi: int)
    requires Backed(h', w')
  {
    forall c :: 0 <= i < w'.maxy && lo <= c <= hi && 0 <= c < w'.maxx ==> CellShown(h', w', cs', i, c)
  }

  /** Every cell of row `i` of `v` from column `lo` to column `hi` is marked changed. */
  ghost predicate RowDirty(v: Win, i: int, lo: int, hi: int)
    requires Shaped(v)
  {
    forall c :: 0 <= i < v.maxy && lo <= c <= hi && 0 <= c < v.maxx ==> Dirty(v, i, c)
  }

  /** curscr shows the cells of column `x` of `w'` over `h'` on the rows from `top` up to but not including `bottom`. */
  ghost predicate ColumnShown(h': Heap, w': Win, cs': Curscr, x: int, top: int, bottom: int)
    requires Backed(h', w')
  {
    forall i :: top <= i < bottom && 0 <= i < w'.maxy && 0 <= x < w'.maxx ==> CellShown(h', w', cs', i, x)
  }

  /** Every cell of column `x` of `v` on the rows from `top` up to but not including `bottom` is marked changed. */
  ghost predicate ColumnDirty(v: Win, x: int, top: int, bottom: int)
    requires Shaped(v)
  {
    forall i :: top <= i < bottom && 0 <= i < v.maxy && 0 <= x < v.maxx ==> Dirty(v, i, x)
  }

  /** curscr shows every cell of `w'` over `h'` from row `y`, column `x` on: the rest of row `y` and all rows below. */
  ghost predicate ShownFrom(h': Heap, w': Win, cs': Curscr, y: int, x: int)
    requires Backed(h', w')
  {
    forall i, c :: 0 <= i < w'.maxy && 0 <= c < w'.maxx && (i > y || (i == y && c >= x)) ==> CellShown(h', w', cs', i, c)
  }

  /** Every cell of `v` from row `y`, column `x` on is marked changed. */
  ghost predicate DirtyFrom(v: Win, y: int, x: int)
    requires Shaped(v)
  {
    forall i, c :: 0 <= i < v.maxy && 0 <= c < v.maxx && (i > y || (i == y && c >= x)) ==> Dirty(v, i, c)
  }

  /** A refresh that shows the changes of `v` shows a changed row stretch of any window on the same rows. */
  lemma RowShownBySync(h: Heap, v: Win, cs: Curscr, cols: int, cs': Curscr, w': Win, i: int, lo: int, hi: int)
    requires Wf(h, v) && ScreenOk(cs, cols) && OnScreen(v, cs, cols) && ScreenOk(cs', cols) && |cs'.lines| == |cs.lines|
    requires ShowsChanges(h, v, cs, cols, cs') && RowDirty(v, i, lo, hi)
    requires Wf(h, w') && w'.rows == v.rows && w'.maxy == v.maxy && w'.maxx == v.maxx && w'.begy == v.begy && w'.begx == v.begx
    ensures RowShown(h, w', cs', i, lo, hi)
  {
    SameRowsCells(h, v, w');
    forall c | 0 <= i < w'.maxy && lo <= c <= hi && 0 <= c < w'.maxx
      ensures CellShown(h, w', cs', i, c)
    {
      ChangedShown(h, v, cs, cols, cs', i, c);
    }
  }

  /** With immedok, PDC_sync shows on curscr a changed row stretch of the window. */
  lemma SyncRowShown(h: Heap, wins: map<WinId, Win>, id: WinId, v: Win, cs: Curscr, sp: Phys, cols: int, i: int, lo: int, hi: int)
    requires Linked(wins) && id in wins && Wf(h, v) && v.parent == wins[id].parent && ScreenOk(cs, cols)
    requires v.immed ==> OnScreen(v, cs, cols)
    requires Immediate(v) && RowDirty(v, i, lo, hi)
    ensures var r := Sync(h, wins, id, v, cs, sp, cols);
      Ready(h, r.wins, id, r.cs, cols) && RowShown(h, r.wins[id], r.cs, i, lo, hi)
  {
    var r := Sync(h, wins, id, v, cs, sp, cols);
    SyncReady(h, wins, id, v, cs, sp, cols);
    SyncRows(h, wins, id, v, cs, sp, cols);
    RowShownBySync(h, v, cs, cols, r.cs, r.wins[id], i, lo, hi);
  }

  /** A refresh that shows the changes of `v` shows a changed column stretch of any window on the same rows. */
  lemma ColumnShownBySync(h: Heap, v: Win, cs: Curscr, cols: int, cs': Curscr, w': Win, x: int, top: int, bottom: int)
    requires Wf(h, v) && ScreenOk(cs, cols) && OnScreen(v, cs, cols) && ScreenOk(cs', cols) && |cs'.lines| == |cs.lines|
    requires ShowsChanges(h, v, cs, cols, cs') && ColumnDirty(v, x, top, bottom)
    requires Wf(h, w') && w'.rows == v.rows && w'.maxy == v.maxy && w'.maxx == v.maxx && w'.begy == v.begy && w'.begx == v.begx
    ensures ColumnShown(h, w', cs', x, top, bottom)
  {
    SameRowsCells(h, v, w');
    forall i | top <= i < bottom && 0 <= i < w'.maxy && 0 <= x < w'.maxx
      ensures CellShown(h, w', cs', i, x)
    {
      ChangedShown(h, v, cs, cols, cs', i, x);
    }
  }

  /** With immedok, PDC_sync shows on curscr a changed column stretch of the window. */
  lemma SyncColumnShown(h: Heap, wins: map<WinId, Win>, id: WinId, v: Win, cs: Curscr, sp: Phys, cols: int, x: int, top: int, bottom: int)
    requires Linked(wins) && id in wins && Wf(h, v) && v.parent == wins[id].parent && ScreenOk(cs, cols)
    requires v.immed ==> OnScreen(v, cs, cols)
    requires Immediate(v) && ColumnDirty(v, x, top, bottom)
    ensures var r := Sync(h, wins, id, v, cs, sp, cols);
      Ready(h, r.wins, id, r.cs, cols) && ColumnShown(h, r.wins[id], r.cs, x, top, bottom)
  {
    var r := Sync(h, wins, id, v, cs, sp, cols);
    SyncReady(h, wins, id, v, cs, sp, cols);
    SyncRows(h, wins, id, v, cs, sp, cols);
    ColumnShownBySync(h, v, cs, cols, r.cs, r.wins[id], x, top, bottom);
  }

  /** A refresh that shows the changes of `v` shows the changed cells from a position on of any window on the same rows. */
  lemma ShownFromBySync(h: Heap, v: Win, cs: Curscr, cols: int, cs': Curscr, w': Win, y: int, x: int)
    requires Wf(h, v) && ScreenOk(cs, cols) && OnScreen(v, cs, cols) && ScreenOk(cs', cols) && |cs'.lines| == |cs.lines|
    requires ShowsChanges(h, v, cs, cols, cs') && DirtyFrom(v, y, x)
    requires Wf(h, w') && w'.rows == v.rows && w'.maxy == v.maxy && w'.maxx == v.maxx && w'.begy == v.begy && w'.begx == v.begx
    ensures ShownFrom(h, w', cs', y, x)
  {
    SameRowsCells(h, v, w');
    forall i, c | 0 <= i < w'.maxy && 0 <= c < w'.maxx && (i > y || (i == y && c >= x))
      ensures CellShown(h, w', cs', i, c)
    {
      ChangedShown(h, v, cs, cols, cs', i, c);
    }
  }

  /** With immedok, PDC_sync shows on curscr the changed cells of the window from a position on. */
  lemma SyncShownFrom(h: Heap, wins: map<WinId, Win>, id: WinId, v: Win, cs: Curscr, sp: Phys, cols: int, y: int, x: int)
    requires Linked(wins) && id in wins && Wf(h, v) && v.parent == wins[id].parent && ScreenOk(cs, cols)
    requires v.immed ==> OnScreen(v, cs, cols)
    requires Immediate(v) && DirtyFrom(v, y, x)
    ensures var r := Sync(h, wins, id, v, cs, sp, cols);
      Ready(h, r.wins, id, r.cs, cols) && ShownFrom(h, r.wins[id], r.cs, y, x)
  {
    var r := Sync(h, wins, id, v, cs, sp, cols);
    SyncReady(h, wins, id, v, cs, sp, cols);
    SyncRows(h, wins, id, v, cs, sp, cols);
    ShownFromBySync(h, v, cs, cols, r.cs, r.wins[id], y, x);
  }

  /** Widening row `r` over `lo .. hi` marks every cell in between changed. */
  lemma WidenDirty(w: Win, r: int, lo: int, hi: int)
    requires Shaped(w) && 0 <= r < w.maxy && 0 <= lo
    ensures RowDirty(Widen(w, r, lo, hi), r, lo, hi)
  {
  }

  /**
   * wchgat: ERR, with nothing changed, for a null window; otherwise the
   * restyling of WChgAtCallOutcome.
   */
  function WChgAtCall(h: Heap, wins: map<WinId, Win>, id: Option<WinId>, n: int, attr: Cell, color: Cell,
                      cs: Curscr, sp: Phys, cols: int): (r: Done)
    requires id.Some? ==> Ready(h, wins, id.value, cs, cols) && CursorIn(wins[id.value])
    ensures id.None? <==> r.status == ERR
    ensures id.None? ==> r == Done(ERR, h, wins, cs, sp, [])
    ensures id.Some? ==> SameShape(h, r.heap) && Ready(r.heap, r.wins, id.value, r.cs, cols)
  {
    if id.None? then Done(ERR, h, wins, cs, sp, [])
    else
      var w := wins[id.value];
      var d := Attr.WChgAt(h, w, n, attr, color);
      SyncReady(d.heap, wins, id.value, d.win, cs, sp, cols);
      Sync(d.heap, wins, id.value, d.win, cs, sp, cols)
  }

  /**
   * `w'` over `h'` holds the cells of `w` over `h`, those from the cursor
   * to wchgat's end position restyled: each keeps its character and
   * takes the new attributes and colour pair.
   */
  ghost predicate Restyled(h: Heap, w: Win, n: int, attr: Cell, color: Cell, h': Heap, w': Win)
    requires Backed(h, w) && Backed(h', w') && w'.maxy == w.maxy && w'.maxx == w.maxx
  {
    forall i, c :: 0 <= i < w.maxy && 0 <= c < w.maxx ==>
      Get(h', w', i, c) ==
        (if i == w.cury && w.curx <= c <= Attr.ChgAtEnd(w, n)
         then (Get(h, w, i, c) & A_CHARTEXT) | Attr.ChgAtAttr(attr, color)
         else Get(h, w, i, c))
  }

  /** Restyled depends only on the rows the window shows. */
  lemma RestyledCarry(h: Heap, w: Win, n: int, attr: Cell, color: Cell, h': Heap, a: Win, b: Win)
    requires Backed(h, w) && Wf(h', a) && Wf(h', b) && a.rows == b.rows && a.maxy == w.maxy && a.maxx == w.maxx
    requires b.maxy == w.maxy && b.maxx == w.maxx
    requires Restyled(h, w, n, attr, color, h', a)
    ensures Restyled(h, w, n, attr, color, h', b)
  {
    SameRowsCells(h', a, b);
  }

  /**
   * wchgat on a window, PDC_sync included: the cells from the cursor to
   * the end position restyled, the others as they were; the windows as
   * SyncedWins says for the cursor row's span widened over them.  With
   * immedok on a window that is no pad the restyled stretch is on curscr
   * at once; otherwise curscr, the terminal and the calls are untouched.
   */
  lemma WChgAtCallOutcome(h: Heap, wins: map<WinId, Win>, id: WinId, n: int, attr: Cell, color: Cell,
                          cs: Curscr, sp: Phys, cols: int)
    requires Ready(h, wins, id, cs, cols) && CursorIn(wins[id])
    ensures var r := WChgAtCall(h, wins, Some(id), n, attr, color, cs, sp, cols); var w := wins[id];
      SyncedWins(r.heap, wins, id, Widen(w, w.cury, w.curx, Attr.ChgAtEnd(w, n)), Immediate(w), r.wins) &&
      Restyled(h, w, n, attr, color, r.heap, r.wins[id]) &&
      (!Immediate(w) ==> r.cs == cs && r.sp == sp && r.paints == []) &&
      (Immediate(w) ==> RowShown(r.heap, r.wins[id], r.cs, w.cury, w.curx, Attr.ChgAtEnd(w, n)))
  {
    var w := wins[id];
    var d := Attr.WChgAt(h, w, n, attr, color);
    var r := WChgAtCall(h, wins, Some(id), n, attr, color, cs, sp, cols);
    SyncRows(d.heap, wins, id, d.win, cs, sp, cols);
    ChgAtDrawn(h, w, n, attr, color);
    RestyledCarry(h, w, n, attr, color, d.heap, d.win, r.wins[id]);
    if Immediate(w) {
      WidenDirty(w, w.cury, w.curx, Attr.ChgAtEnd(w, n));
      SyncRowShown(d.heap, wins, id, d.win, cs, sp, cols, w.cury, w.curx, Attr.ChgAtEnd(w, n));
    }
  }

  /**
   * wborder: ERR, with nothing changed, for a null window; otherwise the
   * border of WBorderCallOutcome.
   */
  function WBorderCall(h: Heap, wins: map<WinId, Win>, id: Option<WinId>, ls: Cell, rs: Cell, ts: Cell, bs: Cell,
                       tl: Cell, tr: Cell, bl: Cell, br: Cell, cs: Curscr, sp: Phys, cols: int): (r: Done)
    requires id.Some? ==> Ready(h, wins, id.value, cs, cols) && wins[id.value].maxy >= 1 && wins[id.value].maxx >= 1
    ensures id.None? <==> r.status == ERR
    ensures id.None? ==> r == Done(ERR, h, wins, cs, sp, [])
    ensures id.Some? ==> SameShape(h, r.heap) && Ready(r.heap, r.wins, id.value, r.cs, cols)
  {
    if id.None? then Done(ERR, h, wins, cs, sp, [])
    else
      var w := wins[id.value];
      var d := Border.WBorder(h, w, ls, rs, ts, bs, tl, tr, bl, br);
      SyncReady(d.heap, wins, id.value, d.win, cs, sp, cols);
      Sync(d.heap, wins, id.value, d.win, cs, sp, cols)
  }

  /** Border.Bordered depends only on the rows the window shows. */
  lemma BorderedCarry(h: Heap, w: Win, e: Border.Edges, h': Heap, a: Win, b: Win)
    requires Backed(h, w) && Wf(h', a) && Wf(h', b) && a.rows == b.rows && a.maxy == w.maxy && a.maxx == w.maxx
    requires b.maxy == w.maxy && b.maxx == w.maxx
    requires Border.Bordered(h, w, e, h', a)
    ensures Border.Bordered(h, w, e, h', b)
  {
    SameRowsCells(h', a, b);
  }

  /** touchwin marks every cell changed. */
  lemma TouchDirty(w: Win)
    requires Shaped(w)
    ensures DirtyFrom(TouchWin(w), 0, 0)
  {
  }

  /**
   * wborder on a window, PDC_sync included: the picture Border.Bordered
   * describes, every row touched; the windows as SyncedWins says.  With
   * immedok on a window that is no pad the whole window is on curscr at
   * once; otherwise curscr, the terminal and the calls are untouched.
   */
  lemma WBorderCallOutcome(h: Heap, wins: map<WinId, Win>, id: WinId, ls: Cell, rs: Cell, ts: Cell, bs: Cell,
                           tl: Cell, tr: Cell, bl: Cell, br: Cell, cs: Curscr, sp: Phys, cols: int)
    requires Ready(h, wins, id, cs, cols) && wins[id].maxy >= 1 && wins[id].maxx >= 1
    ensures var r := WBorderCall(h, wins, Some(id), ls, rs, ts, bs, tl, tr, bl, br, cs, sp, cols); var w := wins[id];
      SyncedWins(r.heap, wins, id, TouchWin(w), Immediate(w), r.wins) &&
      Border.Bordered(h, w, Border.BorderEdges(w, ls, rs, ts, bs, tl, tr, bl, br), r.heap, r.wins[id]) &&
      (!Immediate(w) ==> r.cs == cs && r.sp == sp && r.paints == []) &&
      (Immediate(w) ==> ShownFrom(r.heap, r.wins[id], r.cs, 0, 0))
  {
    var w := wins[id];
    var e := Border.BorderEdges(w, ls, rs, ts, bs, tl, tr, bl, br);
    var d := Border.WBorder(h, w, ls, rs, ts, bs, tl, tr, bl, br);
    var r := WBorderCall(h, wins, Some(id), ls, rs, ts, bs, tl, tr, bl, br, cs, sp, cols);
    BorderDrawn(h, w, ls, rs, ts, bs, tl, tr, bl, br);
    SyncRows(d.heap, wins, id, d.win, cs, sp, cols);
    BorderedCarry(h, w, e, d.heap, d.win, r.wins[id]);
    if Immediate(w) {
      WBorderCallShown(h, wins, id, ls, rs, ts, bs, tl, tr, bl, br, cs, sp, cols);
    }
  }

  /** wborder with immedok on a window that is no pad puts the whole window on curscr. */
  lemma WBorderCallShown(h: Heap, wins: map<WinId, Win>, id: WinId, ls: Cell, rs: Cell, ts: Cell, bs: Cell,
                         tl: Cell, tr: Cell, bl: Cell, br: Cell, cs: Curscr, sp: Phys, cols: int)
    requires Ready(h, wins, id, cs, cols) && wins[id].maxy >= 1 && wins[id].maxx >= 1 && Immediate(wins[id])
    ensures var r := WBorderCall(h, wins, Some(id), ls, rs, ts, bs, tl, tr, bl, br, cs, sp, cols);
      Backed(r.heap, r.wins[id]) && ShownFrom(r.heap, r.wins[id], r.cs, 0, 0)
  {
    var w := wins[id];
    var d := Border.WBorder(h, w, ls, rs, ts, bs, tl, tr, bl, br);
    BorderDrawn(h, w, ls, rs, ts, bs, tl, tr, bl, br);
    TouchDirty(w);
    SyncShownFrom(d.heap, wins, id, d.win, cs, sp, cols, 0, 0);
  }

  /**
   * whline: ERR, with nothing changed, for a null window or a length
   * below 1; otherwise the line of WHLineCallOutcome.
   */
  function WHLineCall(h: Heap, wins: map<WinId, Win>, id: Option<WinId>, ch: Cell, n: int,
                      cs: Curscr, sp: Phys, cols: int): (r: Done)
    requires id.Some? ==> Ready(h, wins, id.value, cs, cols) && CursorIn(wins[id.value])
    ensures id.None? || n < 1 <==> r.status == ERR
    ensures r.status == ERR ==> r == Done(ERR, h, wins, cs, sp, [])
    ensures r.status == OK ==> id.Some? && SameShape(h, r.heap) && Ready(r.heap, r.wins, id.value, r.cs, cols)
  {
    if id.None? || n < 1 then Done(ERR, h, wins, cs, sp, [])
    else
      var w := wins[id.value];
      var d := Border.WHLine(h, w, ch, n);
      SyncReady(d.heap, wins, id.value, d.win, cs, sp, cols);
      Sync(d.heap, wins, id.value, d.win, cs, sp, cols)
  }

  /**
   * `w'` over `h'` holds the cells of `w` over `h` with whline's line
   * drawn: from the cursor to the end position on the cursor row, the
   * character (ACS_HLINE for 0) rendered with the window's attributes.
   */
  ghost predicate HLined(h: Heap, w: Win, ch: Cell, n: int, h': Heap, w': Win)
    requires Backed(h, w) && Backed(h', w') && w'.maxy == w.maxy && w'.maxx == w.maxx
  {
    forall i, c :: 0 <= i < w.maxy && 0 <= c < w.maxx ==>
      Get(h', w', i, c) ==
        (if i == w.cury && w.curx <= c <= Border.HLineEnd(w, n)
         then Border.Passthru(w.attrs, w.bkgd, Border.OrDefault(ch, ACS_HLINE))
         else Get(h, w, i, c))
  }

  /** HLined depends only on the rows the window shows. */
  lemma HLinedCarry(h: Heap, w: Win, ch: Cell, n: int, h': Heap, a: Win, b: Win)
    requires Backed(h, w) && Wf(h', a) && Wf(h', b) && a.rows == b.rows && a.maxy == w.maxy && a.maxx == w.maxx
    requires b.maxy == w.maxy && b.maxx == w.maxx
    requires HLined(h, w, ch, n, h', a)
    ensures HLined(h, w, ch, n, h', b)
  {
    SameRowsCells(h', a, b);
  }

  /**
   * whline on a window with a length of at least 1, PDC_sync included:
   * the line drawn, the others cells as they were; the windows as
   * SyncedWins says for the cursor row's span widened over the line.
   * With immedok on a window that is no pad the line is on curscr at
   * once; otherwise curscr, the terminal and the calls are untouched.
   */
  lemma WHLineCallOutcome(h: Heap, wins: map<WinId, Win>, id: WinId, ch: Cell, n: int,
                          cs: Curscr, sp: Phys, cols: int)
    requires Ready(h, wins, id, cs, cols) && CursorIn(wins[id]) && n >= 1
    ensures var r := WHLineCall(h, wins, Some(id), ch, n, cs, sp, cols); var w := wins[id];
      SyncedWins(r.heap, wins, id, Widen(w, w.cury, w.curx, Border.HLineEnd(w, n)), Immediate(w), r.wins) &&
      HLined(h, w, ch, n, r.heap, r.wins[id]) &&
      (!Immediate(w) ==> r.cs == cs && r.sp == sp && r.paints == []) &&
      (Immediate(w) ==> RowShown(r.heap, r.wins[id], r.cs, w.cury, w.curx, Border.HLineEnd(w, n)))
  {
    var w := wins[id];
    var d := Border.WHLine(h, w, ch, n);
    var r := WHLineCall(h, wins, Some(id), ch, n, cs, sp, cols);
    SyncRows(d.heap, wins, id, d.win, cs, sp, cols);
    HLineDrawn(h, w, ch, n);
    HLinedCarry(h, w, ch, n, d.heap, d.win, r.wins[id]);
    if Immediate(w) {
      WidenDirty(w, w.cury, w.curx, Border.HLineEnd(w, n));
      SyncRowShown(d.heap, wins, id, d.win, cs, sp, cols, w.cury, w.curx, Border.HLineEnd(w, n));
    }
  }

  /**
   * wvline: ERR, with nothing changed, for a null window or a length
   * below 1; otherwise the line of WVLineCallOutcome.
   */
  function WVLineCall(h: Heap, wins: map<WinId, Win>, id: Option<WinId>, ch: Cell, n: int,
                      cs: Curscr, sp: Phys, cols: int): (r: Done)
    requires id.Some? ==> Ready(h, wins, id.value, cs, cols) && CursorIn(wins[id.value])
    ensures id.None? || n < 1 <==> r.status == ERR
    ensures r.status == ERR ==> r == Done(ERR, h, wins, cs, sp, [])
    ensures r.status == OK ==> id.Some? && SameShape(h, r.heap) && Ready(r.heap, r.wins, id.value, r.cs, cols)
  {
    if id.None? || n < 1 then Done(ERR, h, wins, cs, sp, [])
    else
      var w := wins[id.value];
      var d := Border.WVLine(h, w, ch, n);
      SyncReady(d.heap, wins, id.value, d.win, cs, sp, cols);
      Sync(d.heap, wins, id.value, d.win, cs, sp, cols)
  }

  /**
   * `w'` over `h'` holds the cells of `w` over `h` with wvline's line
   * drawn: in the cursor column from the cursor row down `n` rows or to
   * the bottom, the character (ACS_VLINE for 0) rendered with the
   * window's attributes.
   */
  ghost predicate VLined(h: Heap, w: Win, ch: Cell, n: int, h': Heap, w': Win)
    requires Backed(h, w) && Backed(h', w') && w'.maxy == w.maxy && w'.maxx == w.maxx
  {
    forall i, c :: 0 <= i < w.maxy && 0 <= c < w.maxx ==>
      Get(h', w', i, c) ==
        (if w.cury <= i < Min(w.cury + n, w.maxy) && c == w.curx
         then Border.Passthru(w.attrs, w.bkgd, Border.OrDefault(ch, ACS_VLINE))
         else Get(h, w, i, c))
  }

  /** VLined depends only on the rows the window shows. */
  lemma VLinedCarry(h: Heap, w: Win, ch: Cell, n: int, h': Heap, a: Win, b: Win)
    requires Backed(h, w) && Wf(h', a) && Wf(h', b) && a.rows == b.rows && a.maxy == w.maxy && a.maxx == w.maxx
    requires b.maxy == w.maxy && b.maxx == w.maxx
    requires VLined(h, w, ch, n, h', a)
    ensures VLined(h, w, ch, n, h', b)
  {
    SameRowsCells(h', a, b);
  }

  /**
   * wvline on a window with a length of at least 1, PDC_sync included:
   * the line drawn, the other cells as they were; the windows as
   * SyncedWins says for the spans of the drawn rows widened over the
   * cursor column.  With immedok on a window that is no pad the line is
   * on curscr at once; otherwise curscr, the terminal and the calls are
   * untouched.
   */
  lemma WVLineCallOutcome(h: Heap, wins: map<WinId, Win>, id: WinId, ch: Cell, n: int,
                          cs: Curscr, sp: Phys, cols: int)
    requires Ready(h, wins, id, cs, cols) && CursorIn(wins[id]) && n >= 1
    ensures var r := WVLineCall(h, wins, Some(id), ch, n, cs, sp, cols); var w := wins[id];
      SyncedWins(r.heap, wins, id, Border.VLineSpans(w, Min(w.cury + n, w.maxy)), Immediate(w), r.wins) &&
      VLined(h, w, ch, n, r.heap, r.wins[id]) &&
      (!Immediate(w) ==> r.cs == cs && r.sp == sp && r.paints == []) &&
      (Immediate(w) ==> ColumnShown(r.heap, r.wins[id], r.cs, w.curx, w.cury, Min(w.cury + n, w.maxy)))
  {
    var w := wins[id];
    var d := Border.WVLine(h, w, ch, n);
    var r := WVLineCall(h, wins, Some(id), ch, n, cs, sp, cols);
    SyncRows(d.heap, wins, id, d.win, cs, sp, cols);
    VLineDrawn(h, w, ch, n);
    VLinedCarry(h, w, ch, n, d.heap, d.win, r.wins[id]);
    if Immediate(w) {
      WVLineCallShown(h, wins, id, ch, n, cs, sp, cols);
    }
  }

  /** wvline with immedok on a window that is no pad puts the drawn stretch of the column on curscr. */
  lemma WVLineCallShown(h: Heap, wins: map<WinId, Win>, id: WinId, ch: Cell, n: int, cs: Curscr, sp: Phys, cols: int)
    requires Ready(h, wins, id, cs, cols) && CursorIn(wins[id]) && n >= 1 && Immediate(wins[id])
    ensures var r := WVLineCall(h, wins, Some(id), ch, n, cs, sp, cols); var w := wins[id];
      Backed(r.heap, r.wins[id]) && ColumnShown(r.heap, r.wins[id], r.cs, w.curx, w.cury, Min(w.cury + n, w.maxy))
  {
    var w := wins[id];
    var d := Border.WVLine(h, w, ch, n);
    VLineDrawn(h, w, ch, n);
    VLineDirty(h, w, Min(w.cury + n, w.maxy));
    SyncColumnShown(d.heap, wins, id, d.win, cs, sp, cols, w.curx, w.cury, Min(w.cury + n, w.maxy));
  }

  /**
   * wclrtoeol: ERR, with nothing changed, for a null window; otherwise
   * the clearing of WClrToEolCallOutcome.
   */
  function WClrToEolCall(h: Heap, wins: map<WinId, Win>, id: Option<WinId>, cs: Curscr, sp: Phys, cols: int): (r: Done)
    requires id.Some? ==> Ready(h, wins, id.value, cs, cols) && CursorIn(wins[id.value])
    ensures id.None? <==> r.status == ERR
    ensures id.None? ==> r == Done(ERR, h, wins, cs, sp, [])
    ensures id.Some? ==> SameShape(h, r.heap) && Ready(r.heap, r.wins, id.value, r.cs, cols)
  {
    if id.None? then Done(ERR, h, wins, cs, sp, [])
    else
      var w := wins[id.value];
      var d := Clear.WClrToEol(h, w);
      SyncReady(d.heap, wins, id.value, d.win, cs, sp, cols);
      Sync(d.heap, wins, id.value, d.win, cs, sp, cols)
  }

  /** `w'` over `h'` holds the cells of `w` over `h`, those from the cursor to the end of its row set to the background. */
  ghost predicate ClearedToEol(h: Heap, w: Win, h': Heap, w': Win)
    requires Backed(h, w) && Backed(h', w') && w'.maxy == w.maxy && w'.maxx == w.maxx
  {
    forall i, c :: 0 <= i < w.maxy && 0 <= c < w.maxx ==>
      Get(h', w', i, c) == (if i == w.cury && c >= w.curx then w.bkgd else Get(h, w, i, c))
  }

  /** ClearedToEol depends only on the rows the window shows. */
  lemma ClearedToEolCarry(h: Heap, w: Win, h': Heap, a: Win, b: Win)
    requires Backed(h, w) && Wf(h', a) && Wf(h', b) && a.rows == b.rows && a.maxy == w.maxy && a.maxx == w.maxx
    requires b.maxy == w.maxy && b.maxx == w.maxx
    requires ClearedToEol(h, w, h', a)
    ensures ClearedToEol(h, w, h', b)
  {
    SameRowsCells(h', a, b);
  }

  /**
   * wclrtoeol on a window, PDC_sync included: the cursor row blanked from
   * the cursor to the right edge, every other cell as it was; the windows
   * as SyncedWins says for the cursor row's span widened to the cursor
   * column and the right edge.  With immedok on a window that is no pad
   * the blanked stretch is on curscr at once; otherwise curscr, the
   * terminal and the calls are untouched.
   */
  lemma WClrToEolCallOutcome(h: Heap, wins: map<WinId, Win>, id: WinId, cs: Curscr, sp: Phys, cols: int)
    requires Ready(h, wins, id, cs, cols) && CursorIn(wins[id])
    ensures var r := WClrToEolCall(h, wins, Some(id), cs, sp, cols); var w := wins[id];
      SyncedWins(r.heap, wins, id, Widen(w, w.cury, w.curx, w.maxx - 1), Immediate(w), r.wins) &&
      ClearedToEol(h, w, r.heap, r.wins[id]) &&
      (!Immediate(w) ==> r.cs == cs && r.sp == sp && r.paints == []) &&
      (Immediate(w) ==> RowShown(r.heap, r.wins[id], r.cs, w.cury, w.curx, w.maxx - 1))
  {
    var w := wins[id];
    var d := Clear.WClrToEol(h, w);
    var r := WClrToEolCall(h, wins, Some(id), cs, sp, cols);
    ClrToEolWiden(h, w);
    SyncRows(d.heap, wins, id, d.win, cs, sp, cols);
    ClrToEolDrawn(h, w);
    ClearedToEolCarry(h, w, d.heap, d.win, r.wins[id]);
    if Immediate(w) {
      WidenDirty(w, w.cury, w.curx, w.maxx - 1);
      SyncRowShown(d.heap, wins, id, d.win, cs, sp, cols, w.cury, w.curx, w.maxx - 1);
    }
  }

  /** The window wclrtoeol leaves is its cursor row's span widened to the cursor column and the right edge. */
  lemma ClrToEolWiden(h: Heap, w: Win)
    requires Wf(h, w) && CursorIn(w)
    ensures Clear.WClrToEol(h, w).win == Widen(w, w.cury, w.curx, w.maxx - 1)
  {
    var v := Clear.WClrToEol(h, w).win;
    var u := Widen(w, w.cury, w.curx, w.maxx - 1);
    assert v.firstch == u.firstch;
    assert v.lastch == u.lastch;
  }

  /** Attr.WChgAt leaves the cells Restyled describes. */
  lemma ChgAtDrawn(h: Heap, w: Win, n: int, attr: Cell, color: Cell)
    requires Wf(h, w) && CursorIn(w)
    ensures var d := Attr.WChgAt(h, w, n, attr, color); Restyled(h, w, n, attr, color, d.heap, d.win)
  {
  }

  /** Border.WHLine with a length of at least 1 leaves the cells HLined describes. */
  lemma HLineDrawn(h: Heap, w: Win, ch: Cell, n: int)
    requires Wf(h, w) && CursorIn(w) && n >= 1
    ensures var d := Border.WHLine(h, w, ch, n); HLined(h, w, ch, n, d.heap, d.win)
  {
  }

  /** Border.WVLine with a length of at least 1 leaves the cells VLined describes. */
  lemma VLineDrawn(h: Heap, w: Win, ch: Cell, n: int)
    requires Wf(h, w) && CursorIn(w) && n >= 1
    ensures var d := Border.WVLine(h, w, ch, n);
      VLined(h, w, ch, n, d.heap, d.win) && d.win == Border.VLineSpans(w, Min(w.cury + n, w.maxy))
  {
  }

  /** wvline's spans mark the drawn stretch of the cursor column changed. */
  lemma VLineDirty(h: Heap, w: Win, endpos: int)
    requires Wf(h, w) && CursorIn(w) && endpos <= w.maxy
    ensures ColumnDirty(Border.VLineSpans(w, endpos), w.curx, w.cury, endpos)
  {
    Border.VLineSpansWf(h, w, endpos);
  }

  /** Clear.WClrToEol leaves the cells ClearedToEol describes. */
  lemma ClrToEolDrawn(h: Heap, w: Win)
    requires Wf(h, w) && CursorIn(w)
    ensures var d := Clear.WClrToEol(h, w); ClearedToEol(h, w, d.heap, d.win)
  {
  }

  /** Border.WBorder leaves the picture Border.Bordered describes, every row touched. */
  lemma BorderDrawn(h: Heap, w: Win, ls: Cell, rs: Cell, ts: Cell, bs: Cell, tl: Cell, tr: Cell, bl: Cell, br: Cell)
    requires Wf(h, w) && w.maxy >= 1 && w.maxx >= 1
    ensures var d := Border.WBorder(h, w, ls, rs, ts, bs, tl, tr, bl, br);
      Wf(d.heap, d.win) && d.win == TouchWin(w) &&
      Border.Bordered(h, w, Border.BorderEdges(w, ls, rs, ts, bs, tl, tr, bl, br), d.heap, d.win)
  {
  }
}
