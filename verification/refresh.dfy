/**
 * Two-phase refresh (refresh.c).  wnoutrefresh copies the changed part
 * of a window into curscr, the library's image of the terminal, and
 * widens curscr's change spans; doupdate sends each changed curscr row
 * to the platform's line painter and resets the spans.
 *
 * curscr is kept as its own record with its own lines: no window shares
 * its storage.  The platform calls doupdate makes are recorded as a
 * trace of Paint events, and `Apply` replays them on a model of the
 * terminal.
 */
module Refresh {
  import opened Base
  import opened Cells
  import opened Store
  import opened Windows

  /** curscr: its lines, change spans, cursor and clear flag. */
  datatype Curscr = Curscr(lines: seq<Line>, firstch: seq<int>, lastch: seq<int>, cury: int, curx: int, clear: bool)

  /** A curscr span: unchanged (both edges NO_CHANGE) or a non-empty run of columns. */
  predicate SpanOk(f: int, l: int, cols: int)
  {
    (f == NO_CHANGE && l == NO_CHANGE) || (0 <= f <= l < cols)
  }

  /** curscr has `cols` columns on every line and a span per line. */
  predicate ScreenOk(cs: Curscr, cols: int)
  {
    cols >= 0 && |cs.firstch| == |cs.lines| && |cs.lastch| == |cs.lines| &&
    (forall y :: 0 <= y < |cs.lines| ==> |cs.lines[y]| == cols) &&
    (forall y :: 0 <= y < |cs.lines| ==> SpanOk(cs.firstch[y], cs.lastch[y], cols))
  }

  /**
   * The window lies on the screen.  newwin checks only the far edges
   * (NewWinAsWrittenAboveScreen), so a window starting above or left of
   * the screen is not refreshed in this model; with the near edges
   * checked too, every window newwin builds lies on the screen
   * (NewWinPlacedOnScreen).
   */
  predicate OnScreen(w: Win, cs: Curscr, cols: int)
  {
    0 <= w.begy && w.begy + w.maxy <= |cs.lines| && 0 <= w.begx && w.begx + w.maxx <= cols
  }

  /**
   * newwin as written accepts an origin above the screen: one row and
   * column at row -1 of a 24 by 80 screen passes the guard, and no
   * curscr can hold the window, so wnoutrefresh would copy it into the
   * row before curscr's first.
   */
  lemma NewWinAsWrittenAboveScreen(st: Store, cs: Curscr, cols: int)
    ensures var r := NewWin(st, Dims(24, 80, 24, 80), 1, 1, -1, 0, true);
      r.0.Some? && r.1.wins[r.0.value].begy == -1 && !OnScreen(r.1.wins[r.0.value], cs, cols)
  {
  }

  /** newwin's guard with the near edges checked as well as the far ones. */
  predicate NewWinPlaced(d: Dims, nlines: int, ncols: int, begy: int, begx: int)
  {
    0 <= begy && 0 <= begx &&
    begy + NewWinExtent(nlines, d.lines - begy) <= d.spLines &&
    begx + NewWinExtent(ncols, d.cols - begx) <= d.spCols
  }

  /**
   * On a curscr the size of the physical screen, a window newwin builds
   * lies on the screen exactly when its origin is not above or left of
   * it, so every window that passes the corrected guard can be refreshed.
   */
  lemma NewWinPlacedOnScreen(st: Store, d: Dims, nlines: int, ncols: int, begy: int, begx: int, allocOk: bool,
                             cs: Curscr, cols: int)
    requires ScreenOk(cs, cols) && |cs.lines| == d.spLines && cols == d.spCols
    ensures var r := NewWin(st, d, nlines, ncols, begy, begx, allocOk);
      r.0.Some? ==> (OnScreen(r.1.wins[r.0.value], cs, cols) <==> 0 <= begy && 0 <= begx)
    ensures var r := NewWin(st, d, nlines, ncols, begy, begx, allocOk);
      r.0.Some? ==> (OnScreen(r.1.wins[r.0.value], cs, cols) <==> NewWinPlaced(d, nlines, ncols, begy, begx))
  {
  }

  /**
   * The first edge after skipping, from `first`, the columns where the
   * window row `src` already agrees with the screen row `dst`.
   */
  function TrimFirst(src: Line, dst: Line, first: int, last: int): (f: int)
    requires 0 <= first && last < |src| && |src| <= |dst|
    ensures first <= f && (f == first || f <= last + 1)
    ensures forall c :: first <= c < f ==> src[c] == dst[c]
    ensures f <= last ==> src[f] != dst[f]
    decreases last + 1 - first
  {
    if first <= last && src[first] == dst[first] then TrimFirst(src, dst, first + 1, last) else first
  }

  /** The last edge after skipping, down from `last`, the columns where the rows agree. */
  function TrimLast(src: Line, dst: Line, first: int, last: int): (l: int)
    requires 0 <= first && last < |src| && |src| <= |dst|
    ensures l <= last && (l == last || first - 1 <= l)
    ensures forall c :: l < c <= last ==> src[c] == dst[c]
    ensures first <= l ==> src[l] != dst[l]
    decreases last + 1 - first
  {
    if last >= first && src[last] == dst[last] then TrimLast(src, dst, first, last - 1) else last
  }

  /** A curscr line and its span after one window row was copied in. */
  datatype RowUpdate = RowUpdate(line: Line, first: int, last: int)

  /**
   * `u` is `line` (curscr span cf..cl) after copying in window row `src`
   * (change span wf..wl) at column `begx`: the line holds src on every
   * column of the window span, no column outside that span changed,
   * every changed column is inside the new curscr span, the span only
   * widened, and each edge it moved to is a changed column.
   */
  ghost predicate RowCopied(src: Line, line: Line, begx: int, wf: int, wl: int, cf: int, cl: int, u: RowUpdate)
    requires 0 <= begx && begx + |src| <= |line|
    requires wf == NO_CHANGE || (0 <= wf && NO_CHANGE <= wl < |src|)
  {
    |u.line| == |line| && SpanOk(u.first, u.last, |line|) &&
    (forall c :: wf != NO_CHANGE && wf <= c <= wl ==> u.line[begx + c] == src[c]) &&
    (forall c :: 0 <= c < |line| && u.line[c] != line[c] ==>
       wf != NO_CHANGE && begx + wf <= c <= begx + wl && u.first <= c <= u.last) &&
    (cf != NO_CHANGE ==> u.first <= cf && cl <= u.last) &&
    (u.first == cf || (u.first != NO_CHANGE && u.line[u.first] != line[u.first])) &&
    (u.last == cl || (u.last != NO_CHANGE && u.line[u.last] != line[u.last]))
  }

  /**
   * One iteration of wnoutrefresh's row loop: window row `src` (change
   * span wf..wl) goes to `line` at column `begx`, whose curscr span is
   * cf..cl.  The agreeing ends of the span are trimmed, the rest copied,
   * and the curscr span widened to the copied columns.
   */
  function RefreshRow(src: Line, line: Line, begx: nat, wf: int, wl: int, cf: int, cl: int): (u: RowUpdate)
    requires begx + |src| <= |line|
    requires wf == NO_CHANGE || (0 <= wf && NO_CHANGE <= wl < |src|)
    requires SpanOk(cf, cl, |line|)
    ensures wf == NO_CHANGE ==> u == RowUpdate(line, cf, cl)
    ensures RowCopied(src, line, begx, wf, wl, cf, cl, u)
  {
    if wf == NO_CHANGE then RowUpdate(line, cf, cl)
    else
      var dst := line[begx .. begx + |src|];
      var f := TrimFirst(src, dst, wf, wl);
      var l := TrimLast(src, dst, f, wl);
      if f <= l then CopyTrimmed(src, line, begx, wf, wl, cf, cl, f, l)
      else RowUpdate(line, cf, cl)
  }

  /** The copy of the trimmed span f..l and the curscr span widened to it. */
  function CopyTrimmed(src: Line, line: Line, begx: nat, wf: int, wl: int, cf: int, cl: int, f: int, l: int): (u: RowUpdate)
    requires begx + |src| <= |line| && 0 <= wf <= f <= l <= wl < |src|
    requires SpanOk(cf, cl, |line|)
    requires forall c :: wf <= c < f ==> src[c] == line[begx + c]
    requires forall c :: l < c <= wl ==> src[c] == line[begx + c]
    requires src[f] != line[begx + f] && src[l] != line[begx + l]
    ensures RowCopied(src, line, begx, wf, wl, cf, cl, u)
  {
    var line' := line[.. begx + f] + src[f .. l + 1] + line[begx + l + 1 ..];
    CopiedRow(src, line, begx, wf, wl, f, l, line');
    RowUpdate(line', WidenFirst(cf, f + begx), Max(l + begx, cl))
  }

  /** The copy of src[f..l] over the trimmed span agrees with src on the whole span and changes only columns f..l. */
  lemma CopiedRow(src: Line, line: Line, begx: nat, wf: int, wl: int, f: int, l: int, line': Line)
    requires begx + |src| <= |line| && 0 <= wf <= f <= l <= wl < |src|
    requires forall c :: wf <= c < f ==> src[c] == line[begx + c]
    requires forall c :: l < c <= wl ==> src[c] == line[begx + c]
    requires src[f] != line[begx + f] && src[l] != line[begx + l]
    requires line' == line[.. begx + f] + src[f .. l + 1] + line[begx + l + 1 ..]
    ensures |line'| == |line|
    ensures forall c :: wf <= c <= wl ==> line'[begx + c] == src[c]
    ensures forall c :: 0 <= c < |line| && line'[c] != line[c] ==> begx + f <= c <= begx + l
    ensures line'[begx + f] != line[begx + f] && line'[begx + l] != line[begx + l]
  {
    forall c | 0 <= c < |line|
      ensures line'[c] == (if begx + f <= c <= begx + l then src[c - begx] else line[c])
    {
    }
  }

  /** Row `j` of curscr after wnoutrefresh of `w`: rows the window covers go through RefreshRow. */
  function ScreenRow(h: Heap, w: Win, cs: Curscr, cols: int, j: int): (u: RowUpdate)
    requires Wf(h, w) && ScreenOk(cs, cols) && OnScreen(w, cs, cols) && 0 <= j < |cs.lines|
    ensures |u.line| == cols && SpanOk(u.first, u.last, cols)
  {
    var i := j - w.begy;
    if 0 <= i < w.maxy then
      RefreshRow(RowCells(h, w, i), cs.lines[j], w.begx, w.firstch[i], w.lastch[i], cs.firstch[j], cs.lastch[j])
    else
      RowUpdate(cs.lines[j], cs.firstch[j], cs.lastch[j])
  }

  /** Column `c` of window row `i` lies in the row's change span. */
  predicate Dirty(w: Win, i: int, c: int)
    requires Shaped(w)
  {
    0 <= i < w.maxy && w.firstch[i] != NO_CHANGE && w.firstch[i] <= c <= w.lastch[i]
  }

  /** Every window span NO_CHANGE: nothing to refresh. */
  predicate Clean(w: Win)
    requires Shaped(w)
  {
    forall i :: 0 <= i < w.maxy ==> w.firstch[i] == NO_CHANGE && w.lastch[i] == NO_CHANGE
  }

  /**
   * wnoutrefresh: ERR, with nothing changed, for a null window, a pad or
   * a subpad.  Otherwise (Refreshed) curscr holds the window's cell on
   * every column of every span that was marked changed, and no other
   * curscr cell changes; curscr's spans only widen, and widen exactly to
   * the cells that changed.  Every window span becomes NO_CHANGE and the
   * clear flag is dropped; curscr's cursor follows the window's unless
   * the window has leaveok set.
   */
  function WNoutRefresh(h: Heap, w: Option<Win>, cs: Curscr, cols: int): (r: (Status, Option<Win>, Curscr))
    requires ScreenOk(cs, cols)
    requires w.Some? ==> Wf(h, w.value) && OnScreen(w.value, cs, cols)
    ensures r.0 == ERR <==> w.None? || w.value.flags & (PAD | SUBPAD) != 0
    ensures r.0 == ERR ==> r.1 == w && r.2 == cs
    ensures r.0 == OK ==> r.1.Some? && Refreshed(h, w.value, cs, cols, r.1.value, r.2)
  {
    if w.None? || w.value.flags & (PAD | SUBPAD) != 0 then (ERR, w, cs)
    else
      var v := w.value;
      var v' := v.(firstch := Repeat(NO_CHANGE, v.maxy as nat), lastch := Repeat(NO_CHANGE, v.maxy as nat), clear := false);
      (OK, Some(v'), CopyIn(h, v, cs, cols))
  }

  /** curscr after copying `w` in, row by row, with the cursor moved to the window's unless leaveok is set. */
  function CopyIn(h: Heap, w: Win, cs: Curscr, cols: int): (cs': Curscr)
    requires ScreenOk(cs, cols) && Wf(h, w) && OnScreen(w, cs, cols)
    ensures ScreenRefreshed(h, w, cs, cols, cs') && cs'.clear == cs.clear
    ensures (cs'.cury, cs'.curx) == (if w.leaveit then (cs.cury, cs.curx) else (w.cury + w.begy, w.curx + w.begx))
  {
    var ups := seq(|cs.lines|, j requires 0 <= j < |cs.lines| => ScreenRow(h, w, cs, cols, j));
    var cs' := cs.(lines := seq(|ups|, j requires 0 <= j < |ups| => ups[j].line),
                   firstch := seq(|ups|, j requires 0 <= j < |ups| => ups[j].first),
                   lastch := seq(|ups|, j requires 0 <= j < |ups| => ups[j].last),
                   cury := if w.leaveit then cs.cury else w.cury + w.begy,
                   curx := if w.leaveit then cs.curx else w.curx + w.begx);
    RefreshedRows(h, w, cs, cols, cs');
    cs'
  }

  /** What a successful wnoutrefresh of `w` leaves: the window `w'` and curscr `cs'`. */
  ghost predicate Refreshed(h: Heap, w: Win, cs: Curscr, cols: int, w': Win, cs': Curscr)
    requires Wf(h, w) && ScreenOk(cs, cols) && OnScreen(w, cs, cols)
  {
    ScreenRefreshed(h, w, cs, cols, cs') && cs'.clear == cs.clear &&
    Shaped(w') && Clean(w') && w' == w.(firstch := w'.firstch, lastch := w'.lastch, clear := false) &&
    (cs'.cury, cs'.curx) == (if w.leaveit then (cs.cury, cs.curx) else (w.cury + w.begy, w.curx + w.begx))
  }

  /** curscr's lines and spans after copying `w` in, row by row. */
  ghost predicate ScreenRefreshed(h: Heap, w: Win, cs: Curscr, cols: int, cs': Curscr)
    requires Wf(h, w) && ScreenOk(cs, cols) && OnScreen(w, cs, cols)
  {
    ScreenOk(cs', cols) && |cs'.lines| == |cs.lines| &&
    forall j :: 0 <= j < |cs.lines| ==>
      RowRefreshed(h, w, cs, j, RowUpdate(cs'.lines[j], cs'.firstch[j], cs'.lastch[j]))
  }

  /**
   * Curscr row `j` after copying `w` in: for the window row `i` it shows,
   * RowCopied from that row and its span; any other row is unchanged.
   */
  ghost predicate RowRefreshed(h: Heap, w: Win, cs: Curscr, j: int, u: RowUpdate)
    requires Wf(h, w) && |cs.firstch| == |cs.lines| && |cs.lastch| == |cs.lines| && 0 <= j < |cs.lines|
    requires 0 <= w.begx && (0 <= j - w.begy < w.maxy ==> w.begx + w.maxx <= |cs.lines[j]|)
  {
    var i := j - w.begy;
    if 0 <= i < w.maxy then
      RowCopied(RowCells(h, w, i), cs.lines[j], w.begx, w.firstch[i], w.lastch[i], cs.firstch[j], cs.lastch[j], u)
    else
      u == RowUpdate(cs.lines[j], cs.firstch[j], cs.lastch[j])
  }

  /** Row-by-row facts about ScreenRow, assembled into ScreenRefreshed. */
  lemma RefreshedRows(h: Heap, w: Win, cs: Curscr, cols: int, cs': Curscr)
    requires Wf(h, w) && ScreenOk(cs, cols) && OnScreen(w, cs, cols)
    requires |cs'.lines| == |cs.lines| && |cs'.firstch| == |cs.lines| && |cs'.lastch| == |cs.lines|
    requires forall j :: 0 <= j < |cs.lines| ==>
      RowUpdate(cs'.lines[j], cs'.firstch[j], cs'.lastch[j]) == ScreenRow(h, w, cs, cols, j)
    ensures ScreenRefreshed(h, w, cs, cols, cs')
  {
  }

  /** Column `c` of curscr row `y` lies in the row's change span. */
  predicate InSpan(cs: Curscr, y: int, c: int)
    requires 0 <= y < |cs.firstch| && |cs.lastch| == |cs.firstch|
  {
    cs.firstch[y] != NO_CHANGE && cs.firstch[y] <= c <= cs.lastch[y]
  }

  /**
   * The terminal `term` shows curscr everywhere outside curscr's change
   * spans: what doupdate relies on to paint only the spans.
   */
  ghost predicate Synced(term: seq<Line>, cs: Curscr)
    requires |cs.firstch| == |cs.lines| && |cs.lastch| == |cs.lines|
  {
    |term| == |cs.lines| &&
    (forall y :: 0 <= y < |term| ==> |term[y]| == |cs.lines[y]|) &&
    forall y, c :: 0 <= y < |term| && 0 <= c < |term[y]| && !InSpan(cs, y, c) ==> term[y][c] == cs.lines[y][c]
  }

  /**
   * wnoutrefresh keeps the terminal in step with curscr outside the
   * spans: whatever it copies into curscr lies inside curscr's widened
   * spans.
   */
  lemma RefreshKeepsSynced(h: Heap, w: Win, cs: Curscr, cols: int, term: seq<Line>)
    requires Wf(h, w) && ScreenOk(cs, cols) && OnScreen(w, cs, cols) && w.flags & (PAD | SUBPAD) == 0
    requires Synced(term, cs)
    ensures var cs' := WNoutRefresh(h, Some(w), cs, cols).2;
      |cs'.firstch| == |cs'.lines| && |cs'.lastch| == |cs'.lines| && Synced(term, cs')
  {
    var cs' := WNoutRefresh(h, Some(w), cs, cols).2;
    forall y, c | 0 <= y < |term| && 0 <= c < |term[y]| && !InSpan(cs', y, c)
      ensures term[y][c] == cs'.lines[y][c]
    {
      RowKeepsSynced(h, w, cs, y, RowUpdate(cs'.lines[y], cs'.firstch[y], cs'.lastch[y]), c);
    }
  }

  /** One curscr row of RefreshKeepsSynced: a column outside the new span was outside the old one and did not change. */
  lemma RowKeepsSynced(h: Heap, w: Win, cs: Curscr, y: int, u: RowUpdate, c: int)
    requires Wf(h, w) && |cs.firstch| == |cs.lines| && |cs.lastch| == |cs.lines| && 0 <= y < |cs.lines|
    requires 0 <= w.begx && (0 <= y - w.begy < w.maxy ==> w.begx + w.maxx <= |cs.lines[y]|)
    requires SpanOk(cs.firstch[y], cs.lastch[y], |cs.lines[y]|)
    requires RowRefreshed(h, w, cs, y, u) && 0 <= c < |cs.lines[y]|
    requires !(u.first != NO_CHANGE && u.first <= c <= u.last)
    ensures !InSpan(cs, y, c) && |u.line| == |cs.lines[y]| && u.line[c] == cs.lines[y][c]
  {
  }

  /**
   * A window with every span NO_CHANGE copies nothing: wnoutrefresh
   * leaves curscr's lines and spans as they are.
   */
  lemma RefreshCleanCopiesNothing(h: Heap, w: Win, cs: Curscr, cols: int)
    requires Wf(h, w) && ScreenOk(cs, cols) && OnScreen(w, cs, cols) && w.flags & (PAD | SUBPAD) == 0
    requires Clean(w)
    ensures var cs' := WNoutRefresh(h, Some(w), cs, cols).2;
      cs'.lines == cs.lines && cs'.firstch == cs.firstch && cs'.lastch == cs.lastch
  {
    var cs' := WNoutRefresh(h, Some(w), cs, cols).2;
    forall y | 0 <= y < |cs.lines|
      ensures cs'.lines[y] == cs.lines[y] && cs'.firstch[y] == cs.firstch[y] && cs'.lastch[y] == cs.lastch[y]
    {
      CleanRowUnchanged(h, w, cs, y, RowUpdate(cs'.lines[y], cs'.firstch[y], cs'.lastch[y]));
    }
  }

  /** A window row with no change leaves its curscr row and span as they were. */
  lemma CleanRowUnchanged(h: Heap, w: Win, cs: Curscr, y: int, u: RowUpdate)
    requires Wf(h, w) && |cs.firstch| == |cs.lines| && |cs.lastch| == |cs.lines| && 0 <= y < |cs.lines|
    requires 0 <= w.begx && (0 <= y - w.begy < w.maxy ==> w.begx + w.maxx <= |cs.lines[y]|)
    requires SpanOk(cs.firstch[y], cs.lastch[y], |cs.lines[y]|)
    requires Clean(w) && RowRefreshed(h, w, cs, y, u)
    ensures u == RowUpdate(cs.lines[y], cs.firstch[y], cs.lastch[y])
  {
    var i := y - w.begy;
    if 0 <= i < w.maxy {
      assert w.firstch[i] == NO_CHANGE;
      assert u.line == cs.lines[y];
    }
  }

  /**
   * wnoutrefresh twice in a row: the second call finds every span
   * NO_CHANGE and copies nothing more.
   */
  lemma WNoutRefreshTwice(h: Heap, w: Win, cs: Curscr, cols: int)
    requires Wf(h, w) && ScreenOk(cs, cols) && OnScreen(w, cs, cols) && w.flags & (PAD | SUBPAD) == 0
    ensures var (_, w1, cs1) := WNoutRefresh(h, Some(w), cs, cols);
      w1.Some? && Wf(h, w1.value) && OnScreen(w1.value, cs1, cols) && ScreenOk(cs1, cols) &&
      var (_, w2, cs2) := WNoutRefresh(h, w1, cs1, cols);
      w2 == w1 && cs2.lines == cs1.lines && cs2.firstch == cs1.firstch && cs2.lastch == cs1.lastch
  {
    var (_, w1, cs1) := WNoutRefresh(h, Some(w), cs, cols);
    var v := w1.value;
    assert Wf(h, v) by {
      assert SpansIn(v);
    }
    RefreshCleanCopiesNothing(h, v, cs1, cols);
    var (_, w2, cs2) := WNoutRefresh(h, w1, cs1, cols);
    assert w2.value == v.(firstch := w2.value.firstch, lastch := w2.value.lastch, clear := false);
    assert w2.value.firstch == v.firstch;
    assert w2.value.lastch == v.lastch;
  }

  /** A call doupdate makes into the platform layer. */
  datatype Paint =
    | PaintLine(y: int, x: int, cells: seq<Cell>)  // PDC_transform_line
    | GotoYX(y: int, x: int)                       // PDC_gotoyx
    | ResetProgMode                                // reset_prog_mode

  /** The terminal state doupdate reads and writes besides curscr. */
  datatype Phys = Phys(alive: bool, visibility: int, cursrow: int, curscol: int)

  /** One platform call replayed on the terminal's lines; only PaintLine changes them. */
  function ApplyPaint(term: seq<Line>, p: Paint): (t: seq<Line>)
    ensures |t| == |term| && forall y :: 0 <= y < |term| ==> |t[y]| == |term[y]|
    ensures forall y :: 0 <= y < |term| && !(p.PaintLine? && p.y == y) ==> t[y] == term[y]
  {
    if p.PaintLine? && 0 <= p.y < |term| && 0 <= p.x && p.x + |p.cells| <= |term[p.y]| then
      term[p.y := term[p.y][..p.x] + p.cells + term[p.y][p.x + |p.cells|..]]
    else term
  }

  /** A trace of platform calls replayed in order. */
  function Apply(term: seq<Line>, ps: seq<Paint>): (t: seq<Line>)
    ensures |t| == |term| && forall y :: 0 <= y < |term| ==> |t[y]| == |term[y]|
    decreases |ps|
  {
    if ps == [] then term else Apply(ApplyPaint(term, ps[0]), ps[1..])
  }

  /** Replaying two traces one after the other is replaying their concatenation. */
  lemma {:induction false} ApplyAppend(term: seq<Line>, a: seq<Paint>, b: seq<Paint>)
    ensures Apply(term, a + b) == Apply(Apply(term, a), b)
    decreases |a|
  {
    if a != [] {
      assert (a + b)[0] == a[0] && (a + b)[1..] == a[1..] + b;
      ApplyAppend(ApplyPaint(term, a[0]), a[1..], b);
    } else {
      assert a + b == b;
    }
  }

  /** Replaying a trace that starts with `p`. */
  lemma ApplyCons(term: seq<Line>, p: Paint, ps: seq<Paint>)
    ensures Apply(term, [p] + ps) == Apply(ApplyPaint(term, p), ps)
  {
    assert ([p] + ps)[0] == p && ([p] + ps)[1..] == ps;
  }

  /** A trace with no PaintLine leaves the terminal's lines alone. */
  lemma {:induction false} ApplyNoPaint(term: seq<Line>, ps: seq<Paint>)
    requires forall k :: 0 <= k < |ps| ==> !ps[k].PaintLine?
    ensures Apply(term, ps) == term
    decreases |ps|
  {
    if ps != [] {
      ApplyNoPaint(term, ps[1..]);
    }
  }

  /** The columns doupdate sends for curscr row `y`: the whole row when repainting everything, otherwise its span. */
  function PaintSpan(cs: Curscr, cols: int, clearall: bool, y: int): (e: (int, int))
    requires ScreenOk(cs, cols) && 0 <= y < |cs.lines|
  {
    if clearall then (0, cols - 1) else (cs.firstch[y], cs.lastch[y])
  }

  /** Row `y` is sent to the painter: it is selected and its run is not empty. */
  predicate Painted(cs: Curscr, cols: int, clearall: bool, y: int)
    requires ScreenOk(cs, cols) && 0 <= y < |cs.lines|
  {
    (clearall || cs.firstch[y] != NO_CHANGE) && PaintSpan(cs, cols, clearall, y).1 - PaintSpan(cs, cols, clearall, y).0 + 1 != 0
  }

  /**
   * `p` is how doupdate sends a curscr row: a PDC_transform_line call for
   * a row that needs it, carrying curscr's own cells over exactly the
   * run PaintSpan selects (the whole row, or the row's span).
   */
  predicate Sends(cs: Curscr, cols: int, clearall: bool, p: Paint)
    requires ScreenOk(cs, cols)
  {
    p.PaintLine? && 0 <= p.y < |cs.lines| && Painted(cs, cols, clearall, p.y) &&
    (p.x, p.x + |p.cells| - 1) == PaintSpan(cs, cols, clearall, p.y) &&
    0 <= p.x && p.x + |p.cells| <= cols && p.cells == cs.lines[p.y][p.x .. p.x + |p.cells|]
  }

  /**
   * The PDC_transform_line calls of doupdate's row loop from row `y` on,
   * one per row that needs it, in row order.
   */
  function PaintRows(cs: Curscr, cols: int, clearall: bool, y: nat): (ps: seq<Paint>)
    requires ScreenOk(cs, cols) && y <= |cs.lines|
    ensures forall k :: 0 <= k < |ps| ==> Sends(cs, cols, clearall, ps[k]) && y <= ps[k].y
    decreases |cs.lines| - y
  {
    if y == |cs.lines| then []
    else
      var (first, last) := PaintSpan(cs, cols, clearall, y);
      var rest := PaintRows(cs, cols, clearall, y + 1);
      if Painted(cs, cols, clearall, y) then [PaintLine(y, first, cs.lines[y][first .. last + 1])] + rest
      else rest
  }

  /**
   * The terminal row `y` agrees with curscr wherever doupdate will not
   * paint it: everywhere outside the row's span, or nowhere in
   * particular when repainting everything.
   */
  ghost predicate RowSynced(term: seq<Line>, cs: Curscr, cols: int, clearall: bool, y: int)
    requires ScreenOk(cs, cols) && 0 <= y < |cs.lines| && |term| == |cs.lines|
  {
    |term[y]| == cols &&
    forall c :: 0 <= c < cols && !clearall && !InSpan(cs, y, c) ==> term[y][c] == cs.lines[y][c]
  }

  /** Painting row `y`'s run over a row that agrees elsewhere yields curscr's row. */
  lemma RowPainted(term: seq<Line>, cs: Curscr, cols: int, clearall: bool, y: int)
    requires ScreenOk(cs, cols) && 0 <= y < |cs.lines| && |term| == |cs.lines|
    requires RowSynced(term, cs, cols, clearall, y) && Painted(cs, cols, clearall, y)
    ensures var (first, last) := PaintSpan(cs, cols, clearall, y);
      0 <= first <= last + 1 <= cols &&
      ApplyPaint(term, PaintLine(y, first, cs.lines[y][first .. last + 1]))[y] == cs.lines[y]
  {
    var (first, last) := PaintSpan(cs, cols, clearall, y);
    var row := ApplyPaint(term, PaintLine(y, first, cs.lines[y][first .. last + 1]))[y];
    assert row == term[y][..first] + cs.lines[y][first .. last + 1] + term[y][last + 1..];
    forall c | 0 <= c < cols
      ensures row[c] == cs.lines[y][c]
    {
      if c < first || c > last {
        assert !InSpan(cs, y, c);
      }
    }
  }

  /** A row doupdate does not paint already agrees with curscr. */
  lemma RowUnpainted(term: seq<Line>, cs: Curscr, cols: int, clearall: bool, y: int)
    requires ScreenOk(cs, cols) && 0 <= y < |cs.lines| && |term| == |cs.lines|
    requires RowSynced(term, cs, cols, clearall, y) && !Painted(cs, cols, clearall, y)
    ensures term[y] == cs.lines[y]
  {
    forall c | 0 <= c < cols
      ensures term[y][c] == cs.lines[y][c]
    {
      assert !clearall && !InSpan(cs, y, c);
    }
  }

  /**
   * Replaying the row loop from row `y` on a terminal whose rows agree
   * with curscr outside the spans (or on any terminal of the right
   * shape, when repainting everything) leaves rows `y ..` showing
   * curscr and the rows above untouched.
   */
  lemma {:induction false} PaintRowsShow(term: seq<Line>, cs: Curscr, cols: int, clearall: bool, y: nat)
    requires ScreenOk(cs, cols) && y <= |cs.lines| && |term| == |cs.lines|
    requires forall r :: y <= r < |term| ==> RowSynced(term, cs, cols, clearall, r)
    ensures var t := Apply(term, PaintRows(cs, cols, clearall, y));
      (forall r :: 0 <= r < y ==> t[r] == term[r]) && (forall r :: y <= r < |t| ==> t[r] == cs.lines[r])
    decreases |cs.lines| - y
  {
    if y < |cs.lines| {
      var term1 := PaintRowStep(term, cs, cols, clearall, y);
      PaintRowsShow(term1, cs, cols, clearall, y + 1);
      var t := Apply(term1, PaintRows(cs, cols, clearall, y + 1));
      assert t == Apply(term, PaintRows(cs, cols, clearall, y));
      forall r | 0 <= r < y ensures t[r] == term[r] {
        assert t[r] == term1[r];
      }
      forall r | y <= r < |t| ensures t[r] == cs.lines[r] {
        if r == y {
          assert t[y] == term1[y];
        }
      }
    } else {
      assert PaintRows(cs, cols, clearall, y) == [];
    }
  }

  /**
   * One turn of the row loop: row `y` is painted, or left alone, so that
   * it shows curscr's row; the other rows are untouched and so stay in
   * step with curscr outside the spans.
   */
  lemma PaintRowStep(term: seq<Line>, cs: Curscr, cols: int, clearall: bool, y: nat) returns (term1: seq<Line>)
    requires ScreenOk(cs, cols) && y < |cs.lines| && |term| == |cs.lines|
    requires forall r :: y <= r < |term| ==> RowSynced(term, cs, cols, clearall, r)
    ensures Apply(term, PaintRows(cs, cols, clearall, y)) == Apply(term1, PaintRows(cs, cols, clearall, y + 1))
    ensures |term1| == |term| && term1[y] == cs.lines[y]
    ensures forall r :: 0 <= r < |term| && r != y ==> term1[r] == term[r]
    ensures forall r :: y + 1 <= r < |term| ==> RowSynced(term1, cs, cols, clearall, r)
  {
    var rest := PaintRows(cs, cols, clearall, y + 1);
    if Painted(cs, cols, clearall, y) {
      var (first, last) := PaintSpan(cs, cols, clearall, y);
      var p := PaintLine(y, first, cs.lines[y][first .. last + 1]);
      assert PaintRows(cs, cols, clearall, y) == [p] + rest;
      ApplyCons(term, p, rest);
      RowPainted(term, cs, cols, clearall, y);
      term1 := ApplyPaint(term, p);
      forall r | y + 1 <= r < |term|
        ensures RowSynced(term1, cs, cols, clearall, r)
      {
        assert term1[r] == term[r];
        assert RowSynced(term, cs, cols, clearall, r);
      }
    } else {
      RowUnpainted(term, cs, cols, clearall, y);
      term1 := term;
    }
  }

  /** curscr's spans after doupdate's row loop: every row it visits is reset to NO_CHANGE. */
  function ResetSpans(cs: Curscr, cols: int, clearall: bool, f: seq<int>): (f': seq<int>)
    requires ScreenOk(cs, cols) && |f| == |cs.lines|
    ensures |f'| == |f|
    ensures forall y :: 0 <= y < |f| ==> f'[y] == (if clearall || cs.firstch[y] != NO_CHANGE then NO_CHANGE else f[y])
  {
    seq(|f|, y requires 0 <= y < |f| => if clearall || cs.firstch[y] != NO_CHANGE then NO_CHANGE else f[y])
  }

  /**
   * doupdate: ERR, with nothing changed, when there is no curscr.
   * Otherwise, after endwin (the terminal not alive) it first resets the
   * program mode and repaints every row in full; it also repaints in
   * full when curscr's clear flag is set, and otherwise sends each
   * changed row's span.  Afterwards curscr's lines and cursor are as
   * they were, every span is NO_CHANGE and the clear flag is down; the
   * terminal is alive, its recorded cursor is curscr's, and the cursor
   * is moved there when it is visible.
   */
  function DoUpdate(cs: Option<Curscr>, sp: Phys, cols: int): (r: (Status, Option<Curscr>, Phys, seq<Paint>))
    requires cs.Some? ==> ScreenOk(cs.value, cols)
    ensures r.0 == ERR <==> cs.None?
    ensures r.0 == ERR ==> r.1 == cs && r.2 == sp && r.3 == []
    ensures r.0 == OK ==> r.1.Some? && Updated(cs.value, cols, r.1.value)
    ensures r.0 == OK ==> r.2 == sp.(alive := true, cursrow := cs.value.cury, curscol := cs.value.curx)
    ensures r.0 == OK ==> Trace(cs.value, sp, cols, r.3)
  {
    if cs.None? then (ERR, cs, sp, [])
    else
      var c := cs.value;
      var clearall := !sp.alive || c.clear;
      var reset := if !sp.alive then [ResetProgMode] else [];
      var rows := PaintRows(c, cols, clearall, 0);
      var cursor := if sp.visibility != 0 then [GotoYX(c.cury, c.curx)] else [];
      var c' := c.(firstch := ResetSpans(c, cols, clearall, c.firstch),
                   lastch := ResetSpans(c, cols, clearall, c.lastch),
                   clear := false);
      TraceParts(c, sp, cols, reset, rows, cursor);
      (OK, Some(c'), sp.(alive := true, cursrow := c.cury, curscol := c.curx), reset + rows + cursor)
  }

  /**
   * The platform calls of one doupdate: reset_prog_mode first exactly
   * when coming back after endwin, the cursor move last exactly when the
   * cursor is visible, and in between PDC_transform_line calls as Sends
   * describes.
   */
  predicate Trace(cs: Curscr, sp: Phys, cols: int, ps: seq<Paint>)
    requires ScreenOk(cs, cols)
  {
    (!sp.alive <==> |ps| > 0 && ps[0] == ResetProgMode) &&
    (sp.visibility != 0 <==> |ps| > 0 && ps[|ps| - 1] == GotoYX(cs.cury, cs.curx)) &&
    forall k :: 0 <= k < |ps| && ps[k].PaintLine? ==> Sends(cs, cols, !sp.alive || cs.clear, ps[k])
  }

  /** doupdate's trace assembled from the reset, the row loop and the cursor move. */
  lemma TraceParts(cs: Curscr, sp: Phys, cols: int, reset: seq<Paint>, rows: seq<Paint>, cursor: seq<Paint>)
    requires ScreenOk(cs, cols)
    requires reset == if !sp.alive then [ResetProgMode] else []
    requires forall k :: 0 <= k < |rows| ==> Sends(cs, cols, !sp.alive || cs.clear, rows[k])
    requires cursor == if sp.visibility != 0 then [GotoYX(cs.cury, cs.curx)] else []
    ensures Trace(cs, sp, cols, reset + rows + cursor)
  {
    var ps := reset + rows + cursor;
    forall k | 0 <= k < |ps| && ps[k].PaintLine?
      ensures Sends(cs, cols, !sp.alive || cs.clear, ps[k])
    {
      assert k >= |reset| && k < |reset| + |rows| && ps[k] == rows[k - |reset|];
    }
    if |rows| > 0 {
      assert Sends(cs, cols, !sp.alive || cs.clear, rows[0]);
      assert Sends(cs, cols, !sp.alive || cs.clear, rows[|rows| - 1]);
    }
  }

  /** curscr after doupdate: the same lines and cursor, no spans and no clear flag. */
  predicate Updated(cs: Curscr, cols: int, cs': Curscr)
  {
    ScreenOk(cs', cols) && cs'.lines == cs.lines && cs'.cury == cs.cury && cs'.curx == cs.curx && !cs'.clear &&
    forall y :: 0 <= y < |cs'.lines| ==> cs'.firstch[y] == NO_CHANGE && cs'.lastch[y] == NO_CHANGE
  }

  /**
   * doupdate brings the terminal up to date: replaying its calls on a
   * terminal that agrees with curscr outside the spans (or on any
   * terminal of the screen's shape, when it repaints everything) leaves
   * the terminal showing exactly curscr's lines, and in step with the
   * curscr doupdate leaves.
   */
  lemma DoUpdateShows(cs: Curscr, sp: Phys, cols: int, term: seq<Line>)
    requires ScreenOk(cs, cols) && |term| == |cs.lines| && (forall y :: 0 <= y < |term| ==> |term[y]| == cols)
    requires !sp.alive || cs.clear || Synced(term, cs)
    ensures var (_, cs', _, ps) := DoUpdate(Some(cs), sp, cols);
      Apply(term, ps) == cs.lines && cs'.Some? && Synced(Apply(term, ps), cs'.value)
  {
    var clearall := !sp.alive || cs.clear;
    var reset: seq<Paint> := if !sp.alive then [ResetProgMode] else [];
    var rows := PaintRows(cs, cols, clearall, 0);
    var cursor: seq<Paint> := if sp.visibility != 0 then [GotoYX(cs.cury, cs.curx)] else [];
    assert DoUpdate(Some(cs), sp, cols).3 == reset + rows + cursor;
    ApplyAppend(term, reset + rows, cursor);
    ApplyAppend(term, reset, rows);
    ApplyNoPaint(term, reset);
    AllRowsShow(term, cs, cols, clearall);
    ApplyNoPaint(Apply(term, rows), cursor);
  }

  /** The whole row loop over a terminal whose every row is RowSynced yields curscr's lines. */
  lemma AllRowsShow(term: seq<Line>, cs: Curscr, cols: int, clearall: bool)
    requires ScreenOk(cs, cols) && |term| == |cs.lines| && (forall y :: 0 <= y < |term| ==> |term[y]| == cols)
    requires clearall || Synced(term, cs)
    ensures Apply(term, PaintRows(cs, cols, clearall, 0)) == cs.lines
  {
    forall r | 0 <= r < |term|
      ensures RowSynced(term, cs, cols, clearall, r)
    {
    }
    PaintRowsShow(term, cs, cols, clearall, 0);
  }

  /**
   * doupdate twice in a row: the second call paints nothing, so the
   * terminal keeps what the first left (it may still move the cursor).
   */
  lemma DoUpdateTwice(cs: Curscr, sp: Phys, cols: int, term: seq<Line>)
    requires ScreenOk(cs, cols)
    ensures var (_, cs1, sp1, _) := DoUpdate(Some(cs), sp, cols);
      cs1.Some? && ScreenOk(cs1.value, cols) &&
      var ps2 := DoUpdate(cs1, sp1, cols).3;
      (forall k :: 0 <= k < |ps2| ==> !ps2[k].PaintLine?) && Apply(term, ps2) == term
  {
    var (_, cs1, sp1, _) := DoUpdate(Some(cs), sp, cols);
    var ps2 := DoUpdate(cs1, sp1, cols).3;
    forall k | 0 <= k < |ps2|
      ensures !ps2[k].PaintLine?
    {
      if ps2[k].PaintLine? {
        assert false;
      }
    }
    ApplyNoPaint(term, ps2);
  }

  /** After wnoutrefresh, curscr holds the window's cell at every dirty position of the window. */
  lemma RefreshCopiesDirty(h: Heap, w: Win, cs: Curscr, cols: int, i: int, c: int)
    requires Wf(h, w) && ScreenOk(cs, cols) && OnScreen(w, cs, cols) && w.flags & (PAD | SUBPAD) == 0
    requires Dirty(w, i, c) && 0 <= c < w.maxx
    ensures var cs' := WNoutRefresh(h, Some(w), cs, cols).2;
      |cs'.lines| == |cs.lines| && |cs'.lines[w.begy + i]| == cols &&
      cs'.lines[w.begy + i][w.begx + c] == Get(h, w, i, c)
  {
    var cs' := WNoutRefresh(h, Some(w), cs, cols).2;
    CopiedDirty(h, w, cs, cols, cs', i, c);
  }

  /** A curscr refreshed from `w` holds the window's cell at every dirty position of the window. */
  lemma CopiedDirty(h: Heap, w: Win, cs: Curscr, cols: int, cs': Curscr, i: int, c: int)
    requires Wf(h, w) && ScreenOk(cs, cols) && OnScreen(w, cs, cols)
    requires ScreenRefreshed(h, w, cs, cols, cs') && Dirty(w, i, c) && 0 <= c < w.maxx
    ensures |cs'.lines| == |cs.lines| && |cs'.lines[w.begy + i]| == cols &&
      cs'.lines[w.begy + i][w.begx + c] == Get(h, w, i, c)
  {
    var j := w.begy + i;
    assert RowRefreshed(h, w, cs, j, RowUpdate(cs'.lines[j], cs'.firstch[j], cs'.lastch[j]));
  }

  /** What wrefresh is asked to refresh: a null pointer, curscr itself, or a window. */
  datatype Target = NullWin | CurscrWin | Window(win: Win)

  /**
   * wrefresh: ERR, with nothing changed and nothing painted, for a null
   * window, a pad or a subpad.  For curscr it repaints the whole screen.
   * For a window it does wnoutrefresh and then doupdate, repainting the
   * whole screen when the window had its clear flag set and covers the
   * whole screen.  (r.1 is the window afterwards.)
   */
  function WRefresh(h: Heap, t: Target, cs: Curscr, sp: Phys, cols: int): (r: (Status, Target, Curscr, Phys, seq<Paint>))
    requires ScreenOk(cs, cols)
    requires t.Window? ==> Wf(h, t.win) && OnScreen(t.win, cs, cols)
    ensures r.0 == ERR <==> t.NullWin? || (t.Window? && t.win.flags & (PAD | SUBPAD) != 0)
    ensures r.0 == ERR ==> r.1 == t && r.2 == cs && r.3 == sp && r.4 == []
    ensures r.0 == OK ==> (r.1.Window? == t.Window? && ScreenOk(r.2, cols) && !r.2.clear &&
      (forall y :: 0 <= y < |r.2.lines| ==> r.2.firstch[y] == NO_CHANGE && r.2.lastch[y] == NO_CHANGE) &&
      r.3.alive && (r.3.cursrow, r.3.curscol) == (r.2.cury, r.2.curx))
    ensures r.0 == OK && t.CurscrWin? ==> r.1 == t && r.2.lines == cs.lines && Trace(cs.(clear := true), sp, cols, r.4)
    ensures r.0 == OK && t.Window? ==>
      var n := WNoutRefresh(h, Some(t.win), cs, cols);
      var full := t.win.clear && t.win.maxy == |cs.lines| && t.win.maxx == cols;
      n.1.Some? && r.1 == Window(n.1.value) && r.2.lines == n.2.lines &&
      Trace(n.2.(clear := n.2.clear || full), sp, cols, r.4)
  {
    if t.NullWin? || (t.Window? && t.win.flags & (PAD | SUBPAD) != 0) then (ERR, t, cs, sp, [])
    else if t.CurscrWin? then
      var u := DoUpdate(Some(cs.(clear := true)), sp, cols);
      (OK, t, u.1.value, u.2, u.3)
    else
      var w := t.win;
      var n := WNoutRefresh(h, Some(w), cs, cols);
      var full := w.clear && w.maxy == |cs.lines| && w.maxx == cols;
      var u := DoUpdate(Some(n.2.(clear := n.2.clear || full)), sp, cols);
      (OK, Window(n.1.value), u.1.value, u.2, u.3)
  }

  /** refresh: wrefresh of stdscr. */
  function Refresh(h: Heap, stdscr: Win, cs: Curscr, sp: Phys, cols: int): (r: (Status, Target, Curscr, Phys, seq<Paint>))
    requires ScreenOk(cs, cols) && Wf(h, stdscr) && OnScreen(stdscr, cs, cols)
    ensures r == WRefresh(h, Window(stdscr), cs, sp, cols)
  {
    WRefresh(h, Window(stdscr), cs, sp, cols)
  }

  /**
   * wrefresh of a window shows it: on a terminal in step with curscr,
   * replaying wrefresh's calls leaves the terminal showing curscr, and
   * every position the window had marked changed shows the window's
   * cell.
   */
  lemma WRefreshShows(h: Heap, w: Win, cs: Curscr, sp: Phys, cols: int, term: seq<Line>)
    requires Wf(h, w) && ScreenOk(cs, cols) && OnScreen(w, cs, cols) && w.flags & (PAD | SUBPAD) == 0
    requires Synced(term, cs)
    ensures var (_, _, cs', _, ps) := WRefresh(h, Window(w), cs, sp, cols);
      Apply(term, ps) == cs'.lines &&
      forall i, c :: Dirty(w, i, c) && 0 <= c < w.maxx ==> Apply(term, ps)[w.begy + i][w.begx + c] == Get(h, w, i, c)
  {
    var cs1 := WNoutRefresh(h, Some(w), cs, cols).2;
    WRefreshPaintsCurscr(h, w, cs, sp, cols, term);
    forall i, c | Dirty(w, i, c) && 0 <= c < w.maxx
      ensures cs1.lines[w.begy + i][w.begx + c] == Get(h, w, i, c)
    {
      RefreshCopiesDirty(h, w, cs, cols, i, c);
    }
  }

  /** The first half of WRefreshShows: the terminal ends up showing the curscr wnoutrefresh produced. */
  lemma WRefreshPaintsCurscr(h: Heap, w: Win, cs: Curscr, sp: Phys, cols: int, term: seq<Line>)
    requires Wf(h, w) && ScreenOk(cs, cols) && OnScreen(w, cs, cols) && w.flags & (PAD | SUBPAD) == 0
    requires Synced(term, cs)
    ensures Apply(term, WRefresh(h, Window(w), cs, sp, cols).4) == WNoutRefresh(h, Some(w), cs, cols).2.lines
  {
    var cs1 := WNoutRefresh(h, Some(w), cs, cols).2;
    RefreshKeepsSynced(h, w, cs, cols, term);
    var cs2 := if w.clear && w.maxy == |cs.lines| && w.maxx == cols then cs1.(clear := true) else cs1;
    assert Synced(term, cs2);
    DoUpdateShows(cs2, sp, cols, term);
  }

  /** wrefresh of curscr repaints everything: whatever the terminal showed, it then shows curscr. */
  lemma WRefreshCurscrRepaints(h: Heap, cs: Curscr, sp: Phys, cols: int, term: seq<Line>)
    requires ScreenOk(cs, cols) && |term| == |cs.lines| && (forall y :: 0 <= y < |term| ==> |term[y]| == cols)
    ensures var r := WRefresh(h, CurscrWin, cs, sp, cols);
      Apply(term, r.4) == cs.lines
  {
    DoUpdateShows(cs.(clear := true), sp, cols, term);
  }

  /**
   * wredrawln as written: the indices of the span entries it assigns.
   * It rejects a null window and a range that runs past the bottom, but
   * not a range that starts above the top, so a negative `start` is let
   * through and the loop assigns entries before the first row.
   */
  function WRedrawLnAsWritten(w: Option<Win>, start: int, num: int): (r: (Status, seq<int>))
    ensures r.0 == ERR <==> w.None? || start > w.value.maxy || start + num > w.value.maxy
    ensures r.0 == ERR ==> r.1 == []
    ensures r.0 == OK ==> |r.1| == Max(num, 0) && forall k :: 0 <= k < |r.1| ==> r.1[k] == start + k
  {
    if w.None? || start > w.value.maxy || start + num > w.value.maxy then (ERR, [])
    else (OK, seq(Max(num, 0), k => start + k))
  }

  /** The input that shows it: a one-row redraw from row -1 passes the guard and assigns entry -1. */
  lemma WRedrawLnAsWrittenUnderruns(w: Win)
    requires w.maxy >= 0
    ensures var r := WRedrawLnAsWritten(Some(w), -1, 1);
      r.0 == OK && r.1 == [-1]
  {
  }

  /** Spans `f` with entries `start .. start+num-1` set to `v`. */
  function SetSpans(f: seq<int>, start: int, num: int, v: int): (f': seq<int>)
    ensures |f'| == |f|
    ensures forall i :: 0 <= i < |f| ==> f'[i] == (if start <= i < start + num then v else f[i])
  {
    seq(|f|, i requires 0 <= i < |f| => if start <= i < start + num then v else f[i])
  }

  /**
   * wredrawln, with the missing lower bound added: ERR, with the window
   * unchanged, for a null window or a range not inside the window (a
   * negative count is an empty range).  Otherwise rows `start ..
   * start+num-1` are marked changed across the full width; nothing else
   * changes.
   */
  function WRedrawLn(w: Option<Win>, start: int, num: int): (r: (Status, Option<Win>))
    requires w.Some? ==> Shaped(w.value)
    ensures r.0 == ERR <==> w.None? || start < 0 || start > w.value.maxy || start + num > w.value.maxy
    ensures r.0 == ERR ==> r.1 == w
    ensures r.0 == OK ==> (r.1.Some? && Shaped(r.1.value) &&
      r.1.value == w.value.(firstch := r.1.value.firstch, lastch := r.1.value.lastch) &&
      forall i :: 0 <= i < w.value.maxy ==>
        if start <= i < start + num then r.1.value.firstch[i] == 0 && r.1.value.lastch[i] == w.value.maxx - 1
        else r.1.value.firstch[i] == w.value.firstch[i] && r.1.value.lastch[i] == w.value.lastch[i])
  {
    if w.None? || start < 0 || start > w.value.maxy || start + num > w.value.maxy then (ERR, w)
    else
      var v := w.value;
      (OK, Some(v.(firstch := SetSpans(v.firstch, start, num, 0), lastch := SetSpans(v.lastch, start, num, v.maxx - 1))))
  }

  /**
   * The corrected guard accepts exactly the calls the written one accepts
   * whose assigned entries are all rows of the window, apart from empty
   * ranges that start above the top.
   */
  lemma WRedrawLnGuard(w: Win, start: int, num: int)
    requires Shaped(w)
    ensures WRedrawLn(Some(w), start, num).0 == OK ==>
      WRedrawLnAsWritten(Some(w), start, num).0 == OK &&
      forall k :: 0 <= k < |WRedrawLnAsWritten(Some(w), start, num).1| ==>
        0 <= WRedrawLnAsWritten(Some(w), start, num).1[k] < w.maxy
    ensures WRedrawLnAsWritten(Some(w), start, num).0 == OK && start >= 0 ==> WRedrawLn(Some(w), start, num).0 == OK
  {
  }

  /** redrawwin: ERR for a null window, otherwise wredrawln over every row. */
  function RedrawWin(w: Option<Win>): (r: (Status, Option<Win>))
    requires w.Some? ==> Shaped(w.value)
    ensures r.0 == ERR <==> w.None?
  {
    if w.None? then (ERR, w) else WRedrawLn(w, 0, w.value.maxy)
  }

  /** redrawwin does what touchwin does. */
  lemma RedrawWinIsTouchWin(w: Win)
    requires Shaped(w)
    ensures RedrawWin(Some(w)) == (OK, Some(TouchWin(w)))
  {
    var v := RedrawWin(Some(w)).1.value;
    assert v.firstch == TouchWin(w).firstch;
    assert v.lastch == TouchWin(w).lastch;
  }

  /**
   * The window as wrefresh leaves it (through wnoutrefresh) when it has
   * immedok set and is not a pad, or as it was otherwise.
   */
  function ImmedWin(h: Heap, w: Win, cs: Curscr, cols: int): (v: Win)
    requires Wf(h, w) && ScreenOk(cs, cols) && (w.immed ==> OnScreen(w, cs, cols))
    ensures Shaped(v) && v == w.(firstch := v.firstch, lastch := v.lastch, clear := v.clear)
    ensures w.immed && w.flags & (PAD | SUBPAD) == 0 ==> Clean(v) && !v.clear
    ensures !(w.immed && w.flags & (PAD | SUBPAD) == 0) ==> v == w
  {
    if w.immed && w.flags & (PAD | SUBPAD) == 0 then WNoutRefresh(h, Some(w), cs, cols).1.value else w
  }

  /**
   * PDC_sync, which the drawing routines call last: a window with
   * immedok set is refreshed at once (wrefresh), and then a window with
   * syncok set has itself and every ancestor touched (wsyncup).  The
   * result: every window on the chain up from `id` is touched when
   * syncok is set, the refreshed window's spans are clean otherwise, no
   * other window changes, and the terminal sees wrefresh's calls only
   * under immedok.
   */
  function PdcSync(h: Heap, wins: map<WinId, Win>, id: WinId, cs: Curscr, sp: Phys, cols: int): (r: (map<WinId, Win>, Curscr, Phys, seq<Paint>))
    requires Linked(wins) && id in wins && Wf(h, wins[id]) && ScreenOk(cs, cols)
    requires wins[id].immed ==> OnScreen(wins[id], cs, cols)
    ensures r.0.Keys == wins.Keys
    ensures !wins[id].immed ==> r.1 == cs && r.2 == sp && r.3 == []
    ensures wins[id].immed ==> (r.1, r.2, r.3) == (var q := WRefresh(h, Window(wins[id]), cs, sp, cols); (q.2, q.3, q.4))
    ensures forall u :: u in wins && u != id ==>
      r.0[u] == (if wins[id].sync && u in Chain(wins, id) then TouchWin(wins[u]) else wins[u])
    ensures r.0[id] == (if wins[id].sync then TouchWin(ImmedWin(h, wins[id], cs, cols)) else ImmedWin(h, wins[id], cs, cols))
  {
    var w := wins[id];
    var (cs1, sp1, ps) := if w.immed then (var q := WRefresh(h, Window(w), cs, sp, cols); (q.2, q.3, q.4)) else (cs, sp, []);
    (SyncWins(wins, id, ImmedWin(h, w, cs, cols), w.sync), cs1, sp1, ps)
  }

  /**
   * The windows after PDC_sync: `id` replaced by `v`, then, when `sync`
   * is set, `id` and every ancestor touched.
   */
  function SyncWins(wins: map<WinId, Win>, id: WinId, v: Win, sync: bool): (r: map<WinId, Win>)
    requires Linked(wins) && id in wins && Shaped(v) && v.parent == wins[id].parent
    ensures r.Keys == wins.Keys
    ensures forall u :: u in wins && u != id ==>
      r[u] == (if sync && u in Chain(wins, id) then TouchWin(wins[u]) else wins[u])
    ensures r[id] == (if sync then TouchWin(v) else v)
  {
    if sync then
      SyncUpReplaced(wins, id, v);
      WSyncUp(wins[id := v], Some(id))
    else wins[id := v]
  }

  /** wsyncup after replacing `id` touches the new window and the old ancestors of `id`, and nothing else. */
  lemma SyncUpReplaced(wins: map<WinId, Win>, id: WinId, v: Win)
    requires Linked(wins) && id in wins && Shaped(v) && v.parent == wins[id].parent
    ensures Linked(wins[id := v])
    ensures var r := WSyncUp(wins[id := v], Some(id));
      r.Keys == wins.Keys && r[id] == TouchWin(v) &&
      forall u :: u in wins && u != id ==> r[u] == (if u in Chain(wins, id) then TouchWin(wins[u]) else wins[u])
  {
    LinkedUpdate(wins, id, v);
    var wins1 := wins[id := v];
    WSyncUpTouchesChain(wins1, id);
    assert forall u :: u in wins ==> wins1[u].parent == wins[u].parent;
    ChainFrame(wins, wins1, id);
  }
}
