/**
 * Line drawing (border.c): borders, boxes, and horizontal and vertical
 * lines.  Every drawn character is first combined with the window's
 * current attributes and background by the attribute pass-through.
 */
module Border {
  import opened Base
  import opened Cells
  import opened Store

  /**
   * _attr_passthru: a colour of the character's own wins, else the
   * window's current colour, else the background colour; the video
   * attributes of the background are always added, and those of the
   * window only when the character brings no colour of its own.
   */
  function Passthru(attrs: Cell, bkgd: Cell, ch: Cell): (r: Cell)
    ensures attrs & A_CHARTEXT == 0 ==> r & A_CHARTEXT == ch & A_CHARTEXT
    ensures r & A_COLOR ==
      (if ch & A_COLOR != 0 then ch & A_COLOR
       else if attrs & A_COLOR != 0 then attrs & A_COLOR
       else bkgd & A_COLOR)
    ensures r & A_VIDEO ==
      (ch & A_VIDEO) | (if ch & A_COLOR == 0 then attrs & A_VIDEO else 0) | (bkgd & A_VIDEO)
  {
    var a0 := ch & A_ATTRIBUTES;
    var a1 := if a0 & A_COLOR == 0 then a0 | attrs else a0;
    var a2 := if a1 & A_COLOR == 0 then a1 | (bkgd & A_ATTRIBUTES) else a1 | (bkgd & (A_ATTRIBUTES ^ A_COLOR));
    (ch & A_CHARTEXT) | a2
  }

  /** A zero character argument selects the default line-drawing symbol. */
  function OrDefault(ch: Cell, dflt: Cell): Cell
  {
    if ch != 0 then ch else dflt
  }

  /** The eight rendered border characters, after defaults and pass-through. */
  datatype Edges = Edges(ls: Cell, rs: Cell, ts: Cell, bs: Cell, tl: Cell, tr: Cell, bl: Cell, br: Cell)

  /** wborder's eight characters: a zero argument takes its ACS default, and each goes through `_attr_passthru`. */
  function BorderEdges(w: Win, ls: Cell, rs: Cell, ts: Cell, bs: Cell,
                       tl: Cell, tr: Cell, bl: Cell, br: Cell): Edges
  {
    Edges(Passthru(w.attrs, w.bkgd, OrDefault(ls, ACS_VLINE)),
          Passthru(w.attrs, w.bkgd, OrDefault(rs, ACS_VLINE)),
          Passthru(w.attrs, w.bkgd, OrDefault(ts, ACS_HLINE)),
          Passthru(w.attrs, w.bkgd, OrDefault(bs, ACS_HLINE)),
          Passthru(w.attrs, w.bkgd, OrDefault(tl, ACS_ULCORNER)),
          Passthru(w.attrs, w.bkgd, OrDefault(tr, ACS_URCORNER)),
          Passthru(w.attrs, w.bkgd, OrDefault(bl, ACS_LLCORNER)),
          Passthru(w.attrs, w.bkgd, OrDefault(br, ACS_LRCORNER)))
  }

  /**
   * What a border leaves at (r, c) of a window whose last row and column
   * are `ymax` and `xmax`: a corner on the four corner cells, the
   * edge character elsewhere on the outer rows and columns, nothing
   * inside.  Where cells coincide in a one-row or one-column window the
   * later write wins: bottom over top, right over left, and among the
   * corners the order top-left, top-right, bottom-left, bottom-right.
   */
  function BorderCell(e: Edges, ymax: int, xmax: int, r: int, c: int): Option<Cell>
  {
    if r == ymax && c == xmax then Some(e.br)
    else if r == ymax && c == 0 then Some(e.bl)
    else if r == 0 && c == xmax then Some(e.tr)
    else if r == 0 && c == 0 then Some(e.tl)
    else if r == ymax && 1 <= c < xmax then Some(e.bs)
    else if r == 0 && 1 <= c < xmax then Some(e.ts)
    else if 1 <= r < ymax && c == xmax then Some(e.rs)
    else if 1 <= r < ymax && c == 0 then Some(e.ls)
    else None
  }

  /** The side columns of rows `i .. ymax-1`: `ls` at column 0, then `rs` at `xmax`. */
  function SideRows(h: Heap, w: Win, i: int, ymax: int, xmax: int, ls: Cell, rs: Cell): (h': Heap)
    requires Wf(h, w) && 1 <= i && ymax < w.maxy && 0 <= xmax < w.maxx
    ensures SameShape(h, h') && Wf(h', w)
    ensures forall r, c :: 0 <= r < w.maxy && 0 <= c < w.maxx ==>
      Get(h', w, r, c) ==
        (if i <= r < ymax && c == xmax then rs
         else if i <= r < ymax && c == 0 then ls
         else Get(h, w, r, c))
    decreases ymax - i
  {
    if i >= ymax then h
    else
      var h1 := SetCell(h, w, i, 0, ls);
      var h2 := SetCell(h1, w, i, xmax, rs);
      SideRows(h2, w, i + 1, ymax, xmax, ls, rs)
  }

  /** The top and bottom edges between the corners: `ts` on row 0, then `bs` on row `ymax`. */
  function TopBottom(h: Heap, w: Win, e: Edges): (h': Heap)
    requires Wf(h, w) && w.maxy >= 1 && w.maxx >= 1
    ensures SameShape(h, h') && Wf(h', w)
    ensures forall r, c :: 0 <= r < w.maxy && 0 <= c < w.maxx ==>
      Get(h', w, r, c) ==
        (if r == w.maxy - 1 && 1 <= c < w.maxx - 1 then e.bs
         else if r == 0 && 1 <= c < w.maxx - 1 then e.ts
         else Get(h, w, r, c))
  {
    var xmax := w.maxx - 1;
    var ymax := w.maxy - 1;
    if xmax < 2 then h
    else
      var h1 := FillRow(h, w, 0, 1, xmax - 1, e.ts);
      FillRow(h1, w, ymax, 1, xmax - 1, e.bs)
  }

  /** The four corners, in the order top-left, top-right, bottom-left, bottom-right. */
  function Corners(h: Heap, w: Win, e: Edges): (h': Heap)
    requires Wf(h, w) && w.maxy >= 1 && w.maxx >= 1
    ensures SameShape(h, h') && Wf(h', w)
    ensures forall r, c :: 0 <= r < w.maxy && 0 <= c < w.maxx ==>
      Get(h', w, r, c) ==
        (if r == w.maxy - 1 && c == w.maxx - 1 then e.br
         else if r == w.maxy - 1 && c == 0 then e.bl
         else if r == 0 && c == w.maxx - 1 then e.tr
         else if r == 0 && c == 0 then e.tl
         else Get(h, w, r, c))
  {
    var h1 := RowEnds(h, w, 0, e.tl, e.tr);
    var h2 := RowEnds(h1, w, w.maxy - 1, e.bl, e.br);
    CornersCompose(h, h1, h2, w, e);
    h2
  }

  /** The top row's ends, then the bottom row's, leave the four corners. */
  lemma CornersCompose(h: Heap, h1: Heap, h2: Heap, w: Win, e: Edges)
    requires Backed(h, w) && Backed(h1, w) && Backed(h2, w) && w.maxy >= 1 && w.maxx >= 1
    requires forall r, c :: 0 <= r < w.maxy && 0 <= c < w.maxx ==>
      Get(h1, w, r, c) == (if r == 0 && c == w.maxx - 1 then e.tr else if r == 0 && c == 0 then e.tl else Get(h, w, r, c))
    requires forall r, c :: 0 <= r < w.maxy && 0 <= c < w.maxx ==>
      Get(h2, w, r, c) ==
        (if r == w.maxy - 1 && c == w.maxx - 1 then e.br else if r == w.maxy - 1 && c == 0 then e.bl else Get(h1, w, r, c))
    ensures forall r, c :: 0 <= r < w.maxy && 0 <= c < w.maxx ==>
      Get(h2, w, r, c) ==
        (if r == w.maxy - 1 && c == w.maxx - 1 then e.br
         else if r == w.maxy - 1 && c == 0 then e.bl
         else if r == 0 && c == w.maxx - 1 then e.tr
         else if r == 0 && c == 0 then e.tl
         else Get(h, w, r, c))
  {
  }

  /** The two end cells of row `y`: `left` at column 0, then `right` at the last column. */
  function RowEnds(h: Heap, w: Win, y: int, left: Cell, right: Cell): (h': Heap)
    requires Wf(h, w) && 0 <= y < w.maxy && w.maxx >= 1
    ensures SameShape(h, h') && Wf(h', w)
    ensures forall r, c :: 0 <= r < w.maxy && 0 <= c < w.maxx ==>
      Get(h', w, r, c) ==
        (if r == y && c == w.maxx - 1 then right
         else if r == y && c == 0 then left
         else Get(h, w, r, c))
  {
    SetCell(SetCell(h, w, y, 0, left), w, y, w.maxx - 1, right)
  }

  /**
   * `w'` over `h'` shows BorderCell's picture for the edges `e` on the
   * outer rows and columns of `w`, and w's cells from `h` inside.
   */
  predicate Bordered(h: Heap, w: Win, e: Edges, h': Heap, w': Win)
    requires Backed(h, w) && Backed(h', w') && w'.maxy == w.maxy && w'.maxx == w.maxx
  {
    forall r, c :: 0 <= r < w.maxy && 0 <= c < w.maxx ==>
      Get(h', w', r, c) ==
        BorderCell(e, w.maxy - 1, w.maxx - 1, r, c).GetOr(Get(h, w, r, c))
  }

  /**
   * The three passes of wborder, top and bottom edges, then the sides,
   * then the corners, together leave BorderCell's picture.
   */
  function Bordering(h: Heap, w: Win, e: Edges): (h': Heap)
    requires Wf(h, w) && w.maxy >= 1 && w.maxx >= 1
    ensures SameShape(h, h') && Wf(h', w)
    ensures Bordered(h, w, e, h', w)
  {
    var h1 := TopBottom(h, w, e);
    var h2 := SideRows(h1, w, 1, w.maxy - 1, w.maxx - 1, e.ls, e.rs);
    var h3 := Corners(h2, w, e);
    PassesCompose(h, h1, h2, h3, w, e);
    h3
  }

  /** Bordered depends on the window drawn through only by its rows. */
  lemma BorderedRows(h: Heap, w: Win, e: Edges, h': Heap, w1: Win, w2: Win)
    requires Backed(h, w) && Backed(h', w1) && Backed(h', w2)
    requires w1.rows == w2.rows && w1.maxy == w.maxy && w1.maxx == w.maxx && w2.maxy == w.maxy && w2.maxx == w.maxx
    requires Bordered(h, w, e, h', w1)
    ensures Bordered(h, w, e, h', w2)
  {
    forall r, c | 0 <= r < w.maxy && 0 <= c < w.maxx
      ensures Get(h', w2, r, c) == Get(h', w1, r, c)
    {
    }
  }

  /** The three passes, each described by its effect on every cell, compose to BorderCell's picture. */
  lemma PassesCompose(h: Heap, h1: Heap, h2: Heap, h3: Heap, w: Win, e: Edges)
    requires Wf(h, w) && Wf(h1, w) && Wf(h2, w) && Wf(h3, w) && w.maxy >= 1 && w.maxx >= 1
    requires forall r, c :: 0 <= r < w.maxy && 0 <= c < w.maxx ==>
      Get(h1, w, r, c) ==
        (if r == w.maxy - 1 && 1 <= c < w.maxx - 1 then e.bs
         else if r == 0 && 1 <= c < w.maxx - 1 then e.ts
         else Get(h, w, r, c))
    requires forall r, c :: 0 <= r < w.maxy && 0 <= c < w.maxx ==>
      Get(h2, w, r, c) ==
        (if 1 <= r < w.maxy - 1 && c == w.maxx - 1 then e.rs
         else if 1 <= r < w.maxy - 1 && c == 0 then e.ls
         else Get(h1, w, r, c))
    requires forall r, c :: 0 <= r < w.maxy && 0 <= c < w.maxx ==>
      Get(h3, w, r, c) ==
        (if r == w.maxy - 1 && c == w.maxx - 1 then e.br
         else if r == w.maxy - 1 && c == 0 then e.bl
         else if r == 0 && c == w.maxx - 1 then e.tr
         else if r == 0 && c == 0 then e.tl
         else Get(h2, w, r, c))
    ensures Bordered(h, w, e, h3, w)
  {
    forall r, c | 0 <= r < w.maxy && 0 <= c < w.maxx
      ensures Get(h3, w, r, c) == BorderCell(e, w.maxy - 1, w.maxx - 1, r, c).GetOr(Get(h, w, r, c))
    {
      PassesAt(e, w.maxy - 1, w.maxx - 1, r, c, Get(h, w, r, c), Get(h1, w, r, c), Get(h2, w, r, c), Get(h3, w, r, c));
    }
  }

  /** At one cell: the top and bottom pass, then the sides, then the corners leave BorderCell's value. */
  lemma PassesAt(e: Edges, ymax: int, xmax: int, r: int, c: int, a: Cell, b1: Cell, b2: Cell, b3: Cell)
    requires 0 <= r <= ymax && 0 <= c <= xmax
    requires b1 == (if r == ymax && 1 <= c < xmax then e.bs else if r == 0 && 1 <= c < xmax then e.ts else a)
    requires b2 == (if 1 <= r < ymax && c == xmax then e.rs else if 1 <= r < ymax && c == 0 then e.ls else b1)
    requires b3 ==
      (if r == ymax && c == xmax then e.br
       else if r == ymax && c == 0 then e.bl
       else if r == 0 && c == xmax then e.tr
       else if r == 0 && c == 0 then e.tl
       else b2)
    ensures b3 == BorderCell(e, ymax, xmax, r, c).GetOr(a)
  {
  }

  /**
   * wborder's drawing, before its PDC_sync (SyncDraw.WBorderCall adds
   * the null check and the sync): every cell on the window's outer rows and columns holds
   * its border character (BorderCell), every inner cell is unchanged,
   * and every row is marked changed across the whole width.  The
   * routine indexes the last row and column, so the window must have
   * at least one of each.
   */
  function WBorder(h: Heap, w: Win, ls: Cell, rs: Cell, ts: Cell, bs: Cell,
                   tl: Cell, tr: Cell, bl: Cell, br: Cell): (d: Drawn)
    requires Wf(h, w) && w.maxy >= 1 && w.maxx >= 1
    ensures d.status == OK
    ensures SameShape(h, d.heap) && Wf(d.heap, d.win)
    ensures d.win == TouchWin(w)
    ensures Bordered(h, w, BorderEdges(w, ls, rs, ts, bs, tl, tr, bl, br), d.heap, d.win)
  {
    var e := BorderEdges(w, ls, rs, ts, bs, tl, tr, bl, br);
    var h' := Bordering(h, w, e);
    TouchWinWf(h', w);
    BorderedRows(h, w, e, h', w, TouchWin(w));
    Drawn(OK, h', TouchWin(w))
  }

  /**
   * The picture box leaves in `w'` over `h'`: the default corner symbols
   * at the top-left and bottom-right corners, `verch` (or ACS_VLINE) down
   * both sides and `horch` (or ACS_HLINE) along the top, each combined by
   * the pass-through.
   */
  predicate BoxLook(w: Win, verch: Cell, horch: Cell, h': Heap, w': Win)
    requires Backed(h', w') && w'.maxy == w.maxy && w'.maxx == w.maxx
  {
    (w.maxy >= 2 && w.maxx >= 2 ==>
      Get(h', w', 0, 0) == Passthru(w.attrs, w.bkgd, ACS_ULCORNER) &&
      Get(h', w', w.maxy - 1, w.maxx - 1) == Passthru(w.attrs, w.bkgd, ACS_LRCORNER)) &&
    (forall r :: 1 <= r < w.maxy - 1 && w.maxx >= 2 ==>
      Get(h', w', r, 0) == Passthru(w.attrs, w.bkgd, OrDefault(verch, ACS_VLINE)) &&
      Get(h', w', r, w.maxx - 1) == Passthru(w.attrs, w.bkgd, OrDefault(verch, ACS_VLINE))) &&
    forall c :: 1 <= c < w.maxx - 1 && w.maxy >= 2 ==>
      Get(h', w', 0, c) == Passthru(w.attrs, w.bkgd, OrDefault(horch, ACS_HLINE))
  }

  /**
   * box: a border whose sides are `verch` and whose top and bottom are
   * `horch`; its corners are always the default corner symbol.
   */
  function Box(h: Heap, w: Win, verch: Cell, horch: Cell): (d: Drawn)
    requires Wf(h, w) && w.maxy >= 1 && w.maxx >= 1
    ensures d.status == OK && SameShape(h, d.heap) && Wf(d.heap, d.win)
    ensures d.win == TouchWin(w)
    ensures BoxLook(w, verch, horch, d.heap, d.win)
  {
    var d := WBorder(h, w, verch, verch, horch, horch, 0, 0, 0, 0);
    BoxCells(h, w, verch, horch, d);
    d
  }

  /** The cells of box, read off BorderCell for its edges. */
  lemma BoxCells(h: Heap, w: Win, verch: Cell, horch: Cell, d: Drawn)
    requires Wf(h, w) && w.maxy >= 1 && w.maxx >= 1 && Wf(d.heap, d.win) && d.win == TouchWin(w)
    requires Bordered(h, w, BorderEdges(w, verch, verch, horch, horch, 0, 0, 0, 0), d.heap, d.win)
    ensures BoxLook(w, verch, horch, d.heap, d.win)
  {
    var e := BorderEdges(w, verch, verch, horch, horch, 0, 0, 0, 0);
    assert e.tl == Passthru(w.attrs, w.bkgd, ACS_ULCORNER) && e.br == Passthru(w.attrs, w.bkgd, ACS_LRCORNER);
  }

  /** The last column whline draws: n cells from the cursor, clipped at the right edge. */
  function HLineEnd(w: Win, n: int): int
  {
    Min(w.curx + n, w.maxx) - 1
  }

  /**
   * whline's drawing, before its PDC_sync (SyncDraw.WHLineCall adds
   * the null check and the sync): ERR for n < 1; otherwise the cells from the cursor to
   * HLineEnd on the cursor row hold the rendered character (ACS_HLINE
   * when `ch` is zero), the row's span widens over them, and nothing
   * else changes.
   */
  function WHLine(h: Heap, w: Win, ch: Cell, n: int): (d: Drawn)
    requires Wf(h, w) && CursorIn(w)
    ensures n < 1 <==> d.status == ERR
    ensures d.status == ERR ==> d.heap == h && d.win == w
    ensures SameShape(h, d.heap) && Wf(d.heap, d.win)
    ensures d.status == OK ==> d.win == Widen(w, w.cury, w.curx, HLineEnd(w, n))
    ensures d.status == OK ==> forall r, c :: 0 <= r < w.maxy && 0 <= c < w.maxx ==>
      Get(d.heap, d.win, r, c) ==
        (if r == w.cury && w.curx <= c <= HLineEnd(w, n)
         then Passthru(w.attrs, w.bkgd, OrDefault(ch, ACS_HLINE))
         else Get(h, w, r, c))
  {
    if n < 1 then Drawn(ERR, h, w)
    else
      var endpos := HLineEnd(w, n);
      var v := Passthru(w.attrs, w.bkgd, OrDefault(ch, ACS_HLINE));
      var h' := FillRow(h, w, w.cury, w.curx, endpos, v);
      WidenWf(h', w, w.cury, w.curx, endpos);
      Drawn(OK, h', Widen(w, w.cury, w.curx, endpos))
  }

  /** Rows `i .. endpos-1` of column `x` set to `v`. */
  function VLineCells(h: Heap, w: Win, i: int, endpos: int, x: int, v: Cell): (h': Heap)
    requires Wf(h, w) && 0 <= i && endpos <= w.maxy && 0 <= x < w.maxx
    ensures SameShape(h, h') && Wf(h', w)
    ensures forall r, c :: 0 <= r < w.maxy && 0 <= c < w.maxx ==>
      Get(h', w, r, c) == (if i <= r < endpos && c == x then v else Get(h, w, r, c))
    decreases endpos - i
  {
    if i >= endpos then h
    else VLineCells(SetCell(h, w, i, x, v), w, i + 1, endpos, x, v)
  }

  /** First edges of rows `i .. endpos-1` moved left to `x` where needed. */
  function FirstsWidened(f: seq<int>, i: int, endpos: int, x: int): (f': seq<int>)
    ensures |f'| == |f|
    ensures forall r :: 0 <= r < |f| ==> f'[r] == (if i <= r < endpos then WidenFirst(f[r], x) else f[r])
  {
    seq(|f|, r requires 0 <= r < |f| => if i <= r < endpos then WidenFirst(f[r], x) else f[r])
  }

  /** Last edges of rows `i .. endpos-1` moved right to `x` where needed. */
  function LastsWidened(l: seq<int>, i: int, endpos: int, x: int): (l': seq<int>)
    ensures |l'| == |l|
    ensures forall r :: 0 <= r < |l| ==> l'[r] == (if i <= r < endpos then Max(x, l[r]) else l[r])
  {
    seq(|l|, r requires 0 <= r < |l| => if i <= r < endpos then Max(x, l[r]) else l[r])
  }

  /**
   * wvline's drawing, before its PDC_sync (SyncDraw.WVLineCall adds
   * the null check and the sync): ERR for n < 1; otherwise column `curx` of the rows from
   * the cursor row to min(cury + n, maxy) - 1 holds the rendered
   * character (ACS_VLINE when `ch` is zero), each of those rows' spans
   * widens to include the column, and nothing else changes.
   */
  function WVLine(h: Heap, w: Win, ch: Cell, n: int): (d: Drawn)
    requires Wf(h, w) && CursorIn(w)
    ensures n < 1 <==> d.status == ERR
    ensures d.status == ERR ==> d.heap == h && d.win == w
    ensures SameShape(h, d.heap) && Wf(d.heap, d.win)
    ensures d.win == w.(firstch := d.win.firstch, lastch := d.win.lastch)
    ensures d.status == OK ==> forall r, c :: 0 <= r < w.maxy && 0 <= c < w.maxx ==>
      Get(d.heap, d.win, r, c) ==
        (if w.cury <= r < Min(w.cury + n, w.maxy) && c == w.curx
         then Passthru(w.attrs, w.bkgd, OrDefault(ch, ACS_VLINE))
         else Get(h, w, r, c))
    ensures d.status == OK ==> Widens(w, d.win)
    ensures d.status == OK ==> forall r :: w.cury <= r < Min(w.cury + n, w.maxy) ==>
      d.win.firstch[r] != NO_CHANGE && d.win.firstch[r] <= w.curx <= d.win.lastch[r]
  {
    if n < 1 then Drawn(ERR, h, w)
    else
      var v := Passthru(w.attrs, w.bkgd, OrDefault(ch, ACS_VLINE));
      var endpos := Min(w.cury + n, w.maxy);
      var h' := VLineCells(h, w, w.cury, endpos, w.curx, v);
      var w' := VLineSpans(w, endpos);
      VLineSpansWf(h', w, endpos);
      Drawn(OK, h', w')
  }

  /** The spans after wvline down to `endpos`: each row from the cursor row widened to the cursor column. */
  function VLineSpans(w: Win, endpos: int): (w': Win)
    requires Shaped(w) && CursorIn(w)
    ensures Shaped(w') && w'.rows == w.rows && w'.maxy == w.maxy && w'.maxx == w.maxx
    ensures w' == w.(firstch := w'.firstch, lastch := w'.lastch)
  {
    w.(firstch := FirstsWidened(w.firstch, w.cury, endpos, w.curx),
       lastch := LastsWidened(w.lastch, w.cury, endpos, w.curx))
  }

  /** The widened spans keep the window well formed, cover the old ones, and take in the column on the drawn rows. */
  lemma VLineSpansWf(h: Heap, w: Win, endpos: int)
    requires Wf(h, w) && CursorIn(w) && endpos <= w.maxy
    ensures var w' := VLineSpans(w, endpos);
      Wf(h, w') && Widens(w, w') &&
      (forall r :: w.cury <= r < endpos ==> w'.firstch[r] != NO_CHANGE && w'.firstch[r] <= w.curx <= w'.lastch[r]) &&
      forall r, c :: 0 <= r < w.maxy && 0 <= c < w.maxx ==> Get(h, w', r, c) == Get(h, w, r, c)
  {
    var w' := VLineSpans(w, endpos);
    assert SpansIn(w');
  }
}
