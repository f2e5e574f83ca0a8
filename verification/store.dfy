/**
 * Windows and the character storage behind them.
 *
 * A window that owns its characters holds one freshly allocated block of
 * lines; a subwindow holds no storage of its own: each of its rows is a
 * reference into a line of an ancestor's block, shifted right by the
 * subwindow's column offset.  A write through either window is therefore
 * seen through both.  Which block a window owns is recorded in `owns`,
 * independently of the _SUBWIN/_SUBPAD flags the library itself consults.
 *
 * Each row also carries a change span (`firstch`, `lastch`): the first
 * and last column changed since the last refresh, or NO_CHANGE.
 */
module Store {
  import opened Base
  import opened Cells

  type WinId = nat
  type BlockId = nat
  type Line = seq<Cell>
  type Heap = map<BlockId, seq<Line>>

  /** Row `row` of block `block`, seen from column `off` onward. */
  datatype RowRef = RowRef(block: BlockId, row: nat, off: nat)

  /** Window property flags. */
  const SUBWIN: bv32 := 0x01
  const PAD: bv32 := 0x10
  const SUBPAD: bv32 := 0x20

  /** Marks an unchanged line edge. */
  const NO_CHANGE: int := -1

  datatype Win = Win(
    cury: int, curx: int,
    maxy: int, maxx: int,
    begy: int, begx: int,
    flags: bv32,
    attrs: Cell, bkgd: Cell,
    clear: bool, leaveit: bool, scroll: bool, nodelay: bool,
    immed: bool, sync: bool, useKeypad: bool,
    rows: seq<RowRef>,
    firstch: seq<int>, lastch: seq<int>,
    tmarg: int, bmarg: int, delayms: int,
    parx: int, pary: int, parent: Option<WinId>,
    owns: Option<BlockId>)

  /** The per-row sequences agree with the window's height. */
  predicate Shaped(w: Win)
  {
    w.maxy >= 0 && w.maxx >= 0 &&
    |w.rows| == w.maxy && |w.firstch| == w.maxy && |w.lastch| == w.maxy
  }

  /** `ref` names a line of `h` with at least `width` cells from its offset. */
  predicate RowBacked(h: Heap, ref: RowRef, width: int)
  {
    ref.block in h && ref.row < |h[ref.block]| && ref.off + width <= |h[ref.block][ref.row]|
  }

  /** Every row of `w` refers to a line of `h` long enough for the window. */
  predicate Backed(h: Heap, w: Win)
  {
    Shaped(w) && forall r :: 0 <= r < |w.rows| ==> RowBacked(h, w.rows[r], w.maxx)
  }

  /** Two references to the same stored line, whatever their offsets. */
  predicate SameLine(a: RowRef, b: RowRef)
  {
    a.block == b.block && a.row == b.row
  }

  /** No two rows of `w` share a line. */
  predicate Distinct(w: Win)
  {
    forall r1, r2 :: 0 <= r1 < |w.rows| && 0 <= r2 < |w.rows| && r1 != r2 ==>
      !SameLine(w.rows[r1], w.rows[r2])
  }

  /**
   * Every change edge is NO_CHANGE or a column of the window; a window
   * without columns, once touched, has first edge 0 and last edge -1.
   */
  predicate SpansIn(w: Win)
    requires Shaped(w)
  {
    forall r :: 0 <= r < w.maxy ==>
      NO_CHANGE <= w.firstch[r] && (w.firstch[r] < w.maxx || w.firstch[r] == 0) &&
      NO_CHANGE <= w.lastch[r] < w.maxx
  }

  /** The cursor is on a cell of the window. */
  predicate CursorIn(w: Win)
  {
    0 <= w.cury < w.maxy && 0 <= w.curx < w.maxx
  }

  /** A window whose rows, lines and spans are consistent with the heap. */
  predicate Wf(h: Heap, w: Win)
  {
    Backed(h, w) && Distinct(w) && SpansIn(w)
  }

  /** The cell at row `r`, column `c` of `w`. */
  function Get(h: Heap, w: Win, r: int, c: int): Cell
    requires Backed(h, w) && 0 <= r < w.maxy && 0 <= c < w.maxx
  {
    h[w.rows[r].block][w.rows[r].row][w.rows[r].off + c]
  }

  /** Row `r` of `w` as a sequence of cells. */
  function RowCells(h: Heap, w: Win, r: int): (line: seq<Cell>)
    requires Backed(h, w) && 0 <= r < w.maxy
    ensures |line| == w.maxx
    ensures forall c :: 0 <= c < w.maxx ==> line[c] == Get(h, w, r, c)
  {
    var ref := w.rows[r];
    h[ref.block][ref.row][ref.off .. ref.off + w.maxx]
  }

  /** Both heaps have the same blocks, lines and line lengths. */
  predicate SameShape(h: Heap, h': Heap)
  {
    h'.Keys == h.Keys &&
    forall b :: b in h ==>
      |h'[b]| == |h[b]| && forall row :: 0 <= row < |h[b]| ==> |h'[b][row]| == |h[b][row]|
  }

  /**
   * Overwrites the cells of line `ref` from column `c0` (relative to the
   * reference's offset) with `vals`; every other cell of every line keeps
   * its value, which is what makes a write visible through all windows
   * sharing the line.
   */
  function WriteRun(h: Heap, ref: RowRef, c0: int, vals: seq<Cell>): (h': Heap)
    requires ref.block in h && ref.row < |h[ref.block]|
    requires 0 <= c0 && ref.off + c0 + |vals| <= |h[ref.block][ref.row]|
    ensures SameShape(h, h')
    ensures forall b, row, i :: b in h && 0 <= row < |h[b]| && 0 <= i < |h[b][row]| ==>
      h'[b][row][i] == (if b == ref.block && row == ref.row && ref.off + c0 <= i < ref.off + c0 + |vals|
                        then vals[i - ref.off - c0] else h[b][row][i])
  {
    var line := h[ref.block][ref.row];
    var start := ref.off + c0;
    var line' := line[..start] + vals + line[start + |vals|..];
    h[ref.block := h[ref.block][ref.row := line']]
  }

  /** Storage of the same shape backs the same windows. */
  lemma BackedSameShape(h: Heap, h': Heap, w: Win)
    requires SameShape(h, h') && Backed(h, w)
    ensures Backed(h', w)
  {
    forall r | 0 <= r < |w.rows|
      ensures RowBacked(h', w.rows[r], w.maxx)
    {
      assert RowBacked(h, w.rows[r], w.maxx);
    }
  }

  /**
   * A run written through one window is seen through any other window
   * exactly at the cells that lie on the same line and columns.
   */
  lemma WriteRunSeenThrough(h: Heap, ref: RowRef, c0: int, vals: seq<Cell>, v: Win, r: int, c: int)
    requires ref.block in h && ref.row < |h[ref.block]|
    requires 0 <= c0 && ref.off + c0 + |vals| <= |h[ref.block][ref.row]|
    requires Backed(h, v) && 0 <= r < v.maxy && 0 <= c < v.maxx
    ensures Backed(WriteRun(h, ref, c0, vals), v)
    ensures Get(WriteRun(h, ref, c0, vals), v, r, c) ==
      (if SameLine(v.rows[r], ref) && ref.off + c0 <= v.rows[r].off + c < ref.off + c0 + |vals|
       then vals[v.rows[r].off + c - ref.off - c0] else Get(h, v, r, c))
  {
    BackedSameShape(h, WriteRun(h, ref, c0, vals), v);
    assert RowBacked(h, v.rows[r], v.maxx);
  }

  /** Cells `lo..hi` of row `r` of `w` set to `v`; the row's span is not touched. */
  function FillRow(h: Heap, w: Win, r: int, lo: int, hi: int, v: Cell): (h': Heap)
    requires Wf(h, w) && 0 <= r < w.maxy && 0 <= lo <= hi + 1 && hi < w.maxx
    ensures SameShape(h, h')
    ensures Wf(h', w)
    ensures forall y, x :: 0 <= y < w.maxy && 0 <= x < w.maxx ==>
      Get(h', w, y, x) == (if y == r && lo <= x <= hi then v else Get(h, w, y, x))
  {
    assert RowBacked(h, w.rows[r], w.maxx);
    var n := if hi < lo then 0 else hi - lo + 1;
    var h' := WriteRun(h, w.rows[r], lo, Repeat(v, n));
    BackedSameShape(h, h', w);
    h'
  }

  /** Stores `vals` into row `r` of `w` from column `c0`. */
  function PutRun(h: Heap, w: Win, r: int, c0: int, vals: seq<Cell>): (h': Heap)
    requires Wf(h, w) && 0 <= r < w.maxy && 0 <= c0 && c0 + |vals| <= w.maxx
    ensures SameShape(h, h')
    ensures Wf(h', w)
    ensures forall y, x :: 0 <= y < w.maxy && 0 <= x < w.maxx ==>
      Get(h', w, y, x) == (if y == r && c0 <= x < c0 + |vals| then vals[x - c0] else Get(h, w, y, x))
  {
    assert RowBacked(h, w.rows[r], w.maxx);
    var h' := WriteRun(h, w.rows[r], c0, vals);
    BackedSameShape(h, h', w);
    h'
  }

  /** One cell of `w` set to `v`. */
  function SetCell(h: Heap, w: Win, r: int, c: int, v: Cell): (h': Heap)
    requires Wf(h, w) && 0 <= r < w.maxy && 0 <= c < w.maxx
    ensures SameShape(h, h')
    ensures Wf(h', w)
    ensures forall y, x :: 0 <= y < w.maxy && 0 <= x < w.maxx ==>
      Get(h', w, y, x) == (if y == r && x == c then v else Get(h, w, y, x))
  {
    PutRun(h, w, r, c, [v])
  }

  /** The new first edge after a change starting at `lo`. */
  function WidenFirst(f: int, lo: int): int
  {
    if f == NO_CHANGE || lo < f then lo else f
  }

  /**
   * The span update drawing routines share: the first edge moves left to
   * `lo` when the row was unchanged or started further right, and the
   * last edge moves right to `hi` when that lies further right.
   */
  function Widen(w: Win, r: int, lo: int, hi: int): (w': Win)
    requires Shaped(w) && 0 <= r < w.maxy
    ensures Shaped(w') && w'.rows == w.rows && w'.maxx == w.maxx
    ensures w' == w.(firstch := w'.firstch, lastch := w'.lastch)
    ensures forall y :: 0 <= y < w.maxy && y != r ==> w'.firstch[y] == w.firstch[y] && w'.lastch[y] == w.lastch[y]
    ensures w'.firstch[r] == WidenFirst(w.firstch[r], lo)
    ensures w'.lastch[r] == Max(hi, w.lastch[r])
  {
    w.(firstch := w.firstch[r := WidenFirst(w.firstch[r], lo)], lastch := w.lastch[r := Max(hi, w.lastch[r])])
  }

  /** Widening a span within the row keeps every edge NO_CHANGE or a column. */
  lemma WidenSpansIn(w: Win, r: int, lo: int, hi: int)
    requires Shaped(w) && SpansIn(w) && 0 <= r < w.maxy && 0 <= lo < w.maxx && NO_CHANGE <= hi < w.maxx
    ensures SpansIn(Widen(w, r, lo, hi))
  {
  }

  /** Marking every row changed keeps a window well formed. */
  lemma TouchWinWf(h: Heap, w: Win)
    requires Wf(h, w)
    ensures Wf(h, TouchWin(w))
    ensures forall y, x :: 0 <= y < w.maxy && 0 <= x < w.maxx ==> Get(h, TouchWin(w), y, x) == Get(h, w, y, x)
  {
  }

  /** Widening a span within the row keeps the window well formed and its cells as they are. */
  lemma WidenWf(h: Heap, w: Win, r: int, lo: int, hi: int)
    requires Wf(h, w) && 0 <= r < w.maxy && 0 <= lo < w.maxx && NO_CHANGE <= hi < w.maxx
    ensures Wf(h, Widen(w, r, lo, hi))
    ensures Widens(w, Widen(w, r, lo, hi))
    ensures forall y, x :: 0 <= y < w.maxy && 0 <= x < w.maxx ==> Get(h, Widen(w, r, lo, hi), y, x) == Get(h, w, y, x)
  {
  }

  /**
   * `w'`'s spans cover `w`'s: a changed row stays changed, its first edge
   * does not move right and its last edge does not move left.
   */
  predicate Widens(w: Win, w': Win)
    requires Shaped(w) && Shaped(w') && w.maxy == w'.maxy
  {
    forall r :: 0 <= r < w.maxy ==>
      (w.firstch[r] != NO_CHANGE ==> w'.firstch[r] != NO_CHANGE && w'.firstch[r] <= w.firstch[r]) &&
      w.lastch[r] <= w'.lastch[r]
  }

  /** touchwin: every row marked changed across its full width. */
  function TouchWin(w: Win): (w': Win)
    requires Shaped(w)
    ensures Shaped(w') && w' == w.(firstch := w'.firstch, lastch := w'.lastch)
    ensures forall r :: 0 <= r < w.maxy ==> w'.firstch[r] == 0 && w'.lastch[r] == w.maxx - 1
  {
    w.(firstch := Repeat(0, w.maxy as nat), lastch := Repeat(w.maxx - 1, w.maxy as nat))
  }

  /** Touching a window whose rows are all marked changed across the full width changes nothing. */
  lemma TouchWinIdempotent(w: Win)
    requires Shaped(w)
    requires forall y :: 0 <= y < w.maxy ==> w.firstch[y] == 0 && w.lastch[y] == w.maxx - 1
    ensures TouchWin(w) == w
  {
    assert w.firstch == Repeat(0, w.maxy as nat);
    assert w.lastch == Repeat(w.maxx - 1, w.maxy as nat);
  }

  /** untouchwin: every row marked unchanged. */
  function UntouchWin(w: Win): (w': Win)
    requires Shaped(w)
    ensures Shaped(w') && w' == w.(firstch := w'.firstch, lastch := w'.lastch)
    ensures forall r :: 0 <= r < w.maxy ==> w'.firstch[r] == NO_CHANGE && w'.lastch[r] == NO_CHANGE
  {
    w.(firstch := Repeat(NO_CHANGE, w.maxy as nat), lastch := Repeat(NO_CHANGE, w.maxy as nat))
  }

  /** is_wintouched: some row has a change. */
  predicate IsWinTouched(w: Win)
    requires Shaped(w)
  {
    exists r :: 0 <= r < w.maxy && w.firstch[r] != NO_CHANGE
  }

  /** wmove: the cursor moves only to a cell of the window. */
  function WMove(w: Win, y: int, x: int): (r: (Status, Win))
    ensures r.0 == OK <==> 0 <= y < w.maxy && 0 <= x < w.maxx
    ensures r.0 == OK ==> r.1 == w.(cury := y, curx := x) && CursorIn(r.1)
    ensures r.0 == ERR ==> r.1 == w
  {
    if y < 0 || x < 0 || y >= w.maxy || x >= w.maxx then (ERR, w)
    else (OK, w.(cury := y, curx := x))
  }

  /** The result of a drawing routine: its status, the storage, the window. */
  datatype Drawn = Drawn(status: Status, heap: Heap, win: Win)

  /** All windows of a session and the storage they share. */
  datatype Store = Store(wins: map<WinId, Win>, heap: Heap, nextWin: WinId, nextBlock: BlockId)

  /**
   * The flags say who frees a window's lines: a window without _SUBWIN or
   * _SUBPAD frees them, so exactly such a window must own its block, and
   * every row of an owner lies in that block.
   */
  predicate OwnershipAgrees(w: Win)
  {
    ((w.flags & (SUBWIN | SUBPAD) == 0) <==> w.owns.Some?) &&
    (w.owns.Some? ==> forall r :: 0 <= r < |w.rows| ==> w.rows[r].block == w.owns.value)
  }

  /**
   * Every window is consistent with the heap, agrees with its flags
   * about ownership and is not a pad (pads are not part of this model),
   * every subwindow has a parent, every parent exists
   * and was created earlier, and the allocation counters are fresh.
   */
  predicate StoreOk(st: Store)
  {
    (forall id :: id in st.wins ==> Wf(st.heap, st.wins[id])) &&
    (forall id :: id in st.wins ==> OwnershipAgrees(st.wins[id]) && st.wins[id].flags & (PAD | SUBPAD) == 0) &&
    (forall id :: id in st.wins && st.wins[id].flags & SUBWIN != 0 ==> st.wins[id].parent.Some?) &&
    (forall id :: id in st.wins && st.wins[id].parent.Some? ==>
       st.wins[id].parent.value in st.wins && st.wins[id].parent.value < id) &&
    (forall id :: id in st.wins ==> id < st.nextWin) &&
    (forall b :: b in st.heap ==> b < st.nextBlock)
  }
}
