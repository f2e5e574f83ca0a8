/**
 * The window's current attributes (attr.c): the attribute and colour
 * bits later writes are rendered with, and wchgat, which restyles a run
 * of cells already on the screen without touching their characters.
 */
module Attr {
  import opened Base
  import opened Cells
  import opened Store

  /** wattroff: turns the requested attribute bits off. */
  function AttrOff(cur: Cell, attrs: Cell): (r: Cell)
    ensures r & attrs == 0
    ensures r & !cur == 0
    ensures cur & A_ATTRIBUTES & !attrs & !r == 0
    ensures r & A_CHARTEXT == 0
  {
    cur & (!attrs & A_ATTRIBUTES)
  }

  /**
   * wattron: the requested video bits are added to the current ones; a
   * requested colour replaces the current colour, and no colour
   * requested leaves the current colour alone.
   */
  function AttrOn(cur: Cell, attrs: Cell): (r: Cell)
    ensures r & A_COLOR == (if attrs & A_COLOR == 0 then cur & A_COLOR else attrs & A_COLOR)
  {
    if cur & A_COLOR != 0 && attrs & A_COLOR != 0 then
      var curcolr := cur & A_COLOR;
      var curattr := cur ^ curcolr;
      var newcolr := attrs & A_COLOR;
      var newattr := ((attrs & A_ATTRIBUTES) ^ newcolr) | curattr;
      newattr | newcolr
    else
      cur | (attrs & A_ATTRIBUTES)
  }

  /** wattron keeps every video bit already on and adds the requested ones (the colour aside). */
  lemma AttrOnVideo(cur: Cell, attrs: Cell)
    ensures AttrOn(cur, attrs) & !A_COLOR == (cur & !A_COLOR) | (attrs & A_VIDEO)
  {
  }

  /** wattrset: the current attributes become exactly the attribute field of `attrs`. */
  function AttrSet(attrs: Cell): (r: Cell)
    ensures r & A_CHARTEXT == 0
    ensures r & A_VIDEO == attrs & A_VIDEO
    ensures PairNumber(r) == PairNumber(attrs)
  {
    attrs & A_ATTRIBUTES
  }

  /** wcolor_set: only the colour field changes, to the requested pair modulo 32. */
  function ColorSet(cur: Cell, pair: Cell): (r: Cell)
    ensures PairNumber(r) == pair & 0x1f
    ensures r & !A_COLOR == cur & !A_COLOR
  {
    (cur & !A_COLOR) | ColorPair(pair)
  }

  /** wattr_get: the video attributes and the colour pair, reported separately. */
  function AttrGet(cur: Cell): (r: (Cell, Cell))
    ensures r.0 & (A_COLOR | A_CHARTEXT) == 0
    ensures r.1 < PDC_COLOR_PAIRS as bv16
    ensures r.0 | ColorPair(r.1) == cur & A_ATTRIBUTES
  {
    (cur & (A_ATTRIBUTES & !A_COLOR), PairNumber(cur))
  }

  /** wattr_set: video attributes from `attrs`, colour from the separate pair argument. */
  function AttrSetPair(attrs: Cell, pair: Cell): (r: Cell)
    ensures AttrGet(r) == (attrs & A_VIDEO, pair & 0x1f)
  {
    (attrs & (A_ATTRIBUTES & !A_COLOR)) | ColorPair(pair)
  }

  /** Turning on video attributes not yet set and then off again restores the window. */
  lemma AttrOnOffInverse(cur: Cell, attrs: Cell)
    requires cur & A_CHARTEXT == 0
    requires attrs & (A_COLOR | A_CHARTEXT) == 0 && cur & attrs == 0
    ensures AttrOff(AttrOn(cur, attrs), attrs) == cur
  {
  }

  /** wattrset then wattr_get gives back the video bits and the colour pair. */
  lemma AttrSetGetRoundTrip(attrs: Cell)
    ensures AttrGet(AttrSet(attrs)) == (attrs & A_VIDEO, PairNumber(attrs))
  {
  }

  /** The attribute routines that act on a window's current attributes. */
  datatype AttrCall =
    | WAttrOff(a: Cell)
    | WAttrOn(a: Cell)
    | WAttrSet(a: Cell)
    | WColorSet(pair: Cell)
    | WAttrSetPair(a: Cell, pair: Cell)
    | WStandEnd
    | WStandOut

  /** The current attributes after one attribute routine. */
  function NewAttrs(cur: Cell, call: AttrCall): Cell
  {
    match call
    case WAttrOff(a) => AttrOff(cur, a)
    case WAttrOn(a) => AttrOn(cur, a)
    case WAttrSet(a) => AttrSet(a)
    case WColorSet(p) => ColorSet(cur, p)
    case WAttrSetPair(a, p) => AttrSetPair(a, p)
    case WStandEnd => AttrSet(A_NORMAL)
    case WStandOut => AttrSet(A_STANDOUT)
  }

  /**
   * Applies an attribute routine to a window: ERR for a null window,
   * otherwise OK with only the current attributes changed.
   */
  function ApplyAttr(w: Option<Win>, call: AttrCall): (r: (Status, Option<Win>))
    ensures w.None? <==> r.0 == ERR
    ensures w.None? ==> r.1.None?
    ensures w.Some? ==> r.1.Some? && r.1.value == w.value.(attrs := r.1.value.attrs)
  {
    match w
    case None => (ERR, None)
    case Some(win) => (OK, Some(win.(attrs := NewAttrs(win.attrs, call))))
  }

  /**
   * wstandout and wstandend replace every current attribute: standout
   * leaves exactly reverse and bold, standend leaves nothing.
   */
  lemma StandoutReplaces(w: Win)
    ensures ApplyAttr(Some(w), WStandOut).1.value.attrs == A_REVERSE | A_BOLD
    ensures ApplyAttr(Some(w), WStandEnd).1.value.attrs == A_NORMAL
  {
  }

  /** getattrs: the current attributes, or 0 for a null window. */
  function GetAttrs(w: Option<Win>): (r: Cell)
    ensures w.Some? ==> r == w.value.attrs
    ensures w.None? ==> r == 0
  {
    if w.Some? then w.value.attrs else 0
  }

  /** The last column wchgat restyles: the row end when n < 0, else n cells on, clipped. */
  function ChgAtEnd(w: Win, n: int): int
  {
    (if n < 0 then w.maxx else Min(w.curx + n, w.maxx)) - 1
  }

  /** The attribute field wchgat gives each restyled cell. */
  function ChgAtAttr(attr: Cell, color: Cell): (a: Cell)
    ensures a & A_CHARTEXT == 0
    ensures a & A_VIDEO == attr & A_VIDEO
    ensures a & A_COLOR == (attr & A_COLOR) | ColorPair(color)
  {
    (attr & A_ATTRIBUTES) | ColorPair(color)
  }

  /** With no colour in `attr`, a restyled cell shows exactly the requested pair. */
  lemma ChgAtAttrPair(attr: Cell, color: Cell)
    requires attr & A_COLOR == 0
    ensures PairNumber(ChgAtAttr(attr, color)) == color & 0x1f
  {
  }

  /** A restyled cell keeps its character and carries exactly the new attributes. */
  lemma RestyleKeepsChar(prev: Cell, attr: Cell, color: Cell)
    ensures ((prev & A_CHARTEXT) | ChgAtAttr(attr, color)) & A_CHARTEXT == prev & A_CHARTEXT
    ensures ((prev & A_CHARTEXT) | ChgAtAttr(attr, color)) & A_ATTRIBUTES == ChgAtAttr(attr, color)
  {
  }

  /** The cursor-row cells `lo .. lo+cnt-1` with their attributes replaced by `a`. */
  function Restyled(h: Heap, w: Win, lo: int, cnt: nat, a: Cell): (vals: seq<Cell>)
    requires Backed(h, w) && 0 <= w.cury < w.maxy && 0 <= lo && lo + cnt <= w.maxx
    ensures |vals| == cnt
    ensures forall i :: 0 <= i < cnt ==> vals[i] == (Get(h, w, w.cury, lo + i) & A_CHARTEXT) | a
  {
    seq(cnt, i requires 0 <= i < cnt => (Get(h, w, w.cury, lo + i) & A_CHARTEXT) | a)
  }

  /**
   * wchgat's drawing, before its PDC_sync (SyncDraw.WChgAtCall adds
   * the null check and the sync): from the cursor to ChgAtEnd, every cell keeps its character
   * and takes the given video attributes and colour pair; the cursor row's
   * span widens to cover the run; nothing else changes.
   */
  function WChgAt(h: Heap, w: Win, n: int, attr: Cell, color: Cell): (d: Drawn)
    requires Wf(h, w) && CursorIn(w)
    ensures d.status == OK
    ensures SameShape(h, d.heap) && Wf(d.heap, d.win)
    ensures d.win == Widen(w, w.cury, w.curx, ChgAtEnd(w, n))
    ensures forall r, c :: 0 <= r < w.maxy && 0 <= c < w.maxx ==>
      Get(d.heap, d.win, r, c) ==
        (if r == w.cury && w.curx <= c <= ChgAtEnd(w, n)
         then (Get(h, w, r, c) & A_CHARTEXT) | ChgAtAttr(attr, color)
         else Get(h, w, r, c))
  {
    var newattr := ChgAtAttr(attr, color);
    var endpos := ChgAtEnd(w, n);
    var cnt := if endpos < w.curx then 0 else endpos - w.curx + 1;
    var vals := Restyled(h, w, w.curx, cnt, newattr);
    var h' := PutRun(h, w, w.cury, w.curx, vals);
    WidenWf(h', w, w.cury, w.curx, endpos);
    Drawn(OK, h', Widen(w, w.cury, w.curx, endpos))
  }
}
