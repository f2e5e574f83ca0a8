/**
 * The session lifecycle (initscr.c): initscr opens the screen, sets the
 * initial modes and builds curscr and stdscr; endwin suspends the
 * session until the next doupdate; delscreen tears it down; resize_term
 * rebuilds curscr and stdscr for a new terminal size.
 *
 * The platform's answers (whether the screen opens, its size, whether
 * the existing contents are kept, whether a resize succeeds and the new
 * size) are parameters.  curscr is Refresh's record; stdscr lives in the
 * window store.
 */
module Lifecycle {
  import opened Base
  import opened Cells
  import opened Store
  import opened Windows
  import opened Refresh
  import opened MouseDefs

  /** The SCREEN fields the lifecycle reads and writes. */
  datatype Screen = Screen(
    alive: bool, lines: int, cols: int,
    autocr: bool, rawOut: bool, rawInp: bool, cbreak: bool, echo: bool,
    visibility: int, resized: bool, trapMbe: Bits, mapMbe: Bits,
    linesrippedoff: int, linesrippedoffontop: int, delaytenths: int, lineColor: int,
    slklines: int, preserve: bool, mono: bool, cursrow: int, curscol: int)

  /** A ripoffline request waiting for initscr: a line taken from the top or from the bottom. */
  datatype RipOff = FromTop | FromBottom

  /**
   * The session: its SCREEN (absent before the first initscr and after
   * delscreen), LINES and COLS, the window store, stdscr, curscr, the
   * getch read index, the mouse status, the terminal name, the pending
   * ripoffline requests and the format given to slk_init, if any.
   */
  datatype Session = Session(
    sp: Option<Screen>, lines: int, cols: int, store: Store,
    stdscr: Option<WinId>, curscr: Option<Curscr>, gindex: int, mouse: MouseStatus,
    ttytype: string, ripoffs: seq<RipOff>, slkFmt: Option<int>)

  /** What PDC_scr_open reports: failure, or the terminal's size, whether its contents are kept and whether it lacks colour. */
  datatype Opened = OpenFailed | Opened(lines: int, cols: int, preserve: bool, mono: bool)

  /** The SCREEN PDC_scr_open allocates: zeroed, with what the platform reports filled in. */
  function FreshScreen(op: Opened): Screen
    requires op.Opened?
  {
    Screen(false, op.lines, op.cols, false, false, false, false, false, 0, false, {}, {}, 0, 0, 0, 0, 0, op.preserve, op.mono, 0, 0)
  }

  /** The lines the soft labels take: two with the index line (format 3), one for the other formats, none without slk_init. */
  function SlkLines(fmt: Option<int>): (n: int)
    ensures fmt.None? ==> n == 0
    ensures fmt.Some? ==> (n == 2 <==> fmt.value == 3) && 1 <= n <= 2
  {
    if fmt.None? then 0 else if fmt.value == 3 then 2 else 1
  }

  /** The number of requests for a line from the top. */
  function CountTop(rs: seq<RipOff>): (n: nat)
    ensures n <= |rs|
    ensures (forall i :: 0 <= i < |rs| ==> rs[i] == FromBottom) ==> n == 0
    ensures (forall i :: 0 <= i < |rs| ==> rs[i] == FromTop) ==> n == |rs|
  {
    if rs == [] then 0 else (if rs[0] == FromTop then 1 else 0) + CountTop(rs[1..])
  }

  /** The modes initscr starts a session in. */
  predicate InitialModes(sc: Screen)
  {
    sc.autocr && sc.cbreak && sc.echo && !sc.rawInp && !sc.rawOut &&
    sc.trapMbe == {} && sc.mapMbe == {} && sc.delaytenths == 0 && sc.visibility == 1 &&
    !sc.resized && sc.lineColor == -1
  }

  /** The curscr newwin builds: blank, every row changed over its full width, the cursor at the origin. */
  function NewCurscr(nlines: nat, ncols: nat, clear: bool): (cs: Curscr)
    requires ncols >= 1
    ensures ScreenOk(cs, ncols) && |cs.lines| == nlines && cs.clear == clear && cs.cury == 0 && cs.curx == 0
    ensures forall y :: 0 <= y < nlines ==> cs.lines[y] == Repeat(BLANK, ncols)
    ensures forall y :: 0 <= y < nlines ==> cs.firstch[y] == 0 && cs.lastch[y] == ncols - 1
  {
    Curscr(Repeat(Repeat(BLANK, ncols), nlines), Repeat(0, nlines), Repeat(ncols - 1, nlines), 0, 0, clear)
  }

  /** untouchwin on curscr with its clear flag dropped: no row is marked changed. */
  function Untouched(cs: Curscr, cols: int): (cs': Curscr)
    requires ScreenOk(cs, cols)
    ensures ScreenOk(cs', cols) && cs'.lines == cs.lines && !cs'.clear && cs'.cury == cs.cury && cs'.curx == cs.curx
    ensures forall y :: 0 <= y < |cs.lines| ==> cs'.firstch[y] == NO_CHANGE && cs'.lastch[y] == NO_CHANGE
  {
    cs.(firstch := Repeat(NO_CHANGE, |cs.lines|), lastch := Repeat(NO_CHANGE, |cs.lines|), clear := false)
  }

  /** untouchwin on a window with its clear flag dropped. */
  function Preserved(w: Win): (w': Win)
    requires Shaped(w)
    ensures Shaped(w') && w' == w.(firstch := w'.firstch, lastch := w'.lastch, clear := false)
    ensures forall r :: 0 <= r < w.maxy ==> w'.firstch[r] == NO_CHANGE && w'.lastch[r] == NO_CHANGE
  {
    UntouchWin(w).(clear := false)
  }

  /** What a successful initscr leaves, stdscr being `id`. */
  predicate Started(s: Session, op: Opened, sysname: string, id: WinId, r: Session)
  {
    StartedScreen(s, op, sysname, r) && StartedWindows(op, id, r)
  }

  /**
   * The screen and session fields after initscr: alive in the initial
   * modes at the platform's size, the soft-label and ripped-off lines
   * taken from LINES, the mouse reset and the terminal named.
   */
  predicate StartedScreen(s: Session, op: Opened, sysname: string, r: Session)
  {
    op.Opened? && r.sp.Some? &&
    var sc := r.sp.value;
    var slk := SlkLines(s.slkFmt);
    sc.alive && InitialModes(sc) && sc.lines == op.lines && sc.cols == op.cols && sc.mono == op.mono &&
    sc.slklines == slk && sc.linesrippedoff == |s.ripoffs| && sc.linesrippedoffontop == CountTop(s.ripoffs) &&
    r.lines == op.lines - slk - |s.ripoffs| && r.cols == op.cols && r.gindex == 1 &&
    r.mouse == InitialMouse && r.ripoffs == [] && r.ttytype == "pdcurses|PDC on " + sysname
  }

  /**
   * curscr and stdscr after initscr: stdscr LINES by COLS below the lines
   * taken from the top, curscr the screen's size; both marked for a full
   * repaint, or, when the existing contents are kept, both unchanged.
   */
  predicate StartedWindows(op: Opened, id: WinId, r: Session)
  {
    op.Opened? && r.sp.Some? && r.stdscr == Some(id) && r.curscr.Some? && id in r.store.wins &&
    var w := r.store.wins[id];
    var cs := r.curscr.value;
    w.begy == r.sp.value.linesrippedoffontop && w.begx == 0 && w.maxy == r.lines && w.maxx == r.cols &&
    w.flags == 0 && w.cury == 0 && w.curx == 0 && Shaped(w) &&
    ScreenOk(cs, r.cols) && |cs.lines| == op.lines && (cs.clear <==> !op.preserve) && (w.clear <==> !op.preserve) &&
    (op.preserve ==> Clean(w) && forall y :: 0 <= y < |cs.lines| ==> cs.firstch[y] == NO_CHANGE)
  }

  /**
   * initscr: NULL with the session untouched while a session is alive or
   * when the platform cannot open the screen.  Otherwise the opened
   * screen is installed with the initial modes; a terminal smaller than
   * 2x2, or curscr or stdscr that cannot be built, then gives NULL with
   * that screen left not alive and the store as it was.  On success the
   * result is stdscr, as Started describes, in a running session.
   */
  method InitScr(s: Session, op: Opened, allocOk: bool, sysname: string) returns (id: Option<WinId>, r: Session)
    requires StoreOk(s.store)
    ensures (s.sp.Some? && s.sp.value.alive) || op.OpenFailed? ==> id.None? && r == s
    ensures id.Some? <==> (!(s.sp.Some? && s.sp.value.alive) && op.Opened? && op.lines >= 2 && op.cols >= 2 && allocOk &&
      var lines := op.lines - SlkLines(s.slkFmt) - |s.ripoffs|;
      lines > 0 || (lines == 0 && CountTop(s.ripoffs) == 0))
    ensures (!(s.sp.Some? && s.sp.value.alive) && op.Opened? && id.None?) ==>
      (r.sp.Some? && !r.sp.value.alive && InitialModes(r.sp.value) && r.gindex == 1 && r.store == s.store)
    ensures id.Some? ==> Started(s, op, sysname, id.value, r) && Running(r)
  {
    if (s.sp.Some? && s.sp.value.alive) || op.OpenFailed? {
      return None, s;
    }
    var sc := FreshScreen(op).(
      autocr := true, rawOut := false, rawInp := false, cbreak := true, echo := true,
      visibility := 1, resized := false, trapMbe := {}, mapMbe := {},
      linesrippedoff := 0, linesrippedoffontop := 0, delaytenths := 0, lineColor := -1);
    r := s.(sp := Some(sc), lines := op.lines, cols := op.cols, gindex := 1);
    if op.lines < 2 || op.cols < 2 {
      return None, r;
    }
    id, r := BuildScreens(s, r, op, allocOk, sysname);
  }

  /**
   * The second half of initscr, on a screen at least 2x2: curscr the
   * size of the screen, the soft-label and ripped-off lines taken from
   * LINES, then stdscr, then the finishing touches of Start.
   */
  method BuildScreens(s: Session, r0: Session, op: Opened, allocOk: bool, sysname: string) returns (id: Option<WinId>, r: Session)
    requires StoreOk(s.store) && op.Opened? && op.lines >= 2 && op.cols >= 2
    requires r0 == s.(sp := r0.sp, lines := op.lines, cols := op.cols, gindex := 1)
    requires r0.sp.Some? && !r0.sp.value.alive && InitialModes(r0.sp.value)
    requires var sc := r0.sp.value; sc.lines == op.lines && sc.cols == op.cols && sc.mono == op.mono && sc.preserve == op.preserve
    ensures id.Some? <==> (allocOk &&
      var lines := op.lines - SlkLines(s.slkFmt) - |s.ripoffs|;
      lines > 0 || (lines == 0 && CountTop(s.ripoffs) == 0))
    ensures id.None? ==> r.sp.Some? && !r.sp.value.alive && InitialModes(r.sp.value) && r.gindex == 1 && r.store == s.store
    ensures id.Some? ==> Started(s, op, sysname, id.value, r) && Running(r)
  {
    if !Allocates(allocOk, op.lines, op.cols) {
      return None, r0;
    }
    var sc := r0.sp.value;
    var slk := SlkLines(s.slkFmt);
    var top := CountTop(s.ripoffs);
    var lines := op.lines - slk - |s.ripoffs|;
    var sc2 := sc.(slklines := slk, linesrippedoff := |s.ripoffs|, linesrippedoffontop := top);
    r := r0.(sp := Some(sc2), curscr := Some(NewCurscr(op.lines, op.cols, true)), lines := lines, ripoffs := []);
    id, r := MakeStdscr(s, r, op, allocOk);
    if id.Some? {
      assert Built(s, op, id.value, r);
      BuiltStarts(s, op, sysname, id.value, r);
      r := Start(r, id.value, sysname);
    }
  }

  /** The session just before Start: curscr and stdscr built, the lines taken, the screen not yet alive. */
  predicate Built(s: Session, op: Opened, id: WinId, r: Session)
  {
    op.Opened? && op.lines >= 2 && op.cols >= 2 && StoreOk(r.store) && id in r.store.wins && r.stdscr == Some(id) &&
    r.curscr == Some(NewCurscr(op.lines, op.cols, true)) && r.sp.Some? &&
    var sc := r.sp.value;
    var w := r.store.wins[id];
    var slk := SlkLines(s.slkFmt);
    InitialModes(sc) && sc.lines == op.lines && sc.cols == op.cols && sc.mono == op.mono && sc.preserve == op.preserve &&
    sc.slklines == slk && sc.linesrippedoff == |s.ripoffs| && sc.linesrippedoffontop == CountTop(s.ripoffs) &&
    r.lines == op.lines - slk - |s.ripoffs| && r.cols == op.cols && r.gindex == 1 && r.ripoffs == [] &&
    w.begy == CountTop(s.ripoffs) && w.begx == 0 && w.maxy == r.lines && w.maxx == op.cols &&
    w.flags == 0 && w.cury == 0 && w.curx == 0 && Shaped(w) && w.clear
  }

  /** Start on a built session gives what Started describes, in a running session. */
  lemma BuiltStarts(s: Session, op: Opened, sysname: string, id: WinId, r: Session)
    requires Built(s, op, id, r)
    ensures Started(s, op, sysname, id, Start(r, id, sysname)) && Running(Start(r, id, sysname))
  {
    var r' := Start(r, id, sysname);
    assert StartedScreen(s, op, sysname, r');
    BuiltWindows(s, op, sysname, id, r);
    StartedRuns(s, op, sysname, id, r');
  }

  /** Start on a built session leaves curscr and stdscr as StartedWindows describes. */
  lemma BuiltWindows(s: Session, op: Opened, sysname: string, id: WinId, r: Session)
    requires Built(s, op, id, r)
    ensures StartedWindows(op, id, Start(r, id, sysname))
  {
  }

  /** A session initscr starts is running. */
  lemma StartedRuns(s: Session, op: Opened, sysname: string, id: WinId, r: Session)
    requires Started(s, op, sysname, id, r) && StoreOk(r.store)
    ensures Running(r)
  {
    assert CountTop(s.ripoffs) <= |s.ripoffs| && SlkLines(s.slkFmt) >= 0;
  }

  /**
   * The stdscr step of initscr: newwin of LINES by COLS at the first row
   * below the lines taken from the top.  It fails, leaving the session as
   * it was, when allocation fails or LINES is negative, and when LINES is
   * 0 with lines taken from the top (newwin then reads the height as
   * "down to the bottom", a negative height).
   */
  method MakeStdscr(s: Session, r0: Session, op: Opened, allocOk: bool) returns (id: Option<WinId>, r: Session)
    requires StoreOk(s.store) && op.Opened? && op.cols >= 2 && r0.store == s.store && r0.cols == op.cols && r0.sp.Some?
    requires r0.lines == op.lines - SlkLines(s.slkFmt) - |s.ripoffs|
    ensures id.Some? <==> (allocOk && (r0.lines > 0 || (r0.lines == 0 && CountTop(s.ripoffs) == 0)))
    ensures id.None? ==> r == r0
    ensures id.Some? ==> (r == r0.(store := r.store, stdscr := id) && StoreOk(r.store) && id.value in r.store.wins &&
      var w := r.store.wins[id.value];
      w.begy == CountTop(s.ripoffs) && w.begx == 0 && w.maxy == r0.lines && w.maxx == op.cols &&
      w.flags == 0 && w.cury == 0 && w.curx == 0 && Shaped(w) && w.clear)
  {
    var top := CountTop(s.ripoffs);
    var d := Dims(r0.lines, op.cols, op.lines, op.cols);
    assert 0 <= top <= |s.ripoffs| && SlkLines(s.slkFmt) >= 0;
    var made := NewWin(s.store, d, r0.lines, op.cols, top, 0, allocOk);
    id := made.0;
    r := r0;
    if id.Some? {
      NewWinKeepsStore(s.store, d, r0.lines, op.cols, top, 0, allocOk);
      r := r0.(store := made.1, stdscr := id);
    }
  }

  /** The end of initscr: untouch both screens when keeping the contents, then the mouse, alive and the name. */
  function Start(s: Session, id: WinId, sysname: string): (r: Session)
    requires s.sp.Some? && s.curscr.Some? && StoreOk(s.store) && id in s.store.wins
    requires ScreenOk(s.curscr.value, s.cols)
    ensures StoreOk(r.store) && id in r.store.wins && r.stdscr == s.stdscr
    ensures r.sp == Some(s.sp.value.(alive := true)) && r.mouse == InitialMouse
    ensures r.ttytype == "pdcurses|PDC on " + sysname
    ensures r == s.(store := r.store, curscr := r.curscr, sp := r.sp, mouse := r.mouse, ttytype := r.ttytype)
    ensures r.store.heap == s.store.heap && r.store.wins.Keys == s.store.wins.Keys
    ensures s.sp.value.preserve ==> (r.store.wins[id] == Preserved(s.store.wins[id]) &&
      r.curscr == Some(Untouched(s.curscr.value, s.cols)))
    ensures !s.sp.value.preserve ==> (r.store == s.store && r.curscr == Some(s.curscr.value.(clear := true)))
  {
    var s' := if s.sp.value.preserve then
        SpansOnlyKeepsStore(s.store, id, Preserved(s.store.wins[id]));
        s.(store := s.store.(wins := s.store.wins[id := Preserved(s.store.wins[id])]),
           curscr := Some(Untouched(s.curscr.value, s.cols)))
      else s.(curscr := Some(s.curscr.value.(clear := true)));
    s'.(sp := Some(s.sp.value.(alive := true)), mouse := InitialMouse, ttytype := "pdcurses|PDC on " + sysname)
  }

  /** isendwin: the session has a screen that is not alive. */
  predicate IsEndWin(s: Session)
  {
    s.sp.Some? && !s.sp.value.alive
  }

  /** endwin: the screen stops being alive; everything else stays for the return to curses mode. */
  function EndWin(s: Session): (r: (Status, Session))
    requires s.sp.Some?
    ensures r.0 == OK && IsEndWin(r.1)
    ensures r.1 == s.(sp := Some(s.sp.value.(alive := false)))
  {
    (OK, s.(sp := Some(s.sp.value.(alive := false))))
  }

  /** The terminal state doupdate works with, taken from the screen. */
  function PhysOf(sc: Screen): Phys
  {
    Phys(sc.alive, sc.visibility, sc.cursrow, sc.curscol)
  }

  /** doupdate on the session: curscr is painted and the screen takes doupdate's terminal state. */
  function SessionDoUpdate(s: Session): (r: (Status, Session, seq<Paint>))
    requires s.sp.Some? && (s.curscr.Some? ==> ScreenOk(s.curscr.value, s.cols))
    ensures r.0 == ERR <==> s.curscr.None?
    ensures r.0 == OK ==> (r.1.sp.Some? && r.1.sp.value.alive && r.1.curscr.Some? &&
      Updated(s.curscr.value, s.cols, r.1.curscr.value))
    ensures r.0 == OK ==> (s.sp.value.alive <==> !(|r.2| > 0 && r.2[0] == ResetProgMode))
  {
    var (st, cs, ph, ps) := DoUpdate(s.curscr, PhysOf(s.sp.value), s.cols);
    var sc := s.sp.value.(alive := ph.alive, cursrow := ph.cursrow, curscol := ph.curscol);
    (st, s.(curscr := cs, sp := Some(sc)), ps)
  }

  /**
   * After endwin, isendwin holds until doupdate.  That doupdate first
   * resets the program mode and repaints everything: whatever the
   * terminal shows meanwhile (a shell, another program), it shows
   * curscr's lines afterwards, and the session is running again.
   */
  lemma EndwinUntilDoupdate(s: Session, term: seq<Line>)
    requires s.sp.Some? && s.curscr.Some? && ScreenOk(s.curscr.value, s.cols)
    requires |term| == |s.curscr.value.lines| && forall y :: 0 <= y < |term| ==> |term[y]| == s.cols
    ensures var e := EndWin(s).1;
      var (st, d, ps) := SessionDoUpdate(e);
      IsEndWin(e) && st == OK && !IsEndWin(d) && |ps| > 0 && ps[0] == ResetProgMode &&
      Apply(term, ps) == s.curscr.value.lines
  {
    var e := EndWin(s).1;
    DoUpdateShows(s.curscr.value, PhysOf(e.sp.value), s.cols, term);
  }

  /** Without a screen, isendwin is false. */
  lemma NoScreenNotEnded(s: Session)
    requires s.sp.None?
    ensures !IsEndWin(s)
  {
  }

  /**
   * delscreen: stdscr is deleted from the store and the session is left
   * without stdscr, curscr or a screen.
   */
  function DelScreen(s: Session): (r: Session)
    requires s.sp.Some? && Valid(s.store, s.stdscr)
    ensures r.sp.None? && r.stdscr.None? && r.curscr.None? && !IsEndWin(r)
    ensures s.stdscr.Some? ==> r.store.wins == s.store.wins - {s.stdscr.value}
    ensures s.stdscr.None? ==> r.store == s.store
    ensures r == s.(sp := None, stdscr := None, curscr := None, store := r.store)
  {
    var st := DelWin(s.store, s.stdscr).1;
    s.(store := st, stdscr := None, curscr := None, sp := None)
  }

  /** delscreen keeps the store consistent when nothing depends on stdscr. */
  lemma DelScreenKeepsStore(s: Session)
    requires s.sp.Some? && Valid(s.store, s.stdscr) && StoreOk(s.store)
    requires s.stdscr.Some? ==> NoDependents(s.store, s.stdscr.value)
    ensures StoreOk(DelScreen(s).store)
  {
    if s.stdscr.Some? {
      DelWinKeepsStore(s.store, s.stdscr.value);
    }
  }

  /**
   * A running session: a screen, stdscr and curscr, a consistent store,
   * stdscr an ordinary window at the left edge starting within the lines
   * taken from the top and bottom, and curscr the screen's size.
   */
  predicate Running(s: Session)
  {
    s.sp.Some? && s.stdscr.Some? && s.curscr.Some? && StoreOk(s.store) && s.stdscr.value in s.store.wins &&
    var sc := s.sp.value;
    var w := s.store.wins[s.stdscr.value];
    w.flags & SUBWIN == 0 && w.begx == 0 && 0 <= w.begy <= sc.linesrippedoff + sc.slklines && sc.slklines >= 0 &&
    sc.cols == s.cols && ScreenOk(s.curscr.value, s.cols) && |s.curscr.value.lines| == sc.lines
  }

  /** Changing only a window's spans and clear flag, with the spans in range, keeps the store consistent. */
  lemma SpansOnlyKeepsStore(st: Store, id: WinId, n: Win)
    requires StoreOk(st) && id in st.wins && Shaped(n) && SpansIn(n)
    requires n == st.wins[id].(firstch := n.firstch, lastch := n.lastch, clear := n.clear)
    ensures StoreOk(st.(wins := st.wins[id := n]))
  {
    var w := st.wins[id];
    assert Wf(st.heap, w);
    assert Backed(st.heap, n) && Distinct(n) by {
      assert n.rows == w.rows && n.maxx == w.maxx && n.maxy == w.maxy;
    }
    ReplaceWindowKeepsStore(st, id, n);
  }

  /**
   * wresize on curscr: the new size, the old cells where old and new
   * overlap and blanks elsewhere, every row changed across the full
   * width, the cursor kept when it is still on the screen and moved to
   * the last row or column otherwise.
   */
  function ResizeCurscr(cs: Curscr, oldCols: int, nlines: nat, ncols: nat): (r: Curscr)
    requires ScreenOk(cs, oldCols) && ncols >= 1
    ensures ScreenOk(r, ncols) && |r.lines| == nlines && r.clear == cs.clear
    ensures forall y, x :: 0 <= y < nlines && 0 <= x < ncols ==>
      r.lines[y][x] == if y < |cs.lines| && x < oldCols then cs.lines[y][x] else BLANK
    ensures forall y :: 0 <= y < nlines ==> r.firstch[y] == 0 && r.lastch[y] == ncols - 1
    ensures 0 <= cs.cury < nlines ==> r.cury == cs.cury
    ensures 0 <= cs.curx < ncols ==> r.curx == cs.curx
    ensures 0 <= cs.cury && 0 < nlines ==> 0 <= r.cury < nlines
    ensures 0 <= cs.curx ==> 0 <= r.curx < ncols
  {
    var lines := seq(nlines, y requires 0 <= y < nlines =>
      seq(ncols, x requires 0 <= x < ncols => if y < |cs.lines| && x < oldCols then cs.lines[y][x] else BLANK));
    Curscr(lines, Repeat(0, nlines), Repeat(ncols - 1, nlines),
           ResizeCursor(cs.cury, nlines), ResizeCursor(cs.curx, ncols), cs.clear)
  }

  /**
   * touchwin then wnoutrefresh of stdscr `id`: the window is copied
   * onto curscr in full and left with no changes.
   */
  function RefreshStdscr(st: Store, id: WinId, cs: Curscr, cols: int): (r: (Store, Curscr))
    requires StoreOk(st) && id in st.wins && ScreenOk(cs, cols) && OnScreen(st.wins[id], cs, cols)
    ensures StoreOk(r.0) && r.0.heap == st.heap && id in r.0.wins && r.0.wins == st.wins[id := r.0.wins[id]]
    ensures Refreshed(st.heap, TouchWin(st.wins[id]), cs, cols, r.0.wins[id], r.1)
  {
    var w := st.wins[id];
    TouchWinWf(st.heap, w);
    var (_, w', cs') := WNoutRefresh(st.heap, Some(TouchWin(w)), cs, cols);
    SpansOnlyKeepsStore(st, id, w'.value);
    (st.(wins := st.wins[id := w'.value]), cs')
  }

  /**
   * The stdscr half of resize_term: wresize stdscr `id` to the new size
   * at its old origin (ERR, with the store unchanged, when that fails),
   * then touchwin and wnoutrefresh, which copy all of it onto curscr and
   * leave it with no changes.
   */
  method ResizeStdscr(st: Store, id: WinId, cs: Curscr, lines: int, columns: int, slklines: int, allocOk: bool)
    returns (status: Status, st': Store, cs': Curscr)
    requires StoreOk(st) && id in st.wins && BlockUnshared(st, id) && ScreenOk(cs, columns)
    requires var w := st.wins[id]; w.flags & SUBWIN == 0 && w.begx == 0 && 0 <= w.begy && w.begy + lines <= |cs.lines|
    ensures status == OK <==> Allocates(allocOk, lines, columns)
    ensures status == ERR ==> st' == st && cs' == cs
    ensures status == OK ==> (StoreOk(st') && id in st'.wins &&
      var (w, n) := (st.wins[id], st'.wins[id]);
      n.maxy == lines && n.maxx == columns && n.begy == w.begy && n.begx == 0 && n.flags == w.flags && Shaped(n) && Clean(n) &&
      ScreenOk(cs', columns) && |cs'.lines| == |cs.lines| && cs'.clear == cs.clear)
  {
    var d := Dims(lines, columns, |cs.lines|, columns);
    ResizeWindowKeepsStore(st, id, lines, columns, d, SlkPlace(None, slklines), allocOk);
    var res := WResize(st, Some(id), lines, columns, d, SlkPlace(None, slklines), allocOk);
    status := res.0;
    if status == ERR {
      st', cs' := st, cs;
    } else {
      var n := res.1.wins[id];
      assert OnScreen(n, cs, columns);
      var refreshed := RefreshStdscr(res.1, id, cs, columns);
      st', cs' := refreshed.0, refreshed.1;
    }
  }

  /**
   * resize_term: ERR without stdscr or when the platform cannot resize.
   * Otherwise the screen takes the platform's new size and LINES and COLS
   * follow it; then curscr and stdscr are resized in turn, and a failure
   * there returns ERR with the earlier steps kept, not rolled back.
   * Success leaves a running session whose stdscr has the new LINES and
   * COLS and is all on curscr, and curscr marked for a full repaint.
   */
  method ResizeTerm(s: Session, platformOk: bool, rows: int, columns: int, curscrOk: bool, stdscrOk: bool)
    returns (status: Status, r: Session)
    requires s.stdscr.Some? ==> Running(s) && BlockUnshared(s.store, s.stdscr.value)
    requires s.stdscr.Some? && platformOk ==> columns >= 1
    ensures status == OK <==> (s.stdscr.Some? && platformOk && curscrOk && rows >= 0 &&
      stdscrOk && rows - s.sp.value.linesrippedoff - s.sp.value.slklines >= 0)
    ensures s.stdscr.None? || !platformOk ==> status == ERR && r == s
    ensures s.stdscr.Some? && platformOk ==> (r.sp == Some(s.sp.value.(lines := rows, cols := columns)) &&
      r.cols == columns && r.lines == rows - s.sp.value.linesrippedoff - s.sp.value.slklines &&
      r == s.(sp := r.sp, cols := r.cols, lines := r.lines, store := r.store, curscr := r.curscr))
    ensures status == ERR ==> r.store == s.store
    ensures (status == ERR && s.stdscr.Some? && platformOk && Allocates(curscrOk, rows, columns)) ==>
      r.curscr == Some(ResizeCurscr(s.curscr.value, s.cols, rows, columns))
    ensures status == OK ==> (Running(r) && r.stdscr == s.stdscr && r.curscr.value.clear &&
      |r.curscr.value.lines| == rows && r.store.wins[s.stdscr.value].maxy == r.lines &&
      r.store.wins[s.stdscr.value].maxx == columns && Clean(r.store.wins[s.stdscr.value]))
  {
    if s.stdscr.None? || !platformOk {
      return ERR, s;
    }
    var sc := s.sp.value;
    var lines := rows - sc.linesrippedoff - sc.slklines;
    r := s.(sp := Some(sc.(cols := columns, lines := rows)), cols := columns, lines := lines);
    if !Allocates(curscrOk, rows, columns) {
      return ERR, r;
    }
    var cs := ResizeCurscr(s.curscr.value, s.cols, rows, columns);
    r := r.(curscr := Some(cs));
    var store, cs';
    status, store, cs' := ResizeStdscr(s.store, s.stdscr.value, cs.(clear := true), lines, columns, sc.slklines, stdscrOk);
    if status == OK {
      r := r.(store := store, curscr := Some(cs'));
    }
  }
}
