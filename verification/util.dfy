/**
 * Small session queries (util.c, termattr.c): unctrl, the LINES, COLS
 * and stdscr accessors, the edit characters, the terminal's attributes
 * and names.
 */
module Util {
  import opened Base
  import opened Cells
  import opened Store
  import GetStr
  import opened Lifecycle

  /** The character part of a chtype: its low byte. */
  function CharText(c: Cell): (ic: nat)
    ensures ic < 256 && ic as bv16 == c & A_CHARTEXT
  {
    (c & A_CHARTEXT) as nat
  }

  /** A character unctrl prints as itself: neither a C0 control nor DEL. */
  predicate Printable(ic: nat)
  {
    ic >= 0x20 && ic != 0x7f
  }

  /**
   * unctrl: the attributes are ignored; a printable character stands for
   * itself, DEL is "^?" and any other control character is '^' followed
   * by the character 0x40 above it.
   */
  function Unctrl(c: Cell): (r: string)
    ensures |r| == 1 <==> Printable(CharText(c))
    ensures |r| == 1 ==> r[0] as int == CharText(c)
    ensures |r| != 1 ==> |r| == 2 && r[0] == '^'
    ensures CharText(c) == 0x7f ==> r == "^?"
    ensures CharText(c) < 0x20 ==> r[1] as int == CharText(c) + 0x40
  {
    var ic := CharText(c);
    if Printable(ic) then [ic as char]
    else if ic == 0x7f then "^?"
    else ['^', (ic + '@' as int) as char]
  }

  /** unctrl tells characters apart: two chtypes print alike exactly when their character parts agree. */
  lemma UnctrlDistinguishes(a: Cell, b: Cell)
    ensures Unctrl(a) == Unctrl(b) <==> CharText(a) == CharText(b)
  {
  }

  /** The attributes of a chtype do not change how unctrl prints it. */
  lemma UnctrlIgnoresAttributes(c: Cell, attrs: Cell)
    ensures Unctrl((c & A_CHARTEXT) | (attrs & A_ATTRIBUTES)) == Unctrl(c)
  {
    assert ((c & A_CHARTEXT) | (attrs & A_ATTRIBUTES)) & A_CHARTEXT == c & A_CHARTEXT;
  }

  /** LINES, COLS and stdscr read the session's own fields. */
  function Lines(s: Session): int { s.lines }
  function Cols(s: Session): int { s.cols }
  function StdScr(s: Session): Option<WinId> { s.stdscr }

  /** After initscr, LINES counts the rows left to stdscr: the screen's less the soft-label and ripped-off lines. */
  lemma StartedLines(s: Session, op: Opened, sysname: string, id: WinId, r: Session)
    requires Started(s, op, sysname, id, r)
    ensures StdScr(r) == Some(id) && Cols(r) == op.cols && r.store.wins[id].maxy == Lines(r)
    ensures Lines(r) + r.sp.value.slklines + r.sp.value.linesrippedoff == op.lines
  {
  }

  /** erasechar: ^H.  erasechar, killchar and wordchar are the keys wgetnstr edits with. */
  function EraseChar(): (c: int)
    ensures c == GetStr.ECHAR && c == 8
  {
    0x08
  }

  /** killchar: ^U. */
  function KillChar(): (c: int)
    ensures c == GetStr.DLCHAR && c == 0x15
  {
    0x15
  }

  /** wordchar: ^W. */
  function WordChar(): (c: int)
    ensures c == GetStr.DWCHAR && c == 0x17
  {
    0x17
  }

  /** The largest int of the C platform, which baudrate reports. */
  const INT_MAX: int := 0x7fff_ffff

  /** baudrate, has_ic and has_il: constants of this terminal-less library. */
  function BaudRate(): int { INT_MAX }
  function HasIc(): bool { true }
  function HasIl(): bool { true }

  /** termname: always "pdcurses". */
  function TermName(): string { "pdcurses" }

  /**
   * termattrs: blink, bold and reverse (the invisible and underline
   * attributes are zero in the 16-bit chtype), and the colour field
   * unless the screen is monochrome.
   */
  function TermAttrs(s: Session): (a: Cell)
    requires s.sp.Some?
    ensures a & A_BLINK == A_BLINK && a & A_BOLD == A_BOLD && a & A_REVERSE == A_REVERSE
    ensures a & A_COLOR == (if s.sp.value.mono then 0 else A_COLOR)
    ensures a & A_CHARTEXT == 0
  {
    var temp := A_BLINK | A_BOLD | A_INVIS | A_REVERSE | A_UNDERLINE;
    if !s.sp.value.mono then temp | A_COLOR else temp
  }

  /** term_attrs: the WA_ attributes, which in the 16-bit chtype are the A_ ones. */
  function TermAttrsWide(): (a: Cell)
    ensures a == A_BLINK | A_BOLD | A_REVERSE
  {
    A_BLINK | A_BOLD | A_INVIS | A_LEFTLINE | A_REVERSE | A_RIGHTLINE | A_UNDERLINE
  }

  /** longname: the terminal name past its "pdcurses|" prefix (nothing when the name is shorter). */
  function LongName(s: Session): (r: string)
    ensures |s.ttytype| >= 9 ==> s.ttytype == s.ttytype[..9] + r
    ensures |s.ttytype| < 9 ==> r == ""
  {
    if |s.ttytype| >= 9 then s.ttytype[9..] else ""
  }

  /** longname of a session named "pdcurses|" followed by `rest` is `rest`. */
  lemma LongNameOf(s: Session, rest: string)
    requires s.ttytype == "pdcurses|" + rest
    ensures LongName(s) == rest
  {
    assert s.ttytype[9..] == rest;
  }

  /** After initscr, longname describes the platform and termname names the library. */
  lemma StartedNames(s: Session, op: Opened, sysname: string, id: WinId, r: Session)
    requires Started(s, op, sysname, id, r)
    ensures LongName(r) == "PDC on " + sysname && r.ttytype == TermName() + "|" + LongName(r)
  {
    LongNameOf(r, "PDC on " + sysname);
  }
}
