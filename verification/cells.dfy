/**
 * Character cells of the 16-bit build: `chtype` and `attr_t` are both
 * an unsigned short holding an 8-bit character in the low byte and an
 * 8-bit attribute field in the high byte, whose top five bits are the
 * colour-pair number.  The attributes that have no bit of their own in
 * this build (underline, alternate character set, ...) are A_NORMAL.
 */
module Cells {

  type Cell = bv16

  const A_NORMAL: Cell := 0
  const A_BOLD: Cell := 0x0100
  const A_REVERSE: Cell := 0x0200
  const A_BLINK: Cell := 0x0400

  const A_ATTRIBUTES: Cell := 0xff00
  const A_CHARTEXT: Cell := 0x00ff
  const A_COLOR: Cell := 0xf800
  /** The non-colour attribute bits. */
  const A_VIDEO: Cell := A_ATTRIBUTES & !A_COLOR

  const A_ALTCHARSET: Cell := A_NORMAL
  const A_PROTECT: Cell := A_NORMAL
  const A_UNDERLINE: Cell := A_NORMAL
  const A_LEFTLINE: Cell := A_NORMAL
  const A_RIGHTLINE: Cell := A_NORMAL
  const A_ITALIC: Cell := A_NORMAL
  const A_INVIS: Cell := A_NORMAL

  const PDC_ATTR_SHIFT: nat := 8
  const PDC_COLOR_SHIFT: nat := 11

  const A_STANDOUT: Cell := A_REVERSE | A_BOLD
  const A_DIM: Cell := A_NORMAL

  /** Number of colour pairs the 16-bit build can encode. */
  const PDC_COLOR_PAIRS: nat := 32

  /** The blank a new window is filled with. */
  const BLANK: Cell := 0x20

  /** C's conversion of an `int` or `short` to the unsigned 16-bit chtype. */
  function ToChtype(n: int): Cell
  {
    (n % 0x1_0000) as bv16
  }

  /** COLOR_PAIR(n), for `n` already converted to chtype. */
  function ColorPair(n: Cell): (r: Cell)
    ensures r & !A_COLOR == 0
    ensures PairNumber(r) == n & 0x1f
  {
    (n << PDC_COLOR_SHIFT) & A_COLOR
  }

  /** PAIR_NUMBER(c): the colour field of `c`, shifted down. */
  function PairNumber(c: Cell): (r: Cell)
    ensures r < PDC_COLOR_PAIRS as bv16
    ensures r << PDC_COLOR_SHIFT == c & A_COLOR
  {
    (c & A_COLOR) >> PDC_COLOR_SHIFT
  }

  /** A pair number below 32 survives a trip through COLOR_PAIR and back. */
  lemma ColorPairRoundTrip(n: Cell)
    requires n < PDC_COLOR_PAIRS as bv16
    ensures PairNumber(ColorPair(n)) == n
  {
  }

  /**
   * The character and attribute fields split the cell; the colour field
   * lies inside the attribute field and the three video attributes
   * lie outside the colour field and are distinct bits.
   */
  lemma FieldLayout()
    ensures A_CHARTEXT & A_ATTRIBUTES == 0 && A_CHARTEXT | A_ATTRIBUTES == 0xffff
    ensures A_COLOR & A_ATTRIBUTES == A_COLOR
    ensures A_COLOR == 0x1f << PDC_COLOR_SHIFT
    ensures A_ATTRIBUTES == 0xff << PDC_ATTR_SHIFT
    ensures (A_BOLD | A_REVERSE | A_BLINK) & A_COLOR == 0
    ensures (A_BOLD | A_REVERSE | A_BLINK) & A_CHARTEXT == 0
    ensures A_BOLD & A_REVERSE == 0 && A_BOLD & A_BLINK == 0 && A_REVERSE & A_BLINK == 0
    ensures A_STANDOUT == 0x0300
  {
  }

  /** Attributes without a bit of their own add nothing to any cell. */
  lemma NormalAliases(c: Cell)
    ensures c | A_UNDERLINE == c && c | A_ALTCHARSET == c && c | A_PROTECT == c
    ensures c | A_LEFTLINE == c && c | A_RIGHTLINE == c && c | A_ITALIC == c
    ensures c | A_INVIS == c && c | A_DIM == c
  {
  }

  /**
   * The line-drawing symbols.  ACS_PICK(w, n) in the 16-bit build, which
   * has no alternate-character-set bit, is the plain ASCII fallback `n`:
   * '+' (0x2b) for corners and tees, '-' (0x2d) and '|' (0x7c) for lines.
   */
  const ACS_ULCORNER: Cell := 0x2b
  const ACS_LLCORNER: Cell := 0x2b
  const ACS_URCORNER: Cell := 0x2b
  const ACS_LRCORNER: Cell := 0x2b
  const ACS_RTEE: Cell := 0x2b
  const ACS_LTEE: Cell := 0x2b
  const ACS_BTEE: Cell := 0x2b
  const ACS_TTEE: Cell := 0x2b
  const ACS_HLINE: Cell := 0x2d
  const ACS_VLINE: Cell := 0x7c
  const ACS_PLUS: Cell := 0x2b
}
