/**
 * Soft function-key labels (slk.c): the label store that slk_init
 * allocates and slk_set fills, the way _drawone lays a label out in its
 * field, the column arithmetic of _slk_calc, and the hit test that
 * turns a mouse click on the label line into a label number.
 */
module Slk {
  import opened Base

  const BLANK: Byte := 0x20

  /** One label: its text (the C string without its NUL), its justification and its first column. */
  datatype Label = Label(text: seq<Byte>, format: int, startCol: int)

  /**
   * The soft-label part of a session: the labels (as many as the format
   * has; none before slk_init), the format, the field width, the row
   * inside the label window, whether the labels are hidden, and the top
   * row of the label window when there is one.
   */
  datatype SlkState = SlkState(
    labels: seq<Label>, fmt: int, labelLength: int, labelLine: int,
    hidden: bool, winBegy: Option<int>)

  /** A run of cells written along one row, starting at column `x`. */
  datatype Run = Run(y: int, x: int, cells: seq<Byte>)

  /** The number of labels of each format slk_init accepts: 3-2-3 and 4-4 have 8, 4-4-4 (with or without index line) 12, 5-5 has 10. */
  function LabelCount(fmt: int): (n: Option<int>)
    ensures n.Some? <==> fmt in {0, 1, 2, 3, 55}
    ensures n.Some? ==> n.value in {8, 10, 12}
    ensures fmt == 0 || fmt == 1 ==> n == Some(8)
    ensures fmt == 2 || fmt == 3 ==> n == Some(12)
    ensures fmt == 55 ==> n == Some(10)
  {
    match fmt
    case 0 => Some(8)
    case 1 => Some(8)
    case 2 => Some(12)
    case 3 => Some(12)
    case 55 => Some(10)
    case _ => None
  }

  /**
   * slk_init: ERR, with nothing changed, once the screen exists or for
   * an unknown format.  Otherwise the format is recorded and the labels
   * are allocated empty and left-justified; when the allocation fails
   * there are no labels and the result is ERR.
   */
  function SlkInit(st: SlkState, screenExists: bool, fmt: int, allocOk: bool): (r: (Status, SlkState))
    ensures screenExists || LabelCount(fmt).None? ==> r == (ERR, st)
    ensures !screenExists && LabelCount(fmt).Some? ==>
      r.1.fmt == fmt && r.1.labelLength == st.labelLength && r.1.labelLine == st.labelLine &&
      r.1.hidden == st.hidden && r.1.winBegy == st.winBegy &&
      (r.0 == OK <==> allocOk) &&
      |r.1.labels| == (if allocOk then LabelCount(fmt).value else 0) &&
      forall i :: 0 <= i < |r.1.labels| ==> r.1.labels[i] == Label([], 0, 0)
  {
    if screenExists then (ERR, st)
    else match LabelCount(fmt)
      case None => (ERR, st)
      case Some(n) =>
        if allocOk then (OK, st.(fmt := fmt, labels := Repeat(Label([], 0, 0), n as nat)))
        else (ERR, st.(fmt := fmt, labels := []))
  }

  // ---------------------------------------------------------------------
  // slk_set

  /** The index of the first non-space at or after `j` (the leading-space skip). */
  function SkipSpaces(s: seq<Byte>, j: nat): (k: nat)
    requires j <= |s|
    ensures j <= k <= |s| && (k < |s| ==> s[k] != BLANK)
    ensures forall m :: j <= m < k ==> s[m] == BLANK
    decreases |s| - j
  {
    if j < |s| && s[j] == BLANK then SkipSpaces(s, j + 1) else j
  }

  /** How many characters the copy loop takes after the skip at `j`: up to the NUL, at most `len`. */
  function CopyCount(s: seq<Byte>, j: nat, len: int): (i: nat)
    requires j <= |s|
    ensures i <= |s| - j && (len >= 0 ==> i <= len)
  {
    Max(0, Min(len, |s| - j))
  }

  /**
   * The trailing-space loop as written: it keeps stepping back while
   * `i + j` is not zero, so for a label of nothing but spaces it walks
   * back over the leading spaces too and `i` goes negative.
   */
  function TrimAsWritten(s: seq<Byte>, j: int, i: int): (i': int)
    requires 0 <= i + j <= |s|
    ensures i' <= i && 0 <= i' + j
    decreases i + j
  {
    if i + j != 0 && s[i + j - 1] == BLANK then TrimAsWritten(s, j, i - 1) else i
  }

  /** The trailing-space loop with the lower bound the copy needs: it stops at the first copied character. */
  function Trim(s: seq<Byte>, j: nat, i: nat): (i': nat)
    requires j + i <= |s|
    ensures i' <= i && (i' > 0 ==> s[j + i' - 1] != BLANK)
    ensures forall m :: j + i' <= m < j + i ==> s[m] == BLANK
  {
    if i != 0 && s[i + j - 1] == BLANK then Trim(s, j, i - 1) else i
  }

  /** The stored length slk_set computes as written, for a non-empty label and field width `len`. */
  function SetLengthAsWritten(s: seq<Byte>, len: int): int
    requires |s| > 0
  {
    var j := SkipSpaces(s, 0);
    TrimAsWritten(s, j, CopyCount(s, j, len))
  }

  /**
   * The input that shows it: for a label of `k` spaces the written loop
   * leaves the length at -k, so the terminating NUL goes to
   * `label[-k]`, before the label array.
   */
  lemma SetLengthAsWrittenUnderflows(k: nat, len: int)
    requires k > 0
    ensures SetLengthAsWritten(Repeat(BLANK, k), len) == -(k as int)
  {
    var s: seq<Byte> := Repeat(BLANK, k);
    assert SkipSpaces(s, 0) == k by { SkipAll(s, 0); }
    AllSpacesTrimAsWritten(s, k, 0);
  }

  /** In a label of nothing but spaces the skip runs to the end. */
  lemma {:induction false} SkipAll(s: seq<Byte>, j: nat)
    requires j <= |s| && forall m :: 0 <= m < |s| ==> s[m] == BLANK
    ensures SkipSpaces(s, j) == |s|
    decreases |s| - j
  {
    if j < |s| {
      SkipAll(s, j + 1);
    }
  }

  /** In a label of nothing but spaces the written trim steps back until `i + j` is zero, leaving `i == -j`. */
  lemma {:induction false} AllSpacesTrimAsWritten(s: seq<Byte>, j: int, i: int)
    requires 0 <= i + j <= |s| && forall m :: 0 <= m < |s| ==> s[m] == BLANK
    ensures TrimAsWritten(s, j, i) == -j
    decreases i + j
  {
    if i + j != 0 {
      AllSpacesTrimAsWritten(s, j, i - 1);
    }
  }

  /** The text slk_set stores for a non-empty label: leading spaces skipped, at most `len` characters copied, trailing spaces dropped. */
  function StoredText(s: seq<Byte>, len: int): (t: seq<Byte>)
    ensures |t| <= |s| && (len >= 0 ==> |t| <= len)
  {
    var j := SkipSpaces(s, 0);
    s[j .. j + Trim(s, j, CopyCount(s, j, len))]
  }

  /** `s` without its leading spaces. */
  function DropLeading(s: seq<Byte>): (t: seq<Byte>)
  {
    if |s| > 0 && s[0] == BLANK then DropLeading(s[1..]) else s
  }

  /** `s` without its trailing spaces. */
  function DropTrailing(s: seq<Byte>): (t: seq<Byte>)
  {
    if |s| > 0 && s[|s| - 1] == BLANK then DropTrailing(s[..|s| - 1]) else s
  }

  /** The first `n` characters of `s` (all of them when there are fewer). */
  function Take(s: seq<Byte>, n: int): (t: seq<Byte>)
  {
    s[..Max(0, Min(n, |s|))]
  }

  /**
   * What slk_set stores, against a definition written independently of
   * its index loops: the label with leading spaces dropped, cut to the
   * field width, then trailing spaces dropped.
   */
  lemma StoredTextIsTrimmed(s: seq<Byte>, len: int)
    ensures StoredText(s, len) == DropTrailing(Take(DropLeading(s), len))
  {
    var j := SkipSpaces(s, 0);
    var i := CopyCount(s, j, len);
    TakeAfterSkip(s, len);
    DropTrailingIsTrim(s, j, i);
    assert StoredText(s, len) == s[j .. j + Trim(s, j, i)];
  }

  /** The copy loop takes what Take takes from the label with its leading spaces dropped. */
  lemma TakeAfterSkip(s: seq<Byte>, len: int)
    ensures var j := SkipSpaces(s, 0); Take(DropLeading(s), len) == s[j .. j + CopyCount(s, j, len)]
  {
    DropLeadingIsSkip(s, 0);
    assert s[0..] == s;
  }

  /** The skip loop drops exactly the leading spaces. */
  lemma {:induction false} DropLeadingIsSkip(s: seq<Byte>, j: nat)
    requires j <= |s|
    ensures DropLeading(s[j..]) == s[SkipSpaces(s, j)..]
    decreases |s| - j
  {
    if j < |s| && s[j] == BLANK {
      assert s[j..][1..] == s[j + 1..];
      DropLeadingIsSkip(s, j + 1);
    }
  }

  /** The corrected trim drops exactly the trailing spaces of the copied text. */
  lemma {:induction false} DropTrailingIsTrim(s: seq<Byte>, j: nat, i: nat)
    requires j + i <= |s|
    ensures DropTrailing(s[j .. j + i]) == s[j .. j + Trim(s, j, i)]
    decreases i
  {
    if i != 0 && s[i + j - 1] == BLANK {
      assert s[j .. j + i][..i - 1] == s[j .. j + i - 1];
      DropTrailingIsTrim(s, j, i - 1);
    }
  }

  /** The stored text has no space at either end. */
  lemma StoredTextTrimmed(s: seq<Byte>, len: int)
    ensures var t := StoredText(s, len);
      |t| > 0 ==> t[0] != BLANK && t[|t| - 1] != BLANK
  {
  }

  /**
   * slk_set: ERR, with nothing changed and nothing drawn, for a label
   * number outside 1..the number of labels or a justification outside
   * 0..2.  A null or empty label clears the label (empty text, left
   * justified); any other label is stored as StoredText with the given
   * justification.  The other labels do not change, and the label is
   * then drawn (r.2).
   */
  function SlkSet(st: SlkState, labnum: int, text: Option<CStr>, justify: int): (r: (Status, SlkState, Option<Run>))
    ensures r.0 == ERR <==> labnum < 1 || labnum > |st.labels| || justify < 0 || justify > 2
    ensures r.0 == ERR ==> r.1 == st && r.2.None?
    ensures r.0 == OK ==>
      r.1 == st.(labels := r.1.labels) && |r.1.labels| == |st.labels| &&
      (forall i :: 0 <= i < |st.labels| && i != labnum - 1 ==> r.1.labels[i] == st.labels[i]) &&
      r.1.labels[labnum - 1].startCol == st.labels[labnum - 1].startCol &&
      (if text.None? || text.value == [] then
        r.1.labels[labnum - 1].text == [] && r.1.labels[labnum - 1].format == 0
      else
        r.1.labels[labnum - 1].text == StoredText(text.value, st.labelLength) &&
        r.1.labels[labnum - 1].format == justify) &&
      r.2 == DrawOne(r.1, labnum - 1)
  {
    if labnum < 1 || labnum > |st.labels| || justify < 0 || justify > 2 then (ERR, st, None)
    else
      var n := labnum - 1;
      var l := st.labels[n];
      var l' := if text.None? || text.value == [] then l.(text := [], format := 0)
                else l.(text := StoredText(text.value, st.labelLength), format := justify);
      var st' := st.(labels := st.labels[n := l']);
      (OK, st', DrawOne(st', n))
  }

  /**
   * slk_label: the stored text of a label, or nothing (a null pointer)
   * for a label number outside 1..the number of labels.
   */
  function SlkLabel(st: SlkState, labnum: int): (r: Option<seq<Byte>>)
    ensures r.Some? <==> 1 <= labnum <= |st.labels|
    ensures r.Some? ==> r.value == st.labels[labnum - 1].text
  {
    if labnum < 1 || labnum > |st.labels| then None else Some(st.labels[labnum - 1].text)
  }

  /**
   * Setting a label and reading it back: slk_label returns the text with
   * surrounding spaces dropped and cut to the field width.
   */
  lemma SetThenLabel(st: SlkState, labnum: int, s: CStr, justify: int)
    requires 1 <= labnum <= |st.labels| && 0 <= justify <= 2 && |s| > 0
    ensures SlkLabel(SlkSet(st, labnum, Some(s), justify).1, labnum) ==
      Some(DropTrailing(Take(DropLeading(s), st.labelLength)))
  {
    StoredTextIsTrimmed(s, st.labelLength);
  }

  /** A label without surrounding spaces that fits its field comes back from slk_label unchanged. */
  lemma SetThenLabelExact(st: SlkState, labnum: int, s: CStr, justify: int)
    requires 1 <= labnum <= |st.labels| && 0 <= justify <= 2 && |s| > 0
    requires s[0] != BLANK && s[|s| - 1] != BLANK && |s| <= st.labelLength
    ensures var r := SlkLabel(SlkSet(st, labnum, Some(s), justify).1, labnum); r.Some? && r.value == s
  {
    assert SkipSpaces(s, 0) == 0;
    assert Trim(s, 0, |s|) == |s|;
    assert StoredText(s, st.labelLength) == s[0 .. |s|] == s;
  }

  // ---------------------------------------------------------------------
  // _drawone

  /** The column inside its field where a label of `slen` characters starts, for each justification. */
  function LabelOffset(format: int, width: int, slen: int): (col: int)
    ensures 0 <= slen <= width ==> 0 <= col && col + slen <= width
    ensures format == 0 ==> col == 0
    ensures format != 0 && format != 1 ==> col + slen == width
    ensures format == 1 && 0 <= slen <= width ==> col == (width - slen) / 2
  {
    match format
    case 0 => 0
    case 1 =>
      var c := CDiv(width - slen, 2);
      if c + slen > width then c - 1 else c
    case _ => width - slen
  }

  /** The cells of a label's field: the text at `col`, spaces elsewhere. */
  function FieldCells(text: seq<Byte>, col: int, width: int): (cells: seq<Byte>)
    ensures |cells| == Max(width, 0)
    ensures forall i :: 0 <= i < |cells| ==> cells[i] == (if col <= i < col + |text| then text[i - col] else BLANK)
  {
    seq(Max(width, 0), i requires 0 <= i < Max(width, 0) => if col <= i < col + |text| then text[i - col] else BLANK)
  }

  /**
   * _drawone: nothing while the labels are hidden; otherwise the label's
   * field, `labelLength` cells from its start column on the label line,
   * holding the text placed by its justification and spaces elsewhere.
   */
  function DrawOne(st: SlkState, num: int): (r: Option<Run>)
    requires 0 <= num < |st.labels|
    ensures r.None? <==> st.hidden
    ensures r.Some? ==> (r.value.y == st.labelLine && r.value.x == st.labels[num].startCol &&
      |r.value.cells| == Max(st.labelLength, 0))
    ensures r.Some? ==> var l := st.labels[num]; var col := LabelOffset(l.format, st.labelLength, |l.text|);
      forall i :: 0 <= i < |r.value.cells| ==>
        r.value.cells[i] == (if col <= i < col + |l.text| then l.text[i - col] else BLANK)
  {
    if st.hidden then None
    else
      var l := st.labels[num];
      var col := LabelOffset(l.format, st.labelLength, |l.text|);
      Some(Run(st.labelLine, l.startCol, FieldCells(l.text, col, st.labelLength)))
  }

  /**
   * A label that fits its field is drawn whole, and reading the field
   * back with the padding dropped gives the label again when the label
   * has no space at either end (as slk_set leaves it).
   */
  lemma DrawOneShowsLabel(st: SlkState, num: int)
    requires 0 <= num < |st.labels| && !st.hidden
    requires |st.labels[num].text| <= st.labelLength
    ensures var l := st.labels[num]; var col := LabelOffset(l.format, st.labelLength, |l.text|);
      var cells := DrawOne(st, num).value.cells;
      cells[col .. col + |l.text|] == l.text &&
      (|l.text| > 0 && l.text[0] != BLANK && l.text[|l.text| - 1] != BLANK ==>
        DropTrailing(DropLeading(cells)) == l.text)
  {
    var l := st.labels[num];
    var col := LabelOffset(l.format, st.labelLength, |l.text|);
    assert DrawOne(st, num).value.cells == FieldCells(l.text, col, st.labelLength);
    FieldShowsText(l.text, col, st.labelLength);
  }

  /** The text drawn into a field it fits is there to read back, padding aside. */
  lemma FieldShowsText(text: seq<Byte>, col: int, width: int)
    requires 0 <= col && col + |text| <= width
    ensures FieldCells(text, col, width)[col .. col + |text|] == text
    ensures |text| > 0 && text[0] != BLANK && text[|text| - 1] != BLANK ==>
      DropTrailing(DropLeading(FieldCells(text, col, width))) == text
  {
    var a, b := col as nat, (width - col - |text|) as nat;
    FieldCellsPadded(text, col, width);
    assert (Repeat(BLANK, a) + text + Repeat(BLANK, b))[a .. a + |text|] == text;
    if |text| > 0 && text[0] != BLANK && text[|text| - 1] != BLANK {
      DropPadding(a, text, b);
    }
  }

  /** A text that fits its field sits between two runs of spaces. */
  lemma FieldCellsPadded(text: seq<Byte>, col: int, width: int)
    requires 0 <= col && col + |text| <= width
    ensures FieldCells(text, col, width) == Repeat(BLANK, col as nat) + text + Repeat(BLANK, (width - col - |text|) as nat)
  {
    var cells := FieldCells(text, col, width);
    var padded := Repeat(BLANK, col as nat) + text + Repeat(BLANK, (width - col - |text|) as nat);
    assert |cells| == |padded|;
    forall i | 0 <= i < |cells| ensures cells[i] == padded[i] {
      if i < col {
      } else if i < col + |text| {
      } else {
      }
    }
  }

  /** Dropping the spaces around a text with no space at either end gives the text. */
  lemma DropPadding(a: nat, t: seq<Byte>, b: nat)
    requires |t| > 0 && t[0] != BLANK && t[|t| - 1] != BLANK
    ensures DropTrailing(DropLeading(Repeat(BLANK, a) + t + Repeat(BLANK, b))) == t
  {
    DropLeadingSpaces(a, t + Repeat(BLANK, b));
    assert Repeat(BLANK, a) + t + Repeat(BLANK, b) == Repeat(BLANK, a) + (t + Repeat(BLANK, b));
    DropTrailingSpaces(t, b);
  }

  /** Leading spaces in front of a text that starts with a non-space are all dropped, and nothing more. */
  lemma {:induction false} DropLeadingSpaces(a: nat, t: seq<Byte>)
    requires |t| > 0 && t[0] != BLANK
    ensures DropLeading(Repeat(BLANK, a) + t) == t
  {
    if a > 0 {
      assert (Repeat(BLANK, a) + t)[1..] == Repeat(BLANK, a - 1) + t;
      DropLeadingSpaces(a - 1, t);
    } else {
      assert Repeat(BLANK, a) + t == t;
    }
  }

  /** Trailing spaces after a text that ends with a non-space are all dropped, and nothing more. */
  lemma {:induction false} DropTrailingSpaces(t: seq<Byte>, b: nat)
    requires |t| > 0 && t[|t| - 1] != BLANK
    ensures DropTrailing(t + Repeat(BLANK, b)) == t
  {
    if b > 0 {
      assert (t + Repeat(BLANK, b))[..|t| + b - 1] == t + Repeat(BLANK, b - 1);
      DropTrailingSpaces(t, b - 1);
    } else {
      assert t + Repeat(BLANK, b) == t;
    }
  }

  // ---------------------------------------------------------------------
  // _slk_calc

  /** The field width before the final decrement: COLS / labels, capped at 31. */
  function BaseWidth(cols: int, count: int): (w: int)
    requires count > 0
    ensures w <= 31 && w <= CDiv(cols, count) && (w == 31 || w == CDiv(cols, count))
  {
    Min(CDiv(cols, count), 31)
  }

  /**
   * The start columns of the 4-4-4 layout's middle group around the
   * centre column, with `sixth` the sixth label's.
   */
  function Middle(center: int, w: int, sixth: int): seq<int>
  {
    [center - w * 2 + 1, sixth, center + 1, center + w + 1]
  }

  /**
   * _slk_calc as written: the field width and each label's start column.
   * The 3-2-3 layout narrows the fields by one more column; the 4-4-4
   * layout puts its middle group around the centre column.
   */
  function LayoutAsWritten(cols: int, fmt: int): (r: (int, seq<int>))
    requires LabelCount(fmt).Some?
    ensures |r.1| == LabelCount(fmt).value
  {
    var w := BaseWidth(cols, LabelCount(fmt).value);
    var center := CDiv(cols, 2);
    match fmt
    case 0 =>
      var v := w - 1;
      var right := cols - v * 3 + 1;
      (v - 1, [0, v, v * 2, center - v + 1, center + 1, right, right + v, right + v * 2])
    case 1 =>
      var right := cols - w * 4 + 1;
      (w - 1, [0, w, w * 2, w * 3, right, right + w, right + w * 2, right + w * 3])
    case 2 =>
      var right := cols - w * 4 + 1;
      (w - 1, [0, w, w * 2, w * 3] + Middle(center, w, center - w - 1) + [right, right + w, right + w * 2, right + w * 3])
    case 3 =>
      var right := cols - w * 4 + 1;
      (w - 1, [0, w, w * 2, w * 3] + Middle(center, w, center - w - 1) + [right, right + w, right + w * 2, right + w * 3])
    case 55 =>
      var right := cols - w * 5 + 1;
      (w - 1, [0, w, w * 2, w * 3, w * 4, right, right + w, right + w * 2, right + w * 3, right + w * 4])
  }

  /**
   * The input that shows it: on a 120-column screen in the 4-4-4 layout
   * the fifth label's field (columns 41..49) and the sixth's (from 49)
   * share column 49, so drawing the sixth overwrites the fifth's last
   * cell.
   */
  lemma LayoutAsWrittenOverlaps()
    ensures var (len, starts) := LayoutAsWritten(120, 2);
      len == 9 && starts[4] == 41 && starts[5] == 49 && starts[4] + len > starts[5]
  {
  }

  /**
   * _slk_calc with the sixth label of the 4-4-4 layout placed where the
   * symmetry of the middle group puts it (one column right of the
   * fifth's field, mirroring the seventh and eighth).
   */
  function Layout(cols: int, fmt: int): (r: (int, seq<int>))
    requires LabelCount(fmt).Some?
    ensures |r.1| == LabelCount(fmt).value
    ensures fmt != 2 && fmt != 3 ==> r == LayoutAsWritten(cols, fmt)
    ensures r.0 == LayoutAsWritten(cols, fmt).0
    ensures forall i :: 0 <= i < |r.1| && i != 5 ==> r.1[i] == LayoutAsWritten(cols, fmt).1[i]
  {
    var w := BaseWidth(cols, LabelCount(fmt).value);
    var center := CDiv(cols, 2);
    if fmt == 2 || fmt == 3 then
      var right := cols - w * 4 + 1;
      (w - 1, [0, w, w * 2, w * 3] + Middle(center, w, center - w + 1) + [right, right + w, right + w * 2, right + w * 3])
    else LayoutAsWritten(cols, fmt)
  }

  /** Fields `starts` of width `len` lie inside columns 0..cols-1, in order and without sharing a column. */
  predicate FieldsApart(starts: seq<int>, len: int, cols: int)
  {
    |starts| > 0 && 0 <= starts[0] && starts[|starts| - 1] + len <= cols &&
    forall i :: 0 <= i < |starts| - 1 ==> Adjacent(starts, len, i)
  }

  /** Field `i + 1` starts after field `i` ends. */
  predicate Adjacent(starts: seq<int>, len: int, i: int)
    requires 0 <= i < |starts| - 1
  {
    starts[i] + len <= starts[i + 1]
  }

  /**
   * Whenever the fields get a non-negative width, every layout places the
   * labels left to right, inside the screen and without overlap.
   */
  lemma LayoutFits(cols: int, fmt: int)
    requires LabelCount(fmt).Some? && cols >= 0
    requires Layout(cols, fmt).0 >= 0
    ensures FieldsApart(Layout(cols, fmt).1, Layout(cols, fmt).0, cols)
  {
    if fmt == 0 || fmt == 1 {
      EightFit(cols, fmt);
    } else if fmt == 55 {
      TenFit(cols);
    } else {
      TwelveFit(cols, fmt);
    }
  }

  /** The 4-4 and 3-2-3 layouts: eight fields side by side. */
  lemma EightFit(cols: int, fmt: int)
    requires (fmt == 0 || fmt == 1) && cols >= 0 && Layout(cols, fmt).0 >= 0
    ensures FieldsApart(Layout(cols, fmt).1, Layout(cols, fmt).0, cols)
  {
    var (len, s) := Layout(cols, fmt);
    var w := BaseWidth(cols, 8);
    assert w * 8 <= cols;
    forall i | 0 <= i < 7 ensures Adjacent(s, len, i) {
      assert i == 0 || i == 1 || i == 2 || i == 3 || i == 4 || i == 5 || i == 6;
    }
  }

  /** The 5-5 layout: ten fields side by side. */
  lemma TenFit(cols: int)
    requires cols >= 0 && Layout(cols, 55).0 >= 0
    ensures FieldsApart(Layout(cols, 55).1, Layout(cols, 55).0, cols)
  {
    var (len, s) := Layout(cols, 55);
    var w := BaseWidth(cols, 10);
    assert w * 10 <= cols;
    forall i | 0 <= i < 9 ensures Adjacent(s, len, i) {
      assert i == 0 || i == 1 || i == 2 || i == 3 || i == 4 || i == 5 || i == 6 || i == 7 || i == 8;
    }
  }

  /** The 4-4-4 layouts: twelve fields side by side. */
  lemma TwelveFit(cols: int, fmt: int)
    requires (fmt == 2 || fmt == 3) && cols >= 0 && Layout(cols, fmt).0 >= 0
    ensures FieldsApart(Layout(cols, fmt).1, Layout(cols, fmt).0, cols)
  {
    var (len, s) := Layout(cols, fmt);
    var w := BaseWidth(cols, 12);
    assert w * 12 <= cols;
    forall i | 0 <= i < 11 ensures Adjacent(s, len, i) {
      assert i == 0 || i == 1 || i == 2 || i == 3 || i == 4 || i == 5 || i == 6 || i == 7 || i == 8 || i == 9 || i == 10;
    }
  }

  /** Field `i` covers column `x`. */
  predicate InField(st: SlkState, i: int, x: int)
    requires 0 <= i < |st.labels|
  {
    st.labels[i].startCol <= x < st.labels[i].startCol + st.labelLength
  }

  /** The first label from `i` on whose field covers `x`, numbered from 1; 0 for none. */
  function FirstField(st: SlkState, x: int, i: nat): (r: int)
    requires i <= |st.labels|
    ensures r == 0 || (i < r <= |st.labels| && InField(st, r - 1, x))
    ensures r == 0 ==> forall k :: i <= k < |st.labels| ==> !InField(st, k, x)
    ensures r != 0 ==> forall k :: i <= k < r - 1 ==> !InField(st, k, x)
    decreases |st.labels| - i
  {
    if i == |st.labels| then 0
    else if InField(st, i, x) then i + 1
    else FirstField(st, x, i + 1)
  }

  /**
   * PDC_mouse_in_slk: 0 unless there are labels and a label window and
   * `y` is the label line; then the number (from 1) of the first label
   * whose field covers `x`, or 0 when none does.
   */
  function MouseInSlk(st: SlkState, y: int, x: int): (r: int)
    ensures 0 <= r <= |st.labels|
    ensures r != 0 ==> (st.winBegy.Some? && y == st.winBegy.value + st.labelLine && InField(st, r - 1, x) &&
      forall k :: 0 <= k < r - 1 ==> !InField(st, k, x))
    ensures r == 0 && st.winBegy.Some? && y == st.winBegy.value + st.labelLine ==>
      forall k :: 0 <= k < |st.labels| ==> !InField(st, k, x)
  {
    if |st.labels| == 0 || st.winBegy.None? || y != st.winBegy.value + st.labelLine then 0
    else FirstField(st, x, 0)
  }

  /** The labels lie where Layout puts them for `cols` columns. */
  predicate LaidOut(st: SlkState, cols: int)
  {
    LabelCount(st.fmt).Some? && |st.labels| == LabelCount(st.fmt).value &&
    st.labelLength == Layout(cols, st.fmt).0 &&
    forall i :: 0 <= i < |st.labels| ==> st.labels[i].startCol == Layout(cols, st.fmt).1[i]
  }

  /** _slk_calc: sets the field width and every label's start column from the layout. */
  function SlkCalc(st: SlkState, cols: int): (st': SlkState)
    requires LabelCount(st.fmt).Some? && |st.labels| == LabelCount(st.fmt).value
    ensures LaidOut(st', cols)
    ensures st' == st.(labels := st'.labels, labelLength := st'.labelLength) && |st'.labels| == |st.labels|
    ensures forall i :: 0 <= i < |st.labels| ==> st'.labels[i] == st.labels[i].(startCol := st'.labels[i].startCol)
  {
    var (len, starts) := Layout(cols, st.fmt);
    st.(labelLength := len,
        labels := seq(|st.labels|, i requires 0 <= i < |st.labels| => st.labels[i].(startCol := starts[i])))
  }

  /**
   * A click on the label line inside a label's field, with the labels
   * laid out for the screen, reports exactly that label.
   */
  lemma ClickFindsLabel(st: SlkState, cols: int, y: int, x: int, i: int)
    requires cols >= 0 && LaidOut(st, cols) && st.labelLength >= 0
    requires st.winBegy.Some? && y == st.winBegy.value + st.labelLine
    requires 0 <= i < |st.labels| && InField(st, i, x)
    ensures MouseInSlk(st, y, x) == i + 1
  {
    var r := MouseInSlk(st, y, x);
    assert r != 0 && r - 1 <= i;
    if r - 1 < i {
      LayoutFits(cols, st.fmt);
      ApartOrdered(Layout(cols, st.fmt).1, st.labelLength, cols, r - 1, i);
    }
  }

  /** Fields that are apart do not share a column even when not adjacent. */
  lemma {:induction false} ApartOrdered(starts: seq<int>, len: int, cols: int, i: int, k: int)
    requires FieldsApart(starts, len, cols) && len >= 0 && 0 <= i < k < |starts|
    ensures starts[i] + len <= starts[k]
    decreases k - i
  {
    assert Adjacent(starts, len, i);
    if k > i + 1 {
      ApartOrdered(starts, len, cols, i + 1, k);
    }
  }
}
