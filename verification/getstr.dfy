/**
 * The line editor of wgetnstr (getstr.c): a fold over the keys wgetch
 * returns, building the string in a buffer of at most `n` characters and
 * interpreting tab, ^H, ^U and ^W, until a newline or carriage return.
 *
 * The keys are an oracle: each comes with whether it was a special key
 * code and with the window's cursor column at the time it is handled
 * (the echo moves the cursor through waddch, which is not part of this
 * model).  The echo, the bell and the refresh after each key are
 * recorded as output.
 */
module GetStr {
  import opened Base

  /** The edit characters (_ECHAR, _DLCHAR, _DWCHAR) and the other keys the editor knows. */
  const ECHAR: int := 0x08
  const DLCHAR: int := 0x15
  const DWCHAR: int := 0x17
  const TAB: int := 9
  const SPACE: int := 32

  /** The limit getstr and wgetstr pass. */
  const MAXLINE: int := 255

  /** One key from wgetch: its code, whether it is a special key, and the window's cursor column then. */
  datatype Key = Key(ch: int, special: bool, curx: int)

  /** What the editor sends to the window: a character, the rubout string "\b \b", the bell, a refresh. */
  datatype Out = AddCh(c: int) | Rubout | Beep | Refresh

  /** The call's fixed parameters: the limit, the caller's echo mode, the start column, the tab size. */
  datatype Cfg = Cfg(n: int, echo: bool, startx: int, tabsize: int)

  /** The buffer so far (bytes, as the `char` array holds them) and the output so far. */
  datatype Entry = Entry(buf: seq<int>, out: seq<Out>)

  /** The most characters the buffer can hold: `n`, or none when `n` is negative. */
  function Cap(cfg: Cfg): nat
  {
    Max(cfg.n, 0)
  }

  /** The buffer holds bytes and respects the limit. */
  predicate LineOk(cfg: Cfg, line: Entry)
  {
    |line.buf| <= Cap(cfg) && forall i :: 0 <= i < |line.buf| ==> 0 <= line.buf[i] < 256
  }

  /** Output that appears only when the caller had echo on. */
  function Echoed(cfg: Cfg, o: seq<Out>): (r: seq<Out>)
    ensures r == (if cfg.echo then o else [])
  {
    if cfg.echo then o else []
  }

  /** The byte a `char` keeps of an int key. */
  function ToByte(ch: int): (b: int)
    ensures 0 <= b < 256
    ensures 0 <= ch < 256 ==> b == ch
  {
    ch % 256
  }

  /** One space of a tab: stored and echoed below the limit, a beep at it. */
  function PutSpace(cfg: Cfg, line: Entry): (r: Entry)
    ensures |line.buf| < cfg.n ==> r.buf == line.buf + [SPACE]
    ensures |line.buf| >= cfg.n ==> r.buf == line.buf && r.out == line.out + [Beep]
    ensures LineOk(cfg, line) ==> LineOk(cfg, r)
  {
    if |line.buf| < cfg.n then Entry(line.buf + [SPACE], line.out + Echoed(cfg, [AddCh(SPACE)]))
    else Entry(line.buf, line.out + [Beep])
  }

  /** `num` spaces of a tab, each subject to the limit. */
  function Spaces(cfg: Cfg, line: Entry, num: int): (r: Entry)
    requires LineOk(cfg, line)
    ensures LineOk(cfg, r)
    decreases num
  {
    if num <= 0 then line else Spaces(cfg, PutSpace(cfg, line), num - 1)
  }

  /** The number of spaces a tab stands for: up to the next tab stop counted from the start column. */
  function TabWidth(cfg: Cfg, curx: int): (num: int)
    requires cfg.tabsize > 0
    ensures curx >= cfg.startx ==> 1 <= num <= cfg.tabsize
    ensures curx < cfg.startx ==> cfg.tabsize <= num < 2 * cfg.tabsize
  {
    cfg.tabsize - CRem(curx - cfg.startx, cfg.tabsize)
  }

  /** Removing the last character: the rubout, and a second one for a control character (shown as two cells). */
  function EraseLast(cfg: Cfg, line: Entry): (r: Entry)
    requires |line.buf| > 0
    ensures r.buf == line.buf[..|line.buf| - 1]
    ensures LineOk(cfg, line) ==> LineOk(cfg, r)
  {
    var c := line.buf[|line.buf| - 1];
    Entry(line.buf[..|line.buf| - 1],
      line.out + Echoed(cfg, [Rubout]) + (if c < SPACE && cfg.echo then [Rubout] else []))
  }

  /** ^U: erase characters from the end until none is left. */
  function KillLine(cfg: Cfg, line: Entry): (r: Entry)
    ensures r.buf == []
    decreases |line.buf|
  {
    if |line.buf| == 0 then line else KillLine(cfg, EraseLast(cfg, line))
  }

  /** The first loop of ^W: erase trailing spaces. */
  function DropSpaces(cfg: Cfg, line: Entry): (r: Entry)
    ensures |r.buf| <= |line.buf| && r.buf == line.buf[..|r.buf|]
    ensures r.buf == [] || r.buf[|r.buf| - 1] != SPACE
    ensures forall i :: |r.buf| <= i < |line.buf| ==> line.buf[i] == SPACE
    ensures LineOk(cfg, line) ==> LineOk(cfg, r)
    decreases |line.buf|
  {
    if |line.buf| > 0 && line.buf[|line.buf| - 1] == SPACE then DropSpaces(cfg, EraseLast(cfg, line))
    else line
  }

  /** The second loop of ^W: erase the trailing run of non-spaces. */
  function DropWord(cfg: Cfg, line: Entry): (r: Entry)
    ensures |r.buf| <= |line.buf| && r.buf == line.buf[..|r.buf|]
    ensures r.buf == [] || r.buf[|r.buf| - 1] == SPACE
    ensures forall i :: |r.buf| <= i < |line.buf| ==> line.buf[i] != SPACE
    ensures LineOk(cfg, line) ==> LineOk(cfg, r)
    decreases |line.buf|
  {
    if |line.buf| > 0 && line.buf[|line.buf| - 1] != SPACE then DropWord(cfg, EraseLast(cfg, line))
    else line
  }

  /** The handling of one key other than newline and return, before the refresh. */
  function Step(cfg: Cfg, line: Entry, k: Key): (r: Entry)
    requires cfg.tabsize > 0 && LineOk(cfg, line)
    ensures LineOk(cfg, r)
  {
    if k.ch == TAB then Spaces(cfg, line, TabWidth(cfg, k.curx))
    else if k.ch == ECHAR then (if |line.buf| > 0 then EraseLast(cfg, line) else line)
    else if k.ch == DLCHAR then KillLine(cfg, line)
    else if k.ch == DWCHAR then DropWord(cfg, DropSpaces(cfg, line))
    else if |line.buf| < cfg.n then
      (if !k.special && k.ch < 0x100 then Entry(line.buf + [ToByte(k.ch)], line.out + Echoed(cfg, [AddCh(k.ch)]))
       else line)
    else Entry(line.buf, line.out + [Beep])
  }

  /** The end of a line: newline or carriage return. */
  predicate Ends(k: Key)
  {
    k.ch == NEWLINE || k.ch == RETURN
  }

  /** A finished edit: the string, the output, the keys not read. */
  datatype Edited = Edited(str: seq<int>, out: seq<Out>, rest: seq<Key>)

  /** The editor's loop: every key is handled and followed by a refresh, until a line end.  None if the keys run out first. */
  function Edit(cfg: Cfg, line: Entry, keys: seq<Key>): (r: Option<Edited>)
    requires cfg.tabsize > 0 && LineOk(cfg, line)
    ensures r.Some? ==> |r.value.str| <= Cap(cfg) && |r.value.rest| < |keys|
    ensures r.Some? ==> r.value.rest == keys[|keys| - |r.value.rest|..] && Ends(keys[|keys| - |r.value.rest| - 1])
    decreases |keys|
  {
    if keys == [] then None
    else if Ends(keys[0]) then
      Some(Edited(line.buf, line.out + Echoed(cfg, [AddCh(NEWLINE)]) + [Refresh], keys[1..]))
    else
      var l := Step(cfg, line, keys[0]);
      Edit(cfg, Entry(l.buf, l.out + [Refresh]), keys[1..])
  }

  /** The input modes wgetnstr changes for its duration: echo, cbreak and the window's nodelay. */
  datatype EditModes = EditModes(echo: bool, cbreak: bool, nodelay: bool)

  /** The modes under which the editor's wgetch calls run: no echo, cbreak, blocking. */
  function ReadingModes(m: EditModes): (r: EditModes)
    ensures !r.echo && r.cbreak && !r.nodelay
  {
    EditModes(false, true, false)
  }

  /** The outcome of wgetnstr. */
  datatype GetStrResult =
    | Failed                                               // ERR: a null argument
    | Waiting                                              // the keys ran out before a line end
    | Done(str: seq<int>, out: seq<Out>, rest: seq<Key>, modes: EditModes)   // OK

  /**
   * wgetnstr: ERR for a null session, window or buffer; otherwise the
   * edit runs with the reading modes, the string gets a NUL after its
   * last character, and the entry modes are restored.
   */
  function WGetNStr(argsPresent: bool, m: EditModes, curx: int, tabsize: int, n: int, keys: seq<Key>): (r: GetStrResult)
    requires tabsize > 0
    ensures r.Failed? <==> !argsPresent
    ensures r.Done? ==> r.modes == m && |r.str| <= Max(n, 0) && |r.rest| < |keys|
  {
    if !argsPresent then Failed
    else
      var cfg := Cfg(n, m.echo, curx, tabsize);
      var e := Edit(cfg, Entry([], [Refresh]), keys);
      if e.None? then Waiting else Done(e.value.str, e.value.out, e.value.rest, m)
  }

  // ---------------------------------------------------------------------
  // Properties
  // ---------------------------------------------------------------------

  /**
   * An ordinary key (not tab, an edit character or a line end) is
   * appended, as its byte, iff the buffer is below the limit, the key is
   * not special and its code is below 0x100; at the limit the editor
   * beeps and keeps the buffer.
   */
  lemma OrdinaryKey(cfg: Cfg, line: Entry, k: Key)
    requires cfg.tabsize > 0 && LineOk(cfg, line)
    requires k.ch !in {TAB, ECHAR, DLCHAR, DWCHAR}
    ensures var r := Step(cfg, line, k);
      (|line.buf| < cfg.n && !k.special && k.ch < 0x100 ==> r.buf == line.buf + [ToByte(k.ch)]) &&
      (!(|line.buf| < cfg.n && !k.special && k.ch < 0x100) ==> r.buf == line.buf) &&
      (|line.buf| >= cfg.n ==> r.out == line.out + [Beep])
  {
  }

  /** ^H removes the last character when there is one and otherwise changes nothing. */
  lemma EraseKey(cfg: Cfg, line: Entry, curx: int)
    requires cfg.tabsize > 0 && LineOk(cfg, line)
    ensures var r := Step(cfg, line, Key(ECHAR, false, curx));
      (|line.buf| > 0 ==> r.buf == line.buf[..|line.buf| - 1]) && (|line.buf| == 0 ==> r == line)
  {
  }

  /** ^U empties the buffer. */
  lemma KillEmpties(cfg: Cfg, line: Entry, curx: int)
    requires cfg.tabsize > 0 && LineOk(cfg, line)
    ensures Step(cfg, line, Key(DLCHAR, false, curx)).buf == []
  {
  }

  /**
   * `buf` splits as `kept` + word + spaces with the word ending at `k`:
   * the spaces are all the trailing spaces, the word is the run of
   * non-spaces before them, and `kept` is empty or ends in a space (and
   * is empty when there is no word).
   */
  predicate WordSplit(buf: seq<int>, kept: seq<int>, k: int)
  {
    |kept| <= k <= |buf| && buf[..|kept|] == kept &&
    (forall i :: |kept| <= i < k ==> buf[i] != SPACE) &&
    (forall i :: k <= i < |buf| ==> buf[i] == SPACE) &&
    (kept == [] || kept[|kept| - 1] == SPACE) && (k == |kept| ==> kept == [])
  }

  /** ^W deletes the trailing spaces and the word before them. */
  lemma DeleteWord(cfg: Cfg, line: Entry, curx: int)
    requires cfg.tabsize > 0 && LineOk(cfg, line)
    ensures exists k :: WordSplit(line.buf, Step(cfg, line, Key(DWCHAR, false, curx)).buf, k)
  {
    var a := DropSpaces(cfg, line);
    var r := DropWord(cfg, a);
    assert line.buf[..|r.buf|] == r.buf;
    forall i | |r.buf| <= i < |a.buf|
      ensures line.buf[i] != SPACE
    {
      assert line.buf[i] == a.buf[i];
    }
    assert WordSplit(line.buf, r.buf, |a.buf|);
    assert Step(cfg, line, Key(DWCHAR, false, curx)) == r;
  }

  /**
   * A tab at column `curx` stores as many of its TabWidth spaces as the
   * limit allows and beeps once for each of the others.
   */
  lemma {:induction false} TabSpaces(cfg: Cfg, line: Entry, num: int)
    requires LineOk(cfg, line)
    ensures var k := Min(Max(num, 0), Max(cfg.n - |line.buf|, 0));
      Spaces(cfg, line, num).buf == line.buf + Repeat(SPACE, k)
    decreases num
  {
    if num > 0 {
      var l := PutSpace(cfg, line);
      TabSpaces(cfg, l, num - 1);
      if |line.buf| < cfg.n {
        var k := Min(num, cfg.n - |line.buf|);
        assert line.buf + [SPACE] + Repeat(SPACE, k - 1) == line.buf + Repeat(SPACE, k);
      }
    }
  }

  /** Without echo, the cursor stays put, so every tab is a full TabWidth of spaces. */
  lemma TabWithoutMoving(cfg: Cfg)
    requires cfg.tabsize > 0
    ensures TabWidth(cfg, cfg.startx) == cfg.tabsize
  {
  }

  /**
   * For example, a, b, ^H, c and a newline with a limit of 10 give "ac"
   * (the keys are written key by key in front of the rest).
   */
  lemma EditExample(echo: bool, startx: int, tabsize: int, rest: seq<Key>)
    requires tabsize > 0
    ensures var keys := [Key('a' as int, false, startx)] + ([Key('b' as int, false, startx)] + ([Key(ECHAR, false, startx)] +
      ([Key('c' as int, false, startx)] + ([Key(NEWLINE, false, startx)] + rest))));
      var r := WGetNStr(true, EditModes(echo, false, false), startx, tabsize, 10, keys);
      r.Done? && r.str == ['a' as int, 'c' as int] && r.rest == rest
  {
    var cfg := Cfg(10, echo, startx, tabsize);
    var t2 := [Key(ECHAR, false, startx)] + ([Key('c' as int, false, startx)] + ([Key(NEWLINE, false, startx)] + rest));
    var l2 := TypeAB(cfg, t2);
    var l4 := EraseTypeC(cfg, l2, [Key(NEWLINE, false, startx)] + rest);
    EditEnd(cfg, l4, Key(NEWLINE, false, startx), rest);
  }

  /** The first two keys of the example: a and b are stored. */
  lemma TypeAB(cfg: Cfg, ks: seq<Key>) returns (l2: Entry)
    requires cfg.tabsize > 0 && cfg.n == 10
    ensures LineOk(cfg, l2) && l2.buf == [97, 98]
    ensures Edit(cfg, Entry([], [Refresh]), [Key('a' as int, false, cfg.startx)] + ([Key('b' as int, false, cfg.startx)] + ks))
      == Edit(cfg, l2, ks)
  {
    var l0 := Entry([], [Refresh]);
    var l1 := EditNext(cfg, l0, Key('a' as int, false, cfg.startx), [Key('b' as int, false, cfg.startx)] + ks);
    OrdinaryKey(cfg, l0, Key('a' as int, false, cfg.startx));
    assert l1.buf == [97];
    l2 := EditNext(cfg, l1, Key('b' as int, false, cfg.startx), ks);
    OrdinaryKey(cfg, l1, Key('b' as int, false, cfg.startx));
  }

  /** The next two keys of the example: ^H takes the b back and c is stored. */
  lemma EraseTypeC(cfg: Cfg, l2: Entry, ks: seq<Key>) returns (l4: Entry)
    requires cfg.tabsize > 0 && cfg.n == 10 && LineOk(cfg, l2) && l2.buf == [97, 98]
    ensures LineOk(cfg, l4) && l4.buf == [97, 99]
    ensures Edit(cfg, l2, [Key(ECHAR, false, cfg.startx)] + ([Key('c' as int, false, cfg.startx)] + ks)) == Edit(cfg, l4, ks)
  {
    var l3 := EditNext(cfg, l2, Key(ECHAR, false, cfg.startx), [Key('c' as int, false, cfg.startx)] + ks);
    EraseKey(cfg, l2, cfg.startx);
    assert l3.buf == [97];
    l4 := EditNext(cfg, l3, Key('c' as int, false, cfg.startx), ks);
    OrdinaryKey(cfg, l3, Key('c' as int, false, cfg.startx));
  }

  /** A key that does not end the line is handled, a refresh follows, and the edit goes on with the next key. */
  lemma EditNext(cfg: Cfg, line: Entry, k: Key, ks: seq<Key>) returns (next: Entry)
    requires cfg.tabsize > 0 && LineOk(cfg, line) && !Ends(k)
    ensures next == Entry(Step(cfg, line, k).buf, Step(cfg, line, k).out + [Refresh]) && LineOk(cfg, next)
    ensures Edit(cfg, line, [k] + ks) == Edit(cfg, next, ks)
  {
    assert ([k] + ks)[0] == k && ([k] + ks)[1..] == ks;
    next := Entry(Step(cfg, line, k).buf, Step(cfg, line, k).out + [Refresh]);
  }

  /** A line end finishes the edit with the buffer as it stands and leaves the keys after it. */
  lemma EditEnd(cfg: Cfg, line: Entry, k: Key, ks: seq<Key>)
    requires cfg.tabsize > 0 && LineOk(cfg, line) && Ends(k)
    ensures Edit(cfg, line, [k] + ks) == Some(Edited(line.buf, line.out + Echoed(cfg, [AddCh(NEWLINE)]) + [Refresh], ks))
  {
    assert ([k] + ks)[0] == k && ([k] + ks)[1..] == ks;
  }

  /** A key the editor stores as it is: a plain character code that is no edit key or line end. */
  predicate Plain(k: Key)
  {
    !k.special && 0 <= k.ch < 0x100 && k.ch !in {TAB, ECHAR, DLCHAR, DWCHAR, NEWLINE, RETURN}
  }

  /** The character codes of keys. */
  function Codes(ks: seq<Key>): (cs: seq<int>)
    ensures |cs| == |ks| && forall i :: 0 <= i < |ks| ==> cs[i] == ks[i].ch
  {
    if ks == [] then [] else [ks[0].ch] + Codes(ks[1..])
  }

  /** Appending the codes of `ks` is appending the first code, then the codes of the others. */
  lemma CodesCons(buf: seq<int>, ks: seq<Key>)
    requires |ks| > 0
    ensures buf + [ks[0].ch] + Codes(ks[1..]) == buf + Codes(ks)
  {
    assert Codes(ks) == [ks[0].ch] + Codes(ks[1..]);
    assert buf + [ks[0].ch] + Codes(ks[1..]) == buf + ([ks[0].ch] + Codes(ks[1..]));
  }

  /** A plain key below the limit is appended, and the edit goes on with the next key. */
  lemma PlainStep(cfg: Cfg, line: Entry, k: Key, ks: seq<Key>)
    requires cfg.tabsize > 0 && LineOk(cfg, line) && Plain(k) && |line.buf| < cfg.n
    ensures var l := Step(cfg, line, k);
      (l.buf == line.buf + [k.ch] && LineOk(cfg, Entry(l.buf, l.out + [Refresh])) &&
      Edit(cfg, line, [k] + ks) == Edit(cfg, Entry(l.buf, l.out + [Refresh]), ks))
  {
    assert ([k] + ks)[1..] == ks;
  }

  /** Plain keys that fit under the limit, then a line end: the string is exactly what was typed. */
  lemma {:induction false} PlainTyping(cfg: Cfg, line: Entry, ks: seq<Key>, rest: seq<Key>)
    requires cfg.tabsize > 0 && LineOk(cfg, line)
    requires forall i :: 0 <= i < |ks| ==> Plain(ks[i])
    requires |line.buf| + |ks| <= cfg.n && |rest| > 0 && Ends(rest[0])
    ensures var r := Edit(cfg, line, ks + rest);
      r.Some? && r.value.str == line.buf + Codes(ks) && r.value.rest == rest[1..]
    decreases |ks|
  {
    if ks == [] {
      assert ks + rest == rest;
    } else {
      assert ks + rest == [ks[0]] + (ks[1..] + rest);
      var l := Step(cfg, line, ks[0]);
      PlainStep(cfg, line, ks[0], ks[1..] + rest);
      PlainTyping(cfg, Entry(l.buf, l.out + [Refresh]), ks[1..], rest);
      CodesCons(line.buf, ks);
    }
  }
}
