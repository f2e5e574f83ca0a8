/**
 * Key input (getch.c): the pushback stack, the cooked-mode line buffer,
 * the polling loop over the platform's key source with its timeout, and
 * the filtering of mouse events.
 *
 * The platform's "key ready?" and "fetch key" hooks are an oracle: a
 * sequence of polls, each either idle or a fetched key together with the
 * mouse status the platform left.  Sleeping, the refresh on entry and
 * the echo (waddch plus wrefresh) are recorded as effects.
 */
module Getch {
  import opened Base
  import opened MouseDefs
  import opened Store
  import opened Slk

  /** Capacity of the cooked-mode line buffer and of the pushback stack. */
  const INBUFSIZ: int := 512
  const NUNGETCH: int := 256

  /** Key codes: the first function key and the mouse event (PDCurses' values). */
  const KEY_F0: int := 0x108
  const KEY_MOUSE: int := 0x21b

  const BACKSPACE: int := 8

  /** KEY_F(n): function key `n`. */
  function KeyF(n: int): int
  {
    KEY_F0 + n
  }

  /**
   * The per-session input state: the pushback stack (its top last), the
   * line buffer with its read index `gindex` and write index `pindex`.
   */
  datatype Input = Input(ungch: seq<int>, buffer: seq<int>, gindex: int, pindex: int)

  /** The bounds the C arrays impose. */
  predicate InputOk(inp: Input)
  {
    |inp.ungch| <= NUNGETCH && |inp.buffer| == INBUFSIZ &&
    0 <= inp.gindex <= INBUFSIZ - 2 && 0 <= inp.pindex <= INBUFSIZ - 2
  }

  /** The session's input modes, its timeout in tenths of a second and the trapped mouse events. */
  datatype Modes = Modes(rawInp: bool, cbreak: bool, echo: bool, autocr: bool, delaytenths: int, trapMbe: Bits)

  /** One answer of the platform: nothing ready, or a key, whether it is a special code, and the mouse status. */
  datatype Poll = Idle | Ready(key: int, special: bool, mouse: MouseStatus)

  /** What a call does besides returning: refresh the window, sleep 50 ms, echo a key. */
  datatype Effect = RefreshWin | Nap | Echo(key: int)

  /** A finished wgetch: the key, the input state, the mouse status, the effects, the unread polls. */
  datatype Got = Got(key: int, input: Input, mouse: MouseStatus, effects: seq<Effect>, rest: seq<Poll>)

  // ---------------------------------------------------------------------
  // PDC_ungetch and flushinp
  // ---------------------------------------------------------------------

  /** PDC_ungetch: ERR, with nothing changed, once NUNGETCH keys are stacked; otherwise `ch` goes on top. */
  function Ungetch(inp: Input, ch: int): (r: (Status, Input))
    ensures r.0 == ERR <==> |inp.ungch| >= NUNGETCH
    ensures r.0 == ERR ==> r.1 == inp
    ensures r.0 == OK ==> (|r.1.ungch| == |inp.ungch| + 1 && r.1.ungch[..|inp.ungch|] == inp.ungch &&
      r.1.ungch[|inp.ungch|] == ch && r.1.buffer == inp.buffer &&
      r.1.gindex == inp.gindex && r.1.pindex == inp.pindex)
    ensures InputOk(inp) ==> InputOk(r.1)
  {
    if |inp.ungch| >= NUNGETCH then (ERR, inp)
    else (OK, inp.(ungch := inp.ungch + [ch]))
  }

  /** flushinp: the stack is emptied and the read index passes the write index, so nothing is buffered. */
  function FlushInp(inp: Input): (r: Input)
    ensures r.ungch == [] && r.buffer == inp.buffer
    ensures !(r.gindex < r.pindex)
    ensures InputOk(inp) ==> InputOk(r)
  {
    inp.(ungch := [], gindex := 1, pindex := 0)
  }

  // ---------------------------------------------------------------------
  // _mouse_key
  // ---------------------------------------------------------------------

  /** The action in button `i`'s state. */
  function Action(ms: MouseStatus, i: nat): nat
    requires i < |ms.button|
  {
    ActionOf(ms.button[i])
  }

  /** The actions the filter may drop: all but triple clicks (and the unused codes). */
  predicate Filterable(action: nat)
  {
    action == BUTTON_PRESSED || action == BUTTON_CLICKED || action == BUTTON_DOUBLE_CLICKED ||
    action == BUTTON_MOVED || action == BUTTON_RELEASED
  }

  /** Button 1's event mask for a filterable action. */
  function Button1Mask(action: nat): Bits
    requires Filterable(action)
  {
    if action == BUTTON_RELEASED then BUTTON1_RELEASED
    else if action == BUTTON_PRESSED then BUTTON1_PRESSED
    else if action == BUTTON_CLICKED then BUTTON1_CLICKED
    else if action == BUTTON_DOUBLE_CLICKED then BUTTON1_DOUBLE_CLICKED
    else BUTTON1_MOVED
  }

  /**
   * The event of button `i + 1` is not wanted: its action is pressed,
   * clicked, double-clicked, moved or released, and that action's mask
   * (button 1's shifted left by 5i bits) is not trapped.
   */
  predicate Unwanted(mbe: Bits, action: nat, i: nat)
  {
    Filterable(action) && mbe * Shl(Button1Mask(action), i * 5) == {}
  }

  /** BUTTON1_MOVED | BUTTON2_MOVED | BUTTON3_MOVED. */
  const ANY_MOVED: Bits := BUTTON1_MOVED + BUTTON2_MOVED + BUTTON3_MOVED
  const WHEEL_BITS: Bits := PDC_MOUSE_WHEEL_UP + PDC_MOUSE_WHEEL_DOWN

  /** One pass of the filter loop: button `i + 1`'s changes bit is toggled off when set and unwanted. */
  function FilterButton(mbe: Bits, ms: MouseStatus, c: Bits, i: nat): (c': Bits)
    requires i < 3 && |ms.button| == 3
    ensures i in c' <==> i in c && !Unwanted(mbe, Action(ms, i), i)
    ensures forall b :: b != i ==> (b in c' <==> b in c)
  {
    if i in c && Unwanted(mbe, Action(ms, i), i) then c - {i} else c
  }

  /**
   * The filter of _mouse_key: each button's changes bit survives iff it
   * was set and the event is wanted, so a triple click always survives;
   * the moved bit survives iff it was set and some button's motion is
   * trapped; the wheel bits survive iff set and wheel scrolling is
   * trapped; every other bit, the position report among them, stays.
   */
  function FilterChanges(mbe: Bits, ms: MouseStatus): (c: Bits)
    requires |ms.button| == 3
    ensures c <= ms.changes
    ensures forall i :: 0 <= i < 3 ==> (i in c <==> i in ms.changes && !Unwanted(mbe, Action(ms, i), i))
    ensures forall i :: 0 <= i < 3 && Action(ms, i) == BUTTON_TRIPLE_CLICKED ==> (i in c <==> i in ms.changes)
    ensures 3 in c <==> 3 in ms.changes && mbe * ANY_MOVED != {}
    ensures forall b :: b in WHEEL_BITS ==> (b in c <==> b in ms.changes && mbe * MOUSE_WHEEL_SCROLL != {})
    ensures forall b :: b == 4 || b > 6 ==> (b in c <==> b in ms.changes)
  {
    var c0 := FilterButton(mbe, ms, ms.changes, 0);
    var c1 := FilterButton(mbe, ms, c0, 1);
    var c2 := FilterButton(mbe, ms, c1, 2);
    var c3 := if c2 * PDC_MOUSE_MOVED != {} && mbe * ANY_MOVED == {} then c2 - PDC_MOUSE_MOVED else c2;
    if c3 * WHEEL_BITS != {} && mbe * MOUSE_WHEEL_SCROLL == {} then c3 - WHEEL_BITS else c3
  }

  /**
   * _mouse_key: the filtered status replaces the session's; -1 (no
   * event) when no changes bit remains; otherwise, on a soft label,
   * that label's function key when button 1's state has the pressed or
   * clicked bit set and -1 when not; elsewhere KEY_MOUSE.
   */
  function MouseKey(mbe: Bits, ms: MouseStatus, slk: SlkState): (r: (int, MouseStatus))
    requires |ms.button| == 3
    ensures r.1 == ms.(changes := FilterChanges(mbe, ms))
    ensures r.0 == -1 <==> (r.1.changes == {} ||
      (MouseInSlk(slk, ms.y, ms.x) != 0 && !PressOrClickBit(ms.button[0])))
    ensures r.1.changes != {} && MouseInSlk(slk, ms.y, ms.x) == 0 ==> r.0 == KEY_MOUSE
    ensures MouseInSlk(slk, ms.y, ms.x) != 0 && r.0 != -1 ==> (r.0 == KeyF(MouseInSlk(slk, ms.y, ms.x)) &&
      1 <= MouseInSlk(slk, ms.y, ms.x) <= |slk.labels|)
  {
    var c := FilterChanges(mbe, ms);
    var ms' := ms.(changes := c);
    if c == {} then (-1, ms')
    else
      var i := MouseInSlk(slk, ms.y, ms.x);
      if i != 0 then
        (if PressOrClickBit(ms.button[0]) then KeyF(i) else -1, ms')
      else (KEY_MOUSE, ms')
  }

  /**
   * `status & (BUTTON_PRESSED | BUTTON_CLICKED)` is non-zero: bit 0 or
   * bit 1 of the status is set.
   */
  predicate PressOrClickBit(status: nat)
  {
    status % 4 != 0
  }

  /**
   * The label test is on bits, not on the action: a double click (3) and
   * a move (5) share a bit with "pressed" or "clicked" and also yield the
   * label's function key, while a triple click (4) or a release (0) does
   * not.
   */
  lemma SlkKeyActions(status: nat)
    ensures ActionOf(status) in {BUTTON_PRESSED, BUTTON_CLICKED, BUTTON_DOUBLE_CLICKED, BUTTON_MOVED} ==>
      PressOrClickBit(status)
    ensures ActionOf(status) in {BUTTON_RELEASED, BUTTON_TRIPLE_CLICKED} ==> !PressOrClickBit(status)
  {
  }

  // ---------------------------------------------------------------------
  // wgetch
  // ---------------------------------------------------------------------

  /**
   * The number of 50 ms sleeps before a timeout: twice the halfdelay
   * tenths when set, else the window's delay in 50 ms steps (at least
   * one), else none.
   */
  function WaitCount(delaytenths: int, delayms: int): (n: int)
    ensures delaytenths != 0 ==> n == 2 * delaytenths
    ensures delaytenths == 0 && delayms > 0 ==> n >= 1 && (n == 1 || n * 50 <= delayms < n * 50 + 50)
    ensures delaytenths == 0 && delayms == 0 ==> n == 0
  {
    if delaytenths != 0 then 2 * delaytenths
    else if delayms != 0 then
      (var n := CDiv(delayms, 50); if n == 0 then 1 else n)
    else 0
  }

  /**
   * wgetch refreshes the window first when it is not a pad and either is
   * touched or (unless leaveok) its cursor is not where the terminal's is.
   */
  predicate NeedsRefresh(w: Win, cursrow: int, curscol: int)
    requires Shaped(w)
  {
    w.flags & PAD == 0 &&
    ((!w.leaveit && (w.begx + w.curx != curscol || w.begy + w.cury != cursrow)) || IsWinTouched(w))
  }

  /** What the fetched key becomes: -1 for a special key without keypad, _mouse_key's result for a mouse event. */
  function Classify(m: Modes, w: Win, slk: SlkState, key: int, special: bool, ms: MouseStatus): (r: (int, MouseStatus))
    ensures !special ==> r == (key, ms)
    ensures special && !w.useKeypad ==> r == (-1, ms)
    ensures special && w.useKeypad && key != KEY_MOUSE ==> r == (key, ms)
  {
    if !special then (key, ms)
    else if !w.useKeypad then (-1, ms)
    else if key == KEY_MOUSE && |ms.button| == 3 then MouseKey(m.trapMbe, ms, slk)
    else (key, ms)
  }

  /** '\r' becomes '\n' when autocr is on and raw mode off. */
  function TranslateCr(m: Modes, key: int): (k: int)
    ensures k == NEWLINE <==> key == NEWLINE || (key == RETURN && m.autocr && !m.rawInp)
    ensures k != key ==> key == RETURN
  {
    if key == RETURN && m.autocr && !m.rawInp then NEWLINE else key
  }

  /**
   * Cooked-mode buffering of one key: '\b' drops the last unread key if
   * there is one; any other key is stored while fewer than INBUFSIZ-2
   * are.
   */
  function BufferKey(inp: Input, key: int): (r: Input)
    requires InputOk(inp)
    ensures InputOk(r) && r.ungch == inp.ungch && r.gindex == inp.gindex
    ensures key == BACKSPACE ==> (r.buffer == inp.buffer &&
      r.pindex == (if inp.pindex > inp.gindex then inp.pindex - 1 else inp.pindex))
    ensures key != BACKSPACE && inp.pindex < INBUFSIZ - 2 ==>
      r.pindex == inp.pindex + 1 && r.buffer == inp.buffer[inp.pindex := key]
    ensures key != BACKSPACE && inp.pindex >= INBUFSIZ - 2 ==> r == inp
  {
    if key == BACKSPACE then
      (if inp.pindex > inp.gindex then inp.(pindex := inp.pindex - 1) else inp)
    else if inp.pindex < INBUFSIZ - 2 then
      inp.(buffer := inp.buffer[inp.pindex := key], pindex := inp.pindex + 1)
    else inp
  }

  /** Effects `e` happen before those of the (unfinished or finished) rest of the call. */
  function After(e: seq<Effect>, r: Option<Got>): (r': Option<Got>)
    ensures r'.Some? <==> r.Some?
    ensures r.Some? ==> r'.value == r.value.(effects := e + r.value.effects)
  {
    if r.None? then None else Some(r.value.(effects := e + r.value.effects))
  }

  /**
   * The fetch loop of wgetch over the polls.  None means the polls ran
   * out while the call was still waiting.  The read index stays 0 in
   * the loop, where wgetch set it.
   */
  function Loop(m: Modes, w: Win, slk: SlkState, inp: Input, mouse: MouseStatus, waitcount: int, polls: seq<Poll>): (r: Option<Got>)
    requires InputOk(inp) && inp.gindex == 0
    ensures r.Some? ==> InputOk(r.value.input) && r.value.input.ungch == inp.ungch && |r.value.rest| < |polls|
    decreases |polls|
  {
    if |polls| == 0 then None
    else match polls[0]
      case Idle =>
        if m.delaytenths != 0 || w.delayms != 0 then
          if waitcount == 0 then Some(Got(-1, inp, mouse, [], polls[1..]))
          else
            After([Nap], Loop(m, w, slk, inp, mouse, waitcount - 1, polls[1..]))
        else if w.nodelay then Some(Got(-1, inp, mouse, [], polls[1..]))
        else
          After([Nap], Loop(m, w, slk, inp, mouse, waitcount, polls[1..]))
      case Ready(key0, special, ms) =>
        var (k, ms') := Classify(m, w, slk, key0, special, ms);
        if k == -1 then
          Loop(m, w, slk, inp, ms', waitcount, polls[1..])
        else
          var key := TranslateCr(m, k);
          var echo := if m.echo && !special then [Echo(key)] else [];
          if m.rawInp || m.cbreak then Some(Got(key, inp, ms', echo, polls[1..]))
          else
            var inp' := BufferKey(inp, key);
            if key == NEWLINE || key == RETURN then
              Some(Got(inp'.buffer[inp'.gindex], inp'.(gindex := inp'.gindex + 1), ms', echo, polls[1..]))
            else
              After(echo, Loop(m, w, slk, inp', ms', waitcount, polls[1..]))
  }

  /** The polls the loop leaves unread are the last ones: it reads from the front. */
  lemma {:induction false} LoopLeavesSuffix(m: Modes, w: Win, slk: SlkState, inp: Input, mouse: MouseStatus, waitcount: int,
                                           polls: seq<Poll>)
    requires InputOk(inp) && inp.gindex == 0
    ensures var r := Loop(m, w, slk, inp, mouse, waitcount, polls);
      r.Some? ==> r.value.rest == polls[|polls| - |r.value.rest|..]
    decreases |polls|
  {
    if |polls| > 0 {
      match polls[0]
      case Idle =>
        var wc := if m.delaytenths != 0 || w.delayms != 0 then waitcount - 1 else waitcount;
        LoopLeavesSuffix(m, w, slk, inp, mouse, wc, polls[1..]);
        RestOfTail(polls, Loop(m, w, slk, inp, mouse, wc, polls[1..]));
      case Ready(key0, special, ms) =>
        var (k, ms') := Classify(m, w, slk, key0, special, ms);
        var inp' := if k == -1 then inp else BufferKey(inp, TranslateCr(m, k));
        LoopLeavesSuffix(m, w, slk, inp', ms', waitcount, polls[1..]);
        RestOfTail(polls, Loop(m, w, slk, inp', ms', waitcount, polls[1..]));
    }
  }

  /** What is left after the polls that follow the first is left after all of them. */
  lemma RestOfTail(polls: seq<Poll>, r: Option<Got>)
    requires |polls| > 0
    requires r.Some? ==> |r.value.rest| < |polls| - 1 && r.value.rest == polls[1..][|polls| - 1 - |r.value.rest|..]
    ensures r.Some? ==> r.value.rest == polls[|polls| - |r.value.rest|..]
  {
  }

  /** The terminal's cursor position, which wgetch compares with the window's. */
  datatype Cursor = Cursor(row: int, col: int)

  /** The refresh wgetch does on entry, when one is needed. */
  function Entry(w: Win, cur: Cursor): (e: seq<Effect>)
    requires Shaped(w)
    ensures e == [RefreshWin] <==> NeedsRefresh(w, cur.row, cur.col)
    ensures e == [] <==> !NeedsRefresh(w, cur.row, cur.col)
  {
    if NeedsRefresh(w, cur.row, cur.col) then [RefreshWin] else []
  }

  /**
   * wgetch: after the refresh, a pushed-back key (the last pushed) if
   * any; else in cooked mode the next buffered key if any; else the
   * fetch loop with an empty buffer.
   */
  function WGetch(m: Modes, w: Win, cur: Cursor, slk: SlkState, inp: Input, mouse: MouseStatus, polls: seq<Poll>): (r: Option<Got>)
    requires Shaped(w) && InputOk(inp)
    ensures r.Some? ==> InputOk(r.value.input)
    ensures |inp.ungch| > 0 ==> (r.Some? && r.value.key == inp.ungch[|inp.ungch| - 1] &&
      r.value.input == inp.(ungch := inp.ungch[..|inp.ungch| - 1]) && r.value.rest == polls)
    ensures |inp.ungch| == 0 && !m.rawInp && !m.cbreak && inp.gindex < inp.pindex ==>
      (r.Some? && r.value.key == inp.buffer[inp.gindex] &&
      r.value.input == inp.(gindex := inp.gindex + 1) && r.value.rest == polls)
    ensures r.Some? && r.value.rest != polls ==> |inp.ungch| == 0 && r.value.input.ungch == []
  {
    var pre := Entry(w, cur);
    if |inp.ungch| > 0 then
      Some(Got(inp.ungch[|inp.ungch| - 1], inp.(ungch := inp.ungch[..|inp.ungch| - 1]), mouse, pre, polls))
    else if !m.rawInp && !m.cbreak && inp.gindex < inp.pindex then
      Some(Got(inp.buffer[inp.gindex], inp.(gindex := inp.gindex + 1), mouse, pre, polls))
    else
      var r := After(pre, Loop(m, w, slk, inp.(gindex := 0, pindex := 0), mouse, WaitCount(m.delaytenths, w.delayms), polls));
      assert r.Some? ==> r.value.rest != polls;
      r
  }

  // ---------------------------------------------------------------------
  // Properties of wgetch
  // ---------------------------------------------------------------------

  /** Two pushed-back keys come back last-in-first-out, leaving the input as it was. */
  lemma UngetchLifo(m: Modes, w: Win, cur: Cursor, slk: SlkState, inp: Input, mouse: MouseStatus,
                    polls: seq<Poll>, a: int, b: int)
    requires Shaped(w) && InputOk(inp) && |inp.ungch| + 2 <= NUNGETCH
    ensures var g1 := WGetch(m, w, cur, slk, Ungetch(Ungetch(inp, a).1, b).1, mouse, polls);
      (g1.Some? && g1.value.key == b && g1.value.rest == polls &&
      var g2 := WGetch(m, w, cur, slk, g1.value.input, g1.value.mouse, polls);
      g2.Some? && g2.value.key == a && g2.value.input == inp && g2.value.rest == polls)
  {
    var i1 := Ungetch(inp, a).1;
    var i2 := Ungetch(i1, b).1;
    assert i2.ungch[..|i2.ungch| - 1] == i1.ungch;
    assert i1.ungch[..|i1.ungch| - 1] == inp.ungch;
  }

  /** After flushinp, wgetch behaves as on an input that never held a key. */
  lemma FlushedInputIsEmpty(m: Modes, w: Win, cur: Cursor, slk: SlkState, inp: Input, mouse: MouseStatus,
                            polls: seq<Poll>)
    requires Shaped(w) && InputOk(inp)
    ensures WGetch(m, w, cur, slk, FlushInp(inp), mouse, polls) ==
      WGetch(m, w, cur, slk, inp.(ungch := [], gindex := 0, pindex := 0), mouse, polls)
  {
  }

  /** Effects prepended in two steps are the concatenation prepended once. */
  lemma AfterAfter(a: seq<Effect>, b: seq<Effect>, r: Option<Got>)
    ensures After(a, After(b, r)) == After(a + b, r)
  {
    if r.Some? {
      assert a + (b + r.value.effects) == (a + b) + r.value.effects;
    }
  }

  /** Prepending no effects changes nothing. */
  lemma AfterNothing(r: Option<Got>)
    ensures After([], r) == r
  {
    if r.Some? {
      assert [] + r.value.effects == r.value.effects;
    }
  }

  /**
   * With a timeout and nothing ready, the loop sleeps exactly `n` times,
   * then gives up with -1 (ERR) having read `n + 1` idle polls.
   */
  lemma {:induction false} TimeoutNaps(m: Modes, w: Win, slk: SlkState, inp: Input, mouse: MouseStatus,
                                       n: nat, polls: seq<Poll>)
    requires InputOk(inp) && inp.gindex == 0
    requires m.delaytenths != 0 || w.delayms != 0
    requires |polls| > n && forall i :: 0 <= i <= n ==> polls[i] == Idle
    ensures Loop(m, w, slk, inp, mouse, n, polls) == Some(Got(-1, inp, mouse, Repeat(Nap, n), polls[n + 1..]))
    decreases n
  {
    if n > 0 {
      TimeoutNaps(m, w, slk, inp, mouse, n - 1, polls[1..]);
      assert polls[1..][n..] == polls[n + 1..];
    }
  }

  /** Without a timeout or nodelay, idle polls never end the call: it sleeps and polls again. */
  lemma {:induction false} BlockingWaits(m: Modes, w: Win, slk: SlkState, inp: Input, mouse: MouseStatus,
                                         wc: int, polls: seq<Poll>)
    requires InputOk(inp) && inp.gindex == 0
    requires m.delaytenths == 0 && w.delayms == 0 && !w.nodelay
    requires forall i :: 0 <= i < |polls| ==> polls[i] == Idle
    ensures Loop(m, w, slk, inp, mouse, wc, polls) == None
    decreases |polls|
  {
    if |polls| > 0 {
      BlockingWaits(m, w, slk, inp, mouse, wc, polls[1..]);
    }
  }

  /**
   * wgetch with a halfdelay or window timeout and no key arriving: after
   * the entry refresh it sleeps WaitCount times, then returns ERR.
   */
  lemma WGetchTimesOut(m: Modes, w: Win, cur: Cursor, slk: SlkState, inp: Input, mouse: MouseStatus,
                       polls: seq<Poll>)
    requires Shaped(w) && InputOk(inp) && |inp.ungch| == 0
    requires m.rawInp || m.cbreak || inp.gindex >= inp.pindex
    requires m.delaytenths > 0 || (m.delaytenths == 0 && w.delayms > 0)
    requires |polls| > WaitCount(m.delaytenths, w.delayms)
    requires forall i :: 0 <= i < |polls| ==> polls[i] == Idle
    ensures var n := WaitCount(m.delaytenths, w.delayms);
      var r := WGetch(m, w, cur, slk, inp, mouse, polls);
      (n >= 1 && r.Some? && r.value.key == -1 && r.value.input == inp.(gindex := 0, pindex := 0) &&
      r.value.effects == Entry(w, cur) + Repeat(Nap, n) && |r.value.rest| == |polls| - n - 1)
  {
    TimeoutNaps(m, w, slk, inp.(gindex := 0, pindex := 0), mouse, WaitCount(m.delaytenths, w.delayms), polls);
  }

  /** With nodelay and no timeout, a call finding nothing ready returns ERR at once, without sleeping. */
  lemma NodelayReturnsAtOnce(m: Modes, w: Win, cur: Cursor, slk: SlkState, inp: Input, mouse: MouseStatus,
                             polls: seq<Poll>)
    requires Shaped(w) && InputOk(inp) && |inp.ungch| == 0
    requires m.rawInp || m.cbreak || inp.gindex >= inp.pindex
    requires m.delaytenths == 0 && w.delayms == 0 && w.nodelay
    requires |polls| > 0 && polls[0] == Idle
    ensures var r := WGetch(m, w, cur, slk, inp, mouse, polls);
      (r.Some? && r.value.key == -1 && r.value.effects == Entry(w, cur) && r.value.rest == polls[1..])
  {
  }

  /** Without keypad mode a special key is dropped and the loop goes on with the next poll. */
  lemma SpecialKeyDropped(m: Modes, w: Win, slk: SlkState, inp: Input, mouse: MouseStatus, wc: int,
                          polls: seq<Poll>)
    requires InputOk(inp) && inp.gindex == 0 && !w.useKeypad
    requires |polls| > 0 && polls[0].Ready? && polls[0].special
    ensures Loop(m, w, slk, inp, mouse, wc, polls) == Loop(m, w, slk, inp, polls[0].mouse, wc, polls[1..])
  {
  }

  /** A key cooked mode stores and does not end the line with. */
  predicate Ordinary(k: int)
  {
    k != -1 && k != BACKSPACE && k != NEWLINE && k != RETURN
  }

  /** The polls delivering plain keys `ks`, the mouse status staying `ms`. */
  function Typed(ks: seq<int>, ms: MouseStatus): (ps: seq<Poll>)
    ensures |ps| == |ks|
    ensures forall i :: 0 <= i < |ks| ==> ps[i] == Ready(ks[i], false, ms)
  {
    if ks == [] then [] else [Ready(ks[0], false, ms)] + Typed(ks[1..], ms)
  }

  /** The echo effects of keys `ks`: one per key when echo is on, none otherwise. */
  function Echoes(m: Modes, ks: seq<int>): (e: seq<Effect>)
    ensures |e| == (if m.echo then |ks| else 0)
    ensures forall i :: 0 <= i < |e| ==> e[i] == Echo(ks[i])
  {
    if !m.echo || ks == [] then [] else [Echo(ks[0])] + Echoes(m, ks[1..])
  }

  /** Cooked-mode buffering of the keys `ks` one after the other. */
  function Feed(inp: Input, ks: seq<int>): (r: Input)
    requires InputOk(inp)
    ensures InputOk(r) && r.ungch == inp.ungch && r.gindex == inp.gindex
    decreases |ks|
  {
    if ks == [] then inp else Feed(BufferKey(inp, ks[0]), ks[1..])
  }

  /**
   * Buffering keys other than '\b' stores them in order from the write
   * index on, up to the INBUFSIZ-2 limit, and touches no other slot.
   */
  lemma {:induction false} FeedStores(inp: Input, ks: seq<int>)
    requires InputOk(inp)
    requires forall i :: 0 <= i < |ks| ==> ks[i] != BACKSPACE
    ensures var r := Feed(inp, ks);
      (r.pindex == Min(inp.pindex + |ks|, INBUFSIZ - 2) &&
      (forall j :: inp.pindex <= j < r.pindex ==> r.buffer[j] == ks[j - inp.pindex]) &&
      (forall j :: 0 <= j < INBUFSIZ && !(inp.pindex <= j < r.pindex) ==> r.buffer[j] == inp.buffer[j]))
    decreases |ks|
  {
    if ks != [] {
      var inp' := BufferKey(inp, ks[0]);
      FeedStores(inp', ks[1..]);
    }
  }

  /** The echo of one plain key. */
  function EchoOne(m: Modes, k: int): (e: seq<Effect>)
    ensures e == Echoes(m, [k])
  {
    if m.echo then [Echo(k)] else []
  }

  /** The echoes of a line are those of its keys followed by that of its last key. */
  lemma EchoesAppend(m: Modes, ks: seq<int>, k: int)
    ensures Echoes(m, ks + [k]) == Echoes(m, ks) + EchoOne(m, k)
  {
  }

  /** One ordinary key in cooked mode: stored, echoed, and the loop goes on. */
  lemma LoopOrdinaryStep(m: Modes, w: Win, slk: SlkState, inp: Input, mouse: MouseStatus, wc: int,
                         k: int, rest: seq<Poll>)
    requires InputOk(inp) && inp.gindex == 0 && !m.rawInp && !m.cbreak && Ordinary(k)
    ensures Loop(m, w, slk, inp, mouse, wc, [Ready(k, false, mouse)] + rest) ==
      After(EchoOne(m, k), Loop(m, w, slk, BufferKey(inp, k), mouse, wc, rest))
  {
    assert ([Ready(k, false, mouse)] + rest)[1..] == rest;
  }

  /** '\b' in cooked mode drops the last unread key, and the loop goes on. */
  lemma LoopBackspaceStep(m: Modes, w: Win, slk: SlkState, inp: Input, mouse: MouseStatus, wc: int,
                          rest: seq<Poll>)
    requires InputOk(inp) && inp.gindex == 0 && !m.rawInp && !m.cbreak
    ensures Loop(m, w, slk, inp, mouse, wc, [Ready(BACKSPACE, false, mouse)] + rest) ==
      After(EchoOne(m, BACKSPACE), Loop(m, w, slk, BufferKey(inp, BACKSPACE), mouse, wc, rest))
  {
    assert ([Ready(BACKSPACE, false, mouse)] + rest)[1..] == rest;
  }

  /** A newline in cooked mode: stored if there is room, and the first buffered key is returned. */
  lemma LoopNewlineStep(m: Modes, w: Win, slk: SlkState, inp: Input, mouse: MouseStatus, wc: int,
                        rest: seq<Poll>)
    requires InputOk(inp) && inp.gindex == 0 && !m.rawInp && !m.cbreak
    ensures var last := BufferKey(inp, NEWLINE);
      Loop(m, w, slk, inp, mouse, wc, [Ready(NEWLINE, false, mouse)] + rest) ==
      Some(Got(last.buffer[0], last.(gindex := 1), mouse, EchoOne(m, NEWLINE), rest))
  {
    assert ([Ready(NEWLINE, false, mouse)] + rest)[1..] == rest;
  }

  /** Where nothing is stacked or buffered, wgetch is the entry refresh followed by the fetch loop. */
  lemma WGetchFetches(m: Modes, w: Win, cur: Cursor, slk: SlkState, inp: Input, mouse: MouseStatus,
                      polls: seq<Poll>)
    requires Shaped(w) && InputOk(inp) && |inp.ungch| == 0
    requires m.rawInp || m.cbreak || inp.gindex >= inp.pindex
    ensures WGetch(m, w, cur, slk, inp, mouse, polls) ==
      After(Entry(w, cur), Loop(m, w, slk, inp.(gindex := 0, pindex := 0), mouse,
        WaitCount(m.delaytenths, w.delayms), polls))
  {
  }

  /**
   * In cooked mode the loop takes ordinary keys into the buffer, echoing
   * each when echo is on, and carries on waiting.
   */
  lemma {:induction false} LoopTyped(m: Modes, w: Win, slk: SlkState, inp: Input, mouse: MouseStatus, wc: int,
                                     ks: seq<int>, rest: seq<Poll>)
    requires InputOk(inp) && inp.gindex == 0 && !m.rawInp && !m.cbreak
    requires forall i :: 0 <= i < |ks| ==> Ordinary(ks[i])
    ensures Loop(m, w, slk, inp, mouse, wc, Typed(ks, mouse) + rest) ==
      After(Echoes(m, ks), Loop(m, w, slk, Feed(inp, ks), mouse, wc, rest))
    decreases |ks|
  {
    if ks == [] {
      assert Typed(ks, mouse) + rest == rest;
      AfterNothing(Loop(m, w, slk, inp, mouse, wc, rest));
    } else {
      assert Typed(ks, mouse) + rest == [Ready(ks[0], false, mouse)] + (Typed(ks[1..], mouse) + rest);
      var inp' := BufferKey(inp, ks[0]);
      LoopOrdinaryStep(m, w, slk, inp, mouse, wc, ks[0], Typed(ks[1..], mouse) + rest);
      LoopTyped(m, w, slk, inp', mouse, wc, ks[1..], rest);
      AfterAfter(EchoOne(m, ks[0]), Echoes(m, ks[1..]), Loop(m, w, slk, Feed(inp', ks[1..]), mouse, wc, rest));
      assert EchoOne(m, ks[0]) + Echoes(m, ks[1..]) == Echoes(m, ks);
    }
  }

  /** The buffer after a line of ordinary keys and a newline holds the line, as much of it as fits. */
  lemma LineStored(inp: Input, ks: seq<int>)
    requires InputOk(inp) && inp.pindex == 0
    requires forall i :: 0 <= i < |ks| ==> Ordinary(ks[i])
    ensures var line := ks + [NEWLINE];
      var p := Min(|line|, INBUFSIZ - 2);
      var last := BufferKey(Feed(inp, ks), NEWLINE);
      last.pindex == p && last.buffer[..p] == line[..p] && last.buffer[0] == line[0]
  {
    var line := ks + [NEWLINE];
    FeedStores(inp, ks);
    var fed := Feed(inp, ks);
    var last := BufferKey(fed, NEWLINE);
    var p := Min(|line|, INBUFSIZ - 2);
    forall j | 0 <= j < p
      ensures last.buffer[j] == line[j]
    {
      if j < fed.pindex {
        assert last.buffer[j] == fed.buffer[j];
      }
    }
    assert last.buffer[..p] == line[..p];
  }

  /**
   * A line typed in cooked mode: wgetch stores the keys and the newline
   * (as many as fit) and returns the first of them, the read index
   * moving past it, so the next calls return the rest in order.
   */
  lemma CookedLine(m: Modes, w: Win, cur: Cursor, slk: SlkState, inp: Input, mouse: MouseStatus,
                   ks: seq<int>, rest: seq<Poll>)
    requires Shaped(w) && InputOk(inp) && |inp.ungch| == 0
    requires !m.rawInp && !m.cbreak && inp.gindex >= inp.pindex
    requires forall i :: 0 <= i < |ks| ==> Ordinary(ks[i])
    ensures var line := ks + [NEWLINE];
      var p := Min(|line|, INBUFSIZ - 2);
      var r := WGetch(m, w, cur, slk, inp, mouse, Typed(ks, mouse) + [Ready(NEWLINE, false, mouse)] + rest);
      (r.Some? && r.value.key == line[0] && r.value.input.gindex == 1 && r.value.input.pindex == p &&
      r.value.input.buffer[..p] == line[..p] && r.value.input.ungch == [] &&
      r.value.effects == Entry(w, cur) + Echoes(m, line) && r.value.rest == rest)
  {
    var line := ks + [NEWLINE];
    var inp0 := inp.(gindex := 0, pindex := 0);
    var wc := WaitCount(m.delaytenths, w.delayms);
    var tail := [Ready(NEWLINE, false, mouse)] + rest;
    assert Typed(ks, mouse) + [Ready(NEWLINE, false, mouse)] + rest == Typed(ks, mouse) + tail;
    WGetchFetches(m, w, cur, slk, inp, mouse, Typed(ks, mouse) + tail);
    LoopTyped(m, w, slk, inp0, mouse, wc, ks, tail);
    var fed := Feed(inp0, ks);
    LoopNewlineStep(m, w, slk, fed, mouse, wc, rest);
    AfterAfter(Entry(w, cur), Echoes(m, ks), Loop(m, w, slk, fed, mouse, wc, tail));
    EchoesAppend(m, ks, NEWLINE);
    LineStored(inp0, ks);
  }

  /**
   * Typing a, b, '\b', c and a newline in cooked mode buffers "ac\n"
   * and returns 'a'.
   */
  lemma BackspaceExample(m: Modes, w: Win, slk: SlkState, inp: Input, mouse: MouseStatus, wc: int,
                         rest: seq<Poll>)
    requires InputOk(inp) && inp.gindex == 0 && inp.pindex == 0 && !m.rawInp && !m.cbreak
    ensures var r := Loop(m, w, slk, inp, mouse, wc, [Ready('a' as int, false, mouse), Ready('b' as int, false, mouse),
      Ready(BACKSPACE, false, mouse), Ready('c' as int, false, mouse), Ready(NEWLINE, false, mouse)] + rest);
      (r.Some? && r.value.key == 'a' as int && r.value.input.pindex == 3 &&
      r.value.input.buffer[..3] == ['a' as int, 'c' as int, NEWLINE] && r.value.rest == rest)
  {
    var a, b, c := 'a' as int, 'b' as int, 'c' as int;
    var p4 := [Ready(NEWLINE, false, mouse)] + rest;
    var p3 := [Ready(c, false, mouse)] + p4;
    var p2 := [Ready(BACKSPACE, false, mouse)] + p3;
    var p1 := [Ready(b, false, mouse)] + p2;
    assert [Ready(a, false, mouse), Ready(b, false, mouse), Ready(BACKSPACE, false, mouse),
      Ready(c, false, mouse), Ready(NEWLINE, false, mouse)] + rest == [Ready(a, false, mouse)] + p1;
    var i1 := BufferKey(inp, a);
    var i2 := BufferKey(i1, b);
    var i3 := BufferKey(i2, BACKSPACE);
    var i4 := BufferKey(i3, c);
    LoopOrdinaryStep(m, w, slk, inp, mouse, wc, a, p1);
    LoopOrdinaryStep(m, w, slk, i1, mouse, wc, b, p2);
    LoopBackspaceStep(m, w, slk, i2, mouse, wc, p3);
    LoopOrdinaryStep(m, w, slk, i3, mouse, wc, c, p4);
    LoopNewlineStep(m, w, slk, i4, mouse, wc, rest);
    BackspaceExampleBuffer(inp);
  }

  /** The buffer contents behind BackspaceExample. */
  lemma BackspaceExampleBuffer(inp: Input)
    requires InputOk(inp) && inp.gindex == 0 && inp.pindex == 0
    ensures var last := BufferKey(BufferKey(BufferKey(BufferKey(BufferKey(inp, 'a' as int), 'b' as int),
      BACKSPACE), 'c' as int), NEWLINE);
      (last.pindex == 3 && last.buffer[..3] == ['a' as int, 'c' as int, NEWLINE] && last.buffer[0] == 'a' as int)
  {
    var last := BufferKey(BufferKey(BufferKey(BufferKey(BufferKey(inp, 'a' as int), 'b' as int),
      BACKSPACE), 'c' as int), NEWLINE);
    assert last.buffer[..3] == ['a' as int, 'c' as int, NEWLINE];
  }

  // ---------------------------------------------------------------------
  // The mouse filter in terms of the named masks
  // ---------------------------------------------------------------------

  /** The named event mask of button `i + 1` for a filterable action. */
  function ButtonMask(action: nat, i: nat): Bits
    requires Filterable(action) && i < 3
  {
    match i
    case 0 => Button1Mask(action)
    case 1 =>
      if action == BUTTON_RELEASED then BUTTON2_RELEASED
      else if action == BUTTON_PRESSED then BUTTON2_PRESSED
      else if action == BUTTON_CLICKED then BUTTON2_CLICKED
      else if action == BUTTON_DOUBLE_CLICKED then BUTTON2_DOUBLE_CLICKED
      else BUTTON2_MOVED
    case _ =>
      if action == BUTTON_RELEASED then BUTTON3_RELEASED
      else if action == BUTTON_PRESSED then BUTTON3_PRESSED
      else if action == BUTTON_CLICKED then BUTTON3_CLICKED
      else if action == BUTTON_DOUBLE_CLICKED then BUTTON3_DOUBLE_CLICKED
      else BUTTON3_MOVED
  }

  /** The filter's shift by `5i` picks exactly the named mask of button `i + 1`. */
  lemma ButtonMaskIsShift(action: nat, i: nat)
    requires Filterable(action) && i < 3
    ensures ButtonMask(action, i) == Shl(Button1Mask(action), i * 5)
  {
    MaskLayout();
    var b1 := Button1Mask(action);
    assert |b1| == 1 && exists b :: b1 == {b} by {
      var b :| b in b1;
      assert b1 == {b};
    }
    if i == 0 {
      var b :| b1 == {b};
      SingletonShift(b, 0);
    }
  }

  /**
   * A button event passes the filter iff it changed and either it is a
   * triple click or the application traps the named mask of that button
   * and action.
   */
  lemma FilterByNamedMask(mbe: Bits, ms: MouseStatus, i: nat)
    requires |ms.button| == 3 && i < 3
    ensures var a := Action(ms, i);
      (i in FilterChanges(mbe, ms) <==>
      i in ms.changes && (!Filterable(a) || ButtonMask(a, i) * mbe != {}))
  {
    if Filterable(Action(ms, i)) {
      ButtonMaskIsShift(Action(ms, i), i);
    }
  }
}
