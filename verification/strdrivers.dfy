/**
 * The string drivers (addstr.c, insstr.c): each hands the characters of
 * a C string, one at a time, to a single-character routine (waddch or
 * winsch) and gives up at the first failure.  The single-character
 * routines are not part of this model; they are parameters, so the
 * drivers are described by the calls they issue.
 */
module StrDrivers {
  import opened Base
  import opened Cells
  import opened Store

  /** A driver's outcome: its status, the final state, and the calls it issued. */
  datatype Outcome<S> = Outcome(status: Status, state: S, issued: seq<Cell>)

  /** `pre` prepended to the calls of a run. */
  function Prefixed<S>(pre: seq<Cell>, r: Outcome<S>): Outcome<S>
  {
    r.(issued := pre + r.issued)
  }

  /**
   * The reference behaviour of a driver: issue `calls` in order through
   * `step`, stopping right after the first call that fails.
   */
  function Issue<S>(s: S, calls: seq<Cell>, step: (S, Cell) -> (Status, S)): (r: Outcome<S>)
    ensures |r.issued| <= |calls| && r.issued == calls[..|r.issued|]
    ensures r.status == OK ==> r.issued == calls
    ensures |r.issued| < |calls| ==> r.status == ERR
    ensures r.status == ERR ==> |r.issued| >= 1
    decreases |calls|
  {
    if calls == [] then Outcome(OK, s, [])
    else
      var (st, s1) := step(s, calls[0]);
      if st == ERR then Outcome(ERR, s1, [calls[0]])
      else Prefixed([calls[0]], Issue(s1, calls[1..], step))
  }

  /** When every call succeeds the driver issues them all and returns OK. */
  lemma {:induction false} IssueAllOk<S>(s: S, calls: seq<Cell>, step: (S, Cell) -> (Status, S))
    requires forall t: S, c: Cell :: step(t, c).0 == OK
    ensures Issue(s, calls, step).status == OK
    ensures Issue(s, calls, step).issued == calls
    decreases |calls|
  {
    if calls != [] {
      IssueAllOk(step(s, calls[0]).1, calls[1..], step);
    }
  }

  /**
   * The C loop: calls are issued one by one while they succeed; the
   * result is the reference behaviour.
   */
  method Drive<S>(s0: S, calls: seq<Cell>, step: (S, Cell) -> (Status, S)) returns (st: Status, s: S, count: nat)
    ensures count <= |calls|
    ensures Issue(s0, calls, step) == Outcome(st, s, calls[..count])
  {
    var i := 0;
    s := s0;
    while i < |calls|
      invariant 0 <= i <= |calls|
      invariant Issue(s0, calls, step) == Prefixed(calls[..i], Issue(s, calls[i..], step))
    {
      var (r, s1) := step(s, calls[i]);
      IssueFirst(s, calls[i..], step);
      assert calls[i..][0] == calls[i] && calls[i..][1..] == calls[i + 1..];
      PrefixedTwice(calls[..i], [calls[i]], Issue(s1, calls[i + 1..], step));
      assert calls[..i] + [calls[i]] == calls[..i + 1];
      if r == ERR {
        return ERR, s1, i + 1;
      }
      s := s1;
      i := i + 1;
    }
    assert calls[..i] == calls;
    st, count := OK, |calls|;
  }

  /** Issuing a non-empty list starts with its first call. */
  lemma IssueFirst<S>(s: S, calls: seq<Cell>, step: (S, Cell) -> (Status, S))
    requires calls != []
    ensures var (st, s1) := step(s, calls[0]);
      Issue(s, calls, step) == if st == ERR then Outcome(ERR, s1, [calls[0]]) else Prefixed([calls[0]], Issue(s1, calls[1..], step))
  {
  }

  /** Prepending twice is prepending the concatenation. */
  lemma PrefixedTwice<S>(a: seq<Cell>, b: seq<Cell>, r: Outcome<S>)
    ensures Prefixed(a, Prefixed(b, r)) == Prefixed(a + b, r)
  {
    assert a + (b + r.issued) == (a + b) + r.issued;
  }

  /** A byte passed as a chtype: zero-extended, so it carries no attribute bits. */
  function ByteCell(b: Byte): (c: Cell)
    ensures c & A_ATTRIBUTES == 0
    ensures c & A_CHARTEXT == c
  {
    b as bv16
  }

  /** The waddch calls of waddnstr: the first n characters, or all of them when n < 0. */
  function AddCalls(str: CStr, n: int): (calls: seq<Cell>)
    ensures |calls| == (if n < 0 then |str| else Min(n, |str|))
    ensures forall i :: 0 <= i < |calls| ==> calls[i] == ByteCell(str[i])
  {
    var k := if n < 0 || n > |str| then |str| else n;
    seq(k, i requires 0 <= i < k => ByteCell(str[i]))
  }

  /**
   * waddnstr: ERR with no call for a null window or string; otherwise
   * the characters of AddCalls handed to waddch in order, stopping with
   * ERR at the first failure (earlier characters stay written).
   */
  method WAddNStr<S>(s: S, argsOk: bool, str: CStr, n: int, addch: (S, Cell) -> (Status, S))
    returns (st: Status, s': S, issued: seq<Cell>)
    ensures !argsOk ==> st == ERR && s' == s && issued == []
    ensures argsOk ==> Outcome(st, s', issued) == Issue(s, AddCalls(str, n), addch)
  {
    if !argsOk {
      return ERR, s, [];
    }
    var calls := AddCalls(str, n);
    var k;
    st, s', k := Drive(s, calls, addch);
    issued := calls[..k];
  }

  /**
   * mvwaddnstr and its relatives: ERR with no call when the move fails;
   * otherwise waddnstr from the new cursor.
   */
  method MvWAddNStr(h: Heap, w: Win, y: int, x: int, str: CStr, n: int,
                    addch: ((Heap, Win), Cell) -> (Status, (Heap, Win)))
    returns (st: Status, s': (Heap, Win), issued: seq<Cell>)
    ensures !(0 <= y < w.maxy && 0 <= x < w.maxx) ==> st == ERR && s' == (h, w) && issued == []
    ensures 0 <= y < w.maxy && 0 <= x < w.maxx ==>
      Outcome(st, s', issued) == Issue((h, w.(cury := y, curx := x)), AddCalls(str, n), addch)
  {
    var (mst, w') := WMove(w, y, x);
    if mst == ERR {
      return ERR, (h, w), [];
    }
    st, s', issued := WAddNStr((h, w'), true, str, n, addch);
  }

  /** How many characters winsnstr inserts: n, or the whole string when n < 0 or n exceeds it. */
  function InsCount(str: CStr, n: int): (k: nat)
    ensures k <= |str|
    ensures 0 <= n <= |str| ==> k == n
    ensures n < 0 || n > |str| ==> k == |str|
  {
    if n < 0 || n > |str| then |str| else n
  }

  /** The winsch calls of winsnstr: the first InsCount characters, last one first. */
  function InsCalls(str: CStr, n: int): (calls: seq<Cell>)
    ensures |calls| == InsCount(str, n)
    ensures forall i :: 0 <= i < |calls| ==> calls[i] == ByteCell(str[|calls| - 1 - i])
  {
    var k := InsCount(str, n);
    seq(k, i requires 0 <= i < k => ByteCell(str[k - 1 - i]))
  }

  /**
   * winsnstr: ERR with no call for a null window or string; otherwise
   * InsCalls handed to winsch, stopping with ERR at the first failure.
   * This is the count the routine's description promises; the count the
   * code computes is InsCountAsWritten.
   */
  method WInsNStr<S>(s: S, argsOk: bool, str: CStr, n: int, insch: (S, Cell) -> (Status, S))
    returns (st: Status, s': S, issued: seq<Cell>)
    ensures !argsOk ==> st == ERR && s' == s && issued == []
    ensures argsOk ==> Outcome(st, s', issued) == Issue(s, InsCalls(str, n), insch)
  {
    if !argsOk {
      return ERR, s, [];
    }
    var calls := InsCalls(str, n);
    var k;
    st, s', k := Drive(s, calls, insch);
    issued := calls[..k];
  }

  /** The count as written: any n below the length, negative or not, becomes the length. */
  function InsCountAsWritten(str: CStr, n: int): (k: nat)
    ensures n <= |str| ==> k == |str|
    ensures n > |str| ==> k == n
  {
    if n < 0 || n < |str| then |str| else n
  }

  /**
   * The winsch calls as written: indices InsCountAsWritten-1 down to 0
   * of the string's memory, `mem` being what follows the string,
   * starting with its NUL.
   */
  function InsCallsAsWritten(str: CStr, mem: seq<Byte>, n: int): (calls: seq<Cell>)
    requires |mem| >= 1 && mem[0] == 0 && InsCountAsWritten(str, n) <= |str| + |mem|
    ensures |calls| == InsCountAsWritten(str, n)
    ensures forall i :: 0 <= i < |calls| ==> calls[i] == ByteCell((str + mem)[|calls| - 1 - i])
  {
    var k := InsCountAsWritten(str, n);
    var m := str + mem;
    seq(k, i requires 0 <= i < k => ByteCell(m[k - 1 - i]))
  }

  /**
   * The count as written disagrees with the description both ways: "abc"
   * with n = 1 inserts three characters, and "ab" with n = 3 first
   * inserts the NUL behind the string.
   */
  lemma InsCountAsWrittenWrong()
    ensures InsCountAsWritten([0x61, 0x62, 0x63], 1) == 3 && InsCount([0x61, 0x62, 0x63], 1) == 1
    ensures InsCallsAsWritten([0x61, 0x62], [0, 0x7a], 3)[0] == 0
    ensures InsCalls([0x61, 0x62], 3) == [0x62, 0x61]
  {
    assert InsCallsAsWritten([0x61, 0x62], [0, 0x7a], 3)[0] == ByteCell(([0x61, 0x62] + [0, 0x7a])[2]);
    var c := InsCalls([0x61, 0x62], 3);
    assert |c| == 2 && c[0] == ByteCell(0x62) && c[1] == ByteCell(0x61);
  }

  /** With the corrected count, winsnstr never inserts more than n characters or reads past the string. */
  lemma InsCountBounded(str: CStr, n: int)
    ensures |InsCalls(str, n)| <= |str|
    ensures n >= 0 ==> |InsCalls(str, n)| <= n
    ensures forall i :: 0 <= i < |InsCalls(str, n)| ==> InsCalls(str, n)[i] != 0
  {
    var c := InsCalls(str, n);
    forall i | 0 <= i < |c|
      ensures c[i] != 0
    {
      assert str[|c| - 1 - i] != 0;
    }
  }

  /**
   * winsch on a printable character, as far as this model needs it: the
   * character goes in at the cursor column, the rest of the line moves
   * right and the last cell falls off.
   */
  function InsertAt(line: seq<Cell>, x: nat, c: Cell): (r: seq<Cell>)
    requires x < |line|
    ensures |r| == |line|
    ensures r == (line[..x] + [c] + line[x..])[..|line|]
  {
    line[..x] + [c] + line[x..|line| - 1]
  }

  /** A sequence of such insertions at a fixed column, in call order. */
  function InsertAll(line: seq<Cell>, x: nat, cs: seq<Cell>): (r: seq<Cell>)
    requires x < |line|
    ensures |r| == |line|
    decreases |cs|
  {
    if cs == [] then line else InsertAll(InsertAt(line, x, cs[0]), x, cs[1..])
  }

  /**
   * Inserting the characters last-first at a fixed cursor leaves the
   * text reading forward at the cursor, the old rest of the line after
   * it, cut at the line's width.
   */
  lemma {:induction false} InsertReversedReadsForward(line: seq<Cell>, x: nat, t: seq<Cell>)
    requires x < |line|
    ensures InsertAll(line, x, Reverse(t)) == (line[..x] + t + line[x..])[..|line|]
    decreases |t|
  {
    if t == [] {
      assert line[..x] + t + line[x..] == line;
    } else {
      var a := t[|t| - 1];
      var t' := t[..|t| - 1];
      var rev := Reverse(t);
      assert rev == [a] + Reverse(t') by {
        assert |rev| == |[a] + Reverse(t')|;
        forall i | 0 <= i < |rev| ensures rev[i] == ([a] + Reverse(t'))[i] {
        }
      }
      assert rev[1..] == Reverse(t');
      var line1 := InsertAt(line, x, a);
      InsertReversedReadsForward(line1, x, t');
      assert InsertAll(line, x, rev) == InsertAll(line1, x, Reverse(t'));
      var lhs := line1[..x] + t' + line1[x..];
      var rhs := line[..x] + t + line[x..];
      assert line1[..x] == line[..x];
      assert |lhs| >= |line| && |rhs| >= |line|;
      forall i | 0 <= i < |line| ensures lhs[i] == rhs[i] {
        if i < x {
        } else if i < x + |t'| {
        } else if i == x + |t'| {
          assert lhs[i] == line1[x] == a;
        } else {
          assert lhs[i] == line1[i - |t'|];
        }
      }
      assert lhs[..|line|] == rhs[..|line|];
    }
  }

  /** winsnstr's calls, applied by a printable-character winsch, leave its text reading forward. */
  lemma InsStrReadsForward(line: seq<Cell>, x: nat, str: CStr, n: int)
    requires x < |line|
    ensures InsertAll(line, x, InsCalls(str, n)) ==
      (line[..x] + AddCalls(str, InsCount(str, n)) + line[x..])[..|line|]
  {
    var k := InsCount(str, n);
    var t := AddCalls(str, k);
    assert InsCalls(str, n) == Reverse(t);
    InsertReversedReadsForward(line, x, t);
  }
}
