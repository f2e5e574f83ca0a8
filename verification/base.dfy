/**
 * Shared vocabulary: optional values, the OK/ERR status every curses
 * call returns, bytes, C strings, and C's truncating integer division.
 */
module Base {

  datatype Option<T> = None | Some(value: T)
  {
    /** The value, or `dflt` when there is none. */
    function GetOr(dflt: T): T
    {
      if Some? then value else dflt
    }
  }

  /** The two results of an `int`-returning curses call. */
  datatype Status = OK | ERR

  /** The numeric value C sees for a status. */
  function StatusCode(st: Status): (r: int)
    ensures st.OK? <==> r == 0
    ensures st.ERR? <==> r == -1
  {
    match st
    case OK => 0
    case ERR => -1
  }

  type Byte = bv8

  /** The two keys that end a line of input: '\n' and '\r'. */
  const NEWLINE: int := 10
  const RETURN: int := 13

  /** A C string: the bytes in front of its terminating NUL. */
  type CStr = s: seq<Byte> | forall i :: 0 <= i < |s| ==> s[i] != 0

  function Min(a: int, b: int): int { if a < b then a else b }
  function Max(a: int, b: int): int { if a < b then b else a }

  /** C's `/`, which truncates toward zero (Dafny's `/` is Euclidean). */
  function CDiv(a: int, b: int): (q: int)
    requires b != 0
    ensures a >= 0 && b > 0 ==> q == a / b
    ensures b > 0 ==> q * b <= a || a < 0
    ensures b > 0 && a < 0 ==> q == -((-a) / b)
  {
    if (a >= 0) == (b > 0) then
      (if a >= 0 then a else -a) / (if b > 0 then b else -b)
    else
      -((if a >= 0 then a else -a) / (if b > 0 then b else -b))
  }

  /** C's `%`: the remainder carries the sign of the dividend. */
  function CRem(a: int, b: int): (r: int)
    requires b != 0
    ensures a == CDiv(a, b) * b + r
    ensures a >= 0 ==> 0 <= r < (if b > 0 then b else -b)
    ensures a < 0 ==> -(if b > 0 then b else -b) < r <= 0
  {
    a - CDiv(a, b) * b
  }

  /** A sequence of `n` copies of `v`. */
  function Repeat<T>(v: T, n: nat): (r: seq<T>)
    ensures |r| == n
    ensures forall i :: 0 <= i < n ==> r[i] == v
  {
    if n == 0 then [] else [v] + Repeat(v, n - 1)
  }

  /** `s` in reverse order. */
  function Reverse<T>(s: seq<T>): (r: seq<T>)
    ensures |r| == |s|
    ensures forall i :: 0 <= i < |s| ==> r[i] == s[|s| - 1 - i]
  {
    if s == [] then [] else Reverse(s[1..]) + [s[0]]
  }

  /** Adding a fresh key and removing it again gives back the map. */
  lemma MapAddRemove<K, V>(m: map<K, V>, k: K, v: V)
    requires k !in m
    ensures m[k := v] - {k} == m
  {
    assert (m[k := v] - {k}).Keys == m.Keys;
  }
}
