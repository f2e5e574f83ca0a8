/**
 * The SysV-style mouse interface: button states, the bits of the
 * `changes` field, and the event masks an application traps.
 *
 * A C bit mask is modelled as the set of the positions of its set bits:
 * `m & b` is `m * b`, `m & ~b` is `m - b`, `m | b` is `m + b` and a
 * test `m & b` is `m * b != {}`.
 */
module MouseDefs {

  /** A bit mask, as the set of its set bit positions. */
  type Bits = set<nat>

  /** `m << k`. */
  function Shl(m: Bits, k: nat): Bits
  {
    set b | b in m :: b + k
  }

  /** Button state values (the low three bits of a button's status). */
  const BUTTON_RELEASED: nat := 0
  const BUTTON_PRESSED: nat := 1
  const BUTTON_CLICKED: nat := 2
  const BUTTON_DOUBLE_CLICKED: nat := 3
  const BUTTON_TRIPLE_CLICKED: nat := 4
  const BUTTON_MOVED: nat := 5

  /** `status & BUTTON_ACTION_MASK`: the action held in a button's status. */
  function ActionOf(status: nat): (a: nat)
    ensures a < 8
  {
    status % 8
  }

  /** Bits of the `changes` field: bits 0..2 for the buttons, then these. */
  const PDC_MOUSE_MOVED: Bits := {3}
  const PDC_MOUSE_POSITION: Bits := {4}
  const PDC_MOUSE_WHEEL_UP: Bits := {5}
  const PDC_MOUSE_WHEEL_DOWN: Bits := {6}

  /** Event masks; button k's masks are button 1's shifted left by 5(k-1). */
  const BUTTON1_RELEASED: Bits := {0}
  const BUTTON1_PRESSED: Bits := {1}
  const BUTTON1_CLICKED: Bits := {2}
  const BUTTON1_DOUBLE_CLICKED: Bits := {3}
  const BUTTON1_TRIPLE_CLICKED: Bits := {4}
  const BUTTON1_MOVED: Bits := {4}

  const BUTTON2_RELEASED: Bits := {5}
  const BUTTON2_PRESSED: Bits := {6}
  const BUTTON2_CLICKED: Bits := {7}
  const BUTTON2_DOUBLE_CLICKED: Bits := {8}
  const BUTTON2_TRIPLE_CLICKED: Bits := {9}
  const BUTTON2_MOVED: Bits := {9}

  const BUTTON3_RELEASED: Bits := {10}
  const BUTTON3_PRESSED: Bits := {11}
  const BUTTON3_CLICKED: Bits := {12}
  const BUTTON3_DOUBLE_CLICKED: Bits := {13}
  const BUTTON3_TRIPLE_CLICKED: Bits := {14}
  const BUTTON3_MOVED: Bits := {14}

  const BUTTON4_RELEASED: Bits := {15}
  const BUTTON5_RELEASED: Bits := {20}

  const MOUSE_WHEEL_SCROLL: Bits := {25}

  /** MOUSE_STATUS: position, the state of three buttons, and what changed. */
  datatype MouseStatus = MouseStatus(x: int, y: int, button: seq<nat>, changes: Bits)

  /** The state initscr leaves: off-screen, every button released, no change. */
  const InitialMouse: MouseStatus := MouseStatus(-1, -1, [BUTTON_RELEASED, BUTTON_RELEASED, BUTTON_RELEASED], {})

  /** BUTTON_CHANGED(x): the changes bit for button x, 1 <= x <= 3. */
  function ButtonChangedBit(x: int): (r: Bits)
    requires 1 <= x <= 3
    ensures r == Shl({0}, x - 1)
    ensures r * (PDC_MOUSE_MOVED + PDC_MOUSE_POSITION + PDC_MOUSE_WHEEL_UP + PDC_MOUSE_WHEEL_DOWN) == {}
  {
    SingletonShift(0, x - 1);
    {x - 1}
  }

  /**
   * Button 2's and button 3's masks are button 1's shifted by 5 and 10
   * bits; "moved" shares its bit with "triple clicked", and the wheel
   * mask lies above every button mask.
   */
  lemma MaskLayout()
    ensures BUTTON2_RELEASED == Shl(BUTTON1_RELEASED, 5) && BUTTON3_RELEASED == Shl(BUTTON1_RELEASED, 10)
    ensures BUTTON2_PRESSED == Shl(BUTTON1_PRESSED, 5) && BUTTON3_PRESSED == Shl(BUTTON1_PRESSED, 10)
    ensures BUTTON2_CLICKED == Shl(BUTTON1_CLICKED, 5) && BUTTON3_CLICKED == Shl(BUTTON1_CLICKED, 10)
    ensures BUTTON2_DOUBLE_CLICKED == Shl(BUTTON1_DOUBLE_CLICKED, 5)
    ensures BUTTON3_DOUBLE_CLICKED == Shl(BUTTON1_DOUBLE_CLICKED, 10)
    ensures BUTTON2_MOVED == Shl(BUTTON1_MOVED, 5) && BUTTON3_MOVED == Shl(BUTTON1_MOVED, 10)
    ensures BUTTON4_RELEASED == Shl(BUTTON1_RELEASED, 15) && BUTTON5_RELEASED == Shl(BUTTON1_RELEASED, 20)
    ensures BUTTON1_MOVED == BUTTON1_TRIPLE_CLICKED
    ensures forall b :: b in MOUSE_WHEEL_SCROLL ==> b >= 25
  {
    SingletonShift(0, 5); SingletonShift(0, 10); SingletonShift(1, 5); SingletonShift(1, 10);
    SingletonShift(2, 5); SingletonShift(2, 10); SingletonShift(3, 5); SingletonShift(3, 10);
    SingletonShift(4, 5); SingletonShift(4, 10); SingletonShift(0, 15); SingletonShift(0, 20);
  }

  /** `{b} << k == {b + k}`. */
  lemma SingletonShift(b: nat, k: nat)
    ensures Shl({b}, k) == {b + k}
  {
    var r := Shl({b}, k);
    assert b + k in r;
    forall x | x in r ensures x == b + k {
    }
  }
}
