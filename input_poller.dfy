/**
 * `InputPoller`: keyboard and mouse state written by the window callbacks and read by the
 * layers. The fixed-size `bool` arrays stay arrays; the float fields are reals.
 *
 * The definitions exist only on the Windows build; elsewhere the class has no method bodies.
 */
module InputPoller {

  /** The number of key slots and of mouse-button slots. */
  const KeyCount: nat := 350
  const ButtonCount: nat := 2

  /** GLFW's left and right mouse buttons, the two slots of the button array. */
  const LeftButton: nat := 0
  const RightButton: nat := 1

  /** GLFW's action codes for a press and a release. */
  const Press: int := 1
  const Release: int := 0

  datatype Point = Point(x: real, y: real)

  /** The mouse fields as a value: the start position, the last position, the deltas and the first-press flag. */
  datatype Mouse = Mouse(start: Point, last: Point, deltaX: real, deltaY: real, firstPress: bool)

  /** `processMouseMove`: seed the last position from the start position on the first call, then take deltas. */
  function Move(m: Mouse, p: Point): (r: Mouse)
    ensures r.last == p && !r.firstPress && r.start == m.start
    ensures var from := if m.firstPress then m.start else m.last;
      r.deltaX == p.x - from.x && r.deltaY == from.y - p.y
  {
    var from := if m.firstPress then m.start else m.last;
    Mouse(m.start, p, p.x - from.x, from.y - p.y, false)
  }

  /** Moves one after another. */
  function Moves(m: Mouse, ps: seq<Point>): Mouse
  {
    if ps == [] then m else Move(Moves(m, ps[..|ps| - 1]), ps[|ps| - 1])
  }

  /** The horizontal deltas the moves report, added up (and likewise the vertical ones). */
  function SumDeltaX(m: Mouse, ps: seq<Point>): real
  {
    if ps == [] then 0.0 else SumDeltaX(m, ps[..|ps| - 1]) + Moves(m, ps).deltaX
  }

  function SumDeltaY(m: Mouse, ps: seq<Point>): real
  {
    if ps == [] then 0.0 else SumDeltaY(m, ps[..|ps| - 1]) + Moves(m, ps).deltaY
  }

  /**
   * The deltas telescope: over any run of moves they add up to the distance from where the
   * cursor was taken to be (the start position before the first move) to where it ends,
   * with the vertical axis flipped.
   */
  lemma {:induction false} DeltasTelescope(m: Mouse, ps: seq<Point>)
    requires ps != []
    ensures var from := if m.firstPress then m.start else m.last;
      SumDeltaX(m, ps) == ps[|ps| - 1].x - from.x && SumDeltaY(m, ps) == from.y - ps[|ps| - 1].y
  {
    var prefix := ps[..|ps| - 1];
    if prefix == [] {
      assert Moves(m, ps) == Move(m, ps[0]);
    } else {
      DeltasTelescope(m, prefix);
      assert Moves(m, prefix).last == prefix[|prefix| - 1];
    }
  }

  /** How many slots are set, and the count the shipped `keyHasBeenPressed` loop makes. */
  function CountPressed(keys: seq<bool>): (n: nat)
    ensures n <= |keys|
    ensures n > 0 <==> exists k :: 0 <= k < |keys| && keys[k]
  {
    if keys == [] then 0
    else
      assert forall k :: 0 <= k < |keys| - 1 ==> keys[..|keys| - 1][k] == keys[k];
      CountPressed(keys[..|keys| - 1]) + (if keys[|keys| - 1] then 1 else 0)
  }

  /** `if (a = true) sum++` assigns before it tests, so every slot is counted. */
  function CountAsWritten(keys: seq<bool>): (n: nat)
    ensures n == |keys|
  {
    if keys == [] then 0 else CountAsWritten(keys[..|keys| - 1]) + 1
  }

  /** With no key held, the shipped count is still 350, so `keyHasBeenPressed` reports a press. */
  lemma {:induction false} AnyKeyAsWrittenDisagrees()
    ensures var none := seq(KeyCount, _ => false);
      CountAsWritten(none) > 0 && CountPressed(none) == 0
  {
  }

  /** The guard `key < 350` of `processKeyPress`, as shipped. */
  predicate KeyGuardAsWritten(key: int)
  {
    key < KeyCount
  }

  /** GLFW reports an unrecognised key as -1, which the shipped guard lets through to `m_keysPressed[-1]`. */
  lemma {:induction false} KeyGuardAdmitsUnknownKey()
    ensures KeyGuardAsWritten(-1) && !(0 <= -1 < KeyCount)
  {
  }

  /** The guard `button < 350` of `processMouseClick`, as shipped. */
  predicate ClickGuardAsWritten(button: int)
  {
    button < KeyCount
  }

  /** The middle button (2) passes the shipped guard although the state array has two slots. */
  lemma {:induction false} ClickGuardAdmitsMiddleButton()
    ensures ClickGuardAsWritten(2) && !(0 <= 2 < ButtonCount)
  {
  }

  class Poller {
    const keys: array<bool>
    const buttons: array<bool>
    var scrollX: real
    var scrollY: real
    var start: Point
    var deltaX: real
    var deltaY: real
    var last: Point
    var dragging: bool
    var firstPress: bool

    ghost predicate Valid()
      reads this
    {
      keys.Length == KeyCount && buttons.Length == ButtonCount && keys != buttons && !dragging
    }

    function MouseState(): Mouse
      reads this
    {
      Mouse(start, last, deltaX, deltaY, firstPress)
    }

    /** The in-class initialisers; `start` is the screen centre (SCR_WIDTH / 2, SCR_HEIGHT / 2) at construction. */
    constructor (centre: Point)
      ensures Valid() && fresh(keys) && fresh(buttons)
      ensures forall k :: 0 <= k < KeyCount ==> !keys[k]
      ensures forall b :: 0 <= b < ButtonCount ==> !buttons[b]
      ensures MouseState() == Mouse(centre, Point(0.0, 0.0), 0.0, 0.0, true)
      ensures scrollX == 0.0 && scrollY == 0.0
    {
      keys := new bool[KeyCount](_ => false);
      buttons := new bool[ButtonCount](_ => false);
      scrollX, scrollY := 0.0, 0.0;
      start := centre;
      deltaX, deltaY := 0.0, 0.0;
      last := Point(0.0, 0.0);
      dragging := false;
      firstPress := true;
    }

    /** `processMouseScroll`: the offsets are overwritten, not accumulated. */
    method ProcessMouseScroll(x: real, y: real)
      modifies this`scrollX, this`scrollY
      ensures scrollX == x && scrollY == y
    {
      scrollX := x;
      scrollY := y;
    }

    /** `processMouseMove`, proved to follow `Move`. */
    method ProcessMouseMove(p: Point)
      modifies this`last, this`firstPress, this`deltaX, this`deltaY
      ensures MouseState() == Move(old(MouseState()), p)
    {
      if firstPress {
        last := start;
        firstPress := false;
      }
      deltaX := p.x - last.x;
      deltaY := last.y - p.y;
      last := p;
    }

    /**
     * `processMouseClick` with the guard it evidently intends (a button with a slot): a press
     * sets the button, a release clears it, both leave dragging off, and anything else
     * changes nothing.
     */
    method ProcessMouseClick(button: int, action: int)
      requires Valid()
      modifies buttons, this`dragging
      ensures Valid()
      ensures 0 <= button < ButtonCount && action == Press ==> buttons[..] == old(buttons[..])[button := true]
      ensures 0 <= button < ButtonCount && action == Release ==> buttons[..] == old(buttons[..])[button := false]
      ensures !(0 <= button < ButtonCount && (action == Press || action == Release)) ==> buttons[..] == old(buttons[..])
      ensures button == LeftButton && action == Press ==> IsLeftClicked()
      ensures button == RightButton && action == Press ==> IsRightClicked()
      ensures button == LeftButton && action == Release ==> !IsLeftClicked()
      ensures button == RightButton && action == Release ==> !IsRightClicked()
    {
      if 0 <= button < ButtonCount {
        if action == Press {
          buttons[button] := true;
          dragging := false;
        } else if action == Release {
          buttons[button] := false;
          dragging := false;
        }
      }
    }

    /** `endFrame`: both deltas back to zero, nothing else touched. */
    method EndFrame()
      modifies this`deltaX, this`deltaY
      ensures deltaX == 0.0 && deltaY == 0.0
      ensures !MouseHasMoved()
    {
      deltaX := 0.0;
      deltaY := 0.0;
    }

    /** `keyHasBeenPressed` with the comparison it evidently intends: true exactly when some key is held. */
    method KeyHasBeenPressed() returns (r: bool)
      ensures r <==> exists k :: 0 <= k < keys.Length && keys[k]
    {
      var sum := 0;
      for i := 0 to keys.Length
        invariant sum == CountPressed(keys[..i])
      {
        assert keys[..i + 1][..i] == keys[..i];
        if keys[i] {
          sum := sum + 1;
        }
      }
      assert keys[..keys.Length] == keys[..];
      r := sum > 0;
    }

    /** `keyHasBeenPressed` as shipped: the assignment in the test makes it count every slot, so it always answers true. */
    method KeyHasBeenPressedAsWritten() returns (r: bool)
      requires Valid()
      ensures r
    {
      var sum := 0;
      for i := 0 to keys.Length
        invariant sum == CountAsWritten(keys[..i])
      {
        assert keys[..i + 1][..i] == keys[..i];
        var a := keys[i];
        a := true;
        if a {
          sum := sum + 1;
        }
      }
      r := sum > 0;
    }

    /**
     * `processKeyPress` with the guard it evidently intends (a key with a slot): a press sets
     * the key, a release clears it, and anything else changes nothing.
     */
    method ProcessKeyPress(key: int, action: int)
      requires Valid()
      modifies keys
      ensures 0 <= key < KeyCount && action == Press ==> keys[..] == old(keys[..])[key := true]
      ensures 0 <= key < KeyCount && action == Release ==> keys[..] == old(keys[..])[key := false]
      ensures !(0 <= key < KeyCount && (action == Press || action == Release)) ==> keys[..] == old(keys[..])
      ensures 0 <= key < KeyCount && action == Press ==> IsKeyPressed(key)
      ensures 0 <= key < KeyCount && action == Release ==> !IsKeyPressed(key)
    {
      if 0 <= key < KeyCount {
        if action == Press {
          keys[key] := true;
        } else if action == Release {
          keys[key] := false;
        }
      }
    }

    /** `processedKey(k)`: clear exactly slot k. */
    method ProcessedKey(k: nat)
      requires Valid() && k < KeyCount
      modifies keys
      ensures keys[..] == old(keys[..])[k := false]
      ensures !IsKeyPressed(k)
    {
      keys[k] := false;
    }

    /**
     * `isKeyPressed(k)`: slot k; the source indexes without a check, so k must have a slot.
     * A held key means some key is held, so the corrected `keyHasBeenPressed` answers true.
     */
    function IsKeyPressed(k: nat): (r: bool)
      requires Valid() && k < KeyCount
      reads this, keys
      ensures r ==> CountPressed(keys[..]) > 0
    {
      assert keys[..][k] == keys[k];
      keys[k]
    }

    /** `isLeftClicked`: the left button's slot. */
    function IsLeftClicked(): (r: bool)
      requires Valid()
      reads this, buttons
      ensures r == buttons[LeftButton]
    {
      buttons[0]
    }

    /** `isRightClicked`: the right button's slot. */
    function IsRightClicked(): (r: bool)
      requires Valid()
      reads this, buttons
      ensures r == buttons[RightButton]
    {
      buttons[1]
    }

    /** `isDragging`: the flag and the right button; no method ever sets the flag, so it is always false. */
    function IsDragging(): (r: bool)
      requires Valid()
      reads this, buttons
      ensures !r
    {
      buttons[1] && dragging
    }

    /** `mouseHasMoved`: both deltas non-zero, so a purely horizontal or vertical move does not count. */
    function MouseHasMoved(): (r: bool)
      reads this
      ensures r <==> deltaX * deltaY != 0.0
    {
      deltaX != 0.0 && deltaY != 0.0
    }
  }

  /** A move along one axis only leaves `mouseHasMoved` false, however far it goes. */
  lemma {:induction false} AxisMoveNotReported(m: Mouse, p: Point)
    requires !m.firstPress && (p.x == m.last.x || p.y == m.last.y)
    ensures var r := Move(m, p); !(r.deltaX != 0.0 && r.deltaY != 0.0)
  {
  }
}
