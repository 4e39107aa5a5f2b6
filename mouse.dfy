/** Mouse-button bookkeeping shared by the viewers: one flag per button, set
    when that button goes down and cleared when it comes up, and a click-down
    flag that is their disjunction. The later viewers add a picking mode that
    a left click consumes. */
module MouseButtons {

  // The windowing toolkit's button and state codes.
  const LeftButton: int := 0
  const MiddleButton: int := 1
  const RightButton: int := 2
  const Down: int := 0
  const Up: int := 1

  datatype Buttons = Buttons(left: bool, right: bool, middle: bool)

  predicate AnyDown(b: Buttons) { b.left || b.right || b.middle }

  /** One button flag after an event: raised by this button's DOWN, lowered by
      its UP, kept otherwise. */
  function Flag(held: bool, isThis: bool, state: int): (r: bool)
    ensures isThis && state == Down ==> r
    ensures isThis && state == Up ==> !r
    ensures !isThis || (state != Down && state != Up) ==> r == held
  {
    (held || (isThis && state == Down)) && !(isThis && state == Up)
  }

  /** The three flags after the event (button, state). */
  function Press(b: Buttons, button: int, state: int): Buttons {
    Buttons(Flag(b.left, button == LeftButton, state),
            Flag(b.right, button == RightButton, state),
            Flag(b.middle, button == MiddleButton, state))
  }

  /** Pressing and then releasing a button lowers its flag and leaves the
      other two as they were. */
  lemma PressRelease(b: Buttons, button: int)
    requires button == LeftButton || button == MiddleButton || button == RightButton
    ensures var r := Press(Press(b, button, Down), button, Up);
            (button == LeftButton ==> !r.left && r.right == b.right && r.middle == b.middle)
            && (button == RightButton ==> !r.right && r.left == b.left && r.middle == b.middle)
            && (button == MiddleButton ==> !r.middle && r.left == b.left && r.right == b.right)
  {
  }

  class MouseState {
    var buttons: Buttons
    var clickDown: bool
    var clickX: int
    var clickY: int
    var windowHeight: int
    /** Set by the 'p' key in the picking viewers; a left click consumes it. */
    var pickMode: bool

    ghost predicate Valid()
      reads this
    {
      clickDown == AnyDown(buttons)
    }

    /** All flags start lowered. */
    constructor (height: int)
      ensures Valid() && buttons == Buttons(false, false, false) && !clickDown && !pickMode
      ensures windowHeight == height
    {
      buttons := Buttons(false, false, false);
      clickDown := false;
      clickX, clickY := 0, 0;
      windowHeight := height;
      pickMode := false;
    }

    /** A button event at window position (x, y): records the click position in
        bottom-up coordinates and updates the flags. */
    method OnMouse(button: int, state: int, x: int, y: int)
      modifies this
      ensures Valid()
      ensures buttons == Press(old(buttons), button, state)
      ensures clickX == x && clickY == windowHeight - y - 1
      ensures windowHeight == old(windowHeight) && pickMode == old(pickMode)
    {
      clickX := x;
      clickY := windowHeight - y - 1;
      buttons := Press(buttons, button, state);
      clickDown := buttons.left || buttons.right || buttons.middle;
    }

    /** The 'p' key: turn picking mode on. */
    method RequestPick()
      modifies this`pickMode
      ensures pickMode
    {
      pickMode := true;
    }

    /** The picking viewers' button event: as OnMouse, and then, if picking mode
        is on and only the left button (of left and right) is held, the pick
        happens (`picked`) and picking mode is turned off. The pick itself reads
        back pixels and is not part of this model. */
    method OnMouseWithPick(button: int, state: int, x: int, y: int) returns (picked: bool)
      modifies this
      ensures Valid()
      ensures buttons == Press(old(buttons), button, state)
      ensures clickX == x && clickY == windowHeight - y - 1
      ensures picked <==> old(pickMode) && buttons.left && !buttons.right
      ensures pickMode == (old(pickMode) && !picked)
    {
      OnMouse(button, state, x, y);
      picked := pickMode && buttons.left && !buttons.right;
      if picked {
        pickMode := false;
      }
    }
  }
}
