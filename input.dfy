/**
 * The client's input state: the global pending action `actionToMake`, the
 * window's should-close flag and the attacks sent through `game.Attack`,
 * updated in place by the key and mouse callbacks.
 */
module Input {
  import opened MouseMap
  import opened MoveIntent

  class InputState {
    var from: int
    var to: int
    var is50: bool
    var shouldClose: bool
    /** Every `game.Attack` call made so far, oldest first. */
    var attacks: seq<Attack>

    /** The pending action as a value. */
    function Pending(): Intent
      reads this
    {
      Intent(from, to, is50)
    }

    /** The state at program start: nothing selected, full moves, window open. */
    constructor ()
      ensures Pending() == Initial && !shouldClose && attacks == []
    {
      from, to, is50 := -1, -1, false;
      shouldClose := false;
      attacks := [];
    }

    /** `onKey`: act on presses only, apply the key, then send the attack
        when both ends are positive and chain on from its destination. */
    method OnKey(key: Key, action: KeyAction)
      modifies this
      ensures Pending() == KeyStep(old(Pending()), key, action).intent
      ensures attacks == old(attacks) + KeyStep(old(Pending()), key, action).attacks
      ensures shouldClose == (old(shouldClose) || KeyStep(old(Pending()), key, action).close)
      ensures is50 == old(is50)
    {
      if action != Press {
        return;
      }

      match key {
        case Q =>
          shouldClose := true;
        case Space =>
          from := -1;
          to := -1;
        case A | D | W | S =>
          to := from + Delta(key);
        case Other =>
      }

      if from > 0 && to > 0 {
        attacks := attacks + [Attack(from, to, is50)];
        from := to;
        to := -1;
      }
    }

    /** `onClick`: the cell under the cursor becomes the source. The button
        and the action are not looked at, so a release selects too. */
    method OnClick(x: real, y: real)
      modifies this
      ensures Pending() == ClickStep(old(Pending()), x, y).intent
      ensures from == CellFromMouse(x, y) && to == old(to) && is50 == old(is50)
      ensures attacks == old(attacks) && shouldClose == old(shouldClose)
    {
      var cellIdx := CellFromMouse(x, y);
      from := cellIdx;
    }
  }
}
