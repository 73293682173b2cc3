/**
 * The move-intent state machine of the key and mouse handlers (`onKey`,
 * `onClick`), as functions over the pending action `{from, to, is50}`.
 * Cell indices are raw integers; -1 stands for "none". Every emitted attack
 * is the call `game.Attack(from, to, is50)`.
 */
module MoveIntent {
  import opened MouseMap

  /** The keys the handler distinguishes; every other key is `Other`. */
  datatype Key = Q | Space | A | D | W | S | Other

  /** The GLFW key action; only `Press` is acted on. */
  datatype KeyAction = Press | Release | Repeat

  /** The pending action (the global `actionToMake`). */
  datatype Intent = Intent(from: int, to: int, is50: bool)

  /** One `game.Attack(from, to, is50)` call. */
  datatype Attack = Attack(from: int, to: int, is50: bool)

  /** What one input event does: the new pending action, the attacks sent
      and whether the window was asked to close. */
  datatype Outcome = Outcome(intent: Intent, attacks: seq<Attack>, close: bool)

  /** A callback delivered by the window system. */
  datatype Event = KeyEvent(key: Key, action: KeyAction) | Click(x: real, y: real)

  /** The pending action at program start. */
  const Initial: Intent := Intent(-1, -1, false)

  predicate IsDirection(key: Key)
  {
    key == A || key == D || key == W || key == S
  }

  /** The offset a direction key adds: left, right, up and down one cell. */
  function Delta(key: Key): int
    requires IsDirection(key)
  {
    match key
    case A => -1
    case D => 1
    case W => -RowWidth
    case S => RowWidth
  }

  /** The key switch: Space cancels, A/D/W/S aim `to` relative to `from`. */
  function Retarget(i: Intent, key: Key): Intent
  {
    match key
    case Space => i.(from := -1, to := -1)
    case A | D | W | S => i.(to := i.from + Delta(key))
    case _ => i
  }

  /** The emission check: when both ends are positive, send the attack and
      continue from its destination. */
  function Fire(i: Intent): Outcome
  {
    if i.from > 0 && i.to > 0 then
      Outcome(Intent(i.to, -1, i.is50), [Attack(i.from, i.to, i.is50)], false)
    else
      Outcome(i, [], false)
  }

  /** `onKey`: ignore anything but a press, apply the key, then check for emission. */
  function KeyStep(i: Intent, key: Key, action: KeyAction): (o: Outcome)
    ensures |o.attacks| <= 1
    ensures o.close <==> action == Press && key == Q
    ensures o.intent.is50 == i.is50
    ensures forall a :: a in o.attacks ==> a.from > 0 && a.to > 0 && a.is50 == i.is50
  {
    if action != Press then Outcome(i, [], false)
    else Fire(Retarget(i, key)).(close := key == Q)
  }

  /** `onClick`: the clicked cell becomes the source; nothing else changes
      and no attack is sent. */
  function ClickStep(i: Intent, x: real, y: real): (o: Outcome)
    ensures o.intent.from == CellFromMouse(x, y) && o.intent.to == i.to && o.intent.is50 == i.is50
    ensures o.attacks == [] && !o.close
  {
    Outcome(i.(from := CellFromMouse(x, y)), [], false)
  }

  function Step(i: Intent, e: Event): Outcome
  {
    match e
    case KeyEvent(key, action) => KeyStep(i, key, action)
    case Click(x, y) => ClickStep(i, x, y)
  }

  /** A sequence of callbacks, in delivery order. */
  function Run(i: Intent, events: seq<Event>): Outcome
    decreases |events|
  {
    if events == [] then Outcome(i, [], false)
    else
      var first := Step(i, events[0]);
      var rest := Run(first.intent, events[1..]);
      Outcome(rest.intent, first.attacks + rest.attacks, first.close || rest.close)
  }

  // ---------------------------------------------------------------------------
  // Single key presses

  /** A release or repeat changes nothing and sends nothing. */
  lemma NonPressIgnored(i: Intent, key: Key, action: KeyAction)
    requires action != Press
    ensures KeyStep(i, key, action) == Outcome(i, [], false)
  {
  }

  /** Space clears both ends and, since neither is positive, sends nothing. */
  lemma SpaceCancels(i: Intent)
    ensures KeyStep(i, Space, Press) == Outcome(Intent(-1, -1, i.is50), [], false)
  {
  }

  /** Q asks the window to close and otherwise acts like an unbound key. */
  lemma QuitCloses(i: Intent)
    ensures KeyStep(i, Q, Press).close
    ensures KeyStep(i, Q, Press).intent == KeyStep(i, Other, Press).intent
    ensures KeyStep(i, Q, Press).attacks == KeyStep(i, Other, Press).attacks
  {
  }

  /** A direction key aims one cell away from `from`; the attack goes out
      exactly when both ends are positive, and then the move chains on. */
  lemma DirectionPress(i: Intent, key: Key)
    requires IsDirection(key)
    ensures var o := KeyStep(i, key, Press);
      var target := i.from + Delta(key);
      !o.close &&
      if i.from > 0 && target > 0 then
        o.attacks == [Attack(i.from, target, i.is50)] && o.intent == Intent(target, -1, i.is50)
      else
        o.attacks == [] && o.intent == Intent(i.from, target, i.is50)
  {
  }

  /** At most one attack per key event, sent iff the key leaves both ends
      positive; after it the source is the old target and the target is cleared. */
  lemma EmitsIffBothPositive(i: Intent, key: Key, action: KeyAction)
    ensures var o := KeyStep(i, key, action);
      var r := Retarget(i, key);
      |o.attacks| <= 1 &&
      (o.attacks != [] <==> action == Press && r.from > 0 && r.to > 0) &&
      (o.attacks != [] ==>
        o.attacks[0] == Attack(r.from, r.to, i.is50) && o.intent == Intent(r.to, -1, i.is50)) &&
      (o.attacks == [] && action == Press ==> o.intent == r)
  {
  }

  /** An attack sent by a direction key always goes 1 or 18 indices away
      (at a row end that is not a grid neighbour). */
  lemma DirectionAttackAdjacent(i: Intent, key: Key, action: KeyAction)
    requires IsDirection(key)
    ensures forall a :: a in KeyStep(i, key, action).attacks ==>
      a.to - a.from in {-1, 1, -RowWidth, RowWidth}
  {
  }

  // ---------------------------------------------------------------------------
  // Event sequences

  /** Pressing one direction twice from cell c chains two moves: (c, c+d)
      and then (c+d, c+2d), when all three cells are positive. */
  lemma ChainedMoves(c: int, key: Key, is50: bool)
    requires IsDirection(key)
    requires c > 0 && c + Delta(key) > 0 && c + 2 * Delta(key) > 0
    ensures var d := Delta(key);
      var o := Run(Intent(c, -1, is50), [KeyEvent(key, Press), KeyEvent(key, Press)]);
      o.attacks == [Attack(c, c + d, is50), Attack(c + d, c + 2 * d, is50)] &&
      o.intent == Intent(c + 2 * d, -1, is50)
  {
    var d := Delta(key);
    var evs := [KeyEvent(key, Press), KeyEvent(key, Press)];
    DirectionPress(Intent(c, -1, is50), key);
    DirectionPress(Intent(c + d, -1, is50), key);
    assert evs[1..] == [KeyEvent(key, Press)];
    assert evs[1..][1..] == [];
    var mid := Intent(c + d, -1, is50);
    var last := Step(mid, KeyEvent(key, Press));
    assert last.attacks == [Attack(c + d, c + 2 * d, is50)];
    assert Run(last.intent, []) == Outcome(last.intent, [], false);
    var second := Run(mid, evs[1..]);
    assert second.attacks == [Attack(c + d, c + 2 * d, is50)];
    assert second.intent == Intent(c + 2 * d, -1, is50);
  }

  /** No handler ever changes `is50`: every attack of a run carries the
      starting flag, and so does the final pending action. */
  lemma {:induction false} SplitFlagFixed(i: Intent, events: seq<Event>)
    ensures Run(i, events).intent.is50 == i.is50
    ensures forall a :: a in Run(i, events).attacks ==> a.is50 == i.is50
    decreases |events|
  {
    if events != [] {
      var first := Step(i, events[0]);
      assert first.intent.is50 == i.is50;
      SplitFlagFixed(first.intent, events[1..]);
    }
  }

  /** From program start, every attack is a full move (is50 is false). */
  lemma NeverSplits(events: seq<Event>)
    ensures forall a :: a in Run(Initial, events).attacks ==> !a.is50
  {
    SplitFlagFixed(Initial, events);
  }

  /** The emission guard is `> 0`: no attack ever starts or ends at cell 0
      or at a negative index. */
  lemma {:induction false} AttacksPositive(i: Intent, events: seq<Event>)
    ensures forall a :: a in Run(i, events).attacks ==> a.from > 0 && a.to > 0
    decreases |events|
  {
    if events != [] {
      var first := Step(i, events[0]);
      AttacksPositive(first.intent, events[1..]);
    }
  }

  /** Selecting cell 0 and pressing "down" twice sends nothing: cell 0 can
      never be the source of a move. */
  lemma CellZeroCannotMove()
    ensures Run(Initial, [Click(30.0, 30.0), KeyEvent(S, Press), KeyEvent(S, Press)]).attacks == []
  {
    var evs := [Click(30.0, 30.0), KeyEvent(S, Press), KeyEvent(S, Press)];
    PointInCell(30.0, 30.0, 0, 0);
    assert evs[1..] == [KeyEvent(S, Press), KeyEvent(S, Press)];
    assert evs[1..][1..] == [KeyEvent(S, Press)];
    assert evs[1..][1..][1..] == [];
  }

  /** There is no `from != to` guard and a click leaves the old target in place:
      after aiming at cell 1 from cell 0, clicking cell 1 and pressing an unbound
      key sends an attack from cell 1 to itself. */
  lemma StaleTargetSelfAttack()
    ensures Run(Initial, [Click(30.0, 30.0), KeyEvent(D, Press), Click(70.0, 30.0), KeyEvent(Other, Press)]).attacks
         == [Attack(1, 1, false)]
  {
    var evs := [Click(30.0, 30.0), KeyEvent(D, Press), Click(70.0, 30.0), KeyEvent(Other, Press)];
    PointInCell(30.0, 30.0, 0, 0);
    PointInCell(70.0, 30.0, 0, 1);
    assert evs[1..] == [KeyEvent(D, Press), Click(70.0, 30.0), KeyEvent(Other, Press)];
    assert evs[1..][1..] == [Click(70.0, 30.0), KeyEvent(Other, Press)];
    assert evs[1..][1..][1..] == [KeyEvent(Other, Press)];
    assert evs[1..][1..][1..][1..] == [];
  }

  /** The stale target need not be near the new source either: after aiming
      at cell 1 from cell 0, clicking cell 100 (row 5, column 10) and pressing
      an unbound key sends an attack from cell 100 to cell 1. */
  lemma StaleTargetFarAttack()
    ensures Run(Initial, [Click(30.0, 30.0), KeyEvent(D, Press), Click(462.5, 254.0), KeyEvent(Other, Press)]).attacks
         == [Attack(100, 1, false)]
  {
    var evs := [Click(30.0, 30.0), KeyEvent(D, Press), Click(462.5, 254.0), KeyEvent(Other, Press)];
    PointInCell(30.0, 30.0, 0, 0);
    PointInCell(462.5, 254.0, 5, 10);
    assert evs[1..] == [KeyEvent(D, Press), Click(462.5, 254.0), KeyEvent(Other, Press)];
    assert evs[1..][1..] == [Click(462.5, 254.0), KeyEvent(Other, Press)];
    assert evs[1..][1..][1..] == [KeyEvent(Other, Press)];
    assert evs[1..][1..][1..][1..] == [];
  }
}
