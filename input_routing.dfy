/**
 * bindEvents (js/app.js): how a key press, a swipe and a wheel tick turn into
 * a navigation call.  Every channel ends in nextSlide, prevSlide or
 * goToSlide, whose own guards decide the effect.
 */
module InputRouting {
  import Navigation

  /** The navigation call an input asks for. */
  datatype Action = NoAction | NextAction | PrevAction | JumpTo(index: int)

  /** The keydown table; `total` is the slide count, for End. */
  function KeyAction(key: string, total: int): Action {
    if key == "ArrowRight" || key == "ArrowDown" || key == " " then NextAction
    else if key == "ArrowLeft" || key == "ArrowUp" then PrevAction
    else if key == "Home" then JumpTo(0)
    else if key == "End" then JumpTo(total - 1)
    else NoAction
  }

  /** The handler calls preventDefault on exactly the keys it routes. */
  predicate PreventsDefault(key: string) {
    key in {"ArrowRight", "ArrowDown", " ", "ArrowLeft", "ArrowUp", "Home", "End"}
  }

  /** The key table, entry by entry, and it suppresses the default action exactly where it navigates. */
  lemma KeyTable(key: string, total: int)
    ensures KeyAction(key, total) == NextAction <==> key in {"ArrowRight", "ArrowDown", " "}
    ensures KeyAction(key, total) == PrevAction <==> key in {"ArrowLeft", "ArrowUp"}
    ensures KeyAction(key, total) == JumpTo(0) <==> key == "Home" || (key == "End" && total == 1)
    ensures KeyAction(key, total) == JumpTo(total - 1) <==> key == "End" || (key == "Home" && total == 1)
    ensures KeyAction(key, total) != NoAction <==> PreventsDefault(key)
  {
  }

  /** Minimum vertical travel of a swipe, exclusive. */
  const SwipeThreshold := 50.0

  function Abs(x: real): real {
    if x < 0.0 then -x else x
  }

  /** handleSwipe: `startY - endY` beyond the threshold navigates; upward (positive) goes next. */
  function SwipeAction(startY: real, endY: real): Action {
    var diff := startY - endY;
    if Abs(diff) > SwipeThreshold then (if diff > 0.0 then NextAction else PrevAction)
    else NoAction
  }

  /** A swipe navigates exactly when it travels more than 50, next when the finger moved up. */
  lemma SwipeDecision(startY: real, endY: real)
    ensures SwipeAction(startY, endY) != NoAction <==> startY - endY > 50.0 || endY - startY > 50.0
    ensures SwipeAction(startY, endY) == NextAction <==> startY - endY > 50.0
    ensures SwipeAction(startY, endY) == PrevAction <==> endY - startY > 50.0
  {
  }

  /** The threshold is strict: 50 does not navigate, 51 does. */
  lemma SwipeThresholdExamples()
    ensures SwipeAction(300.0, 250.0) == NoAction && SwipeAction(250.0, 300.0) == NoAction
    ensures SwipeAction(301.0, 250.0) == NextAction && SwipeAction(250.0, 301.0) == PrevAction
  {
  }

  /** The wheel handler's direction: 0 moves nowhere. */
  function WheelDirection(deltaY: real): (r: Action)
    ensures r == NextAction <==> deltaY > 0.0
    ensures r == PrevAction <==> deltaY < 0.0
    ensures r == NoAction <==> deltaY == 0.0
  {
    if deltaY > 0.0 then NextAction else if deltaY < 0.0 then PrevAction else NoAction
  }

  /** One wheel tick against the `wheelTimeout` slot: the new slot state and the call made. */
  datatype WheelResult = WheelResult(armed: bool, action: Action)

  /** A tick while the slot is armed is dropped; otherwise it arms the slot (whatever deltaY is) and navigates. */
  function WheelStep(armed: bool, deltaY: real): WheelResult {
    if armed then WheelResult(true, NoAction) else WheelResult(true, WheelDirection(deltaY))
  }

  /** The actions of a burst of ticks with no 500 ms expiry between them. */
  function WheelBurst(armed: bool, ticks: seq<real>): (actions: seq<Action>)
    ensures |actions| == |ticks|
    decreases |ticks|
  {
    if ticks == [] then []
    else
      var r := WheelStep(armed, ticks[0]);
      [r.action] + WheelBurst(r.armed, ticks[1..])
  }

  /** While the slot stays armed, every tick is dropped. */
  lemma {:induction false} ArmedBurstIsDropped(ticks: seq<real>)
    ensures forall i :: 0 <= i < |ticks| ==> WheelBurst(true, ticks)[i] == NoAction
    decreases |ticks|
  {
    if ticks != [] {
      ArmedBurstIsDropped(ticks[1..]);
    }
  }

  /** Of a burst of ticks inside one 500 ms window, only the first can navigate, by the sign of its deltaY. */
  lemma BurstNavigatesAtMostOnce(ticks: seq<real>)
    requires ticks != []
    ensures WheelBurst(false, ticks)[0] == WheelDirection(ticks[0])
    ensures forall i :: 1 <= i < |ticks| ==> WheelBurst(false, ticks)[i] == NoAction
  {
    ArmedBurstIsDropped(ticks[1..]);
  }

  /** The call an action makes on the state machine. */
  function Perform(s: Navigation.Nav, a: Action): (t: Navigation.Nav)
    requires Navigation.WellFormed(s)
    ensures Navigation.WellFormed(t)
    ensures Navigation.Valid(s) ==> Navigation.Valid(t)
  {
    match a
    case NoAction => s
    case NextAction => Navigation.Next(s)
    case PrevAction => Navigation.Prev(s)
    case JumpTo(i) => Navigation.GoTo(s, i)
  }

  /** Home and End land on the first and the last slide once accepted, from anywhere. */
  lemma HomeAndEnd(s: Navigation.Nav)
    requires Navigation.Valid(s) && !s.animating
    ensures s.current != 0 ==> Perform(s, KeyAction("Home", s.total)).current == 0
    ensures s.current != s.total - 1 ==> Perform(s, KeyAction("End", s.total)).current == s.total - 1
  {
  }

  /** The wheel channel: the `wheelTimeout` slot, armed for 500 ms after an admitted tick. */
  class Router {
    var wheelArmed: bool

    constructor ()
      ensures !wheelArmed
    {
      wheelArmed := false;
    }

    /** A wheel event: dropped while armed, otherwise arms the slot and navigates by the sign of deltaY. */
    method Wheel(deltaY: real) returns (a: Action)
      modifies this
      ensures WheelResult(wheelArmed, a) == WheelStep(old(wheelArmed), deltaY)
      ensures old(wheelArmed) ==> a == NoAction
    {
      if wheelArmed {
        return NoAction;
      }
      wheelArmed := true;
      a := WheelDirection(deltaY);
    }

    /** The 500 ms timeout firing: the slot is free again.  It exists only once armed. */
    method WheelTimeoutFires()
      requires wheelArmed
      modifies this
      ensures !wheelArmed
    {
      wheelArmed := false;
    }
  }
}
