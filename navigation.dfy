/**
 * The slide-transition state machine of js/app.js (goToSlide, nextSlide,
 * prevSlide and the 600 ms settle timeout), stated on values.  The class
 * Slides.Deck is proved against these functions.
 */
module Navigation {
  import opened Wrappers

  /** The two class-list markers the controller puts on a slide. */
  datatype Marks = Marks(active: bool, prev: bool)

  /**
   * The controller state: `currentSlide`, `totalSlides`, the `isAnimating`
   * latch, the pending settle timeout (holding the index of the slide it
   * will clear) and the markers of every slide.
   */
  datatype Nav = Nav(current: int, total: int, animating: bool, pending: Option<int>, marks: seq<Marks>)

  /** Shape only: one marker pair per slide, indices in range. */
  predicate WellFormed(s: Nav) {
    |s.marks| == s.total && 0 <= s.current < s.total &&
    (s.pending.Some? ==> 0 <= s.pending.value < s.total)
  }

  /**
   * The invariant of every reachable state: the latch is set exactly when a
   * settle is pending, the pending settle concerns a slide other than the
   * current one, exactly the current slide is active, and a slide holds
   * `prev` only while its own settle is pending.
   */
  predicate Valid(s: Nav) {
    WellFormed(s) &&
    (s.animating <==> s.pending.Some?) &&
    (s.pending.Some? ==> s.pending.value != s.current) &&
    (forall i :: 0 <= i < |s.marks| ==> (s.marks[i].active <==> i == s.current)) &&
    (forall i :: 0 <= i < |s.marks| && s.marks[i].prev ==> s.pending == Some(i))
  }

  /** The state at startup: slide 0 active (as the markup has it), nothing pending. */
  function Initial(total: int): (s: Nav)
    requires 1 <= total
    ensures Valid(s) && s.total == total && s.current == 0 && !s.animating
    ensures forall i :: 0 <= i < total ==> s.marks[i] == Marks(i == 0, false)
  {
    Nav(0, total, false, None, seq(total, i => Marks(i == 0, false)))
  }

  /** The guards of goToSlide: not animating, a different slide, in range. */
  predicate Accepts(s: Nav, index: int) {
    !s.animating && index != s.current && 0 <= index < s.total
  }

  /**
   * goToSlide.  A rejected call changes nothing.  An accepted call sets the
   * latch, takes `active` off the old slide, puts `prev` on it only on a
   * forward move, takes `prev` off the new slide and makes it active, and
   * schedules the settle of the old slide.  On a backward move the source
   * asks for `classList.add('')`; this definition models the evident intent,
   * adding no marker (GoToAsWritten models what the DOM does instead).
   */
  function GoTo(s: Nav, index: int): (t: Nav)
    requires WellFormed(s)
    ensures WellFormed(t)
    ensures Valid(s) ==> Valid(t)
  {
    if !Accepts(s, index) then s
    else
      var from := s.current;
      var leaving := Marks(false, s.marks[from].prev || index > from);
      Nav(index, s.total, true, Some(from), s.marks[from := leaving][index := Marks(true, false)])
  }

  /** The settle timeout firing: the latch clears and the old slide loses `prev`. */
  function Settle(s: Nav): (t: Nav)
    requires WellFormed(s) && s.pending.Some?
    ensures WellFormed(t) && !t.animating && t.pending.None?
    ensures Valid(s) ==> Valid(t)
  {
    var p := s.pending.value;
    s.(animating := false, pending := None, marks := s.marks[p := s.marks[p].(prev := false)])
  }

  /** nextSlide: delegate to GoTo(current + 1) unless on the last slide. */
  function Next(s: Nav): (t: Nav)
    requires WellFormed(s)
    ensures WellFormed(t) && (Valid(s) ==> Valid(t))
    ensures t.current == s.current || t.current == s.current + 1
    ensures Valid(s) && !s.animating && s.current < s.total - 1 ==>
      t.current == s.current + 1 && t.animating && t.pending == Some(s.current)
  {
    if s.current < s.total - 1 then GoTo(s, s.current + 1) else s
  }

  /** prevSlide: delegate to GoTo(current - 1) unless on the first slide. */
  function Prev(s: Nav): (t: Nav)
    requires WellFormed(s)
    ensures WellFormed(t) && (Valid(s) ==> Valid(t))
    ensures t.current == s.current || t.current == s.current - 1
    ensures Valid(s) && !s.animating && s.current > 0 ==>
      t.current == s.current - 1 && t.animating && t.pending == Some(s.current)
  {
    if s.current > 0 then GoTo(s, s.current - 1) else s
  }

  /** What can happen to the state machine: a navigation call or the settle timeout firing. */
  datatype Event = GoToEvent(index: int) | NextEvent | PrevEvent | SettleEvent

  /** One event.  Only a scheduled timeout can fire, so a settle with nothing pending is no event. */
  function Step(s: Nav, e: Event): (t: Nav)
    requires WellFormed(s)
    ensures WellFormed(t) && t.total == s.total
    ensures Valid(s) ==> Valid(t)
  {
    match e
    case GoToEvent(i) => GoTo(s, i)
    case NextEvent => Next(s)
    case PrevEvent => Prev(s)
    case SettleEvent => if s.pending.Some? then Settle(s) else s
  }

  /** A sequence of events, in order. */
  function Run(s: Nav, es: seq<Event>): (t: Nav)
    requires WellFormed(s)
    ensures WellFormed(t) && t.total == s.total
    decreases |es|
  {
    if es == [] then s else Run(Step(s, es[0]), es[1..])
  }

  // ---------------------------------------------------------------------
  // Properties of the state machine
  // ---------------------------------------------------------------------

  /** A call changes the state exactly when its guards let it through. */
  lemma GoToChangesIffAccepted(s: Nav, index: int)
    requires WellFormed(s)
    ensures GoTo(s, index) != s <==> Accepts(s, index)
  {
  }

  /** What an accepted call does, slide by slide. */
  lemma AcceptedGoTo(s: Nav, index: int)
    requires Valid(s) && Accepts(s, index)
    ensures var t := GoTo(s, index);
      t.current == index && t.animating && t.pending == Some(s.current) &&
      t.marks[index] == Marks(true, false) &&
      t.marks[s.current] == Marks(false, index > s.current) &&
      (forall k :: 0 <= k < s.total && k != index && k != s.current ==> t.marks[k] == s.marks[k])
  {
  }

  /** Until the settle fires, every navigation call is rejected. */
  lemma RejectedWhileTransitioning(s: Nav, index: int, e: Event)
    requires Valid(s) && Accepts(s, index) && e != SettleEvent
    ensures Step(GoTo(s, index), e) == GoTo(s, index)
  {
  }

  /**
   * After an accepted call and its settle, the deck rests on the new slide:
   * latch clear, nothing pending, exactly the new slide active and no slide
   * marked `prev`.
   */
  lemma SettleAfterGoTo(s: Nav, index: int)
    requires Valid(s) && Accepts(s, index)
    ensures var u := Settle(GoTo(s, index));
      u.current == index && !u.animating && u.pending.None? && u.total == s.total &&
      (forall k :: 0 <= k < u.total ==> u.marks[k] == Marks(k == index, false))
  {
    var t := GoTo(s, index);
    var u := Settle(t);
    forall k | 0 <= k < u.total
      ensures u.marks[k] == Marks(k == index, false)
    {
      assert !s.marks[k].prev;
    }
  }

  /** The settle clears the latch and the old slide's `prev` and touches nothing else. */
  lemma SettleTouchesNothingElse(s: Nav)
    requires Valid(s) && s.pending.Some?
    ensures var t := Settle(s); var p := s.pending.value;
      t.current == s.current && t.total == s.total &&
      t.marks[p] == Marks(s.marks[p].active, false) &&
      (forall k :: 0 <= k < s.total && k != p ==> t.marks[k] == s.marks[k])
  {
  }

  /** nextSlide on the last slide and prevSlide on the first are no-ops. */
  lemma EdgeMovesAreNoOps(s: Nav)
    requires Valid(s)
    ensures s.current == s.total - 1 ==> Next(s) == s
    ensures s.current == 0 ==> Prev(s) == s
  {
  }

  /**
   * Across any sequence of calls and settles from startup, the index stays in
   * range, the latch is set exactly when one settle is pending, and exactly
   * the current slide is active.
   */
  lemma {:induction false} RunKeepsValid(s: Nav, es: seq<Event>)
    requires Valid(s)
    ensures Valid(Run(s, es))
    decreases |es|
  {
    if es != [] {
      RunKeepsValid(Step(s, es[0]), es[1..]);
    }
  }

  /** The invariant, seen from a settled state: exactly one slide active and none marked `prev`. */
  lemma SettledDeck(s: Nav)
    requires Valid(s) && !s.animating
    ensures forall k :: 0 <= k < s.total ==> s.marks[k] == Marks(k == s.current, false)
  {
  }

  // ---------------------------------------------------------------------
  // The source as written: classList.add('') on a backward move
  // ---------------------------------------------------------------------

  /** A call either returns or throws; the thrown call leaves its partial updates behind. */
  datatype Outcome = Returned(state: Nav) | Threw(state: Nav)

  /**
   * goToSlide as written.  On a backward move line 78 calls
   * `classList.add('')`, which the DOM Standard's DOMTokenList.add() answers
   * with a SyntaxError.  By then the latch is set (line 70) and `active` is off
   * the old slide (line 77); currentSlide is not updated and no settle
   * timeout is scheduled.
   */
  function GoToAsWritten(s: Nav, index: int): (o: Outcome)
    requires WellFormed(s)
    ensures WellFormed(o.state)
  {
    if !Accepts(s, index) then Returned(s)
    else if index > s.current then Returned(GoTo(s, index))
    else
      var from := s.current;
      Threw(s.(animating := true, marks := s.marks[from := s.marks[from].(active := false)]))
  }

  /** One event under the as-written goToSlide; a thrown call keeps its partial state. */
  function StepAsWritten(s: Nav, e: Event): (t: Nav)
    requires WellFormed(s)
    ensures WellFormed(t)
  {
    match e
    case GoToEvent(i) => GoToAsWritten(s, i).state
    case NextEvent => if s.current < s.total - 1 then GoToAsWritten(s, s.current + 1).state else s
    case PrevEvent => if s.current > 0 then GoToAsWritten(s, s.current - 1).state else s
    case SettleEvent => if s.pending.Some? then Settle(s) else s
  }

  /** A sequence of events under the as-written goToSlide. */
  function RunAsWritten(s: Nav, es: seq<Event>): (t: Nav)
    requires WellFormed(s)
    ensures WellFormed(t)
    decreases |es|
  {
    if es == [] then s else RunAsWritten(StepAsWritten(s, es[0]), es[1..])
  }

  /** A latched state with no timer pending is a fixed point of every event. */
  lemma {:induction false} StuckStaysStuck(s: Nav, es: seq<Event>)
    requires WellFormed(s) && s.animating && s.pending.None?
    ensures RunAsWritten(s, es) == s
    decreases |es|
  {
    if es != [] {
      assert StepAsWritten(s, es[0]) == s;
      StuckStaysStuck(s, es[1..]);
    }
  }

  /**
   * As written, any accepted backward move throws and leaves the deck locked:
   * the latch stays set for every later sequence of events, no slide is
   * active, and the invariant is broken.
   */
  lemma LockedAfterBackwardMove(s: Nav, index: int, es: seq<Event>)
    requires Valid(s) && Accepts(s, index) && index < s.current
    ensures GoToAsWritten(s, index).Threw?
    ensures var t := GoToAsWritten(s, index).state;
      t.animating && t.pending.None? && !Valid(t) &&
      (forall k :: 0 <= k < t.total ==> !t.marks[k].active) &&
      RunAsWritten(t, es) == t
  {
    var t := GoToAsWritten(s, index).state;
    assert !t.marks[s.current].active;
    StuckStaysStuck(t, es);
  }

  /** The smallest instance: twelve slides, step to slide 1, settle, then press ArrowLeft. */
  lemma BackwardMoveExample()
    ensures var s := Settle(GoTo(Initial(12), 1));
      s.current == 1 && GoToAsWritten(s, 0).Threw? &&
      RunAsWritten(GoToAsWritten(s, 0).state, [SettleEvent, NextEvent, GoToEvent(5)]) == GoToAsWritten(s, 0).state
  {
    var s := Settle(GoTo(Initial(12), 1));
    SettleAfterGoTo(Initial(12), 1);
    LockedAfterBackwardMove(s, 0, [SettleEvent, NextEvent, GoToEvent(5)]);
  }
}
