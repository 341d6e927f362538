/**
 * The controller object of js/app.js: the `state` record, the slides' class
 * lists, the indicator dots and what updateUI and animateCurrentSlide last
 * wrote, updated in place.  Each method is proved against the functions of
 * Navigation, View and Entrance.
 */
module Slides {
  import opened Wrappers
  import Navigation
  import View
  import Entrance
  import InputRouting

  class Deck {
    /** `totalSlides`: fixed at construction (the source hard-codes 12). */
    const total: int
    /** The cards and counters of each slide. */
    const content: seq<Entrance.SlideContent>
    /** The `active` / `prev` markers of each `.slide`. */
    const slides: array<Navigation.Marks>
    /** The `active` marker of each `.page-indicator`. */
    const indicators: array<bool>

    var current: int
    var animating: bool
    /** The pending settle timeout, holding the index of the slide it will clear. */
    var pending: Option<int>
    /** What updateUI last wrote to the progress bar, page label and buttons. */
    var view: View.ViewState
    /**
     * Every entrance schedule animateCurrentSlide has started, in activation
     * order.  Nothing cancels a timer, so an earlier schedule stays live when
     * a later one starts.
     */
    var schedules: seq<seq<Entrance.Timed>>

    ghost predicate Valid()
      reads this, slides, indicators
    {
      slides.Length == total && indicators.Length == total && |content| == total &&
      Navigation.Valid(Abstract())
    }

    /** updateUI and animateCurrentSlide have last run for slide i. */
    ghost predicate Shows(i: int)
      reads this, indicators
    {
      0 <= i < |content| && 0 < total &&
      view == View.ViewOf(i, total) && indicators[..] == View.IndicatorFlags(i, total) &&
      |schedules| > 0 && schedules[|schedules| - 1] == Entrance.Plan(content[i])
    }

    /** The navigation state this object holds. */
    function Abstract(): Navigation.Nav
      reads this, slides
    {
      Navigation.Nav(current, total, animating, pending, slides[..])
    }

    /**
     * Startup (init): one indicator per slide with the first active, the
     * first view update and the entrance timers of slide 0.  The markup's slides are
     * taken to start with slide 0 active and no slide marked `prev`.
     */
    constructor (total: int, content: seq<Entrance.SlideContent>)
      requires 1 <= total && |content| == total
      ensures Valid() && fresh(slides) && fresh(indicators)
      ensures Abstract() == Navigation.Initial(total) && this.content == content
      ensures Shows(0) && schedules == [Entrance.Plan(content[0])]
    {
      this.total := total;
      this.content := content;
      slides := new Navigation.Marks[total](i => Navigation.Marks(i == 0, false));
      indicators := new bool[total](i => i == 0);
      current := 0;
      animating := false;
      pending := None;
      view := View.ViewOf(0, total);
      schedules := [];
      new;
      assert slides[..] == Navigation.Initial(total).marks;
      UpdateUI();
      AnimateCurrentSlide();
    }

    /** updateUI: the view values, and the loop over the indicator dots. */
    method UpdateUI()
      requires 0 < total && indicators.Length == total
      modifies this`view, indicators
      ensures view == View.ViewOf(current, total)
      ensures indicators[..] == View.IndicatorFlags(current, total)
    {
      view := View.ViewOf(current, total);
      var i := 0;
      while i < indicators.Length
        invariant 0 <= i <= indicators.Length
        invariant view == View.ViewOf(current, total)
        invariant forall k :: 0 <= k < i ==> indicators[k] == (k == current)
      {
        indicators[i] := i == current;
        i := i + 1;
      }
    }

    /** animateCurrentSlide: schedule the entrance timers of the current slide. */
    method AnimateCurrentSlide()
      requires |content| == total && 0 <= current < total
      modifies this`schedules
      ensures schedules == old(schedules) + [Entrance.Plan(content[current])]
    {
      var plan := Entrance.ScheduleEntrance(content[current]);
      schedules := schedules + [plan];
    }

    /**
     * goToSlide: the navigation state moves as Navigation.GoTo says; an
     * accepted call also refreshes the view and schedules the new slide's
     * timers, and a rejected one changes nothing at all.
     */
    method GoToSlide(index: int) returns (accepted: bool)
      requires Valid()
      modifies this, slides, indicators
      ensures Valid()
      ensures accepted == Navigation.Accepts(old(Abstract()), index)
      ensures Abstract() == Navigation.GoTo(old(Abstract()), index)
      ensures accepted ==> Shows(index) && schedules == old(schedules) + [Entrance.Plan(content[index])]
      ensures !accepted ==> view == old(view) && indicators[..] == old(indicators[..]) && schedules == old(schedules)
    {
      if animating || index == current {
        return false;
      }
      if index < 0 || index >= total {
        return false;
      }
      accepted := true;
      ghost var before := Abstract();
      animating := true;
      var from := current;
      // Forward moves mark the old slide `prev`; backward moves add no marker
      // (the source's classList.add('') is modelled by Navigation.GoToAsWritten).
      slides[from] := Navigation.Marks(false, slides[from].prev || index > from);
      slides[index] := Navigation.Marks(true, false);
      current := index;
      UpdateUI();
      AnimateCurrentSlide();
      pending := Some(from);
      assert Abstract() == Navigation.GoTo(before, index);
    }

    /** The 600 ms settle timeout firing: as Navigation.Settle says; the view is not touched. */
    method Settle()
      requires Valid() && pending.Some?
      modifies this, slides
      ensures Valid()
      ensures Abstract() == Navigation.Settle(old(Abstract()))
      ensures view == old(view) && schedules == old(schedules)
    {
      ghost var before := Abstract();
      animating := false;
      var p := pending.value;
      slides[p] := slides[p].(prev := false);
      pending := None;
      assert Abstract() == Navigation.Settle(before);
    }

    /** nextSlide. */
    method NextSlide() returns (accepted: bool)
      requires Valid()
      modifies this, slides, indicators
      ensures Valid()
      ensures Abstract() == Navigation.Next(old(Abstract()))
      ensures accepted <==> Abstract() != old(Abstract())
      ensures accepted ==> Shows(current)
      ensures !accepted ==> view == old(view) && indicators[..] == old(indicators[..]) && schedules == old(schedules)
    {
      accepted := false;
      if current < total - 1 {
        accepted := GoToSlide(current + 1);
      }
    }

    /** prevSlide. */
    method PrevSlide() returns (accepted: bool)
      requires Valid()
      modifies this, slides, indicators
      ensures Valid()
      ensures Abstract() == Navigation.Prev(old(Abstract()))
      ensures accepted <==> Abstract() != old(Abstract())
      ensures accepted ==> Shows(current)
      ensures !accepted ==> view == old(view) && indicators[..] == old(indicators[..]) && schedules == old(schedules)
    {
      accepted := false;
      if current > 0 {
        accepted := GoToSlide(current - 1);
      }
    }

    /** The call an input channel routes here. */
    method Dispatch(a: InputRouting.Action) returns (accepted: bool)
      requires Valid()
      modifies this, slides, indicators
      ensures Valid()
      ensures Abstract() == InputRouting.Perform(old(Abstract()), a)
      ensures accepted <==> Abstract() != old(Abstract())
      ensures accepted ==> Shows(current)
      ensures !accepted ==> view == old(view) && indicators[..] == old(indicators[..]) && schedules == old(schedules)
    {
      match a
      case NoAction => accepted := false;
      case NextAction => accepted := NextSlide();
      case PrevAction => accepted := PrevSlide();
      case JumpTo(i) =>
        Navigation.GoToChangesIffAccepted(Abstract(), i);
        accepted := GoToSlide(i);
    }
  }

  /** A short session on twelve slides: forward, a rejected second call, settle, back. */
  method Session(content: seq<Entrance.SlideContent>)
    requires |content| == 12
  {
    var deck := new Deck(12, content);
    var ok := deck.NextSlide();
    assert ok && deck.current == 1 && deck.animating;
    ok := deck.GoToSlide(5);
    assert !ok && deck.current == 1;
    deck.Settle();
    assert !deck.animating;
    ok := deck.PrevSlide();
    assert ok && deck.current == 0 && deck.view == View.ViewOf(0, 12);
  }
}
