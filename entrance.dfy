/**
 * animateCurrentSlide (js/app.js): the entrance timers a slide gets when it
 * becomes current.  Every timer is an independent offset from activation;
 * the style writes that hide each item first are not modelled.
 */
module Entrance {
  import opened Wrappers
  import NumberFormat

  /** Duration of a count-up, passed to animateNumber. */
  const CountDuration := 2000

  /** Delay of a counter that only fades in. */
  const FadeDelay := 300

  /**
   * A counter element: its `data-target` as parseInt reads it (None for NaN),
   * and its `data-prefix` and `data-suffix` attributes (None when absent).
   */
  datatype Counter = Counter(target: Option<int>, prefix: Option<string>, suffix: Option<string>)

  /** What animateCurrentSlide finds on a slide: how many cards, and its counters in document order. */
  datatype SlideContent = SlideContent(cards: nat, counters: seq<Counter>)

  /** One scheduled timer, `at` milliseconds after the slide became current. */
  datatype Timed =
    | ShowCard(card: nat, at: int)
    | CountUp(counter: nat, at: int, target: int, prefix: string, suffix: string, duration: int)
    | FadeIn(counter: nat, at: int)

  /** `parseInt(...) || 0`: NaN and 0 both give 0. */
  function TargetOf(raw: Option<int>): (t: int)
    ensures raw.None? ==> t == 0
    ensures raw.Some? ==> t == raw.value
  {
    raw.GetOr(0)
  }

  function CardDelay(i: nat): int {
    100 + i * 100
  }

  /** Start delay of counter i, indexed among all counters of the slide. */
  function CounterDelay(i: nat): int {
    500 + i * 200
  }

  /** The timer for counter j: a count-up when its target is positive, a plain fade otherwise. */
  function CounterTimer(j: nat, c: Counter): Timed {
    var t := TargetOf(c.target);
    if t > 0 then CountUp(j, CounterDelay(j), t, c.prefix.GetOr(""), c.suffix.GetOr(""), CountDuration)
    else FadeIn(j, FadeDelay)
  }

  /** The card timers of a slide with n cards. */
  function CardTimers(n: nat): seq<Timed> {
    seq(n, i requires 0 <= i => ShowCard(i, CardDelay(i)))
  }

  /** The whole schedule: the cards in order, then the counters in order. */
  function Plan(c: SlideContent): seq<Timed> {
    CardTimers(c.cards) +
    seq(|c.counters|, j requires 0 <= j < |c.counters| => CounterTimer(j, c.counters[j]))
  }

  /** The two forEach loops of animateCurrentSlide, each scheduling one timer per item. */
  method ScheduleEntrance(c: SlideContent) returns (plan: seq<Timed>)
    ensures plan == Plan(c)
  {
    plan := [];
    var i := 0;
    while i < c.cards
      invariant 0 <= i <= c.cards
      invariant plan == CardTimers(i)
    {
      plan := plan + [ShowCard(i, CardDelay(i))];
      i := i + 1;
    }
    var j := 0;
    while j < |c.counters|
      invariant 0 <= j <= |c.counters|
      invariant |plan| == c.cards + j
      invariant plan[..c.cards] == CardTimers(c.cards)
      invariant forall k :: 0 <= k < j ==> plan[c.cards + k] == CounterTimer(k, c.counters[k])
    {
      plan := plan + [CounterTimer(j, c.counters[j])];
      j := j + 1;
    }
  }

  /** The final text of a count-up: prefix, formatted target, suffix. */
  function FinalText(e: Timed): string
    requires e.CountUp?
  {
    NumberFormat.FinalText(e.target, e.prefix, e.suffix)
  }

  /** Card i shows at 100 + 100 i, and later cards strictly later. */
  lemma CardsStagger(c: SlideContent)
    ensures |Plan(c)| == c.cards + |c.counters|
    ensures forall i :: 0 <= i < c.cards ==> Plan(c)[i] == ShowCard(i, 100 + 100 * i)
    ensures forall i, k :: 0 <= i < k < c.cards ==> Plan(c)[i].at < Plan(c)[k].at
  {
  }

  /**
   * Counter j gets a count-up from 500 + 200 j exactly when its target is
   * positive, and a fade at 300 otherwise (a missing or unparsable target
   * counting as 0).
   */
  lemma CounterTimers(c: SlideContent, j: nat)
    requires j < |c.counters|
    ensures var e := Plan(c)[c.cards + j]; var t := TargetOf(c.counters[j].target);
      e.counter == j &&
      (e.CountUp? <==> t > 0) &&
      (e.CountUp? ==> e.at == 500 + 200 * j && e.target == t && e.duration == 2000) &&
      (!e.CountUp? ==> e == FadeIn(j, 300))
  {
  }

  /**
   * Count-ups start in counter order, and every plain fade comes before every
   * count-up of the same slide.
   */
  lemma CountersOrdered(c: SlideContent, j: nat, k: nat)
    requires j < |c.counters| && k < |c.counters|
    ensures var ej, ek := Plan(c)[c.cards + j], Plan(c)[c.cards + k];
      (ej.CountUp? && ek.CountUp? && j < k ==> ej.at < ek.at) &&
      (ej.FadeIn? && ek.CountUp? ==> ej.at < ek.at)
  {
  }

  /** A count-up's final text shows its own target with the counter's prefix and suffix. */
  lemma CountUpFinalText(c: SlideContent, j: nat)
    requires j < |c.counters|
    requires TargetOf(c.counters[j].target) > 0
    ensures FinalText(Plan(c)[c.cards + j]) ==
      NumberFormat.FinalText(TargetOf(c.counters[j].target),
                             c.counters[j].prefix.GetOr(""), c.counters[j].suffix.GetOr(""))
  {
    assert Plan(c)[c.cards + j] == CounterTimer(j, c.counters[j]);
  }
}
