/**
 * updateUI (js/app.js): the values the controller writes to the progress bar,
 * the page label, the indicator dots and the two navigation buttons, as a
 * function of the current index and the slide count.
 */
module View {

  /** The two style properties updateUI writes on a navigation button. */
  datatype Button = Button(opacity: string, pointerEvents: string)

  /** A dimmed, click-through button, or a normal one. */
  function ButtonStyle(disabled: bool): Button {
    if disabled then Button("0.3", "none") else Button("1", "auto")
  }

  predicate Enabled(b: Button) {
    b == ButtonStyle(false)
  }

  /**
   * Everything updateUI writes except the indicator dots: the progress-bar
   * width in percent (kept exact; the source computes it in floating point),
   * the page label and the two buttons.
   */
  datatype ViewState = ViewState(progress: real, page: int, prevButton: Button, nextButton: Button)

  function ViewOf(current: int, total: int): ViewState
    requires 0 < total
  {
    ViewState(((current + 1) as real / total as real) * 100.0,
              current + 1,
              ButtonStyle(current == 0),
              ButtonStyle(current == total - 1))
  }

  /** The indicator dots: dot i carries `active` exactly when i is the current index. */
  function IndicatorFlags(current: int, count: nat): (f: seq<bool>)
    ensures |f| == count
    ensures forall i :: 0 <= i < count ==> (f[i] <==> i == current)
  {
    seq(count, i => i == current)
  }

  /**
   * On every slide of the deck: the label is the 1-based page number, the
   * progress is the fraction of slides reached (100 exactly on the last),
   * the previous button is enabled exactly off the first slide, the next
   * button exactly off the last, and a disabled button takes no clicks.
   */
  lemma ViewMeaning(current: int, total: int)
    requires 0 <= current < total
    ensures var v := ViewOf(current, total);
      v.page == current + 1 &&
      v.progress * total as real == (current + 1) as real * 100.0 &&
      0.0 < v.progress <= 100.0 &&
      (v.progress == 100.0 <==> current == total - 1) &&
      (Enabled(v.prevButton) <==> current > 0) &&
      (Enabled(v.nextButton) <==> current < total - 1) &&
      (!Enabled(v.prevButton) ==> v.prevButton.pointerEvents == "none") &&
      (!Enabled(v.nextButton) ==> v.nextButton.pointerEvents == "none")
  {
    var v := ViewOf(current, total);
    var n, t := (current + 1) as real, total as real;
    assert v.progress == n / t * 100.0;
    assert v.progress * t == n * 100.0;
    assert n <= t;
    if v.progress == 100.0 {
      assert n * 100.0 == t * 100.0;
    }
  }

  /** Progress grows strictly with the index. */
  lemma ProgressIncreases(c1: int, c2: int, total: int)
    requires 0 <= c1 < c2 < total
    ensures ViewOf(c1, total).progress < ViewOf(c2, total).progress
  {
    var t := total as real;
    var p1, p2 := ViewOf(c1, total).progress, ViewOf(c2, total).progress;
    assert p1 * t == (c1 + 1) as real * 100.0;
    assert p2 * t == (c2 + 1) as real * 100.0;
    assert (c1 + 1) as real * 100.0 < (c2 + 1) as real * 100.0;
    if p2 <= p1 {
      assert p2 * t <= p1 * t;
    }
  }

  /** Twelve slides, index 4: 41.67 % (exactly 125/3), page 5, both buttons enabled. */
  lemma ViewExample()
    ensures ViewOf(4, 12) == ViewState(125.0 / 3.0, 5, ButtonStyle(false), ButtonStyle(false))
    ensures !Enabled(ViewOf(0, 12).prevButton) && Enabled(ViewOf(0, 12).nextButton)
    ensures Enabled(ViewOf(11, 12).prevButton) && !Enabled(ViewOf(11, 12).nextButton)
  {
    assert (5.0 / 12.0) * 100.0 == 125.0 / 3.0;
  }
}
