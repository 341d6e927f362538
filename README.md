# Slide-deck controller, modelled in Dafny

This project models the controller of an interactive slide presentation
(`js/app.js`). It covers five parts:

- **Navigation state machine.** `goToSlide`, `nextSlide`, `prevSlide` and
  the 600 ms settle timeout. The state is the current index, the slide
  count, the `isAnimating` latch and the `active`/`prev` markers of every
  slide. The settle timeout is an explicit pending event.
- **View update.** The progress bar, page label, indicator dots and button
  styles that `updateUI` writes.
- **Entrance schedule.** The per-card and per-counter timers of
  `animateCurrentSlide`.
- **Counter text.** The display rule of `animateNumber`.
- **Input routing.** The key table, the swipe threshold and the wheel
  debounce of `bindEvents`.

Files and modules:

- `navigation.dfy` (`Navigation`): the state machine on values. It holds the
  invariant `Valid`, the step functions and the lemmas about traces. It also
  holds the as-written variant described under Findings.
- `deck.dfy` (`Slides`): class `Deck`. It keeps the slide markers and the
  indicator dots in arrays, updated in place. Its methods are proved against
  `Navigation`, `View` and `Entrance`.
- `view.dfy` (`View`): `updateUI` as a function of `(current, total)`.
- `entrance.dfy` (`Entrance`): the delay formulas, the schedule `Plan`, and
  the loop `ScheduleEntrance` that builds it.
- `number_format.dfy` (`NumberFormat`): decimal digits, comma grouping,
  `toFixed(0)` rounding, and the frame text.
- `input_routing.dfy` (`InputRouting`): key and swipe decisions, the wheel
  slot as class `Router`, and `Perform`, which maps an action to a
  state-machine call.
- `wrappers.dfy` (`Wrappers`): `Option`.

Modelling choices:

- **Slide count.** `totalSlides` is hard-coded to 12 at `js/app.js:12`,
  whatever the markup contains. Here it is a constructor parameter, and the
  constructor requires one slide record per slide. With fewer `.slide`
  nodes the source would fail on an undefined element. That case is outside
  the model.
- **Initial markup.** The slides are taken to start with slide 0 `active`
  and no slide marked `prev`. The markup is not part of this model.
- **Backward moves.** Here the old slide gets no new marker. Line 78 asks
  for `classList.add('')`, which the DOM throws on (see Findings). The deck
  functions (`Navigation.GoTo`, `Slides.Deck.GoToSlide`) model the evident
  intent.
- **Settle timeout.** The timeout can only fire when one is scheduled, so
  `Settle` requires a pending timeout. In an event trace, a settle event
  with nothing pending is no event.
- **Millions range.** The code calls `toFixed(0)`. It rounds to the
  nearest integer and takes the larger one on a tie. It is not a floor, so
  2505000 shows "251".
- **Grouping locale.** `toLocaleString` is modelled for a locale that puts
  a comma between groups of three digits and adds nothing else.
- **Counter target.** `parseInt(...)` is modelled as an optional integer:
  `None` stands for NaN. `|| 0` then makes NaN and 0 both 0.
- **Attributes.** A missing `data-prefix` or `data-suffix` reads as the
  empty string.
- **Host events.** Touch `screenY` and wheel `deltaY` are host doubles and
  are modelled as `real`. Only their comparisons matter.

## Model

| member | source | states |
|---|---|---|
| Navigation.Initial | js/app.js:10-16 | The startup state: index 0, latch clear, nothing pending, only slide 0 active, and the invariant holds. |
| Navigation.GoTo | js/app.js:66-93 | `goToSlide` on the navigation state. It keeps the shape, and it keeps the invariant: index in range, latch set iff one settle is pending, exactly the current slide active, `prev` only on the slide whose settle is pending. |
| Navigation.Settle | js/app.js:89-92 | The settle timeout clears the latch, leaves nothing pending, and keeps the invariant. |
| Navigation.Next | js/app.js:98-102 | `nextSlide` keeps the invariant and moves the index by at most one, forward. From a settled state off the last slide it lands on current+1, sets the latch and schedules the old slide's settle. |
| Navigation.Prev | js/app.js:107-111 | `prevSlide` keeps the invariant and moves the index by at most one, backward. From a settled state off slide 0 it lands on current-1, sets the latch and schedules the old slide's settle. |
| Navigation.Step | js/app.js:66-111 | Any call or settle keeps the slide count and the invariant. |
| Navigation.Run | js/app.js:66-111 | A sequence of calls and settles keeps the state well formed and the slide count fixed. |
| Navigation.Accepts | js/app.js:67-68 | The guards of `goToSlide`; specified by Navigation.GoToChangesIffAccepted. |
| Navigation.GoToChangesIffAccepted | js/app.js:67-68 | A call changes the state if and only if it is not animating, targets another slide, and the target is in `[0, totalSlides)`. |
| Navigation.AcceptedGoTo | js/app.js:70-92 | An accepted call sets the index and the latch, and schedules the old slide's settle. The old slide loses `active` and gains `prev` only on a forward move. The new slide is `active` without `prev`. No other slide changes. |
| Navigation.RejectedWhileTransitioning | js/app.js:67 | Before the settle fires, every further `goToSlide`, `nextSlide` or `prevSlide` leaves the state unchanged. |
| Navigation.SettleAfterGoTo | js/app.js:70-92 | An accepted call followed by its settle leaves index = target, latch clear, nothing pending, exactly the target active, and no `prev` anywhere. |
| Navigation.SettleTouchesNothingElse | js/app.js:89-92 | The settle changes only the latch, the pending timeout and the old slide's `prev`. |
| Navigation.EdgeMovesAreNoOps | js/app.js:98-111 | `nextSlide` on the last slide and `prevSlide` on the first leave the state unchanged. |
| Navigation.RunKeepsValid | js/app.js:66-111 | Every sequence of calls and settles from a valid state ends in a valid state. |
| Navigation.SettledDeck | js/app.js:89-92 | With the latch clear, exactly the current slide is `active` and no slide is `prev`. |
| Navigation.GoToAsWritten | js/app.js:66-83 | `goToSlide` with the DOM's throw on `classList.add('')` keeps the state's shape. |
| Navigation.StepAsWritten | js/app.js:66-111 | Any call or settle under the as-written `goToSlide` keeps the state's shape. |
| Navigation.RunAsWritten | js/app.js:66-111 | A trace under the as-written `goToSlide` keeps the state's shape. |
| Navigation.StuckStaysStuck | js/app.js:67 | With the latch set and no timeout pending, every sequence of events leaves the state unchanged. |
| Navigation.LockedAfterBackwardMove | js/app.js:70-78 | As written, an accepted backward move throws. It leaves the latch set, no settle pending and no slide active, and no later events change anything. |
| Navigation.BackwardMoveExample | js/app.js:78 | Twelve slides: after moving to slide 1 and settling, a move to slide 0 throws, and settle, next and jump events leave the deck unchanged. |
| Slides.Deck.constructor | js/app.js:33-61 | Startup: the initial navigation state, one indicator per slide with only the first active, the view of slide 0, and one started schedule, that of slide 0. |
| Slides.Deck.UpdateUI | js/app.js:116-143 | Writes the view of the current index. Its loop makes indicator i active iff i is the current index. |
| Slides.Deck.AnimateCurrentSlide | js/app.js:182-225 | Starts the current slide's schedule after every earlier one; none is cancelled. |
| Slides.Deck.GoToSlide | js/app.js:66-93 | The state moves as `Navigation.GoTo` says, and the deck invariant is kept. Accepted iff the guards pass. An accepted call shows the new slide (view, indicators) and appends its schedule to those already live. A rejected call changes nothing. |
| Slides.Deck.Settle | js/app.js:89-92 | Moves as `Navigation.Settle` says; view and schedules untouched. |
| Slides.Deck.NextSlide | js/app.js:98-102 | Moves as `Navigation.Next` says. Returns true iff the state changed, and then the new slide is shown. |
| Slides.Deck.PrevSlide | js/app.js:107-111 | Moves as `Navigation.Prev` says. Returns true iff the state changed, and then the new slide is shown. |
| Slides.Deck.Dispatch | js/app.js:230-296 | A routed input moves the state as `InputRouting.Perform` says. Returns true iff the state changed, and then the new slide is shown; otherwise view, indicators and schedules are unchanged. |
| View.ViewOf | js/app.js:116-143 | The values `updateUI` writes; specified by View.ViewMeaning, View.ProgressIncreases and View.ViewExample. |
| View.IndicatorFlags | js/app.js:129-132 | Exactly the indicator at the current index is active. |
| View.ViewMeaning | js/app.js:116-143 | Page label is current+1. Progress times total is (current+1)*100, lies in (0, 100], and is 100 exactly on the last slide. Prev is enabled iff current > 0, next iff current < total-1, and a disabled button has pointer-events none. |
| View.ProgressIncreases | js/app.js:119 | Progress strictly increases with the index. |
| View.ViewExample | js/app.js:116-143 | Twelve slides at index 4 give 125/3 % (41.67), page 5 and both buttons enabled. Index 0 disables prev, index 11 disables next. |
| Entrance.TargetOf | js/app.js:203 | `parseInt(...) \|\| 0`: NaN gives 0, otherwise the parsed value. |
| Entrance.ScheduleEntrance | js/app.js:189-224 | The two loops schedule exactly `Plan`: one timer per card, then one per counter, in order. |
| Entrance.CounterTimer | js/app.js:202-224 | The timer of one counter; specified by Entrance.CounterTimers. |
| Entrance.Plan | js/app.js:189-224 | The whole schedule of a slide; built by Entrance.ScheduleEntrance, specified by Entrance.CardsStagger, Entrance.CounterTimers and Entrance.CountersOrdered. |
| Entrance.CardsStagger | js/app.js:189-198 | Card i shows at 100 + 100i, and later cards show strictly later. |
| Entrance.CounterTimers | js/app.js:202-224 | Counter j counts up from 500 + 200j, over 2000 ms, iff its target is positive. Otherwise it only fades in, at 300. |
| Entrance.CountersOrdered | js/app.js:207-222 | Count-ups start in counter order, and every plain fade comes before every count-up. |
| Entrance.CountUpFinalText | js/app.js:203-215 | A count-up ends on the counter's prefix, its formatted target and its suffix. |
| NumberFormat.Digits | js/app.js:166 | Decimal digits: non-empty, all digits, and no leading zero except for 0 itself. |
| NumberFormat.ValueOfDigits | js/app.js:166 | The digits read back give the number. |
| NumberFormat.DigitsSplit | js/app.js:164 | The digits of a*1000+b are the digits of a followed by b padded to three digits. |
| NumberFormat.UngroupGrouped | js/app.js:164 | Removing the commas from the grouped form gives the plain digits. |
| NumberFormat.DigitsBelowThousand | js/app.js:164 | Below 1000 the digits are one to three characters (one below 10, at most two below 100). |
| NumberFormat.GroupedShape | js/app.js:164 | The grouped form is a leading group of one to three digits, then groups of a comma and three digits; from 1000 up it ends in a comma and three digits. |
| NumberFormat.GroupedRoundTrip | js/app.js:164 | The grouped text, read back without commas, is the number. |
| NumberFormat.Grouped | js/app.js:164 | `toLocaleString` under comma grouping; specified by NumberFormat.GroupedShape and NumberFormat.UngroupGrouped. |
| NumberFormat.DisplayValue | js/app.js:160-167 | The display rule chosen by the end value; specified by NumberFormat.FinalTextMeaning. |
| NumberFormat.FrameText | js/app.js:160-169 | Prefix, display value, suffix on one frame; specified by NumberFormat.FinalTextMeaning and NumberFormat.FinalTextExamples. |
| NumberFormat.RoundTenThousands | js/app.js:162 | `(x/10000).toFixed(0)`: the nearest integer to x/10000, the larger on a tie. |
| NumberFormat.FinalTextMeaning | js/app.js:157-169 | Final text is prefix + display + suffix. At 1000000 and above, display is the plain digits of x/10000 rounded half-up. From 1000 to 999999 it is grouped in threes from the right with at least one comma, and without its commas it is exactly the digits of x. Below 1000 (for x >= 0) it is exactly the digits of x. |
| NumberFormat.FinalTextExamples | js/app.js:157-169 | 2500000 gives "250", 2505000 gives "251", 2500 gives "2,500" and 850 gives "850", with prefix and suffix attached. |
| InputRouting.KeyAction | js/app.js:240-254 | The keydown table; specified by InputRouting.KeyTable. |
| InputRouting.KeyTable | js/app.js:240-254 | ArrowRight/ArrowDown/Space go next, ArrowLeft/ArrowUp go prev, Home jumps to 0, End to total-1. The default action is suppressed iff the key routes somewhere. |
| InputRouting.SwipeAction | js/app.js:269-280 | The swipe decision; specified by InputRouting.SwipeDecision and InputRouting.SwipeThresholdExamples. |
| InputRouting.SwipeDecision | js/app.js:269-280 | A swipe navigates iff \|start-end\| > 50. It goes next iff start-end > 50 and prev iff end-start > 50. |
| InputRouting.SwipeThresholdExamples | js/app.js:270-273 | A travel of exactly 50 does not navigate; 51 does, in either direction. |
| InputRouting.WheelDirection | js/app.js:291-295 | A tick goes next iff deltaY > 0, prev iff deltaY < 0, and nowhere iff deltaY is 0. |
| InputRouting.WheelStep | js/app.js:284-296 | One tick against the `wheelTimeout` slot; specified by InputRouting.ArmedBurstIsDropped, InputRouting.BurstNavigatesAtMostOnce and InputRouting.Router.Wheel. |
| InputRouting.WheelBurst | js/app.js:284-296 | A burst of ticks gives one action per tick. |
| InputRouting.ArmedBurstIsDropped | js/app.js:285 | While the slot is armed, every tick is dropped. |
| InputRouting.BurstNavigatesAtMostOnce | js/app.js:283-296 | Within one 500 ms window only the first tick navigates, by the sign of its deltaY (0 means none). |
| InputRouting.Perform | js/app.js:241-253 | An action becomes the matching state-machine call and keeps the invariant. |
| InputRouting.HomeAndEnd | js/app.js:247-253 | From a settled state, an accepted Home lands on slide 0 and an accepted End on the last slide. |
| InputRouting.Router.constructor | js/app.js:283 | The wheel slot starts unarmed. |
| InputRouting.Router.Wheel | js/app.js:284-296 | A tick while armed is dropped. Otherwise it arms the slot, whatever deltaY is, and returns the direction of deltaY. |
| InputRouting.Router.WheelTimeoutFires | js/app.js:287-289 | The 500 ms timeout frees the slot. |

## Findings

| source | as written | input that shows it | evidently intended | confidence | as-written member | corrected member |
|---|---|---|---|---|---|---|
| js/app.js:78 | A backward move calls `classList.add('')`. DOMTokenList.add() in the DOM Standard throws a SyntaxError on an empty token. The throw comes after the latch was set (line 70) and `active` was removed (line 77), and before the settle timeout is scheduled. | 12 slides; move to slide 1; let it settle; press ArrowLeft. The latch stays set forever, no slide is active, and all later input is ignored. | Add no marker on a backward move; the settle then clears the latch. | high (not executed) | Navigation.LockedAfterBackwardMove | Navigation.SettleAfterGoTo |

## Left out

- DOM lookup and caching, listener registration, and the `innerHTML`/`createElement` work of `createPageIndicators`. These are host plumbing; slides and indicators are arrays of markers.
- The presence checks on the progress bar, page label and buttons (`if (elements.x)`). The model assumes every view element exists.
- CSS strings and transitions: the opacity and transform writes that hide each item before its timer.
- The ease-out-quartic curve and the intermediate `requestAnimationFrame` frames of `animateNumber`. They are floating point and wall-clock driven. Only the final frame is modelled, where the value equals the end value. `FrameText` applies the same display rule to any integer frame value.
- NumberFormat.RoundTenThousands: agrees with the floating-point `toFixed(0)` only while x is a safe integer (below 2^53). It does not model the exponential form `toFixed` produces at 10^21 and above.
- Locale behaviour of `toLocaleString` beyond a comma every three digits.
- Full `parseInt` semantics (radix, `0x` prefixes, leading junk). The target is an already-parsed optional integer.
- The `readyState`/`DOMContentLoaded` bootstrap and the 3000 ms swipe-hint fade. Both are one-shot UI writes with no invariant.
- The unused `state.touchStartY`/`state.touchEndY` fields (js/app.js:14-15). The touch handlers use local variables of the same name (lines 257-258).
- View.ViewOf: it computes the progress as an exact rational. The source computes it in floating point (41.66666666666667 for 5 of 12).
- Slides.Deck.AnimateCurrentSlide: schedules accumulate and none is cancelled, as in the source, but without a clock the model does not say when their timers fire relative to each other. So it does not show that revisiting a slide within about 2.5 s runs two count-ups that write the same element.
- Wall-clock time is absent. The settle timeout and the wheel timeout are explicit events (`Settle`, `WheelTimeoutFires`). The entrance timers are offsets from activation, and nothing fires them.
