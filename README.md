# Pomodoro interval scheduler in Dafny

This project models the scheduling rules of a single-window Pomodoro timer
(`Pomodoro/main.py`). A repetition counter `reps` is bumped every time an
interval starts. `reps % 8` and `reps % 2` pick one of three intervals:
a 20-minute long break (title "Break", red), a 5-minute short break
("Break", pink) or a 25-minute work interval ("Work", green). A one-second
countdown shows the remaining time as `M:SS`. When it reaches zero it starts
the next interval by itself and redraws `reps / 2` check marks, one per
completed work session. Reset cancels the pending tick, shows `00:00` and the
title "Timer", clears the check marks and sets the counter back to 0.

Everything is in one module, `Pomodoro` (`pomodoro.dfy`):

- **Interval selection.** `IntervalFor`, `Duration`, `Title` and `ColourOf`, with
  lemmas: the three rules with their constants, the eight-step cycle
  (work, short, work, short, work, short, work, long), period 8, and "work
  exactly when odd".
- **Time formatting.** `Format(count)` is the decimal minutes (`Decimal`, like
  Python's `str`), a colon, and the seconds padded to two digits (`TwoDigits`).
  `ParseClock` reads such a text back. The lemmas prove the round trip
  (`ParseClock(Format(c)) == Some(c)`), the minutes and seconds parts, and
  injectivity.
- **Check marks.** `Marks(n)` is `n` glyphs. `BuildMarks` is the counting loop
  that builds them. `CompletedWork(reps)` counts the work intervals whose
  successor has started, and it is proved equal to `reps / 2`.
- **Scheduler state.** `State` is a value snapshot of the scheduler: counter,
  countdown text, title, colour, check marks, and the pending tick. The
  pending tick is `None` or `Some(count)`, where `count` is the value the tick
  will fire with. `StartSpec`, `CountDownSpec`, `FireSpec` and `ResetSpec` are
  the transitions as functions. Like `startTimer` and `countDown`, the first
  two are mutually recursive. `Valid` describes the states that can be reached
  between events: idle, or counting down the interval that `reps` selects.
  `Started(reps)` is the state just after repetition `reps` has begun. The
  lemmas cover one tick above zero, the zero tick, the ticks inside an
  interval and a whole interval (`Run` applies `n` ticks), consecutive
  intervals from the first start (`TicksBetween` adds up their lengths),
  reset, and two concrete runs.
- **The mutable timer.** Class `Timer` holds the same fields and updates them in
  place. `Start`, `CountDown`, `Fire` and `Reset` are proved to produce exactly
  the `Spec` function of the old snapshot. `CountDown` builds the marks with
  the `BuildMarks` loop.

The tkinter event loop becomes a single `pending` slot. The scheduled callback
is the method `Fire`, which consumes the slot and runs `CountDown` with the
stored count. Reset empties the slot.

Details of the code that the model keeps:

- The initial display and the display after reset are the literal `"00:00"`
  (`Pomodoro/main.py:18` and `:75`). A countdown shows the minutes without
  padding, so `Format(0)` is `"0:00"`.
- Reset does not touch the title colour: `resetTimer` only changes the title
  text (`Pomodoro/main.py:19`).
- `startTimer` tests `reps % 8 == 0`, which a counter of 0 would also pass.
  The test runs only after the increment, so the counter is at least 1 there
  and the long breaks fall on repetitions 8, 16, 24 and so on.

## Model

| member | source | states |
|---|---|---|
| Pomodoro.IntervalChoice | Pomodoro/main.py:28-43 | a multiple of 8 gives 1200 s "Break" in red; any other even counter gives 300 s "Break" in pink; an odd counter gives 1500 s "Work" in green |
| Pomodoro.WorkIffOdd | Pomodoro/main.py:34-43 | the interval is work exactly when `reps` is odd, and a long break exactly when `reps` is a multiple of 8, so the 8th repetition is a long break, not a short one |
| Pomodoro.IntervalCycle | Pomodoro/main.py:32-43 | the kind for `reps` is entry `reps % 8` of the cycle long, work, short, work, short, work, short, work |
| Pomodoro.IntervalPeriodic | Pomodoro/main.py:32-43 | the interval kind repeats with period 8 |
| Pomodoro.Duration | Pomodoro/main.py:9-11 | every interval length is a positive whole number of minutes |
| Pomodoro.DurationTexts | Pomodoro/main.py:28-30 | a work interval starts by showing "25:00", a short break "5:00", a long break "20:00" |
| Pomodoro.DecimalShape | Pomodoro/main.py:52 | the minutes text is non-empty and all digits, has one digit exactly when the value is below 10, and has no leading zero |
| Pomodoro.DecimalRoundTrip | Pomodoro/main.py:47-52 | reading the decimal minutes text back gives the number |
| Pomodoro.TwoDigitsValue | Pomodoro/main.py:48-50 | the seconds text, padded with "0" below 10, is always exactly two digits and is worth the seconds value |
| Pomodoro.FormatParts | Pomodoro/main.py:46-52 | the countdown text is `count / 60` in decimal, a colon third from the end, and two digits worth `count % 60 < 60`, so `min * 60 + sec == count` |
| Pomodoro.FormatRoundTrip | Pomodoro/main.py:47-52 | parsing the text "M:SS" back gives the original count |
| Pomodoro.FormatInjective | Pomodoro/main.py:47-52 | different counts are shown as different texts |
| Pomodoro.FormatExamples | Pomodoro/main.py:47-52 | 125 gives "2:05", 600 "10:00", 59 "0:59", 0 "0:00" |
| Pomodoro.Marks | Pomodoro/main.py:58-61 | `Marks(n)` has length `n` and every element is the check-mark glyph |
| Pomodoro.BuildMarks | Pomodoro/main.py:58-62 | the loop that appends one glyph per iteration, `sessions` times, yields exactly `Marks(sessions)` |
| Pomodoro.CompletedWorkIsHalf | Pomodoro/main.py:59 | `reps / 2` equals the number of work intervals among repetitions `1 .. reps-1`, that is, the completed work sessions |
| Pomodoro.MarksCountCompletedWork | Pomodoro/main.py:56-62 | in every reachable state there is one check mark per completed work interval and nothing else |
| Pomodoro.InitialValid | Pomodoro/main.py:12-13 | the start-up state (counter 0, "00:00", "Timer", no marks, no tick) is the idle state |
| Pomodoro.ResetClears | Pomodoro/main.py:16-22 | from any state, reset gives counter 0, no pending tick, no marks and a valid idle state; it keeps the colour, and a second reset changes nothing |
| Pomodoro.ResetBeforeStart | Pomodoro/main.py:12-22 | a reset before the first start leaves the start-up state exactly as it is |
| Pomodoro.StartedValid | Pomodoro/main.py:34-43 | for every `reps >= 1`, the interval `reps` selects, counting down from its full length with its title, colour and `reps / 2` marks, is a valid state |
| Pomodoro.StartCounts | Pomodoro/main.py:25-43 | startTimer raises `reps` by exactly 1, shows the selected interval's full length, leaves a tick pending for one second less, and sets its title and colour; the marks are untouched |
| Pomodoro.StartFromIdle | Pomodoro/main.py:25-43 | Start from idle gives repetition 1: "25:00", "Work", green, no marks, tick 1499 pending |
| Pomodoro.TickAboveZero | Pomodoro/main.py:52-55 | a tick with count > 0 shows `Format(count)` and leaves exactly one pending tick, for `count - 1`; counter, title, colour and marks are unchanged |
| Pomodoro.TickAboveZeroValid | Pomodoro/main.py:52-55 | a tick above zero keeps a valid state valid |
| Pomodoro.TickAtZero | Pomodoro/main.py:52-62 | from any state, the zero tick raises `reps` by 1, shows the new interval's full duration, leaves a tick pending for `duration - 1`, sets the title and colour, and shows `reps / 2` marks for the already incremented counter |
| Pomodoro.ZeroTickValid | Pomodoro/main.py:56-62 | the zero tick always leaves a valid state |
| Pomodoro.FireKeepsValid | Pomodoro/main.py:46-62 | every tick keeps the scheduler valid and leaves a tick pending |
| Pomodoro.FireSchedules | Pomodoro/main.py:53-57 | after any tick exactly one tick is pending |
| Pomodoro.TicksCountDown | Pomodoro/main.py:46-55 | with `c` seconds left, after `i` ticks (`0 < i <= c`) the display shows `c - i + 1` and the tick for `c - i` is pending; counter, title, colour and marks are unchanged |
| Pomodoro.IntervalCompletes | Pomodoro/main.py:46-62 | with `c` seconds left, `c + 1` ticks start repetition `reps + 1` at its full length with its title, colour and marks |
| Pomodoro.RunsThrough | Pomodoro/main.py:25-62 | from the start of repetition `r`, the summed lengths of repetitions `r .. n-1` in ticks lead exactly to the start of repetition `n`, so the schedule advances one interval after another without a press |
| Pomodoro.FromStart | Pomodoro/main.py:25-62 | Start from the start-up state and let every interval run out: after the lengths of repetitions `1 .. n-1` repetition `n` has just begun, with one check mark per completed work interval |
| Pomodoro.FirstBreak | Pomodoro/main.py:25-62 | Start, then 1500 ticks, gives repetition 2: "5:00", a pink "Break", exactly one check mark, and tick 299 pending |
| Pomodoro.TwoMarksAfterFour | Pomodoro/main.py:25-62 | the first four intervals last 3600 ticks in all; after them repetition 5, a work interval, is running and two check marks are shown |
| Pomodoro.Timer.constructor | Pomodoro/main.py:12-13 | the timer starts with counter 0, "00:00", "Timer", green, no marks and no pending tick |
| Pomodoro.Timer.Start | Pomodoro/main.py:25-43 | updating the fields in place gives exactly `StartSpec` of the old state; from a valid (idle) state it gives a valid state with a tick pending |
| Pomodoro.Timer.CountDown | Pomodoro/main.py:46-62 | updating the fields in place (including the marks loop) gives exactly `CountDownSpec` of the old state and the count |
| Pomodoro.Timer.Fire | Pomodoro/main.py:53-57 | a scheduled tick gives exactly `FireSpec` of the old state, and keeps a valid state valid with a tick pending |
| Pomodoro.Timer.Reset | Pomodoro/main.py:16-22 | reset in place gives exactly `ResetSpec` of the old state, which is valid |

## Left out

- Widget construction, grid layout, fonts, hex colour strings and the tomato image (`Pomodoro/main.py:65-87`) are presentation only. Colours are an enum. The initial title, countdown text and mark text are taken from that setup into `Initial`.
- Real time. `window.after(1000, ...)` is modelled as the single `pending` slot, and the elapse of one second is the method `Fire`. `Fire` requires a pending tick, because the event loop only runs a callback that was scheduled.
- Pomodoro.Timer.Start: requires that no tick is pending. Pressing Start during a running countdown leaves the old callback scheduled while the handle is overwritten, which gives two live countdowns. This model keeps only one countdown. `StartSpec` itself has no such requirement; applied to a running state, it replaces the pending tick.
- The failure of `after_cancel` is not modelled. A handle that has already fired or been cancelled is ignored by tkinter, and reset empties the pending slot in every case. `after_cancel(None)` happens only when Reset is pressed before the first Start, when the state is still the start-up state; whether the call does nothing or raises and skips the rest of `resetTimer`, the outcome is that same state (`ResetBeforeStart`).
- The check-mark glyph is one opaque character. Its Unicode rendering is not modelled.
- `math.floor(count / 60)` is floating-point division followed by floor. It is modelled as integer division. The two agree on every count the program produces (at most 1500).
