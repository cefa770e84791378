# Countdown timer: a Dafny model

This project models the core of an Android countdown-timer app. The app lets a
user pick a preset duration, then start, pause or let a visual countdown run
out. When it runs out, a "Times Up" dialog appears.

The model has five modules:

- `Timer` is the view model `MainViewModel`. It is a three-state machine
  (`Edit`, `Stopped`, `Running`) over the configured `duration` and the
  remaining time `msRemaining`. It also records the stream of values emitted
  on natural expiry. Each public method is a pure transition on an immutable
  `Controller` record. The platform `CountDownTimer` is abstracted away:
  - `armed` says that the timer the view model refers to was started and has
    not been cancelled or finished;
  - `orphans` counts started timers whose reference `startTimer` overwrote
    without cancelling them;
  - `Expire` and `ExpireOrphan` are the `onFinish` callbacks of those timers.
- `Screen` holds the button logic of `MainActivity`. `Dispatch` decides which
  view-model method a tap calls, honouring the `enabled` flags and the
  visibility of the preset row. It also models the presets, the
  seconds/milliseconds text in the dial, and the dialog message.
- `Decimal` models the text rendering used by the screen: Kotlin's
  `Int.toString`, the `"%03d"` format, and Kotlin's integer division by 1000,
  which truncates toward zero.
- `Session` is the whole app: one controller, driven only by button taps and
  timer expiries, including taps on presets that are sliding out of view. It
  proves an invariant that the view model alone does not
  keep (`Timer.UnguardedControllerMisbehaves` shows how it fails). Under the
  screen's guards:
  - a timer is pending exactly while the state is `Running`, so edit mode is
    never entered while a countdown is pending;
  - no timer is ever orphaned;
  - the countdown always runs for the full duration;
  - exactly one event is emitted per expiry;
  - every dialog reports a whole number of seconds with no rounding.
- `Wrappers` defines `Option`.

## Behaviour of the code worth knowing

- `pauseTimer` keeps `msRemaining` at the value `startTimer` installed,
  because the tick callback's write is commented out (Main.kt:74). After
  setting 10 s, starting, and pausing 3 s later, all 10000 ms remain
  (`Timer.PauseAfterStartKeepsFullCountdown`). Starting again runs the whole
  countdown again.
- `pauseTimer` outside `Running` is not a no-op. From `Edit` it moves to
  `Stopped`.
- `stopTimer` forces `msRemaining` to 0 in every state, including when no
  timer is pending.
- `startTimer` can be called in any state. Called while `Running`, it leaves
  the previous timer running, so two timers can be live at once. The screen
  never calls it there (`Session.PendingOnlyWhileRunning`).
- Remaining time never exceeds the duration on the view model only for
  non-negative countdowns (`Timer.RemainingWithinDuration`). A negative
  `setCountdown` followed by `stopTimer` breaks it.
- `startTimer` on a used-up countdown whose duration is 0 ms or less ends at
  rest at once and emits the duration. The platform timer calls `onFinish`
  from inside `start()` when asked to run for no time
  (`Timer.ZeroCountdownFinishesAtOnce`). The screen never installs such a
  duration.
- `stopTimer`, `pauseTimer` and `setCountdown` cancel only the timer the view
  model refers to. A view model called directly with two starts in a row keeps
  an orphaned timer through a later pause, stop or `setCountdown`. That timer
  still runs out and emits the duration, so "Times Up" appears after the user
  paused (`Timer.OrphanOutlivesCancel`). The screen never orphans a timer
  (`Session.PendingOnlyWhileRunning`).
- The preset buttons have no `enabled` flag. They are only hidden, and they
  slide out over 300 ms (MainActivity.kt:192-204), during which they still
  take taps. `Session.LatePreset` is such a tap, allowed in any state.

## Model

| member | source | states |
|---|---|---|
| Timer.Initial | app/src/main/java/com/example/androiddevchallenge/Main.kt:43-46 | A new view model rests in `Stopped` with 10000 ms as both duration and remaining time, nothing pending, no event emitted |
| Timer.Cancel | app/src/main/java/com/example/androiddevchallenge/Main.kt:79-87 | Cancelling the referenced timer (`timer.cancel()` in `stopTimer` and `pauseTimer`) means the referenced timer is no longer pending; orphaned timers are untouched, and nothing else changes |
| Timer.OnTimerFinished | app/src/main/java/com/example/androiddevchallenge/Main.kt:58-62 | Finalizing always rests at `Stopped` with 0 ms left and the duration kept; it appends the duration to the event stream exactly when the stop was not manual |
| Timer.StopTimer | app/src/main/java/com/example/androiddevchallenge/Main.kt:79-82 | A stop rests at `Stopped` with 0 ms left and the referenced timer no longer pending; orphaned timers are untouched; it keeps the duration and emits nothing |
| Timer.SetCountdown | app/src/main/java/com/example/androiddevchallenge/Main.kt:51-56 | After `setCountdown(n)` the state is `Stopped`, duration and remaining time are both `n`, the referenced timer is no longer pending, orphaned timers are untouched, and no event is emitted (the inner stop is manual) |
| Timer.StartTimer | app/src/main/java/com/example/androiddevchallenge/Main.kt:64-77 | A used-up countdown (≤ 0) is refilled from the duration, otherwise the remaining time is kept. If that time is positive, the view model enters `Running` with a timer pending and emits nothing. If it is not, the new timer finishes inside `start()`, so the view model rests at `Stopped` with 0 ms and emits the duration. A timer still pending becomes an orphan either way. The duration is unchanged |
| Timer.PauseTimer | app/src/main/java/com/example/androiddevchallenge/Main.kt:84-87 | Pausing rests at `Stopped` with the referenced timer no longer pending; orphaned timers are untouched, and duration, remaining time and events are unchanged |
| Timer.EnterEditMode | app/src/main/java/com/example/androiddevchallenge/Main.kt:89-91 | Entering edit mode changes only the state, to `Edit`, in every state including `Running` |
| Timer.ExitEditMode | app/src/main/java/com/example/androiddevchallenge/Main.kt:93-95 | Leaving edit mode changes only the state, to `Stopped` |
| Timer.Expire | app/src/main/java/com/example/androiddevchallenge/Main.kt:70-71 | Natural expiry is possible only while a timer is pending; it rests at `Stopped` with 0 ms left and appends exactly one event, equal to the current duration |
| Timer.ExpireOrphan | app/src/main/java/com/example/androiddevchallenge/Main.kt:70-76 | An orphaned timer's expiry also rests the view model and emits the duration, yet leaves the referenced timer pending |
| Timer.Apply | app/src/main/java/com/example/androiddevchallenge/Main.kt:51-95 | The only public method that can emit an event is `startTimer` on a used-up countdown with a duration ≤ 0, which emits that duration once; with a positive duration no public method emits; only `setCountdown` changes the duration; only `startTimer` over a pending timer orphans one; a timer is pending afterwards only after a start or an edit-mode switch made while one was pending |
| Timer.PauseIdempotent | app/src/main/java/com/example/androiddevchallenge/Main.kt:84-87 | Pausing twice gives the same state as pausing once |
| Timer.ExpireIsStopThenAnnounce | app/src/main/java/com/example/androiddevchallenge/Main.kt:58-82 | Natural expiry equals a manual stop plus one emitted duration |
| Timer.SetCountdownLastWins | app/src/main/java/com/example/androiddevchallenge/Main.kt:51-56 | Two `setCountdown` calls in a row have the effect of the second alone |
| Timer.EditModeRoundTrip | app/src/main/java/com/example/androiddevchallenge/Main.kt:89-95 | Entering then leaving edit mode from `Stopped`, or leaving then re-entering from `Edit`, restores the view model exactly |
| Timer.PauseUndoesStart | app/src/main/java/com/example/androiddevchallenge/Main.kt:64-87 | Starting a resting countdown that has time left and then pausing it restores the view model exactly, because ticks never write back the elapsed time |
| Timer.RemainingWithinDuration | app/src/main/java/com/example/androiddevchallenge/Main.kt:51-87 | With non-negative countdowns, every method and every expiry keeps `0 ≤ msRemaining ≤ duration` |
| Timer.UnguardedControllerMisbehaves | app/src/main/java/com/example/androiddevchallenge/Main.kt:64-91 | Called directly, the view model can enter `Edit` with a timer pending, and a second start orphans the first timer |
| Timer.OrphanOutlivesCancel | app/src/main/java/com/example/androiddevchallenge/Main.kt:64-87 | After two starts, a pause, a stop or a `setCountdown` still leaves the orphaned timer pending, and its expiry after a pause emits the duration |
| Timer.ZeroCountdownFinishesAtOnce | app/src/main/java/com/example/androiddevchallenge/Main.kt:64-76 | `setCountdown(0)` then `startTimer` ends at `Stopped` with nothing pending and one event, 0 |
| Timer.PauseAfterStartKeepsFullCountdown | app/src/main/java/com/example/androiddevchallenge/Main.kt:73-75 | Setting 10 s, starting and pausing leaves 10000 ms remaining and no event |
| Decimal.Digits | app/src/main/java/com/example/androiddevchallenge/MainActivity.kt:288 | The decimal digits of a number are non-empty and canonical: "0" for zero, no leading zero otherwise |
| Decimal.ValueOfDigits | app/src/main/java/com/example/androiddevchallenge/MainActivity.kt:288 | Reading back the digits of `n` gives `n` |
| Decimal.DigitsOfValue | app/src/main/java/com/example/androiddevchallenge/MainActivity.kt:288 | Writing out the value of a canonical digit string gives back that string |
| Decimal.IntToString | app/src/main/java/com/example/androiddevchallenge/MainActivity.kt:288 | The text starts with a minus sign exactly when the integer is negative; the rest is one or more digits with no leading zero whose value is the magnitude |
| Decimal.IntToStringInjective | app/src/main/java/com/example/androiddevchallenge/MainActivity.kt:288 | Distinct integers render as distinct strings, so the text determines the number |
| Decimal.ZeroPad | app/src/main/java/com/example/androiddevchallenge/MainActivity.kt:288 | Zero-padding reaches the field width (or keeps a longer string), yields only digits, and does not change the value |
| Decimal.Format03 | app/src/main/java/com/example/androiddevchallenge/MainActivity.kt:288 | `"%03d"` writes at least three characters: a minus sign exactly for negatives, then digits (zero-filled) whose value is the magnitude; zeros are added only up to width three, so a longer result is the shortest rendering |
| Decimal.ShortestIsUnique | app/src/main/java/com/example/androiddevchallenge/MainActivity.kt:288 | An integer has exactly one rendering with a sign exactly for negatives and digits without leading zero, so the contracts stated this way fix the text character by character |
| Decimal.Format03IsThreeDigits | app/src/main/java/com/example/androiddevchallenge/MainActivity.kt:288 | `"%03d"` renders every count from 0 to 999 as exactly three digits that read back as that count |
| Decimal.Quot1000 | app/src/main/java/com/example/androiddevchallenge/MainActivity.kt:285 | Kotlin's `/ 1000` gives the multiple of 1000 closest to the dividend on the side of zero |
| Screen.PresetCountdown | app/src/main/java/com/example/androiddevchallenge/MainActivity.kt:219 | A preset of `p` seconds installs a count that the dialog's `/ 1000` turns back into `p`, and that is positive for a positive `p` |
| Screen.PresetRowVisibility | app/src/main/java/com/example/androiddevchallenge/MainActivity.kt:156-193 | The preset row is shown exactly in `Edit`: the selections are hidden while `Running`, and the presets inside them are shown only in edit mode |
| Screen.Dispatch | app/src/main/java/com/example/androiddevchallenge/MainActivity.kt:211-239 | On the settled screen: while `Running` only the start/pause button works, and it pauses; in `Edit` a tap can only leave edit mode or install a preset; in `Stopped` it can only enter edit mode or start; a preset tap installs a preset countdown; no tap ever calls `stopTimer` directly |
| Screen.EditToggleDispatch | app/src/main/java/com/example/androiddevchallenge/MainActivity.kt:230-239 | The edit toggle works exactly when not `Running`; it leaves edit mode from `Edit` and enters it from `Stopped` |
| Screen.StartPauseDispatch | app/src/main/java/com/example/androiddevchallenge/MainActivity.kt:308-315 | The start/pause button works exactly outside `Edit`; it pauses a running countdown and starts a resting one |
| Screen.PresetDispatch | app/src/main/java/com/example/androiddevchallenge/MainActivity.kt:211-219 | On the settled screen a preset tap does something exactly in `Edit` (its row is hidden while running and outside edit mode), and there it calls `setCountdown` with the preset's seconds times 1000 |
| Screen.PresetCountdownsAre | app/src/main/java/com/example/androiddevchallenge/MainActivity.kt:211-219 | The presets install exactly 5000, 30000, 60000 or 100000 ms |
| Screen.SplitMs | app/src/main/java/com/example/androiddevchallenge/MainActivity.kt:284-286 | The whole seconds times 1000 plus the leftover milliseconds give back the count; for a non-negative count the leftover lies in 0..999 |
| Screen.DialText | app/src/main/java/com/example/androiddevchallenge/MainActivity.kt:284-288 | For a non-negative count, the dial text is the whole seconds rendered as by `toString` (sign only for negatives, no leading zero), a dot, then three digits whose value is the milliseconds left over |
| Screen.DialTextRoundTrip | app/src/main/java/com/example/androiddevchallenge/MainActivity.kt:284-288 | For every non-negative count the dial shows seconds, a dot and exactly three digits, and that text reads back as the exact count |
| Screen.DialogMessage | app/src/main/java/com/example/androiddevchallenge/MainActivity.kt:94 | The message is "Duration: ", then the duration divided by 1000 (truncated) rendered as by `toString` (sign only for negatives, no leading zero), then " seconds" |
| Screen.DialogReportsPreset | app/src/main/java/com/example/androiddevchallenge/MainActivity.kt:91-94 | The dialog for a preset's duration says "Duration: N seconds" with N the number on the preset's button |
| Session.Step | app/src/main/java/com/example/androiddevchallenge/Main.kt:70-71 | An expiry can happen only while a timer of that kind is pending, and it emits exactly the current duration; a late preset tap exists only for the four preset numbers and always leaves the view model at rest with the referenced timer no longer pending (orphaned timers are untouched); with a positive duration no tap emits |
| Session.InitialSatisfiesScreenInvariant | app/src/main/java/com/example/androiddevchallenge/Main.kt:43-46 | The initial view model satisfies the invariant the screen maintains |
| Session.StepKeepsScreenInvariant | app/src/main/java/com/example/androiddevchallenge/MainActivity.kt:226-239 | Every tap routed through the button guards, every late preset tap, and every expiry keeps the invariant: no orphans, a timer pending exactly while `Running`, duration the default or a preset, remaining time 0 or the full duration (full while `Running`), every event the default or a preset |
| Session.PresetAnywhereKeepsScreenInvariant | app/src/main/java/com/example/androiddevchallenge/MainActivity.kt:192-219 | A preset tap keeps the invariant in any state, which is why a tap on a preset still sliding out of view is harmless |
| Session.RunKeepsScreenInvariant | app/src/main/java/com/example/androiddevchallenge/MainActivity.kt:226-315 | Any sequence of taps and expiries keeps the invariant |
| Session.PendingOnlyWhileRunning | app/src/main/java/com/example/androiddevchallenge/MainActivity.kt:230-238 | From start-up, under any taps and expiries, a pending timer implies `Running`; `Edit` is never entered while a timer is pending; no timer is ever orphaned |
| Session.CountdownAlwaysRunsFullDuration | app/src/main/java/com/example/androiddevchallenge/Main.kt:64-70 | From start-up, whenever a countdown runs its timer was started for the whole duration |
| Session.StepKeepsDurationPositive | app/src/main/java/com/example/androiddevchallenge/MainActivity.kt:211-219 | From a positive duration, every step leaves a positive duration, because the screen installs only presets |
| Session.OneEventPerExpiry | app/src/main/java/com/example/androiddevchallenge/Main.kt:58-62 | From any view model with a positive duration, the event stream only grows, and it grows by exactly as many entries as there were expiries |
| Session.DialogIsExact | app/src/main/java/com/example/androiddevchallenge/MainActivity.kt:86-94 | Every emitted duration is a whole number of seconds (5, 10, 30, 60 or 100), so the dialog's `duration / 1000` loses nothing |
| Session.FiveSecondPresetScenario | app/src/main/java/com/example/androiddevchallenge/MainActivity.kt:211-219 | Edit, the 5 s preset, start, then expiry: one event 5000, 0 ms left, `Stopped` |

## Left out

- Real-time behaviour of the platform timer is not modelled. This covers tick
  cadence, elapsed wall-clock time, and the placeholder timer built in the
  constructor, which is never started. Expiry is an abstract step that is
  enabled only while a timer is pending.
- The tick callback of a started timer writes nothing, so it has no step.
- `CountDownTimer` is platform code and is not part of this model. The model
  relies on two of its behaviours: `cancel()` stops any further callback,
  and `start()` with a length of 0 ms or less calls `onFinish` before it
  returns.
- Decimal.Format03, Decimal.Format03IsThreeDigits, Screen.DialText, Screen.DialTextRoundTrip: a locale whose zero digit is `'0'` is assumed. `"%03d".format` writes the digits of the default locale (for example Persian digits), while `"$seconds"` always writes ASCII digits. Under such a locale the milliseconds part differs from the model and the read-back does not apply.
- Late preset taps: time is not modelled, so a late preset tap is allowed in every state rather than only within 300 ms of the row starting to hide. This over-approximates the inputs, so every invariant over runs still covers all the taps the screen accepts.
- Event delivery (`EventEmitter`, `observe`, lifecycle) is not modelled. The
  stream is an append-only sequence.
- Compose rendering, animation, colours, theming, previews and building the
  `AlertDialog` are not modelled. Only the dialog's message text is. The
  dial's remaining time `(value * duration).toInt()` is a float computation.
  `DialText` takes it as an integer input instead.
- Kotlin's 32-bit `Int` is modelled as an unbounded integer. No arithmetic in
  the model can overflow on the values the screen produces: presets are at
  most 100000 ms, and splitting a count never exceeds that count.
- Platform callbacks and taps are interleaved one at a time. No concurrency
  inside a step is modelled.
