/** The running app: one controller driven only through the screen's buttons
    and by the platform's timer expiries. The controller on its own can reach
    bad states (see `Timer.UnguardedControllerMisbehaves`); this module proves
    that the button guards keep the whole system out of them. */
module Session {
  import opened Wrappers
  import opened Timer
  import opened Screen
  import Decimal

  /** What can happen next: the user taps a button, the user taps a preset
      while its row is still sliding out of view, the referenced timer runs
      out, or an orphaned timer runs out.

      The preset buttons carry no `enabled` flag: they are only hidden, and
      hiding animates them out over 300 ms, during which they still take taps.
      `Tap` is the settled screen, `LatePreset` such a late tap. Since the
      model does not track time, a late tap may happen in any state. */
  datatype Input = Tap(button: Button) | LatePreset(seconds: int) | Finish | FinishOrphan

  /** Whether an input is the platform announcing an expiry. */
  predicate IsExpiry(i: Input)
  {
    i.Finish? || i.FinishOrphan?
  }

  /** One step of the app; `None` when the input cannot happen: no timer of
      that kind is pending, or there is no preset button with that number. A
      tap on a disabled or hidden button leaves everything as it was. */
  function Step(c: Controller, i: Input): (r: Option<Controller>)
    ensures r.None? <==> || (i.Finish? && !c.armed)
                         || (i.FinishOrphan? && c.orphans == 0)
                         || (i.LatePreset? && i.seconds !in PresetSeconds)
    ensures r.Some? && IsExpiry(i) ==> r.value.events == c.events + [c.duration]
    ensures r.Some? && !IsExpiry(i) && c.duration > 0 ==> r.value.events == c.events
    ensures r.Some? && i.LatePreset? ==> r.value.timerState == Stopped && !r.value.armed
  {
    match i
    case Tap(b) =>
      (match Dispatch(c.timerState, b)
       case None => Some(c)
       case Some(call) => Some(Apply(c, call)))
    case LatePreset(p) =>
      if p in PresetSeconds then Some(Apply(c, Set(PresetCountdown(p)))) else None
    case Finish => if c.armed then Some(Expire(c)) else None
    case FinishOrphan => if c.orphans > 0 then Some(ExpireOrphan(c)) else None
  }

  /** Running a sequence of inputs from `c`; `None` if some input cannot happen. */
  function Run(c: Controller, t: seq<Input>): Option<Controller>
    decreases |t|
  {
    if |t| == 0 then Some(c)
    else match Step(c, t[0])
      case None => None
      case Some(next) => Run(next, t[1..])
  }

  /** How many timer expiries a sequence of inputs contains. */
  function Expiries(t: seq<Input>): nat
  {
    if |t| == 0 then 0 else (if IsExpiry(t[0]) then 1 else 0) + Expiries(t[1..])
  }

  /** Every duration the controller can hold when driven by the screen. */
  function ScreenDurations(): set<int>
  {
    PresetCountdowns() + {DefaultCountdown}
  }

  /** What the screen guarantees about the controller:
      - no timer is ever orphaned;
      - a timer is pending exactly while the state is `Running`;
      - the duration is the default or a preset;
      - the remaining time is either used up or the full duration, and it is
        the full duration whenever a countdown runs;
      - every announced duration is the default or a preset. */
  ghost predicate ScreenInvariant(c: Controller)
  {
    && c.orphans == 0
    && (c.armed <==> c.timerState == Running)
    && c.duration in ScreenDurations()
    && (c.msRemaining == 0 || c.msRemaining == c.duration)
    && (c.timerState == Running ==> c.msRemaining == c.duration)
    && forall k :: 0 <= k < |c.events| ==> c.events[k] in ScreenDurations()
  }

  lemma InitialSatisfiesScreenInvariant()
    ensures ScreenInvariant(Initial())
  {
  }

  /** Every step the screen and the platform can take keeps the invariant. */
  lemma StepKeepsScreenInvariant(c: Controller, i: Input)
    requires ScreenInvariant(c)
    requires Step(c, i).Some?
    ensures ScreenInvariant(Step(c, i).value)
  {
  }

  /** A preset tap keeps the invariant in every state, not only in edit mode
      where the presets are settled on screen. */
  lemma PresetAnywhereKeepsScreenInvariant(c: Controller, p: int)
    requires ScreenInvariant(c)
    requires p in PresetSeconds
    ensures ScreenInvariant(Apply(c, Set(PresetCountdown(p))))
  {
  }

  lemma {:induction false} RunKeepsScreenInvariant(c: Controller, t: seq<Input>)
    requires ScreenInvariant(c)
    requires Run(c, t).Some?
    ensures ScreenInvariant(Run(c, t).value)
    decreases |t|
  {
    if |t| > 0 {
      StepKeepsScreenInvariant(c, t[0]);
      RunKeepsScreenInvariant(Step(c, t[0]).value, t[1..]);
    }
  }

  /** Whatever the user taps and whenever timers run out, a pending timer
      means the countdown is running; in particular edit mode is never entered
      while a timer is pending, and no timer is ever orphaned. */
  lemma PendingOnlyWhileRunning(t: seq<Input>)
    requires Run(Initial(), t).Some?
    ensures Run(Initial(), t).value.armed ==> Run(Initial(), t).value.timerState == Running
    ensures !(Run(Initial(), t).value.timerState == Edit && Run(Initial(), t).value.armed)
    ensures Run(Initial(), t).value.orphans == 0
  {
    InitialSatisfiesScreenInvariant();
    RunKeepsScreenInvariant(Initial(), t);
  }

  /** The platform timer is always started for the full duration, so the
      animated dial, which sweeps over the duration, and the expiry agree. */
  lemma CountdownAlwaysRunsFullDuration(t: seq<Input>)
    requires Run(Initial(), t).Some?
    requires Run(Initial(), t).value.timerState == Running
    ensures Run(Initial(), t).value.msRemaining == Run(Initial(), t).value.duration
  {
    InitialSatisfiesScreenInvariant();
    RunKeepsScreenInvariant(Initial(), t);
  }

  /** The screen only ever installs positive durations. */
  lemma StepKeepsDurationPositive(c: Controller, i: Input)
    requires c.duration > 0
    requires Step(c, i).Some?
    ensures Step(c, i).value.duration > 0
  {
  }

  /** The event log only grows, by exactly one entry per timer expiry; taps,
      stops, pauses and new countdowns announce nothing. This needs a positive
      duration, which the screen keeps: starting a countdown of no length
      announces at once (`Timer.ZeroCountdownFinishesAtOnce`). */
  lemma {:induction false} OneEventPerExpiry(c: Controller, t: seq<Input>)
    requires c.duration > 0
    requires Run(c, t).Some?
    ensures |Run(c, t).value.events| == |c.events| + Expiries(t)
    ensures Run(c, t).value.events[..|c.events|] == c.events
    decreases |t|
  {
    if |t| > 0 {
      var next := Step(c, t[0]).value;
      StepKeepsDurationPositive(c, t[0]);
      OneEventPerExpiry(next, t[1..]);
      assert next.events[..|c.events|] == c.events;
    }
  }

  /** Every "Times Up" dialog the app can show reports a whole number of
      seconds that loses nothing of the duration that elapsed. */
  lemma DialogIsExact(t: seq<Input>, k: int)
    requires Run(Initial(), t).Some?
    requires 0 <= k < |Run(Initial(), t).value.events|
    ensures Decimal.Quot1000(Run(Initial(), t).value.events[k]) * 1000
            == Run(Initial(), t).value.events[k]
    ensures Decimal.Quot1000(Run(Initial(), t).value.events[k]) in {5, 10, 30, 60, 100}
  {
    InitialSatisfiesScreenInvariant();
    RunKeepsScreenInvariant(Initial(), t);
    PresetCountdownsAre();
  }

  /** Picking the 5 s preset, starting, and letting the timer run out
      announces 5000 once and leaves the countdown used up. */
  lemma FiveSecondPresetScenario()
    ensures Run(Initial(), [Tap(EditToggle), Tap(Preset(5)), Tap(StartPause), Finish])
            == Some(Controller(Stopped, 5000, 0, false, 0, [5000]))
  {
    var t := [Tap(EditToggle), Tap(Preset(5)), Tap(StartPause), Finish];
    var c1 := EnterEditMode(Initial());
    var c2 := SetCountdown(c1, 5000);
    var c3 := StartTimer(c2);
    assert Run(c3, [Finish]) == Run(Expire(c3), []);
    assert Run(c2, t[2..]) == Run(c3, [Finish]);
    assert Run(c1, t[1..]) == Run(c2, t[2..]);
    assert Run(Initial(), t) == Run(c1, t[1..]);
    assert Expire(c3).events == [5000];
  }
}
