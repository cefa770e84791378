/** The countdown controller (the view model of Main.kt): a three-state
    machine over the configured duration and the remaining time, together
    with the stream of "finished" events it emits.

    Every public method is a pure transition on an immutable `Controller`.
    The platform countdown primitive is abstracted away: a started timer is
    represented only by the fact that its expiry is pending, and its expiry is
    a separate step (`Expire`, `ExpireOrphan`) that the environment may take
    while such a timer exists. The tick callback of a started timer writes
    nothing, so it has no step. */
module Timer {

  /** The duration, in milliseconds, that a fresh controller holds and that
      `setCountdown` uses when called without an argument. */
  const DefaultCountdown: int := 10000

  datatype TimerState = Edit | Stopped | Running

  /** The state of one controller.
      - `armed`: the timer the controller currently refers to has been started
        and has neither been cancelled nor finished, so its expiry is pending.
      - `orphans`: started timers the controller no longer refers to, because a
        later `StartTimer` replaced the reference without cancelling them;
        nothing can cancel them any more, and each still expires once.
      - `events`: every value emitted on the finished-event stream, oldest first. */
  datatype Controller = Controller(
    timerState: TimerState,
    duration: int,
    msRemaining: int,
    armed: bool,
    orphans: nat,
    events: seq<int>)

  /** The public methods of the controller, as a caller names them. */
  datatype Call =
    | Set(countdown: int)
    | Start
    | Stop
    | Pause
    | EnterEdit
    | ExitEdit

  /** A freshly constructed controller. The timer built in the constructor is
      never started, so nothing is pending. */
  function Initial(): (c: Controller)
    ensures c.timerState == Stopped
    ensures c.duration == DefaultCountdown && c.msRemaining == c.duration
    ensures !c.armed && c.orphans == 0 && c.events == []
  {
    Controller(Stopped, DefaultCountdown, DefaultCountdown, false, 0, [])
  }

  /** Cancelling the referenced timer: its expiry is no longer pending. */
  function Cancel(c: Controller): (r: Controller)
    ensures !r.armed
    ensures r.timerState == c.timerState && r.duration == c.duration
    ensures r.msRemaining == c.msRemaining && r.orphans == c.orphans && r.events == c.events
  {
    c.(armed := false)
  }

  /** The finalize path shared by a manual stop and a natural expiry: the
      controller comes to rest at zero, and only a natural expiry announces
      the duration that elapsed. */
  function OnTimerFinished(c: Controller, stoppedManually: bool): (r: Controller)
    ensures r.timerState == Stopped && r.msRemaining == 0
    ensures r.duration == c.duration && r.armed == c.armed && r.orphans == c.orphans
    ensures stoppedManually ==> r.events == c.events
    ensures !stoppedManually ==> r.events == c.events + [c.duration]
  {
    var rest := c.(timerState := Stopped, msRemaining := 0);
    if stoppedManually then rest else rest.(events := rest.events + [rest.duration])
  }

  /** `stopTimer`: cancel the referenced timer and finalize silently. */
  function StopTimer(c: Controller): (r: Controller)
    ensures r.timerState == Stopped && r.msRemaining == 0 && !r.armed
    ensures r.duration == c.duration && r.orphans == c.orphans && r.events == c.events
  {
    OnTimerFinished(Cancel(c), true)
  }

  /** `setCountdown`: stop, then install `countdown` as both the duration and
      the remaining time. */
  function SetCountdown(c: Controller, countdown: int := DefaultCountdown): (r: Controller)
    ensures r.timerState == Stopped && !r.armed
    ensures r.duration == countdown && r.msRemaining == countdown
    ensures r.orphans == c.orphans && r.events == c.events
  {
    var stopped := StopTimer(c);
    stopped.(duration := countdown, msRemaining := countdown, timerState := Stopped)
  }

  /** `startTimer`: refill an exhausted countdown from the duration, enter
      `Running` and start a new platform timer for the remaining time. The
      reference to a timer that is still pending is overwritten without
      cancelling it. A platform timer asked to run for no time at all
      (`CountDownTimer.start()` with a length of 0 ms or less) calls its
      `onFinish` before `start()` returns, so such a start ends at rest, with
      the duration announced. */
  function StartTimer(c: Controller): (r: Controller)
    ensures var left := if c.msRemaining <= 0 then c.duration else c.msRemaining;
      && (left > 0 ==> r.timerState == Running && r.armed && r.msRemaining == left
                       && r.events == c.events)
      && (left <= 0 ==> r.timerState == Stopped && !r.armed && r.msRemaining == 0
                        && r.events == c.events + [c.duration])
    ensures c.armed ==> r.orphans == c.orphans + 1
    ensures !c.armed ==> r.orphans == c.orphans
    ensures r.duration == c.duration
  {
    var refilled := if c.msRemaining <= 0 then c.(msRemaining := c.duration) else c;
    var orphans := if c.armed then c.orphans + 1 else c.orphans;
    var started := refilled.(timerState := Running, armed := true, orphans := orphans);
    if started.msRemaining <= 0 then OnTimerFinished(started.(armed := false), false)
    else started
  }

  /** `pauseTimer`: cancel the referenced timer and rest, keeping the
      remaining time that `StartTimer` installed. */
  function PauseTimer(c: Controller): (r: Controller)
    ensures r.timerState == Stopped && !r.armed
    ensures r.duration == c.duration && r.msRemaining == c.msRemaining
    ensures r.orphans == c.orphans && r.events == c.events
  {
    Cancel(c).(timerState := Stopped)
  }

  /** `enterEditMode`, unguarded: callable in every state, even `Running`. */
  function EnterEditMode(c: Controller): (r: Controller)
    ensures r.timerState == Edit
    ensures r.duration == c.duration && r.msRemaining == c.msRemaining
    ensures r.armed == c.armed && r.orphans == c.orphans && r.events == c.events
  {
    c.(timerState := Edit)
  }

  /** `exitEditMode`, unguarded. */
  function ExitEditMode(c: Controller): (r: Controller)
    ensures r.timerState == Stopped
    ensures r.duration == c.duration && r.msRemaining == c.msRemaining
    ensures r.armed == c.armed && r.orphans == c.orphans && r.events == c.events
  {
    c.(timerState := Stopped)
  }

  /** The referenced timer runs out (its `onFinish`): it is no longer pending,
      and the controller finalizes with an announcement. */
  function Expire(c: Controller): (r: Controller)
    requires c.armed
    ensures r.timerState == Stopped && r.msRemaining == 0 && !r.armed
    ensures r.duration == c.duration && r.orphans == c.orphans
    ensures r.events == c.events + [c.duration]
  {
    OnTimerFinished(c.(armed := false), false)
  }

  /** An orphaned timer runs out: it calls the same `onFinish` of the same
      controller, so the controller finalizes and announces, while the timer it
      currently refers to stays pending. */
  function ExpireOrphan(c: Controller): (r: Controller)
    requires c.orphans > 0
    ensures r.timerState == Stopped && r.msRemaining == 0 && r.armed == c.armed
    ensures r.orphans == c.orphans - 1 && r.duration == c.duration
    ensures r.events == c.events + [c.duration]
  {
    OnTimerFinished(c.(orphans := c.orphans - 1), false)
  }

  /** Calling a public method. Only `setCountdown` writes the duration, and
      the only public method that can emit an event is `startTimer` on an
      exhausted countdown whose duration is not positive. */
  function Apply(c: Controller, call: Call): (r: Controller)
    ensures r.events == c.events
            || (call.Start? && c.msRemaining <= 0 && c.duration <= 0
                && r.events == c.events + [c.duration])
    ensures c.duration > 0 ==> r.events == c.events
    ensures r.duration != c.duration ==> call.Set?
    ensures r.orphans != c.orphans ==> call.Start? && c.armed
    ensures r.armed ==> call.Start? || (c.armed && (call.EnterEdit? || call.ExitEdit?))
  {
    match call
    case Set(countdown) => SetCountdown(c, countdown)
    case Start => StartTimer(c)
    case Stop => StopTimer(c)
    case Pause => PauseTimer(c)
    case EnterEdit => EnterEditMode(c)
    case ExitEdit => ExitEditMode(c)
  }

  /** Pausing twice is pausing once. */
  lemma PauseIdempotent(c: Controller)
    ensures PauseTimer(PauseTimer(c)) == PauseTimer(c)
  {
  }

  /** A natural expiry is a silent stop followed by one announcement of the
      duration that elapsed. */
  lemma ExpireIsStopThenAnnounce(c: Controller)
    requires c.armed
    ensures Expire(c) == StopTimer(c).(events := c.events + [c.duration])
  {
  }

  /** Only the last `setCountdown` matters. */
  lemma SetCountdownLastWins(c: Controller, first: int, second: int)
    ensures SetCountdown(SetCountdown(c, first), second) == SetCountdown(c, second)
  {
  }

  /** Entering and leaving edit mode are inverse to each other. */
  lemma EditModeRoundTrip(c: Controller)
    ensures c.timerState == Stopped ==> ExitEditMode(EnterEditMode(c)) == c
    ensures c.timerState == Edit ==> EnterEditMode(ExitEditMode(c)) == c
  {
  }

  /** Starting a resting countdown that still has time left, then pausing it,
      restores the controller exactly: since the tick callback writes nothing,
      a pause keeps the remaining time `StartTimer` installed. */
  lemma PauseUndoesStart(c: Controller)
    requires c.timerState == Stopped && !c.armed && c.msRemaining > 0
    ensures PauseTimer(StartTimer(c)) == c
  {
  }

  /** With non-negative countdowns, the remaining time never leaves the range
      from zero to the duration, whatever is called and whenever a timer
      expires. */
  lemma RemainingWithinDuration(c: Controller, call: Call)
    requires 0 <= c.msRemaining <= c.duration
    requires call.Set? ==> call.countdown >= 0
    ensures 0 <= Apply(c, call).msRemaining <= Apply(c, call).duration
    ensures c.armed ==> 0 <= Expire(c).msRemaining <= Expire(c).duration
    ensures c.orphans > 0 ==> 0 <= ExpireOrphan(c).msRemaining <= ExpireOrphan(c).duration
  {
  }

  /** The controller on its own lets edit mode be entered while a countdown is
      pending, and lets a second start orphan the first timer. */
  lemma UnguardedControllerMisbehaves()
    ensures EnterEditMode(StartTimer(Initial())).timerState == Edit
    ensures EnterEditMode(StartTimer(Initial())).armed
    ensures StartTimer(StartTimer(Initial())).orphans == 1
  {
  }

  /** Stopping, pausing or setting a countdown cancels only the referenced
      timer: a timer orphaned by a second start still runs out afterwards and
      announces the duration, even though the controller was paused. */
  lemma OrphanOutlivesCancel()
    ensures PauseTimer(StartTimer(StartTimer(Initial()))).orphans == 1
    ensures StopTimer(StartTimer(StartTimer(Initial()))).orphans == 1
    ensures SetCountdown(StartTimer(StartTimer(Initial())), 5000).orphans == 1
    ensures ExpireOrphan(PauseTimer(StartTimer(StartTimer(Initial())))).events == [DefaultCountdown]
  {
  }

  /** Starting a zero-length countdown finishes it at once: the controller
      ends at rest, nothing is pending, and 0 is announced. */
  lemma ZeroCountdownFinishesAtOnce()
    ensures StartTimer(SetCountdown(Initial(), 0))
            == Controller(Stopped, 0, 0, false, 0, [0])
  {
  }

  /** Setting 10 s, starting and pausing leaves all 10 s on the controller:
      the elapsed time is never written back. */
  lemma PauseAfterStartKeepsFullCountdown()
    ensures PauseTimer(StartTimer(SetCountdown(Initial(), 10000))).msRemaining == 10000
    ensures PauseTimer(StartTimer(SetCountdown(Initial(), 10000))).events == []
  {
  }
}
