/** The screen of MainActivity.kt, reduced to what decides behaviour: which
    controller method a button tap calls (or whether the button is disabled
    or hidden), the preset durations, the seconds/milliseconds text of the
    dial, and the text of the "Times Up" dialog. */
module Screen {
  import opened Wrappers
  import opened Timer
  import opened Decimal

  /** The preset buttons, in seconds, in the order they are shown. */
  const PresetSeconds: seq<int> := [5, 30, 60, 100]

  /** The buttons of the screen. A preset button is named by the number of
      seconds written on it. */
  datatype Button = EditToggle | StartPause | Preset(seconds: int)

  /** The countdown a preset button installs, in milliseconds. */
  function PresetCountdown(seconds: int): (ms: int)
    ensures Quot1000(ms) == seconds
    ensures seconds > 0 ==> ms > 0
  {
    seconds * 1000
  }

  /** Every countdown a preset button can install. */
  function PresetCountdowns(): set<int>
  {
    set p | p in PresetSeconds :: PresetCountdown(p)
  }

  /** The row of selections (presets and the edit toggle) is shown only while
      no countdown is running. */
  predicate SelectionsVisible(s: TimerState)
  {
    s != Running
  }

  /** Within that row, the presets slide in only in edit mode. */
  predicate PresetsVisible(s: TimerState)
  {
    SelectionsVisible(s) && s == Edit
  }

  /** The preset row is shown exactly in edit mode, and never while a
      countdown runs. */
  lemma PresetRowVisibility(s: TimerState)
    ensures PresetsVisible(s) <==> s == Edit
    ensures PresetsVisible(s) ==> SelectionsVisible(s)
    ensures s == Running ==> !SelectionsVisible(s) && !PresetsVisible(s)
  {
  }

  /** What tapping `b` calls on the controller in state `s` once the screen
      has settled; `None` when the button is disabled or hidden, or its
      handler calls nothing. A tap on a preset that is still sliding out of
      view is `Session.LatePreset`. */
  function Dispatch(s: TimerState, b: Button): (r: Option<Call>)
    ensures s == Running ==> (r.Some? <==> b == StartPause)
    ensures r.Some? && s == Running ==> r.value == Pause
    ensures r.Some? && s == Edit ==> r.value == ExitEdit || r.value.Set?
    ensures r.Some? && s == Stopped ==> r.value == EnterEdit || r.value == Start
    ensures r.Some? && r.value.Set? ==> r.value.countdown in PresetCountdowns()
    ensures r.Some? ==> !r.value.Stop?
  {
    match b
    case EditToggle =>
      if s == Running then None          // disabled while running
      else if s == Edit then Some(ExitEdit)
      else if s == Stopped then Some(EnterEdit)
      else None
    case StartPause =>
      if s == Edit then None             // disabled in edit mode
      else if s == Running then Some(Pause)
      else Some(Start)
    case Preset(p) =>
      if PresetsVisible(s) && p in PresetSeconds then Some(Set(PresetCountdown(p)))
      else None
  }

  /** The edit toggle is enabled exactly when no countdown is running, and
      then flips between edit mode and rest. */
  lemma EditToggleDispatch(s: TimerState)
    ensures Dispatch(s, EditToggle).Some? <==> s != Running
    ensures s == Edit ==> Dispatch(s, EditToggle) == Some(ExitEdit)
    ensures s == Stopped ==> Dispatch(s, EditToggle) == Some(EnterEdit)
  {
  }

  /** The start/pause button is enabled exactly outside edit mode, and then
      pauses a running countdown or starts a resting one. */
  lemma StartPauseDispatch(s: TimerState)
    ensures Dispatch(s, StartPause).Some? <==> s != Edit
    ensures s == Running ==> Dispatch(s, StartPause) == Some(Pause)
    ensures s == Stopped ==> Dispatch(s, StartPause) == Some(Start)
  {
  }

  /** On the settled screen a preset tap does something exactly in edit mode,
      and there it installs that many seconds. */
  lemma PresetDispatch(s: TimerState, p: int)
    requires p in PresetSeconds
    ensures Dispatch(s, Preset(p)).Some? <==> s == Edit
    ensures s == Edit ==> Dispatch(s, Preset(p)) == Some(Set(p * 1000))
  {
  }

  /** The presets are 5, 30, 60 and 100 seconds. */
  lemma PresetCountdownsAre()
    ensures PresetCountdowns() == {5000, 30000, 60000, 100000}
  {
    assert PresetCountdown(5) == 5000 && 5 in PresetSeconds;
    assert PresetCountdown(30) == 30000 && 30 in PresetSeconds;
    assert PresetCountdown(60) == 60000 && 60 in PresetSeconds;
    assert PresetCountdown(100) == 100000 && 100 in PresetSeconds;
  }

  /** Splitting a millisecond count into whole seconds and the milliseconds
      left over, with Kotlin's truncating division. */
  function SplitMs(ms: int): (r: (int, int))
    ensures r.0 * 1000 + r.1 == ms
    ensures ms >= 0 ==> r.0 >= 0 && 0 <= r.1 < 1000
    ensures ms < 0 ==> r.0 <= 0 && -1000 < r.1 <= 0
  {
    var seconds := Quot1000(ms);
    (seconds, ms - seconds * 1000)
  }

  /** The text in the middle of the dial: seconds, a dot, then the
      milliseconds formatted with `"%03d"`. */
  function DialText(ms: int): (t: string)
    ensures ms >= 0 ==> |t| >= 5 && t[|t| - 4] == '.'
    ensures ms >= 0 ==> Shortest(t[..|t| - 4], ms / 1000)
    ensures ms >= 0 ==> AllDigits(t[|t| - 3..]) && Value(t[|t| - 3..]) == ms % 1000
  {
    var (seconds, milliseconds) := SplitMs(ms);
    var t := IntToString(seconds) + "." + Format03(milliseconds);
    if ms >= 0 then
      Format03IsThreeDigits(milliseconds);
      assert t[..|t| - 4] == IntToString(seconds);
      assert t[|t| - 3..] == Format03(milliseconds);
      t
    else t
  }

  /** How a reader takes a dial text back to milliseconds: the digits before
      the dot are seconds, the three after it milliseconds. */
  function ReadDialText(t: string): Option<int>
  {
    if |t| >= 5 && t[|t| - 4] == '.' && AllDigits(t[..|t| - 4]) && AllDigits(t[|t| - 3..])
    then Some(Value(t[..|t| - 4]) * 1000 + Value(t[|t| - 3..]))
    else None
  }

  /** For every non-negative count the dial shows canonical seconds digits, a
      dot and exactly three digits, and nothing is lost: the text reads back
      as the count. */
  lemma DialTextRoundTrip(ms: int)
    requires ms >= 0
    ensures |DialText(ms)| >= 5
    ensures ReadDialText(DialText(ms)) == Some(ms)
  {
  }

  /** The message of the "Times Up" dialog for an emitted duration. */
  function DialogMessage(duration: int): (m: string)
    ensures |m| > 18 && m[..10] == "Duration: " && m[|m| - 8..] == " seconds"
    ensures Shortest(m[10..|m| - 8], Quot1000(duration))
  {
    var n := IntToString(Quot1000(duration));
    var m := "Duration: " + n + " seconds";
    assert m[10..|m| - 8] == n;
    m
  }

  /** The dialog for a preset countdown reports the number written on the
      preset's button. */
  lemma DialogReportsPreset(p: int)
    requires p in PresetSeconds
    ensures DialogMessage(PresetCountdown(p)) == "Duration: " + Digits(p) + " seconds"
  {
  }
}
