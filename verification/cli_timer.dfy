/**
 * The decisions `sw_cli/core/timer.py` makes around its D-Bus calls to
 * systemd: what `toggle` calls, what `time_left` says, and the wording of
 * a number of seconds.  Each D-Bus answer is a parameter.
 */
module CliTimer {
  import opened Base
  import opened PyStr
  import Durations

  datatype TimerError =
    | DBusConnectionError
    | TimerNotFoundError
    | TimerStatusError
    | TimerUptimeReadError
    | TimerPropertyError
    | TimerToggleError

  /** What systemd answers: the `is_active` query, and whether enabling and disabling go through. */
  datatype Bus = Bus(activeQuery: Result<bool, TimerError>, enableOk: bool, disableOk: bool)

  const EnabledMessage: string := "Timer enabled"
  const DisabledMessage: string := "Timer disabled"

  /** `enable()`: enable and start the unit; any D-Bus failure is `TimerStatusError`. */
  function Enable(bus: Bus): (r: Result<string, TimerError>)
    ensures r.Ok? <==> bus.enableOk
    ensures r.Ok? ==> r.value == EnabledMessage
    ensures r.Err? ==> r.error == TimerStatusError
  {
    if bus.enableOk then Ok(EnabledMessage) else Err(TimerStatusError)
  }

  /** `disable()`: stop and disable the unit; any D-Bus failure is `TimerStatusError`. */
  function Disable(bus: Bus): (r: Result<string, TimerError>)
    ensures r.Ok? <==> bus.disableOk
    ensures r.Ok? ==> r.value == DisabledMessage
    ensures r.Err? ==> r.error == TimerStatusError
  {
    if bus.disableOk then Ok(DisabledMessage) else Err(TimerStatusError)
  }

  /** `toggle()`: disable an active timer, enable any other; every failure becomes `TimerToggleError`. */
  function Toggle(bus: Bus): (r: Result<string, TimerError>)
    ensures r.Err? ==> r.error == TimerToggleError
    ensures r.Ok? <==> bus.activeQuery.Ok? && (if bus.activeQuery.value then bus.disableOk else bus.enableOk)
    ensures r.Ok? ==> (r.value == DisabledMessage <==> bus.activeQuery == Ok(true))
    ensures r.Ok? ==> (r.value == EnabledMessage <==> bus.activeQuery == Ok(false))
  {
    var step := if bus.activeQuery.Err? then Err(bus.activeQuery.error)
                else if bus.activeQuery.value then Disable(bus)
                else Enable(bus);
    if step.Err? then Err(TimerToggleError) else step
  }

  /** Whether the unit is running, as systemd keeps it. */
  datatype TimerUnit = TimerUnit(active: bool)

  /** The unit after the call `toggle` reported. */
  function AfterToggle(message: string, unit: TimerUnit): TimerUnit {
    if message == DisabledMessage then TimerUnit(false)
    else if message == EnabledMessage then TimerUnit(true)
    else unit
  }

  /** A bus that reports the unit as it is and lets every call through. */
  function Honest(unit: TimerUnit): Bus {
    Bus(Ok(unit.active), true, true)
  }

  /** Toggling a timer whose state is reported truly flips it, so toggling twice restores it. */
  lemma ToggleFlips(unit: TimerUnit)
    ensures Toggle(Honest(unit)).Ok?
    ensures AfterToggle(Toggle(Honest(unit)).value, unit).active == !unit.active
    ensures var once := AfterToggle(Toggle(Honest(unit)).value, unit);
            AfterToggle(Toggle(Honest(once)).value, once) == unit
  {
  }

  const NotActiveMessage: string := "Timer is not active"
  const ExpiredMessage: string := "Timer expired recently"
  const InvalidTime: string := "Invalid time"

  /** `_prettify_time(seconds)`. */
  function PrettifyTime(seconds: int): (r: string)
    ensures seconds < 0 <==> r == InvalidTime
    ensures r == "a moment" <==> seconds == 0
  {
    if seconds < 0 then InvalidTime
    else
      Durations.ReadSpell(seconds);
      Durations.ReadInvalidTime();
      Durations.Spell(seconds)
  }

  /** A wording of a non-negative time reads back as that time. */
  lemma PrettifyTimeRead(seconds: int)
    requires seconds >= 0
    ensures Durations.Read(PrettifyTime(seconds)) == Some(seconds)
  {
    Durations.ReadSpell(seconds);
  }

  /**
   * `time_left()` from the timer's next elapse (`None` when D-Bus fails)
   * and the monotonic clock, both in microseconds.
   */
  function TimeLeft(nextElapse: Option<int>, nowUsec: int): (r: Result<string, TimerError>)
    ensures r.Err? <==> nextElapse.None?
    ensures r.Err? ==> r.error == TimerStatusError
  {
    if nextElapse.None? then Err(TimerStatusError)
    else if nextElapse.value == 0 then Ok(NotActiveMessage)
    else
      var remaining := nextElapse.value - nowUsec;
      if remaining < 0 then Ok(ExpiredMessage)
      else Ok(PrettifyTime(remaining / 1_000_000))
  }

  /**
   * The three answers cannot be mistaken for one another: "not active"
   * exactly when no elapse is scheduled, "expired" exactly when it lies in
   * the past, and otherwise a wording of the time left.
   */
  lemma TimeLeftCases(next: int, nowUsec: int)
    ensures var r := TimeLeft(Some(next), nowUsec);
            r.Ok? &&
            (r.value == NotActiveMessage <==> next == 0) &&
            (r.value == ExpiredMessage <==> next != 0 && next < nowUsec)
  {
    var r := TimeLeft(Some(next), nowUsec);
    if next != 0 && next >= nowUsec {
      var seconds := (next - nowUsec) / 1_000_000;
      assert r.value == PrettifyTime(seconds);
      PrettifyTimeRead(seconds);
      Durations.ReadTimerAnswers();
    }
  }

  /** A wording of the time left reads back as the whole seconds left, rounded down. */
  lemma TimeLeftReadsBack(next: int, nowUsec: int)
    requires next != 0 && next >= nowUsec
    ensures var s := Durations.Read(TimeLeft(Some(next), nowUsec).value);
            s.Some? && s.value * 1_000_000 <= next - nowUsec < (s.value + 1) * 1_000_000
  {
    var seconds := (next - nowUsec) / 1_000_000;
    assert TimeLeft(Some(next), nowUsec).value == PrettifyTime(seconds);
    PrettifyTimeRead(seconds);
  }
}
