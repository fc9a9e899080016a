/**
 * The decisions `sw/core/timer.py` makes around its D-Bus calls to
 * systemd.  This older copy has a single `TimerError`, reads the uptime
 * from `/proc/uptime` itself, and words any number of seconds, negative
 * ones included.
 */
module SwTimer {
  import opened Base
  import opened PyStr
  import Durations

  /**
   * `TimerError` with its message, or the `ValueError`/`IndexError` that
   * escapes when `/proc/uptime` holds no number.
   */
  datatype Failure = TimerError(message: string) | UptimeGarbled

  /** What systemd answers: the `is_active` query (`None` when it fails), and whether enabling and disabling go through. */
  datatype Bus = Bus(activeQuery: Option<bool>, enableOk: bool, disableOk: bool)

  const EnabledMessage: string := "Timer enabled"
  const DisabledMessage: string := "Timer disabled"
  const ToggleFailed: string := "Failed to toggle timer"

  function Enable(bus: Bus): (r: Result<string, Failure>)
    ensures r.Ok? <==> bus.enableOk
    ensures r.Ok? ==> r.value == EnabledMessage
    ensures r.Err? ==> r.error.TimerError?
  {
    if bus.enableOk then Ok(EnabledMessage) else Err(TimerError("Failed to enable/start timer"))
  }

  function Disable(bus: Bus): (r: Result<string, Failure>)
    ensures r.Ok? <==> bus.disableOk
    ensures r.Ok? ==> r.value == DisabledMessage
    ensures r.Err? ==> r.error.TimerError?
  {
    if bus.disableOk then Ok(DisabledMessage) else Err(TimerError("Failed to stop/disable timer"))
  }

  /** `toggle()`: disable an active timer, enable any other; every failure is re-raised as "Failed to toggle timer". */
  function Toggle(bus: Bus): (r: Result<string, Failure>)
    ensures r.Err? ==> r.error == TimerError(ToggleFailed)
    ensures r.Ok? <==> bus.activeQuery.Some? && (if bus.activeQuery.value then bus.disableOk else bus.enableOk)
    ensures r.Ok? ==> (r.value == DisabledMessage <==> bus.activeQuery == Some(true))
    ensures r.Ok? ==> (r.value == EnabledMessage <==> bus.activeQuery == Some(false))
  {
    var step := if bus.activeQuery.None? then Err(TimerError("Failed to check active state"))
                else if bus.activeQuery.value then Disable(bus)
                else Enable(bus);
    if step.Err? then Err(TimerError(ToggleFailed)) else step
  }

  /** Whether the unit is running, as systemd keeps it. */
  datatype TimerUnit = TimerUnit(active: bool)

  function AfterToggle(message: string, unit: TimerUnit): TimerUnit {
    if message == DisabledMessage then TimerUnit(false)
    else if message == EnabledMessage then TimerUnit(true)
    else unit
  }

  function Honest(unit: TimerUnit): Bus {
    Bus(Some(unit.active), true, true)
  }

  /** Toggling a timer whose state is reported truly flips it, so toggling twice restores it. */
  lemma ToggleFlips(unit: TimerUnit)
    ensures Toggle(Honest(unit)).Ok?
    ensures AfterToggle(Toggle(Honest(unit)).value, unit).active == !unit.active
    ensures var once := AfterToggle(Toggle(Honest(unit)).value, unit);
            AfterToggle(Toggle(Honest(once)).value, once) == unit
  {
  }

  /** `_prettify_time(seconds)`: there is no check for a negative time. */
  function PrettifyTime(seconds: int): (r: string)
    ensures r == "a moment" <==> seconds == 0
  {
    Durations.Spell(seconds)
  }

  /** Every time, negative ones included, is worded so that it reads back. */
  lemma PrettifyTimeRead(seconds: int)
    ensures Durations.Read(PrettifyTime(seconds)) == Some(seconds)
  {
    Durations.ReadSpell(seconds);
  }

  /** A negative time is worded with a minus sign where the later copy says "Invalid time". */
  lemma PrettifyNegative(seconds: int)
    requires seconds < 0
    ensures PrettifyTime(seconds)[0] == '-'
    ensures PrettifyTime(seconds) != "Invalid time"
  {
    Durations.SpellNegative(seconds);
  }

  /** The first line of `/proc/uptime`: its first number in microseconds, unreadable, or no number. */
  datatype Uptime = UptimeUsec(usec: int) | UptimeOSError | UptimeNotANumber

  const NotActiveMessage: string := "Timer is not active"
  const ExpiredMessage: string := "Timer expired recently"

  /** `time_left()`; the uptime is read only once an elapse is scheduled. */
  function TimeLeft(nextElapse: Option<int>, uptime: Uptime): (r: Result<string, Failure>)
    ensures nextElapse.None? ==> r == Err(TimerError("Failed to get monotonic timer info"))
    ensures nextElapse.Some? && nextElapse.value != 0 && uptime.UptimeOSError? ==> r == Err(TimerError("Failed to read system uptime"))
    ensures nextElapse.Some? && nextElapse.value != 0 && uptime.UptimeNotANumber? ==> r == Err(UptimeGarbled)
    ensures r.Ok? <==> nextElapse.Some? && (nextElapse.value == 0 || uptime.UptimeUsec?)
  {
    if nextElapse.None? then Err(TimerError("Failed to get monotonic timer info"))
    else if nextElapse.value == 0 then Ok(NotActiveMessage)
    else
      match uptime
      case UptimeOSError => Err(TimerError("Failed to read system uptime"))
      case UptimeNotANumber => Err(UptimeGarbled)
      case UptimeUsec(now) =>
        var remaining := nextElapse.value - now;
        if remaining < 0 then Ok(ExpiredMessage)
        else Ok(PrettifyTime(remaining / 1_000_000))
  }

  /** An unscheduled timer is reported without touching the uptime. */
  lemma NotActiveIgnoresUptime(u1: Uptime, u2: Uptime)
    ensures TimeLeft(Some(0), u1) == TimeLeft(Some(0), u2) == Ok(NotActiveMessage)
  {
  }

  /** "Not active" exactly when no elapse is scheduled, "expired" exactly when it lies in the past. */
  lemma TimeLeftCases(next: int, now: int)
    ensures var r := TimeLeft(Some(next), UptimeUsec(now));
            r.Ok? &&
            (r.value == NotActiveMessage <==> next == 0) &&
            (r.value == ExpiredMessage <==> next != 0 && next < now)
  {
    var r := TimeLeft(Some(next), UptimeUsec(now));
    if next != 0 && next >= now {
      var seconds := (next - now) / 1_000_000;
      assert r.value == PrettifyTime(seconds);
      PrettifyTimeRead(seconds);
      Durations.ReadTimerAnswers();
    }
  }

  /** A wording of the time left reads back as the whole seconds left, rounded down. */
  lemma TimeLeftReadsBack(next: int, now: int)
    requires next != 0 && next >= now
    ensures var s := Durations.Read(TimeLeft(Some(next), UptimeUsec(now)).value);
            s.Some? && s.value >= 0 && s.value * 1_000_000 <= next - now < (s.value + 1) * 1_000_000
  {
    var seconds := (next - now) / 1_000_000;
    assert TimeLeft(Some(next), UptimeUsec(now)).value == PrettifyTime(seconds);
    PrettifyTimeRead(seconds);
  }
}
