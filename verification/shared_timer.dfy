/** The shared countdown (src/app/directives/timer/shared-timer.service.ts):
    one timer state for every timer directive, with reference-counted
    registration. The once-a-second interval is modelled by `Tick`. */
module SharedTimer {
  import opened Wrappers
  import TimeFormat

  datatype Timer = Timer(
    remaining: int,
    running: bool,
    duration: int,
    threshold: Option<int>,
    hasWarned: bool,
    instances: nat)

  /** The service as injected: nothing configured, nothing registered. */
  function Init(): (t: Timer)
    ensures t.remaining == 0 && !t.running && t.duration == 30
    ensures t.threshold.None? && !t.hasWarned && t.instances == 0
  {
    Timer(0, false, 30, None, false, 0)
  }

  /** `isWarning`: a threshold is set and `0 < remaining <= threshold`. */
  function IsWarning(t: Timer): (warning: bool)
    ensures warning ==> t.threshold.Some? && 0 < t.remaining <= t.threshold.value
    ensures t.threshold.Some? && 0 < t.remaining <= t.threshold.value ==> warning
  {
    t.threshold.Some? && t.remaining <= t.threshold.value && t.remaining > 0
  }

  /** `isComplete`: nothing remains, which is never a warning. */
  function IsComplete(t: Timer): (complete: bool)
    ensures complete <==> t.remaining == 0
    ensures complete ==> !IsWarning(t)
  {
    t.remaining == 0
  }

  /** `formattedTime`, for a non-negative remaining time. */
  function FormattedTime(t: Timer): (text: string)
    requires t.remaining >= 0
    ensures TimeFormat.ParseClock(text) == Some(t.remaining)
  {
    TimeFormat.FormatTimeRoundTrip(t.remaining);
    TimeFormat.FormatTime(t.remaining)
  }

  function Register(t: Timer): (r: Timer)
    ensures r.instances == t.instances + 1 && r.(instances := t.instances) == t
  {
    t.(instances := t.instances + 1)
  }

  /** The count never drops below 0, and reaching 0 stops the timer. */
  function Unregister(t: Timer): (r: Timer)
    ensures r.instances == if t.instances == 0 then 0 else t.instances - 1
    ensures r.instances == 0 ==> !r.running
    ensures r.instances > 0 ==> r.running == t.running
    ensures r.(instances := t.instances, running := t.running) == t
  {
    var count := if t.instances - 1 < 0 then 0 else t.instances - 1;
    var r := t.(instances := count);
    if count == 0 then Stop(r) else r
  }

  /** Ignored while running; otherwise a fresh countdown from `d`. */
  function Configure(t: Timer, d: int, threshold: Option<int>): (r: Timer)
    ensures t.running ==> r == t
    ensures !t.running ==>
      && r.duration == d && r.threshold == threshold && r.remaining == d
      && !r.hasWarned && !r.running && r.instances == t.instances
  {
    if t.running then t
    else t.(duration := d, threshold := threshold, remaining := d, hasWarned := false)
  }

  function Start(t: Timer): (r: Timer)
    ensures r.running
    ensures t.running ==> r == t
    ensures r.(running := t.running) == t
  {
    if t.running then t else t.(running := true)
  }

  /** One second of the interval. It applies only while running with time
      left; the remaining time goes down by one but not below 0, the warning
      latch is set when the new time warns, and reaching 0 stops the timer. */
  function Tick(t: Timer): (r: Timer)
    ensures !(t.running && t.remaining > 0) ==> r == t
    ensures t.running && t.remaining > 0 ==>
      && r.remaining == t.remaining - 1
      && r.remaining >= 0
      && (r.running <==> r.remaining > 0)
      && (r.hasWarned <==> t.hasWarned || IsWarning(r))
      && r.duration == t.duration && r.threshold == t.threshold && r.instances == t.instances
  {
    if t.running && t.remaining > 0 then
      var newTime := t.remaining - 1;
      var lowered := t.(remaining := if newTime < 0 then 0 else newTime);
      var warned := if IsWarning(lowered) && !lowered.hasWarned then lowered.(hasWarned := true) else lowered;
      if newTime <= 0 then Stop(warned) else warned
    else t
  }

  function Stop(t: Timer): (r: Timer)
    ensures !r.running && r.(running := t.running) == t
  {
    t.(running := false)
  }

  /** `pause` is `stop`. */
  function Pause(t: Timer): (r: Timer)
    ensures r == Stop(t)
  {
    Stop(t)
  }

  /** Restarts only when time is left. */
  function Resume(t: Timer): (r: Timer)
    ensures t.remaining > 0 ==> r.running && r.(running := t.running) == t
    ensures t.remaining <= 0 ==> r == t
  {
    if t.remaining > 0 then Start(t) else t
  }

  /** Stopped, full duration again, warning latch cleared. */
  function Reset(t: Timer): (r: Timer)
    ensures !r.running && r.remaining == t.duration && !r.hasWarned
    ensures r.duration == t.duration && r.threshold == t.threshold && r.instances == t.instances
  {
    Stop(t).(remaining := t.duration, hasWarned := false)
  }

  /** The service's public operations. */
  datatype Op =
    | RegisterOp
    | UnregisterOp
    | ConfigureOp(d: int, threshold: Option<int>)
    | StartOp
    | TickOp
    | StopOp
    | PauseOp
    | ResumeOp
    | ResetOp

  function Apply(t: Timer, op: Op): Timer {
    match op
    case RegisterOp => Register(t)
    case UnregisterOp => Unregister(t)
    case ConfigureOp(d, th) => Configure(t, d, th)
    case StartOp => Start(t)
    case TickOp => Tick(t)
    case StopOp => Stop(t)
    case PauseOp => Pause(t)
    case ResumeOp => Resume(t)
    case ResetOp => Reset(t)
  }

  /** The warning latch: only `configure` (when it applies) and `reset`
      clear it, and a tick into the warning range sets it. */
  lemma WarnedLatch(t: Timer, op: Op)
    ensures t.hasWarned && !Apply(t, op).hasWarned ==>
      op.ResetOp? || (op.ConfigureOp? && !t.running)
    ensures op.TickOp? && IsWarning(Apply(t, op)) && t.running && t.remaining > 0 ==> Apply(t, op).hasWarned
  {
  }

  /** No operation but `configure` changes the duration or threshold. */
  lemma OnlyConfigureSetsDuration(t: Timer, op: Op)
    requires !op.ConfigureOp?
    ensures Apply(t, op).duration == t.duration && Apply(t, op).threshold == t.threshold
  {
  }

  /** Apart from `configure`, no operation makes the remaining time
      negative while the duration is non-negative; ticks stop at 0. */
  lemma RemainingStaysNonNegative(t: Timer, op: Op)
    requires t.remaining >= 0 && !op.ConfigureOp?
    requires t.duration >= 0
    ensures Apply(t, op).remaining >= 0
  {
  }

  /** `k` ticks in a row. */
  function Ticks(t: Timer, k: nat): Timer
    decreases k
  {
    if k == 0 then t else Ticks(Tick(t), k - 1)
  }

  /** A running countdown from `n >= 0` is at `max(0, n - k)` after `k`
      ticks, runs exactly while time is left (a timer started at 0 stays
      marked running), and is complete from tick `n` on. */
  lemma {:induction false} Countdown(t: Timer, k: nat)
    requires t.running && t.remaining >= 0
    ensures Ticks(t, k).remaining == if k <= t.remaining then t.remaining - k else 0
    ensures Ticks(t, k).running <==> (k < t.remaining || t.remaining == 0)
    ensures Ticks(t, k).duration == t.duration && Ticks(t, k).instances == t.instances
    ensures IsComplete(Ticks(t, k)) <==> k >= t.remaining
    decreases k
  {
    if k > 0 {
      if t.remaining == 0 {
        StoppedTicks(t, k);
      } else {
        var t1 := Tick(t);
        if t1.running {
          Countdown(t1, k - 1);
        } else {
          StoppedTicks(t1, k - 1);
        }
      }
    }
  }

  /** A timer that does not tick stays as it is. */
  lemma {:induction false} StoppedTicks(t: Timer, k: nat)
    requires !(t.running && t.remaining > 0)
    ensures Ticks(t, k) == t
  {
    if k > 0 {
      StoppedTicks(Tick(t), k - 1);
    }
  }

  /** `start` on a completed timer marks it running, yet no tick ever
      applies, and `configure` stays refused until `stop` or `reset`. */
  lemma StartWhenComplete(t: Timer, d: int, threshold: Option<int>)
    requires IsComplete(t)
    ensures Start(t).running
    ensures Tick(Start(t)) == Start(t)
    ensures Configure(Start(t), d, threshold) == Start(t)
  {
  }

  /** Registering and then unregistering restores the count; the timer is
      stopped when that count is 0. */
  lemma RegisterUnregister(t: Timer)
    ensures Unregister(Register(t)).instances == t.instances
    ensures t.instances > 0 ==> Unregister(Register(t)) == t
    ensures t.instances == 0 ==> Unregister(Register(t)) == Stop(t)
  {
  }

  /** After `n` registrations and `n` unregistrations from an unused
      service, no instance is left and the timer is stopped. */
  lemma {:induction false} BalancedRegistrationStops(t: Timer, n: nat)
    requires t.instances == 0 && n > 0
    ensures var r := Unregisters(Registers(t, n), n); r.instances == 0 && !r.running
  {
    UnregistersCount(Registers(t, n), n);
  }

  function Registers(t: Timer, n: nat): (r: Timer)
    ensures r.instances == t.instances + n
    decreases n
  {
    if n == 0 then t else Registers(Register(t), n - 1)
  }

  function Unregisters(t: Timer, n: nat): Timer
    decreases n
  {
    if n == 0 then t else Unregisters(Unregister(t), n - 1)
  }

  lemma {:induction false} UnregistersCount(t: Timer, n: nat)
    requires n > 0 && t.instances <= n
    ensures Unregisters(t, n).instances == 0 && !Unregisters(t, n).running
    decreases n
  {
    var t1 := Unregister(t);
    if n > 1 {
      UnregistersCount(t1, n - 1);
    }
  }
}
