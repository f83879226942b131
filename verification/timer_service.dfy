/** The simpler countdown service (src/app/core/services/timer.service.ts).
    Unlike the shared timer it starts itself on `reset`, does not clamp at
    0, and announces `timeUp` from the interval. The interval handle is a
    flag; each firing of the interval is one `Tick`. */
module TimerService {

  datatype Countdown = Countdown(remaining: int, running: bool, intervalActive: bool)

  /** What one firing of the interval produced. */
  datatype TickOutcome = TickOutcome(countdown: Countdown, timeUp: bool)

  function Init(): (c: Countdown)
    ensures c.remaining == 0 && !c.running && !c.intervalActive
  {
    Countdown(0, false, false)
  }

  /** Clears the interval and marks the countdown stopped; the remaining
      time is kept. */
  function Stop(c: Countdown): (r: Countdown)
    ensures !r.running && !r.intervalActive && r.remaining == c.remaining
  {
    var cleared := if c.intervalActive then c.(intervalActive := false) else c;
    cleared.(running := false)
  }

  /** `ngOnDestroy` stops the countdown. */
  function OnDestroy(c: Countdown): (r: Countdown)
    ensures r == Stop(c)
  {
    Stop(c)
  }

  /** Stops any previous countdown, then runs a new one from `d`. */
  function Reset(c: Countdown, d: int): (r: Countdown)
    ensures r.remaining == d && r.running && r.intervalActive
  {
    var stopped := Stop(c);
    stopped.(remaining := d, running := true, intervalActive := true)
  }

  /** One firing of the interval: one second less, unclamped; at or below
      0 the countdown stops and announces `timeUp`. Without an interval
      nothing happens. */
  function Tick(c: Countdown): (o: TickOutcome)
    ensures !c.intervalActive ==> o == TickOutcome(c, false)
    ensures c.intervalActive ==>
      && o.countdown.remaining == c.remaining - 1
      && (o.timeUp <==> o.countdown.remaining <= 0)
      && (o.timeUp ==> !o.countdown.running && !o.countdown.intervalActive)
      && (!o.timeUp ==> o.countdown == c.(remaining := c.remaining - 1))
  {
    if c.intervalActive then
      var decremented := c.(remaining := c.remaining - 1);
      if decremented.remaining <= 0 then TickOutcome(Stop(decremented), true)
      else TickOutcome(decremented, false)
    else TickOutcome(c, false)
  }

  /** `stop` is idempotent. */
  lemma StopIdempotent(c: Countdown)
    ensures Stop(Stop(c)) == Stop(c)
  {
  }

  /** `k` firings; the second component counts the `timeUp` events. */
  function Ticks(c: Countdown, k: nat): (r: (Countdown, nat))
    decreases k
  {
    if k == 0 then (c, 0)
    else
      var o := Tick(c);
      var rest := Ticks(o.countdown, k - 1);
      (rest.0, rest.1 + (if o.timeUp then 1 else 0))
  }

  /** A stopped countdown never fires. */
  lemma {:induction false} StoppedStaysSilent(c: Countdown, k: nat)
    requires !c.intervalActive
    ensures Ticks(c, k) == (c, 0)
    decreases k
  {
    if k > 0 {
      StoppedStaysSilent(c, k - 1);
    }
  }

  /** While `n` seconds remain with `n > k`, `k` firings count down by `k`
      and announce nothing. */
  lemma {:induction false} CountsDown(c: Countdown, k: nat)
    requires c.intervalActive && c.remaining > k
    ensures Ticks(c, k) == (c.(remaining := c.remaining - k), 0)
    decreases k
  {
    if k > 0 {
      var o := Tick(c);
      CountsDown(o.countdown, k - 1);
    }
  }

  /** After `reset(d)` with `d >= 1`, `timeUp` comes at the `d`-th firing,
      at 0, exactly once however long the interval would have kept going,
      and not before. */
  lemma TimeUpAfterDuration(c: Countdown, d: int, k: nat)
    requires d >= 1
    ensures k < d ==> Ticks(Reset(c, d), k) == (Reset(c, d).(remaining := d - k), 0)
    ensures k >= d ==> Ticks(Reset(c, d), k) == (Countdown(0, false, false), 1)
  {
    var r := Reset(c, d);
    if k < d {
      CountsDown(r, k);
    } else {
      TicksSplit(r, d - 1, k - (d - 1));
      CountsDown(r, d - 1);
      var before := r.(remaining := 1);
      var o := Tick(before);
      assert o == TickOutcome(Countdown(0, false, false), true);
      TicksStep(before, k - (d - 1));
      StoppedStaysSilent(o.countdown, k - d);
    }
  }

  /** After `reset(d)` with `d <= 0` the first firing still happens; it
      ends at `d - 1`, below 0, and announces `timeUp` once. */
  lemma TimeUpAfterOneTickWhenNotPositive(c: Countdown, d: int, k: nat)
    requires d <= 0 && k >= 1
    ensures Ticks(Reset(c, d), k) == (Countdown(d - 1, false, false), 1)
  {
    var r := Reset(c, d);
    TicksStep(r, k);
    StoppedStaysSilent(Tick(r).countdown, k - 1);
  }

  lemma TicksStep(c: Countdown, k: nat)
    requires k >= 1
    ensures Ticks(c, k) == (Ticks(Tick(c).countdown, k - 1).0,
      Ticks(Tick(c).countdown, k - 1).1 + if Tick(c).timeUp then 1 else 0)
  {
  }

  lemma {:induction false} TicksSplit(c: Countdown, a: nat, b: nat)
    ensures Ticks(c, a + b) == (Ticks(Ticks(c, a).0, b).0, Ticks(c, a).1 + Ticks(Ticks(c, a).0, b).1)
    decreases a
  {
    if a > 0 {
      TicksSplit(Tick(c).countdown, a - 1, b);
    }
  }
}
