/** The timer directive (src/app/directives/timer/timer.directive.ts):
    it registers with the shared timer, configures it, and turns changes of
    the shared state into tick, warning and completion events. Each effect
    body is one step over the directive's `previous*` flags. */
module TimerDirective {
  import opened Wrappers
  import ST = SharedTimer

  /** The directive's inputs. */
  datatype Inputs = Inputs(duration: int, autoStart: bool, warningThreshold: Option<int>)

  /** The inputs' defaults: the same duration and threshold the shared
      service starts with, and no auto-start. */
  function DefaultInputs(): (i: Inputs)
    ensures i.duration == ST.Init().duration && i.warningThreshold == ST.Init().threshold
    ensures !i.autoStart
  {
    Inputs(30, false, None)
  }

  /** The last values the effects acted on. */
  datatype Directive = Directive(previousTimeLeft: int, previousWarning: bool, previousComplete: bool)

  datatype TimerEvent = TickEvent(timeLeft: int) | WarningEvent(timeLeft: int) | CompleteEvent

  /** A directive attached to the shared timer. */
  datatype Mounted = Mounted(timer: ST.Timer, directive: Directive)

  /** What one run of the effects did. */
  datatype Observation = Observation(directive: Directive, events: seq<TimerEvent>)

  /** The flags as `ngOnInit` seeds them from the current shared state. */
  function Seed(t: ST.Timer): (d: Directive)
    ensures Synced(d, t)
  {
    Directive(t.remaining, ST.IsWarning(t), ST.IsComplete(t))
  }

  /** The flags agree with the shared state. */
  predicate Synced(d: Directive, t: ST.Timer) {
    d.previousTimeLeft == t.remaining
    && d.previousWarning == ST.IsWarning(t)
    && d.previousComplete == ST.IsComplete(t)
  }

  /** `ngOnInit`: register, configure with the inputs, seed the flags,
      then start if `timerAutoStart` is set. */
  function OnInit(t: ST.Timer, inputs: Inputs): (m: Mounted)
    ensures m.timer.instances == t.instances + 1
    ensures !t.running ==>
      && m.timer.duration == inputs.duration
      && m.timer.threshold == inputs.warningThreshold
      && m.timer.remaining == inputs.duration
      && !m.timer.hasWarned
    ensures t.running ==> m.timer == t.(instances := t.instances + 1)
    ensures m.timer.running <==> t.running || inputs.autoStart
    ensures Synced(m.directive, m.timer)
  {
    var configured := ST.Configure(ST.Register(t), inputs.duration, inputs.warningThreshold);
    var d := Seed(configured);
    var started := if inputs.autoStart then ST.Start(configured) else configured;
    Mounted(started, d)
  }

  /** The tick effect: emits the time left when it changed while running. */
  function TickEffect(d: Directive, t: ST.Timer): (o: Observation)
    ensures |o.events| <= 1
    ensures |o.events| == 1 <==> t.running && t.remaining != d.previousTimeLeft
    ensures |o.events| == 1 ==> o.events[0] == TickEvent(t.remaining)
    ensures o.directive.previousTimeLeft == if t.running then t.remaining else d.previousTimeLeft
    ensures o.directive.(previousTimeLeft := d.previousTimeLeft) == d
  {
    if t.remaining != d.previousTimeLeft && t.running then
      Observation(d.(previousTimeLeft := t.remaining), [TickEvent(t.remaining)])
    else Observation(d, [])
  }

  /** The warning effect: emits on a false-to-true edge of `isWarning`,
      and re-arms on a true-to-false edge. */
  function WarningEffect(d: Directive, t: ST.Timer): (o: Observation)
    ensures |o.events| <= 1
    ensures |o.events| == 1 <==> ST.IsWarning(t) && !d.previousWarning
    ensures |o.events| == 1 ==> o.events[0] == WarningEvent(t.remaining)
    ensures o.directive.previousWarning == ST.IsWarning(t)
    ensures o.directive.(previousWarning := d.previousWarning) == d
  {
    var isWarning := ST.IsWarning(t);
    var o := if isWarning && !d.previousWarning
      then Observation(d.(previousWarning := true), [WarningEvent(t.remaining)])
      else Observation(d, []);
    if !isWarning && o.directive.previousWarning
    then Observation(o.directive.(previousWarning := false), o.events)
    else o
  }

  /** The completion effect: emits on a false-to-true edge of `isComplete`,
      and re-arms once the timer is no longer complete. */
  function CompleteEffect(d: Directive, t: ST.Timer): (o: Observation)
    ensures o.events == if ST.IsComplete(t) && !d.previousComplete then [CompleteEvent] else []
    ensures o.directive.previousComplete == ST.IsComplete(t)
    ensures o.directive.(previousComplete := d.previousComplete) == d
  {
    var isComplete := ST.IsComplete(t);
    var o := if isComplete && !d.previousComplete
      then Observation(d.(previousComplete := true), [CompleteEvent])
      else Observation(d, []);
    if !isComplete && o.directive.previousComplete
    then Observation(o.directive.(previousComplete := false), o.events)
    else o
  }

  /** The three effects run on the current shared state. */
  function Observe(d: Directive, t: ST.Timer): (o: Observation)
    ensures CompleteEvent in o.events <==> ST.IsComplete(t) && !d.previousComplete
    ensures (exists n :: WarningEvent(n) in o.events) <==> ST.IsWarning(t) && !d.previousWarning
    ensures (exists n :: TickEvent(n) in o.events) <==> t.running && t.remaining != d.previousTimeLeft
    ensures o.directive.previousWarning == ST.IsWarning(t)
    ensures o.directive.previousComplete == ST.IsComplete(t)
    ensures t.running ==> Synced(o.directive, t)
    ensures !t.running ==> o.directive.previousTimeLeft == d.previousTimeLeft
  {
    var a := TickEffect(d, t);
    var b := WarningEffect(a.directive, t);
    var c := CompleteEffect(b.directive, t);
    var o := Observation(c.directive, a.events + b.events + c.events);
    assert (exists n :: TickEvent(n) in o.events) ==> |a.events| == 1 by {
      if exists n :: TickEvent(n) in o.events {
        var n :| TickEvent(n) in o.events;
        assert TickEvent(n) in a.events;
      }
    }
    assert |a.events| == 1 ==> TickEvent(t.remaining) in o.events by {
      if |a.events| == 1 {
        assert o.events[0] == a.events[0];
      }
    }
    assert (exists n :: WarningEvent(n) in o.events) ==> |b.events| == 1 by {
      if exists n :: WarningEvent(n) in o.events {
        var n :| WarningEvent(n) in o.events;
        assert WarningEvent(n) in b.events;
      }
    }
    assert |b.events| == 1 ==> WarningEvent(t.remaining) in o.events by {
      if |b.events| == 1 {
        assert o.events[|a.events|] == b.events[0];
      }
    }
    assert CompleteEvent in o.events ==> CompleteEvent in c.events;
    assert c.events == [CompleteEvent] ==> o.events[|o.events| - 1] == CompleteEvent;
    o
  }

  /** One run of the effects emits exactly: a tick carrying the time left,
      then a warning carrying the time left, then completion, each only
      under its own edge condition and in that order. */
  lemma ObserveEvents(d: Directive, t: ST.Timer)
    ensures Observe(d, t).events ==
      (if t.running && t.remaining != d.previousTimeLeft then [TickEvent(t.remaining)] else [])
      + (if ST.IsWarning(t) && !d.previousWarning then [WarningEvent(t.remaining)] else [])
      + (if ST.IsComplete(t) && !d.previousComplete then [CompleteEvent] else [])
  {
    var a := TickEffect(d, t);
    var b := WarningEffect(a.directive, t);
    assert a.events == (if t.running && t.remaining != d.previousTimeLeft then [TickEvent(t.remaining)] else []);
    assert b.events == (if ST.IsWarning(t) && !d.previousWarning then [WarningEvent(t.remaining)] else []);
  }


  /** Running the effects right after seeding emits nothing: a condition
      already true at init (such as an already complete timer) is not
      reported. */
  lemma SeededEmitsNothing(t: ST.Timer)
    ensures Observe(Seed(t), t).events == []
  {
  }

  /** Running the effects twice on the same state emits nothing the
      second time. */
  lemma ObserveIdempotent(d: Directive, t: ST.Timer)
    ensures Observe(Observe(d, t).directive, t).events == []
  {
    var o := Observe(d, t);
    var a := TickEffect(o.directive, t);
    assert a.events == [] by {
      if t.running {
        assert o.directive.previousTimeLeft == t.remaining;
      } else {
        assert !t.running;
      }
    }
  }

  /** One tick of the shared timer, then the effects. */
  function TickAndObserve(m: Mounted): (r: (Mounted, seq<TimerEvent>)) {
    var t := ST.Tick(m.timer);
    var o := Observe(m.directive, t);
    (Mounted(t, o.directive), o.events)
  }

  /** The recorded time follows the timer only while it runs, so after a
      `reset` of a stopped timer, `start` reports the full duration as a
      tick before any second has passed. */
  lemma StartAfterResetReportsTime(m: Mounted)
    requires m.directive.previousTimeLeft != m.timer.duration
    ensures var reset := ST.Reset(m.timer);
      var seen := Observe(m.directive, reset);
      TickEvent(m.timer.duration) in Observe(seen.directive, ST.Start(reset)).events
  {
    var reset := ST.Reset(m.timer);
    var seen := Observe(m.directive, reset);
    assert seen.directive.previousTimeLeft == m.directive.previousTimeLeft;
    var started := ST.Start(reset);
    var a := TickEffect(seen.directive, started);
    assert a.events == [TickEvent(m.timer.duration)];
  }

  /** The tick to 0 stops the timer before the effects run, so it reports
      completion but no tick event for 0. */
  lemma FinalTickReportsOnlyCompletion(m: Mounted)
    requires m.timer.running && m.timer.remaining == 1 && Synced(m.directive, m.timer)
    ensures TickAndObserve(m).1 == [CompleteEvent]
  {
  }

  /** A tick that leaves time on the clock reports that time. */
  lemma MidTickReportsTime(m: Mounted)
    requires m.timer.running && m.timer.remaining > 1 && Synced(m.directive, m.timer)
    ensures TickEvent(m.timer.remaining - 1) in TickAndObserve(m).1
    ensures CompleteEvent !in TickAndObserve(m).1
  {
  }

  function CountComplete(es: seq<TimerEvent>): nat {
    if |es| == 0 then 0 else (if es[0] == CompleteEvent then 1 else 0) + CountComplete(es[1..])
  }

  /** `k` ticks, each followed by the effects, collecting the events. */
  function RunTicks(m: Mounted, k: nat): (r: (Mounted, seq<TimerEvent>))
    ensures r.0.timer == ST.Ticks(m.timer, k)
    ensures r.0.directive.previousComplete == (if k == 0 then m.directive.previousComplete else ST.IsComplete(r.0.timer))
    decreases k
  {
    if k == 0 then (m, [])
    else
      var (m1, es) := TickAndObserve(m);
      var (m2, rest) := RunTicks(m1, k - 1);
      (m2, es + rest)
  }

  lemma {:induction false} CountCompleteAppend(a: seq<TimerEvent>, b: seq<TimerEvent>)
    ensures CountComplete(a + b) == CountComplete(a) + CountComplete(b)
  {
    if |a| > 0 {
      assert (a + b)[1..] == a[1..] + b;
      CountCompleteAppend(a[1..], b);
    } else {
      assert a + b == b;
    }
  }

  /** At most one completion per countdown: over any number of ticks a
      directive whose flags agree with the timer reports completion once if
      the countdown reaches 0, and never otherwise. */
  lemma {:induction false} OneCompletionPerCountdown(m: Mounted, k: nat)
    requires m.directive.previousComplete == ST.IsComplete(m.timer)
    ensures CountComplete(RunTicks(m, k).1) ==
      if !ST.IsComplete(m.timer) && ST.IsComplete(ST.Ticks(m.timer, k)) then 1 else 0
    decreases k
  {
    if k > 0 {
      var (m1, es) := TickAndObserve(m);
      var tail := RunTicks(m1, k - 1);
      assert RunTicks(m, k) == (tail.0, es + tail.1);
      assert m1.timer == ST.Tick(m.timer);
      assert ST.Ticks(m.timer, k) == ST.Ticks(m1.timer, k - 1);
      OneCompletionPerCountdown(m1, k - 1);
      CountCompleteAppend(es, tail.1);
      CountCompleteOfObservation(m.directive, m1.timer);
      assert CountComplete(es) == if ST.IsComplete(m1.timer) && !ST.IsComplete(m.timer) then 1 else 0;
      if ST.IsComplete(m.timer) {
        ST.StoppedTicks(m.timer, 1);
        ST.StoppedTicks(m1.timer, k - 1);
      } else if ST.IsComplete(m1.timer) {
        ST.StoppedTicks(m1.timer, k - 1);
      }
    }
  }

  /** The effects report completion at most once per run. */
  lemma CountCompleteOfObservation(d: Directive, t: ST.Timer)
    ensures var es := Observe(d, t).events;
      CountComplete(es) == if CompleteEvent in es then 1 else 0
  {
    var a := TickEffect(d, t);
    var b := WarningEffect(a.directive, t);
    var c := CompleteEffect(b.directive, t);
    CountCompleteAppend(a.events + b.events, c.events);
    CountCompleteAppend(a.events, b.events);
    assert CountComplete(a.events) == 0 by {
      if |a.events| == 1 {
        assert a.events[1..] == [];
      }
    }
    assert CountComplete(b.events) == 0 by {
      if |b.events| == 1 {
        assert b.events[1..] == [];
      }
    }
    assert CountComplete(c.events) == if c.events == [] then 0 else 1 by {
      if c.events != [] {
        assert c.events[1..] == [];
      }
    }
  }

  /** `ngOnDestroy` unregisters exactly once. */
  function OnDestroy(m: Mounted): (t: ST.Timer)
    ensures t.instances == if m.timer.instances == 0 then 0 else m.timer.instances - 1
    ensures t.instances == 0 ==> !t.running
    ensures t.instances > 0 ==> t.running == m.timer.running
    ensures m.timer.(instances := t.instances, running := t.running) == t
  {
    ST.Unregister(m.timer)
  }

  /** A directive mounted and destroyed leaves the registration count as
      it found it. */
  lemma MountThenDestroy(t: ST.Timer, inputs: Inputs)
    ensures OnDestroy(OnInit(t, inputs)).instances == t.instances
    ensures t.instances == 0 ==> !OnDestroy(OnInit(t, inputs)).running
  {
  }
}
