/** The periodic callback of cyber/timer/timer.cc and its drift compensation. The
    clock readings are parameters; rounding to milliseconds is exact rounding,
    halves away from zero. */
module Timer {
  import opened FlatTimer
  import opened TimingWheel

  const NS_PER_MS: int := 1_000_000
  const TWO_64: int := 0x1_0000_0000_0000_0000
  const TWO_63: int := 0x8000_0000_0000_0000

  // The value a 64-bit signed sum holds.
  function Wrap64(x: int): (w: int)
    ensures -0x8000_0000_0000_0000 <= w < 0x8000_0000_0000_0000
    ensures (x - w) % 0x1_0000_0000_0000_0000 == 0
    ensures -TWO_63 <= x < TWO_63 ==> w == x
  {
    (x + TWO_63) % TWO_64 - TWO_63
  }

  // The nearest millisecond; halves away from zero.
  function RoundToMs(ns: int): (ms: int)
    ensures -1_000_000 <= 2 * (ns - ms * 1_000_000) <= 1_000_000
    ensures 2 * (ns - ms * 1_000_000) == 1_000_000 ==> ns < 0
    ensures 2 * (ns - ms * 1_000_000) == -1_000_000 ==> ns > 0
    ensures ns >= 0 ==> ms >= 0
  {
    if ns >= 0 then (ns + NS_PER_MS / 2) / NS_PER_MS else -((-ns + NS_PER_MS / 2) / NS_PER_MS)
  }

  datatype Drift = Drift(accumulatedErrorNs: int, lastExecuteTimeNs: nat)

  // The error after a run that starts at `start`.
  function Accumulate(d: Drift, intervalMs: nat, start: nat): Drift {
    Drift(if d.lastExecuteTimeNs == 0 then d.accumulatedErrorNs
          else Wrap64(d.accumulatedErrorNs + start - d.lastExecuteTimeNs - intervalMs * NS_PER_MS),
          start)
  }

  /** The next duration makes up for the run's length and for the error as far as at
      least the 2 ms of one tick remain. */
  function NextDuration(intervalMs: nat, errorNs: int, durationNs: nat): (ms: nat)
    ensures ms >= 2
  {
    if RoundToMs(durationNs) >= intervalMs then TIMER_RESOLUTION_MS
    else if intervalMs - RoundToMs(durationNs) - TIMER_RESOLUTION_MS >= RoundToMs(errorNs)
    then intervalMs - RoundToMs(durationNs) - RoundToMs(errorNs)
    else TIMER_RESOLUTION_MS
  }

  // The arithmetic of the callback, on the task record.
  method Compensate(task: TimerTask, start: nat, end: nat)
    requires start <= end
    modifies task`accumulatedErrorNs, task`lastExecuteTimeNs, task`nextFireDurationMs
    ensures Drift(task.accumulatedErrorNs, task.lastExecuteTimeNs) ==
            Accumulate(old(Drift(task.accumulatedErrorNs, task.lastExecuteTimeNs)), task.intervalMs, start)
    ensures task.nextFireDurationMs == NextDuration(task.intervalMs, task.accumulatedErrorNs, end - start)
    ensures var (runMs, errorMs) := (RoundToMs(end - start), RoundToMs(task.accumulatedErrorNs));
            if runMs < task.intervalMs && runMs + 2 + errorMs <= task.intervalMs
            then runMs + task.nextFireDurationMs + errorMs == task.intervalMs
            else task.nextFireDurationMs == 2
  {
    var executeTimeMs := RoundToMs(end - start);
    if task.lastExecuteTimeNs == 0 {
      task.lastExecuteTimeNs := start;
    } else {
      task.accumulatedErrorNs := Wrap64(task.accumulatedErrorNs + start - task.lastExecuteTimeNs
                                        - task.intervalMs * NS_PER_MS);
    }
    task.lastExecuteTimeNs := start;
    if executeTimeMs >= task.intervalMs {
      task.nextFireDurationMs := TIMER_RESOLUTION_MS;
    } else {
      var accumulatedErrorMs := RoundToMs(task.accumulatedErrorNs);
      if task.intervalMs - executeTimeMs - TIMER_RESOLUTION_MS >= accumulatedErrorMs {
        task.nextFireDurationMs := task.intervalMs - executeTimeMs - accumulatedErrorMs;
      } else {
        task.nextFireDurationMs := TIMER_RESOLUTION_MS;
      }
    }
  }

  /** One run of the periodic callback: the user's callback starts at `start` and
      ends at `end`, and the task goes back to the wheel. A stopped timer does nothing. */
  method Callback(wheel: Wheel, task: TimerTask, start: nat, end: nat)
    requires wheel.Valid() && task !in wheel.table.due && start <= end
    modifies wheel`table, wheel`place, wheel`history, wheel.workWheel, wheel.assistantWheel
    modifies task`accumulatedErrorNs, task`lastExecuteTimeNs, task`nextFireDurationMs, task`remainderIntervalMs
    ensures wheel.Valid()
    ensures !task.alive ==> unchanged(task) && wheel.table == old(wheel.table) && wheel.history == old(wheel.history)
    ensures task.alive ==>
              && Drift(task.accumulatedErrorNs, task.lastExecuteTimeNs) ==
                 Accumulate(old(Drift(task.accumulatedErrorNs, task.lastExecuteTimeNs)), task.intervalMs, start)
              && task.nextFireDurationMs == NextDuration(task.intervalMs, task.accumulatedErrorNs, end - start)
              && (var (runMs, errorMs) := (RoundToMs(end - start), RoundToMs(task.accumulatedErrorNs));
                  if runMs < task.intervalMs && runMs + 2 + errorMs <= task.intervalMs
                  then runMs + task.nextFireDurationMs + errorMs == task.intervalMs
                  else task.nextFireDurationMs == 2)
              && wheel.history == old(wheel.history) +
                   [AddTask(task, task.nextFireDurationMs,
                            WheelDue(old(wheel.table.now), old(wheel.table.ticked), task.nextFireDurationMs))]
  {
    if !task.alive {
      return;
    }
    Compensate(task, start, end);
    wheel.AddTask(task);
  }

  method InitTimerTask(periodMs: nat) returns (task: TimerTask?)
    ensures task != null <==> 1 <= periodMs < 65536
    ensures task != null ==> fresh(task) && task.alive && task.intervalMs == task.nextFireDurationMs == periodMs
                             && task.accumulatedErrorNs == 0 && task.lastExecuteTimeNs == 0
    ensures task != null ==> forall now: nat ::
              Meets(WheelDue(now, true, periodMs) - now, periodMs) &&
              2 * (WheelDue(now, true, periodMs) - now - 1) < periodMs <= 2 * (WheelDue(now, true, periodMs) - now)
  {
    if periodMs == 0 {
      return null;
    }
    if periodMs >= TIMER_MAX_INTERVAL_MS {
      return null;
    }
    LongestDuration(periodMs);
    task := new TimerTask(periodMs);
  }

  // ---------------------------------------------------------------------
  // Many runs

  // The drift state after runs that start at the times `starts`.
  function After(intervalMs: nat, starts: seq<nat>): Drift {
    if starts == [] then Drift(0, 0)
    else Accumulate(After(intervalMs, starts[..|starts| - 1]), intervalMs, starts[|starts| - 1])
  }

  lemma WrapAbsorbs(x: int, y: int)
    ensures Wrap64(Wrap64(x) + y) == Wrap64(x + y)
  {
    var a, b := x + TWO_63, x + y + TWO_63;
    assert a == TWO_64 * (a / TWO_64) + a % TWO_64;
    assert Wrap64(x) + y + TWO_63 == b - TWO_64 * (a / TWO_64);
    ModShift(b, a / TWO_64);
  }

  lemma ModShift(x: int, k: int)
    ensures (x - TWO_64 * k) % TWO_64 == x % TWO_64
  {
    var r := x % TWO_64;
    assert x - TWO_64 * k == TWO_64 * (x / TWO_64 - k) + r;
  }

  /** The accumulated error telescopes: it is the lateness of the last start
      against the schedule fixed by the first one. */
  lemma {:induction false} ErrorTelescopes(intervalMs: nat, starts: seq<nat>)
    requires |starts| > 0 && forall i :: 0 <= i < |starts| ==> starts[i] > 0
    ensures After(intervalMs, starts).accumulatedErrorNs ==
            Wrap64(starts[|starts| - 1] - starts[0] - (|starts| - 1) * (intervalMs * NS_PER_MS))
    ensures After(intervalMs, starts).lastExecuteTimeNs == starts[|starts| - 1]
    decreases |starts|
  {
    var n := |starts|;
    if n > 1 {
      var before := starts[..n - 1];
      ErrorTelescopes(intervalMs, before);
      var x := before[n - 2] - starts[0] - (n - 2) * (intervalMs * NS_PER_MS);
      var y := starts[n - 1] - before[n - 2] - intervalMs * NS_PER_MS;
      WrapAbsorbs(x, y);
      OneMore(n - 2, intervalMs * NS_PER_MS);
    }
  }

  lemma OneMore(k: int, step: int)
    ensures (k + 1) * step == k * step + step
  {
  }

  /** No drift: the n-th run ends so long before the next duration is over that the
      next run is due within one millisecond of the first start plus n intervals,
      however late the runs before it were; unless less than 2 ms would be left, and
      then the task is queued for the next tick, 2 ms on. */
  lemma NoDrift(intervalMs: nat, starts: seq<nat>, end: nat)
    requires |starts| > 0 && forall i :: 0 <= i < |starts| ==> starts[i] > 0
    requires starts[|starts| - 1] <= end
    requires -TWO_63 <= starts[|starts| - 1] - starts[0] - (|starts| - 1) * (intervalMs * 1_000_000) < TWO_63
    ensures var (start, n) := (starts[|starts| - 1], |starts|);
            var runMs := RoundToMs(end - start);
            var lateMs := RoundToMs(start - starts[0] - (n - 1) * (intervalMs * 1_000_000));
            var nextMs := NextDuration(intervalMs, After(intervalMs, starts).accumulatedErrorNs, end - start);
            if runMs < intervalMs && runMs + 2 + lateMs <= intervalMs
            then var offNs := end + nextMs * 1_000_000 - (starts[0] + n * (intervalMs * 1_000_000));
                 -1_000_000 <= offNs <= 1_000_000
            else nextMs == 2
  {
    ErrorTelescopes(intervalMs, starts);
    var n := |starts|;
    OneMore(n - 1, intervalMs * NS_PER_MS);
  }

  /** The wheel keeps the next duration exactly as long as it is at most 65536 ms:
      the error must not have run more than that ahead of the schedule. */
  lemma NextIsExact(intervalMs: nat, errorNs: int, durationNs: nat)
    ensures var (runMs, errorMs) := (RoundToMs(durationNs), RoundToMs(errorNs));
            var nextMs := NextDuration(intervalMs, errorNs, durationNs);
            (forall now: nat :: Meets(WheelDue(now, true, nextMs) - now, nextMs)) <==>
              (runMs < intervalMs && runMs + 2 + errorMs <= intervalMs ==>
               intervalMs <= 65536 + runMs + errorMs)
  {
    LongestDuration(NextDuration(intervalMs, errorNs, durationNs));
  }
}
