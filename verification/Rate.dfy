/** The fixed-rate loop of cyber/time/rate.cc. Times and durations are nanoseconds; the
    clock's readings are a parameter, and may go backward. */
module Rate {

  import opened Options

  // What one `Sleep` makes of the start time, for a cycle and a reading of the clock.
  function Restart(start: int, cycle: int, now: int): int {
    var end := (if now < start then now else start) + cycle;
    if now > end && now > end + cycle then now else end
  }

  /** Whatever the clock does, the next cycle starts within one cycle of the reading; it
      starts one cycle after this one exactly when the reading is neither before the
      start nor more than one cycle late. After a backward jump it starts one cycle after
      the reading, and after a longer delay at the reading. */
  lemma RestartMeans(start: int, cycle: int, now: int)
    requires cycle >= 0
    ensures var next := Restart(start, cycle, now);
            && -cycle <= next - now <= cycle
            && (next == start + cycle <==> start <= now <= start + 2 * cycle)
            && (now < start ==> next == now + cycle)
            && (now > start + 2 * cycle ==> next == now)
  {
  }

  function Run(start: int, cycle: int, readings: seq<int>): int
    decreases |readings|
  {
    if readings == [] then start
    else Restart(Run(start, cycle, readings[..|readings| - 1]), cycle, readings[|readings| - 1])
  }

  // No reading is before its cycle, or more than one cycle late.
  ghost predicate OnSchedule(start: int, cycle: int, readings: seq<int>) {
    forall k :: 0 <= k < |readings| ==> start + k * cycle <= readings[k] <= start + (k + 2) * cycle
  }

  lemma {:induction false} OnScheduleKeeps(start: int, cycle: int, readings: seq<int>)
    requires cycle >= 0 && OnSchedule(start, cycle, readings)
    ensures Run(start, cycle, readings) == start + |readings| * cycle
    decreases |readings|
  {
    if readings != [] {
      var last := |readings| - 1;
      OnScheduleKeeps(start, cycle, readings[..last]);
      RestartMeans(start + last * cycle, cycle, readings[last]);
      NextMultiple(cycle, last);
    }
  }

  lemma KeepsOnSchedule(start: int, cycle: int, readings: seq<int>, k: nat)
    requires cycle >= 0 && k < |readings|
    requires Run(start, cycle, readings[..k]) == start + k * cycle
    requires Run(start, cycle, readings[..k + 1]) == start + (k + 1) * cycle
    ensures start + k * cycle <= readings[k] <= start + (k + 2) * cycle
  {
    assert readings[..k + 1][..k] == readings[..k];
    RestartMeans(start + k * cycle, cycle, readings[k]);
    NextMultiple(cycle, k);
  }

  // After each of the first calls the start is where the schedule of the first puts it.
  ghost predicate StartsOnTime(start: int, cycle: int, readings: seq<int>) {
    forall n :: 0 <= n <= |readings| ==> Run(start, cycle, readings[..n]) == start + n * cycle
  }

  /** The starts keep to the schedule of the first for as long as the readings do, and
      no longer. */
  lemma ScheduleKept(start: int, cycle: int, readings: seq<int>)
    requires cycle >= 0
    ensures OnSchedule(start, cycle, readings) <==> StartsOnTime(start, cycle, readings)
  {
    if OnSchedule(start, cycle, readings) {
      forall n | 0 <= n <= |readings| ensures Run(start, cycle, readings[..n]) == start + n * cycle {
        OnScheduleKeeps(start, cycle, readings[..n]);
      }
    }
    if StartsOnTime(start, cycle, readings) {
      forall k | 0 <= k < |readings| ensures start + k * cycle <= readings[k] <= start + (k + 2) * cycle {
        KeepsOnSchedule(start, cycle, readings, k);
      }
    }
  }

  lemma NextMultiple(cycle: int, k: int)
    ensures (k + 1) * cycle == k * cycle + cycle && (k + 2) * cycle == k * cycle + 2 * cycle
  {
  }

  class Rate {
    var start: int
    const expectedCycleTime: int
    var actualCycleTime: int

    constructor (cycle: int, now: int)
      ensures start == now && expectedCycleTime == cycle && actualCycleTime == 0
    {
      start, expectedCycleTime, actualCycleTime := now, cycle, 0;
    }

    /** One `Sleep`, with the reading of the clock; it says until when it sleeps, if at all. */
    method Sleep(now: int) returns (until: Option<int>)
      modifies this
      ensures start == Restart(old(start), expectedCycleTime, now)
      ensures actualCycleTime == now - old(start)
      ensures expectedCycleTime >= 0 ==>
                until == if now <= old(start) + expectedCycleTime then Some(start) else None
    {
      var expectedEnd := start + expectedCycleTime;
      var actualEnd := now;
      if actualEnd < start {
        expectedEnd := actualEnd + expectedCycleTime;
      }
      var sleepTime := expectedEnd - actualEnd;
      actualCycleTime := actualEnd - start;
      start := expectedEnd;
      if sleepTime < 0 {
        if actualEnd > expectedEnd + expectedCycleTime {
          start := actualEnd;
        }
        return None;
      }
      return Some(expectedEnd);
    }

    method Reset(now: int)
      modifies this`start
      ensures start == now
    {
      start := now;
    }
  }
}
