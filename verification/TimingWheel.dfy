/** The two-level timing wheel of cyber/timer/timing_wheel.{h,cc}.

    Time is counted in index steps: `now` is how often TickFunc has advanced the
    work wheel. The wheel is proved against a flat table that holds, for every
    queued task, the one `now` at which Tick drains it. AddTask, Tick, and the
    advance together with its cascade are the atomic steps. */
module FlatTimer {

  const WORK_WHEEL_SIZE: nat := 512
  const ASSISTANT_WHEEL_SIZE: nat := 64
  const TIMER_RESOLUTION_MS: nat := 2
  const TIMER_MAX_INTERVAL_MS: nat := WORK_WHEEL_SIZE * ASSISTANT_WHEEL_SIZE * TIMER_RESOLUTION_MS

  // The duration in index steps of 2 ms, rounded up.
  function Steps(durationMs: nat): (steps: nat)
    ensures 2 * (steps - 1) < durationMs <= 2 * steps
  {
    (durationMs + TIMER_RESOLUTION_MS - 1) / TIMER_RESOLUTION_MS
  }

  /** When the two wheels drain a task that AddTask queues at `now` (after the Tick
      of `now` if `ticked`), for any duration at all. */
  function WheelDue(now: nat, ticked: bool, durationMs: nat): nat {
    var index := now % WORK_WHEEL_SIZE + Steps(durationMs);
    var rotation, slot := now / WORK_WHEEL_SIZE, index % WORK_WHEEL_SIZE;
    var rotations := index / WORK_WHEEL_SIZE;
    if rotations == 0 then
      (if ticked && Steps(durationMs) == 0 then now + WORK_WHEEL_SIZE else now + Steps(durationMs))
    else if rotations == 1 && slot < now % WORK_WHEEL_SIZE then now + Steps(durationMs)
    else WORK_WHEEL_SIZE * (rotation + 1 + (rotations - 1) % ASSISTANT_WHEEL_SIZE) + slot
  }

  // Where WheelDue lies, by the branch that places the task.
  lemma Placement(now: nat, ticked: bool, durationMs: nat)
    ensures var due, index := WheelDue(now, ticked, durationMs), now % WORK_WHEEL_SIZE + Steps(durationMs);
            && (if ticked then now < due else now <= due)
            && due % WORK_WHEEL_SIZE == index % WORK_WHEEL_SIZE
            && if index < WORK_WHEEL_SIZE || (index < 2 * WORK_WHEEL_SIZE &&
                                              index - WORK_WHEEL_SIZE < now % WORK_WHEEL_SIZE)
               then due <= now + WORK_WHEEL_SIZE - (if ticked then 0 else 1)
               else
                 && 1 <= due / WORK_WHEEL_SIZE - now / WORK_WHEEL_SIZE <= ASSISTANT_WHEEL_SIZE
                 && (due / WORK_WHEEL_SIZE) % ASSISTANT_WHEEL_SIZE ==
                    ((now / WORK_WHEEL_SIZE) % ASSISTANT_WHEEL_SIZE + index / WORK_WHEEL_SIZE)
                    % ASSISTANT_WHEEL_SIZE
  {
    var index := now % WORK_WHEEL_SIZE + Steps(durationMs);
    assert now == WORK_WHEEL_SIZE * (now / WORK_WHEEL_SIZE) + now % WORK_WHEEL_SIZE;
    if index >= WORK_WHEEL_SIZE {
      AssistantPlacement(now / WORK_WHEEL_SIZE, index / WORK_WHEEL_SIZE, index % WORK_WHEEL_SIZE);
    }
  }

  // The arithmetic of a place in the assistant wheel.
  lemma AssistantPlacement(rotation: nat, rotations: nat, slot: nat)
    requires rotations >= 1 && slot < WORK_WHEEL_SIZE
    ensures var due := WORK_WHEEL_SIZE * (rotation + 1 + (rotations - 1) % ASSISTANT_WHEEL_SIZE) + slot;
            && due % WORK_WHEEL_SIZE == slot
            && due / WORK_WHEEL_SIZE == rotation + 1 + (rotations - 1) % ASSISTANT_WHEEL_SIZE
            && (due / WORK_WHEEL_SIZE) % ASSISTANT_WHEEL_SIZE ==
               (rotation % ASSISTANT_WHEEL_SIZE + rotations) % ASSISTANT_WHEEL_SIZE
  {
    var k := (rotations - 1) % ASSISTANT_WHEEL_SIZE;
    assert rotations - 1 == ASSISTANT_WHEEL_SIZE * ((rotations - 1) / ASSISTANT_WHEEL_SIZE) + k;
    assert rotation == ASSISTANT_WHEEL_SIZE * (rotation / ASSISTANT_WHEEL_SIZE) + rotation % ASSISTANT_WHEEL_SIZE;
  }

  /** The `steps`-th step from now is the first at which `durationMs` are over. */
  predicate Meets(steps: int, durationMs: nat) {
    2 * (steps - 1) < durationMs <= 2 * steps
  }

  /** The wheels meet the deadline exactly when the rotations fit the assistant
      wheel and the duration does not ask for the Tick that has already been. */
  lemma DueExactly(now: nat, ticked: bool, durationMs: nat)
    ensures var k := WheelDue(now, ticked, durationMs) - now;
            2 * (k - 1) < durationMs <= 2 * k <==>
              (now % 512 + (durationMs + 1) / 2) / 512 <= 64 && !(ticked && durationMs == 0)
    ensures WheelDue(now, ticked, durationMs) == now + Steps(durationMs) <==>
              Meets(WheelDue(now, ticked, durationMs) - now, durationMs)
  {
    var index := now % WORK_WHEEL_SIZE + Steps(durationMs);
    assert now == WORK_WHEEL_SIZE * (now / WORK_WHEEL_SIZE) + now % WORK_WHEEL_SIZE;
    assert index == WORK_WHEEL_SIZE * (index / WORK_WHEEL_SIZE) + index % WORK_WHEEL_SIZE;
  }

  /** A task with a duration from 1 to 65536 ms is due at the first step by which so
      many milliseconds are over, wherever the index stands. */
  lemma ExactInRange(now: nat, ticked: bool, durationMs: nat)
    requires 1 <= durationMs <= 65536
    ensures var k := WheelDue(now, ticked, durationMs) - now;
            2 * (k - 1) < durationMs <= 2 * k
  {
    DueExactly(now, ticked, durationMs);
  }

  /** So 65536 ms is the longest duration that is exact wherever the index stands,
      and every period InitTimerTask accepts is below it. */
  lemma LongestDuration(durationMs: nat)
    ensures (forall now: nat :: Meets(WheelDue(now, true, durationMs) - now, durationMs)) <==>
            1 <= durationMs <= 65536
  {
    if 1 <= durationMs <= 65536 {
      forall now: nat ensures Meets(WheelDue(now, true, durationMs) - now, durationMs) {
        ExactInRange(now, true, durationMs);
      }
    } else {
      DueExactly(511, true, durationMs);
      assert !Meets(WheelDue(511, true, durationMs) - 511, durationMs);
    }
  }

  // ---------------------------------------------------------------------
  // The flat table and its runs

  datatype Flat<!K> = Flat(now: nat, ticked: bool, due: map<K, nat>)

  // `deadline` is the one that a task gets for its duration; `fired` are the drained
  // tasks whose callbacks start; `dropped` are entries of expired tasks that a cascade
  // throws away.
  datatype Event<!K> =
    | AddTask(task: K, durationMs: nat, deadline: nat)
    | Tick(fired: set<K>)
    | Advance(dropped: set<K>)

  predicate Ahead(now: nat, ticked: bool, deadline: nat) {
    if ticked then now < deadline else now <= deadline
  }

  predicate Enabled<K>(f: Flat<K>, e: Event<K>) {
    match e
    case AddTask(task, _, d) => task !in f.due && Ahead(f.now, f.ticked, d)
    case Tick(fired) => !f.ticked && fired <= Drained(f)
    case Advance(_) => f.ticked
  }

  function Drained<K>(f: Flat<K>): set<K> {
    set task | task in f.due && f.due[task] == f.now
  }

  function Next<K>(f: Flat<K>, e: Event<K>): Flat<K> {
    match e
    case AddTask(task, _, d) => f.(due := f.due[task := d])
    case Tick(_) => f.(ticked := true, due := f.due - Drained(f))
    case Advance(dropped) => Flat(f.now + 1, false, f.due - dropped)
  }

  // What a run of events makes of a table.
  function After<K>(f: Flat<K>, run: seq<Event<K>>): Flat<K>
    decreases |run|
  {
    if run == [] then f else Next(After(f, run[..|run| - 1]), run[|run| - 1])
  }

  ghost predicate IsRun<K>(f: Flat<K>, run: seq<Event<K>>)
    decreases |run|
  {
    run == [] ||
    (IsRun(f, run[..|run| - 1]) && Enabled(After(f, run[..|run| - 1]), run[|run| - 1]))
  }

  // The deadline of an addition is the one that the two wheels give.
  ghost predicate GivenBy<K>(g: Flat<K>, e: Event<K>) {
    e.AddTask? ==> e.deadline == WheelDue(g.now, g.ticked, e.durationMs)
  }

  ghost predicate OnWheel<K>(f: Flat<K>, run: seq<Event<K>>)
    decreases |run|
  {
    run == [] ||
    (OnWheel(f, run[..|run| - 1]) && GivenBy(After(f, run[..|run| - 1]), run[|run| - 1]))
  }

  // The parts of a run up to an event and through it.
  lemma {:induction false} EventOf<K>(f: Flat<K>, run: seq<Event<K>>, i: nat)
    requires IsRun(f, run) && i < |run|
    ensures IsRun(f, run[..i]) && Enabled(After(f, run[..i]), run[i])
    ensures IsRun(f, run[..i + 1]) && After(f, run[..i + 1]) == Next(After(f, run[..i]), run[i])
    decreases |run|
  {
    var front := run[..|run| - 1];
    if i < |run| - 1 {
      EventOf(f, front, i);
      assert front[..i] == run[..i] && front[..i + 1] == run[..i + 1];
    } else {
      assert run[..i + 1] == run;
    }
  }

  lemma {:induction false} GivenOf<K>(f: Flat<K>, run: seq<Event<K>>, i: nat)
    requires OnWheel(f, run) && i < |run|
    ensures GivenBy(After(f, run[..i]), run[i])
    decreases |run|
  {
    if i < |run| - 1 {
      GivenOf(f, run[..|run| - 1], i);
      assert run[..|run| - 1][..i] == run[..i];
    }
  }

  ghost predicate NothingMissed<K>(f: Flat<K>) {
    forall task :: task in f.due ==> Ahead(f.now, f.ticked, f.due[task])
  }

  lemma NextMissesNothing<K>(f: Flat<K>, e: Event<K>)
    requires NothingMissed(f) && Enabled(f, e)
    ensures NothingMissed(Next(f, e))
  {
  }

  lemma {:induction false} RunMissesNothing<K>(f: Flat<K>, run: seq<Event<K>>)
    requires NothingMissed(f) && IsRun(f, run)
    ensures NothingMissed(After(f, run))
    decreases |run|
  {
    if run != [] {
      RunMissesNothing(f, run[..|run| - 1]);
      NextMissesNothing(After(f, run[..|run| - 1]), run[|run| - 1]);
    }
  }

  // Queued for `d` until `now` passes it, and gone from then on.
  ghost predicate QueuedUntil<K>(g: Flat<K>, task: K, d: nat) {
    if g.now < d || (g.now == d && !g.ticked) then task in g.due && g.due[task] == d else task !in g.due
  }

  ghost predicate Disturbs<K>(e: Event<K>, task: K) {
    match e
    case AddTask(other, _, _) => other == task
    case Advance(dropped) => task in dropped
    case Tick(_) => false
  }

  lemma StaysQueued<K>(g: Flat<K>, e: Event<K>, task: K, d: nat)
    requires QueuedUntil(g, task, d) && Enabled(g, e) && !Disturbs(e, task)
    ensures QueuedUntil(Next(g, e), task, d)
  {
  }

  lemma AddQueues<K>(g: Flat<K>, e: Event<K>)
    requires e.AddTask? && Enabled(g, e)
    ensures QueuedUntil(Next(g, e), e.task, e.deadline)
  {
  }

  // Between the events `start` and `stop`, the task is neither thrown away nor added again.
  ghost predicate Undisturbed<K>(run: seq<Event<K>>, task: K, start: nat, stop: nat)
    requires start <= stop <= |run|
  {
    forall i :: start <= i < stop ==> !Disturbs(run[i], task)
  }

  // A task that has been added stays queued until `now` has passed its deadline.
  lemma {:induction false} Waits<K>(f: Flat<K>, run: seq<Event<K>>, added: nat, stop: nat)
    requires IsRun(f, run) && added < stop <= |run| && run[added].AddTask?
    requires Undisturbed(run, run[added].task, added + 1, stop)
    ensures QueuedUntil(After(f, run[..stop]), run[added].task, run[added].deadline)
    decreases stop
  {
    EventOf(f, run, stop - 1);
    if added + 1 < stop {
      Waits(f, run, added, stop - 1);
      StaysQueued(After(f, run[..stop - 1]), run[stop - 1], run[added].task, run[added].deadline);
    } else {
      AddQueues(After(f, run[..added]), run[added]);
    }
  }

  // A Tick drains what is queued for its own `now`.
  lemma TickDrains<K>(g: Flat<K>, e: Event<K>, task: K, d: nat)
    requires e.Tick? && Enabled(g, e) && QueuedUntil(g, task, d)
    ensures task in Drained(g) <==> g.now == d
    ensures task in e.fired ==> g.now == d
  {
  }

  lemma DrainedAtTableTime<K>(f: Flat<K>, run: seq<Event<K>>, added: nat, tick: nat)
    requires IsRun(f, run) && added < tick < |run|
    requires run[added].AddTask? && run[tick].Tick?
    requires Undisturbed(run, run[added].task, added + 1, tick)
    ensures run[added].task in Drained(After(f, run[..tick])) <==> After(f, run[..tick]).now == run[added].deadline
    ensures run[added].task in run[tick].fired ==> After(f, run[..tick]).now == run[added].deadline
  {
    Waits(f, run, added, tick);
    EventOf(f, run, tick);
    TickDrains(After(f, run[..tick]), run[tick], run[added].task, run[added].deadline);
  }

  lemma DeadlineOf<K>(f: Flat<K>, run: seq<Event<K>>, added: nat)
    requires OnWheel(f, run) && added < |run| && run[added].AddTask?
    requires 1 <= run[added].durationMs <= 65536
    ensures Meets(run[added].deadline - After(f, run[..added]).now, run[added].durationMs)
  {
    GivenOf(f, run, added);
    ExactInRange(After(f, run[..added]).now, After(f, run[..added]).ticked, run[added].durationMs);
  }

  /** In every run, a task that AddTask queues with a duration from 1 to 65536 ms is
      drained by the first Tick at which, counted in index steps of 2 ms, so much time
      is over, and by no other Tick until it is added again. */
  lemma DrainedOnceAtDeadline<K>(f: Flat<K>, run: seq<Event<K>>, added: nat, tick: nat)
    requires IsRun(f, run) && OnWheel(f, run) && added < tick < |run|
    requires run[added].AddTask? && run[tick].Tick?
    requires 1 <= run[added].durationMs <= 65536
    requires forall i :: added < i < tick ==>
               && !(run[i].AddTask? && run[i].task == run[added].task)
               && !(run[i].Advance? && run[added].task in run[i].dropped)
    ensures var k := After(f, run[..tick]).now - After(f, run[..added]).now;
            && (run[added].task in Drained(After(f, run[..tick])) <==>
                2 * (k - 1) < run[added].durationMs <= 2 * k)
            && (run[added].task in run[tick].fired ==>
                2 * (k - 1) < run[added].durationMs <= 2 * k)
  {
    DrainedAtTableTime(f, run, added, tick);
    DeadlineOf(f, run, added);
  }

  // A task that is gone has been drained by the Tick at its deadline.
  lemma {:induction false} DrainedBefore<K>(f: Flat<K>, run: seq<Event<K>>, added: nat, stop: nat) returns (tick: nat)
    requires IsRun(f, run) && added < stop <= |run| && run[added].AddTask?
    requires Undisturbed(run, run[added].task, added + 1, stop)
    ensures run[added].task !in After(f, run[..stop]).due ==>
              && added < tick < stop && run[tick].Tick?
              && run[added].task in Drained(After(f, run[..tick]))
              && After(f, run[..tick]).now == run[added].deadline
    decreases stop
  {
    tick := 0;
    EventOf(f, run, stop - 1);
    var g := After(f, run[..stop - 1]);
    if added + 1 == stop {
      AddQueues(g, run[added]);
    } else if run[added].task !in g.due {
      tick := DrainedBefore(f, run, added, stop - 1);
    } else {
      Waits(f, run, added, stop - 1);
      tick := stop - 1;
    }
  }

  function Empty<K>(): Flat<K> {
    Flat(0, false, map[])
  }

  /** `table` is what the steps of `history` have made of an empty table. */
  ghost predicate Records<K>(history: seq<Event<K>>, table: Flat<K>) {
    IsRun(Empty(), history) && OnWheel(Empty(), history) && table == After(Empty(), history)
  }

  lemma RecordsGoOn<K>(history: seq<Event<K>>, table: Flat<K>, e: Event<K>)
    requires Records(history, table) && Enabled(table, e) && GivenBy(table, e)
    ensures Records(history + [e], Next(table, e))
  {
    assert (history + [e])[..|history|] == history;
  }
}

/** The two arrays of buckets as values, and where each queued task stands in them. */
module WheelBuckets {

  datatype Place = Work(index: nat) | Assistant(index: nat)

  ghost predicate Distinct<T>(s: seq<T>) {
    forall i, j :: 0 <= i < j < |s| ==> s[i] != s[j]
  }

  function Bucket<K>(work: seq<seq<K>>, assistant: seq<seq<K>>, p: Place): seq<K> {
    match p
    case Work(i) => if i < |work| then work[i] else []
    case Assistant(j) => if j < |assistant| then assistant[j] else []
  }

  // The bucket lists, once each, the tasks whose place it is.
  ghost predicate BucketAt<K>(bucket: seq<K>, place: map<K, Place>, p: Place) {
    && Distinct(bucket)
    && (forall t :: t in bucket ==> t in place && place[t] == p)
    && (forall t :: t in place && place[t] == p ==> t in bucket)
  }

  ghost predicate Buckets<K>(work: seq<seq<K>>, assistant: seq<seq<K>>, place: map<K, Place>) {
    forall p: Place :: BucketAt(Bucket(work, assistant, p), place, p)
  }

  /** Every queued task stands at one position of one bucket, and at no other. */
  lemma OnePosition<K>(work: seq<seq<K>>, assistant: seq<seq<K>>, place: map<K, Place>,
                       task: K, p: Place, i: nat, j: nat)
    requires Buckets(work, assistant, place) && task in place
    ensures task in Bucket(work, assistant, place[task])
    ensures task in Bucket(work, assistant, p) ==> p == place[task]
    ensures i < j < |Bucket(work, assistant, p)| ==>
              Bucket(work, assistant, p)[i] != Bucket(work, assistant, p)[j]
  {
    assert BucketAt(Bucket(work, assistant, place[task]), place, place[task]);
    assert BucketAt(Bucket(work, assistant, p), place, p);
  }

  lemma PushAt<K>(bucket: seq<K>, place: map<K, Place>, p: Place, q: Place, task: K)
    requires BucketAt(bucket, place, p) && task !in place
    ensures BucketAt(if p == q then bucket + [task] else bucket, place[task := q], p)
  {
  }

  lemma PushWork<K>(work: seq<seq<K>>, assistant: seq<seq<K>>, place: map<K, Place>, i: nat, task: K)
    requires Buckets(work, assistant, place) && task !in place && i < |work|
    ensures Buckets(work[i := work[i] + [task]], assistant, place[task := Work(i)])
  {
    var after, place' := work[i := work[i] + [task]], place[task := Work(i)];
    forall p: Place ensures BucketAt(Bucket(after, assistant, p), place', p) {
      PushAt(Bucket(work, assistant, p), place, p, Work(i), task);
    }
  }

  lemma PushAssistant<K>(work: seq<seq<K>>, assistant: seq<seq<K>>, place: map<K, Place>, j: nat, task: K)
    requires Buckets(work, assistant, place) && task !in place && j < |assistant|
    ensures Buckets(work, assistant[j := assistant[j] + [task]], place[task := Assistant(j)])
  {
    var after, place' := assistant[j := assistant[j] + [task]], place[task := Assistant(j)];
    forall p: Place ensures BucketAt(Bucket(work, after, p), place', p) {
      PushAt(Bucket(work, assistant, p), place, p, Assistant(j), task);
    }
  }

  lemma PopAssistant<K>(work: seq<seq<K>>, assistant: seq<seq<K>>, place: map<K, Place>, j: nat)
    requires Buckets(work, assistant, place) && j < |assistant| && assistant[j] != []
    ensures Buckets(work, assistant[j := assistant[j][1..]], place - {assistant[j][0]})
  {
    var task, after := assistant[j][0], assistant[j := assistant[j][1..]];
    assert BucketAt(Bucket(work, assistant, Assistant(j)), place, Assistant(j));
    assert assistant[j] == [task] + assistant[j][1..];
    forall p: Place ensures BucketAt(Bucket(work, after, p), place - {task}, p) {
      assert BucketAt(Bucket(work, assistant, p), place, p);
    }
  }

  lemma DrainWork<K>(work: seq<seq<K>>, assistant: seq<seq<K>>, place: map<K, Place>, i: nat, drained: set<K>)
    requires Buckets(work, assistant, place) && i < |work|
    requires forall t :: t in drained <==> t in work[i]
    ensures Buckets(work[i := []], assistant, place - drained)
  {
    assert BucketAt(Bucket(work, assistant, Work(i)), place, Work(i));
    var after := work[i := []];
    forall p: Place ensures BucketAt(Bucket(after, assistant, p), place - drained, p) {
      assert BucketAt(Bucket(work, assistant, p), place, p);
    }
  }
}

module TimingWheel {
  import opened FlatTimer
  import opened WheelBuckets

  /** A task record; `alive` is whether a shared pointer still holds it, so that
      locking a weak pointer to it succeeds. */
  class TimerTask {
    var intervalMs: nat
    var remainderIntervalMs: nat
    var nextFireDurationMs: nat
    var accumulatedErrorNs: int
    var lastExecuteTimeNs: nat
    var alive: bool

    constructor (periodMs: nat)
      ensures alive && intervalMs == nextFireDurationMs == periodMs
      ensures remainderIntervalMs == 0 && accumulatedErrorNs == 0 && lastExecuteTimeNs == 0
    {
      intervalMs, remainderIntervalMs, nextFireDurationMs := periodMs, 0, periodMs;
      accumulatedErrorNs, lastExecuteTimeNs, alive := 0, 0, true;
    }
  }

  // The tasks of a bucket whose weak pointers can be locked, in order.
  function Live(s: seq<TimerTask>): (r: seq<TimerTask>)
    reads s
    ensures forall t :: t in s && t.alive ==> t in r
    ensures forall t :: t in r ==> t in s && t.alive
    ensures Distinct(s) ==> Distinct(r)
  {
    if s == [] then []
    else
      var r := Live(s[..|s| - 1]);
      if s[|s| - 1].alive then r + [s[|s| - 1]] else r
  }

  // A live task comes after the live tasks before it.
  lemma LiveInOrder(s: seq<TimerTask>, t: TimerTask)
    ensures Live([]) == [] && Live(s + [t]) == Live(s) + (if t.alive then [t] else [])
  {
    assert (s + [t])[..|s|] == s;
  }

  /** A task in a work bucket is due the next time the index reaches the bucket. A
      task in an assistant bucket is due in the rotation whose cascade empties the
      bucket, the `first` next one or later. */
  ghost predicate Fits(now: nat, ticked: bool, due: nat, place: Place, remainder: nat, first: nat) {
    match place
    case Work(i) =>
      due % WORK_WHEEL_SIZE == i && Ahead(now, ticked, due)
      && due <= now + WORK_WHEEL_SIZE - (if ticked then 0 else 1)
    case Assistant(j) =>
      && (due / WORK_WHEEL_SIZE) % ASSISTANT_WHEEL_SIZE == j
      && remainder == due % WORK_WHEEL_SIZE
      && first <= due / WORK_WHEEL_SIZE - now / WORK_WHEEL_SIZE < first + ASSISTANT_WHEEL_SIZE
  }

  // What the cascade relies on: an entry of the bucket it empties is due in this rotation.
  lemma CascadeFits(now: nat, due: nat, remainder: nat)
    requires now % WORK_WHEEL_SIZE == 0
    requires Fits(now, false, due, Assistant((now / WORK_WHEEL_SIZE) % ASSISTANT_WHEEL_SIZE), remainder, 0)
    ensures remainder < WORK_WHEEL_SIZE && Fits(now, false, due, Work(remainder), remainder, 0)
  {
    var rotations := due / WORK_WHEEL_SIZE - now / WORK_WHEEL_SIZE;
    assert rotations == 0;
  }

  // The index moves on: what fitted after the Tick fits before the next one.
  lemma AdvanceFits(now: nat, due: nat, place: Place, remainder: nat)
    requires Fits(now, true, due, place, remainder, 1)
    ensures Fits(now + 1, false, due, place, remainder, if (now + 1) % WORK_WHEEL_SIZE == 0 then 0 else 1)
  {
  }

  lemma IndexMoves(now: nat)
    ensures (now + 1) % WORK_WHEEL_SIZE == (now % WORK_WHEEL_SIZE + 1) % WORK_WHEEL_SIZE
    ensures (now + 1) / WORK_WHEEL_SIZE ==
            now / WORK_WHEEL_SIZE + (if (now + 1) % WORK_WHEEL_SIZE == 0 then 1 else 0)
    ensures ((now + 1) / WORK_WHEEL_SIZE) % ASSISTANT_WHEEL_SIZE ==
            if (now + 1) % WORK_WHEEL_SIZE == 0
            then ((now / WORK_WHEEL_SIZE) % ASSISTANT_WHEEL_SIZE + 1) % ASSISTANT_WHEEL_SIZE
            else (now / WORK_WHEEL_SIZE) % ASSISTANT_WHEEL_SIZE
  {
  }

  // The live tasks of a table that are due at `time`.
  ghost function DueAt(due: map<TimerTask, nat>, time: nat, live: set<TimerTask>): set<TimerTask> {
    set t | t in due && due[t] == time && t in live
  }

  // The k-th batch is the live tasks due at `start + k`, each once.
  ghost predicate FiredInTurn(fired: seq<seq<TimerTask>>, due: map<TimerTask, nat>, start: nat, live: set<TimerTask>) {
    forall k :: 0 <= k < |fired| ==>
      Distinct(fired[k]) && (set t | t in fired[k]) == DueAt(due, start + k, live)
  }

  // What is queued was queued all along, and no live task is gone before its time.
  ghost predicate StillQueued(now: map<TimerTask, nat>, due: map<TimerTask, nat>, time: nat, live: set<TimerTask>) {
    && (forall t :: t in now ==> t in due && now[t] == due[t])
    && (forall t :: t in due && t in live && due[t] >= time ==> t in now)
  }

  lemma BatchInTurn(fired: seq<seq<TimerTask>>, batch: seq<TimerTask>, due: map<TimerTask, nat>, start: nat,
                    now: map<TimerTask, nat>, live: set<TimerTask>)
    requires FiredInTurn(fired, due, start, live) && StillQueued(now, due, start + |fired|, live)
    requires Distinct(batch) && (set t | t in batch) == DueAt(now, start + |fired|, live)
    ensures FiredInTurn(fired + [batch], due, start, live)
  {
    assert DueAt(now, start + |fired|, live) == DueAt(due, start + |fired|, live);
  }

  class Wheel {
    const workWheel: array<seq<TimerTask>>
    const assistantWheel: array<seq<TimerTask>>
    var currentWorkWheelIndex: nat
    var currentAssistantWheelIndex: nat
    var tickCount: nat
    ghost var table: Flat<TimerTask>
    ghost var place: map<TimerTask, Place>
    ghost var history: seq<Event<TimerTask>>   // every step since the start, in order

    // Every place fits the deadline; `first` is 0 while a cascade runs and else 1.
    ghost predicate Places(first: nat)
      reads this, place.Keys
    {
      forall t :: t in place && t in table.due ==>
                  Fits(table.now, table.ticked, table.due[t], place[t], t.remainderIntervalMs, first)
    }

    ghost predicate Structure(first: nat)
      reads this, workWheel, assistantWheel, place.Keys
    {
      && workWheel.Length == WORK_WHEEL_SIZE && assistantWheel.Length == ASSISTANT_WHEEL_SIZE
      && place.Keys == table.due.Keys
      && Buckets(workWheel[..], assistantWheel[..], place) && Places(first)
      && currentWorkWheelIndex == table.now % WORK_WHEEL_SIZE
      && currentAssistantWheelIndex == (table.now / WORK_WHEEL_SIZE) % ASSISTANT_WHEEL_SIZE
    }

    // The table before event `i`.
    ghost function At(i: nat): Flat<TimerTask>
      requires i <= |history|
      reads `history
    {
      After(Empty(), history[..i])
    }

    ghost predicate Valid()
      reads this, workWheel, assistantWheel, place.Keys
    {
      Structure(1) && Records(history, table)
    }

    constructor ()
      ensures Valid() && table == Flat(0, false, map[]) && history == []
      ensures fresh(workWheel) && fresh(assistantWheel)
    {
      workWheel := new seq<TimerTask>[WORK_WHEEL_SIZE](_ => []);
      assistantWheel := new seq<TimerTask>[ASSISTANT_WHEEL_SIZE](_ => []);
      currentWorkWheelIndex, currentAssistantWheelIndex, tickCount := 0, 0, 0;
      table, place, history := Flat(0, false, map[]), map[], [];
      new;
      assert forall p: Place :: Bucket(workWheel[..], assistantWheel[..], p) == [];
    }

    // The source masks with the size less one; the sizes are powers of two.
    function GetWorkWheelIndex(index: nat): nat { index % WORK_WHEEL_SIZE }

    function GetAssistantWheelIndex(index: nat): nat { index % ASSISTANT_WHEEL_SIZE }

    // TimerBucket::AddTask on a work bucket.
    method PushWork(i: nat, task: TimerTask, ghost due: nat, ghost first: nat)
      requires Structure(first) && task !in table.due && i < WORK_WHEEL_SIZE
      requires Fits(table.now, table.ticked, due, Work(i), task.remainderIntervalMs, first)
      modifies this`table, this`place, workWheel
      ensures Structure(first) && table == old(table).(due := old(table.due)[task := due])
    {
      WheelBuckets.PushWork(workWheel[..], assistantWheel[..], place, i, task);
      workWheel[i] := workWheel[i] + [task];
      table := table.(due := table.due[task := due]);
      place := place[task := Work(i)];
    }

    // TimerBucket::AddTask on an assistant bucket.
    method PushAssistant(j: nat, task: TimerTask, ghost due: nat)
      requires Structure(1) && task !in table.due && j < ASSISTANT_WHEEL_SIZE
      requires Fits(table.now, table.ticked, due, Assistant(j), task.remainderIntervalMs, 1)
      modifies this`table, this`place, assistantWheel
      ensures Structure(1) && table == old(table).(due := old(table.due)[task := due])
    {
      WheelBuckets.PushAssistant(workWheel[..], assistantWheel[..], place, j, task);
      assistantWheel[j] := assistantWheel[j] + [task];
      table := table.(due := table.due[task := due]);
      place := place[task := Assistant(j)];
    }

    // The branches of AddTask.
    method Place(task: TimerTask, ghost due: nat)
      requires Structure(1) && task !in table.due
      requires due == WheelDue(table.now, table.ticked, task.nextFireDurationMs)
      modifies this`table, this`place, workWheel, assistantWheel, task`remainderIntervalMs
      ensures Structure(1) && Ahead(table.now, table.ticked, due)
      ensures table == old(table).(due := old(table.due)[task := due])
    {
      Placement(table.now, table.ticked, task.nextFireDurationMs);
      var workWheelIndex := currentWorkWheelIndex + Steps(task.nextFireDurationMs);
      if workWheelIndex >= WORK_WHEEL_SIZE {
        var realWorkWheelIndex := GetWorkWheelIndex(workWheelIndex);
        task.remainderIntervalMs := realWorkWheelIndex;
        var assistantTicks := workWheelIndex / WORK_WHEEL_SIZE;
        if assistantTicks == 1 && realWorkWheelIndex < currentWorkWheelIndex {
          PushWork(realWorkWheelIndex, task, due, 1);
        } else {
          var assistantWheelIndex := GetAssistantWheelIndex(currentAssistantWheelIndex + assistantTicks);
          PushAssistant(assistantWheelIndex, task, due);
        }
      } else {
        PushWork(workWheelIndex, task, due, 1);
      }
    }

    // The step that AddTask takes.
    ghost function Added(task: TimerTask): Event<TimerTask>
      reads `table, task`nextFireDurationMs
    {
      FlatTimer.AddTask(task, task.nextFireDurationMs,
                        WheelDue(table.now, table.ticked, task.nextFireDurationMs))
    }

    /** Queues a task that is not queued yet, for any duration. */
    method AddTask(task: TimerTask)
      requires Valid() && task !in table.due
      modifies this`table, this`place, this`history, workWheel, assistantWheel, task`remainderIntervalMs
      ensures Valid()
      ensures history == old(history) + [old(Added(task))]
      ensures table == Next(old(table), old(Added(task)))
    {
      ghost var e, before := Added(task), table;
      Place(task, e.deadline);
      RecordsGoOn(history, before, e);
      history := history + [e];
    }

    /** Whatever was done to the wheel, in any order: a task added with a duration from
        1 to 65536 ms is drained by the first Tick, counted in index steps of 2 ms, at
        which so much time is over, and by no other, and its callback starts in no
        other, until it is added again. */
    lemma DrainedOnTime(added: nat, tick: nat)
      requires Valid() && added < tick < |history| && history[added].AddTask? && history[tick].Tick?
      requires 1 <= history[added].durationMs <= 65536
      requires forall i :: added < i < tick ==>
                 && !(history[i].AddTask? && history[i].task == history[added].task)
                 && !(history[i].Advance? && history[added].task in history[i].dropped)
      ensures var k := At(tick).now - At(added).now;
              && (history[added].task in Drained(At(tick)) <==>
                  2 * (k - 1) < history[added].durationMs <= 2 * k)
              && (history[added].task in history[tick].fired ==>
                  2 * (k - 1) < history[added].durationMs <= 2 * k)
    {
      DrainedOnceAtDeadline(Empty(), history, added, tick);
    }

    /** And the index does not pass that step without the Tick that drains it. */
    lemma DrainedByThen(added: nat) returns (tick: nat)
      requires Valid() && added < |history| && history[added].AddTask?
      requires 1 <= history[added].durationMs <= 65536
      requires forall i :: added < i < |history| ==>
                 && !(history[i].AddTask? && history[i].task == history[added].task)
                 && !(history[i].Advance? && history[added].task in history[i].dropped)
      requires history[added].durationMs <= 2 * (table.now - At(added).now - 1)
      ensures added < tick < |history| && history[tick].Tick?
      ensures history[added].task in Drained(At(tick))
      ensures 2 * (At(tick).now - At(added).now - 1) < history[added].durationMs
      ensures history[added].durationMs <= 2 * (At(tick).now - At(added).now)
    {
      DeadlineOf(Empty(), history, added);
      assert history[..|history|] == history;
      Waits(Empty(), history, added, |history|);
      tick := DrainedBefore(Empty(), history, added, |history|);
    }

    // The table that a valid wheel stands for has no deadline behind it.
    lemma ValidMissesNothing()
      requires Valid()
      ensures NothingMissed(table)
    {
      RunMissesNothing(Empty(), history);
    }

    // The bucket under the index holds exactly the tasks that are due now.
    lemma DrainedIsBucket()
      requires Structure(1) && !table.ticked
      ensures forall t :: t in Drained(table) <==> t in workWheel[currentWorkWheelIndex]
    {
      assert BucketAt(Bucket(workWheel[..], assistantWheel[..], Work(currentWorkWheelIndex)),
                      place, Work(currentWorkWheelIndex));
      forall t | t in table.due
        ensures table.due[t] == table.now <==> place[t] == Work(currentWorkWheelIndex)
      {
        assert Fits(table.now, table.ticked, table.due[t], place[t], t.remainderIntervalMs, 1);
      }
    }

    // The loop of Tick over the list of one bucket.
    method DrainBucket() returns (fired: seq<TimerTask>)
      requires currentWorkWheelIndex < workWheel.Length
      modifies workWheel
      ensures workWheel[..] == old(workWheel[..])[currentWorkWheelIndex := []]
      ensures fired == Live(old(workWheel[currentWorkWheelIndex]))
    {
      fired := [];
      ghost var bucket := workWheel[currentWorkWheelIndex];
      ghost var done := 0;
      while workWheel[currentWorkWheelIndex] != []
        invariant done <= |bucket|
        invariant workWheel[currentWorkWheelIndex] == bucket[done..]
        invariant forall i :: 0 <= i < workWheel.Length && i != currentWorkWheelIndex ==>
                              workWheel[i] == old(workWheel[i])
        invariant fired == Live(bucket[..done])
        decreases |bucket| - done
      {
        var task := workWheel[currentWorkWheelIndex][0];
        if task.alive {
          fired := fired + [task];
        }
        workWheel[currentWorkWheelIndex] := workWheel[currentWorkWheelIndex][1..];
        assert bucket[done..][1..] == bucket[done + 1..];
        assert bucket[..done + 1] == bucket[..done] + [task];
        done := done + 1;
      }
      assert bucket[..done] == bucket;
    }

    /** Drains the current bucket. The callbacks of the tasks whose pointers can
        still be locked are started, each once and in bucket order; the rest are dropped. */
    method Tick() returns (fired: seq<TimerTask>)
      requires Valid() && !table.ticked
      modifies this`table, this`place, this`history, workWheel
      ensures Valid()
      ensures history == old(history) + [FlatTimer.Tick(set t | t in fired)]
      ensures table == Next(old(table), FlatTimer.Tick(set t | t in fired))
      ensures Distinct(fired) && fired == old(Live(workWheel[currentWorkWheelIndex]))
      ensures forall t :: t in fired <==> t in Drained(old(table)) && t.alive
    {
      DrainedIsBucket();
      DrainWork(workWheel[..], assistantWheel[..], place, currentWorkWheelIndex, Drained(table));
      assert BucketAt(Bucket(workWheel[..], assistantWheel[..], Work(currentWorkWheelIndex)),
                      place, Work(currentWorkWheelIndex));
      fired := DrainBucket();
      ghost var e := FlatTimer.Tick(set t | t in fired);
      RecordsGoOn(history, table, e);
      table, place, history := Next(table, e), place - Drained(table), history + [e];
    }

    // The front entry of the bucket that a cascade empties leaves it.
    method PopFront() returns (task: TimerTask, ghost due: nat)
      requires Structure(0) && !table.ticked && currentWorkWheelIndex == 0
      requires assistantWheel[currentAssistantWheelIndex] != []
      modifies this`table, this`place, assistantWheel
      ensures Structure(0) && task == old(assistantWheel[currentAssistantWheelIndex][0])
      ensures task in old(table.due) && due == old(table.due)[task]
      ensures table == old(table).(due := old(table.due) - {task})
      ensures assistantWheel[currentAssistantWheelIndex] == old(assistantWheel[currentAssistantWheelIndex])[1..]
      ensures task.remainderIntervalMs < WORK_WHEEL_SIZE
      ensures Fits(table.now, table.ticked, due, Work(task.remainderIntervalMs), task.remainderIntervalMs, 0)
    {
      var j := currentAssistantWheelIndex;
      task := assistantWheel[j][0];
      assert BucketAt(Bucket(workWheel[..], assistantWheel[..], Assistant(j)), place, Assistant(j));
      assert task in assistantWheel[..][j];
      due := table.due[task];
      CascadeFits(table.now, due, task.remainderIntervalMs);
      PopAssistant(workWheel[..], assistantWheel[..], place, j);
      assistantWheel[j] := assistantWheel[j][1..];
      table, place := table.(due := table.due - {task}), place - {task};
    }

    // One turn of the cascade: the front entry moves to its work bucket, if its task lives.
    method CascadeOne() returns (task: TimerTask)
      requires Structure(0) && !table.ticked && currentWorkWheelIndex == 0
      requires assistantWheel[currentAssistantWheelIndex] != []
      modifies this`table, this`place, workWheel, assistantWheel
      ensures Structure(0) && task in old(table.due)
      ensures table == old(table).(due := if task.alive then old(table.due) else old(table.due) - {task})
      ensures assistantWheel[currentAssistantWheelIndex] == old(assistantWheel[currentAssistantWheelIndex])[1..]
    {
      ghost var due;
      task, due := PopFront();
      if task.alive {
        PushWork(task.remainderIntervalMs, task, due, 0);
        assert table.due == old(table.due);
      }
    }

    method Cascade() returns (ghost dropped: set<TimerTask>)
      requires Structure(0) && !table.ticked && currentWorkWheelIndex == 0
      modifies this`table, this`place, workWheel, assistantWheel
      ensures Structure(1)
      ensures forall t :: t in dropped ==> t in old(table.due) && !t.alive
      ensures table == old(table).(due := old(table.due) - dropped)
    {
      dropped := {};
      while assistantWheel[currentAssistantWheelIndex] != []
        invariant Structure(0)
        invariant forall t :: t in dropped ==> t in old(table.due) && !t.alive
        invariant table == old(table).(due := old(table.due) - dropped)
        decreases |assistantWheel[currentAssistantWheelIndex]|
      {
        var task := CascadeOne();
        if !task.alive { dropped := dropped + {task}; }
      }
      EmptiedBucket();
    }

    // With its bucket empty, no task is left for the rotation that has begun.
    lemma EmptiedBucket()
      requires Structure(0) && assistantWheel[currentAssistantWheelIndex] == []
      ensures Structure(1)
    {
      assert BucketAt(Bucket(workWheel[..], assistantWheel[..], Assistant(currentAssistantWheelIndex)),
                      place, Assistant(currentAssistantWheelIndex));
      forall t | t in place && t in table.due
        ensures Fits(table.now, table.ticked, table.due[t], place[t], t.remainderIntervalMs, 1)
      {
        assert Fits(table.now, table.ticked, table.due[t], place[t], t.remainderIntervalMs, 0);
      }
    }

    // Every place that fits after the Tick fits before the next one.
    lemma PlacesMoveOn()
      requires Structure(1) && table.ticked
      ensures forall t :: t in place && t in table.due ==>
                Fits(table.now + 1, false, table.due[t], place[t], t.remainderIntervalMs,
                     if (table.now + 1) % WORK_WHEEL_SIZE == 0 then 0 else 1)
    {
      forall t | t in place && t in table.due
        ensures Fits(table.now + 1, false, table.due[t], place[t], t.remainderIntervalMs,
                     if (table.now + 1) % WORK_WHEEL_SIZE == 0 then 0 else 1)
      {
        AdvanceFits(table.now, table.due[t], place[t], t.remainderIntervalMs);
      }
    }

    method MoveIndex()
      requires Structure(1) && table.ticked
      modifies this`table, this`currentWorkWheelIndex, this`currentAssistantWheelIndex
      ensures Structure(if currentWorkWheelIndex == 0 then 0 else 1)
      ensures table == Flat(old(table.now) + 1, false, old(table.due))
    {
      IndexMoves(table.now);
      PlacesMoveOn();
      currentWorkWheelIndex := GetWorkWheelIndex(currentWorkWheelIndex + 1);
      if currentWorkWheelIndex == 0 {
        currentAssistantWheelIndex := GetAssistantWheelIndex(currentAssistantWheelIndex + 1);
      }
      table := Flat(table.now + 1, false, table.due);
    }

    // The index advance and its cascade.
    method PassStep() returns (ghost dropped: set<TimerTask>)
      requires Structure(1) && table.ticked
      modifies this`table, this`place, this`currentWorkWheelIndex, this`currentAssistantWheelIndex
      modifies workWheel, assistantWheel
      ensures Structure(1)
      ensures forall t :: t in dropped ==> t in old(table.due) && !t.alive
      ensures table == Next(old(table), FlatTimer.Advance(dropped))
    {
      MoveIndex();
      dropped := {};
      assert old(table.due) - {} == old(table.due);
      if currentWorkWheelIndex == 0 {
        dropped := Cascade();
      }
    }

    /** The rest of a TickFunc turn: the index advances, and where the work wheel
        wraps, the next assistant bucket is emptied. Only expired tasks are lost. */
    method Advance() returns (ghost dropped: set<TimerTask>)
      requires Valid() && table.ticked
      modifies this`table, this`place, this`history, this`currentWorkWheelIndex, this`currentAssistantWheelIndex
      modifies workWheel, assistantWheel
      ensures Valid()
      ensures forall t :: t in dropped ==> t in old(table.due) && !t.alive
      ensures history == old(history) + [FlatTimer.Advance(dropped)]
      ensures table == Next(old(table), FlatTimer.Advance(dropped))
    {
      ghost var before := table;
      dropped := PassStep();
      RecordsGoOn(history, before, FlatTimer.Advance(dropped));
      history := history + [FlatTimer.Advance(dropped)];
    }

    // One turn of the TickFunc loop.
    method Turn(ghost live: set<TimerTask>) returns (batch: seq<TimerTask>)
      requires Valid() && !table.ticked
      requires forall t :: t in table.due ==> (t in live <==> t.alive)
      modifies this`table, this`place, this`history, this`tickCount
      modifies this`currentWorkWheelIndex, this`currentAssistantWheelIndex, workWheel, assistantWheel
      ensures Valid() && !table.ticked && table.now == old(table.now) + 1 && tickCount == old(tickCount) + 1
      ensures Distinct(batch) && (set t | t in batch) == DueAt(old(table.due), old(table.now), live)
      ensures forall t :: t in table.due ==> t in old(table.due) && table.due[t] == old(table.due)[t]
      ensures forall t :: t in old(table.due) && t in live && old(table.due)[t] != old(table.now) ==> t in table.due
    {
      batch := Tick();
      tickCount := tickCount + 1;
      ghost var dropped := Advance();
    }

    /** `turns` turns of the TickFunc loop with nothing added in between: the k-th
        turn fires the live tasks due at `now + k`, each once, and no others. */
    method TickFunc(turns: nat) returns (fired: seq<seq<TimerTask>>)
      requires Valid() && !table.ticked
      modifies this`table, this`place, this`history, this`tickCount
      modifies this`currentWorkWheelIndex, this`currentAssistantWheelIndex, workWheel, assistantWheel
      ensures Valid() && !table.ticked && table.now == old(table.now) + turns && |fired| == turns
      ensures tickCount == old(tickCount) + turns
      ensures FiredInTurn(fired, old(table.due), old(table.now), set t | t in old(table.due) && t.alive)
      ensures StillQueued(table.due, old(table.due), table.now, set t | t in old(table.due) && t.alive)
    {
      fired := [];
      ghost var due, start := table.due, table.now;
      ghost var live := set t | t in table.due && t.alive;
      while |fired| < turns
        invariant Valid() && !table.ticked && |fired| <= turns
        invariant table.now == start + |fired| && tickCount == old(tickCount) + |fired|
        invariant FiredInTurn(fired, due, start, live) && StillQueued(table.due, due, table.now, live)
      {
        ghost var now := table.due;
        ValidMissesNothing();
        var batch := Turn(live);
        BatchInTurn(fired, batch, due, start, now, live);
        fired := fired + [batch];
      }
    }
  }
}
