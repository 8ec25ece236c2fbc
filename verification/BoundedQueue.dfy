/** The lock-free bounded queue of cyber/base/bounded_queue.h.

    Any number of threads run Enqueue and Dequeue. A step is one atomic load,
    one compare-and-swap, or one end of a slot copy: element copies are not
    atomic, so a copy has a begin and an end, and a read that overlaps a write
    of the same slot may yield any value at all. `log` and `out` are history:
    the elements in ticket order, and the elements handed to callers in the
    order of their compare-and-swap on `head`. */
module BoundedQueue {

  import opened Options
  import opened Remainder

  type Tid = nat

  // `ver` changes at each end of a write; `writing` holds between the two ends.
  datatype Slot<T> = Slot(val: T, ver: nat, writing: bool)

  datatype Answer<T> = NoAnswer | Enqueued(ok: bool) | Dequeued(element: Option<T>)

  // The next atomic action of a thread, with the local variables it still needs.
  datatype Pc<T> =
    | Idle(answer: Answer<T>)
    | EnqLoadTail(x: T)
    | EnqLoadHead(x: T, oldTail: nat)
    | EnqCasTail(x: T, oldTail: nat)
    | EnqWriteBegin(x: T, ticket: nat)
    | EnqWriteEnd(x: T, ticket: nat)
    | EnqCasCommit(x: T, ticket: nat)
    | DeqLoadHead
    | DeqLoadCommit(oldHead: nat)
    | DeqReadBegin(oldHead: nat)
    | DeqReadEnd(oldHead: nat, ver: nat)
    | DeqCasHead(oldHead: nat, v: T)

  datatype Call<T> = CallEnqueue(element: T) | CallDequeue

  // What the callers and the hardware decide: which call an idle thread starts,
  // whether a weak compare-and-swap fails for no reason, what a torn read yields.
  datatype Choice<T> = Choice(call: Call<T>, spurious: bool, torn: T)

  datatype State<T> = State(
    head: nat, tail: nat, commit: nat,
    pool: seq<Slot<T>>,
    threads: map<Tid, Pc<T>>,
    log: seq<T>, out: seq<T>)
  {
    function At(t: Tid): Pc<T> {
      if t in threads then threads[t] else Idle(NoAnswer)
    }

    function Goto(t: Tid, pc: Pc<T>): State<T> {
      this.(threads := threads[t := pc])
    }

    function GetIndex(num: nat): (i: nat)
      requires |pool| > 0
      ensures i < |pool|
    {
      num % |pool|
    }

    function SlotOf(num: nat): Slot<T>
      requires |pool| > 0
    {
      pool[GetIndex(num)]
    }

    function Size(): int {
      tail - head - 1
    }
  }

  function Init<T>(size: nat, blank: T): State<T> {
    State(0, 1, 1, seq(size + 2, _ => Slot(blank, 0, false)), map[], [], [])
  }

  /** One step of thread `t`; each position reads only the part of the choice it
      needs. */
  function Step<T>(s: State<T>, t: Tid, c: Choice<T>): State<T>
    requires |s.pool| > 0
  {
    match s.At(t)
    case Idle(_) =>
      (match c.call
       case CallEnqueue(x) => s.Goto(t, EnqLoadTail(x))
       case CallDequeue => s.Goto(t, DeqLoadHead))
    case EnqLoadTail(x) =>
      s.Goto(t, EnqLoadHead(x, s.tail))
    case EnqLoadHead(x, oldTail) =>
      if s.GetIndex(oldTail + 1) == s.GetIndex(s.head) then s.Goto(t, Idle(Enqueued(false)))
      else s.Goto(t, EnqCasTail(x, oldTail))
    case EnqCasTail(x, oldTail) =>
      if c.spurious || s.tail != oldTail then s.Goto(t, EnqLoadHead(x, s.tail))
      else s.(tail := oldTail + 1, log := s.log + [x]).Goto(t, EnqWriteBegin(x, oldTail))
    case EnqWriteBegin(x, ticket) =>
      var slot := s.SlotOf(ticket);
      s.(pool := s.pool[s.GetIndex(ticket) := slot.(ver := slot.ver + 1, writing := true)])
       .Goto(t, EnqWriteEnd(x, ticket))
    case EnqWriteEnd(x, ticket) =>
      s.(pool := s.pool[s.GetIndex(ticket) := Slot(x, s.SlotOf(ticket).ver + 1, false)])
       .Goto(t, EnqCasCommit(x, ticket))
    case EnqCasCommit(x, ticket) =>
      if c.spurious || s.commit != ticket then s
      else s.(commit := ticket + 1).Goto(t, Idle(Enqueued(true)))
    case DeqLoadHead =>
      s.Goto(t, DeqLoadCommit(s.head))
    case DeqLoadCommit(oldHead) =>
      if oldHead + 1 == s.commit then s.Goto(t, Idle(Dequeued(None)))
      else s.Goto(t, DeqReadBegin(oldHead))
    case DeqReadBegin(oldHead) =>
      s.Goto(t, DeqReadEnd(oldHead, s.SlotOf(oldHead + 1).ver))
    case DeqReadEnd(oldHead, ver) =>
      var slot := s.SlotOf(oldHead + 1);
      var v := if slot.ver == ver && !slot.writing then slot.val else c.torn;
      s.Goto(t, DeqCasHead(oldHead, v))
    case DeqCasHead(oldHead, v) =>
      if c.spurious || s.head != oldHead then s.Goto(t, DeqLoadCommit(s.head))
      else s.(head := oldHead + 1, out := s.out + [v]).Goto(t, Idle(Dequeued(Some(v))))
  }

  /** A run: any interleaving of any threads with any choices. */
  function Exec<T>(s: State<T>, schedule: seq<(Tid, Choice<T>)>): (s': State<T>)
    requires |s.pool| > 0
    ensures |s'.pool| == |s.pool|
    decreases |schedule|
  {
    if schedule == [] then s
    else
      var before := Exec(s, schedule[..|schedule| - 1]);
      var (t, c) := schedule[|schedule| - 1];
      Step(before, t, c)
  }

  // ---------------------------------------------------------------------
  // The invariant

  predicate Owns<T>(pc: Pc<T>) {
    pc.EnqWriteBegin? || pc.EnqWriteEnd? || pc.EnqCasCommit?
  }

  ghost predicate Counters<T>(s: State<T>) {
    && |s.pool| >= 2
    && s.head < s.commit <= s.tail <= s.head + |s.pool| - 1
    && |s.log| == s.tail - 1
    && s.out == s.log[..s.head]
  }

  // A slot that holds a whole, settled element.
  ghost predicate Holds<T>(s: State<T>, num: nat, x: T)
    requires |s.pool| > 0
  {
    s.SlotOf(num).val == x && !s.SlotOf(num).writing
  }

  ghost predicate CommittedAt<T>(s: State<T>, k: nat)
    requires Counters(s)
  {
    s.head < k < s.commit ==> Holds(s, k, s.log[k - 1])
  }

  // What thread position `pc` relies on in state `s`.
  ghost predicate Local<T>(s: State<T>, pc: Pc<T>)
    requires Counters(s)
  {
    match pc
    case EnqLoadHead(_, oldTail) => 1 <= oldTail <= s.tail
    case EnqCasTail(_, oldTail) =>
      1 <= oldTail <= s.tail && (oldTail == s.tail ==> s.tail < s.head + |s.pool| - 1)
    case EnqWriteBegin(x, k) => s.commit <= k < s.tail && s.log[k - 1] == x
    case EnqWriteEnd(x, k) => s.commit <= k < s.tail && s.log[k - 1] == x && s.SlotOf(k).writing
    case EnqCasCommit(x, k) => s.commit <= k < s.tail && s.log[k - 1] == x && Holds(s, k, x)
    case DeqLoadCommit(h) => h <= s.head
    case DeqReadBegin(h) => h <= s.head && (h == s.head ==> h + 1 < s.commit)
    case DeqReadEnd(h, ver) =>
      h <= s.head && (h == s.head ==> h + 1 < s.commit && s.SlotOf(h + 1).ver == ver)
    case DeqCasHead(h, v) =>
      h <= s.head && (h == s.head ==> h + 1 < s.commit && v == s.log[h])
    case _ => true
  }

  ghost predicate OwnedBy<T>(s: State<T>, k: nat, t: Tid) {
    t in s.threads && Owns(s.threads[t]) && s.threads[t].ticket == k
  }

  ghost predicate HasOwner<T>(s: State<T>, k: nat) {
    exists t :: OwnedBy(s, k, t)
  }

  // Every ticket between the commit counter and the tail has an owner, and only one.
  ghost predicate Tickets<T>(s: State<T>) {
    && (forall k: nat :: s.commit <= k < s.tail ==> HasOwner(s, k))
    && (forall k, t, u :: OwnedBy(s, k, t) && OwnedBy(s, k, u) ==> t == u)
  }

  ghost predicate Inv<T>(s: State<T>) {
    && Counters(s)
    && (forall k: nat :: CommittedAt(s, k))
    && (forall t :: t in s.threads ==> Local(s, s.threads[t]))
    && Tickets(s)
  }

  // Live tickets, those after `head`, never share a slot.
  lemma {:induction false} SlotsApart<T>(s: State<T>, a: nat, b: nat)
    requires Counters(s) && s.head < a < s.tail && s.head < b < s.tail && a != b
    ensures s.GetIndex(a) != s.GetIndex(b)
  {
    if a < b { DistinctIndex(|s.pool|, a, b); } else { DistinctIndex(|s.pool|, b, a); }
  }

  // The source spells the index without the remainder operator; the two agree.
  lemma IndexFormula<T>(s: State<T>, num: nat)
    requires |s.pool| > 0
    ensures s.GetIndex(num) == num - (num / |s.pool|) * |s.pool|
  {
  }

  // With a tail that is not stale, the index test of Enqueue is the test for a full queue.
  lemma FullMeets<T>(s: State<T>)
    requires Counters(s)
    ensures s.GetIndex(s.tail + 1) == s.GetIndex(s.head) <==> s.Size() == |s.pool| - 2
  {
    if s.tail + 1 < s.head + |s.pool| { DistinctIndex(|s.pool|, s.head, s.tail + 1); }
    else { AddModulus(|s.pool|, s.head); }
  }

  lemma InitInv<T>(size: nat, blank: T)
    ensures Inv(Init(size, blank))
  {
  }

  // ---------------------------------------------------------------------
  // Every step keeps the invariant

  lemma StepKeepsOwner<T>(s: State<T>, t: Tid, c: Choice<T>, k: nat, u: Tid)
    requires |s.pool| > 0 && OwnedBy(s, k, u)
    requires s.commit <= k && Step(s, t, c).commit <= k
    ensures OwnedBy(Step(s, t, c), k, u)
  {
  }

  // Ownership starts only with the compare-and-swap that issues the ticket.
  lemma OwnedBefore<T>(s: State<T>, t: Tid, c: Choice<T>, k: nat, u: Tid)
    requires Inv(s) && OwnedBy(Step(s, t, c), k, u)
    ensures OwnedBy(s, k, u) || (u == t && k == s.tail)
    ensures OwnedBy(s, k, u) ==> k < s.tail
  {
    assert u in s.threads ==> Local(s, s.threads[u]);
  }

  lemma StepTickets<T>(s: State<T>, t: Tid, c: Choice<T>)
    requires Inv(s)
    ensures Tickets(Step(s, t, c))
  {
    var s' := Step(s, t, c);
    forall k: nat | s'.commit <= k < s'.tail ensures HasOwner(s', k) {
      if k < s.tail {
        assert HasOwner(s, k);
        var u :| OwnedBy(s, k, u);
        StepKeepsOwner(s, t, c, k, u);
      } else { assert OwnedBy(s', k, t); }
    }
    forall k, u, v | OwnedBy(s', k, u) && OwnedBy(s', k, v) ensures u == v {
      OwnedBefore(s, t, c, k, u);
      OwnedBefore(s, t, c, k, v);
    }
  }

  lemma StepCounters<T>(s: State<T>, t: Tid, c: Choice<T>)
    requires Counters(s) && Local(s, s.At(t))
    ensures Counters(Step(s, t, c))
  {
  }

  // A step that leaves the slot of `k` alone, or writes another live slot.
  lemma StepCommitted<T>(s: State<T>, t: Tid, c: Choice<T>, k: nat)
    requires Inv(s) && Counters(Step(s, t, c))
    ensures CommittedAt(Step(s, t, c), k)
  {
    var pc := s.At(t);
    assert t in s.threads ==> Local(s, pc);
    assert CommittedAt(s, k);
    if s.head < k < s.tail && Owns(pc) && pc.ticket != k {
      SlotsApart(s, pc.ticket, k);
    }
  }

  // The other threads keep what they rely on, first against a slot write,
  lemma WriteOthers<T>(s: State<T>, t: Tid, c: Choice<T>, u: Tid)
    requires Inv(s) && u in s.threads && u != t
    requires s.At(t).EnqWriteBegin? || s.At(t).EnqWriteEnd?
    ensures Counters(Step(s, t, c)) && Local(Step(s, t, c), s.threads[u])
  {
    var ticket, other := s.At(t).ticket, s.threads[u];
    assert Local(s, s.At(t)) && Local(s, other);
    assert OwnedBy(s, ticket, t);
    if other.EnqCasCommit? || other.EnqWriteEnd? {
      assert OwnedBy(s, other.ticket, u);
      SlotsApart(s, ticket, other.ticket);
    }
    if other.DeqReadEnd? && other.oldHead == s.head {
      SlotsApart(s, ticket, s.head + 1);
    }
  }

  // then against a commit,
  lemma CommitOthers<T>(s: State<T>, t: Tid, c: Choice<T>, u: Tid)
    requires Inv(s) && Counters(Step(s, t, c)) && u in s.threads && u != t && s.At(t).EnqCasCommit?
    ensures Local(Step(s, t, c), s.threads[u])
  {
    var pc, other := s.At(t), s.threads[u];
    assert Local(s, pc) && Local(s, other);
    if Owns(other) {
      assert OwnedBy(s, pc.ticket, t);
      assert OwnedBy(s, other.ticket, u);
    }
  }

  // then against every other step.
  lemma StepOthers<T>(s: State<T>, t: Tid, c: Choice<T>, pc: Pc<T>)
    requires Counters(s) && Counters(Step(s, t, c)) && Local(s, pc)
    requires !s.At(t).EnqWriteBegin? && !s.At(t).EnqWriteEnd? && !s.At(t).EnqCasCommit?
    ensures Local(Step(s, t, c), pc)
  {
  }

  // The stepping thread finds what its next position relies on: inside Enqueue,
  lemma EnqueueSelf<T>(s: State<T>, t: Tid, c: Choice<T>)
    requires Counters(s) && Local(s, s.At(t)) && CommittedAt(s, s.head + 1)
    requires InEnqueue(s.At(t))
    ensures Counters(Step(s, t, c)) && Local(Step(s, t, c), Step(s, t, c).At(t))
  {
    if s.At(t).EnqLoadHead? { FullMeets(s); }
  }

  // and outside it.
  lemma DequeueSelf<T>(s: State<T>, t: Tid, c: Choice<T>)
    requires Counters(s) && Local(s, s.At(t)) && CommittedAt(s, s.head + 1)
    requires !InEnqueue(s.At(t))
    ensures Counters(Step(s, t, c)) && Local(Step(s, t, c), Step(s, t, c).At(t))
  {
  }

  lemma StepInv<T>(s: State<T>, t: Tid, c: Choice<T>)
    requires Inv(s)
    ensures Inv(Step(s, t, c))
  {
    assert t in s.threads ==> Local(s, s.At(t));
    assert CommittedAt(s, s.head + 1);
    StepCounters(s, t, c);
    StepTickets(s, t, c);
    if InEnqueue(s.At(t)) {
      EnqueueSelf(s, t, c);
    } else {
      DequeueSelf(s, t, c);
    }
    forall k: nat { StepCommitted(s, t, c, k); }
    forall u | u in s.threads && u != t ensures Local(Step(s, t, c), s.threads[u]) {
      if s.At(t).EnqWriteBegin? || s.At(t).EnqWriteEnd? { WriteOthers(s, t, c, u); }
      else if s.At(t).EnqCasCommit? { CommitOthers(s, t, c, u); }
      else { StepOthers(s, t, c, s.threads[u]); }
    }
  }

  lemma {:induction false} RunInv<T>(size: nat, blank: T, schedule: seq<(Tid, Choice<T>)>)
    ensures Inv(Exec(Init(size, blank), schedule))
    ensures |Exec(Init(size, blank), schedule).pool| == size + 2
    decreases |schedule|
  {
    if schedule == [] {
      InitInv(size, blank);
    } else {
      var (t, c) := schedule[|schedule| - 1];
      RunInv(size, blank, schedule[..|schedule| - 1]);
      StepInv(Exec(Init(size, blank), schedule[..|schedule| - 1]), t, c);
    }
  }

  // ---------------------------------------------------------------------
  // What callers see

  /** First in, first out: in every run the elements handed out are a prefix of
      the committed ones in ticket order, so none is lost, repeated, reordered or
      read from a slot that is being written. */
  lemma DequeuedInOrder<T>(size: nat, blank: T, schedule: seq<(Tid, Choice<T>)>)
    ensures var s := Exec(Init(size, blank), schedule);
            && 1 <= s.commit <= |s.log| + 1
            && s.out <= s.log[..s.commit - 1]
            && 0 <= s.Size() <= size
  {
    RunInv(size, blank, schedule);
  }

  /** A Dequeue that answers with an element takes the oldest committed one. */
  lemma DequeueAnswers<T>(s: State<T>, t: Tid, c: Choice<T>)
    requires Inv(s) && s.At(t).DeqCasHead? && Step(s, t, c).At(t).Idle?
    ensures s.head + 1 < s.commit
    ensures Step(s, t, c).At(t).answer == Dequeued(Some(s.log[s.head]))
    ensures Step(s, t, c).out == s.out + [s.log[s.head]] && Step(s, t, c).head == s.head + 1
  {
    assert Local(s, s.At(t));
  }

  /** A Dequeue answers "empty" exactly when nothing was committed at its load. */
  lemma DequeueEmpty<T>(s: State<T>, t: Tid, c: Choice<T>)
    requires Inv(s) && s.At(t).DeqLoadCommit? && s.At(t).oldHead == s.head
    ensures Step(s, t, c).At(t) == Idle(Dequeued(None)) <==> s.log[s.head..s.commit - 1] == []
  {
  }

  // A copy that overlaps a write of its slot may read anything.
  lemma TornRead<T>(s: State<T>, t: Tid, c: Choice<T>)
    requires |s.pool| > 0 && s.At(t).DeqReadEnd?
    requires var slot := s.SlotOf(s.At(t).oldHead + 1); slot.writing || slot.ver != s.At(t).ver
    ensures Step(s, t, c) == s.Goto(t, DeqCasHead(s.At(t).oldHead, c.torn))
  {
  }

  // With a stale head the answer "empty" is impossible.
  lemma DequeueStale<T>(s: State<T>, t: Tid, c: Choice<T>)
    requires Inv(s) && s.At(t).DeqLoadCommit? && s.At(t).oldHead != s.head
    ensures !Step(s, t, c).At(t).Idle?
  {
    assert Local(s, s.At(t));
  }

  /** An Enqueue that succeeds has put its element in the place its ticket gives it. */
  lemma EnqueueAnswers<T>(s: State<T>, t: Tid, c: Choice<T>)
    requires Inv(s) && s.At(t).EnqCasCommit? && Step(s, t, c).At(t).Idle?
    ensures var s' := Step(s, t, c);
            && s'.At(t).answer == Enqueued(true)
            && s'.log[..s'.commit - 1] == s.log[..s.commit - 1] + [s.At(t).x]
  {
    assert Local(s, s.At(t));
    assert s.log[..s.commit] == s.log[..s.commit - 1] + [s.log[s.commit - 1]];
  }

  /** With a tail that is not stale: the queue holds `size` elements. With a stale one:
      the head has passed that tail by one more than a multiple of the pool size. */
  ghost predicate LooksFull<T>(s: State<T>, oldTail: nat)
    requires |s.pool| >= 2
  {
    || (oldTail == s.tail && s.Size() == |s.pool| - 2)
    || (oldTail < s.head && (s.head - oldTail - 1) % |s.pool| == 0)
  }

  // That is the index test of Enqueue, for the tail that it has loaded.
  lemma RefusesExactly<T>(s: State<T>, oldTail: nat)
    requires Counters(s) && oldTail <= s.tail
    ensures s.GetIndex(oldTail + 1) == s.GetIndex(s.head) <==> LooksFull(s, oldTail)
  {
    if oldTail == s.tail {
      FullMeets(s);
    } else if oldTail < s.head {
      SameRemainder(|s.pool|, oldTail + 1, s.head);
    } else {
      DistinctIndex(|s.pool|, s.head, oldTail + 1);
    }
  }

  /** When a load of the head refuses. A refusal by a queue that is not full comes from
      the second case. */
  lemma EnqueueRefuses<T>(s: State<T>, t: Tid, c: Choice<T>)
    requires Inv(s) && s.At(t).EnqLoadHead?
    ensures var oldTail := s.At(t).oldTail;
            Step(s, t, c).At(t) == Idle(Enqueued(false)) <==>
              (oldTail == s.tail && s.Size() == |s.pool| - 2)
              || (oldTail < s.head && (s.head - oldTail - 1) % |s.pool| == 0)
    ensures var oldTail := s.At(t).oldTail;
            Step(s, t, c).At(t) == Idle(Enqueued(false)) && s.Size() < |s.pool| - 2 <==>
              oldTail < s.head && (s.head - oldTail - 1) % |s.pool| == 0 && s.Size() < |s.pool| - 2
  {
    assert Local(s, s.At(t));
    RefusesExactly(s, s.At(t).oldTail);
  }

  predicate InEnqueue<T>(pc: Pc<T>) {
    pc.EnqLoadTail? || pc.EnqLoadHead? || pc.EnqCasTail? || Owns(pc)
  }

  predicate InDequeue<T>(pc: Pc<T>) {
    !pc.Idle? && !InEnqueue(pc)
  }

  /** The ways out of Enqueue: with true from the compare-and-swap that commits, with
      false from a load of the head that finds the queue full, or full by the stale
      tail. Any other step stays inside with the same element; a lost race for the tail
      goes on with the tail as it is now. */
  lemma EnqueueLeaves<T>(s: State<T>, t: Tid, c: Choice<T>)
    requires Inv(s) && InEnqueue(s.At(t))
    ensures var (pc, s') := (s.At(t), Step(s, t, c));
            && (s'.At(t).Idle? ==>
                  || (s'.At(t) == Idle(Enqueued(true)) && pc.EnqCasCommit? && s'.commit == s.commit + 1)
                  || (s'.At(t) == Idle(Enqueued(false)) && pc.EnqLoadHead? && LooksFull(s, pc.oldTail)
                      && s' == s.Goto(t, s'.At(t))))
            && (!s'.At(t).Idle? ==> InEnqueue(s'.At(t)) && s'.At(t).x == pc.x && s'.commit == s.commit)
            && (pc.EnqCasTail? ==> Owns(s'.At(t)) || s' == s.Goto(t, EnqLoadHead(pc.x, s.tail)))
            && (Owns(pc) && !s'.At(t).Idle? ==> Owns(s'.At(t)) && s'.At(t).ticket == pc.ticket)
            && (c.spurious ==> s'.tail == s.tail && s'.commit == s.commit)
    ensures Step(s, t, c).head == s.head && Step(s, t, c).out == s.out
  {
    if s.At(t).EnqLoadHead? { EnqueueRefuses(s, t, c); }
  }

  /** The ways out of Dequeue: with the oldest committed element, or with none from a
      load that finds nothing committed; any other step only moves on inside. */
  lemma DequeueLeaves<T>(s: State<T>, t: Tid, c: Choice<T>)
    requires Inv(s) && InDequeue(s.At(t))
    ensures var (pc, s') := (s.At(t), Step(s, t, c));
            && (s'.At(t).Idle? ==>
                  || (pc.DeqCasHead? && s.head + 1 < s.commit && s'.head == s.head + 1
                      && s'.At(t) == Idle(Dequeued(Some(s.log[s.head]))))
                  || (pc.DeqLoadCommit? && pc.oldHead == s.head && s.commit == s.head + 1
                      && s' == s.Goto(t, Idle(Dequeued(None)))))
            && (!s'.At(t).Idle? ==> InDequeue(s'.At(t)) && s' == s.Goto(t, s'.At(t)))
            && (c.spurious ==> s'.head == s.head)
    ensures Step(s, t, c).(threads := s.threads) ==
            s.(head := Step(s, t, c).head, out := Step(s, t, c).out)
  {
    assert Local(s, s.At(t));
  }

  /** What makes an answer right in the state in which it is given. */
  ghost predicate Justified<T>(s: State<T>, t: Tid, a: Answer<T>)
    requires Counters(s)
  {
    match a
    case NoAnswer => false
    case Enqueued(true) =>
      s.At(t).EnqCasCommit? && s.At(t).ticket == s.commit < s.tail && s.log[s.commit - 1] == s.At(t).x
    case Enqueued(false) => s.At(t).EnqLoadHead? && LooksFull(s, s.At(t).oldTail)
    case Dequeued(None) => s.At(t).DeqLoadCommit? && s.log[s.head..s.commit - 1] == []
    case Dequeued(Some(v)) => s.At(t).DeqCasHead? && s.head + 1 < s.commit && v == s.log[s.head]
  }

  lemma JustifiedStep<T>(s: State<T>, t: Tid, c: Choice<T>)
    requires Inv(s) && !s.At(t).Idle? && Step(s, t, c).At(t).Idle?
    ensures Justified(s, t, Step(s, t, c).At(t).answer)
  {
    assert Local(s, s.At(t));
    if InEnqueue(s.At(t)) { EnqueueLeaves(s, t, c); } else { DequeueLeaves(s, t, c); }
  }

  // Only the thread that steps moves.
  lemma OthersStay<T>(s: State<T>, t: Tid, c: Choice<T>, u: Tid)
    requires |s.pool| > 0 && u != t
    ensures Step(s, t, c).At(u) == s.At(u)
  {
  }

  // The step of `schedule` at `i` gives thread `t` the answer `a`, and rightly.
  ghost predicate GivenAt<T>(s0: State<T>, schedule: seq<(Tid, Choice<T>)>, i: nat, t: Tid, a: Answer<T>)
    requires |s0.pool| > 0 && i < |schedule|
  {
    var (before, after) := (Exec(s0, schedule[..i]), Exec(s0, schedule[..i + 1]));
    && schedule[i].0 == t && after.At(t) == Idle(a)
    && Inv(before) && Justified(before, t, a)
  }

  /** In every run, every answer that a thread holds was given by one of its own steps,
      and was right in the state of that step. */
  lemma {:induction false} AnswersAreRight<T>(size: nat, blank: T, schedule: seq<(Tid, Choice<T>)>, t: Tid)
    requires Exec(Init(size, blank), schedule).At(t).Idle?
    requires Exec(Init(size, blank), schedule).At(t).answer != NoAnswer
    ensures exists i: nat :: i < |schedule| &&
              GivenAt(Init(size, blank), schedule, i, t, Exec(Init(size, blank), schedule).At(t).answer)
    decreases |schedule|
  {
    var n := |schedule| - 1;
    var s0 := Init(size, blank);
    var (u, c) := schedule[n];
    var before := Exec(s0, schedule[..n]);
    assert schedule[..n + 1] == schedule;
    RunInv(size, blank, schedule[..n]);
    if u == t {
      JustifiedStep(before, t, c);
      assert GivenAt(s0, schedule, n, t, Exec(s0, schedule).At(t).answer);
    } else {
      OthersStay(before, u, c, t);
      AnswersAreRight(size, blank, schedule[..n], t);
      var i: nat :| i < n && GivenAt(s0, schedule[..n], i, t, before.At(t).answer);
      GivenInPrefix(s0, schedule, n, i, t, before.At(t).answer);
    }
  }

  lemma GivenInPrefix<T>(s0: State<T>, schedule: seq<(Tid, Choice<T>)>, n: nat, i: nat, t: Tid, a: Answer<T>)
    requires |s0.pool| > 0 && i < n <= |schedule| && GivenAt(s0, schedule[..n], i, t, a)
    ensures GivenAt(s0, schedule, i, t, a)
  {
    assert schedule[..n][..i] == schedule[..i] && schedule[..n][..i + 1] == schedule[..i + 1];
  }

  /** Two threads inside Enqueue never own the same slot. */
  lemma WritersApart<T>(s: State<T>, t: Tid, u: Tid)
    requires Inv(s) && t != u && Owns(s.At(t)) && Owns(s.At(u))
    ensures s.GetIndex(s.At(t).ticket) != s.GetIndex(s.At(u).ticket)
  {
    assert Local(s, s.At(t)) && Local(s, s.At(u));
    assert OwnedBy(s, s.At(t).ticket, t) && OwnedBy(s, s.At(u).ticket, u);
    SlotsApart(s, s.At(t).ticket, s.At(u).ticket);
  }

  /** Nothing is stuck: an issued ticket is uncommitted only while its owner is at work. */
  lemma NothingStuck<T>(s: State<T>)
    requires Inv(s) && forall t :: !Owns(s.At(t))
    ensures s.commit == s.tail && |s.log| == |s.out| + s.Size()
  {
    assert s.commit < s.tail ==> HasOwner(s, s.commit);
    assert forall k, t :: OwnedBy(s, k, t) ==> Owns(s.At(t));
  }

  // `n` steps of one thread in a row.
  function Steps<T>(s: State<T>, t: Tid, c: Choice<T>, n: nat): (s': State<T>)
    requires |s.pool| > 0
    ensures |s'.pool| == |s.pool|
    decreases n
  {
    if n == 0 then s else Steps(Step(s, t, c), t, c, n - 1)
  }

  lemma {:induction false} StepsInv<T>(s: State<T>, t: Tid, c: Choice<T>, n: nat)
    requires Inv(s)
    ensures Inv(Steps(s, t, c, n))
    decreases n
  {
    if n > 0 {
      StepInv(s, t, c);
      StepsInv(Step(s, t, c), t, c, n - 1);
    }
  }

  lemma {:induction false} StepsAdd<T>(s: State<T>, t: Tid, c: Choice<T>, m: nat, n: nat)
    requires |s.pool| > 0
    ensures Steps(s, t, c, m + n) == Steps(Steps(s, t, c, m), t, c, n)
    decreases m
  {
    if m > 0 { StepsAdd(Step(s, t, c), t, c, m - 1, n); }
  }

  // How far a call that nobody interrupts is from its end.
  function DequeueRank<T>(s: State<T>, pc: Pc<T>): nat {
    match pc
    case DeqLoadHead => 5
    case DeqLoadCommit(h) => if h == s.head then 4 else 8
    case DeqReadBegin(h) => if h == s.head then 3 else 7
    case DeqReadEnd(h, _) => if h == s.head then 2 else 6
    case DeqCasHead(h, _) => if h == s.head then 1 else 5
    case _ => 0
  }

  /** A Dequeue that is left alone ends, wherever it stands and however stale what it
      has loaded: with the oldest committed element, or with none if there is none. */
  lemma {:induction false} DequeueFinishes<T>(s: State<T>, t: Tid, c: Choice<T>) returns (n: nat)
    requires Inv(s) && InDequeue(s.At(t)) && !c.spurious
    ensures if s.commit == s.head + 1
            then Steps(s, t, c, n) == s.Goto(t, Idle(Dequeued(None)))
            else Steps(s, t, c, n) == s.(head := s.head + 1, out := s.out + [s.log[s.head]])
                                       .Goto(t, Idle(Dequeued(Some(s.log[s.head]))))
    decreases DequeueRank(s, s.At(t))
  {
    var s' := Step(s, t, c);
    assert Local(s, s.At(t));
    if s'.At(t).Idle? {
      DequeueLeaves(s, t, c);
      n := 1;
      assert Steps(s', t, c, 0) == s';
    } else {
      DequeueMoves(s, t, c);
      StepInv(s, t, c);
      n := DequeueFinishes(s', t, c);
      assert s'.threads[t := Idle(Dequeued(None))] == s.threads[t := Idle(Dequeued(None))];
      n := n + 1;
    }
  }

  lemma DequeueMoves<T>(s: State<T>, t: Tid, c: Choice<T>)
    requires Inv(s) && InDequeue(s.At(t)) && !c.spurious && !Step(s, t, c).At(t).Idle?
    ensures DequeueRank(Step(s, t, c), Step(s, t, c).At(t)) < DequeueRank(s, s.At(t))
    ensures InDequeue(Step(s, t, c).At(t)) && Step(s, t, c) == s.Goto(t, Step(s, t, c).At(t))
  {
    DequeueLeaves(s, t, c);
  }

  function EnqueueRank<T>(s: State<T>, pc: Pc<T>): nat {
    match pc
    case EnqLoadTail(_) => 7
    case EnqLoadHead(_, tail) => if tail == s.tail then 6 else 8
    case EnqCasTail(_, tail) => if tail == s.tail then 5 else 7
    case EnqWriteBegin(_, _) => 3
    case EnqWriteEnd(_, _) => 2
    case EnqCasCommit(_, _) => 1
    case _ => 0
  }

  lemma EnqueueMoves<T>(s: State<T>, t: Tid, c: Choice<T>)
    requires Inv(s) && InEnqueue(s.At(t)) && !c.spurious && !Step(s, t, c).At(t).Idle?
    requires Owns(s.At(t)) ==> s.At(t).ticket == s.commit
    ensures EnqueueRank(Step(s, t, c), Step(s, t, c).At(t)) < EnqueueRank(s, s.At(t))
  {
    assert Local(s, s.At(t));
  }

  /** How an Enqueue inside which `t` is in `s` ends without interference: its element
      is the next one committed, unless it has no ticket yet and either the queue is full
      or the tail it has loaded makes it look full. */
  ghost predicate EnqueueDone<T>(s: State<T>, t: Tid, s': State<T>)
    requires Counters(s) && InEnqueue(s.At(t))
  {
    var pc := s.At(t);
    && Counters(s') && s'.head == s.head && s'.out == s.out
    && (if !Owns(pc) && (s.Size() == |s.pool| - 2 || (pc.EnqLoadHead? && LooksFull(s, pc.oldTail)))
        then s' == s.Goto(t, Idle(Enqueued(false)))
        else s'.At(t) == Idle(Enqueued(true))
             && s'.log[..s'.commit - 1] == s.log[..s.commit - 1] + [pc.x])
  }

  lemma EnqueueEndsNow<T>(s: State<T>, t: Tid, c: Choice<T>)
    requires Inv(s) && InEnqueue(s.At(t)) && Step(s, t, c).At(t).Idle?
    ensures EnqueueDone(s, t, Step(s, t, c))
  {
    StepInv(s, t, c);
    EnqueueLeaves(s, t, c);
    if s.At(t).EnqCasCommit? { EnqueueAnswers(s, t, c); }
  }

  /** An Enqueue that is left alone with every earlier ticket committed ends, wherever
      it stands and however stale the tail it has loaded. */
  lemma {:induction false} EnqueueFinishes<T>(s: State<T>, t: Tid, c: Choice<T>) returns (n: nat)
    requires Inv(s) && InEnqueue(s.At(t)) && !c.spurious
    requires if Owns(s.At(t)) then s.At(t).ticket == s.commit else s.tail == s.commit
    ensures EnqueueDone(s, t, Steps(s, t, c, n))
    decreases EnqueueRank(s, s.At(t))
  {
    var s' := Step(s, t, c);
    if s'.At(t).Idle? {
      EnqueueEndsNow(s, t, c);
      n := 1;
      assert Steps(s', t, c, 0) == s';
    } else {
      EnqueueMoves(s, t, c);
      StepInv(s, t, c);
      EnqueueLeaves(s, t, c);
      EnqueueGoesOn(s, t, c);
      n := EnqueueFinishes(s', t, c);
      EnqueueSame(s, t, s', Steps(s', t, c, n));
      n := n + 1;
    }
  }

  lemma EnqueueSame<T>(s: State<T>, t: Tid, s': State<T>, end: State<T>)
    requires Counters(s) && Counters(s') && InEnqueue(s.At(t)) && InEnqueue(s'.At(t))
    requires s'.At(t).x == s.At(t).x && s'.head == s.head && s'.out == s.out
    requires GoesOn(s, t, s') && EnqueueDone(s', t, end)
    ensures EnqueueDone(s, t, end)
  {
  }

  // What a step inside Enqueue leaves as it was: whatever decides the answer.
  ghost predicate GoesOn<T>(s: State<T>, t: Tid, s': State<T>)
    requires Counters(s) && Counters(s')
  {
    var (pc, pc') := (s.At(t), s'.At(t));
    && (if Owns(pc') then pc'.ticket == s'.commit else s'.tail == s'.commit && s' == s.Goto(t, pc'))
    && (Owns(pc') && !Owns(pc) ==> s.Size() < |s.pool| - 2)
    && (Owns(pc) ==> Owns(pc'))
    && s'.log[..s'.commit - 1] == s.log[..s.commit - 1]
    && (pc'.EnqLoadHead? ==> pc'.oldTail == s'.tail)
    && (pc.EnqLoadHead? ==> !LooksFull(s, pc.oldTail))
  }

  lemma EnqueueGoesOn<T>(s: State<T>, t: Tid, c: Choice<T>)
    requires Inv(s) && InEnqueue(s.At(t)) && !c.spurious && !Step(s, t, c).At(t).Idle?
    requires if Owns(s.At(t)) then s.At(t).ticket == s.commit else s.tail == s.commit
    requires Counters(Step(s, t, c))
    ensures GoesOn(s, t, Step(s, t, c))
  {
    assert Local(s, s.At(t));
    if s.At(t).EnqLoadHead? { EnqueueRefuses(s, t, c); }
  }

  // The first half of a Dequeue alone.
  lemma LoadAndRead<T>(s: State<T>, t: Tid, c: Choice<T>)
    requires Counters(s) && s.At(t).Idle? && c.call.CallDequeue?
    ensures s.commit == s.head + 1 ==> Steps(s, t, c, 3) == s.Goto(t, Idle(Dequeued(None)))
    ensures s.commit > s.head + 1 ==>
              Steps(s, t, c, 4) == s.Goto(t, DeqReadEnd(s.head, s.SlotOf(s.head + 1).ver))
  {
    var s1 := s.Goto(t, DeqLoadHead);
    var s2 := s.Goto(t, DeqLoadCommit(s.head));
    assert Step(s1, t, c) == s2;
    if s.commit == s.head + 1 {
      assert Step(s2, t, c) == s.Goto(t, Idle(Dequeued(None)));
    } else {
      var s3 := s.Goto(t, DeqReadBegin(s.head));
      assert Step(s2, t, c) == s3;
      assert Steps(s, t, c, 4) == Steps(s3, t, c, 1);
    }
  }

  // The first half of an Enqueue alone: a ticket, or a refusal.
  lemma TakeTicket<T>(s: State<T>, t: Tid, c: Choice<T>)
    requires Counters(s) && s.At(t).Idle? && c.call.CallEnqueue? && !c.spurious
    ensures s.Size() == |s.pool| - 2 ==> Steps(s, t, c, 3) == s.Goto(t, Idle(Enqueued(false)))
    ensures s.Size() < |s.pool| - 2 ==>
              Steps(s, t, c, 4) == s.(tail := s.tail + 1, log := s.log + [c.call.element])
                                    .Goto(t, EnqWriteBegin(c.call.element, s.tail))
  {
    var x := c.call.element;
    FullMeets(s);
    var s1 := s.Goto(t, EnqLoadTail(x));
    var s2 := s.Goto(t, EnqLoadHead(x, s.tail));
    assert Step(s1, t, c) == s2;
    if s.Size() == |s.pool| - 2 {
      assert Step(s2, t, c) == s.Goto(t, Idle(Enqueued(false)));
    } else {
      var s3 := s.Goto(t, EnqCasTail(x, s.tail));
      assert Step(s2, t, c) == s3;
      assert Steps(s, t, c, 4) == Steps(s3, t, c, 1);
    }
  }

  // The second half: write, then commit once every earlier ticket is committed.
  lemma FillTicket<T>(s: State<T>, t: Tid, c: Choice<T>)
    requires Counters(s) && s.At(t).EnqWriteBegin? && s.At(t).ticket == s.commit && !c.spurious
    ensures var (x, k) := (s.At(t).x, s.commit);
            && Steps(s, t, c, 2) == s.(pool := s.pool[s.GetIndex(k) := Slot(x, s.SlotOf(k).ver + 2, false)])
                                     .Goto(t, EnqCasCommit(x, k))
            && Steps(s, t, c, 3) == Steps(s, t, c, 2).(commit := k + 1).Goto(t, Idle(Enqueued(true)))
  {
  }

  // A whole Enqueue alone, with no other ticket half done.
  lemma EnqueueAlone<T>(s: State<T>, t: Tid, c: Choice<T>)
    requires Counters(s) && s.At(t).Idle? && s.commit == s.tail && c.call.CallEnqueue? && !c.spurious
    ensures var x := c.call.element;
            if s.Size() == |s.pool| - 2
            then Steps(s, t, c, 3) == s.Goto(t, Idle(Enqueued(false)))
            else Steps(s, t, c, 7) ==
                 State(s.head, s.tail + 1, s.commit + 1,
                       s.pool[s.GetIndex(s.tail) := Slot(x, s.SlotOf(s.tail).ver + 2, false)],
                       s.threads[t := Idle(Enqueued(true))], s.log + [x], s.out)
  {
    TakeTicket(s, t, c);
    if s.Size() < |s.pool| - 2 {
      StepsAdd(s, t, c, 4, 3);
      var s4 := s.(tail := s.tail + 1, log := s.log + [c.call.element])
                 .Goto(t, EnqWriteBegin(c.call.element, s.tail));
      FillTicket(s4, t, c);
    }
  }

  // A whole Dequeue alone.
  lemma DequeueAlone<T>(s: State<T>, t: Tid, c: Choice<T>)
    requires Counters(s) && CommittedAt(s, s.head + 1)
    requires s.At(t).Idle? && c.call.CallDequeue? && !c.spurious
    ensures if s.commit == s.head + 1
            then Steps(s, t, c, 3) == s.Goto(t, Idle(Dequeued(None)))
            else Steps(s, t, c, 6) ==
                 s.(head := s.head + 1, out := s.out + [s.log[s.head]])
                  .Goto(t, Idle(Dequeued(Some(s.log[s.head]))))
  {
    LoadAndRead(s, t, c);
    if s.commit > s.head + 1 {
      StepsAdd(s, t, c, 4, 2);
    }
  }

  // Where an Enqueue that runs alone ends, after `n` steps.
  lemma EnqueueEnds<T>(s: State<T>, t: Tid, c: Choice<T>) returns (s': State<T>, n: nat)
    requires Inv(s) && s.At(t).Idle? && s.commit == s.tail && c.call.CallEnqueue? && !c.spurious
    ensures Inv(s') && s' == Steps(s, t, c, n)
    ensures if s.Size() == |s.pool| - 2
            then s' == s.Goto(t, Idle(Enqueued(false)))
            else s' == State(s.head, s.tail + 1, s.commit + 1,
                             s.pool[s.GetIndex(s.tail) := Slot(c.call.element, s.SlotOf(s.tail).ver + 2, false)],
                             s.threads[t := Idle(Enqueued(true))], s.log + [c.call.element], s.out)
  {
    EnqueueAlone(s, t, c);
    n := if s.Size() == |s.pool| - 2 then 3 else 7;
    s' := Steps(s, t, c, n);
    StepsInv(s, t, c, n);
  }

  lemma DequeueEnds<T>(s: State<T>, t: Tid, c: Choice<T>) returns (s': State<T>, n: nat)
    requires Inv(s) && s.At(t).Idle? && c.call.CallDequeue? && !c.spurious
    ensures Inv(s') && s' == Steps(s, t, c, n) && (s.commit > s.head + 1 ==> s.head < |s.log|)
    ensures if s.commit == s.head + 1
            then s' == s.Goto(t, Idle(Dequeued(None)))
            else s' == s.(head := s.head + 1, out := s.out + [s.log[s.head]])
                        .Goto(t, Idle(Dequeued(Some(s.log[s.head]))))
  {
    assert CommittedAt(s, s.head + 1);
    DequeueAlone(s, t, c);
    n := if s.commit == s.head + 1 then 3 else 6;
    s' := Steps(s, t, c, n);
    StepsInv(s, t, c, n);
  }

  // One element through an empty queue of size 1.
  function PassOne<T>(s: State<T>, t: Tid, x: T): State<T>
    requires |s.pool| > 0
  {
    Steps(Steps(s, t, Choice(CallEnqueue(x), false, x), 7), t, Choice(CallDequeue, false, x), 6)
  }

  lemma PassOneInv<T>(s: State<T>, t: Tid, x: T)
    requires Inv(s)
    ensures Inv(PassOne(s, t, x))
  {
    StepsInv(s, t, Choice(CallEnqueue(x), false, x), 7);
    StepsInv(Steps(s, t, Choice(CallEnqueue(x), false, x), 7), t, Choice(CallDequeue, false, x), 6);
  }

  lemma PassOneEffect<T>(s: State<T>, t: Tid, x: T)
    requires Counters(s) && s.At(t).Idle? && s.commit == s.tail && s.Size() == 0 && |s.pool| == 3
    ensures var s' := PassOne(s, t, x);
            && Counters(s') && s'.At(t).Idle? && s'.Size() == 0 && |s'.pool| == 3
            && s'.commit == s'.tail == s.tail + 1 && s'.threads.Keys == s.threads.Keys + {t}
            && forall u :: u != t ==> s'.At(u) == s.At(u)
  {
    EnqueueAlone(s, t, Choice(CallEnqueue(x), false, x));
    DequeueAlone(Steps(s, t, Choice(CallEnqueue(x), false, x), 7), t, Choice(CallDequeue, false, x));
  }

  /** "Refuses only when full" is false of concurrent calls: in a queue of size 1,
      thread 0 loads the tail, thread 1 passes two elements through the queue, and
      thread 0 is then refused although the queue is empty. */
  lemma StaleTailRefused<T>(x: T)
    ensures var enq := Choice(CallEnqueue(x), false, x);
            var s := PassOne(PassOne(Steps(Init(1, x), 0, enq, 2), 1, x), 1, x);
            && Inv(s) && s.Size() == 0 && s.commit == s.tail
            && Step(s, 0, enq) == s.Goto(0, Idle(Enqueued(false)))
  {
    var enq := Choice(CallEnqueue(x), false, x);
    var s0 := Steps(Init(1, x), 0, enq, 2);
    LoadTail(x, enq);
    PassOneEffect(s0, 1, x);
    var s1 := PassOne(s0, 1, x);
    PassOneEffect(s1, 1, x);
    PassOneInv(s0, 1, x);
    PassOneInv(s1, 1, x);
    StaleStep(PassOne(s1, 1, x), x);
  }

  lemma StaleStep<T>(s: State<T>, x: T)
    requires |s.pool| == 3 && s.head == 2 && s.At(0) == EnqLoadHead(x, 1)
    ensures Step(s, 0, Choice(CallEnqueue(x), false, x)) == s.Goto(0, Idle(Enqueued(false)))
  {
  }

  lemma LoadTail<T>(x: T, enq: Choice<T>)
    requires enq == Choice(CallEnqueue(x), false, x)
    ensures Steps(Init(1, x), 0, enq, 2) == Init(1, x).Goto(0, EnqLoadHead(x, 1))
    ensures Inv(Steps(Init(1, x), 0, enq, 2))
  {
    InitInv(1, x);
    StepsInv(Init(1, x), 0, enq, 2);
    var s1 := Step(Init(1, x), 0, enq);
    assert s1 == Init(1, x).Goto(0, EnqLoadTail(x));
    assert Step(s1, 0, enq) == Init(1, x).Goto(0, EnqLoadHead(x, 1));
  }

  // ---------------------------------------------------------------------
  // The object itself

  /** The queue as the source declares it, for a thread that runs alone: every
      statement takes the step of the machine that it is, so what is proved of all
      runs holds of this object too. Other threads may rest anywhere, except that
      Enqueue needs every issued ticket to be committed, or its last loop waits. */
  class Queue<T> {
    var head: nat
    var tail: nat
    var commit: nat
    const poolSize: nat
    const pool: array<T>
    ghost var machine: State<T>

    ghost predicate Valid()
      reads this, pool
    {
      && Inv(machine)
      && machine.head == head && machine.tail == tail && machine.commit == commit
      && poolSize == pool.Length == |machine.pool|
      && forall i :: 0 <= i < poolSize ==> pool[i] == machine.pool[i].val
    }

    // The committed elements, oldest first.
    ghost function Contents(): (r: seq<T>)
      requires Valid()
      reads this, pool
    {
      machine.log[head..commit - 1]
    }

    lemma ContentsInPool(i: nat)
      requires Valid() && i < |Contents()|
      ensures Contents()[i] == pool[(head + 1 + i) % poolSize]
    {
      assert CommittedAt(machine, head + 1 + i);
    }

    constructor (size: nat, blank: T)
      ensures Valid() && fresh(pool) && machine == Init(size, blank)
      ensures Contents() == [] && poolSize == size + 2
    {
      head, tail, commit, poolSize := 0, 1, 1, size + 2;
      pool := new T[size + 2](_ => blank);
      machine := Init(size, blank);
    }

    function GetIndex(num: nat): nat
      requires poolSize > 0
    {
      num % poolSize
    }

    lemma IndexTest()
      requires Valid()
      ensures GetIndex(tail + 1) == GetIndex(head) <==> tail - head - 1 == poolSize - 2
      ensures GetIndex(tail) == machine.GetIndex(tail)
    {
      FullMeets(machine);
    }

    method Enqueue(ghost t: Tid, x: T) returns (ok: bool)
      requires Valid() && machine.At(t).Idle? && commit == tail
      modifies this, pool
      ensures Valid() && commit == tail
      ensures ok == (|old(Contents())| < poolSize - 2)
      ensures Contents() == if ok then old(Contents()) + [x] else old(Contents())
      ensures machine.threads == old(machine.threads)[t := Idle(Enqueued(ok))]
    {
      ghost var next, steps := EnqueueEnds(machine, t, Choice(CallEnqueue(x), false, x));
      IndexTest();
      machine := next;
      var oldTail := tail;
      var newTail := oldTail + 1;
      if GetIndex(newTail) == GetIndex(head) {
        return false;
      }
      tail := newTail;
      pool[GetIndex(oldTail)] := x;
      commit := newTail;
      return true;
    }

    method Dequeue(ghost t: Tid) returns (element: Option<T>)
      requires Valid() && machine.At(t).Idle?
      modifies this
      ensures Valid() && commit == old(commit) && tail == old(tail)
      ensures element == if old(Contents()) == [] then None else Some(old(Contents())[0])
      ensures Contents() == if old(Contents()) == [] then [] else old(Contents())[1..]
      ensures machine.threads == old(machine.threads)[t := Idle(Dequeued(element))]
    {
      ghost var next, steps := DequeueEnds(machine, t, Choice(CallDequeue, false, machine.pool[0].val));
      assert CommittedAt(machine, head + 1);
      machine := next;
      var oldHead := head;
      var newHead := oldHead + 1;
      if newHead == commit {
        return None;
      }
      element := Some(pool[GetIndex(newHead)]);
      head := newHead;
    }
  }
}
