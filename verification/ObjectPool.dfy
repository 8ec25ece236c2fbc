/** The lock-free free list of cyber/base/concurrent_object_pool.h.

    Any number of threads take and release nodes; a step is one atomic load, one
    compare-and-swap, or one read or write of a node's `next`. Nodes are numbers
    below the capacity. `free` and `held` are history: the nodes on the free list
    in order, and the nodes that callers own. */
module ObjectPool {

  import opened Options

  type Tid = nat
  type Node = nat

  datatype Head = Head(count: nat, node: Option<Node>)

  datatype Answer = NoAnswer | Got(node: Option<Node>) | Released

  datatype Pc =
    | Idle(answer: Answer)
    | GetLoad
    | GetRead(count: nat, top: Node)
    | GetCas(count: nat, top: Node, next: Option<Node>)
    | RelLoad(node: Node)
    | RelWrite(node: Node, oldHead: Head)
    | RelCas(node: Node, oldHead: Head)

  datatype Call = CallGet | CallRelease(node: Node)

  // `spurious`: a weak compare-and-swap fails for no reason.
  datatype Choice = Choice(call: Call, spurious: bool)

  datatype State = State(
    head: Head, next: seq<Option<Node>>, threads: map<Tid, Pc>,
    free: seq<Node>, held: set<Node>)
  {
    function At(t: Tid): Pc {
      if t in threads then threads[t] else Idle(NoAnswer)
    }

    function Goto(t: Tid, pc: Pc): State {
      this.(threads := threads[t := pc])
    }
  }

  // The constructor links the arena; the source needs a capacity above zero.
  function Init(capacity: nat): State
    requires capacity > 0
  {
    State(Head(0, Some(0)),
          seq(capacity, i => if i + 1 < capacity then Some(i + 1) else None),
          map[], seq(capacity, i => i), {})
  }

  // Where the loop of FindFreeHead goes with a freshly loaded head.
  function GetFrom(head: Head): Pc {
    match head.node
    case None => Idle(Got(None))
    case Some(node) => GetRead(head.count, node)
  }

  function NextOf(s: State, node: Node): Option<Node> {
    if node < |s.next| then s.next[node] else None
  }

  function Tail(s: seq<Node>): seq<Node> {
    if s == [] then [] else s[1..]
  }

  /** One step of thread `t`. Only a node that a caller owns can be released, and
      its release takes it from the caller. */
  function Step(s: State, t: Tid, c: Choice): State {
    match s.At(t)
    case Idle(_) =>
      (match c.call
       case CallGet => s.Goto(t, GetLoad)
       case CallRelease(node) =>
         if node in s.held then s.(held := s.held - {node}).Goto(t, RelLoad(node)) else s)
    case GetLoad =>
      s.Goto(t, GetFrom(s.head))
    case GetRead(count, top) =>
      s.Goto(t, GetCas(count, top, NextOf(s, top)))
    case GetCas(count, top, next) =>
      if c.spurious || s.head != Head(count, Some(top)) then s.Goto(t, GetFrom(s.head))
      else s.(head := Head(count + 1, next), free := Tail(s.free), held := s.held + {top})
            .Goto(t, Idle(Got(Some(top))))
    case RelLoad(node) =>
      s.Goto(t, RelWrite(node, s.head))
    case RelWrite(node, oldHead) =>
      if node < |s.next| then s.(next := s.next[node := oldHead.node]).Goto(t, RelCas(node, oldHead))
      else s
    case RelCas(node, oldHead) =>
      if c.spurious || s.head != oldHead then s.Goto(t, RelWrite(node, s.head))
      else s.(head := Head(oldHead.count + 1, Some(node)), free := [node] + s.free).Goto(t, Idle(Released))
  }

  function Exec(s: State, schedule: seq<(Tid, Choice)>): State
    decreases |schedule|
  {
    if schedule == [] then s
    else
      var (t, c) := schedule[|schedule| - 1];
      Step(Exec(s, schedule[..|schedule| - 1]), t, c)
  }

  // ---------------------------------------------------------------------
  // The invariant

  predicate Releasing(pc: Pc) {
    pc.RelLoad? || pc.RelWrite? || pc.RelCas?
  }

  ghost predicate InFlight(s: State, node: Node, t: Tid) {
    t in s.threads && Releasing(s.threads[t]) && s.threads[t].node == node
  }

  // The `next` fields link the nodes of `free`, in order, from `node` to null.
  ghost predicate Linked(next: seq<Option<Node>>, node: Option<Node>, free: seq<Node>)
    decreases |free|
  {
    if |free| == 0 then node == None
    else node == Some(free[0]) && free[0] < |next| && Linked(next, next[free[0]], free[1..])
  }

  ghost predicate Distinct(s: seq<Node>) {
    forall i, j :: 0 <= i < j < |s| ==> s[i] != s[j]
  }

  /** Every node is in exactly one place: on the free list, with a caller, or in
      flight in one release. */
  ghost predicate Partition(s: State) {
    && Distinct(s.free)
    && (forall n :: n in s.free ==> n < |s.next| && n !in s.held)
    && (forall n :: n in s.held ==> n < |s.next|)
    && (forall n: nat, t: nat :: InFlight(s, n, t) ==> n < |s.next| && n !in s.free && n !in s.held)
    && (forall n: nat, t: nat, u: nat :: InFlight(s, n, t) && InFlight(s, n, u) ==> t == u)
    && (forall n: nat :: n < |s.next| ==> Placed(s, n))
  }

  ghost predicate Placed(s: State, n: Node) {
    n in s.free || n in s.held || exists t :: InFlight(s, n, t)
  }

  // A head that has not changed since it was loaded has not changed at all.
  ghost predicate Fresh(s: State, oldHead: Head) {
    oldHead.count <= s.head.count && (oldHead.count == s.head.count ==> oldHead == s.head)
  }

  ghost predicate Local(s: State, pc: Pc) {
    match pc
    case GetRead(count, top) => Fresh(s, Head(count, Some(top)))
    case GetCas(count, top, next) =>
      Fresh(s, Head(count, Some(top))) && (count == s.head.count ==> next == NextOf(s, top))
    case RelWrite(_, h) => Fresh(s, h)
    case RelCas(n, h) => Fresh(s, h) && NextOf(s, n) == h.node
    case _ => true
  }

  ghost predicate Inv(s: State) {
    && Linked(s.next, s.head.node, s.free)
    && Partition(s)
    && forall t :: t in s.threads ==> Local(s, s.threads[t])
  }

  lemma {:induction false} InitLinked(next: seq<Option<Node>>, n: nat, capacity: nat)
    requires n < capacity && |next| == capacity
    requires forall i :: 0 <= i < capacity ==> next[i] == if i + 1 < capacity then Some(i + 1) else None
    ensures Linked(next, Some(n), seq(capacity - n, i requires 0 <= i => n + i))
    decreases capacity - n
  {
    var free := seq(capacity - n, i requires 0 <= i => n + i);
    if n + 1 < capacity {
      InitLinked(next, n + 1, capacity);
      assert free[1..] == seq(capacity - (n + 1), i requires 0 <= i => n + 1 + i);
    } else {
      assert free[1..] == [];
    }
  }

  // At first every node is free, in the order of the arena.
  lemma InitInv(capacity: nat)
    requires capacity > 0
    ensures var s := Init(capacity);
            && Inv(s) && s.held == {} && |s.next| == |s.free| == capacity
            && (forall i :: 0 <= i < capacity ==> s.free[i] == i)
            && forall t :: s.At(t) == Idle(NoAnswer)
  {
    var s := Init(capacity);
    InitLinked(s.next, 0, capacity);
    assert s.free == seq(capacity - 0, i requires 0 <= i => 0 + i);
    forall n: nat | n < capacity ensures Placed(s, n) { assert s.free[n] == n; }
  }

  // Writing the `next` of a node that is not on the list leaves the list as it is.
  lemma {:induction false} LinkedFrame(next: seq<Option<Node>>, node: Option<Node>, free: seq<Node>,
                                       n: Node, x: Option<Node>)
    requires Linked(next, node, free) && n < |next| && n !in free
    ensures Linked(next[n := x], node, free)
    decreases |free|
  {
    if free != [] { LinkedFrame(next, next[free[0]], free[1..], n, x); }
  }

  lemma StepLinked(s: State, t: Tid, c: Choice)
    requires Inv(s)
    ensures Linked(Step(s, t, c).next, Step(s, t, c).head.node, Step(s, t, c).free)
  {
    var pc := s.At(t);
    assert t in s.threads ==> Local(s, pc);
    if Releasing(pc) { assert InFlight(s, pc.node, t); }
    if pc.RelWrite? { LinkedFrame(s.next, s.head.node, s.free, pc.node, pc.oldHead.node); }
    if pc.RelCas? { assert ([pc.node] + s.free)[1..] == s.free; }
  }

  lemma StepPlaced(s: State, t: Tid, c: Choice, n: Node)
    requires Inv(s) && n < |s.next|
    ensures Placed(Step(s, t, c), n)
  {
    var s' := Step(s, t, c);
    assert Placed(s, n);
    if n in s.free {
      var i :| 0 <= i < |s.free| && s.free[i] == n;
      assert i > 0 ==> s.free[1..][i - 1] == n;
    } else if n !in s.held {
      var u :| InFlight(s, n, u);
      assert InFlight(s', n, u) || n in s'.free;
    } else if n !in s'.held {
      assert InFlight(s', n, t);
    }
  }

  // A node comes into flight only from a caller.
  lemma InFlightBefore(s: State, t: Tid, c: Choice, n: Node, u: Tid)
    requires InFlight(Step(s, t, c), n, u)
    ensures InFlight(s, n, u) || (u == t && n in s.held && n !in Step(s, t, c).held && Step(s, t, c).free == s.free)
  {
  }

  lemma StepLists(s: State, t: Tid, c: Choice)
    requires Linked(s.next, s.head.node, s.free) && Partition(s)
    ensures var s' := Step(s, t, c);
            && |s'.next| == |s.next| && Distinct(s'.free)
            && (forall n :: n in s'.free ==> n < |s'.next| && n !in s'.held)
            && (forall n :: n in s'.held ==> n < |s'.next|)
            && (forall n :: n in s'.free ==> n in s.free || (s.At(t).RelCas? && n == s.At(t).node && !s'.At(t).RelCas?))
            && (forall n :: n in s'.held ==> n in s.held || n in s.free)
  {
    var pc := s.At(t);
    if Releasing(pc) { assert InFlight(s, pc.node, t); }
    assert forall n :: n in Tail(s.free) ==> n in s.free;
    if pc.GetCas? && s.head.node == Some(pc.top) { assert s.free[0] == pc.top; }
  }

  lemma StepPartition(s: State, t: Tid, c: Choice)
    requires Inv(s)
    ensures Partition(Step(s, t, c))
  {
    var s' := Step(s, t, c);
    StepLists(s, t, c);
    forall n: nat | n < |s'.next| ensures Placed(s', n) { StepPlaced(s, t, c, n); }
    forall n: nat, u: nat | InFlight(s', n, u) ensures n < |s'.next| && n !in s'.free && n !in s'.held {
      InFlightBefore(s, t, c, n, u);
      if Releasing(s.At(t)) { assert InFlight(s, s.At(t).node, t); }
    }
    forall n: nat, u: nat, v: nat | InFlight(s', n, u) && InFlight(s', n, v) ensures u == v {
      InFlightBefore(s, t, c, n, u);
      InFlightBefore(s, t, c, n, v);
    }
  }

  // Every change of the head raises its count by one.
  lemma HeadMoves(s: State, t: Tid, c: Choice)
    ensures Step(s, t, c).head == s.head || Step(s, t, c).head.count == s.head.count + 1
  {
  }

  // Only the releasing thread writes the `next` of a node, and the node is then off the list.
  lemma NextMoves(s: State, t: Tid, c: Choice, n: Node)
    requires NextOf(Step(s, t, c), n) != NextOf(s, n)
    ensures InFlight(s, n, t) && s.At(t).RelWrite?
  {
  }

  lemma StepOthers(s: State, t: Tid, c: Choice, u: Tid)
    requires Linked(s.next, s.head.node, s.free) && Partition(s)
    requires u != t && u in s.threads && Local(s, s.threads[u])
    ensures Local(Step(s, t, c), s.threads[u])
  {
    var s', pc := Step(s, t, c), s.threads[u];
    HeadMoves(s, t, c);
    if pc.GetCas? {
      if NextOf(s', pc.top) != NextOf(s, pc.top) {
        NextMoves(s, t, c, pc.top);
        assert s.head.node == Some(pc.top) ==> s.free[0] == pc.top;
      }
    } else if pc.RelCas? {
      assert InFlight(s, pc.node, u);
      if NextOf(s', pc.node) != NextOf(s, pc.node) { NextMoves(s, t, c, pc.node); }
    }
  }

  lemma StepSelf(s: State, t: Tid, c: Choice)
    requires t in s.threads && Local(s, s.threads[t])
    ensures Local(Step(s, t, c), Step(s, t, c).At(t))
  {
  }

  lemma StepInv(s: State, t: Tid, c: Choice)
    requires Inv(s)
    ensures Inv(Step(s, t, c)) && |Step(s, t, c).next| == |s.next|
  {
    var s' := Step(s, t, c);
    StepLinked(s, t, c);
    StepPartition(s, t, c);
    forall u | u in s'.threads ensures Local(s', s'.threads[u]) {
      if u != t { StepOthers(s, t, c, u); }
      else if t in s.threads { StepSelf(s, t, c); }
    }
  }

  lemma {:induction false} RunInv(capacity: nat, schedule: seq<(Tid, Choice)>)
    requires capacity > 0
    ensures Inv(Exec(Init(capacity), schedule)) && |Exec(Init(capacity), schedule).next| == capacity
    decreases |schedule|
  {
    if schedule == [] {
      InitInv(capacity);
    } else {
      RunInv(capacity, schedule[..|schedule| - 1]);
      var (t, c) := schedule[|schedule| - 1];
      StepInv(Exec(Init(capacity), schedule[..|schedule| - 1]), t, c);
    }
  }

  // ---------------------------------------------------------------------
  // What the pool promises

  // The node `k` links after `node`.
  function Follow(next: seq<Option<Node>>, node: Option<Node>, k: nat): Option<Node>
    decreases k
  {
    if k == 0 || node == None then node
    else if node.value < |next| then Follow(next, next[node.value], k - 1)
    else None
  }

  lemma {:induction false} FollowLinked(next: seq<Option<Node>>, node: Option<Node>, free: seq<Node>, k: nat)
    requires Linked(next, node, free)
    ensures Follow(next, node, k) == if k < |free| then Some(free[k]) else None
    decreases k
  {
    if k > 0 && free != [] { FollowLinked(next, next[free[0]], free[1..], k - 1); }
  }

  /** The free list has no cycle: following `next` from the head meets every free
      node once, in order, and then null. */
  lemma FreeListIsAcyclic(capacity: nat, schedule: seq<(Tid, Choice)>, j: nat, k: nat)
    requires capacity > 0 && j < k
    ensures var s := Exec(Init(capacity), schedule);
            && (Follow(s.next, s.head.node, j) == None ==> Follow(s.next, s.head.node, k) == None)
            && (Follow(s.next, s.head.node, j) == Follow(s.next, s.head.node, k) ==> Follow(s.next, s.head.node, j) == None)
            && (k >= capacity ==> Follow(s.next, s.head.node, k) == None)
  {
    var s := Exec(Init(capacity), schedule);
    RunInv(capacity, schedule);
    FollowLinked(s.next, s.head.node, s.free, j);
    FollowLinked(s.next, s.head.node, s.free, k);
    Conserved(s);
  }

  function Flying(s: State): set<Node> {
    set t | t in s.threads && Releasing(s.threads[t]) :: s.threads[t].node
  }

  function Elements(s: seq<Node>): set<Node> {
    set n | n in s
  }

  lemma {:induction false} DistinctSize(s: seq<Node>)
    requires Distinct(s)
    ensures |Elements(s)| == |s|
    decreases |s|
  {
    if s != [] {
      var last := |s| - 1;
      DistinctSize(s[..last]);
      assert s == s[..last] + [s[last]];
      assert s[last] !in Elements(s[..last]);
      assert Elements(s) == Elements(s[..last]) + {s[last]};
    } else {
      assert Elements(s) == {};
    }
  }

  // The nodes of an arena of `k` nodes.
  function Arena(k: nat): (r: set<Node>)
    ensures |r| == k && forall n: nat :: n in r <==> n < k
  {
    if k == 0 then {} else Arena(k - 1) + {k - 1}
  }

  // Free, held and in flight: three disjoint parts of the arena that add up to it.
  lemma Conserved(s: State)
    requires Partition(s)
    ensures Elements(s.free) !! s.held !! Flying(s)
    ensures Elements(s.free) + s.held + Flying(s) == Arena(|s.next|)
    ensures |s.free| + |s.held| + |Flying(s)| == |s.next|
  {
    var free := Elements(s.free);
    forall n | n in Flying(s) ensures n !in free && n !in s.held && n < |s.next| {
      var t :| t in s.threads && Releasing(s.threads[t]) && s.threads[t].node == n;
      assert InFlight(s, n, t);
    }
    forall n: nat | n < |s.next| ensures n in free + s.held + Flying(s) {
      assert Placed(s, n);
    }
    assert free + s.held + Flying(s) == Arena(|s.next|);
    DistinctSize(s.free);
    assert free * s.held == {} && (free + s.held) * Flying(s) == {};
  }

  lemma NothingLost(capacity: nat, schedule: seq<(Tid, Choice)>)
    requires capacity > 0
    ensures var s := Exec(Init(capacity), schedule);
            && Elements(s.free) !! s.held !! Flying(s)
            && |s.free| + |s.held| + |Flying(s)| == capacity
  {
    RunInv(capacity, schedule);
    Conserved(Exec(Init(capacity), schedule));
  }

  /** A get that succeeds takes the first free node, which nobody else has, and
      leaves the rest: the `next` it read earlier is still the node's `next`. */
  lemma GetTakesTheFirst(s: State, t: Tid, c: Choice, n: Node)
    requires Inv(s) && s.At(t).GetCas? && Step(s, t, c).At(t) == Idle(Got(Some(n)))
    ensures var s' := Step(s, t, c);
            && s.free == [n] + s'.free
            && n !in s.held && n !in Flying(s) && s'.held == s.held + {n}
            && s.At(t).next == NextOf(s, n)
            && s'.head.node == (if s'.free == [] then None else Some(s'.free[0]))
  {
    assert Local(s, s.threads[t]);
    assert n == s.free[0];
    assert s.free == [n] + s.free[1..];
    assert n !in Flying(s) by { Conserved(s); assert n in Elements(s.free); }
    assert Linked(s.next, NextOf(s, n), s.free[1..]);
  }

  /** A get answers null exactly when the free list is empty at its last load. */
  lemma NullMeansEmpty(s: State, t: Tid, c: Choice)
    requires Inv(s) && !s.At(t).Idle?
    ensures Step(s, t, c).At(t) == Idle(Got(None)) <==>
            s.free == [] && (s.At(t).GetLoad? || s.At(t).GetCas?)
    ensures Step(s, t, c).At(t) == Idle(Got(None)) ==>
            Step(s, t, c).free == [] && Step(s, t, c).held == s.held
  {
  }

  /** A release that ends puts its node in front and changes nothing else. */
  lemma ReleasePutsFirst(s: State, t: Tid, c: Choice)
    requires Inv(s) && s.At(t).RelCas? && Step(s, t, c).At(t).Idle?
    ensures var s', n := Step(s, t, c), s.At(t).node;
            && s'.At(t) == Idle(Released)
            && s'.free == [n] + s.free && s'.held == s.held
            && Flying(s') == Flying(s) - {n} && n in Flying(s)
            && Follow(s'.next, s'.head.node, 0) == Some(n)
            && Follow(s'.next, s'.head.node, 1) == s.head.node
  {
    var s', n := Step(s, t, c), s.At(t).node;
    assert Local(s, s.threads[t]);
    assert InFlight(s, n, t);
    forall m | m in Flying(s) && m != n ensures m in Flying(s') {
      var u :| u in s.threads && Releasing(s.threads[u]) && s.threads[u].node == m;
      assert s'.threads[u] == s.threads[u];
    }
    forall m | m in Flying(s') ensures m in Flying(s) && m != n {
      var u :| u in s'.threads && Releasing(s'.threads[u]) && s'.threads[u].node == m;
      assert InFlight(s, m, u);
    }
  }

  predicate InGet(pc: Pc) {
    pc.GetLoad? || pc.GetRead? || pc.GetCas?
  }

  /** A get ends with the first free node, or with null at a load that finds no node
      free; every other step stays inside it, changes nothing else, and goes on with a
      head that was just loaded where it has lost its race. */
  lemma GetLeaves(s: State, t: Tid, c: Choice)
    requires Inv(s) && InGet(s.At(t))
    ensures var (pc, s') := (s.At(t), Step(s, t, c));
            && (s'.At(t).Idle? ==>
                  if s'.At(t) == Idle(Got(None)) then s.free == [] && s' == s.Goto(t, s'.At(t))
                  else pc.GetCas? && s.free != [] && s'.At(t) == Idle(Got(Some(s.free[0])))
                       && s'.free == s.free[1..] && s'.held == s.held + {s.free[0]} && s'.next == s.next)
            && (!s'.At(t).Idle? ==> InGet(s'.At(t)) && s' == s.Goto(t, s'.At(t)))
            && (!s'.At(t).Idle? && !pc.GetRead? ==> s'.At(t) == GetRead(s.head.count, s.free[0]))
            && (c.spurious ==> s'.head == s.head)
  {
    assert Local(s, s.At(t));
  }

  /** A release ends only by the swap that makes its node the head; until then it stays
      inside with its node, and a lost race goes on with the head as it is now. */
  lemma ReleaseLeaves(s: State, t: Tid, c: Choice)
    requires Inv(s) && Releasing(s.At(t))
    ensures var (pc, s') := (s.At(t), Step(s, t, c));
            && s'.held == s.held && (c.spurious ==> s'.head == s.head)
            && (s'.At(t).Idle? ==> pc.RelCas? && s'.At(t) == Idle(Released) && s'.free == [pc.node] + s.free)
            && (!s'.At(t).Idle? ==>
                  Releasing(s'.At(t)) && s'.At(t).node == pc.node && s'.free == s.free && s'.head == s.head)
            && (!s'.At(t).Idle? && !pc.RelWrite? ==> s'.At(t) == RelWrite(pc.node, s.head))
            && (pc.RelWrite? ==> s'.At(t) == RelCas(pc.node, pc.oldHead))
            && forall n :: n != pc.node ==> NextOf(s', n) == NextOf(s, n)
  {
    assert InFlight(s, s.At(t).node, t);
  }

  // A call begins: a get always, a release only of a node that a caller owns.
  lemma CallBegins(s: State, t: Tid, c: Choice)
    requires s.At(t).Idle?
    ensures var s' := Step(s, t, c);
            && s'.free == s.free && s'.head == s.head && s'.next == s.next
            && (c.call.CallGet? ==> s' == s.Goto(t, GetLoad))
            && (c.call.CallRelease? && c.call.node in s.held ==>
                  s'.At(t) == RelLoad(c.call.node) && s'.held == s.held - {c.call.node})
            && (c.call.CallRelease? && c.call.node !in s.held ==> s' == s)
  {
  }

  // What makes an answer right in the state in which it is given.
  ghost predicate Justified(s: State, t: Tid, a: Answer) {
    match a
    case NoAnswer => false
    case Got(None) => InGet(s.At(t)) && s.free == []
    case Got(Some(n)) => InGet(s.At(t)) && s.free != [] && n == s.free[0] && n !in s.held
    case Released => s.At(t).RelCas?
  }

  // The step of `schedule` at `i` gives thread `t` the answer `a`, and rightly.
  ghost predicate GivenAt(s0: State, schedule: seq<(Tid, Choice)>, i: nat, t: Tid, a: Answer)
    requires i < |schedule|
  {
    var (before, after) := (Exec(s0, schedule[..i]), Exec(s0, schedule[..i + 1]));
    && schedule[i].0 == t && after.At(t) == Idle(a)
    && Inv(before) && Justified(before, t, a)
  }

  lemma JustifiedStep(s: State, t: Tid, c: Choice)
    requires Inv(s) && !s.At(t).Idle? && Step(s, t, c).At(t).Idle?
    ensures Justified(s, t, Step(s, t, c).At(t).answer)
  {
    if InGet(s.At(t)) { GetLeaves(s, t, c); } else { ReleaseLeaves(s, t, c); }
  }

  // A thread that is between two calls keeps its answer until its next call.
  lemma AnswerKept(s: State, t: Tid, c: Choice, u: Tid)
    requires Step(s, t, c).At(u).Idle? && (u != t || s.At(u).Idle?)
    ensures Step(s, t, c).At(u) == s.At(u)
  {
  }

  lemma GivenInPrefix(s0: State, schedule: seq<(Tid, Choice)>, n: nat, i: nat, t: Tid, a: Answer)
    requires i < n <= |schedule| && GivenAt(s0, schedule[..n], i, t, a)
    ensures GivenAt(s0, schedule, i, t, a)
  {
    assert schedule[..n][..i] == schedule[..i] && schedule[..n][..i + 1] == schedule[..i + 1];
  }

  /** In every run, every answer that a thread holds was given by one of its own steps,
      and was right in the state of that step. */
  lemma {:induction false} AnswersAreRight(capacity: nat, schedule: seq<(Tid, Choice)>, t: Tid)
    requires capacity > 0 && Exec(Init(capacity), schedule).At(t).Idle?
    requires Exec(Init(capacity), schedule).At(t).answer != NoAnswer
    ensures exists i: nat :: i < |schedule| &&
              GivenAt(Init(capacity), schedule, i, t, Exec(Init(capacity), schedule).At(t).answer)
    decreases |schedule|
  {
    var n := |schedule| - 1;
    var s0 := Init(capacity);
    var (u, c) := schedule[n];
    var before := Exec(s0, schedule[..n]);
    assert schedule[..n + 1] == schedule;
    RunInv(capacity, schedule[..n]);
    if u == t && !before.At(t).Idle? {
      JustifiedStep(before, t, c);
      assert GivenAt(s0, schedule, n, t, Exec(s0, schedule).At(t).answer);
    } else {
      AnswerKept(before, u, c, t);
      AnswersAreRight(capacity, schedule[..n], t);
      var i: nat :| i < n && GivenAt(s0, schedule[..n], i, t, before.At(t).answer);
      GivenInPrefix(s0, schedule, n, i, t, before.At(t).answer);
    }
  }

  // `k` steps of thread `t` with nobody in between.
  function Alone(s: State, t: Tid, call: Call, k: nat): State {
    if k == 0 then s else Step(Alone(s, t, call, k - 1), t, Choice(call, false))
  }

  /** Without interference a get is done in four steps, and answers null only when
      every node is held or in flight. */
  lemma GetAlone(s: State, t: Tid)
    requires Inv(s) && s.At(t).Idle?
    ensures s.free == [] ==> Alone(s, t, CallGet, 2).At(t) == Idle(Got(None))
    ensures s.free != [] ==>
              && Alone(s, t, CallGet, 4).At(t) == Idle(Got(Some(s.free[0])))
              && Alone(s, t, CallGet, 4).free == s.free[1..]
              && Alone(s, t, CallGet, 4).held == s.held + {s.free[0]}
  {
    var c := Choice(CallGet, false);
    var s1 := Step(s, t, c);
    assert s1 == Alone(s, t, CallGet, 1);
    var s2 := Step(s1, t, c);
    assert s2 == Alone(s, t, CallGet, 2);
    assert s2 == s1.Goto(t, GetFrom(s.head));
    if s.free != [] {
      var s3 := Step(s2, t, c);
      assert s3 == Alone(s, t, CallGet, 3);
      assert s3 == s2.Goto(t, GetCas(s.head.count, s.free[0], NextOf(s, s.free[0])));
      assert Alone(s, t, CallGet, 4) == Step(s3, t, c);
    }
  }

  /** Without interference a release is done in four steps, and a get right after
      it returns the same node. */
  lemma ReleaseAlone(s: State, t: Tid, n: Node)
    requires Inv(s) && s.At(t).Idle? && n in s.held
    ensures var s' := Alone(s, t, CallRelease(n), 4);
            && s'.At(t) == Idle(Released) && s'.free == [n] + s.free && s'.held == s.held - {n}
            && Alone(s', t, CallGet, 4).At(t) == Idle(Got(Some(n)))
            && Alone(s', t, CallGet, 4).free == s.free && Alone(s', t, CallGet, 4).held == s.held
  {
    var call := CallRelease(n);
    var c := Choice(call, false);
    var s1 := Step(s, t, c);
    StepInv(s, t, c);
    assert s1 == Alone(s, t, call, 1);
    var s2 := Step(s1, t, c);
    StepInv(s1, t, c);
    assert s2 == Alone(s, t, call, 2) && s2.At(t) == RelWrite(n, s.head);
    var s3 := Step(s2, t, c);
    StepInv(s2, t, c);
    assert s3 == Alone(s, t, call, 3) && s3.At(t) == RelCas(n, s.head);
    var s4 := Step(s3, t, c);
    StepInv(s3, t, c);
    assert s4 == Alone(s, t, call, 4) && s4.free == [n] + s.free;
    GetAlone(s4, t);
    assert ([n] + s.free)[1..] == s.free;
    assert s.held - {n} + {n} == s.held;
  }

  lemma {:induction false} AloneGoesOn(s: State, t: Tid, call: Call, k: nat)
    ensures Alone(Step(s, t, Choice(call, false)), t, call, k) == Alone(s, t, call, k + 1)
    decreases k
  {
    if k > 0 { AloneGoesOn(s, t, call, k - 1); }
  }

  // How far a call that nobody interrupts is from its end.
  function Rank(s: State, pc: Pc): nat {
    match pc
    case GetRead(count, top) => if Head(count, Some(top)) == s.head then 2 else 4
    case GetCas(count, top, _) => if Head(count, Some(top)) == s.head then 1 else 3
    case RelWrite(_, h) => if h == s.head then 2 else 4
    case RelCas(_, h) => if h == s.head then 1 else 3
    case Idle(_) => 0
    case _ => 3
  }

  // How a get inside which `t` is in `s` ends without interference.
  ghost predicate GetDone(s: State, t: Tid, s': State) {
    if s.free == [] then s' == s.Goto(t, Idle(Got(None)))
    else s'.At(t) == Idle(Got(Some(s.free[0])))
         && s'.free == s.free[1..] && s'.held == s.held + {s.free[0]} && s'.next == s.next
  }

  lemma GetSame(s: State, t: Tid, pc: Pc, s': State)
    requires GetDone(s.Goto(t, pc), t, s')
    ensures GetDone(s, t, s')
  {
    assert s.threads[t := pc][t := Idle(Got(None))] == s.threads[t := Idle(Got(None))];
  }

  /** A get that is left alone ends, wherever it stands and however stale the head it has
      loaded: with the first free node, or with null if there is none. */
  lemma {:induction false} GetFinishes(s: State, t: Tid, call: Call) returns (k: nat)
    requires Inv(s) && InGet(s.At(t))
    ensures GetDone(s, t, Alone(s, t, call, k))
    decreases Rank(s, s.At(t))
  {
    var s' := Step(s, t, Choice(call, false));
    GetLeaves(s, t, Choice(call, false));
    if s'.At(t).Idle? {
      k := 1;
      assert Alone(s, t, call, 0) == s;
    } else {
      GetMoves(s, t, call);
      StepInv(s, t, Choice(call, false));
      k := GetFinishes(s', t, call);
      GetSame(s, t, s'.At(t), Alone(s', t, call, k));
      AloneGoesOn(s, t, call, k);
      k := k + 1;
    }
  }

  lemma GetMoves(s: State, t: Tid, call: Call)
    requires Inv(s) && InGet(s.At(t)) && !Step(s, t, Choice(call, false)).At(t).Idle?
    ensures var s' := Step(s, t, Choice(call, false)); Rank(s', s'.At(t)) < Rank(s, s.At(t))
  {
    assert Local(s, s.At(t));
  }

  /** So does a release, with its node in front. */
  lemma {:induction false} ReleaseFinishes(s: State, t: Tid, call: Call) returns (k: nat)
    requires Inv(s) && Releasing(s.At(t))
    ensures var s' := Alone(s, t, call, k);
            && s'.At(t) == Idle(Released) && s'.free == [s.At(t).node] + s.free && s'.held == s.held
            && forall n :: n != s.At(t).node ==> NextOf(s', n) == NextOf(s, n)
    decreases Rank(s, s.At(t))
  {
    var s' := Step(s, t, Choice(call, false));
    ReleaseLeaves(s, t, Choice(call, false));
    if s'.At(t).Idle? {
      k := 1;
      assert Alone(s, t, call, 0) == s;
    } else {
      assert InFlight(s, s.At(t).node, t);
      StepInv(s, t, Choice(call, false));
      k := ReleaseFinishes(s', t, call);
      AloneGoesOn(s, t, call, k);
      k := k + 1;
    }
  }
}
