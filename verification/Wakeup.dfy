/** How a sleeping routine learns of a message: cyber/croutine/croutine.h,
    cyber/croutine/routine_factory.h, cyber/data/data_dispatcher.h and the two
    notifiers of cyber/scheduler/policy.

    One routine, any number of processors that may run it and any number of threads
    that dispatch messages to it. A step is one access to shared memory. `updated_`
    is kept the other way round: `pending` is true when the flag is clear. */
module Wakeup {

  import opened Options
  import opened FetchRule

  type Tid = nat

  datatype RState = Ready | Sleep | IoWait | DataWait

  /** The loop of the routine: set DATA_WAIT and then fetch, as routine_factory.h does,
      or fetch and set DATA_WAIT when nothing is there, as task_manager.cc does. */
  datatype Loop = SetThenFetch | FetchThenSet

  /** `AlwaysSet` sets the flag at every notification; `CheckState` first looks whether
      the routine is in DATA_WAIT or IO_WAIT, as both scheduling policies do. */
  datatype Notifier = AlwaysSet | CheckState

  // Where the routine is in its loop; `AfterEmpty`: it has yielded on finding nothing.
  datatype Place = LoopTop | AtFetch | InCallback | FoundNothing | AfterEmpty

  datatype Proc =
    | Scanning
    | TestSleep
    | TestFlag
    | Consumed
    | Decide(base: set<nat>)
    | Running
    | Releasing

  datatype Disp =
    | Quiet
    | Notifying(m: nat)
    | SecondLook(m: nat)
    | Setting(m: nat)

  datatype State = State(
    loop: Loop, notifier: Notifier, size: nat,
    tail: nat, index: nat, notified: set<nat>,
    rstate: RState, place: Place, pending: bool, holder: Option<Tid>,
    procs: map<Tid, Proc>, disps: map<Tid, Disp>)
  {
    function ProcAt(t: Tid): Proc {
      if t in procs then procs[t] else Scanning
    }

    function DispAt(t: Tid): Disp {
      if t in disps then disps[t] else Quiet
    }

    function ProcTo(t: Tid, p: Proc): State {
      this.(procs := procs[t := p])
    }

    function DispTo(t: Tid, d: Disp): State {
      this.(disps := disps[t := d])
    }
  }

  // The constructor of the routine leaves it READY with the flag set.
  function Init(loop: Loop, notifier: Notifier, size: nat): State {
    State(loop, notifier, size, 0, 0, {}, Ready, if loop == SetThenFetch then LoopTop else AtFetch,
          false, None, map[], map[])
  }

  // What the callback does next: return, or yield inside itself, in a state it sets or in the one it has.
  datatype Callback = Return | YieldIn(state: RState) | YieldAsIs

  /** Who moves, and what the environment decides: whether a dispatch puts a message in
      the routine's ring, what the callback does, and whether a sleep is over. */
  datatype Move = Processor(p: Tid, callback: Callback, awake: bool) | Dispatcher(d: Tid, adds: bool)

  // The processor that runs the routine gives it up.
  function Swap(s: State, t: Tid): State {
    s.ProcTo(t, Releasing)
  }

  /** One step of the routine, on processor `t`. */
  function RoutineStep(s: State, t: Tid, callback: Callback): State {
    match s.place
    case LoopTop => s.(rstate := DataWait, place := AtFetch)
    case AfterEmpty =>
      if s.loop == SetThenFetch then s.(rstate := DataWait, place := AtFetch) else FetchStep(s, t)
    case AtFetch => FetchStep(s, t)
    case FoundNothing => Swap(s.(rstate := DataWait, place := AfterEmpty), t)
    case InCallback =>
      match callback
      case Return =>
        if s.loop == SetThenFetch then Swap(s.(rstate := Ready, place := LoopTop), t) else s.(place := AtFetch)
      case YieldIn(state) => Swap(s.(rstate := state), t)
      case YieldAsIs => Swap(s, t)
  }

  function FetchStep(s: State, t: Tid): State {
    match Fetched(s.size, s.tail, s.index)
    case Some(p) => s.(index := p + 1, place := InCallback)
    case None =>
      if s.loop == SetThenFetch then Swap(s.(place := AfterEmpty), t) else s.(place := FoundNothing)
  }

  /** One step of processor `t`: `Acquire`, the parts of `UpdateState`, `Resume`, `Release`. */
  function ProcStep(s: State, t: Tid, callback: Callback, awake: bool): State {
    match s.ProcAt(t)
    case Scanning => if s.holder.None? then s.(holder := Some(t)).ProcTo(t, TestSleep) else s
    case TestSleep =>
      if s.rstate == Sleep && awake then s.(rstate := Ready).ProcTo(t, Running) else s.ProcTo(t, TestFlag)
    case TestFlag =>
      if s.pending then s.(pending := false).ProcTo(t, Consumed) else s.ProcTo(t, Decide(s.notified))
    case Consumed =>
      (if s.rstate == DataWait || s.rstate == IoWait then s.(rstate := Ready) else s).ProcTo(t, Decide({}))
    case Decide(_) => s.ProcTo(t, if s.rstate == Ready then Running else Releasing)
    case Running => RoutineStep(s, t, callback)
    case Releasing => s.(holder := None).ProcTo(t, Scanning)
  }

  function Done(s: State, t: Tid, m: nat): State {
    s.(notified := s.notified + {m}).DispTo(t, Quiet)
  }

  /** One step of dispatcher `t`: fill the ring, then notify. A dispatch that adds
      nothing, or a notification for another reason, carries the number 0. */
  function DispStep(s: State, t: Tid, adds: bool): State {
    match s.DispAt(t)
    case Quiet =>
      if adds then s.(tail := s.tail + 1).DispTo(t, Notifying(s.tail + 1)) else s.DispTo(t, Notifying(0))
    case Notifying(m) =>
      if s.notifier == AlwaysSet then Done(s.(pending := true), t, m)
      else if s.rstate == DataWait then s.DispTo(t, Setting(m))
      else s.DispTo(t, SecondLook(m))
    case SecondLook(m) => if s.rstate == IoWait then s.DispTo(t, Setting(m)) else Done(s, t, m)
    case Setting(m) => Done(s.(pending := true), t, m)
  }

  function Step(s: State, move: Move): State {
    match move
    case Processor(p, callback, awake) => ProcStep(s, p, callback, awake)
    case Dispatcher(d, adds) => DispStep(s, d, adds)
  }

  function Exec(s: State, moves: seq<Move>): State
    decreases |moves|
  {
    if moves == [] then s else Step(Exec(s, moves[..|moves| - 1]), moves[|moves| - 1])
  }

  // ---------------------------------------------------------------------
  // The invariant

  // The routine has yielded because it found no message, and waits for one.
  predicate Waiting(s: State) {
    s.place == AfterEmpty && s.rstate == DataWait
  }

  // It waits, or is about to.
  predicate Parked(s: State) {
    s.place == FoundNothing || Waiting(s)
  }

  // A message the routine has not had, whose notification is over.
  predicate Missed(s: State, m: nat) {
    m in s.notified && Unread(m, s.index)
  }

  predicate HolderIs(s: State, p: Proc) {
    s.holder.Some? && s.ProcAt(s.holder.value) == p
  }

  /** A wake-up is on its way: the flag is pending, or it has been consumed by an
      update that will now make the routine READY. */
  predicate WakeComing(s: State) {
    s.pending || HolderIs(s, Consumed)
  }

  ghost predicate NoLostWakeup(s: State) {
    forall m: nat :: Waiting(s) && Missed(s, m) ==> WakeComing(s)
  }

  // Only the holder of the lock is past `Acquire`.
  ghost predicate Locked(s: State) {
    && (forall t :: t in s.procs && s.procs[t] != Scanning ==> s.holder == Some(t))
    && (s.holder.Some? ==> s.ProcAt(s.holder.value) != Scanning)
  }

  ghost predicate PlaceOk(s: State) {
    && (s.place == LoopTop ==> s.loop == SetThenFetch && s.rstate == Ready)
    && (s.place == AtFetch && s.loop == SetThenFetch ==> HolderIs(s, Running) && s.rstate == DataWait)
    && (s.place == FoundNothing ==> s.loop == FetchThenSet && HolderIs(s, Running))
    && (s.place == AfterEmpty ==> s.rstate == DataWait || s.rstate == Ready)
  }

  ghost predicate NumbersOk(s: State) {
    && s.index <= s.tail + 1
    && (forall m: nat :: m in s.notified ==> m <= s.tail)
    && (forall d :: d in s.disps && !s.disps[d].Quiet? ==> s.disps[d].m <= s.tail)
  }

  // A notification that has seen the routine out of DATA_WAIT is not for a message
  // that the routine now waits for.
  ghost predicate LooksOk(s: State) {
    forall d :: d in s.disps && s.disps[d].SecondLook? ==>
      s.notifier == CheckState && (Parked(s) ==> !Unread(s.disps[d].m, s.index))
  }

  ghost predicate FlagOk(s: State) {
    forall m: nat :: Parked(s) && Missed(s, m) ==> WakeComing(s)
  }

  ghost predicate DecideOk(s: State) {
    s.holder.Some? && s.ProcAt(s.holder.value).Decide? && Waiting(s) ==>
      forall m: nat :: m in s.ProcAt(s.holder.value).base ==> !Unread(m, s.index)
  }

  // The loops and notifiers that go together.
  predicate Safe(loop: Loop, notifier: Notifier) {
    loop == SetThenFetch || notifier == AlwaysSet
  }

  // The easy half: the lock, the places and the numbers.
  ghost predicate Shape(s: State) {
    Safe(s.loop, s.notifier) && Locked(s) && PlaceOk(s) && NumbersOk(s)
  }

  ghost predicate Inv(s: State) {
    Shape(s) && LooksOk(s) && FlagOk(s) && DecideOk(s)
  }

  lemma FetchFacts(s: State)
    requires s.index <= s.tail + 1
    ensures Fetched(s.size, s.tail, s.index).Some? ==> Fetched(s.size, s.tail, s.index).value <= s.tail
    ensures Fetched(s.size, s.tail, s.index).None? ==> forall m: nat :: m <= s.tail ==> !Unread(m, s.index)
  {
    FetchedMeans(s.size, s.tail, s.index);
  }

  lemma ProcStepShape(s: State, t: Tid, callback: Callback, awake: bool)
    requires Shape(s) && s.ProcAt(t) != Running
    ensures Shape(ProcStep(s, t, callback, awake))
  {
    assert t in s.procs && s.procs[t] != Scanning ==> s.holder == Some(t);
  }

  lemma RoutineStepLocked(s: State, t: Tid, callback: Callback)
    requires Locked(s) && s.holder == Some(t) && s.ProcAt(t) == Running
    ensures Locked(RoutineStep(s, t, callback))
  {
  }

  lemma RoutineStepNumbers(s: State, t: Tid, callback: Callback)
    requires NumbersOk(s)
    ensures NumbersOk(RoutineStep(s, t, callback))
  {
    FetchFacts(s);
  }

  lemma RoutineStepPlace(s: State, t: Tid, callback: Callback)
    requires PlaceOk(s) && s.holder == Some(t) && s.ProcAt(t) == Running
    ensures PlaceOk(RoutineStep(s, t, callback))
  {
  }

  lemma RoutineStepShape(s: State, t: Tid, callback: Callback)
    requires Shape(s) && s.ProcAt(t) == Running
    ensures Shape(RoutineStep(s, t, callback))
  {
    assert s.holder == Some(t);
    RoutineStepLocked(s, t, callback);
    RoutineStepNumbers(s, t, callback);
    RoutineStepPlace(s, t, callback);
  }

  // A dispatcher leaves the routine and its processors alone.
  lemma DispFrame(s: State, t: Tid, adds: bool)
    ensures var s' := DispStep(s, t, adds);
            && s'.loop == s.loop && s'.notifier == s.notifier && s'.size == s.size && s'.index == s.index
            && s'.rstate == s.rstate && s'.place == s.place && s'.holder == s.holder && s'.procs == s.procs
            && (s.pending ==> s'.pending)
  {
  }

  lemma DispStepNumbers(s: State, t: Tid, adds: bool)
    requires NumbersOk(s)
    ensures NumbersOk(DispStep(s, t, adds))
  {
  }

  lemma FrameShape(s: State, s': State)
    requires s'.loop == s.loop && s'.notifier == s.notifier && s'.index == s.index
    requires s'.rstate == s.rstate && s'.place == s.place && s'.holder == s.holder && s'.procs == s.procs
    requires Shape(s) && NumbersOk(s')
    ensures Shape(s')
    ensures DecideOk(s) ==> DecideOk(s')
    ensures WakeComing(s) && (s.pending ==> s'.pending) ==> WakeComing(s')
  {
  }

  lemma ProcStepFlag(s: State, t: Tid, callback: Callback, awake: bool)
    requires Shape(s) && FlagOk(s) && s.ProcAt(t) != Running
    ensures FlagOk(ProcStep(s, t, callback, awake))
  {
    var s' := ProcStep(s, t, callback, awake);
    assert t in s.procs && s.procs[t] != Scanning ==> s.holder == Some(t);
    forall m: nat | Parked(s') && Missed(s', m) ensures WakeComing(s') {
      assert Missed(s, m);
    }
  }

  lemma ProcStepLooks(s: State, t: Tid, callback: Callback, awake: bool)
    requires Shape(s) && LooksOk(s) && s.ProcAt(t) != Running
    ensures LooksOk(ProcStep(s, t, callback, awake))
  {
  }

  lemma ProcStepDecide(s: State, t: Tid, callback: Callback, awake: bool)
    requires Shape(s) && FlagOk(s) && DecideOk(s) && s.ProcAt(t) != Running
    ensures DecideOk(ProcStep(s, t, callback, awake))
  {
    var s' := ProcStep(s, t, callback, awake);
    assert t in s.procs && s.procs[t] != Scanning ==> s.holder == Some(t);
    if s.ProcAt(t).TestFlag? && !s.pending && Waiting(s) {
      forall m: nat | m in s.notified ensures !Unread(m, s.index) {
        assert !Missed(s, m);
      }
    }
  }

  // The routine begins to wait only when nothing was unread as it looked.
  lemma RoutineStepFlag(s: State, t: Tid, callback: Callback)
    requires Shape(s) && FlagOk(s) && s.ProcAt(t) == Running
    ensures FlagOk(RoutineStep(s, t, callback)) && DecideOk(RoutineStep(s, t, callback))
  {
    var s' := RoutineStep(s, t, callback);
    assert s.holder == Some(t);
    FetchFacts(s);
    forall m: nat | Parked(s') && Missed(s', m) ensures WakeComing(s') {
      assert Parked(s) && Missed(s, m);
    }
  }

  lemma RoutineStepLooks(s: State, t: Tid, callback: Callback)
    requires Shape(s) && LooksOk(s) && s.ProcAt(t) == Running
    ensures LooksOk(RoutineStep(s, t, callback))
  {
    var s' := RoutineStep(s, t, callback);
    FetchFacts(s);
    forall d | d in s'.disps && s'.disps[d].SecondLook?
      ensures s'.notifier == CheckState && (Parked(s') ==> !Unread(s'.disps[d].m, s'.index))
    {
      assert s.disps[d].m <= s.tail;
    }
  }

  // What a dispatcher adds to the finished notifications wakes the routine if it waits.
  lemma DispStepNotifies(s: State, t: Tid, adds: bool, m: nat)
    requires Safe(s.loop, s.notifier) && PlaceOk(s) && LooksOk(s)
    requires m in DispStep(s, t, adds).notified && m !in s.notified && Parked(s) && Unread(m, s.index)
    ensures DispStep(s, t, adds).pending
  {
  }

  lemma DispStepLooks(s: State, t: Tid, adds: bool)
    requires Safe(s.loop, s.notifier) && PlaceOk(s) && LooksOk(s)
    ensures LooksOk(DispStep(s, t, adds))
  {
  }

  lemma DispStepInv(s: State, t: Tid, adds: bool)
    requires Inv(s)
    ensures Inv(DispStep(s, t, adds))
  {
    var s' := DispStep(s, t, adds);
    DispFrame(s, t, adds);
    DispStepNumbers(s, t, adds);
    DispStepLooks(s, t, adds);
    FrameShape(s, s');
    forall m: nat | Parked(s') && Missed(s', m) ensures WakeComing(s') {
      if m in s.notified { assert Missed(s, m); } else { DispStepNotifies(s, t, adds, m); }
    }
  }

  lemma StepInv(s: State, move: Move)
    requires Inv(s)
    ensures Inv(Step(s, move))
  {
    match move
    case Processor(p, callback, awake) =>
      if s.ProcAt(p) == Running {
        RoutineStepShape(s, p, callback);
        RoutineStepFlag(s, p, callback);
        RoutineStepLooks(s, p, callback);
      } else {
        ProcStepShape(s, p, callback, awake);
        ProcStepFlag(s, p, callback, awake);
        ProcStepDecide(s, p, callback, awake);
        ProcStepLooks(s, p, callback, awake);
      }
    case Dispatcher(d, adds) => DispStepInv(s, d, adds);
  }

  lemma {:induction false} RunInv(loop: Loop, notifier: Notifier, size: nat, moves: seq<Move>)
    requires Safe(loop, notifier)
    ensures Inv(Exec(Init(loop, notifier, size), moves))
    decreases |moves|
  {
    if moves != [] {
      RunInv(loop, notifier, size, moves[..|moves| - 1]);
      StepInv(Exec(Init(loop, notifier, size), moves[..|moves| - 1]), moves[|moves| - 1]);
    }
  }

  // ---------------------------------------------------------------------
  // What the protocol promises

  /** In every run, while the routine waits with an unread message whose notification
      is over, a wake-up is on its way. */
  lemma NoWakeupIsLost(loop: Loop, notifier: Notifier, size: nat, moves: seq<Move>, m: nat)
    requires Safe(loop, notifier)
    requires var s := Exec(Init(loop, notifier, size), moves); Waiting(s) && Missed(s, m)
    ensures WakeComing(Exec(Init(loop, notifier, size), moves))
  {
    RunInv(loop, notifier, size, moves);
  }

  /** A routine that has yielded on finding nothing is in DATA_WAIT until it is woken; one
      that has yielded after a message is READY, so that it looks for the next. */
  lemma EmptyHanded(loop: Loop, notifier: Notifier, size: nat, moves: seq<Move>)
    requires Safe(loop, notifier)
    ensures var s := Exec(Init(loop, notifier, size), moves);
            && (s.place == AfterEmpty ==> s.rstate == DataWait || s.rstate == Ready)
            && (s.place == LoopTop ==> s.rstate == Ready)
  {
    RunInv(loop, notifier, size, moves);
  }

  /** A processor that leaves the routine asleep after `UpdateState` has missed nothing:
      every notification that was over when it looked at the flag is of a message
      that the routine has had. */
  lemma UpdateMissesNothing(s: State, t: Tid, m: nat)
    requires Inv(s) && s.ProcAt(t).Decide? && s.place == AfterEmpty && s.rstate != Ready
    requires m in s.ProcAt(t).base
    ensures !Unread(m, s.index)
  {
    assert s.holder == Some(t);
  }

  ghost predicate NotBy(moves: seq<Move>, t: Tid) {
    forall i :: 0 <= i < |moves| ==> !(moves[i].Processor? && moves[i].p == t)
  }

  // While `t` holds the lock the others cannot touch the routine or take the flag.
  lemma OtherStep(s: State, t: Tid, move: Move)
    requires Inv(s) && s.holder == Some(t) && !(move.Processor? && move.p == t)
    ensures var s' := Step(s, move);
            && Inv(s') && s'.holder == s.holder && s'.ProcAt(t) == s.ProcAt(t)
            && s'.rstate == s.rstate && s'.place == s.place && s'.index == s.index
            && (s.pending ==> s'.pending) && s.notified <= s'.notified
  {
    StepInv(s, move);
    match move
    case Processor(p, _, _) => assert p in s.procs ==> s.procs[p] == Scanning;
    case Dispatcher(d, adds) => DispFrame(s, d, adds);
  }

  lemma {:induction false} OtherSteps(s: State, t: Tid, moves: seq<Move>)
    requires Inv(s) && s.holder == Some(t) && NotBy(moves, t)
    ensures var s' := Exec(s, moves);
            && Inv(s') && s'.holder == s.holder && s'.ProcAt(t) == s.ProcAt(t)
            && s'.rstate == s.rstate && s'.place == s.place && s'.index == s.index
            && (s.pending ==> s'.pending) && s.notified <= s'.notified
    decreases |moves|
  {
    if moves != [] {
      var last := |moves| - 1;
      OtherSteps(s, t, moves[..last]);
      OtherStep(Exec(s, moves[..last]), t, moves[last]);
    }
  }

  /** The next `UpdateState` makes the routine READY: a processor that comes to the flag
      while the routine waits with a missed message wakes it with its next two steps,
      whatever the other threads do in between. */
  lemma NextUpdateWakes(s: State, t: Tid, m: nat, others: seq<Move>, more: seq<Move>,
                        callback: Callback, awake: bool)
    requires Inv(s) && s.holder == Some(t) && s.ProcAt(t) == TestFlag
    requires Waiting(s) && Missed(s, m)
    requires NotBy(others, t) && NotBy(more, t)
    ensures var s1 := ProcStep(Exec(s, others), t, callback, awake);
            var s2 := ProcStep(Exec(s1, more), t, callback, awake);
            s2.rstate == Ready && s2.place == AfterEmpty && s2.ProcAt(t).Decide?
  {
    OtherSteps(s, t, others);
    var a := Exec(s, others);
    assert Missed(a, m) && WakeComing(a);
    var s1 := ProcStep(a, t, callback, awake);
    StepInv(a, Processor(t, callback, awake));
    OtherSteps(s1, t, more);
  }

  /** A flag that is pending wakes from IO_WAIT as it does from DATA_WAIT, and a sleep that
      is over ends without one, whatever the other threads do meanwhile; a flag taken in
      any other state leaves the state alone, and so does a sleep that is not over. It is
      taken once: then it is clear until the next notification. */
  lemma UpdateWakes(s: State, t: Tid, others: seq<Move>, more: seq<Move>, callback: Callback, awake: bool)
    requires Inv(s) && s.holder == Some(t) && NotBy(others, t) && NotBy(more, t)
    ensures s.ProcAt(t) == TestSleep ==>
              var s1 := ProcStep(Exec(s, others), t, callback, awake);
              && (s.pending ==> s1.pending)
              && if s.rstate == Sleep && awake then s1.rstate == Ready && s1.ProcAt(t) == Running
                 else s1.rstate == s.rstate && s1.ProcAt(t) == TestFlag
    ensures s.ProcAt(t) == TestFlag && s.pending ==>
              var s1 := ProcStep(Exec(s, others), t, callback, awake);
              var s2 := ProcStep(Exec(s1, more), t, callback, awake);
              && !s1.pending
              && s2.rstate == if s.rstate == DataWait || s.rstate == IoWait then Ready else s.rstate
  {
    OtherSteps(s, t, others);
    var a := Exec(s, others);
    var s1 := ProcStep(a, t, callback, awake);
    StepInv(a, Processor(t, callback, awake));
    if s.ProcAt(t) == TestFlag && s.pending {
      OtherSteps(s1, t, more);
    }
  }

  /** Only a READY routine is resumed: the step that begins to run it is taken by the
      processor that holds it, leaves it READY, and has not moved it. */
  lemma OnlyReadyRuns(s: State, move: Move, t: Tid)
    requires Inv(s) && s.ProcAt(t) != Running && Step(s, move).ProcAt(t) == Running
    ensures move.Processor? && move.p == t && s.holder == Some(t)
    ensures Step(s, move).rstate == Ready
    ensures Step(s, move).place == s.place && Step(s, move).index == s.index
  {
    match move
    case Processor(p, _, _) => assert p in s.procs && s.procs[p] != Scanning ==> s.holder == Some(p);
    case Dispatcher(d, adds) => DispFrame(s, d, adds);
  }

  // The routine is not READY, and no processor runs it.
  predicate Asleep(s: State) {
    s.rstate != Ready && !HolderIs(s, Running)
  }

  /** One step of anyone: a routine that is asleep stays where it is, in the state it is
      in, unless its sleep is over, or it waits and an update has taken the flag. Nobody
      but a dispatcher raises the flag. */
  lemma AsleepStep(s: State, move: Move)
    requires Inv(s) && Asleep(s)
    ensures var s' := Step(s, move);
            && s'.place == s.place && s'.index == s.index
            && (s'.rstate == s.rstate || s'.rstate == Ready)
            && (s'.rstate != Ready ==> Asleep(s'))
            && (s'.rstate == Ready && s.rstate == Sleep ==> move.Processor? && move.awake)
            && (s'.rstate == Ready && s.rstate != Sleep ==> HolderIs(s, Consumed))
            && (WakeComing(s') && !WakeComing(s) ==> move.Dispatcher?)
  {
    match move
    case Processor(p, _, _) => assert p in s.procs && s.procs[p] != Scanning ==> s.holder == Some(p);
    case Dispatcher(d, adds) => DispFrame(s, d, adds);
  }

  /** Until a step has made it READY, a routine that is asleep stays where it is, in every
      run: no processor runs it, and it reads nothing. */
  lemma {:induction false} AsleepUntilReady(s: State, moves: seq<Move>)
    requires Inv(s) && Asleep(s)
    requires forall i :: 0 <= i <= |moves| ==> Exec(s, moves[..i]).rstate != Ready
    ensures var s' := Exec(s, moves);
            && Inv(s') && Asleep(s')
            && s'.rstate == s.rstate && s'.place == s.place && s'.index == s.index
    decreases |moves|
  {
    if moves != [] {
      var last := |moves| - 1;
      assert forall i :: 0 <= i <= last ==> moves[..last][..i] == moves[..i];
      assert moves[..|moves|] == moves;
      AsleepUntilReady(s, moves[..last]);
      AsleepStep(Exec(s, moves[..last]), moves[last]);
      StepInv(Exec(s, moves[..last]), moves[last]);
    }
  }

  /** A callback that returns: routine_factory.h yields as READY, before it looks for the
      next message; task_manager.cc looks for it at once. */
  lemma CallbackReturns(s: State, t: Tid, awake: bool)
    requires Inv(s) && s.ProcAt(t) == Running && s.place == InCallback
    ensures var s' := Step(s, Processor(t, Return, awake));
            if s.loop == SetThenFetch
            then s'.rstate == Ready && s'.place == LoopTop && s'.ProcAt(t) == Releasing
            else s'.rstate == s.rstate && s'.place == AtFetch && s'.ProcAt(t) == Running
  {
  }

  // The callback yields and leaves the routine in `state`.
  predicate YieldsTo(s: State, callback: Callback, state: RState) {
    callback == YieldIn(state) || (callback == YieldAsIs && s.rstate == state)
  }

  /** A callback that sleeps is not resumed before its sleep is over, whoever notifies the
      routine meanwhile; one that waits for I/O or data, only once somebody notifies it. */
  lemma {:induction false} YieldLasts(s: State, t: Tid, callback: Callback, state: RState, awake: bool, moves: seq<Move>)
    requires Inv(s) && s.ProcAt(t) == Running && s.place == InCallback
    requires YieldsTo(s, callback, state) && state != Ready
    requires if state == Sleep then forall i :: 0 <= i < |moves| ==> !(moves[i].Processor? && moves[i].awake)
             else !s.pending && forall i :: 0 <= i < |moves| ==> !moves[i].Dispatcher?
    ensures var s' := Exec(Step(s, Processor(t, callback, awake)), moves);
            && Inv(s') && Asleep(s') && s'.rstate == state && s'.place == InCallback && s'.index == s.index
            && (state != Sleep ==> !WakeComing(s'))
    decreases |moves|
  {
    var first := Processor(t, callback, awake);
    if moves == [] {
      assert s.holder == Some(t);
      StepInv(s, first);
    } else {
      var last := |moves| - 1;
      YieldLasts(s, t, callback, state, awake, moves[..last]);
      AsleepStep(Exec(Step(s, first), moves[..last]), moves[last]);
      StepInv(Exec(Step(s, first), moves[..last]), moves[last]);
    }
  }

  // `k` steps of dispatcher `d` and of nobody else.
  function DispAlone(s: State, d: Tid, adds: bool, k: nat): State {
    if k == 0 then s else DispStep(DispAlone(s, d, adds, k - 1), d, adds)
  }

  /** A notification raises the flag of a routine that waits for data or for I/O; a
      notifier that looks at the state leaves it alone in any other. */
  lemma NotifyRaises(s: State, d: Tid, adds: bool)
    requires s.DispAt(d).Notifying?
    ensures var s' := DispAlone(s, d, adds, if s.notifier == AlwaysSet then 1
                                            else if s.rstate == IoWait then 3 else 2);
            && s'.DispAt(d) == Quiet && s'.notified == s.notified + {s.DispAt(d).m}
            && s'.rstate == s.rstate && s'.place == s.place && s'.tail == s.tail && s'.index == s.index
            && s'.pending == (s.pending || s.notifier == AlwaysSet || s.rstate == DataWait || s.rstate == IoWait)
  {
    var s1 := DispStep(s, d, adds);
    assert s1 == DispAlone(s, d, adds, 1);
    var s2 := DispStep(s1, d, adds);
    assert s2 == DispAlone(s, d, adds, 2);
    assert DispStep(s2, d, adds) == DispAlone(s, d, adds, 3);
  }

  /** A dispatch to a routine that waits: the flag is pending, and the message, if the
      dispatch adds one, is unread and its notification over. */
  lemma DispatchWakes(s: State, d: Tid, adds: bool)
    requires Inv(s) && Waiting(s) && s.DispAt(d) == Quiet
    ensures var s' := DispAlone(DispStep(s, d, adds), d, adds, if s.notifier == AlwaysSet then 1 else 2);
            && Waiting(s') && s'.pending && s'.DispAt(d) == Quiet
            && s'.tail == (if adds then s.tail + 1 else s.tail)
            && s'.notified == s.notified + {if adds then s.tail + 1 else 0}
            && (adds ==> Missed(s', s.tail + 1))
  {
    NotifyRaises(DispStep(s, d, adds), d, adds);
  }

  // `k` steps of processor `t` and of nobody else.
  function Alone(s: State, t: Tid, k: nat): State {
    if k == 0 then s else ProcStep(Alone(s, t, k - 1), t, Return, false)
  }

  // Left to itself, a processor takes the flag and resumes a routine that waits.
  lemma WaitingIsResumed(s: State, t: Tid, m: nat)
    requires Inv(s) && s.holder.None? && Waiting(s) && Missed(s, m)
    ensures Alone(s, t, 5) == s.(rstate := Ready, pending := false, holder := Some(t)).ProcTo(t, Running)
  {
    assert s.ProcAt(t) == Scanning;
    assert s.pending;
    var s1 := ProcStep(s, t, Return, false);
    assert s1 == Alone(s, t, 1);
    var s2 := ProcStep(s1, t, Return, false);
    assert s2 == Alone(s, t, 2);
    var s3 := ProcStep(s2, t, Return, false);
    assert s3 == Alone(s, t, 3) && s3.ProcAt(t) == Consumed;
    var s4 := ProcStep(s3, t, Return, false);
    assert s4 == Alone(s, t, 4) && s4.ProcAt(t) == Decide({});
    assert Alone(s, t, 5) == ProcStep(s4, t, Return, false);
    assert Alone(s, t, 5).procs == s.ProcTo(t, Running).procs;
  }

  /** Left to itself, a processor then runs the routine, which reads a new message; in its
      callback it is in DATA_WAIT, or READY where the loop fetches first. */
  lemma MissedIsRead(s: State, t: Tid, m: nat)
    requires Inv(s) && s.holder.None? && Waiting(s) && Missed(s, m)
    ensures var s' := Alone(s, t, if s.loop == SetThenFetch then 7 else 6);
            && s'.place == InCallback && s.index < s'.index && 1 < s'.index <= s.tail + 1
            && s'.rstate == if s.loop == SetThenFetch then DataWait else Ready
  {
    WaitingIsResumed(s, t, m);
    var s5 := Alone(s, t, 5);
    var s6 := ProcStep(s5, t, Return, false);
    assert s6 == Alone(s, t, 6) && s6.tail == s.tail;
    FetchedMeans(s.size, s.tail, s.index);
    assert m <= s.tail;
    assert Alone(s, t, 7) == ProcStep(s6, t, Return, false);
  }

  /** The first run of a routine: it is READY from the start, looks for a message,
      finds none, and waits. */
  lemma FirstRun(notifier: Notifier, size: nat, t: Tid)
    ensures var s := Alone(Init(SetThenFetch, notifier, size), t, 7);
            && Waiting(s) && s.holder == None && !s.pending && s.tail == 0 && s.index == 0
  {
    var s := Init(SetThenFetch, notifier, size);
    var s1 := ProcStep(s, t, Return, false);
    assert s1 == Alone(s, t, 1);
    var s2 := ProcStep(s1, t, Return, false);
    assert s2 == Alone(s, t, 2);
    var s3 := ProcStep(s2, t, Return, false);
    assert s3 == Alone(s, t, 3) && s3.ProcAt(t).Decide?;
    var s4 := ProcStep(s3, t, Return, false);
    assert s4 == Alone(s, t, 4) && s4.ProcAt(t) == Running && s4.place == LoopTop;
    var s5 := ProcStep(s4, t, Return, false);
    assert s5 == Alone(s, t, 5) && s5.place == AtFetch;
    FetchedMeans(size, 0, 0);
    var s6 := ProcStep(s5, t, Return, false);
    assert s6 == Alone(s, t, 6) && s6.place == AfterEmpty;
    assert Alone(s, t, 7) == ProcStep(s6, t, Return, false);
  }

  // ---------------------------------------------------------------------
  // The order of the loop matters to a notifier that looks at the state

  lemma Extend(s: State, moves: seq<Move>, move: Move) returns (longer: seq<Move>)
    ensures Exec(s, longer) == Step(Exec(s, moves), move)
  {
    longer := moves + [move];
    assert longer[..|moves|] == moves;
  }

  // A routine that fetches first has just found nothing, and is READY still.
  predicate JustEmpty(s: State) {
    && s.place == FoundNothing && s.rstate == Ready && !s.pending && s.tail == 0 && s.index == 0
    && s.holder == Some(0) && s.ProcAt(0) == Running && s.DispAt(0) == Quiet && s.notified == {}
    && s.loop == FetchThenSet && s.notifier == CheckState
  }

  // Five steps of processor 0: it finds the routine READY and runs it to its empty fetch.
  lemma FiveSteps()
    ensures JustEmpty(Alone(Init(FetchThenSet, CheckState, 1), 0, 5))
  {
    var s := Init(FetchThenSet, CheckState, 1);
    var s1 := Alone(s, 0, 1);
    assert s1 == ProcStep(Alone(s, 0, 0), 0, Return, false) && s1.ProcAt(0) == TestSleep;
    var s2 := Alone(s, 0, 2);
    assert s2 == ProcStep(s1, 0, Return, false) && s2.ProcAt(0) == TestFlag;
    var s3 := Alone(s, 0, 3);
    assert s3 == ProcStep(s2, 0, Return, false) && s3.ProcAt(0) == Decide({});
    var s4 := Alone(s, 0, 4);
    assert s4 == ProcStep(s3, 0, Return, false) && s4.ProcAt(0) == Running && s4.place == AtFetch;
    assert Alone(s, 0, 5) == ProcStep(s4, 0, Return, false);
  }

  lemma {:induction false} AloneIsRun(s: State, t: Tid, k: nat) returns (moves: seq<Move>)
    ensures Exec(s, moves) == Alone(s, t, k)
    decreases k
  {
    if k == 0 {
      moves := [];
    } else {
      var front := AloneIsRun(s, t, k - 1);
      moves := Extend(s, front, Processor(t, Return, false));
    }
  }

  // Three steps of a dispatcher: the message is filled, and its notifier sees READY.
  lemma LateNotify(s: State)
    requires JustEmpty(s)
    ensures var disp := Dispatcher(0, true);
            var s' := Step(Step(Step(s, disp), disp), disp);
            && s'.notified == {1} && s'.place == FoundNothing && s'.index == 0
            && s'.holder == Some(0) && s'.ProcAt(0) == Running && !s'.pending
  {
    var disp := Dispatcher(0, true);
    var s6 := Step(s, disp);
    assert s6.DispAt(0) == Notifying(1) && s6.tail == 1;
    var s7 := Step(s6, disp);
    assert s7.DispAt(0) == SecondLook(1);
  }

  /** The fetch finds nothing, the message comes and is notified, and only then is
      DATA_WAIT set: nothing will wake the routine. */
  lemma LateWaitLosesWakeup() returns (moves: seq<Move>)
    ensures var s := Exec(Init(FetchThenSet, CheckState, 1), moves);
            Waiting(s) && Missed(s, 1) && !WakeComing(s)
  {
    var s := Init(FetchThenSet, CheckState, 1);
    FiveSteps();
    var m5 := AloneIsRun(s, 0, 5);
    LateNotify(Exec(s, m5));
    var m6 := Extend(s, m5, Dispatcher(0, true));
    var m7 := Extend(s, m6, Dispatcher(0, true));
    var m8 := Extend(s, m7, Dispatcher(0, true));
    moves := Extend(s, m8, Processor(0, Return, false));
  }

  /** No run loses a wake-up if and only if the loop sets DATA_WAIT before it fetches or
      the notifier sets the flag whatever the state. */
  lemma SafeExactly(loop: Loop, notifier: Notifier)
    ensures Safe(loop, notifier) <==>
            forall size: nat, moves: seq<Move> :: NoLostWakeup(Exec(Init(loop, notifier, size), moves))
  {
    if Safe(loop, notifier) {
      forall size: nat, moves: seq<Move> ensures NoLostWakeup(Exec(Init(loop, notifier, size), moves)) {
        RunInv(loop, notifier, size, moves);
      }
    } else {
      var moves := LateWaitLosesWakeup();
      assert !NoLostWakeup(Exec(Init(loop, notifier, 1), moves));
    }
  }
}
