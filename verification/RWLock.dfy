/** The spinning read-write lock of cyber/base/atomic_rw_lock.h.

    Any number of threads; a step is one load, compare-and-swap or fetch-and-add.
    Announcements of writers carry numbers: `acquired` is history, the numbers of the
    writers that have had the lock. */
module RWLock {

  type Tid = nat

  const RW_LOCK_FREE := 0
  const WRITE_EXCLUSIVE := -1

  /** `ahead`: the writers that had announced themselves and not acquired when the
      reader began. */
  datatype Pc =
    | Idle
    | ReadLoad(ahead: set<nat>)
    | ReadCheck(seen: int, ahead: set<nat>)
    | ReadWait(seen: int, ahead: set<nat>)
    | ReadCas(seen: int, ahead: set<nat>)
    | Reading
    | WriteAnnounce
    | WriteCas(ticket: nat)
    | WriteLeave
    | Writing

  datatype Call = CallRead | CallWrite

  // `spurious`: a weak compare-and-swap fails for no reason.
  datatype Choice = Choice(call: Call, spurious: bool)

  datatype State = State(writeFirst: bool, lockNum: int, waitNum: int,
                         announced: nat, acquired: set<nat>, threads: map<Tid, Pc>)
  {
    function At(t: Tid): Pc {
      if t in threads then threads[t] else Idle
    }

    function Goto(t: Tid, pc: Pc): State {
      this.(threads := threads[t := pc])
    }
  }

  function Init(writeFirst: bool): State {
    State(writeFirst, RW_LOCK_FREE, 0, 0, {}, map[])
  }

  // The writers that have announced themselves and not acquired the lock yet.
  function Announced(s: State): set<nat> {
    set n: nat | n < s.announced && n !in s.acquired
  }

  // The loop head of ReadLock, with the value last seen.
  function Check(s: State, seen: int, ahead: set<nat>): Pc {
    if seen < RW_LOCK_FREE then ReadLoad(ahead)
    else if s.writeFirst then ReadWait(seen, ahead)
    else ReadCas(seen, ahead)
  }

  function Step(s: State, t: Tid, c: Choice): State {
    match s.At(t)
    case Idle =>
      (match c.call
       case CallRead => s.Goto(t, ReadLoad(Announced(s)))
       case CallWrite => s.Goto(t, WriteAnnounce))
    case ReadLoad(ahead) => s.Goto(t, ReadCheck(s.lockNum, ahead))
    case ReadCheck(seen, ahead) => s.Goto(t, Check(s, seen, ahead))
    case ReadWait(seen, ahead) => s.Goto(t, if s.waitNum > 0 then ReadLoad(ahead) else ReadCas(seen, ahead))
    case ReadCas(seen, ahead) =>
      if c.spurious || s.lockNum != seen then s.Goto(t, ReadCheck(s.lockNum, ahead))
      else s.(lockNum := seen + 1).Goto(t, Reading)
    case Reading => s.(lockNum := s.lockNum - 1).Goto(t, Idle)
    case WriteAnnounce =>
      s.(waitNum := s.waitNum + 1, announced := s.announced + 1).Goto(t, WriteCas(s.announced))
    case WriteCas(ticket) =>
      if c.spurious || s.lockNum != RW_LOCK_FREE then s
      else s.(lockNum := WRITE_EXCLUSIVE, acquired := s.acquired + {ticket}).Goto(t, WriteLeave)
    case WriteLeave => s.(waitNum := s.waitNum - 1).Goto(t, Writing)
    case Writing => s.(lockNum := s.lockNum + 1).Goto(t, Idle)
  }

  function Exec(s: State, schedule: seq<(Tid, Choice)>): State
    decreases |schedule|
  {
    if schedule == [] then s
    else
      var (t, c) := schedule[|schedule| - 1];
      Step(Exec(s, schedule[..|schedule| - 1]), t, c)
  }

  // ---------------------------------------------------------------------
  // The invariant

  predicate Writes(pc: Pc) {
    pc.WriteLeave? || pc.Writing?
  }

  predicate Waits(pc: Pc) {
    pc.WriteCas? || pc.WriteLeave?
  }

  function Readers(s: State): set<Tid> {
    set t | t in s.threads && s.threads[t].Reading?
  }

  function Writers(s: State): set<Tid> {
    set t | t in s.threads && Writes(s.threads[t])
  }

  function Waiters(s: State): set<Tid> {
    set t | t in s.threads && Waits(s.threads[t])
  }

  /** The lock word counts: -1 for the one writer, or the number of readers. */
  ghost predicate Counts(s: State) {
    && s.lockNum == (if Writers(s) != {} then WRITE_EXCLUSIVE else |Readers(s)|)
    && (Writers(s) != {} ==> Readers(s) == {})
    && (forall t, u :: t in Writers(s) && u in Writers(s) ==> t == u)
    && s.waitNum == |Waiters(s)|
  }

  ghost predicate Holds(s: State, t: Tid, n: nat) {
    t in s.threads && s.threads[t] == WriteCas(n)
  }

  // A writer that has not acquired the lock waits with its number; numbers are not shared.
  ghost predicate TicketsOk(s: State) {
    && (forall n :: n in s.acquired ==> n < s.announced)
    && (forall t: nat, n: nat :: Holds(s, t, n) ==> n < s.announced && n !in s.acquired)
    && (forall t: nat, u: nat, n: nat :: Holds(s, t, n) && Holds(s, u, n) ==> t == u)
    && (forall n: nat :: n < s.announced && n !in s.acquired ==> exists t: nat :: Holds(s, t, n))
  }

  // What a reader has waited for.
  ghost predicate Local(s: State, pc: Pc) {
    match pc
    case ReadLoad(ahead) => forall n :: n in ahead ==> n < s.announced
    case ReadCheck(_, ahead) => forall n :: n in ahead ==> n < s.announced
    case ReadWait(seen, ahead) => s.writeFirst && seen >= 0 && forall n :: n in ahead ==> n < s.announced
    case ReadCas(seen, ahead) =>
      seen >= 0 && (forall n :: n in ahead ==> n < s.announced) && (s.writeFirst ==> ahead <= s.acquired)
    case _ => true
  }

  ghost predicate Inv(s: State) {
    Counts(s) && TicketsOk(s) && forall t :: t in s.threads ==> Local(s, s.threads[t])
  }

  // ---------------------------------------------------------------------
  // Every step keeps it

  // How a set of threads changes when one of them moves.
  lemma Moves(a: set<Tid>, b: set<Tid>, t: Tid)
    requires forall u :: u != t ==> (u in b <==> u in a)
    ensures |b| == |a| + (if t in b then 1 else 0) - (if t in a then 1 else 0)
  {
    if t in b && t !in a { assert b == a + {t}; }
    else if t in a && t !in b { assert a == b + {t}; }
    else { assert a == b; }
  }

  function One(b: bool): int {
    if b then 1 else 0
  }

  lemma SetsMove(s: State, t: Tid, c: Choice)
    ensures var s' := Step(s, t, c);
            && (forall u :: u != t ==> (u in Readers(s') <==> u in Readers(s)) && (u in Writers(s') <==> u in Writers(s)))
            && |Readers(s')| == |Readers(s)| + One(s'.At(t).Reading?) - One(s.At(t).Reading?)
            && |Waiters(s')| == |Waiters(s)| + One(Waits(s'.At(t))) - One(Waits(s.At(t)))
  {
    var s' := Step(s, t, c);
    forall u | u != t ensures s'.At(u) == s.At(u) && (u in s'.threads <==> u in s.threads) { OtherStays(s, t, c, u); }
    Moves(Readers(s), Readers(s'), t);
    Moves(Waiters(s), Waiters(s'), t);
  }

  lemma OtherStays(s: State, t: Tid, c: Choice, u: Tid)
    requires u != t
    ensures Step(s, t, c).At(u) == s.At(u) && (u in Step(s, t, c).threads <==> u in s.threads)
  {
  }

  // What a step does to the lock word and the waiting writers.
  lemma WordsMove(s: State, t: Tid, c: Choice)
    ensures var s', pc := Step(s, t, c), s.At(t);
            && s'.waitNum == s.waitNum + One(Waits(s'.At(t))) - One(Waits(pc))
            && (Writes(s'.At(t)) == Writes(pc) && s'.At(t).Reading? == pc.Reading? ==> s'.lockNum == s.lockNum)
            && (pc.Reading? ==> s'.lockNum == s.lockNum - 1 && s'.At(t) == Idle)
            && (pc.Writing? ==> s'.lockNum == s.lockNum + 1 && s'.At(t) == Idle)
            && (!pc.Reading? && s'.At(t).Reading? ==> pc.ReadCas? && s.lockNum == pc.seen && s'.lockNum == s.lockNum + 1)
            && (!Writes(pc) && Writes(s'.At(t)) ==> pc.WriteCas? && s.lockNum == 0 && s'.lockNum == -1)
            && (Writes(pc) && !Writes(s'.At(t)) ==> pc.Writing?)
  {
  }

  lemma StepCounts(s: State, t: Tid, c: Choice)
    requires Counts(s) && (t in s.threads ==> Local(s, s.threads[t]))
    ensures Counts(Step(s, t, c))
  {
    var s', pc := Step(s, t, c), s.At(t);
    SetsMove(s, t, c);
    WordsMove(s, t, c);
    assert pc.Reading? ==> t in Readers(s);
    assert Writes(pc) ==> t in Writers(s);
    assert s'.At(t).Reading? ==> t in Readers(s');
    assert Writes(s'.At(t)) ==> t in Writers(s');
  }

  lemma StepHolds(s: State, t: Tid, c: Choice, u: Tid, n: nat)
    requires Holds(Step(s, t, c), u, n)
    ensures Holds(s, u, n) || (u == t && n == s.announced && Step(s, t, c).announced == n + 1)
    ensures Step(s, t, c).acquired == s.acquired || u != t
  {
  }

  lemma StepTickets(s: State, t: Tid, c: Choice)
    requires TicketsOk(s)
    ensures TicketsOk(Step(s, t, c))
  {
    var s' := Step(s, t, c);
    assert s.At(t).WriteCas? ==> Holds(s, t, s.At(t).ticket);
    forall n: nat | n < s'.announced && n !in s'.acquired ensures exists u: nat :: Holds(s', u, n) {
      if n < s.announced {
        var u :| Holds(s, u, n);
        assert Holds(s', u, n);
      } else {
        assert Holds(s', t, n);
      }
    }
    forall u: nat, n: nat | Holds(s', u, n) ensures n < s'.announced && n !in s'.acquired {
      StepHolds(s, t, c, u, n);
    }
    forall u: nat, w: nat, n: nat | Holds(s', u, n) && Holds(s', w, n) ensures u == w {
      StepHolds(s, t, c, u, n);
      StepHolds(s, t, c, w, n);
    }
  }

  lemma HolderWaits(s: State, t: Tid, n: nat)
    requires Counts(s) && Holds(s, t, n)
    ensures s.waitNum > 0
  {
    assert t in Waiters(s);
  }

  // Without a waiting writer every writer that announced itself has acquired.
  lemma NobodyWaits(s: State)
    requires Counts(s) && TicketsOk(s) && s.waitNum <= 0
    ensures forall n: nat :: n < s.announced ==> n in s.acquired
  {
    forall n: nat | n < s.announced ensures n in s.acquired {
      if n !in s.acquired {
        var t: nat :| Holds(s, t, n);
        HolderWaits(s, t, n);
      }
    }
  }

  lemma StepHistory(s: State, t: Tid, c: Choice)
    ensures var s' := Step(s, t, c);
            s'.announced >= s.announced && s.acquired <= s'.acquired && s'.writeFirst == s.writeFirst
  {
  }

  lemma LocalStays(s: State, s': State, pc: Pc)
    requires Local(s, pc)
    requires s'.announced >= s.announced && s.acquired <= s'.acquired && s'.writeFirst == s.writeFirst
    ensures Local(s', pc)
  {
  }

  lemma StepSelf(s: State, t: Tid, c: Choice)
    requires Counts(s) && TicketsOk(s) && (t in s.threads ==> Local(s, s.threads[t]))
    ensures Local(Step(s, t, c), Step(s, t, c).At(t))
  {
    if s.At(t).ReadWait? && s.waitNum <= 0 { NobodyWaits(s); }
  }

  lemma StepInv(s: State, t: Tid, c: Choice)
    requires Inv(s)
    ensures Inv(Step(s, t, c))
  {
    var s' := Step(s, t, c);
    StepCounts(s, t, c);
    StepTickets(s, t, c);
    StepHistory(s, t, c);
    StepSelf(s, t, c);
    forall u | u in s'.threads ensures Local(s', s'.threads[u]) {
      if u != t {
        OtherStays(s, t, c, u);
        LocalStays(s, s', s.threads[u]);
      }
    }
  }

  lemma {:induction false} RunInv(writeFirst: bool, schedule: seq<(Tid, Choice)>)
    ensures Inv(Exec(Init(writeFirst), schedule)) && Exec(Init(writeFirst), schedule).writeFirst == writeFirst
    decreases |schedule|
  {
    if schedule != [] {
      var before := Exec(Init(writeFirst), schedule[..|schedule| - 1]);
      var (t, c) := schedule[|schedule| - 1];
      RunInv(writeFirst, schedule[..|schedule| - 1]);
      StepInv(before, t, c);
      StepHistory(before, t, c);
    }
  }

  // ---------------------------------------------------------------------
  // What the lock promises

  /** The lock word is -1 exactly while one writer and no reader has the lock, and the
      number of readers otherwise. A writer still leaving the queue has it already. */
  lemma WordCounts(writeFirst: bool, schedule: seq<(Tid, Choice)>)
    ensures var s := Exec(Init(writeFirst), schedule);
            && (s.lockNum == -1 <==> |Writers(s)| == 1 && Readers(s) == {})
            && (s.lockNum != -1 ==> s.lockNum == |Readers(s)| && Writers(s) == {})
  {
    RunInv(writeFirst, schedule);
    var s := Exec(Init(writeFirst), schedule);
    if Writers(s) != {} {
      var t :| t in Writers(s);
      assert Writers(s) == {t};
    }
  }

  // In this step thread `t` gets a read lock.
  predicate Acquires(s: State, t: Tid, c: Choice) {
    s.At(t).ReadCas? && Step(s, t, c).At(t).Reading?
  }

  predicate InReadLock(pc: Pc) {
    pc.ReadLoad? || pc.ReadCheck? || pc.ReadWait? || pc.ReadCas?
  }

  // Thread `t` is inside one call of ReadLock in every state of the run from `s`.
  ghost predicate Spins(s: State, t: Tid, schedule: seq<(Tid, Choice)>)
    decreases |schedule|
  {
    InReadLock(Exec(s, schedule).At(t)) &&
    (schedule == [] || Spins(s, t, schedule[..|schedule| - 1]))
  }

  // The reader keeps what it recorded as it began.
  lemma RecordStays(s: State, t: Tid, u: Tid, c: Choice)
    requires InReadLock(s.At(t)) && InReadLock(Step(s, u, c).At(t))
    ensures Step(s, u, c).At(t).ahead == s.At(t).ahead
  {
    if u != t { OtherStays(s, u, c, t); }
  }

  lemma {:induction false} RecordStaysThroughout(s: State, t: Tid, schedule: seq<(Tid, Choice)>)
    requires Spins(s, t, schedule)
    ensures InReadLock(s.At(t)) && Exec(s, schedule).At(t).ahead == s.At(t).ahead
    decreases |schedule|
  {
    if schedule != [] {
      var front := schedule[..|schedule| - 1];
      var (u, c) := schedule[|schedule| - 1];
      RecordStaysThroughout(s, t, front);
      RecordStays(Exec(s, front), t, u, c);
    }
  }

  lemma {:induction false} RunKeepsInv(s: State, schedule: seq<(Tid, Choice)>)
    requires Inv(s)
    ensures Inv(Exec(s, schedule)) && Exec(s, schedule).writeFirst == s.writeFirst
    decreases |schedule|
  {
    if schedule != [] {
      var front := schedule[..|schedule| - 1];
      var (u, c) := schedule[|schedule| - 1];
      RunKeepsInv(s, front);
      StepInv(Exec(s, front), u, c);
      StepHistory(Exec(s, front), u, c);
    }
  }

  /** Thread `t` begins ReadLock after the run `before`, spins through the run `spin`, and
      then gets the lock: the writers that waited as it began. */
  ghost predicate ReaderGets(writeFirst: bool, before: seq<(Tid, Choice)>, t: Tid, spin: seq<(Tid, Choice)>, c: Choice) {
    var s := Exec(Init(writeFirst), before);
    var begun := Step(s, t, Choice(CallRead, false));
    s.At(t) == Idle && Spins(begun, t, spin) && Acquires(Exec(begun, spin), t, c)
  }

  // Every writer that had announced itself and waited as the reader began has had the
  // lock by the time the reader gets it.
  ghost predicate WaitersWereServed(writeFirst: bool, before: seq<(Tid, Choice)>, t: Tid, spin: seq<(Tid, Choice)>) {
    var s := Exec(Init(writeFirst), before);
    Announced(s) <= Exec(Step(s, t, Choice(CallRead, false)), spin).acquired
  }

  ghost predicate WritersGoFirst(writeFirst: bool) {
    forall before: seq<(Tid, Choice)>, t: nat, spin: seq<(Tid, Choice)>, c: Choice ::
      ReaderGets(writeFirst, before, t, spin, c) ==> WaitersWereServed(writeFirst, before, t, spin)
  }

  lemma ReaderWaitsForWriters(before: seq<(Tid, Choice)>, t: Tid, spin: seq<(Tid, Choice)>, c: Choice)
    requires ReaderGets(true, before, t, spin, c)
    ensures WaitersWereServed(true, before, t, spin)
  {
    var s := Exec(Init(true), before);
    var begun := Step(s, t, Choice(CallRead, false));
    RunInv(true, before);
    StepInv(s, t, Choice(CallRead, false));
    StepHistory(s, t, Choice(CallRead, false));
    RunKeepsInv(begun, spin);
    RecordStaysThroughout(begun, t, spin);
    assert begun.At(t) == ReadLoad(Announced(s));
    var got := Exec(begun, spin);
    assert Local(got, got.At(t));
  }

  lemma Extend(s: State, schedule: seq<(Tid, Choice)>, t: Tid, c: Choice) returns (longer: seq<(Tid, Choice)>)
    ensures Exec(s, longer) == Step(Exec(s, schedule), t, c)
    ensures longer == schedule + [(t, c)] && longer[..|longer| - 1] == schedule
  {
    longer := schedule + [(t, c)];
    assert longer[..|schedule|] == schedule;
  }

  // A writer announces itself and waits.
  lemma WriterWaits() returns (before: seq<(Tid, Choice)>)
    ensures var s := Exec(Init(false), before);
            s.At(1) == Idle && 0 in Announced(s) && s.lockNum == 0 && s.acquired == {} && !s.writeFirst
  {
    var s, write := Init(false), Choice(CallWrite, false);
    var m1 := Extend(s, [], 0, write);
    assert Exec(s, m1).At(0) == WriteAnnounce;
    before := Extend(s, m1, 0, write);
  }

  /** Without the preference a reader overtakes a writer that waited before it began. */
  lemma ReaderOvertakes() returns (before: seq<(Tid, Choice)>, spin: seq<(Tid, Choice)>)
    ensures ReaderGets(false, before, 1, spin, Choice(CallRead, false))
    ensures !WaitersWereServed(false, before, 1, spin)
  {
    var read := Choice(CallRead, false);
    before := WriterWaits();
    var s := Exec(Init(false), before);
    var begun := Step(s, 1, read);
    assert begun.At(1) == ReadLoad(Announced(s)) && begun.acquired == {};
    assert Exec(begun, []) == begun && Spins(begun, 1, []);
    spin := Extend(begun, [], 1, read);
    var s1 := Exec(begun, spin);
    assert s1.At(1) == ReadCheck(0, Announced(s)) && s1.acquired == {} && !s1.writeFirst && s1.lockNum == 0;
    assert Spins(begun, 1, spin);
    var spin2 := Extend(begun, spin, 1, read);
    assert Exec(begun, spin2).At(1) == ReadCas(0, Announced(s)) && Exec(begun, spin2).lockNum == 0;
    assert Spins(begun, 1, spin2);
    spin := spin2;
  }

  /** Writers that wait go before readers that begin later, in every run, if and only if
      the lock is in write-first mode. */
  lemma PreferenceDecides(writeFirst: bool)
    ensures WritersGoFirst(writeFirst) <==> writeFirst
  {
    if writeFirst {
      forall before: seq<(Tid, Choice)>, t: nat, spin: seq<(Tid, Choice)>, c: Choice
        | ReaderGets(writeFirst, before, t, spin, c)
        ensures WaitersWereServed(writeFirst, before, t, spin)
      {
        ReaderWaitsForWriters(before, t, spin, c);
      }
    } else {
      var before, spin := ReaderOvertakes();
      var t, c := 1, Choice(CallRead, false);
      assert ReaderGets(false, before, t, spin, c) && !WaitersWereServed(false, before, t, spin);
      assert !WritersGoFirst(false);
    }
  }

  /** A lock that nobody has or waits for is had by the next caller, whichever it is; one
      that only readers have, and no writer waits for, by the next reader too. */
  lemma FreeLockIsHad(s: State, t: Tid, call: Call)
    requires Inv(s) && s.At(t) == Idle && s.waitNum == 0
    ensures var c := Choice(call, false);
            var s4 := Step(Step(Step(Step(s, t, c), t, c), t, c), t, c);
            call == CallWrite && s.lockNum == 0 ==> s4.At(t) == Writing && s4.lockNum == -1
    ensures var c := Choice(call, false);
            var s4 := Step(Step(Step(Step(s, t, c), t, c), t, c), t, c);
            var s5 := if s.writeFirst then Step(s4, t, c) else s4;
            call == CallRead && s.lockNum >= 0 ==> s5.At(t) == Reading && s5.lockNum == s.lockNum + 1
  {
    var c := Choice(call, false);
    var s1 := Step(s, t, c);
    var s2 := Step(s1, t, c);
    var s3 := Step(s2, t, c);
    var s4 := Step(s3, t, c);
    if call == CallWrite {
      assert s1.At(t) == WriteAnnounce && s2.At(t) == WriteCas(s.announced);
      assert s.lockNum == 0 ==> s3.At(t) == WriteLeave;
    } else {
      assert s1.At(t) == ReadLoad(Announced(s)) && s2.At(t) == ReadCheck(s.lockNum, Announced(s));
      assert s2.lockNum == s.lockNum && s2.waitNum == 0;
    }
  }

  predicate InWriteLock(pc: Pc) {
    pc.WriteAnnounce? || pc.WriteCas? || pc.WriteLeave?
  }

  /** The ways out: ReadLock ends only with a read lock, taken by a swap that adds one to
      a word that counts readers, and WriteLock only with the write lock, taken by a swap
      on a free word; every other step stays inside. A lock is given back by one step. */
  lemma LockLeaves(s: State, t: Tid, c: Choice)
    requires Inv(s)
    ensures var (pc, s') := (s.At(t), Step(s, t, c));
            && (InReadLock(pc) && !InReadLock(s'.At(t)) ==>
                  pc.ReadCas? && s'.At(t) == Reading && s.lockNum >= 0 && s'.lockNum == s.lockNum + 1)
            && (InReadLock(pc) && InReadLock(s'.At(t)) ==> s' == s.Goto(t, s'.At(t)))
            && (InWriteLock(pc) && !InWriteLock(s'.At(t)) ==> s'.At(t) == Writing && s.lockNum == -1)
            && (pc.WriteCas? && s' != s ==> s'.At(t) == WriteLeave && s.lockNum == 0 && s'.lockNum == -1)
            && (pc.WriteCas? && s.lockNum == 0 && !c.spurious ==> s' != s)
            && ((pc.WriteCas? || pc.ReadCas?) && c.spurious ==> s'.lockNum == s.lockNum)
            && (pc == Reading ==> s'.At(t) == Idle && s'.lockNum == s.lockNum - 1)
            && (pc == Writing ==> s'.At(t) == Idle && s'.lockNum == 0)
  {
    assert t in s.threads ==> Local(s, s.threads[t]);
    if Writes(s.At(t)) { assert t in Writers(s); }
  }

  // `k` steps of thread `t` with nobody in between.
  function Alone(s: State, t: Tid, call: Call, k: nat): State
    decreases k
  {
    if k == 0 then s else Alone(Step(s, t, Choice(call, false)), t, call, k - 1)
  }

  function ReadRank(s: State, pc: Pc): nat {
    match pc
    case ReadLoad(_) => 4
    case ReadCheck(seen, _) => if seen == s.lockNum then 3 else if seen < 0 then 5 else 7
    case ReadWait(seen, _) => if seen == s.lockNum then 2 else 6
    case ReadCas(seen, _) => if seen == s.lockNum then 1 else 5
    case _ => 0
  }

  /** A reader inside ReadLock, with whatever it has seen before, gets the lock when it is
      left alone and the lock is free or with readers only; in write-first mode, once no
      writer waits. */
  lemma {:induction false} ReaderGetsIn(s: State, t: Tid, call: Call) returns (k: nat)
    requires Inv(s) && InReadLock(s.At(t)) && s.lockNum >= 0 && (s.writeFirst ==> s.waitNum == 0)
    ensures Alone(s, t, call, k) == s.(lockNum := s.lockNum + 1).Goto(t, Reading)
    decreases ReadRank(s, s.At(t))
  {
    var c := Choice(call, false);
    var s' := Step(s, t, c);
    assert Local(s, s.At(t));
    LockLeaves(s, t, c);
    if !InReadLock(s'.At(t)) {
      k := 1;
      assert Alone(s', t, call, 0) == s';
    } else {
      StepInv(s, t, c);
      k := ReaderGetsIn(s', t, call);
      assert s'.Goto(t, Reading).threads == s.Goto(t, Reading).threads;
      k := k + 1;
    }
  }
}
