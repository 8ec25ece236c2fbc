/** The lock-free hash map of cyber/base/atomic_hash_map.h.

    Entries are numbers: 0 up to `buckets` are the dummy heads, one for each
    bucket, and later ones are allocated. `linked` is history: the entries a
    bucket's list has been given. A step of a thread is one atomic load, store or
    compare-and-swap, with the private work up to the next one. */
module AtomicHashMap {

  import opened Options
  import opened Remainder

  type Tid = nat
  type Key = int
  type Ref = nat

  // ---------------------------------------------------------------------
  // The lists

  /** `home` says whose list an entry is for. */
  datatype Heap = Heap(buckets: nat, key: seq<Key>, home: seq<nat>, next: seq<Option<Ref>>, linked: set<Ref>)

  ghost predicate Wf(h: Heap) {
    && 0 < h.buckets <= |h.key| == |h.next| == |h.home|
    && (forall e :: e in h.linked ==> e < |h.key|)
    && (forall b: nat :: b < h.buckets ==> b in h.linked && h.home[b] == b)
  }

  predicate Real(h: Heap, e: Ref) {
    h.buckets <= e < |h.key| && e in h.linked
  }

  // Entry `e` comes before key `k` in the list of bucket `b`.
  predicate Before(h: Heap, e: Ref, b: nat, k: Key)
    requires e < |h.key| && e < |h.home|
  {
    h.home[e] == b && (e < h.buckets || h.key[e] < k)
  }

  /** Links go up in the key, inside one bucket. */
  ghost predicate Ascending(h: Heap)
    requires Wf(h)
  {
    forall e :: e in h.linked && h.next[e].Some? ==>
      var n := h.next[e].value; Real(h, n) && Before(h, e, h.home[n], h.key[n])
  }

  /** A link does not pass an entry of its bucket that is still ahead. */
  ghost predicate SkipsNothing(h: Heap)
    requires Wf(h)
  {
    forall e: nat, f: nat :: e in h.linked && Real(h, f) && Before(h, e, h.home[f], h.key[f]) ==>
      h.next[e].Some? && h.next[e].value < |h.key| && h.key[h.next[e].value] <= h.key[f]
  }

  ghost predicate Unique(h: Heap) {
    forall e: nat, f: nat :: Real(h, e) && Real(h, f) && h.key[e] == h.key[f] ==> e == f
  }

  ghost predicate Lists(h: Heap) {
    Wf(h) && Ascending(h) && SkipsNothing(h) && Unique(h)
  }

  function Alloc(h: Heap, b: nat, k: Key): Heap {
    h.(key := h.key + [k], home := h.home + [b], next := h.next + [None])
  }

  function Store(h: Heap, e: Ref, target: Option<Ref>): Heap
    requires e < |h.next|
  {
    h.(next := h.next[e := target])
  }

  function Link(h: Heap, p: Ref, e: Ref): Heap
    requires p < |h.next|
  {
    h.(next := h.next[p := Some(e)], linked := h.linked + {e})
  }

  lemma AllocLists(h: Heap, b: nat, k: Key)
    requires Lists(h)
    ensures Lists(Alloc(h, b, k))
  {
    var h' := Alloc(h, b, k);
    assert forall e: nat :: Real(h', e) ==> Real(h, e);
    assert Wf(h');
    assert Ascending(h');
    assert SkipsNothing(h');
  }

  lemma StoreLists(h: Heap, e: Ref, target: Option<Ref>)
    requires Lists(h) && e < |h.next| && e !in h.linked
    ensures Lists(Store(h, e, target))
  {
    var h' := Store(h, e, target);
    assert Wf(h');
    assert Ascending(h');
    assert SkipsNothing(h');
  }

  // The list of bucket `b` does not hold a key that the link of `p` passes.
  lemma Absent(h: Heap, p: Ref, b: nat, k: Key, f: Ref)
    requires Wf(h) && SkipsNothing(h) && p in h.linked && Before(h, p, b, k)
    requires h.next[p].None? || (h.next[p].value < |h.key| && h.key[h.next[p].value] > k)
    requires Real(h, f) && h.home[f] == b
    ensures h.key[f] != k
  {
  }

  ghost predicate Fits(h: Heap, p: Ref, e: Ref) {
    && Wf(h)
    && p in h.linked && h.buckets <= e < |h.key| && e !in h.linked
    && Before(h, p, h.home[e], h.key[e])
    && h.next[e] == h.next[p]
    && (h.next[p].None? || (h.next[p].value < |h.key| && h.key[h.next[p].value] > h.key[e]))
  }

  // Every other entry before the new key has a link that does not pass it.
  lemma LinkReaches(h: Heap, p: Ref, e: Ref, a: Ref)
    requires Lists(h) && Fits(h, p, e)
    requires a in h.linked && a != p && Before(h, a, h.home[e], h.key[e])
    ensures h.next[a].Some? && h.next[a].value < |h.key| && h.key[h.next[a].value] <= h.key[e]
  {
    if p < h.buckets {
      assert Real(h, a) && Before(h, p, h.home[a], h.key[a]);
    } else if a < h.buckets || h.key[a] < h.key[p] {
      assert Real(h, p) && Before(h, a, h.home[p], h.key[p]);
    } else {
      assert Real(h, a) && Real(h, p);
      assert Before(h, p, h.home[a], h.key[a]);
    }
  }

  lemma LinkSkipsNothing(h: Heap, p: Ref, e: Ref, a: Ref, f: Ref)
    requires Lists(h) && Fits(h, p, e)
    requires var h' := Link(h, p, e);
             a in h'.linked && Real(h', f) && Before(h', a, h.home[f], h.key[f])
    ensures var h' := Link(h, p, e);
            h'.next[a].Some? && h'.next[a].value < |h'.key| && h'.key[h'.next[a].value] <= h'.key[f]
  {
    if f == e {
      if a != p && a != e { LinkReaches(h, p, e, a); }
    } else {
      assert Real(h, f);
      if a == e { assert Before(h, p, h.home[f], h.key[f]); }
      if a == p && h.home[f] == h.home[p] { assert Before(h, p, h.home[f], h.key[f]); }
    }
  }

  lemma LinkAscends(h: Heap, p: Ref, e: Ref)
    requires Wf(h) && Ascending(h) && Unique(h) && Fits(h, p, e)
    requires forall f: nat :: Real(h, f) ==> h.key[f] != h.key[e]
    ensures Wf(Link(h, p, e)) && Ascending(Link(h, p, e)) && Unique(Link(h, p, e))
  {
    var h' := Link(h, p, e);
    assert forall f: nat :: Real(h', f) ==> f == e || Real(h, f);
  }

  lemma LinkLists(h: Heap, p: Ref, e: Ref)
    requires Lists(h) && Fits(h, p, e)
    requires forall f: nat :: Real(h, f) && h.key[f] == h.key[e] ==> h.home[f] == h.home[e]
    ensures Lists(Link(h, p, e))
    ensures forall f: nat :: Real(h, f) ==> h.key[f] != h.key[e]
  {
    var h' := Link(h, p, e);
    forall f: nat | Real(h, f) ensures h.key[f] != h.key[e] {
      if h.home[f] == h.home[e] { Absent(h, p, h.home[e], h.key[e], f); }
    }
    LinkAscends(h, p, e);
    forall a: nat, f: nat | a in h'.linked && Real(h', f) && Before(h', a, h'.home[f], h'.key[f])
      ensures h'.next[a].Some? && h'.next[a].value < |h'.key| && h'.key[h'.next[a].value] <= h'.key[f]
    {
      LinkSkipsNothing(h, p, e, a, f);
    }
  }

  // `key & mode_num_`, for a table size that is a power of two.
  function BucketOf(k: Key, buckets: nat): nat
    requires buckets > 0
  {
    k % buckets
  }

  // Keys below the table size have buckets of their own, and the rest repeat.
  lemma BucketsRepeat(k: Key, buckets: nat)
    requires buckets > 0
    ensures 0 <= k < buckets ==> BucketOf(k, buckets) == k
    ensures k >= 0 ==> BucketOf(k + buckets, buckets) == BucketOf(k, buckets)
  {
    if k >= 0 { AddModulus(buckets, k); }
  }

  // ---------------------------------------------------------------------
  // The threads

  /** What a value reads as; an argument that has been moved out of reads as `MovedFrom`. */
  datatype Value = Value(v: int) | MovedFrom

  // A pointer to a value: comparing pointers compares addresses.
  datatype Ptr = Ptr(address: nat, value: Value)

  // A call works on one bucket, chosen once from the key.
  datatype Want = Want(bucket: nat, key: Key)

  /** One `Insert`, by copy or by move, with the entry and the value it has
      allocated so far. */
  datatype Ins = Ins(want: Want, v: int, byMove: bool, entry: Option<Ref>, made: Option<Ptr>)

  datatype Answer = NoAnswer | Present(present: bool) | Got(value: Option<Value>) | Stored

  datatype Pc =
    | Idle(answer: Answer)
    | HasAt(want: Want, prev: Ref)
    | GetAt(want: Want, prev: Ref)
    | GetValue(want: Want, target: Ref)
    | InsAt(ins: Ins, prev: Ref)
    | InsStore(ins: Ins, prev: Ref, link: Option<Ref>)
    | InsLink(ins: Ins, prev: Ref, link: Option<Ref>)
    | InsLoad(ins: Ins, target: Ref)
    | InsSwap(ins: Ins, target: Ref, address: nat)

  datatype Call = CallHas(key: Key) | CallGet(key: Key) | CallSet(key: Key, v: int, byMove: bool)

  // `address` is where the allocator puts a new value, if one is made.
  datatype Choice = Choice(call: Call, address: nat)

  /** `sets` is history: the stores that took effect, in order. */
  datatype State = State(h: Heap, val: seq<Ptr>, sets: seq<(Key, Value)>, threads: map<Tid, Pc>)
  {
    function At(t: Tid): Pc {
      if t in threads then threads[t] else Idle(NoAnswer)
    }

    function Goto(t: Tid, pc: Pc): State {
      this.(threads := threads[t := pc])
    }
  }

  function Dummies(k: nat): (r: set<Ref>)
    ensures forall b: nat :: b in r <==> b < k
  {
    if k == 0 then {} else Dummies(k - 1) + {k - 1}
  }

  function Init(buckets: nat): State {
    State(Heap(buckets, seq(buckets, i => 0), seq(buckets, i => i), seq(buckets, i => None), Dummies(buckets)),
          seq(buckets, i => Ptr(0, Value(0))), [], map[])
  }

  // The map that a sequence of stores makes.
  function Replay(sets: seq<(Key, Value)>): map<Key, Value> {
    if sets == [] then map[]
    else Replay(sets[..|sets| - 1])[sets[|sets| - 1].0 := sets[|sets| - 1].1]
  }

  function Map(s: State): map<Key, Value> {
    Replay(s.sets)
  }

  // What a load of `prev->next` shows of key `k`.
  datatype Seen = Found(target: Ref) | Missing(link: Option<Ref>) | Further(target: Ref)

  function Look(h: Heap, prev: Ref, k: Key): Seen {
    var link := if prev < |h.next| then h.next[prev] else None;
    if link.None? || link.value >= |h.key| then Missing(None)
    else if h.key[link.value] == k then Found(link.value)
    else if h.key[link.value] > k then Missing(link)
    else Further(link.value)
  }

  // What the argument of `Insert` reads as. Only the new value of an `Insert` by move
  // is made by a move; an entry is made by a copy in both overloads.
  function Argument(ins: Ins): Value {
    if ins.byMove && ins.made.Some? then MovedFrom else Value(ins.v)
  }

  // A second move would store what the first has left behind.
  lemma MovedArgument(ins: Ins)
    ensures Argument(ins) == MovedFrom <==> ins.byMove && ins.made.Some?
    ensures Argument(ins) != MovedFrom ==> Argument(ins) == Value(ins.v)
  {
  }

  function WithMade(ins: Ins, address: nat): Ins {
    if ins.made.Some? then ins else ins.(made := Some(Ptr(address, Argument(ins))))
  }

  // The load in `Find`, for an insertion; a missing key makes the new entry.
  function InsertLook(s: State, t: Tid, ins: Ins, prev: Ref, address: nat): State {
    match Look(s.h, prev, ins.want.key)
    case Further(target) => s.Goto(t, InsAt(ins, target))
    case Found(target) => s.Goto(t, InsLoad(WithMade(ins, address), target))
    case Missing(link) =>
      if ins.entry.Some? then s.Goto(t, InsStore(ins, prev, link))
      else s.(h := Alloc(s.h, ins.want.bucket, ins.want.key), val := s.val + [Ptr(address, Argument(ins))])
            .Goto(t, InsStore(ins.(entry := Some(|s.h.key|)), prev, link))
  }

  function StoreStep(s: State, t: Tid, ins: Ins, prev: Ref, link: Option<Ref>): State {
    if ins.entry.Some? && ins.entry.value < |s.h.next| then
      s.(h := Store(s.h, ins.entry.value, link)).Goto(t, InsLink(ins, prev, link))
    else s
  }

  function LinkStep(s: State, t: Tid, ins: Ins, prev: Ref, link: Option<Ref>): State {
    if ins.entry.Some? && prev < |s.h.next| && s.h.next[prev] == link && ins.entry.value < |s.val| then
      s.(h := Link(s.h, prev, ins.entry.value),
         sets := s.sets + [(ins.want.key, s.val[ins.entry.value].value)])
       .Goto(t, Idle(Stored))
    else s.Goto(t, InsAt(ins, ins.want.bucket))
  }

  function LoadStep(s: State, t: Tid, ins: Ins, target: Ref): State {
    s.Goto(t, InsSwap(ins, target, if target < |s.val| then s.val[target].address else 0))
  }

  function SwapStep(s: State, t: Tid, ins: Ins, target: Ref, address: nat): State {
    if ins.made.Some? && target < |s.val| && s.val[target].address == address then
      s.(val := s.val[target := ins.made.value], sets := s.sets + [(ins.want.key, ins.made.value.value)])
       .Goto(t, Idle(Stored))
    else s.Goto(t, InsAt(ins, ins.want.bucket))
  }

  function WantOf(h: Heap, k: Key): Want {
    Want(if h.buckets == 0 then 0 else BucketOf(k, h.buckets), k)
  }

  function Begin(h: Heap, call: Call): Pc {
    var want := WantOf(h, call.key);
    match call
    case CallHas(_) => HasAt(want, want.bucket)
    case CallGet(_) => GetAt(want, want.bucket)
    case CallSet(_, v, byMove) => InsAt(Ins(want, v, byMove, None, None), want.bucket)
  }

  function HasLook(h: Heap, want: Want, prev: Ref): Pc {
    match Look(h, prev, want.key)
    case Further(target) => HasAt(want, target)
    case Found(_) => Idle(Present(true))
    case Missing(_) => Idle(Present(false))
  }

  function GetLook(h: Heap, want: Want, prev: Ref): Pc {
    match Look(h, prev, want.key)
    case Further(target) => GetAt(want, target)
    case Found(target) => GetValue(want, target)
    case Missing(_) => Idle(Got(None))
  }

  function Step(s: State, t: Tid, c: Choice): State {
    match s.At(t)
    case Idle(_) => s.Goto(t, Begin(s.h, c.call))
    case HasAt(want, prev) => s.Goto(t, HasLook(s.h, want, prev))
    case GetAt(want, prev) => s.Goto(t, GetLook(s.h, want, prev))
    case GetValue(_, target) =>
      s.Goto(t, Idle(Got(if target < |s.val| then Some(s.val[target].value) else None)))
    case InsAt(ins, prev) => InsertLook(s, t, ins, prev, c.address)
    case InsStore(ins, prev, link) => StoreStep(s, t, ins, prev, link)
    case InsLink(ins, prev, link) => LinkStep(s, t, ins, prev, link)
    case InsLoad(ins, target) => LoadStep(s, t, ins, target)
    case InsSwap(ins, target, address) => SwapStep(s, t, ins, target, address)
  }

  function Exec(s: State, schedule: seq<(Tid, Choice)>): State
    decreases |schedule|
  {
    if schedule == [] then s
    else
      var (t, c) := schedule[|schedule| - 1];
      Step(Exec(s, schedule[..|schedule| - 1]), t, c)
  }

  // ---------------------------------------------------------------------
  // The invariant

  predicate Inserting(pc: Pc) {
    pc.InsAt? || pc.InsStore? || pc.InsLink? || pc.InsLoad? || pc.InsSwap?
  }

  // The entry that thread `t` has made and not linked.
  ghost predicate Owns(s: State, t: Tid, e: Ref) {
    t in s.threads && Inserting(s.threads[t]) && s.threads[t].ins.entry == Some(e)
  }

  ghost predicate Owners(s: State) {
    forall t: nat, u: nat, e: nat :: Owns(s, t, e) && Owns(s, u, e) ==> t == u
  }

  // A bucket's list holds the keys that map to the bucket.
  ghost predicate Homes(h: Heap) {
    0 < h.buckets && |h.key| == |h.home| &&
    forall e: nat :: h.buckets <= e < |h.key| ==> h.home[e] == BucketOf(h.key[e], h.buckets)
  }

  ghost predicate Aimed(h: Heap, want: Want) {
    want == WantOf(h, want.key)
  }

  // A position to search on from.
  ghost predicate Walks(h: Heap, prev: Ref, want: Want) {
    Aimed(h, want) && prev in h.linked && prev < |h.key| == |h.home| && Before(h, prev, want.bucket, want.key)
  }

  ghost predicate Holds(h: Heap, e: Ref, k: Key) {
    Real(h, e) && h.key[e] == k
  }

  ghost predicate Known(h: Heap, k: Key) {
    exists e :: Holds(h, e, k)
  }

  // The entry an insertion has made is its own, with the key and the value it was given.
  ghost predicate EntryOk(h: Heap, val: seq<Ptr>, ins: Ins) {
    ins.entry.Some? ==>
      && |val| == |h.key| == |h.home| && h.buckets <= ins.entry.value < |h.key|
      && ins.entry.value !in h.linked
      && h.key[ins.entry.value] == ins.want.key && h.home[ins.entry.value] == ins.want.bucket
      && val[ins.entry.value].value == Value(ins.v)
  }

  ghost predicate MadeOk(h: Heap, ins: Ins) {
    ins.made.Some? ==>
      && Known(h, ins.want.key)
      && ins.made.value.value == Value(ins.v)
  }

  ghost predicate LinkOk(h: Heap, link: Option<Ref>, k: Key) {
    link.None? || (link.value < |h.key| && h.key[link.value] > k)
  }

  ghost predicate Local(h: Heap, val: seq<Ptr>, pc: Pc) {
    match pc
    case Idle(_) => true
    case HasAt(want, prev) => Walks(h, prev, want)
    case GetAt(want, prev) => Walks(h, prev, want)
    case GetValue(want, target) => Holds(h, target, want.key)
    case InsAt(ins, prev) => EntryOk(h, val, ins) && MadeOk(h, ins) && Walks(h, prev, ins.want)
    case InsStore(ins, prev, link) =>
      && EntryOk(h, val, ins) && Walks(h, prev, ins.want) && LinkOk(h, link, ins.want.key)
      && ins.entry.Some? && ins.made.None?
    case InsLink(ins, prev, link) =>
      && EntryOk(h, val, ins) && Walks(h, prev, ins.want) && LinkOk(h, link, ins.want.key)
      && ins.entry.Some? && ins.made.None?
      && ins.entry.value < |h.next| && h.next[ins.entry.value] == link
    case InsLoad(ins, target) =>
      EntryOk(h, val, ins) && MadeOk(h, ins) && Holds(h, target, ins.want.key) && ins.made.Some? && Aimed(h, ins.want)
    case InsSwap(ins, target, _) =>
      EntryOk(h, val, ins) && MadeOk(h, ins) && Holds(h, target, ins.want.key) && ins.made.Some? && Aimed(h, ins.want)
  }

  /** The lists hold the map `abs`. */
  ghost predicate Agrees(h: Heap, val: seq<Ptr>, abs: map<Key, Value>) {
    && |val| == |h.key|
    && (forall e: nat :: Real(h, e) ==> h.key[e] in abs && abs[h.key[e]] == val[e].value)
    && (forall k :: k in abs ==> Known(h, k))
  }

  ghost predicate Locals(s: State) {
    forall t :: t in s.threads ==> Local(s.h, s.val, s.threads[t])
  }

  ghost predicate Inv(s: State) {
    && Lists(s.h) && Homes(s.h) && Owners(s)
    && Agrees(s.h, s.val, Map(s)) && Locals(s)
  }

  lemma InitInv(buckets: nat)
    requires buckets > 0
    ensures Inv(Init(buckets)) && Init(buckets).h.buckets == buckets && Map(Init(buckets)) == map[]
  {
  }

  // ---------------------------------------------------------------------
  // What one step does to the memory, and what that leaves alone

  /** The memory grows: nothing linked is ever lost or changes its key. */
  ghost predicate Grows(h: Heap, h': Heap) {
    && h'.buckets == h.buckets && |h.key| <= |h'.key| && |h.home| <= |h'.home|
    && h.linked <= h'.linked
    && (forall e: nat :: e < |h.key| ==> h'.key[e] == h.key[e])
    && (forall e: nat :: e < |h.home| ==> h'.home[e] == h.home[e])
  }

  // The parts of the memory that only the owner of `e` changes.
  ghost predicate Leaves(s: State, s': State, e: Ref) {
    && e < |s.h.next| && e < |s'.h.next| && e < |s.val| && e < |s'.val|
    && s'.h.next[e] == s.h.next[e] && s'.val[e].value == s.val[e].value
    && (e in s'.h.linked ==> e in s.h.linked)
  }

  lemma StepGrows(s: State, t: Tid, c: Choice)
    ensures Grows(s.h, Step(s, t, c).h)
  {
  }

  lemma LocalGrows(s: State, s': State, pc: Pc)
    requires Grows(s.h, s'.h) && Local(s.h, s.val, pc)
    requires |s.h.key| == |s.h.home| && |s'.val| == |s'.h.key| == |s'.h.home|
    requires Inserting(pc) && pc.ins.entry.Some? ==> Leaves(s, s', pc.ins.entry.value)
    ensures Local(s'.h, s'.val, pc)
  {
    if Inserting(pc) && pc.ins.made.Some? {
      var e :| Holds(s.h, e, pc.ins.want.key);
      assert Holds(s'.h, e, pc.ins.want.key);
    }
  }

  // Where a search for a key stops, the list does not hold it.
  lemma MissingMeansAbsent(h: Heap, prev: Ref, want: Want)
    requires Lists(h) && Homes(h) && Walks(h, prev, want) && Look(h, prev, want.key).Missing?
    ensures !Known(h, want.key)
    ensures LinkOk(h, Look(h, prev, want.key).link, want.key)
    ensures h.next[prev] == Look(h, prev, want.key).link
  {
    if h.next[prev].Some? { assert Real(h, h.next[prev].value); }
    forall f | Holds(h, f, want.key) ensures false {
      Absent(h, prev, want.bucket, want.key, f);
    }
  }

  // A search goes on along the list of its bucket.
  lemma LookWalks(h: Heap, prev: Ref, want: Want)
    requires Lists(h) && Homes(h) && Walks(h, prev, want)
    ensures Look(h, prev, want.key).Further? ==> Walks(h, Look(h, prev, want.key).target, want)
    ensures Look(h, prev, want.key).Found? ==> Holds(h, Look(h, prev, want.key).target, want.key)
  {
    if h.next[prev].Some? { assert Real(h, h.next[prev].value); }
  }

  lemma BeginOk(h: Heap, val: seq<Ptr>, call: Call)
    requires Wf(h)
    ensures Local(h, val, Begin(h, call))
  {
  }

  // What the look of an insertion leaves: lists in order, and nothing linked.
  ghost predicate Looked(s: State, s': State, t: Tid) {
    && Local(s'.h, s'.val, s'.At(t))
    && Lists(s'.h) && Homes(s'.h) && |s'.val| == |s'.h.key|
    && s'.h.linked == s.h.linked && |s.val| <= |s'.val| && s'.val[..|s.val|] == s.val
  }

  lemma LookMissing(s: State, t: Tid, c: Choice)
    requires Lists(s.h) && Homes(s.h) && |s.val| == |s.h.key|
    requires s.At(t).InsAt? && Local(s.h, s.val, s.At(t))
    requires Look(s.h, s.At(t).prev, s.At(t).ins.want.key).Missing?
    ensures Looked(s, Step(s, t, c), t)
  {
    var ins := s.At(t).ins;
    MissingMeansAbsent(s.h, s.At(t).prev, ins.want);
    AllocLists(s.h, ins.want.bucket, ins.want.key);
  }

  lemma LookFound(s: State, t: Tid, c: Choice)
    requires Lists(s.h) && Homes(s.h) && |s.val| == |s.h.key|
    requires s.At(t).InsAt? && Local(s.h, s.val, s.At(t))
    requires !Look(s.h, s.At(t).prev, s.At(t).ins.want.key).Missing?
    ensures Looked(s, Step(s, t, c), t)
  {
    LookWalks(s.h, s.At(t).prev, s.At(t).ins.want);
    if Look(s.h, s.At(t).prev, s.At(t).ins.want.key).Found? { assert Known(s.h, s.At(t).ins.want.key); }
  }

  lemma InsertLookOk(s: State, t: Tid, c: Choice)
    requires Lists(s.h) && Homes(s.h) && |s.val| == |s.h.key|
    requires s.At(t).InsAt? && Local(s.h, s.val, s.At(t))
    ensures Looked(s, Step(s, t, c), t)
  {
    if Look(s.h, s.At(t).prev, s.At(t).ins.want.key).Missing? { LookMissing(s, t, c); } else { LookFound(s, t, c); }
  }

  lemma StoreStepOk(s: State, t: Tid, c: Choice)
    requires Lists(s.h) && Homes(s.h) && |s.val| == |s.h.key|
    requires s.At(t).InsStore? && Local(s.h, s.val, s.At(t))
    ensures var s' := Step(s, t, c);
            && Local(s'.h, s'.val, s'.At(t)) && Lists(s'.h) && Homes(s'.h)
            && s'.h == Store(s.h, s.At(t).ins.entry.value, s.At(t).link) && s'.val == s.val
  {
    StoreLists(s.h, s.At(t).ins.entry.value, s.At(t).link);
  }

  lemma LinkFits(h: Heap, val: seq<Ptr>, pc: Pc)
    requires Lists(h) && Homes(h) && pc.InsLink? && Local(h, val, pc)
    requires pc.prev < |h.next| && h.next[pc.prev] == pc.link
    ensures Fits(h, pc.prev, pc.ins.entry.value)
    ensures Lists(Link(h, pc.prev, pc.ins.entry.value))
    ensures Homes(Link(h, pc.prev, pc.ins.entry.value))
    ensures !Known(h, pc.ins.want.key)
  {
    var e := pc.ins.entry.value;
    forall f: nat | Real(h, f) && h.key[f] == h.key[e] ensures h.home[f] == h.home[e] {
    }
    LinkLists(h, pc.prev, e);
  }

  lemma LinkAgrees(h: Heap, val: seq<Ptr>, p: Ref, e: Ref, abs: map<Key, Value>)
    requires Agrees(h, val, abs) && Wf(h) && p < |h.next| && h.buckets <= e < |h.key|
    requires !Known(h, h.key[e])
    ensures Agrees(Link(h, p, e), val, abs[h.key[e] := val[e].value])
  {
    var h' := Link(h, p, e);
    forall f: nat | Real(h', f) && f != e ensures Real(h, f) && h.key[f] != h.key[e] {
      assert Holds(h, f, h.key[f]);
    }
    forall k | k in abs[h.key[e] := val[e].value] ensures Known(h', k) {
      if k == h.key[e] {
        assert Holds(h', e, k);
      } else {
        var f :| Holds(h, f, k);
        assert Holds(h', f, k);
      }
    }
  }

  lemma SwapAgrees(h: Heap, val: seq<Ptr>, e: Ref, ptr: Ptr, abs: map<Key, Value>)
    requires Agrees(h, val, abs) && Unique(h) && Real(h, e)
    ensures Agrees(h, val[e := ptr], abs[h.key[e] := ptr.value])
  {
    assert Holds(h, e, h.key[e]);
  }

  lemma GrowAgrees(h: Heap, val: seq<Ptr>, h': Heap, val': seq<Ptr>, abs: map<Key, Value>)
    requires Agrees(h, val, abs) && Grows(h, h') && h'.linked == h.linked && |val'| == |h'.key|
    requires forall e :: e in h.linked ==> e < |val| == |h.key|
    requires |val| <= |val'| && val'[..|val|] == val
    ensures Agrees(h', val', abs)
  {
    forall k | k in abs ensures Known(h', k) {
      var f :| Holds(h, f, k);
      assert Holds(h', f, k);
    }
    forall e: nat | Real(h', e) ensures h'.key[e] in abs && abs[h'.key[e]] == val'[e].value {
      assert Real(h, e) && val'[e] == val'[..|val|][e];
    }
  }

  lemma ReplayPush(sets: seq<(Key, Value)>, k: Key, v: Value)
    ensures Replay(sets + [(k, v)]) == Replay(sets)[k := v]
  {
    assert (sets + [(k, v)])[..|sets|] == sets;
  }

  ghost predicate Ready(s: State, t: Tid) {
    && Lists(s.h) && Homes(s.h) && Agrees(s.h, s.val, Map(s))
    && (t in s.threads ==> Local(s.h, s.val, s.threads[t]))
  }

  // The step of `t` alone: its own place, the lists and the map.
  ghost predicate StepOk(s: State, s': State, t: Tid) {
    && Lists(s'.h) && Homes(s'.h) && Agrees(s'.h, s'.val, Map(s'))
    && Local(s'.h, s'.val, s'.At(t))
  }

  lemma InsertStepOk(s: State, t: Tid, c: Choice)
    requires Ready(s, t) && (s.At(t).InsAt? || s.At(t).InsStore?)
    ensures StepOk(s, Step(s, t, c), t) && Map(Step(s, t, c)) == Map(s)
  {
    var s' := Step(s, t, c);
    assert Agrees(s'.h, s'.val, Map(s)) by {
      if s.At(t).InsAt? { InsertLookOk(s, t, c); } else { StoreStepOk(s, t, c); }
      StepGrows(s, t, c);
      GrowAgrees(s.h, s.val, s'.h, s'.val, Map(s));
    }
    if s.At(t).InsAt? { InsertLookOk(s, t, c); } else { StoreStepOk(s, t, c); }
    assert s'.sets == s.sets;
  }

  // What the store an insertion is about to make would leave in the map.
  function Settled(s: State, ins: Ins): Value {
    if ins.made.Some? then ins.made.value.value else Value(ins.v)
  }

  ghost predicate SettledOk(s: State, s': State, t: Tid) {
    && StepOk(s, s', t)
    && Inserting(s.At(t))
    && Map(s') == if s'.At(t) == Idle(Stored) then Map(s)[s.At(t).ins.want.key := Settled(s, s.At(t).ins)]
                  else Map(s)
  }

  lemma LinkStepOk(s: State, t: Tid, c: Choice)
    requires Ready(s, t) && s.At(t).InsLink?
    ensures SettledOk(s, Step(s, t, c), t)
  {
    var pc := s.At(t);
    if Step(s, t, c).At(t) == Idle(Stored) {
      ReplayPush(s.sets, pc.ins.want.key, Settled(s, pc.ins));
      LinkFits(s.h, s.val, pc);
      LinkAgrees(s.h, s.val, pc.prev, pc.ins.entry.value, Map(s));
    }
  }

  lemma SwapStepOk(s: State, t: Tid, c: Choice)
    requires Ready(s, t) && s.At(t).InsSwap?
    ensures SettledOk(s, Step(s, t, c), t)
  {
    var pc := s.At(t);
    if Step(s, t, c).At(t) == Idle(Stored) {
      ReplayPush(s.sets, pc.ins.want.key, Settled(s, pc.ins));
      SwapAgrees(s.h, s.val, pc.target, pc.ins.made.value, Map(s));
    }
  }

  lemma CasStepOk(s: State, t: Tid, c: Choice)
    requires Ready(s, t) && (s.At(t).InsLink? || s.At(t).InsSwap?)
    ensures SettledOk(s, Step(s, t, c), t)
  {
    if s.At(t).InsLink? { LinkStepOk(s, t, c); } else { SwapStepOk(s, t, c); }
  }

  lemma ReadStepOk(s: State, t: Tid, c: Choice)
    requires Ready(s, t) && !s.At(t).InsAt? && !s.At(t).InsStore? && !s.At(t).InsLink? && !s.At(t).InsSwap?
    ensures StepOk(s, Step(s, t, c), t) && Map(Step(s, t, c)) == Map(s)
    ensures Step(s, t, c).h == s.h && Step(s, t, c).val == s.val
  {
    var pc := s.At(t);
    assert t in s.threads ==> Local(s.h, s.val, pc);
    if pc.Idle? { BeginOk(s.h, s.val, c.call); }
    if pc.HasAt? || pc.GetAt? { LookWalks(s.h, pc.prev, pc.want); }
  }

  lemma StepSelf(s: State, t: Tid, c: Choice)
    requires Ready(s, t)
    ensures StepOk(s, Step(s, t, c), t)
  {
    var pc := s.At(t);
    if pc.InsAt? || pc.InsStore? { InsertStepOk(s, t, c); }
    else if pc.InsLink? || pc.InsSwap? { CasStepOk(s, t, c); }
    else { ReadStepOk(s, t, c); }
  }

  lemma StepOwns(s: State, t: Tid, c: Choice, u: Tid, e: Ref)
    requires Owns(Step(s, t, c), u, e)
    ensures Owns(s, u, e) || (u == t && e == |s.h.key|)
  {
  }

  lemma StepLeaves(s: State, t: Tid, c: Choice, e: Ref)
    requires Wf(s.h) && e < |s.h.key| == |s.val| && s.h.buckets <= e && e !in s.h.linked && !Owns(s, t, e)
    requires t in s.threads ==> Local(s.h, s.val, s.threads[t])
    ensures Leaves(s, Step(s, t, c), e)
  {
    var pc := s.At(t);
    if Inserting(pc) && pc.ins.entry.Some? {
      assert Owns(s, t, pc.ins.entry.value);
      assert pc.ins.entry.value != e;
    }
  }

  lemma StepOthers(s: State, t: Tid, c: Choice, u: Tid)
    requires Wf(s.h) && |s.val| == |s.h.key| && Owners(s) && u != t && u in s.threads
    requires t in s.threads ==> Local(s.h, s.val, s.threads[t])
    requires Local(s.h, s.val, s.threads[u])
    requires var s' := Step(s, t, c); |s'.val| == |s'.h.key| == |s'.h.home|
    ensures Local(Step(s, t, c).h, Step(s, t, c).val, s.threads[u])
  {
    var pc := s.threads[u];
    StepGrows(s, t, c);
    if Inserting(pc) && pc.ins.entry.Some? {
      assert Owns(s, u, pc.ins.entry.value);
      StepLeaves(s, t, c, pc.ins.entry.value);
    }
    LocalGrows(s, Step(s, t, c), pc);
  }

  lemma StepOwners(s: State, t: Tid, c: Choice)
    requires Owners(s) && |s.val| == |s.h.key|
    requires Locals(s)
    ensures Owners(Step(s, t, c))
  {
    var s' := Step(s, t, c);
    forall u: nat, w: nat, e: nat | Owns(s', u, e) && Owns(s', w, e) ensures u == w {
      StepOwns(s, t, c, u, e);
      StepOwns(s, t, c, w, e);
      assert Owns(s, u, e) ==> Local(s.h, s.val, s.threads[u]);
      assert Owns(s, w, e) ==> Local(s.h, s.val, s.threads[w]);
    }
  }

  lemma StepLocals(s: State, t: Tid, c: Choice)
    requires Wf(s.h) && |s.val| == |s.h.key| && Owners(s) && Locals(s)
    requires var s' := Step(s, t, c);
             |s'.val| == |s'.h.key| == |s'.h.home| && Local(s'.h, s'.val, s'.At(t))
    ensures Locals(Step(s, t, c))
  {
    var s' := Step(s, t, c);
    forall u | u in s'.threads ensures Local(s'.h, s'.val, s'.threads[u]) {
      if u != t { StepOthers(s, t, c, u); }
    }
  }

  lemma StepInv(s: State, t: Tid, c: Choice)
    requires Inv(s)
    ensures Inv(Step(s, t, c)) && Grows(s.h, Step(s, t, c).h)
  {
    var s' := Step(s, t, c);
    assert StepOk(s, s', t) by { StepSelf(s, t, c); }
    StepOwners(s, t, c);
    StepLocals(s, t, c);
    StepGrows(s, t, c);
  }

  lemma {:induction false} RunInv(buckets: nat, schedule: seq<(Tid, Choice)>)
    requires buckets > 0
    ensures Inv(Exec(Init(buckets), schedule)) && Exec(Init(buckets), schedule).h.buckets == buckets
    decreases |schedule|
  {
    if schedule == [] {
      InitInv(buckets);
    } else {
      RunInv(buckets, schedule[..|schedule| - 1]);
      var (t, c) := schedule[|schedule| - 1];
      StepInv(Exec(Init(buckets), schedule[..|schedule| - 1]), t, c);
    }
  }

  // ---------------------------------------------------------------------
  // What a bucket's list holds

  // The entries of the list that come after `e`.
  ghost function Ahead(h: Heap, e: Ref): set<Ref>
    requires Wf(h) && e < |h.key|
  {
    set f | f in h.linked && Real(h, f) && Before(h, e, h.home[f], h.key[f])
  }

  lemma AheadShrinks(h: Heap, e: Ref)
    requires Lists(h) && e in h.linked && h.next[e].Some?
    ensures var n := h.next[e].value;
            && Real(h, n) && n !in Ahead(h, n) && n in Ahead(h, e)
            && Ahead(h, e) == Ahead(h, n) + {n}
            && |Ahead(h, n)| < |Ahead(h, e)|
  {
    var n := h.next[e].value;
    assert Before(h, e, h.home[n], h.key[n]);
    forall f | f in Ahead(h, e) ensures f in Ahead(h, n) + {n} {
      assert h.key[n] <= h.key[f];
    }
    forall f | f in Ahead(h, n) ensures f in Ahead(h, e) {
      assert Before(h, e, h.home[f], h.key[f]);
    }
    assert Ahead(h, e) == Ahead(h, n) + {n};
  }

  // The entries met by following `next` from `e`.
  ghost function Walk(h: Heap, e: Ref): seq<Ref>
    requires Lists(h) && e in h.linked
    decreases |Ahead(h, e)|
  {
    if h.next[e].None? then []
    else
      AheadShrinks(h, e);
      [h.next[e].value] + Walk(h, h.next[e].value)
  }

  lemma {:induction false} WalkMeetsAll(h: Heap, e: Ref, f: Ref)
    requires Lists(h) && e in h.linked
    ensures f in Walk(h, e) <==> f in Ahead(h, e)
    decreases |Ahead(h, e)|
  {
    if h.next[e].None? {
      assert f !in Ahead(h, e);
    } else {
      AheadShrinks(h, e);
      WalkMeetsAll(h, h.next[e].value, f);
    }
  }

  lemma WalkStep(h: Heap, e: Ref)
    requires Lists(h) && e in h.linked && h.next[e].Some?
    ensures var n := h.next[e].value;
            && Real(h, n) && Walk(h, e) == [n] + Walk(h, n)
            && |Ahead(h, n)| < |Ahead(h, e)|
  {
    AheadShrinks(h, e);
  }

  lemma WalkedLater(h: Heap, n: Ref, f: Ref)
    requires Lists(h) && Real(h, n) && f in Walk(h, n)
    ensures Real(h, f) && h.key[n] < h.key[f]
  {
    WalkMeetsAll(h, n, f);
  }

  ghost predicate KeysAscend(key: seq<Key>, list: seq<Ref>) {
    && (forall i :: 0 <= i < |list| ==> list[i] < |key|)
    && (forall i, j :: 0 <= i < j < |list| ==> key[list[i]] < key[list[j]])
  }

  lemma FirstAscends(key: seq<Key>, n: Ref, rest: seq<Ref>)
    requires KeysAscend(key, rest) && n < |key|
    requires forall i :: 0 <= i < |rest| ==> key[n] < key[rest[i]]
    ensures KeysAscend(key, [n] + rest)
  {
  }

  lemma {:induction false} WalkAscends(h: Heap, e: Ref)
    requires Lists(h) && e in h.linked
    ensures KeysAscend(h.key, Walk(h, e))
    decreases |Ahead(h, e)|
  {
    if h.next[e].Some? {
      var n := h.next[e].value;
      WalkStep(h, e);
      WalkAscends(h, n);
      var rest := Walk(h, n);
      forall i | 0 <= i < |rest| ensures h.key[n] < h.key[rest[i]] {
        assert rest[i] in rest;
        WalkedLater(h, n, rest[i]);
      }
      FirstAscends(h.key, n, rest);
    }
  }

  lemma BucketMembers(h: Heap, b: nat, f: Ref)
    requires Lists(h) && Homes(h) && b < h.buckets
    ensures f in Walk(h, b) <==> Real(h, f) && BucketOf(h.key[f], h.buckets) == b
  {
    WalkMeetsAll(h, b, f);
  }

  /** The list of bucket `b` is strictly ascending and holds the keys of `abs` that map
      to the bucket, each with its stored value. */
  ghost predicate BucketHolds(h: Heap, val: seq<Ptr>, abs: map<Key, Value>, b: nat)
    requires Lists(h) && Homes(h) && b < h.buckets
  {
    var list := Walk(h, b);
    && |val| == |h.key| && KeysAscend(h.key, list)
    && (forall i :: 0 <= i < |list| ==>
          && BucketOf(h.key[list[i]], h.buckets) == b
          && h.key[list[i]] in abs && abs[h.key[list[i]]] == val[list[i]].value)
    && (forall k :: k in abs && BucketOf(k, h.buckets) == b ==> exists i :: 0 <= i < |list| && h.key[list[i]] == k)
  }

  lemma KeyIsListed(h: Heap, val: seq<Ptr>, abs: map<Key, Value>, b: nat, k: Key)
    requires Lists(h) && Homes(h) && b < h.buckets && Agrees(h, val, abs)
    requires k in abs && BucketOf(k, h.buckets) == b
    ensures exists i :: 0 <= i < |Walk(h, b)| && Walk(h, b)[i] < |h.key| && h.key[Walk(h, b)[i]] == k
  {
    var e :| Holds(h, e, k);
    BucketMembers(h, b, e);
    var i :| 0 <= i < |Walk(h, b)| && Walk(h, b)[i] == e;
  }

  lemma ListIsBucket(h: Heap, val: seq<Ptr>, abs: map<Key, Value>, b: nat)
    requires Lists(h) && Homes(h) && b < h.buckets && Agrees(h, val, abs)
    ensures BucketHolds(h, val, abs, b)
  {
    var list := Walk(h, b);
    forall i | 0 <= i < |list| ensures Real(h, list[i]) && BucketOf(h.key[list[i]], h.buckets) == b {
      assert list[i] in list;
      BucketMembers(h, b, list[i]);
    }
    WalkAscends(h, b);
    forall k | k in abs && BucketOf(k, h.buckets) == b
      ensures exists i :: 0 <= i < |list| && h.key[list[i]] == k
    {
      KeyIsListed(h, val, abs, b, k);
    }
  }

  /** In every interleaving, the list of each bucket holds its part of the map, in order. */
  lemma BucketHoldsItsKeys(buckets: nat, schedule: seq<(Tid, Choice)>, b: nat)
    requires b < buckets
    ensures var s := Exec(Init(buckets), schedule);
            Lists(s.h) && Homes(s.h) && s.h.buckets == buckets && BucketHolds(s.h, s.val, Map(s), b)
  {
    RunInv(buckets, schedule);
    var s := Exec(Init(buckets), schedule);
    ListIsBucket(s.h, s.val, Map(s), b);
  }

  // ---------------------------------------------------------------------
  // What the calls promise

  /** `Has` answers what was true of the map at the step that answers. */
  lemma HasIsTrue(s: State, t: Tid, c: Choice)
    requires Inv(s) && s.At(t).HasAt?
    ensures Map(Step(s, t, c)) == Map(s)
    ensures if Step(s, t, c).At(t).Idle?
            then Step(s, t, c).At(t) == Idle(Present(s.At(t).want.key in Map(s)))
            else Step(s, t, c).At(t).HasAt? && Step(s, t, c).At(t).want == s.At(t).want
  {
    var pc := s.At(t);
    assert Local(s.h, s.val, pc);
    LookWalks(s.h, pc.prev, pc.want);
    if Look(s.h, pc.prev, pc.want.key).Missing? { MissingMeansAbsent(s.h, pc.prev, pc.want); }
  }

  /** `Get` answers what the map held at the step that answers. */
  lemma GetIsTrue(s: State, t: Tid, c: Choice)
    requires Inv(s) && (s.At(t).GetAt? || s.At(t).GetValue?)
    ensures Map(Step(s, t, c)) == Map(s)
    ensures var k := s.At(t).want.key;
            if Step(s, t, c).At(t).Idle?
            then Step(s, t, c).At(t) == Idle(Got(if k in Map(s) then Some(Map(s)[k]) else None))
            else (Step(s, t, c).At(t).GetAt? || (Step(s, t, c).At(t).GetValue? && k in Map(s)))
                 && Step(s, t, c).At(t).want == s.At(t).want
  {
    var pc := s.At(t);
    assert Local(s.h, s.val, pc);
    if pc.GetAt? {
      LookWalks(s.h, pc.prev, pc.want);
      if Look(s.h, pc.prev, pc.want.key).Missing? { MissingMeansAbsent(s.h, pc.prev, pc.want); }
    }
  }

  lemma CasStores(s: State, t: Tid, c: Choice)
    requires Ready(s, t) && (s.At(t).InsLink? || s.At(t).InsSwap?)
    ensures Step(s, t, c).At(t) == Idle(Stored) ==> (s.At(t).InsLink? <==> s.At(t).ins.want.key !in Map(s))
    ensures Step(s, t, c).At(t) == Idle(Stored) || Step(s, t, c) == s.Goto(t, InsAt(s.At(t).ins, s.At(t).ins.want.bucket))
    ensures Settled(s, s.At(t).ins) == Value(s.At(t).ins.v)
  {
    var pc := s.At(t);
    if pc.InsLink? {
      if Step(s, t, c).At(t) == Idle(Stored) { LinkFits(s.h, s.val, pc); }
    } else {
      assert Real(s.h, pc.target);
    }
  }

  // An insertion goes on with what it was called for, and with what it has made.
  predicate SameCall(ins: Ins, ins': Ins) {
    && ins'.want == ins.want && ins'.v == ins.v && ins'.byMove == ins.byMove
    && (ins.entry.Some? ==> ins'.entry == ins.entry) && (ins.made.Some? ==> ins'.made == ins.made)
  }

  lemma PreparesOnly(s: State, t: Tid, c: Choice)
    requires s.At(t).InsAt? || s.At(t).InsStore? || s.At(t).InsLoad?
    ensures Inserting(Step(s, t, c).At(t)) && Map(Step(s, t, c)) == Map(s)
    ensures SameCall(s.At(t).ins, Step(s, t, c).At(t).ins)
    ensures s.At(t).ins.entry.Some? ==> Step(s, t, c).h.key == s.h.key
  {
    assert Step(s, t, c).sets == s.sets;
  }

  /** A `Set` changes the map in the step that ends it and in no other, by a link if
      the key is new and by a swap of the value if it is not. What it stores is the
      value it was given, by copy or by move, however often it had to start again. It
      starts again, from the head of its bucket, exactly when what its compare-and-swap
      is for has changed, and makes at most one entry and one value all the while. */
  lemma SetStores(s: State, t: Tid, c: Choice)
    requires Inv(s) && Inserting(s.At(t))
    ensures var s', ins := Step(s, t, c), s.At(t).ins;
            && (s'.At(t) == Idle(Stored) || (Inserting(s'.At(t)) && Map(s') == Map(s)))
            && (s'.At(t) == Idle(Stored) ==>
                  && (s.At(t).InsLink? || s.At(t).InsSwap?)
                  && (s.At(t).InsLink? <==> ins.want.key !in Map(s))
                  && Map(s') == Map(s)[ins.want.key := Value(ins.v)])
            && (Inserting(s'.At(t)) ==> SameCall(ins, s'.At(t).ins))
            && (ins.entry.Some? ==> s'.h.key == s.h.key)
    ensures var s', pc := Step(s, t, c), s.At(t);
            && (pc.InsLink? && s'.At(t) != Idle(Stored) ==>
                  s.h.next[pc.prev] != pc.link && s' == s.Goto(t, InsAt(pc.ins, pc.ins.want.bucket)))
            && (pc.InsSwap? ==> pc.target < |s.val|)
            && (pc.InsSwap? ==> (s'.At(t) == Idle(Stored) <==> s.val[pc.target].address == pc.address))
            && (pc.InsSwap? && s'.At(t) != Idle(Stored) ==> s' == s.Goto(t, InsAt(pc.ins, pc.ins.want.bucket)))
  {
    assert Ready(s, t);
    assert Local(s.h, s.val, s.At(t));
    if s.At(t).InsLink? || s.At(t).InsSwap? {
      CasStepOk(s, t, c);
      CasStores(s, t, c);
    } else {
      PreparesOnly(s, t, c);
    }
  }

  // Nothing but an insertion that ends changes the map.
  lemma OnlySetsStore(s: State, t: Tid, c: Choice)
    requires Inv(s) && !Inserting(s.At(t))
    ensures Map(Step(s, t, c)) == Map(s) && Step(s, t, c).val == s.val
  {
    ReadStepOk(s, t, c);
  }

  lemma StepKeys(s: State, t: Tid, c: Choice)
    requires Inv(s)
    ensures Map(s).Keys <= Map(Step(s, t, c)).Keys
  {
    if Inserting(s.At(t)) { SetStores(s, t, c); } else { OnlySetsStore(s, t, c); }
  }

  /** No key is ever lost. */
  lemma {:induction false} KeysStay(s: State, schedule: seq<(Tid, Choice)>)
    requires Inv(s)
    ensures Inv(Exec(s, schedule)) && Map(s).Keys <= Map(Exec(s, schedule)).Keys
    decreases |schedule|
  {
    if schedule != [] {
      var last := |schedule| - 1;
      KeysStay(s, schedule[..last]);
      StepInv(Exec(s, schedule[..last]), schedule[last].0, schedule[last].1);
      StepKeys(Exec(s, schedule[..last]), schedule[last].0, schedule[last].1);
    }
  }

  /** No value that has been moved out of is ever in the map. */
  lemma {:induction false} NothingMovedFrom(s: State, schedule: seq<(Tid, Choice)>, k: Key)
    requires Inv(s) && forall j :: j in Map(s) ==> Map(s)[j] != MovedFrom
    ensures Inv(Exec(s, schedule))
    ensures k in Map(Exec(s, schedule)) ==> Map(Exec(s, schedule))[k] != MovedFrom
    decreases |schedule|
  {
    if schedule != [] {
      var last := |schedule| - 1;
      NothingMovedFrom(s, schedule[..last], k);
      var before := Exec(s, schedule[..last]);
      var (t, c) := schedule[last];
      StepInv(before, t, c);
      if Inserting(before.At(t)) { SetStores(before, t, c); } else { OnlySetsStore(before, t, c); }
    }
  }

  // ---------------------------------------------------------------------
  // Calls that run alone

  // `t` is inside an insertion in every state of the run but the last.
  ghost predicate Busy(s: State, t: Tid, schedule: seq<(Tid, Choice)>)
    decreases |schedule|
  {
    schedule == [] ||
    (Busy(s, t, schedule[..|schedule| - 1]) && Inserting(Exec(s, schedule[..|schedule| - 1]).At(t)))
  }

  ghost predicate OnlyBy(schedule: seq<(Tid, Choice)>, t: Tid) {
    forall i :: 0 <= i < |schedule| ==> schedule[i].0 == t
  }

  // The rest of one insertion of `t`, with nobody in between, can take `s` to `s'`.
  ghost predicate Leads(s: State, t: Tid, s': State) {
    exists schedule :: Busy(s, t, schedule) && OnlyBy(schedule, t) && Exec(s, schedule) == s'
  }

  lemma BusyLast(s: State, t: Tid, schedule: seq<(Tid, Choice)>)
    requires Busy(s, t, schedule) && schedule != []
    ensures var last := |schedule| - 1;
            && Busy(s, t, schedule[..last]) && Inserting(Exec(s, schedule[..last]).At(t))
            && Exec(s, schedule) == Step(Exec(s, schedule[..last]), schedule[last].0, schedule[last].1)
  {
  }

  lemma BusySnoc(s: State, t: Tid, a: seq<(Tid, Choice)>, u: Tid, c: Choice)
    requires Busy(s, t, a) && Inserting(Exec(s, a).At(t))
    ensures Busy(s, t, a + [(u, c)]) && Exec(s, a + [(u, c)]) == Step(Exec(s, a), u, c)
  {
    assert (a + [(u, c)])[..|a|] == a;
  }

  lemma Same(s: State, t: Tid)
    ensures Leads(s, t, s)
  {
    assert Busy(s, t, []) && OnlyBy([], t) && Exec(s, []) == s;
  }

  lemma StepElsewhere(s: State, t: Tid, u: Tid, c: Choice)
    requires u != t
    ensures Step(s, u, c).At(t) == s.At(t)
  {
  }

  // One more step of `t` in its insertion.
  lemma Onward(s: State, t: Tid, m: State, c: Choice)
    requires Inv(m) && Leads(s, t, m) && Inserting(m.At(t))
    ensures Inv(Step(m, t, c)) && Leads(s, t, Step(m, t, c))
  {
    var schedule :| Busy(s, t, schedule) && OnlyBy(schedule, t) && Exec(s, schedule) == m;
    BusySnoc(s, t, schedule, t, c);
    assert OnlyBy(schedule + [(t, c)], t);
    StepInv(m, t, c);
  }

  lemma GotoGoto(s: State, u: Tid, a: Pc, b: Pc)
    ensures s.Goto(u, a).Goto(u, b) == s.Goto(u, b)
  {
    assert s.threads[u := a][u := b] == s.threads[u := b];
  }

  lemma FurtherGoto(s: State, u: Tid, c: Choice)
    requires s.At(u).InsAt? && Look(s.h, s.At(u).prev, s.At(u).ins.want.key).Further?
    ensures var e := s.At(u).prev;
            && e < |s.h.next| && s.h.next[e].Some?
            && Step(s, u, c) == s.Goto(u, InsAt(s.At(u).ins, s.h.next[e].value))
  {
  }

  lemma PlaceOk(s: State, u: Tid)
    requires Inv(s) && s.At(u).InsAt?
    ensures Lists(s.h) && Walks(s.h, s.At(u).prev, s.At(u).ins.want)
  {
    assert Local(s.h, s.val, s.At(u));
  }

  lemma FurtherStep(s: State, u: Tid, c: Choice)
    requires Inv(s) && s.At(u).InsAt? && Look(s.h, s.At(u).prev, s.At(u).ins.want.key).Further?
    ensures var m, e := Step(s, u, c), s.At(u).prev;
            && Inv(m) && e < |s.h.next| && s.h.next[e].Some?
            && m == s.Goto(u, InsAt(s.At(u).ins, s.h.next[e].value))
            && s.h.next[e].value < |s.h.key| && |Ahead(s.h, s.h.next[e].value)| < |Ahead(s.h, e)|
  {
    FurtherGoto(s, u, c);
    PlaceOk(s, u);
    AheadShrinks(s.h, s.At(u).prev);
    StepInv(s, u, c);
  }

  // An insertion finds the place of its key.
  lemma {:induction false} SearchAlone(s0: State, s: State, u: Tid, c: Choice) returns (prev: Ref)
    requires Inv(s) && s.At(u).InsAt? && Leads(s0, u, s)
    ensures var s' := s.Goto(u, InsAt(s.At(u).ins, prev));
            Inv(s') && Leads(s0, u, s') && !Look(s.h, prev, s.At(u).ins.want.key).Further?
    decreases if s.At(u).prev < |s.h.key| then |Ahead(s.h, s.At(u).prev)| else 0
  {
    var pc := s.At(u);
    if Look(s.h, pc.prev, pc.ins.want.key).Further? {
      var m := Step(s, u, c);
      FurtherStep(s, u, c);
      Onward(s0, u, s, c);
      prev := SearchAlone(s0, m, u, c);
      GotoGoto(s, u, m.At(u), InsAt(pc.ins, prev));
    } else {
      prev := pc.prev;
      assert s.threads[u := pc] == s.threads;
    }
  }

  lemma KnownMeansMapped(s: State, k: Key)
    requires Agrees(s.h, s.val, Map(s))
    ensures Known(s.h, k) <==> k in Map(s)
  {
    if Known(s.h, k) {
      var e :| Holds(s.h, e, k);
      assert Real(s.h, e);
    }
  }

  lemma FoundSteps(s: State, u: Tid, c: Choice)
    requires Ready(s, u) && s.At(u).InsAt? && Look(s.h, s.At(u).prev, s.At(u).ins.want.key).Found?
    ensures var m, ins := Step(Step(s, u, c), u, c), s.At(u).ins;
            && Inserting(Step(s, u, c).At(u)) && m.At(u).InsSwap? && Map(m) == Map(s)
            && m.At(u).ins == WithMade(ins, c.address) && ins.want.key in Map(s)
            && Step(m, u, c).At(u) == Idle(Stored)
  {
    var target := Look(s.h, s.At(u).prev, s.At(u).ins.want.key).target;
    LookWalks(s.h, s.At(u).prev, s.At(u).ins.want);
    assert Real(s.h, target);
    var m := Step(s, u, c);
    assert m == s.Goto(u, InsLoad(WithMade(s.At(u).ins, c.address), target));
    var m' := Step(m, u, c);
    assert m' == m.Goto(u, InsSwap(WithMade(s.At(u).ins, c.address), target, s.val[target].address));
  }

  lemma EntryMade(s: State, u: Tid, c: Choice)
    requires Ready(s, u) && s.At(u).InsAt? && Look(s.h, s.At(u).prev, s.At(u).ins.want.key).Missing?
    ensures var m, ins, prev := Step(s, u, c), s.At(u).ins, s.At(u).prev;
            && m.At(u).InsStore? && m.At(u).prev == prev && m.sets == s.sets && ins.want.key !in Map(s)
            && m.At(u).ins.want == ins.want && m.At(u).ins.v == ins.v
            && m.At(u).ins.entry.Some? && m.At(u).ins.entry.value < |m.h.next| == |m.val|
            && m.At(u).ins.entry.value != prev && prev < |m.h.next| && m.h.next[prev] == m.At(u).link
  {
    var ins, prev := s.At(u).ins, s.At(u).prev;
    MissingMeansAbsent(s.h, prev, ins.want);
    KnownMeansMapped(s, ins.want.key);
  }

  // A link that is still the one the search saw succeeds.
  lemma LinkSteps(m: State, u: Tid, c: Choice)
    requires m.At(u).InsStore? && m.At(u).ins.entry.Some? && m.At(u).ins.entry.value < |m.h.next| == |m.val|
    requires var prev := m.At(u).prev;
             m.At(u).ins.entry.value != prev && prev < |m.h.next| && m.h.next[prev] == m.At(u).link
    ensures var m' := Step(m, u, c);
            && m'.At(u) == InsLink(m.At(u).ins, m.At(u).prev, m.At(u).link) && m'.sets == m.sets
            && Step(m', u, c).At(u) == Idle(Stored)
  {
    var e, link := m.At(u).ins.entry.value, m.At(u).link;
    assert Step(m, u, c) == m.(h := Store(m.h, e, link)).Goto(u, InsLink(m.At(u).ins, m.At(u).prev, link));
  }

  lemma MissingSteps(s: State, u: Tid, c: Choice)
    requires Ready(s, u) && s.At(u).InsAt? && Look(s.h, s.At(u).prev, s.At(u).ins.want.key).Missing?
    ensures var m, ins := Step(Step(s, u, c), u, c), s.At(u).ins;
            && Inserting(Step(s, u, c).At(u)) && m.At(u).InsLink? && Map(m) == Map(s)
            && m.At(u).ins.want == ins.want && m.At(u).ins.v == ins.v && ins.want.key !in Map(s)
            && Step(m, u, c).At(u) == Idle(Stored)
  {
    EntryMade(s, u, c);
    LinkSteps(Step(s, u, c), u, c);
  }

  // An insertion that nobody interrupts ends, and stores what it should.
  lemma FinishAlone(s0: State, s: State, u: Tid, c: Choice) returns (s': State)
    requires Inv(s) && s.At(u).InsAt? && Leads(s0, u, s)
    requires !Look(s.h, s.At(u).prev, s.At(u).ins.want.key).Further?
    ensures Inv(s') && Leads(s0, u, s') && s'.At(u) == Idle(Stored)
    ensures Map(s') == Map(s)[s.At(u).ins.want.key := Value(s.At(u).ins.v)]
  {
    var ins := s.At(u).ins;
    var m1 := Step(s, u, c);
    var m2 := Step(m1, u, c);
    s' := Step(m2, u, c);
    assert Ready(s, u) && Local(s.h, s.val, s.At(u));
    if Look(s.h, s.At(u).prev, ins.want.key).Found? { FoundSteps(s, u, c); } else { MissingSteps(s, u, c); }
    Onward(s0, u, s, c);
    Onward(s0, u, m1, c);
    Onward(s0, u, m2, c);
    SetStores(m2, u, c);
    assert Local(m2.h, m2.val, m2.At(u));
  }

  lemma InsertAlone(s0: State, s: State, u: Tid, c: Choice) returns (s': State)
    requires Inv(s) && s.At(u).InsAt? && Leads(s0, u, s)
    ensures Inv(s') && Leads(s0, u, s') && s'.At(u) == Idle(Stored)
    ensures Map(s') == Map(s)[s.At(u).ins.want.key := Value(s.At(u).ins.v)]
  {
    var prev := SearchAlone(s0, s, u, c);
    s' := FinishAlone(s0, s.Goto(u, InsAt(s.At(u).ins, prev)), u, c);
  }

  /** Wherever an insertion stands, and however stale what it has loaded, left alone it
      ends, and stores what it should. */
  lemma {:induction false} InsertFinishes(s0: State, s: State, t: Tid, c: Choice) returns (s': State)
    requires Inv(s) && Inserting(s.At(t)) && Leads(s0, t, s)
    ensures Leads(s0, t, s') && s'.At(t) == Idle(Stored)
    ensures Map(s') == Map(s)[s.At(t).ins.want.key := Value(s.At(t).ins.v)]
    decreases if s.At(t).InsStore? || s.At(t).InsLoad? then 1 else 0
  {
    if s.At(t).InsAt? {
      s' := InsertAlone(s0, s, t, c);
    } else {
      var m := Step(s, t, c);
      SetStores(s, t, c);
      Onward(s0, t, s, c);
      if m.At(t) == Idle(Stored) {
        s' := m;
      } else if m.At(t).InsAt? {
        s' := InsertAlone(s0, m, t, c);
      } else {
        s' := InsertFinishes(s0, m, t, c);
      }
    }
  }

  /** A `Set` that is left alone ends, and then the map has exactly its value at its key. */
  lemma SetAlone(s: State, t: Tid, k: Key, v: int, byMove: bool) returns (s': State)
    requires Inv(s) && s.At(t).Idle?
    ensures Begun(Step(s, t, Choice(CallSet(k, v, byMove), 0)), t, k, v, byMove)
    ensures Leads(Step(s, t, Choice(CallSet(k, v, byMove), 0)), t, s')
    ensures s'.At(t) == Idle(Stored) && Map(s') == Map(s)[k := Value(v)]
  {
    var c := Choice(CallSet(k, v, byMove), 0);
    var m := Step(s, t, c);
    StepInv(s, t, c);
    Same(m, t);
    s' := InsertAlone(m, m, t, c);
  }

  // ---------------------------------------------------------------------
  // Lookups that run alone

  predicate Searching(pc: Pc) {
    pc.HasAt? || pc.GetAt?
  }

  lemma SearchGoto(s: State, t: Tid, c: Choice)
    requires Searching(s.At(t)) && Look(s.h, s.At(t).prev, s.At(t).want.key).Further?
    ensures var m, pc := Step(s, t, c), s.At(t);
            && m.h == s.h && m.sets == s.sets && pc.prev < |s.h.next| && s.h.next[pc.prev].Some?
            && Searching(m.At(t)) && m.At(t).HasAt? == pc.HasAt? && m.At(t).want == pc.want
            && m.At(t).prev == s.h.next[pc.prev].value
  {
  }

  lemma SearchPlaceOk(s: State, t: Tid)
    requires Inv(s) && Searching(s.At(t))
    ensures Lists(s.h) && Walks(s.h, s.At(t).prev, s.At(t).want)
  {
    assert Local(s.h, s.val, s.At(t));
  }

  // A lookup that has not found its place goes on behind the next entry.
  lemma SearchOn(s: State, t: Tid, c: Choice)
    requires Inv(s) && Searching(s.At(t)) && Look(s.h, s.At(t).prev, s.At(t).want.key).Further?
    ensures var m, pc := Step(s, t, c), s.At(t);
            && Inv(m) && m.h == s.h && Map(m) == Map(s) && pc.prev < |s.h.key|
            && Searching(m.At(t)) && m.At(t).HasAt? == pc.HasAt? && m.At(t).want == pc.want
            && m.At(t).prev < |s.h.key| && |Ahead(s.h, m.At(t).prev)| < |Ahead(s.h, pc.prev)|
  {
    SearchGoto(s, t, c);
    SearchPlaceOk(s, t);
    AheadShrinks(s.h, s.At(t).prev);
    StepInv(s, t, c);
  }

  // What a lookup answers when the map does not change under it.
  function LookupAnswer(m: map<Key, Value>, k: Key, has: bool): Answer {
    if has then Present(k in m) else Got(if k in m then Some(m[k]) else None)
  }

  lemma {:induction false} LookupEnds(s0: State, moves: seq<(Tid, Choice)>, s: State, t: Tid, c: Choice)
    returns (more: seq<(Tid, Choice)>)
    requires Inv(s) && Searching(s.At(t)) && Exec(s0, moves) == s
    ensures Map(Exec(s0, more)) == Map(s)
    ensures Exec(s0, more).At(t) == Idle(LookupAnswer(Map(s), s.At(t).want.key, s.At(t).HasAt?))
    decreases if s.At(t).prev < |s.h.key| then |Ahead(s.h, s.At(t).prev)| else 0
  {
    var m := Step(s, t, c);
    more := moves + [(t, c)];
    assert more[..|moves|] == moves;
    if Look(s.h, s.At(t).prev, s.At(t).want.key).Further? {
      SearchOn(s, t, c);
      more := LookupEnds(s0, more, m, t, c);
    } else if s.At(t).HasAt? {
      HasIsTrue(s, t, c);
    } else {
      GetIsTrue(s, t, c);
      if m.At(t).GetValue? {
        StepInv(s, t, c);
        GetIsTrue(m, t, c);
        var last := more;
        more := last + [(t, c)];
        assert more[..|last|] == last;
      }
    }
  }

  /** A `Has` or a `Get` that nobody interrupts ends, and answers what the map holds. */
  lemma LookupAlone(s: State, t: Tid, k: Key, has: bool) returns (schedule: seq<(Tid, Choice)>)
    requires Inv(s) && s.At(t).Idle?
    ensures var c := Choice(if has then CallHas(k) else CallGet(k), 0);
            && Map(Exec(Step(s, t, c), schedule)) == Map(s)
            && Exec(Step(s, t, c), schedule).At(t) == Idle(LookupAnswer(Map(s), k, has))
  {
    var c := Choice(if has then CallHas(k) else CallGet(k), 0);
    StepInv(s, t, c);
    OnlySetsStore(s, t, c);
    schedule := LookupEnds(Step(s, t, c), [], Step(s, t, c), t, c);
  }

  // ---------------------------------------------------------------------
  // What a whole `Set` stores, whoever else runs

  // Thread `t` has just begun to store `v` at `k`.
  predicate Begun(s: State, t: Tid, k: Key, v: int, byMove: bool) {
    s.At(t) == InsAt(Ins(WantOf(s.h, k), v, byMove, None, None), WantOf(s.h, k).bucket)
  }

  predicate Keeps(s: State, t: Tid, k: Key, v: int) {
    Inserting(s.At(t)) && s.At(t).ins.want.key == k && s.At(t).ins.v == v
  }

  lemma KeepsStep(s: State, t: Tid, k: Key, v: int, u: Tid, c: Choice)
    requires Keeps(s, t, k, v) && Inserting(Step(s, u, c).At(t))
    ensures Keeps(Step(s, u, c), t, k, v)
  {
    if u != t { StepElsewhere(s, t, u, c); }
  }

  lemma {:induction false} KeepsRun(s: State, t: Tid, k: Key, v: int, schedule: seq<(Tid, Choice)>)
    requires Inv(s) && Keeps(s, t, k, v) && Busy(s, t, schedule) && Inserting(Exec(s, schedule).At(t))
    ensures Inv(Exec(s, schedule)) && Keeps(Exec(s, schedule), t, k, v)
    decreases |schedule|
  {
    if schedule != [] {
      var last := |schedule| - 1;
      KeepsRun(s, t, k, v, schedule[..last]);
      StepInv(Exec(s, schedule[..last]), schedule[last].0, schedule[last].1);
      KeepsStep(Exec(s, schedule[..last]), t, k, v, schedule[last].0, schedule[last].1);
    }
  }

  lemma KeptLast(s: State, t: Tid, k: Key, v: int, u: Tid, c: Choice)
    requires Inv(s) && Keeps(s, t, k, v) && Step(s, u, c).At(t) == Idle(Stored)
    ensures Map(Step(s, u, c)) == Map(s)[k := Value(v)]
  {
    if u != t { StepElsewhere(s, t, u, c); } else { SetStores(s, t, c); }
  }

  /** Every `Set`, by copy or by move, stores the value it was given in the step that
      ends it, whatever the other threads do. In particular a move is made at most
      once, from an argument that nothing has been moved out of. */
  lemma ValueKept(s: State, t: Tid, k: Key, v: int, byMove: bool, schedule: seq<(Tid, Choice)>)
    requires Inv(s) && Begun(s, t, k, v, byMove)
    requires Busy(s, t, schedule) && Exec(s, schedule).At(t) == Idle(Stored)
    ensures var before := Exec(s, schedule[..|schedule| - 1]);
            Map(Exec(s, schedule)) == Map(before)[k := Value(v)]
  {
    BusyLast(s, t, schedule);
    var last := |schedule| - 1;
    KeepsRun(s, t, k, v, schedule[..last]);
    KeptLast(Exec(s, schedule[..last]), t, k, v, schedule[last].0, schedule[last].1);
  }
}
