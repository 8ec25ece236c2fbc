/** The name registries of cyber/common/global_data.cc. The four of them (nodes,
    channels, services, tasks) differ only in their map. An id is the hash of the
    name, or the next 64-bit number that no other name has. */
module Registry {

  const WORDS: nat := 0x1_0000_0000_0000_0000

  type IdMap = map<nat, string>

  // The id after `j` increments, which wrap around.
  function Slot(h: nat, j: nat): (r: nat)
    requires h < WORDS && j < WORDS
    ensures r == (h + j) % 0x1_0000_0000_0000_0000
  {
    if h + j < WORDS then h + j else h + j - WORDS
  }

  predicate TakenByOther(m: IdMap, name: string, id: nat) {
    id in m && m[id] != name
  }

  /** The first id, from `j` increments on, that no other name has. (A probe that comes
      back to its start would go on forever.) */
  function Probe(m: IdMap, name: string, h: nat, j: nat): (id: nat)
    requires h < WORDS && j <= WORDS
    ensures id < WORDS
    decreases WORDS - j
  {
    if j == WORDS then h
    else if TakenByOther(m, name, Slot(h, j)) then Probe(m, name, h, j + 1)
    else Slot(h, j)
  }

  // The increments that lead from `h` to `id`.
  function Distance(h: nat, id: nat): (j: nat)
    requires h < WORDS && id < WORDS
    ensures j < WORDS && Slot(h, j) == id
  {
    if h <= id then id - h else id + WORDS - h
  }

  function Slots(h: nat, k: nat): (r: set<nat>)
    requires h < WORDS && k <= WORDS
    ensures |r| == k && forall id: nat :: id in r <==> id < WORDS && Distance(h, id) < k
  {
    if k == 0 then {} else Slots(h, k - 1) + {Slot(h, k - 1)}
  }

  ghost predicate ProbedTo(m: IdMap, name: string, h: nat, k: nat)
    requires h < WORDS
  {
    forall j: nat :: j < k && j < WORDS ==> TakenByOther(m, name, Slot(h, j))
  }

  // A map with room left ends every probe.
  lemma ProbeFitsMap(m: IdMap, name: string, h: nat, k: nat)
    requires h < WORDS && k <= WORDS && ProbedTo(m, name, h, k)
    ensures k <= |m|
  {
    var probed := Slots(h, k);
    forall id | id in probed ensures id in m.Keys {
      assert TakenByOther(m, name, Slot(h, Distance(h, id)));
    }
    assert probed <= m.Keys;
    Subset(probed, m.Keys);
  }

  lemma {:induction false} Subset(a: set<nat>, b: set<nat>)
    requires a <= b
    ensures |a| <= |b|
    decreases |a|
  {
    if a != {} {
      var x :| x in a;
      Subset(a - {x}, b - {x});
    }
  }

  lemma {:induction false} ProbeStops(m: IdMap, name: string, h: nat, j: nat)
    requires h < WORDS && j <= WORDS && |m| < WORDS && ProbedTo(m, name, h, j)
    ensures var id := Probe(m, name, h, j);
            && !TakenByOther(m, name, id)
            && ProbedTo(m, name, h, Distance(h, id))
    decreases WORDS - j
  {
    ProbeFitsMap(m, name, h, j);
    if TakenByOther(m, name, Slot(h, j)) {
      ProbeStops(m, name, h, j + 1);
    } else {
      assert Distance(h, Slot(h, j)) == j;
    }
  }

  // ---------------------------------------------------------------------
  // The invariant and what it gives

  function HashOf(hash: string -> nat, name: string): (h: nat)
    ensures h < WORDS
  {
    hash(name) % WORDS
  }

  /** Every id that was probed before a name got its own is still taken by another name. */
  ghost predicate Settled(m: IdMap, hash: string -> nat) {
    forall id :: id in m ==>
      id < WORDS && ProbedTo(m, m[id], HashOf(hash, m[id]), Distance(HashOf(hash, m[id]), id))
  }

  function IdOf(m: IdMap, hash: string -> nat, name: string): nat {
    Probe(m, name, HashOf(hash, name), 0)
  }

  function Registered(m: IdMap, hash: string -> nat, name: string): IdMap {
    m[IdOf(m, hash, name) := name]
  }

  // A probe stops at the first id that no other name has.
  lemma NotProbed(m: IdMap, name: string, h: nat, k: nat, id: nat)
    requires h < WORDS && id < WORDS && ProbedTo(m, name, h, k) && !TakenByOther(m, name, id)
    ensures k <= Distance(h, id)
  {
    var j := Distance(h, id);
    assert Slot(h, j) == id;
  }

  lemma OneIdPerName(m: IdMap, hash: string -> nat, a: nat, b: nat)
    requires Settled(m, hash) && a in m && b in m && m[a] == m[b]
    ensures a == b
  {
    var h := HashOf(hash, m[a]);
    NotProbed(m, m[a], h, Distance(h, a), b);
    NotProbed(m, m[a], h, Distance(h, b), a);
  }

  // A probe for a known name comes to its id.
  lemma {:induction false} ProbeReaches(m: IdMap, name: string, h: nat, j: nat, known: nat)
    requires h < WORDS && known < WORDS && known in m && m[known] == name
    requires j <= Distance(h, known) && ProbedTo(m, name, h, Distance(h, known))
    ensures Probe(m, name, h, j) == known
    decreases WORDS - j
  {
    if j < Distance(h, known) {
      assert TakenByOther(m, name, Slot(h, j));
      ProbeReaches(m, name, h, j + 1, known);
    }
  }

  lemma KnownKeepsId(m: IdMap, hash: string -> nat, name: string, known: nat)
    requires Settled(m, hash) && known in m && m[known] == name
    ensures IdOf(m, hash, name) == known && Registered(m, hash, name) == m
  {
    ProbeReaches(m, name, HashOf(hash, name), 0, known);
  }

  /** The names registered and their ids are each other's inverse. */
  lemma IdsAndNames(m: IdMap, hash: string -> nat)
    requires Settled(m, hash)
    ensures forall name :: name in m.Values ==> IdOf(m, hash, name) in m && m[IdOf(m, hash, name)] == name
    ensures forall id :: id in m ==> IdOf(m, hash, m[id]) == id
  {
    forall id | id in m ensures IdOf(m, hash, m[id]) == id {
      KnownKeepsId(m, hash, m[id], id);
    }
    forall name | name in m.Values ensures IdOf(m, hash, name) in m && m[IdOf(m, hash, name)] == name {
      var id :| id in m && m[id] == name;
      KnownKeepsId(m, hash, name, id);
    }
  }

  lemma NewIsFree(m: IdMap, hash: string -> nat, name: string)
    requires |m| < WORDS && name !in m.Values
    ensures IdOf(m, hash, name) !in m
  {
    ProbeStops(m, name, HashOf(hash, name), 0);
  }

  lemma ProbedStays(m: IdMap, name: string, h: nat, k: nat, id: nat, other: string)
    requires h < WORDS && ProbedTo(m, name, h, k) && id !in m
    ensures ProbedTo(m[id := other], name, h, k)
  {
    forall j: nat | j < k && j < WORDS ensures TakenByOther(m[id := other], name, Slot(h, j)) {
      assert TakenByOther(m, name, Slot(h, j));
    }
  }

  lemma NewSettles(m: IdMap, hash: string -> nat, name: string)
    requires Settled(m, hash) && |m| < WORDS && name !in m.Values
    ensures Settled(Registered(m, hash, name), hash)
  {
    var id, m' := IdOf(m, hash, name), Registered(m, hash, name);
    NewIsFree(m, hash, name);
    ProbeStops(m, name, HashOf(hash, name), 0);
    forall a | a in m'
      ensures a < WORDS && ProbedTo(m', m'[a], HashOf(hash, m'[a]), Distance(HashOf(hash, m'[a]), a))
    {
      ProbedStays(m, m'[a], HashOf(hash, m'[a]), Distance(HashOf(hash, m'[a]), a), id, name);
    }
  }

  /** Registering a known name finds its id and changes nothing; a new name gets an id
      that was free. */
  lemma RegisterMeans(m: IdMap, hash: string -> nat, name: string)
    requires Settled(m, hash) && |m| < WORDS
    ensures var id := IdOf(m, hash, name);
            && (name in m.Values ==> id in m && m[id] == name && Registered(m, hash, name) == m)
            && (name !in m.Values ==> id !in m)
    ensures var h := hash(name) % 0x1_0000_0000_0000_0000;
            h !in m || m[h] == name ==> IdOf(m, hash, name) == h
    ensures Settled(Registered(m, hash, name), hash)
  {
    if name in m.Values {
      var known :| known in m && m[known] == name;
      KnownKeepsId(m, hash, name, known);
    } else {
      NewIsFree(m, hash, name);
      NewSettles(m, hash, name);
    }
  }

  /** The id is the hash of the name, or the first number after it, modulo 2^64, that no
      other name has. */
  lemma IdIsFirstFree(m: IdMap, hash: string -> nat, name: string) returns (j: nat)
    requires |m| < 0x1_0000_0000_0000_0000
    ensures j < 0x1_0000_0000_0000_0000
    ensures IdOf(m, hash, name) == (hash(name) + j) % 0x1_0000_0000_0000_0000
    ensures IdOf(m, hash, name) !in m || m[IdOf(m, hash, name)] == name
    ensures forall i: nat :: i < j ==>
              var id := Slot(HashOf(hash, name), i);
              id == (hash(name) + i) % 0x1_0000_0000_0000_0000 && id in m && m[id] != name
  {
    var h := HashOf(hash, name);
    ProbeStops(m, name, h, 0);
    j := Distance(h, IdOf(m, hash, name));
    assert forall i: nat :: i < j ==> TakenByOther(m, name, Slot(h, i));
  }

  // One turn of the probing loop.
  lemma ProbeOn(m: IdMap, name: string, h: nat, j: nat)
    requires h < WORDS && j < WORDS && |m| < WORDS && ProbedTo(m, name, h, j) && TakenByOther(m, name, Slot(h, j))
    ensures j + 1 < WORDS && ProbedTo(m, name, h, j + 1)
    ensures Slot(h, j + 1) == if Slot(h, j) + 1 == WORDS then 0 else Slot(h, j) + 1
    ensures Probe(m, name, h, j) == Probe(m, name, h, j + 1)
  {
    ProbeFitsMap(m, name, h, j + 1);
  }

  // ---------------------------------------------------------------------
  // Runs of registrations

  function RegisterAll(hash: string -> nat, names: seq<string>): IdMap
    decreases |names|
  {
    if names == [] then map[]
    else Registered(RegisterAll(hash, names[..|names| - 1]), hash, names[|names| - 1])
  }

  // The id that the registration at `i` returned.
  function IdAt(hash: string -> nat, names: seq<string>, i: nat): nat
    requires i < |names|
  {
    IdOf(RegisterAll(hash, names[..i]), hash, names[i])
  }

  lemma {:induction false} AllSettled(hash: string -> nat, names: seq<string>)
    requires |names| < WORDS
    ensures Settled(RegisterAll(hash, names), hash) && |RegisterAll(hash, names)| <= |names|
    decreases |names|
  {
    if names != [] {
      var front := names[..|names| - 1];
      AllSettled(hash, front);
      RegisterMeans(RegisterAll(hash, front), hash, names[|names| - 1]);
    }
  }

  lemma RegisterKeeps(m: IdMap, hash: string -> nat, name: string, id: nat)
    requires Settled(m, hash) && |m| < WORDS && id in m
    ensures id in Registered(m, hash, name) && Registered(m, hash, name)[id] == m[id]
  {
    RegisterMeans(m, hash, name);
  }

  /** What a registration returned stays the id of its name whatever is registered later. */
  lemma {:induction false} IdStays(hash: string -> nat, names: seq<string>, i: nat)
    requires i < |names| < WORDS
    ensures var id := IdAt(hash, names, i);
            id in RegisterAll(hash, names) && RegisterAll(hash, names)[id] == names[i]
    decreases |names|
  {
    if i < |names| - 1 {
      var front := names[..|names| - 1];
      AllSettled(hash, front);
      IdStays(hash, front, i);
      assert front[..i] == names[..i];
      RegisterKeeps(RegisterAll(hash, front), hash, names[|names| - 1], IdAt(hash, names, i));
    }
  }

  /** Same name, same id; different names, different ids. */
  lemma IdsAreInjective(hash: string -> nat, names: seq<string>, i: nat, j: nat)
    requires i < |names| < WORDS && j < |names|
    ensures IdAt(hash, names, i) == IdAt(hash, names, j) <==> names[i] == names[j]
  {
    IdStays(hash, names, i);
    IdStays(hash, names, j);
    AllSettled(hash, names);
    if names[i] == names[j] {
      OneIdPerName(RegisterAll(hash, names), hash, IdAt(hash, names, i), IdAt(hash, names, j));
    }
  }

  class NameRegistry {
    const hash: string -> nat
    var idMap: IdMap

    ghost predicate Valid()
      reads this
    {
      Settled(idMap, hash)
    }

    constructor (hash: string -> nat)
      ensures Valid() && idMap == map[] && this.hash == hash
    {
      this.hash := hash;
      idMap := map[];
    }

    // The loop that looks for an id.
    method FindId(name: string) returns (id: nat)
      requires |idMap| < WORDS
      ensures id == IdOf(idMap, hash, name)
    {
      id := HashOf(hash, name);
      ghost var h, j := id, 0;
      while id in idMap
        invariant j < WORDS && id == Slot(h, j) && ProbedTo(idMap, name, h, j)
        invariant Probe(idMap, name, h, 0) == Probe(idMap, name, h, j)
        decreases WORDS - j
      {
        if idMap[id] == name {
          break;
        }
        ProbeOn(idMap, name, h, j);
        id := if id + 1 == WORDS then 0 else id + 1;
        j := j + 1;
      }
    }

    /** RegisterNode, RegisterChannel, RegisterService, RegisterTaskName. */
    method Register(name: string) returns (id: nat)
      requires Valid() && |idMap| < WORDS
      modifies this
      ensures Valid()
      ensures idMap == Registered(old(idMap), hash, name) && id == IdOf(old(idMap), hash, name)
      ensures id in idMap && idMap[id] == name && (id in old(idMap) <==> name in old(idMap).Values)
      ensures forall other :: other in old(idMap) ==> other in idMap && idMap[other] == old(idMap)[other]
      ensures var h := hash(name) % 0x1_0000_0000_0000_0000;
              h !in old(idMap) || old(idMap)[h] == name ==> id == h
    {
      RegisterMeans(idMap, hash, name);
      id := FindId(name);
      idMap := idMap[id := name];
    }

    /** GetNodeById and the like: a registered name comes back for its id, and for any
        other id the empty string does. */
    method GetById(id: nat) returns (name: string)
      requires Valid()
      ensures forall known :: known in idMap.Values && id == IdOf(idMap, hash, known) ==> name == known
      ensures name != "" ==> name in idMap.Values && id == IdOf(idMap, hash, name)
    {
      IdsAndNames(idMap, hash);
      name := if id in idMap then idMap[id] else "";
    }
  }
}
