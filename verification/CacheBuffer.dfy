/** The overwriting ring of cyber/data/cache_buffer.h and its readers in
    cyber/data/channel_buffer.h and cyber/data/data_visitor.h.

    Messages are numbered from 1 in the order they are filled in; a reader's cursor
    is the number of the message it wants next, 0 before its first read. */
module FetchRule {

  import opened Options

  function Min(a: nat, b: nat): (r: nat)
    ensures r <= a && r <= b && (r == a || r == b)
  {
    if a < b then a else b
  }

  // The number of the oldest message that a ring of `size` still has.
  function Head(size: nat, tail: nat): nat {
    if tail <= size then 1 else tail - size + 1
  }

  /** Which message a read with cursor `index` takes, if any. */
  function Fetched(size: nat, tail: nat, index: nat): Option<nat> {
    if tail == 0 then None
    else if index == 0 then Some(tail)
    else if index == tail + 1 then None
    else if index < Head(size, tail) then Some(tail)
    else Some(index)
  }

  function Advance(index: nat, r: Option<nat>): nat {
    match r
    case None => index
    case Some(p) => p + 1
  }

  // The message number `m` is new to a reader with cursor `index`.
  predicate Unread(m: nat, index: nat) {
    m > 0 && m >= index
  }

  /** A read finds nothing exactly when no message is new to the reader; otherwise it
      takes a new one, which is the next unless the reader has just begun or more
      than `size` messages wait for it, and then it is the newest. */
  lemma FetchedMeans(size: nat, tail: nat, index: nat)
    requires index <= tail + 1
    ensures Fetched(size, tail, index).None? <==> forall m: nat :: m <= tail ==> !Unread(m, index)
    ensures Fetched(size, tail, index).None? <==> tail == 0 || index == tail + 1
    ensures Fetched(size, tail, index).Some? ==>
              var p := Fetched(size, tail, index).value;
              && Unread(p, index) && p <= tail
              && (p == index <==> index > 0 && (tail - index + 1 <= size || index == tail))
              && (p != index ==> p == tail)
              && (Head(size, tail) <= p || size == 0)
  {
    if Fetched(size, tail, index).None? {
      assert forall m: nat :: m <= tail ==> !Unread(m, index);
    } else {
      assert Unread(tail, index);
    }
  }

  // ---------------------------------------------------------------------
  // Runs of fills and reads

  datatype Op = Fill | Read

  /** What is left after the operations: messages filled, the cursor, and the numbers
      of the messages delivered, in order. */
  datatype Reader = Reader(tail: nat, index: nat, delivered: seq<nat>)

  function Do(size: nat, r: Reader, op: Op): Reader {
    match op
    case Fill => r.(tail := r.tail + 1)
    case Read =>
      match Fetched(size, r.tail, r.index)
      case None => r
      case Some(p) => Reader(r.tail, p + 1, r.delivered + [p])
  }

  function Run(size: nat, ops: seq<Op>): Reader
    decreases |ops|
  {
    if ops == [] then Reader(0, 0, [])
    else Do(size, Run(size, ops[..|ops| - 1]), ops[|ops| - 1])
  }

  ghost predicate Increasing(s: seq<nat>) {
    forall i, j :: 0 <= i < j < |s| ==> s[i] < s[j]
  }

  ghost predicate ReaderOk(r: Reader) {
    && r.index <= r.tail + 1
    && Increasing(r.delivered)
    && (forall i :: 0 <= i < |r.delivered| ==> 0 < r.delivered[i] <= r.tail)
    && (r.index == if r.delivered == [] then 0 else r.delivered[|r.delivered| - 1] + 1)
  }

  /** In every run the messages delivered have ever greater numbers. */
  lemma {:induction false} DeliveredInOrder(size: nat, ops: seq<Op>)
    ensures ReaderOk(Run(size, ops))
    decreases |ops|
  {
    if ops != [] {
      var before := Run(size, ops[..|ops| - 1]);
      DeliveredInOrder(size, ops[..|ops| - 1]);
      FetchedMeans(size, before.tail, before.index);
    }
  }

  // At no read of the run did more than `size` messages wait.
  predicate KeepsUp(size: nat, ops: seq<Op>)
    decreases |ops|
  {
    ops == [] ||
    var before := Run(size, ops[..|ops| - 1]);
    KeepsUp(size, ops[..|ops| - 1]) &&
    (ops[|ops| - 1].Read? && before.index > 0 ==> before.tail + 1 - before.index <= size)
  }

  /** A reader that keeps up misses nothing after its first message. */
  lemma {:induction false} NothingSkipped(size: nat, ops: seq<Op>, i: nat)
    requires KeepsUp(size, ops) && i + 1 < |Run(size, ops).delivered|
    ensures Run(size, ops).delivered[i + 1] == Run(size, ops).delivered[i] + 1
    decreases |ops|
  {
    var front := ops[..|ops| - 1];
    var before := Run(size, front);
    DeliveredInOrder(size, front);
    if i + 1 < |before.delivered| {
      NothingSkipped(size, front, i);
    } else {
      FetchedMeans(size, before.tail, before.index);
    }
  }
}

module CacheBuffer {

  import opened Options
  import opened FetchRule
  import opened Remainder

  class Buffer<T(0)> {
    var head: nat
    var tail: nat
    const capacity: nat
    const buffer: array<T>
    ghost var filled: seq<T>

    // Slots hold the last messages; the newest stays even in a ring of size 0.
    ghost predicate Valid()
      reads this, buffer
    {
      && 0 < capacity == buffer.Length
      && tail == |filled| && head == (if tail < capacity then 0 else tail - (capacity - 1))
      && forall p: nat {:trigger GetIndex(p)} :: (head < p <= tail || p == tail > 0) ==> buffer[GetIndex(p)] == filled[p - 1]
    }

    ghost function Bound(): nat {
      if capacity == 0 then 0 else capacity - 1
    }

    constructor (size: nat)
      ensures Valid() && filled == [] && Bound() == size && fresh(buffer)
    {
      head, tail, capacity := 0, 0, size + 1;
      buffer := new T[size + 1];
      filled := [];
    }

    function GetIndex(pos: nat): nat
      requires capacity > 0
    {
      pos % capacity
    }

    method Fill(value: T)
      requires Valid()
      modifies this`head, this`tail, this`filled, buffer
      ensures Valid()
      ensures filled == old(filled) + [value]
    {
      ghost var before := buffer[..];
      SlotsDiffer(head, tail, capacity);
      if capacity - 1 == tail - head {
        AddModulus(capacity, head);
        buffer[GetIndex(head)] := value;
        head := head + 1;
      } else {
        buffer[GetIndex(tail + 1)] := value;
      }
      tail := tail + 1;
      filled := filled + [value];
      forall p: nat | head < p <= tail || p == tail > 0 ensures buffer[GetIndex(p)] == filled[p - 1] {
        if p < tail {
          assert buffer[GetIndex(p)] == before[GetIndex(p)];
        }
      }
    }

    /** `at(p)`: the message number `p`, for every number the ring still has. */
    method At(pos: nat) returns (value: T)
      requires Valid()
      ensures head < pos <= tail || pos == tail > 0 ==> value == filled[pos - 1]
    {
      value := buffer[GetIndex(pos)];
    }

    method Fetch(index: nat) returns (ok: bool, next: nat, value: T)
      requires Valid()
      ensures match Fetched(Bound(), tail, index)
              case None => !ok && next == index
              case Some(p) => ok && next == p && (p <= tail ==> value == filled[p - 1])
    {
      next := index;
      value := buffer[0];
      if tail == 0 {
        return false, next, value;
      }
      if next == 0 {
        next := tail;
      } else if next == tail + 1 {
        return false, next, value;
      } else if next < head + 1 {
        next := tail;
      }
      value := At(next);
      ok := true;
    }

    /** The newest message, if there ever was one. */
    method Latest() returns (ok: bool, value: T)
      requires Valid()
      ensures ok <==> filled != []
      ensures ok ==> value == filled[|filled| - 1]
    {
      value := buffer[0];
      if tail == 0 {
        return false, value;
      }
      value := At(tail);
      ok := true;
    }

    /** The last messages, oldest first: as many as are asked for and still there. */
    method FetchMulti(fetchSize: nat) returns (ok: bool, values: seq<T>)
      requires Valid()
      ensures ok <==> filled != []
      ensures !ok ==> values == []
      ensures ok ==> values == filled[|filled| - Min(Min(|filled|, Bound()), fetchSize)..]
    {
      values := [];
      if tail == 0 {
        return false, values;
      }
      var num := if tail - head < fetchSize then tail - head else fetchSize;
      var index := tail - num + 1;
      while index <= tail
        invariant tail - num + 1 <= index <= tail + 1
        invariant values == filled[tail - num..index - 1]
      {
        var value := At(index);
        assert filled[tail - num..index] == filled[tail - num..index - 1] + [filled[index - 1]];
        values := values + [value];
        index := index + 1;
      }
      ok := true;
    }
  }

  // Messages less than `capacity` apart have slots of their own.
  lemma SlotsDiffer(head: nat, tail: nat, capacity: nat)
    requires capacity > 0 && head <= tail && tail - head <= capacity - 1
    ensures forall p: nat :: head < p <= tail ==> p % capacity != (tail + 1) % capacity || tail - head == capacity - 1
    ensures forall p: nat :: head < p <= tail ==> p % capacity != head % capacity
  {
    forall p: nat | head < p <= tail
      ensures p % capacity != head % capacity
      ensures p % capacity != (tail + 1) % capacity || tail - head == capacity - 1
    {
      DistinctIndex(capacity, head, p);
      if tail - head < capacity - 1 { DistinctIndex(capacity, p, tail + 1); }
    }
  }

  /** A reader of one channel: cyber/data/data_visitor.h keeps its cursor. */
  class Visitor<T(0)> {
    const buffer: Buffer<T>
    var nextMsgIndex: nat
    ghost var delivered: seq<nat>

    ghost predicate Valid()
      reads this, buffer, buffer.buffer
    {
      && buffer.Valid()
      && ReaderOk(Reader(buffer.tail, nextMsgIndex, delivered))
    }

    constructor (buffer: Buffer<T>)
      requires buffer.Valid()
      ensures Valid() && this.buffer == buffer && delivered == [] && nextMsgIndex == 0
    {
      this.buffer := buffer;
      nextMsgIndex := 0;
      delivered := [];
    }

    /** One read: it is the read step of the run model, and the value it gives is the
        message of that number. */
    method TryFetch() returns (ok: bool, value: T)
      requires Valid()
      modifies this
      ensures Valid()
      ensures Reader(buffer.tail, nextMsgIndex, delivered) ==
              old(Do(buffer.Bound(), Reader(buffer.tail, nextMsgIndex, delivered), Read))
      ensures ok <==> delivered != old(delivered)
      ensures ok ==> 0 < |delivered| && value == buffer.filled[delivered[|delivered| - 1] - 1]
    {
      FetchedMeans(buffer.Bound(), buffer.tail, nextMsgIndex);
      var next: nat;
      ok, next, value := buffer.Fetch(nextMsgIndex);
      if ok {
        nextMsgIndex := next + 1;
        delivered := delivered + [next];
      }
    }
  }
}
