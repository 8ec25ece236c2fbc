/** The "all latest" fusion of cyber/data/fusion/all_latest.h: each message of the
    first channel is paired with the newest of the other three.

    The rings of the other channels have locks of their own, so messages arrive on
    them between the three reads that one message of the first channel makes; the
    arrivals are a parameter. Dispatches on the first channel follow one another,
    because each holds the lock of its ring. */
module Fusion {

  import opened Options
  import opened FetchRule
  import opened CacheBuffer

  datatype Fused<T> = Fused(m0: T, m1: T, m2: T, m3: T)

  datatype Channel = C1 | C2 | C3

  datatype Arrival<T> = Arrival(channel: Channel, value: T)

  // The values that arrive on one channel.
  function On<T>(c: Channel, arrivals: seq<Arrival<T>>): seq<T> {
    if arrivals == [] then []
    else
      var last := arrivals[|arrivals| - 1];
      if last.channel == c then On(c, arrivals[..|arrivals| - 1]) + [last.value]
      else On(c, arrivals[..|arrivals| - 1])
  }

  lemma {:induction false} OnConcat<T>(c: Channel, a: seq<Arrival<T>>, b: seq<Arrival<T>>)
    ensures On(c, a + b) == On(c, a) + On(c, b)
    decreases |b|
  {
    if b == [] {
      assert a + b == a;
    } else {
      OnConcat(c, a, b[..|b| - 1]);
      assert (a + b)[..|a + b| - 1] == a + b[..|b| - 1];
    }
  }

  // The channels hold what they held, and then what arrived.
  ghost predicate Have<T>(m1: seq<T>, m2: seq<T>, m3: seq<T>, b1: seq<T>, b2: seq<T>, b3: seq<T>,
                          arrived: seq<Arrival<T>>)
  {
    m1 == b1 + On(C1, arrived) && m2 == b2 + On(C2, arrived) && m3 == b3 + On(C3, arrived)
  }

  lemma HaveOne<T>(m1: seq<T>, m2: seq<T>, m3: seq<T>, b1: seq<T>, b2: seq<T>, b3: seq<T>,
                   arrived: seq<Arrival<T>>, a: Arrival<T>)
    requires Have(m1, m2, m3, b1, b2, b3, arrived)
    ensures Have(if a.channel == C1 then m1 + [a.value] else m1, if a.channel == C2 then m2 + [a.value] else m2,
                 if a.channel == C3 then m3 + [a.value] else m3, b1, b2, b3, arrived + [a])
  {
    assert (arrived + [a])[..|arrived|] == arrived;
  }

  lemma HaveBoth<T>(m1: seq<T>, m2: seq<T>, m3: seq<T>, b1: seq<T>, b2: seq<T>, b3: seq<T>,
                    a: seq<Arrival<T>>, n1: seq<T>, n2: seq<T>, n3: seq<T>, b: seq<Arrival<T>>)
    requires Have(m1, m2, m3, b1, b2, b3, a) && Have(n1, n2, n3, m1, m2, m3, b)
    ensures Have(n1, n2, n3, b1, b2, b3, a + b)
  {
    OnConcat(C1, a, b);
    OnConcat(C2, a, b);
    OnConcat(C3, a, b);
  }

  function Last<T>(s: seq<T>): T
    requires s != []
  {
    s[|s| - 1]
  }

  // Every channel has had a message by the time it is read.
  ghost predicate AllPresent<T>(b1: seq<T>, b2: seq<T>, b3: seq<T>,
                                a1: seq<Arrival<T>>, a2: seq<Arrival<T>>, a3: seq<Arrival<T>>)
  {
    b1 + On(C1, a1) != [] && b2 + On(C2, a1 + a2) != [] && b3 + On(C3, a1 + a2 + a3) != []
  }

  // The newest message of each channel when it is read.
  ghost function Newest<T>(m0: T, b1: seq<T>, b2: seq<T>, b3: seq<T>,
                           a1: seq<Arrival<T>>, a2: seq<Arrival<T>>, a3: seq<Arrival<T>>): Fused<T>
    requires AllPresent(b1, b2, b3, a1, a2, a3)
  {
    Fused(m0, Last(b1 + On(C1, a1)), Last(b2 + On(C2, a1 + a2)), Last(b3 + On(C3, a1 + a2 + a3)))
  }

  // How many messages the three channels have had.
  datatype Counts = Counts(c1: nat, c2: nat, c3: nat)
  {
    predicate UpTo(other: Counts) {
      c1 <= other.c1 && c2 <= other.c2 && c3 <= other.c3
    }
  }

  /** Where the parts of a fused tuple come from: the number of its message on the
      first channel and on the others, and how many messages the others had had when
      the dispatch of the first began and ended. */
  datatype Span = Span(p0: nat, p: Counts, from: Counts, upto: Counts)

  ghost predicate SpansOk(spans: seq<Span>, dispatched: nat, now: Counts) {
    && (forall i :: 0 <= i < |spans| ==>
          && spans[i].from.UpTo(spans[i].p) && spans[i].p.UpTo(spans[i].upto) && spans[i].upto.UpTo(now)
          && spans[i].p.c1 > 0 && spans[i].p.c2 > 0 && spans[i].p.c3 > 0)
    && (forall i, j :: 0 <= i < j < |spans| ==> spans[i].upto.UpTo(spans[j].from))
    && |spans| <= dispatched
    && (forall i :: 0 <= i < |spans| ==> spans[i].p0 == dispatched - |spans| + i + 1)
  }

  // The tuple that a span says.
  ghost predicate TupleAt<T>(f: Fused<T>, s: Span, m0: seq<T>, m1: seq<T>, m2: seq<T>, m3: seq<T>) {
    && 0 < s.p0 <= |m0| && 0 < s.p.c1 <= |m1| && 0 < s.p.c2 <= |m2| && 0 < s.p.c3 <= |m3|
    && f == Fused(m0[s.p0 - 1], m1[s.p.c1 - 1], m2[s.p.c2 - 1], m3[s.p.c3 - 1])
  }

  /** Over any run, the tuples a reader gets have ever later messages of the first
      channel and never earlier messages of the others. */
  lemma DeliveredTuplesMoveForward(spans: seq<Span>, dispatched: nat, now: Counts, delivered: seq<nat>, i: nat, j: nat)
    requires SpansOk(spans, dispatched, now) && Increasing(delivered)
    requires forall k :: 0 <= k < |delivered| ==> 0 < delivered[k] <= |spans|
    requires i < j < |delivered|
    ensures var a, b := spans[delivered[i] - 1], spans[delivered[j] - 1];
            a.p0 < b.p0 && a.p.UpTo(b.p)
  {
    assert delivered[i] < delivered[j];
    assert spans[delivered[i] - 1].upto.UpTo(spans[delivered[j] - 1].from);
  }

  lemma SpanAdded(spans: seq<Span>, dispatched: nat, begun: Counts, s: Span, now: Counts)
    requires SpansOk(spans, dispatched, begun) && begun.UpTo(now)
    requires s.p0 == dispatched + 1 && s.from == begun && s.upto == now
    requires s.from.UpTo(s.p) && s.p.UpTo(s.upto) && s.p.c1 > 0 && s.p.c2 > 0 && s.p.c3 > 0
    ensures SpansOk(spans + [s], dispatched + 1, now)
  {
    var spans' := spans + [s];
    forall i, j | 0 <= i < j < |spans'| ensures spans'[i].upto.UpTo(spans'[j].from) {
      if j == |spans| { assert spans[i].upto.UpTo(begun); }
    }
  }

  function Sizes<T>(m1: seq<T>, m2: seq<T>, m3: seq<T>): Counts {
    Counts(|m1|, |m2|, |m3|)
  }

  // The tuples made so far, with the spans that say where they come from.
  ghost predicate Told<T>(fused: seq<Fused<T>>, spans: seq<Span>, m0: seq<T>, m1: seq<T>, m2: seq<T>, m3: seq<T>) {
    && |spans| == |fused|
    && SpansOk(spans, |m0|, Sizes(m1, m2, m3))
    && forall i :: 0 <= i < |spans| ==> TupleAt(fused[i], spans[i], m0, m1, m2, m3)
  }

  lemma ToldFused<T>(fused: seq<Fused<T>>, spans: seq<Span>, m0: seq<T>, m1: seq<T>, m2: seq<T>, m3: seq<T>,
                     v0: T, n1: seq<T>, n2: seq<T>, n3: seq<T>, s: Span)
    requires Told(fused, spans, m0, m1, m2, m3)
    requires m1 <= n1 && m2 <= n2 && m3 <= n3
    requires s.p0 == |m0| + 1 && s.from == Sizes(m1, m2, m3) && s.upto == Sizes(n1, n2, n3)
    requires s.from.UpTo(s.p) && s.p.UpTo(s.upto) && s.p.c1 > 0 && s.p.c2 > 0 && s.p.c3 > 0
    ensures Told(fused + [Fused(v0, n1[s.p.c1 - 1], n2[s.p.c2 - 1], n3[s.p.c3 - 1])], spans + [s],
                 m0 + [v0], n1, n2, n3)
  {
    SpanAdded(spans, |m0|, Sizes(m1, m2, m3), s, Sizes(n1, n2, n3));
  }

  lemma ToldNonempty<T>(fused: seq<Fused<T>>, spans: seq<Span>, m0: seq<T>, m1: seq<T>, m2: seq<T>, m3: seq<T>)
    requires Told(fused, spans, m0, m1, m2, m3)
    ensures spans == [] || (m1 != [] && m2 != [] && m3 != [])
  {
    if spans != [] { assert TupleAt(fused[0], spans[0], m0, m1, m2, m3); }
  }

  // Once a tuple has been made no channel is empty, and every later message makes one.
  lemma ToldSkipped<T>(fused: seq<Fused<T>>, spans: seq<Span>, m0: seq<T>, m1: seq<T>, m2: seq<T>, m3: seq<T>,
                       v0: T, n1: seq<T>, n2: seq<T>, n3: seq<T>)
    requires Told(fused, spans, m0, m1, m2, m3)
    requires m1 == [] || m2 == [] || m3 == []
    ensures Told(fused, spans, m0 + [v0], n1, n2, n3)
  {
    ToldNonempty(fused, spans, m0, m1, m2, m3);
  }

  class AllLatest<T(0)> {
    const m1: Buffer<T>
    const m2: Buffer<T>
    const m3: Buffer<T>
    const fusion: Buffer<Fused<T>>
    ghost var dispatched: seq<T>
    ghost var spans: seq<Span>

    ghost predicate Apart()
    {
      && m1 != m2 && m1 != m3 && m2 != m3
      && m1.buffer != m2.buffer && m1.buffer != m3.buffer && m2.buffer != m3.buffer
      && (fusion as object) != m1 && (fusion as object) != m2 && (fusion as object) != m3
      && (fusion.buffer as object) != m1.buffer && (fusion.buffer as object) != m2.buffer
      && (fusion.buffer as object) != m3.buffer
    }

    ghost predicate Sources()
      reads m1, m2, m3, m1.buffer, m2.buffer, m3.buffer
    {
      Apart() && m1.Valid() && m2.Valid() && m3.Valid()
    }

    ghost function Now(): Counts
      reads m1`filled, m2`filled, m3`filled
    {
      Sizes(m1.filled, m2.filled, m3.filled)
    }

    ghost predicate Valid()
      reads this, m1, m2, m3, fusion, m1.buffer, m2.buffer, m3.buffer, fusion.buffer
    {
      && Sources() && fusion.Valid()
      && Told(fusion.filled, spans, dispatched, m1.filled, m2.filled, m3.filled)
    }

    // The fusion ring is as large as the ring of the first channel, of `size` messages.
    constructor (size: nat, m1: Buffer<T>, m2: Buffer<T>, m3: Buffer<T>)
      requires m1.Valid() && m2.Valid() && m3.Valid()
      requires m1 != m2 && m1 != m3 && m2 != m3
      requires m1.buffer != m2.buffer && m1.buffer != m3.buffer && m2.buffer != m3.buffer
      ensures Valid() && fusion.filled == [] && dispatched == [] && fusion.Bound() == size
      ensures this.m1 == m1 && this.m2 == m2 && this.m3 == m3 && fresh(fusion) && fresh(fusion.buffer)
    {
      this.m1, this.m2, this.m3 := m1, m2, m3;
      fusion := new Buffer(size);
      dispatched, spans := [], [];
    }

    method ArriveOne(a: Arrival<T>)
      requires Sources()
      modifies m1, m2, m3, m1.buffer, m2.buffer, m3.buffer
      ensures Sources()
      ensures m1.filled == (if a.channel == C1 then old(m1.filled) + [a.value] else old(m1.filled))
      ensures m2.filled == (if a.channel == C2 then old(m2.filled) + [a.value] else old(m2.filled))
      ensures m3.filled == (if a.channel == C3 then old(m3.filled) + [a.value] else old(m3.filled))
    {
      match a.channel {
        case C1 => m1.Fill(a.value);
        case C2 => m2.Fill(a.value);
        case C3 => m3.Fill(a.value);
      }
    }

    method Arrive(arrivals: seq<Arrival<T>>)
      requires Sources()
      modifies m1, m2, m3, m1.buffer, m2.buffer, m3.buffer
      ensures Sources()
      ensures Have(m1.filled, m2.filled, m3.filled, old(m1.filled), old(m2.filled), old(m3.filled), arrivals)
      ensures old(m1.filled) <= m1.filled && old(m2.filled) <= m2.filled && old(m3.filled) <= m3.filled
    {
      ghost var b1, b2, b3 := m1.filled, m2.filled, m3.filled;
      var i := 0;
      while i < |arrivals|
        invariant 0 <= i <= |arrivals|
        invariant Sources()
        invariant Have(m1.filled, m2.filled, m3.filled, b1, b2, b3, arrivals[..i])
      {
        HaveOne(m1.filled, m2.filled, m3.filled, b1, b2, b3, arrivals[..i], arrivals[i]);
        assert arrivals[..i + 1] == arrivals[..i] + [arrivals[i]];
        ArriveOne(arrivals[i]);
        i := i + 1;
      }
      assert arrivals[..i] == arrivals;
    }

    ghost function Filled(c: Channel): seq<T>
      reads m1`filled, m2`filled, m3`filled
    {
      match c
      case C1 => m1.filled
      case C2 => m2.filled
      case C3 => m3.filled
    }

    // One read, after what arrives before it.
    method ReadOne(c: Channel, arrivals: seq<Arrival<T>>) returns (ok: bool, value: T)
      requires Sources()
      modifies m1, m2, m3, m1.buffer, m2.buffer, m3.buffer
      ensures Sources()
      ensures Have(m1.filled, m2.filled, m3.filled, old(m1.filled), old(m2.filled), old(m3.filled), arrivals)
      ensures old(m1.filled) <= m1.filled && old(m2.filled) <= m2.filled && old(m3.filled) <= m3.filled
      ensures ok <==> Filled(c) != []
      ensures ok ==> value == Last(Filled(c))
    {
      Arrive(arrivals);
      match c {
        case C1 => ok, value := m1.Latest();
        case C2 => ok, value := m2.Latest();
        case C3 => ok, value := m3.Latest();
      }
    }

    /** The three reads for one message, each after the arrivals that come before it.
        The first channel that has never had a message ends them. `p` is the numbers
        of the messages read. */
    method ReadLatest(a1: seq<Arrival<T>>, a2: seq<Arrival<T>>, a3: seq<Arrival<T>>)
      returns (ok: bool, v1: T, v2: T, v3: T, ghost p: Counts)
      requires Sources()
      modifies m1, m2, m3, m1.buffer, m2.buffer, m3.buffer
      ensures Sources()
      ensures old(m1.filled) <= m1.filled && old(m2.filled) <= m2.filled && old(m3.filled) <= m3.filled
      ensures ok <==> AllPresent(old(m1.filled), old(m2.filled), old(m3.filled), a1, a2, a3)
      ensures ok ==> Have(m1.filled, m2.filled, m3.filled, old(m1.filled), old(m2.filled), old(m3.filled), a1 + a2 + a3)
      ensures ok ==> forall m0 :: Fused(m0, v1, v2, v3) ==
                       Newest(m0, old(m1.filled), old(m2.filled), old(m3.filled), a1, a2, a3)
      ensures ok ==> 0 < p.c1 && 0 < p.c2 && 0 < p.c3 && old(Now()).UpTo(p) && p.UpTo(Now())
      ensures ok ==> m1.filled[p.c1 - 1] == v1 && m2.filled[p.c2 - 1] == v2 && m3.filled[p.c3 - 1] == v3
    {
      ghost var b1, b2, b3 := m1.filled, m2.filled, m3.filled;
      p := Counts(0, 0, 0);
      ok, v1 := ReadOne(C1, a1);
      ghost var c1, c2, c3 := m1.filled, m2.filled, m3.filled;
      v2, v3 := v1, v1;
      if ok {
        ok, v2 := ReadOne(C2, a2);
        ghost var d1, d2, d3 := m1.filled, m2.filled, m3.filled;
        HaveBoth(c1, c2, c3, b1, b2, b3, a1, d1, d2, d3, a2);
        if ok {
          ok, v3 := ReadOne(C3, a3);
          HaveBoth(d1, d2, d3, b1, b2, b3, a1 + a2, m1.filled, m2.filled, m3.filled, a3);
          p := Counts(|c1|, |d2|, |m3.filled|);
        }
      }
    }

    // The end of a dispatch: the tuple goes into the fusion ring, if there is one.
    method Record(ok: bool, m0: T, v1: T, v2: T, v3: T, ghost p: Counts,
                  ghost b1: seq<T>, ghost b2: seq<T>, ghost b3: seq<T>)
      requires Sources() && fusion.Valid()
      requires Told(fusion.filled, spans, dispatched, b1, b2, b3)
      requires b1 <= m1.filled && b2 <= m2.filled && b3 <= m3.filled
      requires ok ==> 0 < p.c1 && 0 < p.c2 && 0 < p.c3 && Sizes(b1, b2, b3).UpTo(p) && p.UpTo(Now())
      requires ok ==> m1.filled[p.c1 - 1] == v1 && m2.filled[p.c2 - 1] == v2 && m3.filled[p.c3 - 1] == v3
      requires !ok ==> b1 == [] || b2 == [] || b3 == []
      modifies this, fusion, fusion.buffer
      ensures Valid() && dispatched == old(dispatched) + [m0]
      ensures fusion.filled == if ok then old(fusion.filled) + [Fused(m0, v1, v2, v3)] else old(fusion.filled)
    {
      if ok {
        ghost var s := Span(|dispatched| + 1, p, Sizes(b1, b2, b3), Now());
        ToldFused(fusion.filled, spans, dispatched, b1, b2, b3, m0, m1.filled, m2.filled, m3.filled, s);
        fusion.Fill(Fused(m0, v1, v2, v3));
        spans := spans + [s];
      } else {
        ToldSkipped(fusion.filled, spans, dispatched, b1, b2, b3, m0, m1.filled, m2.filled, m3.filled);
      }
      dispatched := dispatched + [m0];
    }

    /** The fusion callback for one message of the first channel. */
    method OnMessage(m0: T, a1: seq<Arrival<T>>, a2: seq<Arrival<T>>, a3: seq<Arrival<T>>)
      returns (ghost fused: bool)
      requires Valid()
      modifies this, m1, m2, m3, fusion, m1.buffer, m2.buffer, m3.buffer, fusion.buffer
      ensures Valid()
      ensures dispatched == old(dispatched) + [m0]
      ensures old(m1.filled) <= m1.filled && old(m2.filled) <= m2.filled && old(m3.filled) <= m3.filled
      ensures fused <==> AllPresent(old(m1.filled), old(m2.filled), old(m3.filled), a1, a2, a3)
      ensures fused ==> Have(m1.filled, m2.filled, m3.filled, old(m1.filled), old(m2.filled), old(m3.filled), a1 + a2 + a3)
      ensures fused ==> fusion.filled == old(fusion.filled) +
                          [Newest(m0, old(m1.filled), old(m2.filled), old(m3.filled), a1, a2, a3)]
      ensures !fused ==> fusion.filled == old(fusion.filled)
    {
      ghost var b1, b2, b3 := m1.filled, m2.filled, m3.filled;
      var ok, v1, v2, v3;
      ghost var p;
      ok, v1, v2, v3, p := ReadLatest(a1, a2, a3);
      fused := ok;
      Record(ok, m0, v1, v2, v3, p, b1, b2, b3);
    }
  }

  /** A reader of the fused tuples. */
  method FetchFused<T(0)>(fusion: AllLatest<T>, visitor: Visitor<Fused<T>>)
    returns (ok: bool, m0: T, m1: T, m2: T, m3: T)
    requires fusion.Valid() && visitor.Valid() && visitor.buffer == fusion.fusion
    modifies visitor
    ensures fusion.Valid() && visitor.Valid()
    ensures ok <==> visitor.delivered != old(visitor.delivered)
    ensures ok ==> 0 < |visitor.delivered| && visitor.delivered[..|visitor.delivered| - 1] == old(visitor.delivered)
                   && 0 < Last(visitor.delivered) <= |fusion.spans|
                   && TupleAt(Fused(m0, m1, m2, m3), fusion.spans[Last(visitor.delivered) - 1],
                              fusion.dispatched, fusion.m1.filled, fusion.m2.filled, fusion.m3.filled)
  {
    var tuple;
    ok, tuple := visitor.TryFetch();
    m0, m1, m2, m3 := tuple.m0, tuple.m1, tuple.m2, tuple.m3;
  }
}
