/** Requests and responses between cyber/service/client.h and cyber/service/service.h.

    Any number of clients, each with a writer id of its own, and any number of
    services share a request channel and a response channel. The network keeps every
    message ever sent and may deliver any of them, to any receiver, any number of
    times, in any order, or never. */
module Rpc {

  import opened Options

  type ClientId = nat
  type ServiceId = nat

  // What an application asks and answers; the protocol does not look inside.
  type Payload = int

  // The writer id and the sequence number travel in the message info, there and back.
  datatype Request = Request(client: ClientId, seqNum: nat, body: Payload)
  datatype Response = Response(client: ClientId, seqNum: nat, body: Payload)

  /** One client: its counter, the requests it waits for, and, while it is between
      transmitting a request and entering it in the table, the number of that one. */
  datatype Client = Client(sequenceNumber: nat, pending: set<nat>, sending: Option<nat>)

  datatype Service = Service(tasks: seq<Request>, current: Option<Request>)

  /** `locked`: the lock of the client covers both the transmission and the entry, as
      it does in the source. `accepted` is history: the answers given to promises, in
      order. So are `executed`, what the service callbacks returned, and `delivered`,
      what each service received. */
  datatype State = State(
    locked: bool,
    clients: map<ClientId, Client>, services: map<ServiceId, Service>,
    requests: set<Request>, responses: set<Response>,
    executed: set<(Request, Payload)>, accepted: seq<Response>,
    delivered: map<ServiceId, seq<Request>>, handled: map<ServiceId, seq<Request>>)
  {
    function C(c: ClientId): Client {
      if c in clients then clients[c] else Client(0, {}, None)
    }

    function S(i: ServiceId): Service {
      if i in services then services[i] else Service([], None)
    }

    function Delivered(i: ServiceId): seq<Request> {
      if i in delivered then delivered[i] else []
    }

    function Handled(i: ServiceId): seq<Request> {
      if i in handled then handled[i] else []
    }
  }

  function Init(locked: bool): State {
    State(locked, map[], map[], {}, {}, {}, [], map[], map[])
  }

  datatype Move =
    | Transmit(c: ClientId, body: Payload)
    | Enter(c: ClientId)
    | DeliverRequest(i: ServiceId, request: Request)
    | TakeTask(i: ServiceId)
    | Answer(i: ServiceId, body: Payload)
    | DeliverResponse(c: ClientId, response: Response)

  // ---------------------------------------------------------------------
  // A client

  // The first half of AsyncSendRequest: number the request and transmit it.
  function Transmitted(c: Client): Client {
    Client(c.sequenceNumber + 1, c.pending, Some(c.sequenceNumber + 1))
  }

  // The second half: a promise in the table.
  function Entered(c: Client): Client {
    match c.sending
    case None => c
    case Some(q) => Client(c.sequenceNumber, c.pending + {q}, None)
  }

  // HandleResponse gives the answer to a promise.
  predicate Accepts(id: ClientId, c: Client, r: Response) {
    r.client == id && r.seqNum in c.pending
  }

  function Answered(id: ClientId, c: Client, r: Response): Client {
    if Accepts(id, c, r) then c.(pending := c.pending - {r.seqNum}) else c
  }

  // ---------------------------------------------------------------------
  // The system

  function Step(s: State, move: Move): State {
    match move
    case Transmit(c, body) =>
      if s.C(c).sending.Some? then s
      else s.(clients := s.clients[c := Transmitted(s.C(c))],
              requests := s.requests + {Request(c, s.C(c).sequenceNumber + 1, body)})
    case Enter(c) => s.(clients := s.clients[c := Entered(s.C(c))])
    case DeliverRequest(i, r) =>
      if r in s.requests then
        s.(services := s.services[i := s.S(i).(tasks := s.S(i).tasks + [r])],
           delivered := s.delivered[i := s.Delivered(i) + [r]])
      else s
    case TakeTask(i) =>
      if s.S(i).current.None? && s.S(i).tasks != [] then
        s.(services := s.services[i := Service(s.S(i).tasks[1..], Some(s.S(i).tasks[0]))])
      else s
    case Answer(i, body) => AnswerStep(s, i, body)
    case DeliverResponse(c, r) =>
      if r !in s.responses || (s.locked && s.C(c).sending.Some?) then s
      else s.(clients := s.clients[c := Answered(c, s.C(c), r)],
              accepted := if Accepts(c, s.C(c), r) then s.accepted + [r] else s.accepted)
  }

  // The callback returns `body`; the response carries the info of the request.
  function AnswerStep(s: State, i: ServiceId, body: Payload): State {
    match s.S(i).current
    case None => s
    case Some(r) =>
      s.(services := s.services[i := s.S(i).(current := None)],
         executed := s.executed + {(r, body)},
         responses := s.responses + {Response(r.client, r.seqNum, body)},
         handled := s.handled[i := s.Handled(i) + [r]])
  }

  function Exec(s: State, moves: seq<Move>): State
    decreases |moves|
  {
    if moves == [] then s else Step(Exec(s, moves[..|moves| - 1]), moves[|moves| - 1])
  }

  // ---------------------------------------------------------------------
  // The invariant

  // The promise of client `c` for its request `q` has its answer.
  ghost predicate IsAnswered(s: State, c: ClientId, q: nat) {
    exists k :: 0 <= k < |s.accepted| && s.accepted[k].client == c && s.accepted[k].seqNum == q
  }

  /** Every request a client has numbered is in exactly one place: being entered,
      pending, or answered. */
  ghost predicate ClientOk(s: State, c: ClientId) {
    && (forall q: nat :: 1 <= q <= s.C(c).sequenceNumber <==>
          q in s.C(c).pending || s.C(c).sending == Some(q) || IsAnswered(s, c, q))
    && (forall q :: q in s.C(c).pending ==> !IsAnswered(s, c, q) && s.C(c).sending != Some(q))
    && (s.C(c).sending.Some? ==> !IsAnswered(s, c, s.C(c).sending.value))
  }

  ghost predicate AcceptedOnce(s: State) {
    forall j, k :: 0 <= j < k < |s.accepted| ==>
      s.accepted[j].client != s.accepted[k].client || s.accepted[j].seqNum != s.accepted[k].seqNum
  }

  // A client sends one request under a number, one it has used.
  ghost predicate RequestsOk(s: State) {
    && (forall r :: r in s.requests ==> 1 <= r.seqNum <= s.C(r.client).sequenceNumber)
    && (forall r, r' :: r in s.requests && r' in s.requests && r.client == r'.client && r.seqNum == r'.seqNum ==> r == r')
  }

  ghost predicate CameFrom(s: State, r: Response, q: Request) {
    q in s.requests && q.client == r.client && q.seqNum == r.seqNum && (q, r.body) in s.executed
  }

  ghost predicate ResponsesOk(s: State) {
    && (forall r :: r in s.responses ==> exists q :: CameFrom(s, r, q))
    && (forall k :: 0 <= k < |s.accepted| ==> s.accepted[k] in s.responses)
  }

  // The deliveries of a service: handled, in hand, and waiting.
  ghost predicate InOrder(delivered: seq<Request>, handled: seq<Request>, service: Service) {
    delivered == handled + (match service.current case None => [] case Some(r) => [r]) + service.tasks
  }

  // A service handles what it received, in order, each delivery once.
  ghost predicate ServiceOk(s: State, i: ServiceId) {
    && InOrder(s.Delivered(i), s.Handled(i), s.S(i))
    && forall k :: 0 <= k < |s.Delivered(i)| ==> s.Delivered(i)[k] in s.requests
  }

  ghost predicate Inv(s: State) {
    && (forall c: nat :: ClientOk(s, c))
    && (forall i: nat :: ServiceOk(s, i))
    && AcceptedOnce(s) && RequestsOk(s) && ResponsesOk(s)
  }

  lemma InitInv(locked: bool)
    ensures Inv(Init(locked))
  {
  }

  lemma AnsweredAfter(s: State, move: Move, c: ClientId, q: nat)
    ensures IsAnswered(Step(s, move), c, q) <==>
            IsAnswered(s, c, q)
            || (Step(s, move).accepted != s.accepted && move.DeliverResponse? && move.c == c && move.response.seqNum == q)
  {
    var s' := Step(s, move);
    if IsAnswered(s, c, q) {
      var k :| 0 <= k < |s.accepted| && s.accepted[k].client == c && s.accepted[k].seqNum == q;
      assert s'.accepted[k] == s.accepted[k];
    }
    if s'.accepted != s.accepted {
      assert s'.accepted == s.accepted + [move.response];
      assert s'.accepted[|s.accepted|] == move.response;
    }
  }

  lemma ClientStep(s: State, move: Move, c: ClientId)
    requires ClientOk(s, c)
    ensures ClientOk(Step(s, move), c)
  {
    var s' := Step(s, move);
    forall q: nat
      ensures IsAnswered(s', c, q) <==>
              IsAnswered(s, c, q)
              || (s'.accepted != s.accepted && move.DeliverResponse? && move.c == c && move.response.seqNum == q)
    {
      AnsweredAfter(s, move, c, q);
    }
  }

  lemma TakeInOrder(delivered: seq<Request>, handled: seq<Request>, service: Service)
    requires InOrder(delivered, handled, service) && service.current.None? && service.tasks != []
    ensures InOrder(delivered, handled, Service(service.tasks[1..], Some(service.tasks[0])))
  {
    assert handled + [] == handled;
    assert [service.tasks[0]] + service.tasks[1..] == service.tasks;
    assert handled + [service.tasks[0]] + service.tasks[1..] == handled + ([service.tasks[0]] + service.tasks[1..]);
  }

  lemma AnswerInOrder(delivered: seq<Request>, handled: seq<Request>, service: Service)
    requires InOrder(delivered, handled, service) && service.current.Some?
    ensures InOrder(delivered, handled + [service.current.value], service.(current := None))
  {
    var done := handled + [service.current.value];
    assert done + [] == done;
  }

  lemma DeliverInOrder(delivered: seq<Request>, handled: seq<Request>, service: Service, r: Request)
    requires InOrder(delivered, handled, service)
    ensures InOrder(delivered + [r], handled, service.(tasks := service.tasks + [r]))
  {
  }

  // What a step does to one service.
  ghost predicate Serves(s: State, s': State, move: Move, i: ServiceId) {
    || (s'.S(i) == s.S(i) && s'.Delivered(i) == s.Delivered(i) && s'.Handled(i) == s.Handled(i))
    || (move.DeliverRequest? && move.request in s.requests
        && s'.S(i) == s.S(i).(tasks := s.S(i).tasks + [move.request])
        && s'.Delivered(i) == s.Delivered(i) + [move.request] && s'.Handled(i) == s.Handled(i))
    || (s.S(i).current.None? && s.S(i).tasks != []
        && s'.S(i) == Service(s.S(i).tasks[1..], Some(s.S(i).tasks[0]))
        && s'.Delivered(i) == s.Delivered(i) && s'.Handled(i) == s.Handled(i))
    || (s.S(i).current.Some? && s'.S(i) == s.S(i).(current := None)
        && s'.Delivered(i) == s.Delivered(i) && s'.Handled(i) == s.Handled(i) + [s.S(i).current.value])
  }

  lemma AnswerServes(s: State, move: Move, i: ServiceId)
    requires move.Answer?
    ensures Serves(s, Step(s, move), move, i)
  {
  }

  lemma TaskServes(s: State, move: Move, i: ServiceId)
    requires move.DeliverRequest? || move.TakeTask?
    ensures Serves(s, Step(s, move), move, i)
  {
  }

  lemma StepServes(s: State, move: Move, i: ServiceId)
    ensures Serves(s, Step(s, move), move, i)
  {
    match move
    case Answer(_, _) => AnswerServes(s, move, i);
    case DeliverRequest(_, _) => TaskServes(s, move, i);
    case TakeTask(_) => TaskServes(s, move, i);
    case _ =>
  }

  lemma RequestsStay(s: State, move: Move)
    ensures s.requests <= Step(s, move).requests
  {
  }

  lemma ServesOk(s: State, s': State, move: Move, i: ServiceId)
    requires ServiceOk(s, i) && Serves(s, s', move, i) && s.requests <= s'.requests
    ensures ServiceOk(s', i)
  {
    if s.S(i).current.None? && s.S(i).tasks != [] { TakeInOrder(s.Delivered(i), s.Handled(i), s.S(i)); }
    if s.S(i).current.Some? { AnswerInOrder(s.Delivered(i), s.Handled(i), s.S(i)); }
    if move.DeliverRequest? { DeliverInOrder(s.Delivered(i), s.Handled(i), s.S(i), move.request); }
  }

  lemma ServiceStep(s: State, move: Move, i: ServiceId)
    requires ServiceOk(s, i)
    ensures ServiceOk(Step(s, move), i)
  {
    StepServes(s, move, i);
    RequestsStay(s, move);
    ServesOk(s, Step(s, move), move, i);
  }

  lemma AcceptedStep(s: State, move: Move)
    requires AcceptedOnce(s) && ResponsesOk(s)
    requires move.DeliverResponse? ==> ClientOk(s, move.c)
    ensures AcceptedOnce(Step(s, move))
  {
    var s' := Step(s, move);
    if s'.accepted != s.accepted {
      assert !IsAnswered(s, move.c, move.response.seqNum);
    }
  }

  lemma RequestsStep(s: State, move: Move)
    requires RequestsOk(s)
    ensures RequestsOk(Step(s, move))
  {
  }

  lemma ResponsesStep(s: State, move: Move)
    requires ResponsesOk(s)
    requires move.Answer? && s.S(move.i).current.Some? ==> s.S(move.i).current.value in s.requests
    ensures ResponsesOk(Step(s, move))
  {
    var s' := Step(s, move);
    forall r | r in s'.responses ensures exists q :: CameFrom(s', r, q) {
      if r in s.responses {
        var q :| CameFrom(s, r, q);
        assert CameFrom(s', r, q);
      } else {
        assert CameFrom(s', r, s.S(move.i).current.value);
      }
    }
  }

  lemma StepInv(s: State, move: Move)
    requires Inv(s)
    ensures Inv(Step(s, move))
  {
    forall c: nat ensures ClientOk(Step(s, move), c) { ClientStep(s, move, c); }
    forall i: nat ensures ServiceOk(Step(s, move), i) { ServiceStep(s, move, i); }
    AcceptedStep(s, move);
    RequestsStep(s, move);
    if move.Answer? { CurrentIsSent(s, move.i); }
    ResponsesStep(s, move);
  }

  lemma CurrentIsSent(s: State, i: ServiceId)
    requires ServiceOk(s, i)
    ensures s.S(i).current.Some? ==> s.S(i).current.value in s.requests
  {
    if s.S(i).current.Some? {
      assert s.Delivered(i)[|s.Handled(i)|] == s.S(i).current.value;
    }
  }

  lemma LockStays(s: State, move: Move)
    ensures Step(s, move).locked == s.locked
  {
  }

  lemma {:induction false} RunInv(locked: bool, moves: seq<Move>)
    ensures Inv(Exec(Init(locked), moves)) && Exec(Init(locked), moves).locked == locked
    decreases |moves|
  {
    if moves == [] {
      InitInv(locked);
    } else {
      var before := Exec(Init(locked), moves[..|moves| - 1]);
      RunInv(locked, moves[..|moves| - 1]);
      LockStays(before, moves[|moves| - 1]);
      StepInv(before, moves[|moves| - 1]);
    }
  }

  // ---------------------------------------------------------------------
  // What the protocol promises

  /** No promise is answered twice. */
  lemma AnsweredOnce(locked: bool, moves: seq<Move>, j: nat, k: nat)
    requires var s := Exec(Init(locked), moves);
             j < |s.accepted| && k < |s.accepted|
             && s.accepted[j].client == s.accepted[k].client && s.accepted[j].seqNum == s.accepted[k].seqNum
    ensures j == k
  {
    RunInv(locked, moves);
  }

  /** A promise is answered only by what a service callback returned for the request
      that its own client sent under its number. */
  lemma AnswerIsOwn(locked: bool, moves: seq<Move>, k: nat) returns (q: Request)
    requires k < |Exec(Init(locked), moves).accepted|
    ensures var s := Exec(Init(locked), moves);
            && CameFrom(s, s.accepted[k], q)
            && forall q' :: q' in s.requests && q'.client == q.client && q'.seqNum == q.seqNum ==> q' == q
  {
    RunInv(locked, moves);
    var s := Exec(Init(locked), moves);
    assert s.accepted[k] in s.responses;
    q :| CameFrom(s, s.accepted[k], q);
  }

  /** A service answers what it received, each delivery once and in order. */
  lemma HandledInOrder(locked: bool, moves: seq<Move>, i: ServiceId)
    ensures var s := Exec(Init(locked), moves); s.Handled(i) <= s.Delivered(i)
  {
    RunInv(locked, moves);
    var s := Exec(Init(locked), moves);
    assert ServiceOk(s, i);
  }

  /** The client throws away a response to a request of its own that has no answer yet.
      A client that holds the lock does not throw it away: the response waits. */
  ghost predicate Discards(s: State, c: ClientId, r: Response) {
    && r in s.responses && r.client == c && !IsAnswered(s, c, r.seqNum)
    && !(s.locked && s.C(c).sending.Some?)
    && !Accepts(c, s.C(c), r)
  }

  lemma NothingDiscarded(s: State, c: ClientId, r: Response)
    requires Inv(s) && s.locked && r in s.responses
    ensures !Discards(s, c, r)
  {
    var q :| CameFrom(s, r, q);
    assert ClientOk(s, c);
    assert r.client == c ==> 1 <= r.seqNum <= s.C(c).sequenceNumber;
  }

  // A response overtakes the entry in the table, if the lock does not make it wait.
  lemma Overtaken() returns (moves: seq<Move>)
    ensures Discards(Exec(Init(false), moves), 0, Response(0, 1, 7))
  {
    var s := Init(false);
    var m1 := Extend(s, [], Transmit(0, 5));
    var m2 := Extend(s, m1, DeliverRequest(0, Request(0, 1, 5)));
    var m3 := Extend(s, m2, TakeTask(0));
    assert Exec(s, m3).S(0).current == Some(Request(0, 1, 5));
    moves := Extend(s, m3, Answer(0, 7));
    var s4 := Exec(s, moves);
    assert s4.accepted == [] && s4.C(0) == Client(1, {}, Some(1)) && Response(0, 1, 7) in s4.responses;
  }

  lemma Extend(s: State, moves: seq<Move>, move: Move) returns (longer: seq<Move>)
    ensures Exec(s, longer) == Step(Exec(s, moves), move) && longer == moves + [move]
  {
    longer := moves + [move];
    assert longer[..|moves|] == moves;
  }

  ghost predicate NeverDiscards(locked: bool) {
    forall moves: seq<Move>, c: nat, r: Response :: !Discards(Exec(Init(locked), moves), c, r)
  }

  /** The first response to an unanswered request is never discarded, in any run, if and
      only if one lock covers the transmission and the entry in the table. */
  lemma LockDecides(locked: bool)
    ensures NeverDiscards(locked) <==> locked
  {
    if locked {
      forall moves: seq<Move>, c: nat, r: Response ensures !Discards(Exec(Init(locked), moves), c, r) {
        RunInv(locked, moves);
        var s := Exec(Init(locked), moves);
        if r in s.responses { NothingDiscarded(s, c, r); }
      }
    } else {
      var moves := Overtaken();
      var c, r := 0, Response(0, 1, 7);
      assert Discards(Exec(Init(false), moves), c, r);
      assert !NeverDiscards(false);
    }
  }

  /** With the lock, a response that is delivered while its request is unanswered is
      given to the promise at once, or as soon as the client has left its lock; one
      that is late, or for another client, changes nothing. */
  lemma ResponseIsUsed(moves: seq<Move>, c: ClientId, r: Response)
    requires r in Exec(Init(true), moves).responses
    ensures var s := Exec(Init(true), moves);
            var s' := Step(s, DeliverResponse(c, r));
            && (s.C(c).sending.Some? ==> s' == s)
            && (s.C(c).sending.None? ==>
                  if r.client == c && !IsAnswered(s, c, r.seqNum)
                  then s'.accepted == s.accepted + [r] && s'.C(c).pending == s.C(c).pending - {r.seqNum}
                  else s'.accepted == s.accepted && s'.C(c) == s.C(c))
  {
    RunInv(true, moves);
    var s := Exec(Init(true), moves);
    NothingDiscarded(s, c, r);
    assert ClientOk(s, c);
  }

  // A client that no lock holds up handles a response at once, in either form of the protocol.
  lemma HandledAtOnce(s: State, c: ClientId, r: Response)
    requires r in s.responses && (!s.locked || s.C(c).sending.None?)
    ensures var s' := Step(s, DeliverResponse(c, r));
            if r.client == c && r.seqNum in s.C(c).pending
            then s'.accepted == s.accepted + [r] && s'.C(c) == s.C(c).(pending := s.C(c).pending - {r.seqNum})
            else s'.accepted == s.accepted && s'.C(c) == s.C(c)
  {
  }

  // A service that has nothing to do answers one request.
  lemma ServiceTurn(s: State, i: ServiceId, q: Request, answer: Payload)
    requires q in s.requests && s.S(i) == Service([], None)
    ensures var s' := Step(Step(Step(s, DeliverRequest(i, q)), TakeTask(i)), Answer(i, answer));
            && Response(q.client, q.seqNum, answer) in s'.responses
            && s'.clients == s.clients && s'.accepted == s.accepted && s'.locked == s.locked
  {
    var s1 := Step(s, DeliverRequest(i, q));
    assert s1.S(i) == Service([q], None);
    var s2 := Step(s1, TakeTask(i));
    assert s2.S(i).current == Some(q);
  }

  /** When nothing is lost, a call comes back with its answer. */
  lemma RoundTrip(s: State, c: ClientId, i: ServiceId, body: Payload, answer: Payload)
    requires s.C(c).sending.None? && s.S(i) == Service([], None)
    ensures var n := s.C(c).sequenceNumber + 1;
            var s2 := Step(Step(s, Transmit(c, body)), Enter(c));
            var s5 := Step(Step(Step(s2, DeliverRequest(i, Request(c, n, body))), TakeTask(i)), Answer(i, answer));
            Step(s5, DeliverResponse(c, Response(c, n, answer))).accepted == s.accepted + [Response(c, n, answer)]
  {
    var n := s.C(c).sequenceNumber + 1;
    var s1 := Step(s, Transmit(c, body));
    var s2 := Step(s1, Enter(c));
    assert n in s2.C(c).pending && s2.C(c).sending.None? && s2.services == s.services;
    ServiceTurn(s2, i, Request(c, n, body), answer);
  }
}
