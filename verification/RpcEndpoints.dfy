/** The objects at the two ends of a call: cyber/service/client.h and
    cyber/service/service.h. Their methods are the steps of the protocol in `Rpc`. */
module RpcEndpoints {

  import opened Options
  import Rpc

  type Payload = Rpc.Payload

  class Promise {
    var value: Option<Payload>

    constructor ()
      ensures value == None
    {
      value := None;
    }

    // A second answer would be an error.
    method SetValue(v: Payload)
      requires value == None
      modifies this
      ensures value == Some(v)
    {
      value := Some(v);
    }
  }

  class Client {
    const writerId: nat
    const inited: bool
    var sequenceNumber: nat
    var pendingRequests: map<nat, Promise>
    // Every promise ever made, and the answers given.
    ghost var promises: map<nat, Promise>
    ghost var answers: map<nat, Payload>

    ghost predicate Valid()
      reads this, promises.Values
    {
      && (forall q: nat :: q in promises <==> 1 <= q <= sequenceNumber)
      && (forall q, q' :: q in promises && q' in promises && promises[q] == promises[q'] ==> q == q')
      && (forall q :: q in promises ==>
            promises[q].value == if q in answers then Some(answers[q]) else None)
      && answers.Keys <= promises.Keys
      && (forall q :: q in pendingRequests <==> q in promises && q !in answers)
      && (forall q :: q in pendingRequests ==> pendingRequests[q] == promises[q])
    }

    // The client as the protocol sees it between two calls.
    ghost function View(): Rpc.Client
      reads this
    {
      Rpc.Client(sequenceNumber, pendingRequests.Keys, None)
    }

    constructor (writerId: nat, inited: bool)
      ensures Valid() && this.writerId == writerId && this.inited == inited
      ensures View() == Rpc.Client(0, {}, None) && promises == map[] && answers == map[]
    {
      this.writerId, this.inited := writerId, inited;
      sequenceNumber := 0;
      pendingRequests, promises, answers := map[], map[], map[];
    }

    /** Under one lock: number the request, transmit it, and enter its promise. */
    method AsyncSendRequest(body: Payload) returns (sent: Option<Rpc.Request>, promise: Promise?)
      requires Valid()
      modifies this
      ensures Valid()
      ensures !inited ==> sent == None && promise == null && View() == old(View())
                          && promises == old(promises) && answers == old(answers)
      ensures inited ==>
                && promise != null && fresh(promise)
                && sent == Some(Rpc.Request(writerId, sequenceNumber, body))
                && View() == Rpc.Entered(Rpc.Transmitted(old(View())))
                && promises == old(promises)[sequenceNumber := promise] && answers == old(answers)
    {
      sent, promise := None, null;
      if inited {
        sequenceNumber := sequenceNumber + 1;
        sent := Some(Rpc.Request(writerId, sequenceNumber, body));
        var made := new Promise();
        promise := made;
        pendingRequests := pendingRequests[sequenceNumber := made];
        promises := promises[sequenceNumber := made];
      }
    }

    /** A response from the shared channel: it answers the promise it is for, once, and
        is otherwise ignored. `called`: the callback of the request is invoked. */
    method HandleResponse(response: Rpc.Response) returns (called: bool)
      requires Valid()
      modifies this, promises.Values
      ensures Valid() && promises == old(promises)
      ensures called == old(Rpc.Accepts(writerId, View(), response))
      ensures View() == Rpc.Answered(writerId, old(View()), response)
      ensures answers == if called then old(answers)[response.seqNum := response.body] else old(answers)
    {
      called := false;
      if response.client != writerId {
        return;
      }
      var sequenceNumber := response.seqNum;
      if sequenceNumber !in pendingRequests {
        return;
      }
      var promise := pendingRequests[sequenceNumber];
      assert promise in promises.Values by { assert promises[sequenceNumber] == promise; }
      pendingRequests := map q | q in pendingRequests && q != sequenceNumber :: pendingRequests[q];
      promise.SetValue(response.body);
      answers := answers[sequenceNumber := response.body];
      called := true;
    }
  }

  // The response to a request carries its info back.
  function Reply(q: Rpc.Request, body: Payload): Rpc.Response {
    Rpc.Response(q.client, q.seqNum, body)
  }

  /** A reply answers the pending request that its client sent under that number, and
      no other client's. */
  lemma ReplyIsAccepted(q: Rpc.Request, body: Payload, id: Rpc.ClientId, c: Rpc.Client)
    ensures Rpc.Accepts(id, c, Reply(q, body)) <==> id == q.client && q.seqNum in c.pending
    ensures Rpc.Accepts(id, c, Reply(q, body)) ==>
              Rpc.Answered(id, c, Reply(q, body)).pending == c.pending - {q.seqNum}
  {
  }

  class Service {
    var inited: bool
    var tasks: seq<Rpc.Request>

    constructor ()
      ensures inited && tasks == []
    {
      inited, tasks := true, [];
    }

    method Enqueue(request: Rpc.Request)
      modifies this`tasks
      ensures tasks == old(tasks) + [request]
    {
      tasks := tasks + [request];
    }

    /** The worker loop, for as many turns as there are `answers`: the callback returns
        the next of them for the task at the front. */
    method Process(answers: seq<Payload>) returns (sent: seq<Rpc.Response>)
      modifies this`tasks
      ensures |sent| == if !inited then 0 else if |answers| < |old(tasks)| then |answers| else |old(tasks)|
      ensures forall k :: 0 <= k < |sent| ==>
                && sent[k].client == old(tasks)[k].client && sent[k].seqNum == old(tasks)[k].seqNum
                && sent[k].body == answers[k]
      ensures tasks == old(tasks)[|sent|..]
    {
      sent := [];
      while |sent| < |answers| && inited && tasks != []
        invariant |sent| <= |answers| && |sent| <= |old(tasks)|
        invariant !inited ==> sent == []
        invariant tasks == old(tasks)[|sent|..]
        invariant forall k :: 0 <= k < |sent| ==> sent[k] == Reply(old(tasks)[k], answers[k])
        decreases |answers| - |sent|
      {
        var task := tasks[0];
        tasks := tasks[1..];
        sent := sent + [Reply(task, answers[|sent|])];
      }
    }

    method Destroy()
      modifies this
      ensures !inited && tasks == []
    {
      inited := false;
      tasks := [];
    }
  }
}
