/** RequestFairQueue: a queue of client queues in turn, and a map from client ids to them. */
module FairQueues {
  import opened FairLines

  class ClientRequestQueue {
    const clientId: nat
    var pendings: seq<Request>

    constructor (clientId: nat)
      ensures this.clientId == clientId && pendings == []
    {
      this.clientId := clientId;
      pendings := [];
    }

    method Push(req: Request)
      requires req.client == clientId
      modifies this
      ensures pendings == old(pendings) + [req]
    {
      pendings := pendings + [req];
    }

    /** Takes the first request, and says whether that was the last. */
    method Pop() returns (req: Request, empty: bool)
      requires pendings != []
      modifies this
      ensures old(pendings) == [req] + pendings && empty == (pendings == [])
    {
      req := pendings[0];
      pendings := pendings[1..];
      empty := pendings == [];
    }
  }

  /** The line that client queues stand for. */
  ghost function LineOf(queues: seq<ClientRequestQueue>): (r: Line)
    reads set i | 0 <= i < |queues| :: queues[i]
    ensures |r| == |queues|
    ensures forall i :: 0 <= i < |queues| ==> r[i] == Client(queues[i].clientId, queues[i].pendings)
  {
    if queues == [] then [] else [Client(queues[0].clientId, queues[0].pendings)] + LineOf(queues[1..])
  }

  /** One queue for each client id, under that id. */
  ghost predicate Registered(queues: seq<ClientRequestQueue>, clients: map<nat, ClientRequestQueue>) {
    && (forall i, j :: 0 <= i < j < |queues| ==> queues[i].clientId != queues[j].clientId)
    && (forall i :: 0 <= i < |queues| ==> queues[i].clientId in clients && clients[queues[i].clientId] == queues[i])
    && (forall k :: k in clients ==> clients[k] in queues && clients[k].clientId == k)
  }

  lemma AddKeeps(queues: seq<ClientRequestQueue>, clients: map<nat, ClientRequestQueue>, q: ClientRequestQueue)
    requires Registered(queues, clients) && q.clientId !in clients
    ensures Registered(queues + [q], clients[q.clientId := q])
  {
  }

  lemma EraseKeeps(queues: seq<ClientRequestQueue>, clients: map<nat, ClientRequestQueue>)
    requires Registered(queues, clients) && queues != []
    ensures Registered(queues[1..], clients - {queues[0].clientId})
  {
    assert queues == [queues[0]] + queues[1..];
  }

  lemma RotateKeeps(queues: seq<ClientRequestQueue>, clients: map<nat, ClientRequestQueue>)
    requires Registered(queues, clients) && queues != []
    ensures Registered(queues[1..] + [queues[0]], clients)
  {
    var next := queues[1..] + [queues[0]];
    forall k | k in clients ensures clients[k] in next && clients[k].clientId == k {
      var i :| 0 <= i < |queues| && queues[i] == clients[k];
      assert next[if i == 0 then |queues| - 1 else i - 1] == queues[i];
    }
  }

  /** Pushing to a line whose client `i` is the pusher's. */
  lemma {:induction false} PushAt(line: Line, next: Line, i: nat, r: Request)
    requires i < |line| == |next| && line[i].id == r.client
    requires forall j :: 0 <= j < |line| && j != i ==> next[j] == line[j] && line[j].id != r.client
    requires next[i] == Client(line[i].id, line[i].pending + [r])
    ensures Push(line, r) == next
  {
    if i == 0 {
    } else {
      PushAt(line[1..], next[1..], i - 1, r);
    }
  }

  lemma Known(queues: seq<ClientRequestQueue>, clients: map<nat, ClientRequestQueue>, client: nat)
    requires Registered(queues, clients) && client in clients
    ensures clients[client] in queues && clients[client].clientId == client
    ensures forall j :: 0 <= j < |queues| && queues[j] != clients[client] ==> queues[j].clientId != client
    ensures forall i, j :: 0 <= i < j < |queues| ==> queues[i] != queues[j]
  {
  }

  lemma Unknown(queues: seq<ClientRequestQueue>, clients: map<nat, ClientRequestQueue>, client: nat)
    requires Registered(queues, clients) && client !in clients
    ensures forall j :: 0 <= j < |queues| ==> queues[j].clientId != client
  {
  }

  lemma NoClients(queues: seq<ClientRequestQueue>, clients: map<nat, ClientRequestQueue>)
    requires Registered(queues, clients)
    ensures clients == map[] <==> queues == []
  {
    if queues != [] { assert queues[0].clientId in clients; }
    if clients != map[] {
      var k :| k in clients;
      assert clients[k] in queues;
    }
  }

  lemma FrontOnce(queues: seq<ClientRequestQueue>, clients: map<nat, ClientRequestQueue>)
    requires Registered(queues, clients) && queues != []
    ensures forall j :: 0 < j < |queues| ==> queues[j] != queues[0]
  {
  }

  lemma ServeKeeps(queues: seq<ClientRequestQueue>, clients: map<nat, ClientRequestQueue>)
    requires Registered(queues, clients) && queues != []
    ensures forall j :: 0 < j < |queues| ==> queues[j] != queues[0]
    ensures Registered(queues[1..], clients - {queues[0].clientId})
    ensures Registered(queues[1..] + [queues[0]], clients)
  {
    FrontOnce(queues, clients);
    EraseKeeps(queues, clients);
    RotateKeeps(queues, clients);
    hide Registered;
  }

  lemma FrontWaits(line: Line)
    requires Orderly(line) && line != []
    ensures line[0].pending != []
  {
  }

  lemma PopFront(line: Line, req: Request, rest: seq<Request>)
    requires line != [] && line[0].pending == [req] + rest
    ensures FairLines.Pop(line).0 == Served(req)
    ensures FairLines.Pop(line).1 == if rest == [] then line[1..] else line[1..] + [Client(line[0].id, rest)]
  {
  }

  class RequestFairQueue {
    var clients: map<nat, ClientRequestQueue>
    var queues: seq<ClientRequestQueue>

    ghost function TheLine(): Line
      reads this`queues, set i | 0 <= i < |queues| :: queues[i]
    {
      LineOf(queues)
    }

    ghost predicate Valid()
      reads this, set i | 0 <= i < |queues| :: queues[i]
    {
      Registered(queues, clients) && Orderly(TheLine())
    }

    constructor ()
      ensures Valid() && TheLine() == []
    {
      clients := map[];
      queues := [];
    }

    /** A first request of a client: its queue goes to the end. */
    method AddClient(req: Request)
      requires Registered(queues, clients) && req.client !in clients
      modifies this
      ensures Registered(queues, clients)
      ensures TheLine() == old(TheLine()) + [Client(req.client, [req])]
    {
      hide Registered, LineOf;
      var clientQueue := new ClientRequestQueue(req.client);
      clientQueue.Push(req);
      AddKeeps(queues, clients, clientQueue);
      clients := clients[req.client := clientQueue];
      ghost var before := queues;
      queues := queues + [clientQueue];
      assert forall i :: 0 <= i < |before| ==> queues[i] == before[i] && queues[i].pendings == old(before[i].pendings);
      assert clientQueue.pendings == [req];
    }

    /** A further request of a client in line. */
    method PushKnown(req: Request)
      requires Registered(queues, clients) && req.client in clients
      modifies clients[req.client]
      ensures TheLine() == FairLines.Push(old(TheLine()), req)
    {
      Known(queues, clients, req.client);
      hide Registered, FairLines.Push, LineOf;
      ghost var was := TheLine();
      ghost var i :| 0 <= i < |queues| && queues[i] == clients[req.client];
      clients[req.client].Push(req);
      PushAt(was, TheLine(), i, req);
    }

    method Push(req: Request)
      requires Valid()
      modifies this, set i | 0 <= i < |queues| :: queues[i]
      ensures Valid() && TheLine() == FairLines.Push(old(TheLine()), req)
    {
      PushOrderly(TheLine(), req);
      PushMeans(TheLine(), req);
      hide Orderly, FairLines.Push, LineOf;
      if req.client !in clients {
        Unknown(queues, clients, req.client);
        hide Registered;
        AddClient(req);
        return;
      }
      PushKnown(req);
    }

    /** The client at the front leaves the line and gives its first request. */
    method TakeFront() returns (front: ClientRequestQueue, req: Request, empty: bool)
      requires queues != [] && queues[0].pendings != []
      requires forall j :: 0 < j < |queues| ==> queues[j] != queues[0]
      modifies this`queues, queues[0]
      ensures front == old(queues)[0] && queues == old(queues)[1..] && TheLine() == old(TheLine())[1..]
      ensures old(front.pendings) == [req] + front.pendings && empty == (front.pendings == [])
    {
      hide LineOf;
      front := queues[0];
      queues := queues[1..];
      req, empty := front.Pop();
    }

    /** It comes back at the end. */
    method BackInLine(front: ClientRequestQueue)
      modifies this`queues
      ensures queues == old(queues) + [front]
      ensures TheLine() == old(TheLine()) + [Client(front.clientId, front.pendings)]
    {
      hide LineOf;
      queues := queues + [front];
    }

    /** The front client is served, and comes back at the end unless that was its last request. */
    method Rotate(ghost line: Line) returns (front: ClientRequestQueue, req: Request, empty: bool)
      requires line == TheLine() && queues != [] && queues[0].pendings != []
      requires forall j :: 0 < j < |queues| ==> queues[j] != queues[0]
      requires Registered(queues[1..], clients - {queues[0].clientId})
      requires Registered(queues[1..] + [queues[0]], clients)
      modifies this`queues, queues[0]
      ensures Registered(queues, if empty then clients - {front.clientId} else clients)
      ensures FairLines.Pop(line) == (Served(req), TheLine())
    {
      hide LineOf, FairLines.Pop, Registered;
      front, req, empty := TakeFront();
      PopFront(line, req, front.pendings);
      if !empty {
        BackInLine(front);
      }
    }

    method Serve(ghost line: Line) returns (req: Request)
      requires line == TheLine() && Registered(queues, clients) && queues != [] && queues[0].pendings != []
      modifies this, queues[0]
      ensures Registered(queues, clients)
      ensures FairLines.Pop(line) == (Served(req), TheLine())
    {
      hide LineOf, Registered, FairLines.Pop;
      ServeKeeps(queues, clients);
      var front, first, empty := Rotate(line);
      req := first;
      if empty {
        Erase(front.clientId);
      }
    }

    method Erase(clientId: nat)
      modifies this`clients
      ensures clients == old(clients) - {clientId} && TheLine() == old(TheLine())
    {
      clients := clients - {clientId};
    }

    method Pop() returns (served: bool, req: Request)
      requires Valid()
      modifies this, set i | 0 <= i < |queues| :: queues[i]
      ensures Valid() && TheLine() == FairLines.Pop(old(TheLine())).1
      ensures served == FairLines.Pop(old(TheLine())).0.Served?
      ensures served ==> FairLines.Pop(old(TheLine())).0 == Served(req)
    {
      PopOrderly(TheLine());
      NoClients(queues, clients);
      if clients == map[] {
        return false, Request(0, 0);
      }
      FrontWaits(TheLine());
      hide LineOf, Registered, FairLines.Pop, Orderly;
      req := Serve(TheLine());
      served := true;
    }
  }
}
