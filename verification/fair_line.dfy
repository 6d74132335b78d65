/** The round-robin line of example-fq: clients in turn, each with its own requests in order. */
module FairLines {
  datatype Request = Request(id: nat, client: nat)

  datatype Client = Client(id: nat, pending: seq<Request>)

  type Line = seq<Client>

  datatype Event = Pushed(request: Request) | Popped

  datatype Served = Nothing | Served(request: Request)

  /** Distinct clients, each with something to serve, all of it its own. */
  ghost predicate Orderly(line: Line) {
    && (forall i, j :: 0 <= i < j < |line| ==> line[i].id != line[j].id)
    && forall i :: 0 <= i < |line| ==> Waiting(line[i])
  }

  ghost predicate Waiting(c: Client) {
    c.pending != [] && forall k :: 0 <= k < |c.pending| ==> c.pending[k].client == c.id
  }

  function Push(line: Line, r: Request): Line {
    if line == [] then [Client(r.client, [r])]
    else if line[0].id == r.client then [Client(line[0].id, line[0].pending + [r])] + line[1..]
    else [line[0]] + Push(line[1..], r)
  }

  function Pop(line: Line): (Served, Line) {
    if line == [] || line[0].pending == [] then (Nothing, line)
    else
      var c := line[0];
      var rest := c.pending[1..];
      (Served(c.pending[0]), if rest == [] then line[1..] else line[1..] + [Client(c.id, rest)])
  }

  function Do(line: Line, e: Event): Line {
    match e
    case Pushed(r) => Push(line, r)
    case Popped => Pop(line).1
  }

  function Run(line: Line, events: seq<Event>): Line
    decreases |events|
  {
    if events == [] then line else Run(Do(line, events[0]), events[1..])
  }

  /** The first client with this id. */
  predicate First(line: Line, id: nat, i: nat) {
    i < |line| && line[i].id == id && forall j :: 0 <= j < i ==> line[j].id != id
  }

  /** Push adds the request behind what its client has pending and leaves every other client as it
      is; a client not in line goes to the end with this one request. */
  lemma {:induction false} PushMeans(line: Line, r: Request)
    ensures var t := Push(line, r);
            if forall i :: 0 <= i < |line| ==> line[i].id != r.client then t == line + [Client(r.client, [r])]
            else |t| == |line|
    ensures forall i :: 0 <= i < |line| ==>
              && |Push(line, r)| > i
              && Push(line, r)[i] ==
                   if First(line, r.client, i) then Client(r.client, line[i].pending + [r]) else line[i]
  {
    if line == [] || line[0].id == r.client {
    } else {
      PushMeans(line[1..], r);
      assert forall i :: 0 < i < |line| ==> line[i] == line[1..][i - 1];
      forall i | 0 < i < |line| ensures First(line, r.client, i) <==> First(line[1..], r.client, i - 1) {
        FirstRest(line, r.client, i);
      }
      assert line == [line[0]] + line[1..];
    }
  }

  lemma FirstRest(line: Line, id: nat, i: nat)
    requires 0 < i < |line| && line[0].id != id
    ensures First(line, id, i) <==> First(line[1..], id, i - 1)
  {
    if First(line[1..], id, i - 1) {
      forall j | 0 <= j < i ensures line[j].id != id {
        if j > 0 { assert line[1..][j - 1] == line[j]; }
      }
    }
  }

  lemma {:induction false} PushOrderly(line: Line, r: Request)
    requires Orderly(line)
    ensures Orderly(Push(line, r))
    ensures forall x :: x in Push(line, r) ==> x.id == r.client || x in line
  {
    if line == [] || line[0].id == r.client {
    } else {
      PushOrderly(line[1..], r);
      var t := Push(line[1..], r);
      forall i | 0 <= i < |t| ensures t[i].id != line[0].id {
        assert t[i] in t;
      }
    }
  }

  lemma PopOrderly(line: Line)
    requires Orderly(line)
    ensures Orderly(Pop(line).1)
    ensures Pop(line).0.Nothing? <==> line == []
  {
  }

  lemma DoOrderly(line: Line, e: Event)
    requires Orderly(line)
    ensures Orderly(Do(line, e))
  {
    match e
    case Pushed(r) => PushOrderly(line, r);
    case Popped => PopOrderly(line);
  }

  lemma {:induction false} RunOrderly(line: Line, events: seq<Event>)
    requires Orderly(line)
    ensures Orderly(Run(line, events))
    decreases |events|
  {
    if events == [] {
    } else {
      hide Orderly, Do;
      DoOrderly(line, events[0]);
      RunOrderly(Do(line, events[0]), events[1..]);
    }
  }

  // ---- Exact bounded waiting ----

  function Pops(events: seq<Event>): nat {
    if events == [] then 0 else (if events[0].Popped? then 1 else 0) + Pops(events[1..])
  }

  /** A step leaves a client where it is, or moves it one place up, with nothing taken from it. */
  lemma StepPlace(line: Line, e: Event, i: nat)
    requires Orderly(line) && i < |line| && (e.Popped? ==> i > 0)
    ensures var k := if e.Popped? then i - 1 else i;
            k < |Do(line, e)| && Do(line, e)[k].id == line[i].id && line[i].pending <= Do(line, e)[k].pending
  {
    if e.Pushed? { PushMeans(line, e.request); }
  }

  /** A client at place `i` is first in line after `i` Pops, whatever is pushed in between, so the
      next Pop serves it, and what it serves is the first request it had. */
  lemma {:induction false} ServedNext(line: Line, events: seq<Event>, i: nat)
    requires Orderly(line) && i < |line| && Pops(events) == i
    ensures var t := Run(line, events);
            && t != [] && t[0].id == line[i].id && line[i].pending <= t[0].pending
            && Pop(t).0 == Served(line[i].pending[0])
    decreases |events|
  {
    RunOrderly(line, events);
    if events == [] {
    } else {
      var e := events[0];
      var k := if e.Popped? then i - 1 else i;
      assert e.Popped? ==> Pops(events) > 0;
      DoOrderly(line, e);
      StepPlace(line, e, i);
      ServedNext(Do(line, e), events[1..], k);
    }
  }

  // ---- Nothing lost, nothing twice, first in first out for each client ----

  function IfOf(r: Request, client: nat): seq<Request> {
    if r.client == client then [r] else []
  }

  /** The requests of one client. */
  function Of(requests: seq<Request>, client: nat): seq<Request> {
    if requests == [] then [] else IfOf(requests[0], client) + Of(requests[1..], client)
  }

  function PendingOf(line: Line, client: nat): seq<Request> {
    if line == [] then [] else if line[0].id == client then line[0].pending else PendingOf(line[1..], client)
  }

  function StepOut(line: Line, e: Event): seq<Request> {
    if e.Popped? && Pop(line).0.Served? then [Pop(line).0.request] else []
  }

  function StepIn(e: Event): seq<Request> {
    if e.Pushed? then [e.request] else []
  }

  function Arrivals(events: seq<Event>): seq<Request> {
    if events == [] then [] else StepIn(events[0]) + Arrivals(events[1..])
  }

  /** What the Pops of a run return. */
  function Departures(line: Line, events: seq<Event>): seq<Request>
    decreases |events|
  {
    if events == [] then []
    else StepOut(line, events[0]) + Departures(Do(line, events[0]), events[1..])
  }

  lemma {:induction false} PushPending(line: Line, r: Request, client: nat)
    ensures PendingOf(Push(line, r), client) == PendingOf(line, client) + if r.client == client then [r] else []
  {
    if line == [] || line[0].id == r.client {
    } else {
      PushPending(line[1..], r, client);
    }
  }

  lemma {:induction false} PendingLast(line: Line, c: Client)
    requires forall i :: 0 <= i < |line| ==> line[i].id != c.id
    ensures forall client :: client != c.id ==> PendingOf(line + [c], client) == PendingOf(line, client)
    ensures PendingOf(line + [c], c.id) == c.pending && PendingOf(line, c.id) == []
  {
    if line == [] {
    } else {
      PendingLast(line[1..], c);
      assert (line + [c])[1..] == line[1..] + [c];
    }
  }

  lemma PopPending(line: Line, client: nat)
    requires Orderly(line) && line != []
    ensures Pop(line).0.Served? && Pop(line).0.request.client == line[0].id
    ensures PendingOf(line, client) ==
            (if line[0].id == client then [Pop(line).0.request] else []) + PendingOf(Pop(line).1, client)
  {
    PendingLast(line[1..], Client(line[0].id, line[0].pending[1..]));
  }

  lemma OfStep(r: Request, rest: seq<Request>, client: nat)
    ensures Of([r] + rest, client) == IfOf(r, client) + Of(rest, client) && Of([], client) == []
  {
    assert ([r] + rest)[1..] == rest;
  }

  lemma {:induction false} OfJoin(a: seq<Request>, b: seq<Request>, client: nat)
    ensures Of(a + b, client) == Of(a, client) + Of(b, client)
    decreases |a|
  {
    if a == [] {
      assert a + b == b;
    } else {
      hide Of, IfOf;
      var r, t := a[0], a[1..];
      OfJoin(t, b, client);
      OfStep(r, t, client);
      OfStep(r, t + b, client);
      assert a == [r] + t && a + b == [r] + (t + b);
    }
  }

  /** Over any run, each client's requests leave in the order they came, none lost and none twice. */
  lemma {:induction false} FirstInFirstOut(line: Line, events: seq<Event>, client: nat)
    requires Orderly(line)
    ensures Of(Departures(line, events), client) + PendingOf(Run(line, events), client) ==
            PendingOf(line, client) + Of(Arrivals(events), client)
    decreases |events|
  {
    if events == [] {
    } else {
      var e, rest := events[0], events[1..];
      DoOrderly(line, e);
      FirstInFirstOut(Do(line, e), rest, client);
      StepPending(line, e, client);
      OfJoin(StepOut(line, e), Departures(Do(line, e), rest), client);
      OfJoin(StepIn(e), Arrivals(rest), client);
      hide Of, PendingOf, Do, StepOut, StepIn, Orderly;
      Balance(Of(StepOut(line, e), client), Of(Departures(Do(line, e), rest), client),
              PendingOf(Run(line, events), client), PendingOf(Do(line, e), client),
              PendingOf(line, client), Of(StepIn(e), client), Of(Arrivals(rest), client));
    }
  }

  lemma StepPending(line: Line, e: Event, client: nat)
    requires Orderly(line)
    ensures Of(StepOut(line, e), client) + PendingOf(Do(line, e), client) ==
            PendingOf(line, client) + Of(StepIn(e), client)
  {
    if e.Pushed? {
      PushPending(line, e.request, client);
    } else if line != [] {
      PopPending(line, client);
    }
  }

  lemma Balance(a: seq<Request>, d: seq<Request>, end: seq<Request>, next: seq<Request>,
                start: seq<Request>, i: seq<Request>, r: seq<Request>)
    requires d + end == next + r && a + next == start + i
    ensures (a + d) + end == start + (i + r)
  {
    assert (a + d) + end == a + (d + end);
    assert (a + next) + r == a + (next + r);
  }
}
