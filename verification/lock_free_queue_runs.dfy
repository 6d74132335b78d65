/** Whole runs of LockFreeQueue: memory safety, linearizability, and bounded operations. */
module LockFreeQueueRuns {
  import opened LockFreeQueues

  ghost predicate IsRun(s: State, run: seq<Action>)
    decreases |run|
  {
    run == [] || (Enabled(s, run[0]) && IsRun(Do(s, run[0]), run[1..]))
  }

  ghost function After(s: State, run: seq<Action>): State
    requires IsRun(s, run)
    decreases |run|
  {
    if run == [] then s else After(Do(s, run[0]), run[1..])
  }

  ghost function ChainAfter(s: State, run: seq<Action>, chain: seq<Ptr>): seq<Ptr>
    requires IsRun(s, run) && Inv(s, chain)
    decreases |run|
  {
    if run == [] then chain
    else
      StepKeeps(s, run[0], chain);
      ChainAfter(Do(s, run[0]), run[1..], NextChain(s, run[0], chain))
  }

  lemma {:induction false} RunKeeps(s: State, run: seq<Action>, chain: seq<Ptr>)
    requires IsRun(s, run) && Inv(s, chain)
    ensures Inv(After(s, run), ChainAfter(s, run, chain))
    decreases |run|
  {
    hide Inv, Do, Enabled, NextChain;
    if run == [] {
    } else {
      StepKeeps(s, run[0], chain);
      RunKeeps(Do(s, run[0]), run[1..], NextChain(s, run[0], chain));
    }
  }

  ghost function Nodes(chain: seq<Ptr>): set<Ptr> {
    set x | x in chain
  }

  /** In every interleaving, from a new queue: no freed node is read, written or freed again, even
      when its address has been handed out since; null_tail stays null, tail_ is the last node or the
      one linked before it (which the consumer may already have freed), and the allocated memory is
      the list, the node the producer has not linked yet and the node the consumer has not freed yet. */
  lemma MemorySafe(sentinel: nat, value: int, run: seq<Action>)
    requires sentinel != NULL.addr && IsRun(Init(sentinel, value), run)
    ensures var t := After(Init(sentinel, value), run);
            && !t.fault && t.nullTail == NULL
            && (forall p, q :: p in t.heap && q in t.heap && Same(p, q) ==> p == q)
            && exists chain ::
                 && IsChain(t.heap, chain) && t.head == chain[0]
                 && t.heap.Keys == Nodes(chain) + Unlinked(t) + Retired(t)
                 && |t.heap| == |chain| + |Unlinked(t)| + |Retired(t)|
                 && TailClose(t, chain)
  {
    InitInv(sentinel, value);
    RunKeeps(Init(sentinel, value), run, [Ptr(sentinel, 0)]);
    var t := After(Init(sentinel, value), run);
    var chain := ChainAfter(Init(sentinel, value), run, [Ptr(sentinel, 0)]);
    hide Init, After, ChainAfter, IsRun;
    MemoryExact(t, chain);
  }

  /** Once freed, a node is never allocated again: `fault` catches every use of a stale pointer. */
  lemma {:induction false} FreedForGood(s: State, run: seq<Action>, p: Ptr)
    requires IsRun(s, run) && p.serial < s.born && p !in s.heap
    ensures p !in After(s, run).heap
    decreases |run|
  {
    if run == [] {
    } else {
      FreedStays(s, run[0], p);
      hide Do, Enabled;
      FreedForGood(Do(s, run[0]), run[1..], p);
    }
  }

  lemma FreedStays(s: State, a: Action, p: Ptr)
    requires Enabled(s, a) && p.serial < s.born && p !in s.heap
    ensures p !in Do(s, a).heap && p.serial < Do(s, a).born
  {
  }

  ghost predicate TailClose(s: State, chain: seq<Ptr>)
    requires chain != []
  {
    if s.producer.Swinging? then
      && s.tail == s.producer.oldTail && s.producer.node == chain[|chain| - 1]
      && (|chain| > 1 ==> s.tail == chain[|chain| - 2])
    else
      s.tail == chain[|chain| - 1]
  }

  lemma MemoryExact(s: State, chain: seq<Ptr>)
    requires Inv(s, chain)
    ensures HeapOk(s) && !s.fault && s.nullTail == NULL && IsChain(s.heap, chain) && s.head == chain[0]
    ensures s.heap.Keys == Nodes(chain) + Unlinked(s) + Retired(s)
    ensures |s.heap| == |chain| + |Unlinked(s)| + |Retired(s)|
    ensures TailClose(s, chain)
  {
    hide Values, ValuesOk, ConsumerOk, IsChain;
    ChainOfMemory(s, chain);
    ChainSize(s.heap, chain);
    var nodes := Nodes(chain);
    assert s.heap.Keys == nodes + Unlinked(s) + Retired(s);
    hide Unlinked, Retired;
    Sizes(s.heap, nodes, Unlinked(s), Retired(s));
  }

  lemma ChainSize(heap: map<Ptr, Node>, chain: seq<Ptr>)
    requires IsChain(heap, chain)
    ensures |Nodes(chain)| == |chain|
  {
    DistinctSize(chain);
  }

  lemma Sizes(heap: map<Ptr, Node>, a: set<Ptr>, b: set<Ptr>, c: set<Ptr>)
    requires heap.Keys == a + b + c && a !! b && a !! c && b !! c
    ensures |heap| == |a| + |b| + |c|
  {
    assert |a + b| == |a| + |b|;
    assert |(a + b) + c| == |a + b| + |c|;
    assert |heap| == |heap.Keys|;
  }

  lemma {:induction false} DistinctSize(chain: seq<Ptr>)
    requires forall i, j :: 0 <= i < j < |chain| ==> chain[i] != chain[j]
    ensures |Nodes(chain)| == |chain|
    decreases |chain|
  {
    if chain != [] {
      var n := |chain| - 1;
      DistinctSize(chain[..n]);
      assert Nodes(chain) == Nodes(chain[..n]) + {chain[n]};
      assert chain[n] !in Nodes(chain[..n]);
    } else {
      assert Nodes(chain) == {};
    }
  }

  // ---- Linearizability ----

  /** The operations of a plain first-in first-out queue. */
  datatype Op = Enq(value: int) | Ans(answer: Answer)

  /** What a step does to the plain queue: nothing, or one whole operation. */
  ghost function Effect(s: State, a: Action): seq<Op>
    requires Enabled(s, a)
  {
    match a
    case Link(spurious) =>
      if spurious || s.producer.node !in s.heap then [] else [Enq(s.heap[s.producer.node].value)]
    case ReadNext =>
      if s.consumer.oldHead in s.heap && Same(s.heap[s.consumer.oldHead].next, NULL) then [Ans(Nothing)] else []
    case MoveHead =>
      [Ans(Got(s.consumer.value))]
    case ReadEmpty =>
      if s.consumer.oldHead in s.heap then [Ans(Empty(Same(s.heap[s.consumer.oldHead].next, NULL)))] else []
    case _ => []
  }

  ghost function History(s: State, run: seq<Action>): seq<Op>
    requires IsRun(s, run)
    decreases |run|
  {
    if run == [] then [] else Effect(s, run[0]) + History(Do(s, run[0]), run[1..])
  }

  /** The plain queue gives this answer. */
  ghost predicate Allowed(q: seq<int>, op: Op) {
    match op
    case Enq(_) => true
    case Ans(Got(value)) => q != [] && q[0] == value
    case Ans(Nothing) => q == []
    case Ans(Empty(empty)) => empty == (q == [])
  }

  ghost function Perform(q: seq<int>, op: Op): seq<int>
    requires Allowed(q, op)
  {
    match op
    case Enq(value) => q + [value]
    case Ans(Got(_)) => q[1..]
    case _ => q
  }

  /** The operations, with their answers, take the plain queue from `q` to `r`. */
  ghost predicate Legal(q: seq<int>, ops: seq<Op>, r: seq<int>)
    decreases |ops|
  {
    if ops == [] then q == r else Allowed(q, ops[0]) && Legal(Perform(q, ops[0]), ops[1..], r)
  }

  ghost predicate Acts(q: seq<int>, ops: seq<Op>, r: seq<int>) {
    if ops == [] then q == r else |ops| == 1 && Allowed(q, ops[0]) && Perform(q, ops[0]) == r
  }

  lemma LinkActs(s: State, a: Action, chain: seq<Ptr>)
    requires Inv(s, chain) && Enabled(s, a) && a.Link? && IsChain(Do(s, a).heap, NextChain(s, a, chain))
    ensures Acts(Values(s.heap, chain), Effect(s, a), Values(Do(s, a).heap, NextChain(s, a, chain)))
  {
    hide Values, ValuesOk, ConsumerOk;
    if !a.spurious { LinkChain(s.heap, chain, s.producer.node); }
  }

  lemma MoveHeadActs(s: State, a: Action, chain: seq<Ptr>)
    requires Inv(s, chain) && Enabled(s, a) && a.MoveHead? && IsChain(Do(s, a).heap, chain[1..])
    ensures Acts(Values(s.heap, chain), Effect(s, a), Values(Do(s, a).heap, chain[1..]))
  {
    hide ValuesOk, ProducerOk, Values;
    HeadChain(s.heap, chain);
    assert s.consumer.value == s.heap[chain[1]].value;
    hide Inv, IsChain;
  }

  lemma ReadActs(s: State, a: Action, chain: seq<Ptr>)
    requires Inv(s, chain) && Enabled(s, a) && (a.ReadNext? || a.ReadEmpty?) && IsChain(Do(s, a).heap, chain)
    ensures Acts(Values(s.heap, chain), Effect(s, a), Values(Do(s, a).heap, chain))
  {
    hide ValuesOk, ProducerOk, Values;
    assert s.consumer.oldHead == chain[0] && chain[0] in s.heap;
    if |chain| > 1 { assert s.heap[chain[0]].next == chain[1]; }
    hide Inv, IsChain;
  }

  lemma OtherActs(s: State, a: Action, chain: seq<Ptr>)
    requires Inv(s, chain) && Enabled(s, a) && !(a.Link? || a.MoveHead? || a.ReadNext? || a.ReadEmpty?)
    requires IsChain(Do(s, a).heap, chain)
    ensures Effect(s, a) == [] && Values(s.heap, chain) == Values(Do(s, a).heap, chain)
  {
    hide ValuesOk, ProducerOk, Values, Effect;
    if a.Free? { FreeMemory(s, a, chain); }
    else if a.Enqueue? { SameValues(s.heap, Do(s, a).heap, chain); }
    EffectNone(s, a);
  }

  lemma EffectNone(s: State, a: Action)
    requires Enabled(s, a) && !(a.Link? || a.MoveHead? || a.ReadNext? || a.ReadEmpty?)
    ensures Effect(s, a) == []
  {
  }

  /** One step is one operation of the plain queue, or none. */
  lemma StepActs(s: State, a: Action, chain: seq<Ptr>)
    requires chain != [] && Inv(s, chain) && Enabled(s, a) && IsChain(Do(s, a).heap, NextChain(s, a, chain))
    ensures Acts(Values(s.heap, chain), Effect(s, a), Values(Do(s, a).heap, NextChain(s, a, chain)))
  {
    hide Inv, Values, IsChain, Do, Effect, Enabled;
    if a.Link? { LinkActs(s, a, chain); }
    else if a.MoveHead? { MoveHeadActs(s, a, chain); }
    else if a.ReadNext? || a.ReadEmpty? { ReadActs(s, a, chain); }
    else { OtherActs(s, a, chain); }
  }

  /** Every run is a legal history of a plain queue, with each operation at one of its own steps. */
  lemma {:induction false} RunLegal(s: State, run: seq<Action>, chain: seq<Ptr>)
    requires IsRun(s, run) && Inv(s, chain) && Inv(After(s, run), ChainAfter(s, run, chain))
    ensures Legal(Values(s.heap, chain), History(s, run), Values(After(s, run).heap, ChainAfter(s, run, chain)))
    decreases |run|
  {
    hide Do, Enabled, NextChain, Values, Effect;
    if run == [] {
    } else {
      var a := run[0];
      StepKeeps(s, a, chain);
      ChainSome(s, chain);
      StepActs(s, a, chain);
      RunLegal(Do(s, a), run[1..], NextChain(s, a, chain));
      LegalStep(Values(s.heap, chain), Effect(s, a), Values(Do(s, a).heap, NextChain(s, a, chain)),
                History(Do(s, a), run[1..]), Values(After(s, run).heap, ChainAfter(s, run, chain)));
    }
  }

  lemma LegalStep(q: seq<int>, ops: seq<Op>, r: seq<int>, rest: seq<Op>, end: seq<int>)
    requires Acts(q, ops, r) && Legal(r, rest, end)
    ensures Legal(q, ops + rest, end)
  {
    if ops == [] {
      assert ops + rest == rest;
    } else {
      assert (ops + rest)[1..] == rest;
    }
  }

  lemma ChainSome(s: State, chain: seq<Ptr>)
    requires Inv(s, chain)
    ensures chain != []
  {
  }

  ghost function Enqs(ops: seq<Op>): seq<int> {
    if ops == [] then [] else (if ops[0].Enq? then [ops[0].value] else []) + Enqs(ops[1..])
  }

  ghost function Answers(ops: seq<Op>): seq<Answer> {
    if ops == [] then [] else (if ops[0].Ans? then [ops[0].answer] else []) + Answers(ops[1..])
  }

  /** The answer decided by MoveHead and not returned yet. */
  ghost function Deciding(s: State): seq<Answer> {
    if s.consumer.Freeing? then [Got(s.consumer.value)] else []
  }

  lemma StepSees(s: State, a: Action, chain: seq<Ptr>)
    requires Inv(s, chain) && Enabled(s, a)
    ensures Do(s, a).answers + Deciding(Do(s, a)) == s.answers + Deciding(s) + Answers(Effect(s, a))
  {
    StepSafe(s, a, chain);
    assert !s.fault;
    hide Inv, Do, Enabled, Effect, Deciding, Answers;
    if a.Enqueue? || a.LoadTail? || a.Link? || a.Swing? {
      ProducerSees(s, a);
    } else {
      ConsumerSees(s, a);
    }
  }

  lemma ProducerSees(s: State, a: Action)
    requires Enabled(s, a) && (a.Enqueue? || a.LoadTail? || a.Link? || a.Swing?)
    ensures Do(s, a).answers + Deciding(Do(s, a)) == s.answers + Deciding(s) + Answers(Effect(s, a))
  {
    assert forall op: Op :: [op][1..] == [];
  }

  lemma ConsumerSees(s: State, a: Action)
    requires Enabled(s, a) && !(a.Enqueue? || a.LoadTail? || a.Link? || a.Swing?)
    requires !s.fault && !Do(s, a).fault
    ensures Do(s, a).answers + Deciding(Do(s, a)) == s.answers + Deciding(s) + Answers(Effect(s, a))
  {
    assert forall op: Op :: [op][1..] == [];
  }

  ghost function Unsent(s: State): nat {
    if s.producer.Loading? || s.producer.Linking? then 1 else 0
  }

  /** The calls so far whose operation has taken place. */
  ghost function Entered(s: State): seq<int> {
    if Unsent(s) <= |s.sent| then s.sent[..|s.sent| - Unsent(s)] else []
  }

  /** The value in the node not linked yet is the last one sent. */
  lemma LastSent(s: State, chain: seq<Ptr>)
    requires Inv(s, chain) && (s.producer.Loading? || s.producer.Linking?)
    ensures s.producer.node in s.heap && s.sent != [] && s.sent[|s.sent| - 1] == s.heap[s.producer.node].value
  {
    hide Values, ConsumerOk, IsChain, Taken;
  }

  lemma EnqueueSends(s: State, a: Action)
    requires Enabled(s, a) && a.Enqueue?
    ensures Entered(Do(s, a)) == Entered(s)
  {
    SentMore(s.sent, a.value);
  }

  lemma LinkSends(s: State, a: Action, chain: seq<Ptr>)
    requires Inv(s, chain) && Enabled(s, a) && a.Link? && !a.spurious
    ensures Entered(Do(s, a)) == Entered(s) + Enqs(Effect(s, a))
  {
    LastSent(s, chain);
    LinkWorks(s, a, chain);
    hide Inv, Enqs;
    SentLess(s.sent);
    assert Entered(Do(s, a)) == s.sent;
  }

  lemma OtherSends(s: State, a: Action)
    requires Enabled(s, a) && !a.Enqueue? && !(a.Link? && !a.spurious)
    ensures Entered(Do(s, a)) == Entered(s) && Enqs(Effect(s, a)) == []
  {
  }

  lemma StepSends(s: State, a: Action, chain: seq<Ptr>)
    requires Inv(s, chain) && Enabled(s, a)
    ensures Entered(Do(s, a)) == Entered(s) + Enqs(Effect(s, a))
  {
    hide Inv, Do, Enabled, Entered, Effect;
    if a.Enqueue? {
      EnqueueSends(s, a);
      EffectNone(s, a);
    } else if a.Link? && !a.spurious {
      LinkSends(s, a, chain);
    } else {
      OtherSends(s, a);
    }
  }

  lemma SentMore(sent: seq<int>, value: int)
    ensures (sent + [value])[..|sent| + 1 - 1] == sent && sent[..|sent| - 0] == sent && sent + [] == sent
  {
  }

  lemma SentLess(sent: seq<int>)
    ensures Enqs([]) == []
    ensures sent != [] ==> sent[..|sent| - 1] + Enqs([Enq(sent[|sent| - 1])]) == sent
  {
    assert forall v: int :: [Enq(v)][1..] == [];
  }

  /** With one producer, only a spurious failure keeps a node from being linked. */
  lemma LinkWorks(s: State, a: Action, chain: seq<Ptr>)
    requires Inv(s, chain) && Enabled(s, a) && a.Link? && !a.spurious
    ensures Do(s, a).producer == Swinging(s.producer.node, s.producer.oldTail)
  {
  }

  /** Linearizability. From a new queue, every run's answers are those of a plain queue that does
      one whole operation at a step inside each call, enqueues taking place in call order; an
      enqueue or a dequeue that has returned has taken place. */
  lemma Linearizable(sentinel: nat, value: int, run: seq<Action>)
    requires sentinel != NULL.addr && IsRun(Init(sentinel, value), run)
    ensures var t, h := After(Init(sentinel, value), run), History(Init(sentinel, value), run);
            && (exists q :: Legal([], h, q))
            && Answers(h) == t.answers + Deciding(t)
            && Enqs(h) == Entered(t)
  {
    var s := Init(sentinel, value);
    InitInv(sentinel, value);
    RunKeeps(s, run, [Ptr(sentinel, 0)]);
    RunLegal(s, run, [Ptr(sentinel, 0)]);
    RunSees(s, run, [Ptr(sentinel, 0)]);
  }

  lemma {:induction false} RunSees(s: State, run: seq<Action>, chain: seq<Ptr>)
    requires IsRun(s, run) && Inv(s, chain)
    ensures var t, h := After(s, run), History(s, run);
            && t.answers + Deciding(t) == s.answers + Deciding(s) + Answers(h)
            && Entered(t) == Entered(s) + Enqs(h)
    decreases |run|
  {
    hide Inv, Do, Enabled, NextChain, Effect, Entered, Deciding;
    if run == [] {
    } else {
      var a := run[0];
      StepKeeps(s, a, chain);
      StepSees(s, a, chain);
      StepSends(s, a, chain);
      RunSees(Do(s, a), run[1..], NextChain(s, a, chain));
      OpsJoin(Effect(s, a), History(Do(s, a), run[1..]));
    }
  }

  lemma OpsJoin(a: seq<Op>, b: seq<Op>)
    ensures Enqs(a + b) == Enqs(a) + Enqs(b) && Answers(a + b) == Answers(a) + Answers(b)
  {
    EnqsJoin(a, b);
    AnswersJoin(a, b);
  }

  lemma EnqsStep(op: Op, rest: seq<Op>)
    ensures Enqs([op] + rest) == (if op.Enq? then [op.value] else []) + Enqs(rest)
  {
    assert ([op] + rest)[1..] == rest;
  }

  lemma AnswersStep(op: Op, rest: seq<Op>)
    ensures Answers([op] + rest) == (if op.Ans? then [op.answer] else []) + Answers(rest)
  {
    assert ([op] + rest)[1..] == rest;
  }

  lemma {:induction false} EnqsJoin(a: seq<Op>, b: seq<Op>)
    ensures Enqs(a + b) == Enqs(a) + Enqs(b)
    decreases |a|
  {
    if a == [] {
      assert a + b == b;
    } else {
      EnqsJoin(a[1..], b);
      EnqsStep(a[0], a[1..]);
      EnqsStep(a[0], a[1..] + b);
      hide Enqs;
      assert a == [a[0]] + a[1..] && a + b == [a[0]] + (a[1..] + b);
    }
  }

  lemma {:induction false} AnswersJoin(a: seq<Op>, b: seq<Op>)
    ensures Answers(a + b) == Answers(a) + Answers(b)
    decreases |a|
  {
    if a == [] {
      assert a + b == b;
    } else {
      AnswersJoin(a[1..], b);
      AnswersStep(a[0], a[1..]);
      AnswersStep(a[0], a[1..] + b);
      hide Answers;
      assert a == [a[0]] + a[1..] && a + b == [a[0]] + (a[1..] + b);
    }
  }

  /** The history of a run only grows: what has taken place stays where it is. */
  lemma {:induction false} HistoryGrows(s: State, run: seq<Action>, more: seq<Action>)
    requires IsRun(s, run) && IsRun(After(s, run), more)
    ensures IsRun(s, run + more)
    ensures After(s, run + more) == After(After(s, run), more)
    ensures History(s, run + more) == History(s, run) + History(After(s, run), more)
    decreases |run|
  {
    hide Do, Enabled, Effect;
    if run == [] {
      assert run + more == more;
    } else {
      HistoryGrows(Do(s, run[0]), run[1..], more);
      assert (run + more)[1..] == run[1..] + more;
    }
  }

  // ---- Real-time order ----

  /** The operations of one thread in a history. */
  ghost function Count(h: seq<Op>, enq: bool): nat {
    if enq then |Enqs(h)| else |Answers(h)|
  }

  /** Where in a history the i-th operation of a thread stands. */
  ghost function Position(h: seq<Op>, enq: bool, i: nat): (k: nat)
    requires i < Count(h, enq)
    ensures k < |h| && h[k].Enq? == enq
    decreases |h|
  {
    if h[0].Enq? == enq then (if i == 0 then 0 else 1 + Position(h[1..], enq, i - 1))
    else 1 + Position(h[1..], enq, i)
  }

  lemma {:induction false} PositionMeans(h: seq<Op>, enq: bool, i: nat)
    requires i < Count(h, enq)
    ensures h[Position(h, enq, i)] == if enq then Enq(Enqs(h)[i]) else Ans(Answers(h)[i])
    ensures Count(h[..Position(h, enq, i)], enq) == i
    decreases |h|
  {
    var k := Position(h, enq, i);
    if h[0].Enq? == enq && i == 0 {
    } else {
      PositionMeans(h[1..], enq, if h[0].Enq? == enq then i - 1 else i);
      assert h[..k][1..] == h[1..][..k - 1];
    }
  }

  /** What stands in the first part of a history stands before what does not. */
  lemma PositionSplit(a: seq<Op>, b: seq<Op>, enq: bool, i: nat)
    requires i < Count(a + b, enq)
    ensures Position(a + b, enq, i) < |a| <==> i < Count(a, enq)
  {
    PositionMeans(a + b, enq, i);
    var k := Position(a + b, enq, i);
    hide Position;
    OpsJoin(a, b);
    if k < |a| {
      assert a == (a + b)[..k] + a[k..];
      OpsJoin((a + b)[..k], a[k..]);
      assert a[k].Enq? == enq;
      assert Count(a[k..], enq) > 0;
    } else {
      assert (a + b)[..k] == a + b[..k - |a|];
      OpsJoin(a, b[..k - |a|]);
    }
  }

  /** The enqueue calls that have returned in a run, and the calls the consumer has made. */
  function Returned(run: seq<Action>): nat {
    if run == [] then 0 else (if run[0].Swing? then 1 else 0) + Returned(run[1..])
  }

  function Asked(run: seq<Action>): nat {
    if run == [] then 0 else (if run[0].Dequeue? || run[0].CallEmpty? then 1 else 0) + Asked(run[1..])
  }

  lemma StepCounts(s: State, a: Action, chain: seq<Ptr>)
    requires Inv(s, chain) && Enabled(s, a)
    ensures var t := Do(s, a);
            && |t.sent| - UnderWay(t) == |s.sent| - UnderWay(s) + Returned([a])
            && |t.answers| + Busy(t) == |s.answers| + Busy(s) + Asked([a])
  {
    if a.Link? && !a.spurious { LinkWorks(s, a, chain); }
    StepSafe(s, a, chain);
    assert !s.fault;
    hide Inv, Do, Enabled, UnderWay, Busy, Returned, Asked;
    if a.Enqueue? || a.LoadTail? || a.Link? || a.Swing? {
      ProducerCounts(s, a);
    } else {
      ConsumerCounts(s, a);
    }
  }

  lemma ProducerCounts(s: State, a: Action)
    requires Enabled(s, a) && (a.Enqueue? || a.LoadTail? || a.Link? || a.Swing?)
    requires !s.fault && !Do(s, a).fault
    ensures var t := Do(s, a);
            && |t.sent| - UnderWay(t) == |s.sent| - UnderWay(s) + Returned([a])
            && |t.answers| + Busy(t) == |s.answers| + Busy(s) + Asked([a])
  {
    assert [a][1..] == [];
  }

  lemma ConsumerCounts(s: State, a: Action)
    requires Enabled(s, a) && !(a.Enqueue? || a.LoadTail? || a.Link? || a.Swing?)
    requires !s.fault && !Do(s, a).fault
    ensures var t := Do(s, a);
            && |t.sent| - UnderWay(t) == |s.sent| - UnderWay(s) + Returned([a])
            && |t.answers| + Busy(t) == |s.answers| + Busy(s) + Asked([a])
  {
    assert [a][1..] == [];
  }

  ghost function UnderWay(s: State): nat {
    if s.producer.Resting? then 0 else 1
  }

  ghost function Busy(s: State): nat {
    if s.consumer.Idle? then 0 else 1
  }

  lemma {:induction false} RunCounts(s: State, run: seq<Action>, chain: seq<Ptr>)
    requires IsRun(s, run) && Inv(s, chain)
    ensures var t := After(s, run);
            && |t.sent| - UnderWay(t) == |s.sent| - UnderWay(s) + Returned(run)
            && |t.answers| + Busy(t) == |s.answers| + Busy(s) + Asked(run)
    decreases |run|
  {
    hide Inv, Do, Enabled, NextChain, UnderWay, Busy;
    if run == [] {
    } else {
      StepKeeps(s, run[0], chain);
      StepCounts(s, run[0], chain);
      RunCounts(Do(s, run[0]), run[1..], NextChain(s, run[0], chain));
      assert [run[0]][1..] == [];
    }
  }

  /** After any run, what stands in the history are the calls that have returned, and at most the
      one call each thread is in. */
  lemma CallsInHistory(sentinel: nat, value: int, run: seq<Action>)
    requires sentinel != NULL.addr && IsRun(Init(sentinel, value), run)
    ensures var t, h := After(Init(sentinel, value), run), History(Init(sentinel, value), run);
            && Returned(run) <= Count(h, true) <= |t.sent|
            && |t.answers| <= Count(h, false) <= Asked(run)
  {
    var s := Init(sentinel, value);
    var chain := [Ptr(sentinel, 0)];
    InitInv(sentinel, value);
    RunCounts(s, run, chain);
    hide IsRun, After, History, Returned, Asked;
    Linearizable(sentinel, value, run);
    hide Legal, Enqs, Answers;
  }

  /** Real-time order: of two calls by different threads, the one that has returned before the other
      is made comes first in the history. */
  lemma RealTimeOrder(sentinel: nat, value: int, run: seq<Action>, more: seq<Action>, i: nat, j: nat)
    requires sentinel != NULL.addr
    requires IsRun(Init(sentinel, value), run) && IsRun(After(Init(sentinel, value), run), more)
    ensures IsRun(Init(sentinel, value), run + more)
    ensures var t, h := After(Init(sentinel, value), run), History(Init(sentinel, value), run + more);
            && (i < Returned(run) && Asked(run) <= j < Count(h, false) ==>
                  i < Count(h, true) && Position(h, true, i) < Position(h, false, j))
            && (j < |t.answers| && |t.sent| <= i < Count(h, true) ==>
                  j < Count(h, false) && Position(h, false, j) < Position(h, true, i))
  {
    var s := Init(sentinel, value);
    HistoryGrows(s, run, more);
    CallsInHistory(sentinel, value, run);
    var t, a, b := After(s, run), History(s, run), History(After(s, run), more);
    hide IsRun, After, History, Returned, Asked, Position;
    OpsJoin(a, b);
    if i < Count(a + b, true) { PositionSplit(a, b, true, i); }
    if j < Count(a + b, false) { PositionSplit(a, b, false, j); }
    hide Enqs, Answers;
  }

  /** First in, first out: what has been dequeued is a prefix of what has been enqueued. */
  lemma TakenIsPrefix(sentinel: nat, value: int, run: seq<Action>)
    requires sentinel != NULL.addr && IsRun(Init(sentinel, value), run)
    ensures var t := After(Init(sentinel, value), run); Taken(t.answers) <= t.sent
  {
    InitInv(sentinel, value);
    RunKeeps(Init(sentinel, value), run, [Ptr(sentinel, 0)]);
  }

  // ---- No operation waits ----

  /** The steps left in the calls under way. */
  function Left(s: State): nat {
    (match s.producer
     case Resting => 0
     case Loading(_) => 3
     case Linking(_, _) => 2
     case Swinging(_, _) => 1) +
    (match s.consumer
     case Idle => 0
     case Holding(_) => 4
     case Reading(_, _) => 3
     case Moving(_, _, _) => 2
     case Freeing(_, _) => 1
     case Peeking(_) => 1)
  }

  /** The steps that the calls of a run may take: 4 for enqueue and 2 more for each spurious failure
      in it, 5 for dequeue, 2 for empty. */
  function Budget(run: seq<Action>): nat {
    if run == [] then 0
    else
      (match run[0]
       case Enqueue(_, _) => 4
       case Link(spurious) => if spurious then 2 else 0
       case Dequeue => 5
       case CallEmpty => 2
       case _ => 0) + Budget(run[1..])
  }

  lemma StepSpends(s: State, a: Action, chain: seq<Ptr>)
    requires Inv(s, chain) && Enabled(s, a)
    ensures 1 + Left(Do(s, a)) <= Left(s) + Budget([a])
  {
    if a.Link? && !a.spurious { LinkWorks(s, a, chain); }
    StepSafe(s, a, chain);
    assert !s.fault;
    hide Inv, Do, Enabled, Left, Budget;
    if a.Enqueue? || a.LoadTail? || a.Link? || a.Swing? {
      ProducerSpends(s, a);
    } else {
      ConsumerSpends(s, a);
    }
  }

  lemma ProducerSpends(s: State, a: Action)
    requires Enabled(s, a) && (a.Enqueue? || a.LoadTail? || a.Link? || a.Swing?)
    requires !s.fault && !Do(s, a).fault && (a.Link? && !a.spurious ==> Do(s, a).producer.Swinging?)
    ensures 1 + Left(Do(s, a)) <= Left(s) + Budget([a])
  {
    assert [a][1..] == [];
  }

  lemma ConsumerSpends(s: State, a: Action)
    requires Enabled(s, a) && !(a.Enqueue? || a.LoadTail? || a.Link? || a.Swing?)
    requires !s.fault && !Do(s, a).fault
    ensures 1 + Left(Do(s, a)) <= Left(s) + Budget([a])
  {
    assert [a][1..] == [];
  }

  lemma StepSafe(s: State, a: Action, chain: seq<Ptr>)
    requires Inv(s, chain) && Enabled(s, a)
    ensures !Do(s, a).fault
  {
    StepKeeps(s, a, chain);
  }

  /** Every call ends after its own few steps: no step waits for the other thread. */
  lemma {:induction false} CallsEnd(s: State, run: seq<Action>, chain: seq<Ptr>)
    requires IsRun(s, run) && Inv(s, chain)
    ensures |run| + Left(After(s, run)) <= Left(s) + Budget(run)
    decreases |run|
  {
    hide Inv, Do, Enabled, NextChain, Left;
    if run == [] {
    } else {
      StepKeeps(s, run[0], chain);
      StepSpends(s, run[0], chain);
      CallsEnd(Do(s, run[0]), run[1..], NextChain(s, run[0], chain));
      assert Budget(run) == Budget([run[0]]) + Budget(run[1..]);
    }
  }

  /** A step that begins a call. */
  predicate Starts(a: Action) {
    a.Enqueue? || a.Dequeue? || a.CallEmpty?
  }

  /** A thread inside a call always has a step to take. */
  lemma NeverStuck(s: State)
    requires forall a :: Enabled(s, a) ==> Starts(a)
    ensures s.producer.Resting? && s.consumer.Idle?
  {
    assert !Starts(LoadTail) && !Starts(Link(false)) && !Starts(Swing);
    assert !Starts(ReadNext) && !Starts(ReadValue) && !Starts(MoveHead) && !Starts(Free) && !Starts(ReadEmpty);
  }

  /** So a run that can only go on with a new call has answered every call, all of them stand in the
      history, and what has been enqueued is what has been dequeued and then what is in the list. */
  lemma AllAnswered(sentinel: nat, value: int, run: seq<Action>)
    requires sentinel != NULL.addr && IsRun(Init(sentinel, value), run)
    requires forall a :: Enabled(After(Init(sentinel, value), run), a) ==> Starts(a)
    ensures var t, h := After(Init(sentinel, value), run), History(Init(sentinel, value), run);
            && Returned(run) == Count(h, true) == |t.sent|
            && |t.answers| == Count(h, false) == Asked(run)
            && exists chain :: IsChain(t.heap, chain) && t.sent == Taken(t.answers) + Values(t.heap, chain)
  {
    var s, chain := Init(sentinel, value), [Ptr(sentinel, 0)];
    InitInv(sentinel, value);
    RunKeeps(s, run, chain);
    RunCounts(s, run, chain);
    hide IsRun, After, History, Returned, Asked, Enabled, Inv, ChainAfter, Count;
    CallsInHistory(sentinel, value, run);
    NeverStuck(After(s, run));
    ListIsRest(After(s, run), ChainAfter(s, run, chain));
  }

  lemma ListIsRest(s: State, chain: seq<Ptr>)
    requires Inv(s, chain) && s.producer.Resting? && s.consumer.Idle?
    ensures IsChain(s.heap, chain) && s.sent == Taken(s.answers) + Values(s.heap, chain)
  {
    hide IsChain, Values, Taken;
    assert Taken(s.answers) + [] == Taken(s.answers);
  }
}
