/** LockFreeQueue with one producer and one consumer: a linked list behind a sentinel, one atomic
    access per step, and an explicit heap in which freed addresses may be handed out again. */
module LockFreeQueues {
  /** An address, with the number of the allocation that the pointer was obtained from. The code
      sees the address only; the number tells a stale pointer from one to the node that has been
      allocated at the same address since. */
  datatype Ptr = Ptr(addr: nat, serial: nat)

  const NULL: Ptr := Ptr(0, 0)

  /** What the code compares. */
  predicate Same(p: Ptr, q: Ptr) {
    p.addr == q.addr
  }

  datatype Node = Node(value: int, next: Ptr)

  /** Where the producer stands in enqueue. */
  datatype Producer =
    | Resting
    | Loading(node: Ptr)                  // about to read tail_
    | Linking(node: Ptr, oldTail: Ptr)    // about to compare-and-swap old_tail->next_
    | Swinging(node: Ptr, oldTail: Ptr)   // about to compare-and-swap tail_

  /** Where the consumer stands in dequeue, or in empty. */
  datatype Consumer =
    | Idle
    | Holding(oldHead: Ptr)                            // about to read old_head->next_
    | Reading(oldHead: Ptr, first: Ptr)                // about to read first_node->value_
    | Moving(oldHead: Ptr, first: Ptr, value: int)     // about to compare-and-swap head_
    | Freeing(oldHead: Ptr, value: int)                // about to delete old_head
    | Peeking(oldHead: Ptr)                            // in empty, about to read head->next_

  /** What the consumer's calls have returned. */
  datatype Answer = Got(value: int) | Nothing | Empty(empty: bool)

  datatype State = State(
    heap: map<Ptr, Node>,   // the allocated nodes
    born: nat,              // the number of the next allocation
    head: Ptr,
    tail: Ptr,
    nullTail: Ptr,          // the static null_tail of enqueue
    producer: Producer,
    consumer: Consumer,
    sent: seq<int>,         // arguments of the enqueue calls so far
    answers: seq<Answer>,   // results of the consumer's calls so far
    fault: bool)            // a pointer to no allocated node was read, written or freed

  datatype Action =
    | Enqueue(value: int, addr: nat)   // call, allocating the node at addr
    | LoadTail
    | Link(spurious: bool)
    | Swing
    | Dequeue                          // call, reading head_
    | ReadNext
    | ReadValue
    | MoveHead
    | Free
    | CallEmpty                        // call, reading head_
    | ReadEmpty

  predicate Enabled(s: State, a: Action) {
    match a
    case Enqueue(_, addr) => s.producer.Resting? && addr != NULL.addr && forall p :: p in s.heap ==> p.addr != addr
    case LoadTail => s.producer.Loading?
    case Link(_) => s.producer.Linking?
    case Swing => s.producer.Swinging?
    case Dequeue => s.consumer.Idle?
    case ReadNext => s.consumer.Holding?
    case ReadValue => s.consumer.Reading?
    case MoveHead => s.consumer.Moving?
    case Free => s.consumer.Freeing?
    case CallEmpty => s.consumer.Idle?
    case ReadEmpty => s.consumer.Peeking?
  }

  function Fault(s: State): State {
    s.(fault := true)
  }

  function DoProducer(s: State, a: Action): State
    requires Enabled(s, a) && (a.Enqueue? || a.LoadTail? || a.Link? || a.Swing?)
  {
    match a
    case Enqueue(value, addr) =>
      var node := Ptr(addr, s.born);
      s.(heap := s.heap[node := Node(value, NULL)], born := s.born + 1,
         producer := Loading(node), sent := s.sent + [value])
    case LoadTail =>
      s.(producer := Linking(s.producer.node, s.tail))
    case Link(spurious) =>
      var expected, node := s.producer.oldTail, s.producer.node;
      if expected !in s.heap then
        Fault(s)
      else if Same(s.heap[expected].next, s.nullTail) && !spurious then
        s.(heap := s.heap[expected := s.heap[expected].(next := node)], producer := Swinging(node, expected))
      else
        s.(nullTail := s.heap[expected].next, producer := Loading(node))
    case Swing =>
      s.(tail := if Same(s.tail, s.producer.oldTail) then s.producer.node else s.tail, producer := Resting)
  }

  function DoConsumer(s: State, a: Action): State
    requires Enabled(s, a) && !(a.Enqueue? || a.LoadTail? || a.Link? || a.Swing?)
  {
    var c := s.consumer;
    match a
    case Dequeue =>
      s.(consumer := Holding(s.head))
    case ReadNext =>
      if c.oldHead !in s.heap then
        Fault(s)
      else if Same(s.heap[c.oldHead].next, NULL) then
        s.(consumer := Idle, answers := s.answers + [Nothing])
      else
        s.(consumer := Reading(c.oldHead, s.heap[c.oldHead].next))
    case ReadValue =>
      if c.first !in s.heap then
        Fault(s)
      else
        s.(consumer := Moving(c.oldHead, c.first, s.heap[c.first].value))
    case MoveHead =>
      s.(head := if Same(s.head, c.oldHead) then c.first else s.head, consumer := Freeing(c.oldHead, c.value))
    case Free =>
      if c.oldHead !in s.heap then
        Fault(s)
      else
        s.(heap := s.heap - {c.oldHead}, consumer := Idle, answers := s.answers + [Got(c.value)])
    case CallEmpty =>
      s.(consumer := Peeking(s.head))
    case ReadEmpty =>
      if c.oldHead !in s.heap then
        Fault(s)
      else
        s.(consumer := Idle, answers := s.answers + [Empty(Same(s.heap[c.oldHead].next, NULL))])
  }

  function Do(s: State, a: Action): State
    requires Enabled(s, a)
  {
    if a.Enqueue? || a.LoadTail? || a.Link? || a.Swing? then DoProducer(s, a) else DoConsumer(s, a)
  }

  /** The constructor: one sentinel node. */
  function Init(sentinel: nat, value: int): State {
    var node := Ptr(sentinel, 0);
    State(map[node := Node(value, NULL)], 1, node, node, NULL, Resting, Idle, [], [], false)
  }

  // ---- The list ----

  /** The allocated, linked nodes from the sentinel to the last. */
  ghost predicate IsChain(heap: map<Ptr, Node>, chain: seq<Ptr>) {
    && chain != []
    && (forall i :: 0 <= i < |chain| ==> !Same(chain[i], NULL) && chain[i] in heap)
    && (forall i, j :: 0 <= i < j < |chain| ==> chain[i] != chain[j])
    && (forall i, j :: 0 <= i < j < |chain| && j == i + 1 ==> heap[chain[i]].next == chain[j])
    && heap[chain[|chain| - 1]].next == NULL
  }

  /** The values behind the sentinel. */
  ghost function Values(heap: map<Ptr, Node>, chain: seq<Ptr>): (r: seq<int>)
    requires IsChain(heap, chain)
    ensures |r| == |chain| - 1
  {
    seq(|chain| - 1, i requires 0 <= i < |chain| - 1 => heap[chain[i + 1]].value)
  }

  /** The node the producer holds outside the list, and the one the consumer has still to free. */
  ghost function Unlinked(s: State): set<Ptr> {
    if s.producer.Loading? || s.producer.Linking? then {s.producer.node} else {}
  }

  ghost function Retired(s: State): set<Ptr> {
    if s.consumer.Freeing? then {s.consumer.oldHead} else {}
  }

  /** No two allocated nodes share an address, and no number is used twice. */
  ghost predicate HeapOk(s: State) {
    && (forall p, q :: p in s.heap && q in s.heap && Same(p, q) ==> p == q)
    && (forall p :: p in s.heap ==> p.serial < s.born)
  }

  ghost predicate MemoryOk(s: State, chain: seq<Ptr>) {
    && IsChain(s.heap, chain) && s.head == chain[0]
    && (forall x :: x in s.heap <==> x in chain || x in Unlinked(s) || x in Retired(s))
    && (forall x :: x in chain ==> x !in Unlinked(s) && x !in Retired(s))
    && Unlinked(s) !! Retired(s)
    && !s.fault && s.nullTail == NULL
  }

  ghost predicate ProducerOk(s: State, chain: seq<Ptr>)
    requires chain != []
  {
    var last := chain[|chain| - 1];
    match s.producer
    case Resting => s.tail == last
    case Loading(node) => s.tail == last && node in s.heap && !Same(node, NULL) && s.heap[node].next == NULL
    case Linking(node, expected) =>
      s.tail == last && expected == last && node in s.heap && !Same(node, NULL) && s.heap[node].next == NULL
    case Swinging(node, expected) =>
      s.tail == expected && node == last && (|chain| > 1 ==> chain[|chain| - 2] == expected)
  }

  ghost predicate ConsumerOk(s: State, chain: seq<Ptr>)
    requires chain != []
  {
    match s.consumer
    case Idle => true
    case Holding(expected) => expected == chain[0]
    case Reading(expected, first) => expected == chain[0] && |chain| > 1 && first == chain[1]
    case Moving(expected, first, value) =>
      expected == chain[0] && |chain| > 1 && first == chain[1] && first in s.heap && value == s.heap[first].value
    case Freeing(_, _) => true
    case Peeking(expected) => expected == chain[0]
  }

  /** The values that dequeue calls have returned. */
  function Taken(answers: seq<Answer>): seq<int> {
    if answers == [] then []
    else
      var before := Taken(answers[..|answers| - 1]);
      if answers[|answers| - 1].Got? then before + [answers[|answers| - 1].value] else before
  }

  ghost function InHand(s: State): seq<int> {
    if s.consumer.Freeing? then [s.consumer.value] else []
  }

  ghost function Pending(s: State): seq<int> {
    if (s.producer.Loading? || s.producer.Linking?) && s.producer.node in s.heap
    then [s.heap[s.producer.node].value] else []
  }

  /** Every value sent is returned, in the consumer's hand, in the list or still unlinked, in order. */
  ghost predicate ValuesOk(s: State, chain: seq<Ptr>)
    requires IsChain(s.heap, chain)
  {
    s.sent == Taken(s.answers) + InHand(s) + Values(s.heap, chain) + Pending(s)
  }

  ghost predicate Inv(s: State, chain: seq<Ptr>) {
    && HeapOk(s)
    && MemoryOk(s, chain) && ProducerOk(s, chain) && ConsumerOk(s, chain) && ValuesOk(s, chain)
  }

  lemma InitInv(sentinel: nat, value: int)
    requires sentinel != NULL.addr
    ensures Inv(Init(sentinel, value), [Ptr(sentinel, 0)])
  {
  }

  /** The list after a step: only linking and moving the head change it. */
  ghost function NextChain(s: State, a: Action, chain: seq<Ptr>): seq<Ptr>
    requires Enabled(s, a)
  {
    if a.Link? && !a.spurious then chain + [s.producer.node]
    else if a.MoveHead? && chain != [] then chain[1..]
    else chain
  }

  lemma SameValues(heap: map<Ptr, Node>, heap': map<Ptr, Node>, chain: seq<Ptr>)
    requires IsChain(heap, chain) && IsChain(heap', chain)
    requires forall i :: 0 <= i < |chain| ==> heap'[chain[i]].value == heap[chain[i]].value
    ensures Values(heap', chain) == Values(heap, chain)
  {
  }

  lemma HeapKeeps(s: State, a: Action)
    requires HeapOk(s) && Enabled(s, a)
    ensures HeapOk(Do(s, a))
  {
    var t := Do(s, a);
    if a.Enqueue? {
      assert t.heap.Keys == s.heap.Keys + {Ptr(a.addr, s.born)};
    } else {
      assert t.heap.Keys <= s.heap.Keys && t.born == s.born;
    }
  }

  /** A node allocated outside the list leaves the list. */
  lemma MoreChain(heap: map<Ptr, Node>, chain: seq<Ptr>, node: Ptr, n: Node)
    requires IsChain(heap, chain) && node !in heap
    ensures IsChain(heap[node := n], chain) && Values(heap[node := n], chain) == Values(heap, chain)
  {
    assert node !in chain;
    SameValues(heap, heap[node := n], chain);
  }

  lemma EnqueueMemory(s: State, a: Action, chain: seq<Ptr>)
    requires MemoryOk(s, chain) && Enabled(s, a) && a.Enqueue?
    ensures MemoryOk(Do(s, a), chain) && Values(Do(s, a).heap, chain) == Values(s.heap, chain)
  {
    hide Values, IsChain;
    var node := Ptr(a.addr, s.born);
    assert node !in s.heap;
    MoreChain(s.heap, chain, node, Node(a.value, NULL));
  }

  lemma EnqueueRest(s: State, a: Action, chain: seq<Ptr>)
    requires chain != [] && ProducerOk(s, chain) && ConsumerOk(s, chain) && Enabled(s, a) && a.Enqueue?
    ensures var t := Do(s, a);
            && ProducerOk(t, chain) && ConsumerOk(t, chain)
            && t.sent == s.sent + [a.value] && t.answers == s.answers && InHand(t) == InHand(s)
            && Pending(s) == [] && Pending(t) == [a.value]
  {
  }

  lemma EnqueueKeeps(s: State, a: Action, chain: seq<Ptr>)
    requires Inv(s, chain) && Enabled(s, a) && a.Enqueue?
    ensures Inv(Do(s, a), chain)
  {
    hide HeapOk, Taken, Values, MemoryOk, ProducerOk, ConsumerOk, IsChain, Do, InHand, Pending, Enabled;
    HeapKeeps(s, a);
    ChainOfMemory(s, chain);
    EnqueueMemory(s, a, chain);
    EnqueueRest(s, a, chain);
    ChainOfMemory(Do(s, a), chain);
    AddNew(Taken(s.answers) + InHand(s) + Values(s.heap, chain), a.value);
  }

  lemma AddNew(a: seq<int>, v: int)
    ensures a + [] + [v] == a + [v]
  {
  }

  lemma LoadTailKeeps(s: State, a: Action, chain: seq<Ptr>)
    requires Inv(s, chain) && Enabled(s, a) && a.LoadTail?
    ensures Inv(Do(s, a), chain)
  {
    HeapKeeps(s, a);
    hide HeapOk;
    hide Taken, Values, IsChain;
  }

  /** The new node goes behind the last. */
  lemma LinkChain(heap: map<Ptr, Node>, chain: seq<Ptr>, node: Ptr)
    requires IsChain(heap, chain) && !Same(node, NULL) && node !in chain && node in heap && heap[node].next == NULL
    ensures var last := chain[|chain| - 1]; var heap' := heap[last := heap[last].(next := node)];
            IsChain(heap', chain + [node])
            && Values(heap', chain + [node]) == Values(heap, chain) + [heap[node].value]
  {
  }

  lemma ChainEnd(heap: map<Ptr, Node>, chain: seq<Ptr>)
    requires IsChain(heap, chain)
    ensures chain != [] && chain[|chain| - 1] in heap && heap[chain[|chain| - 1]].next == NULL
  {
  }

  lemma LinkMemory(s: State, a: Action, chain: seq<Ptr>)
    requires MemoryOk(s, chain) && ProducerOk(s, chain) && Enabled(s, a) && a.Link? && !a.spurious
    ensures var t, node := Do(s, a), s.producer.node; var next := chain + [node];
            && MemoryOk(t, next) && node in s.heap
            && Values(t.heap, next) == Values(s.heap, chain) + [s.heap[node].value]
  {
    hide Values, IsChain;
    ChainEnd(s.heap, chain);
    var last, node := chain[|chain| - 1], s.producer.node;
    assert node in Unlinked(s);
    LinkChain(s.heap, chain, node);
    assert Do(s, a).heap == s.heap[last := s.heap[last].(next := node)];
    assert Do(s, a).heap.Keys == s.heap.Keys;
  }

  lemma LinkPcs(s: State, a: Action, chain: seq<Ptr>)
    requires MemoryOk(s, chain) && ProducerOk(s, chain) && Enabled(s, a) && a.Link? && !a.spurious
    ensures ProducerOk(Do(s, a), chain + [s.producer.node])
  {
    assert chain[|chain| - 1] in s.heap;
    hide IsChain;
  }

  lemma LinkRest(s: State, a: Action, chain: seq<Ptr>)
    requires MemoryOk(s, chain) && ConsumerOk(s, chain) && ProducerOk(s, chain)
    requires Enabled(s, a) && a.Link? && !a.spurious
    ensures var t := Do(s, a);
            && ConsumerOk(t, chain + [s.producer.node])
            && t.sent == s.sent && t.answers == s.answers && InHand(t) == InHand(s) && Pending(t) == []
            && s.producer.node in s.heap && Pending(s) == [s.heap[s.producer.node].value]
  {
    assert chain[|chain| - 1] in s.heap;
  }

  lemma LinkKeeps(s: State, a: Action, chain: seq<Ptr>)
    requires Inv(s, chain) && Enabled(s, a) && a.Link? && !a.spurious
    ensures Inv(Do(s, a), chain + [s.producer.node])
  {
    assert s.producer.Linking?;
    hide HeapOk, Taken, Values, MemoryOk, ProducerOk, ConsumerOk, Do, IsChain, Pending, InHand, Enabled;
    HeapKeeps(s, a);
    ChainOfMemory(s, chain);
    LinkMemory(s, a, chain);
    LinkPcs(s, a, chain);
    LinkRest(s, a, chain);
    ChainOfMemory(Do(s, a), chain + [s.producer.node]);
    AddLast(Taken(s.answers) + InHand(s), Values(s.heap, chain), Pending(s));
  }

  /** A spurious failure takes the producer back to reading tail_. */
  lemma FailKeeps(s: State, a: Action, chain: seq<Ptr>)
    requires Inv(s, chain) && Enabled(s, a) && a.Link? && a.spurious
    ensures Inv(Do(s, a), chain)
  {
    hide HeapOk, Taken, Values, IsChain;
    HeapKeeps(s, a);
    ChainEnd(s.heap, chain);
  }

  lemma AddLast(a: seq<int>, b: seq<int>, c: seq<int>)
    ensures a + b + c == a + (b + c) + []
  {
  }

  lemma SwingKeeps(s: State, a: Action, chain: seq<Ptr>)
    requires Inv(s, chain) && Enabled(s, a) && a.Swing?
    ensures Inv(Do(s, a), chain)
  {
    HeapKeeps(s, a);
    hide HeapOk;
    hide Taken, Values, IsChain;
  }

  /** The consumer's steps that change nothing but its own place and the answers. */
  lemma ReadKeeps(s: State, a: Action, chain: seq<Ptr>)
    requires Inv(s, chain) && Enabled(s, a)
    requires a.Dequeue? || a.ReadNext? || a.ReadValue? || a.CallEmpty? || a.ReadEmpty?
    ensures Inv(Do(s, a), chain)
  {
    HeapKeeps(s, a);
    hide HeapOk, Taken, Values, ValuesOk, MemoryOk, ProducerOk, ConsumerOk, Do, IsChain, SameParts, AnswersMore;
    ReadMemory(s, a, chain);
    ChainOfMemory(s, chain);
    ReadParts(s, a);
    ReadAnswers(s, Do(s, a), chain);
  }

  lemma ReadMemory(s: State, a: Action, chain: seq<Ptr>)
    requires MemoryOk(s, chain) && ConsumerOk(s, chain) && Enabled(s, a)
    requires a.Dequeue? || a.ReadNext? || a.ReadValue? || a.CallEmpty? || a.ReadEmpty?
    ensures Do(s, a).heap == s.heap && MemoryOk(Do(s, a), chain) && ConsumerOk(Do(s, a), chain)
  {
    hide Values;
    ChainStart(s.heap, chain);
    hide IsChain;
  }

  lemma ChainStart(heap: map<Ptr, Node>, chain: seq<Ptr>)
    requires IsChain(heap, chain)
    ensures chain[0] in heap
    ensures |chain| > 1 ==> chain[1] in heap && heap[chain[0]].next == chain[1] && !Same(chain[1], NULL)
    ensures |chain| == 1 ==> heap[chain[0]].next == NULL
  {
  }

  /** They leave every part of the state that the values are in. */
  ghost predicate SameParts(s: State, t: State) {
    && t.heap == s.heap && t.sent == s.sent && t.producer == s.producer && t.tail == s.tail
    && !s.consumer.Freeing? && !t.consumer.Freeing?
  }

  ghost predicate AnswersMore(s: State, t: State) {
    || t.answers == s.answers
    || (t.answers != [] && t.answers[..|t.answers| - 1] == s.answers && !t.answers[|t.answers| - 1].Got?)
  }

  lemma ReadParts(s: State, a: Action)
    requires Enabled(s, a) && (a.Dequeue? || a.ReadNext? || a.ReadValue? || a.CallEmpty? || a.ReadEmpty?)
    ensures SameParts(s, Do(s, a)) && AnswersMore(s, Do(s, a))
  {
  }

  lemma ReadAnswers(s: State, t: State, chain: seq<Ptr>)
    requires chain != [] && IsChain(s.heap, chain) && ProducerOk(s, chain) && ValuesOk(s, chain)
    requires SameParts(s, t) && AnswersMore(s, t)
    ensures ProducerOk(t, chain) && IsChain(t.heap, chain) && ValuesOk(t, chain)
  {
    hide Values, IsChain;
    assert Taken(t.answers) == Taken(s.answers);
    assert InHand(t) == InHand(s) && Pending(t) == Pending(s);
  }

  lemma TakenMore(answers: seq<Answer>, a: Answer)
    ensures Taken(answers + [a]) == if a.Got? then Taken(answers) + [a.value] else Taken(answers)
  {
    assert (answers + [a])[..|answers|] == answers;
  }

  /** The sentinel leaves the list, and the first node becomes the sentinel. */
  lemma HeadChain(heap: map<Ptr, Node>, chain: seq<Ptr>)
    requires IsChain(heap, chain) && |chain| > 1
    ensures IsChain(heap, chain[1..])
    ensures Values(heap, chain) == [heap[chain[1]].value] + Values(heap, chain[1..])
  {
  }

  lemma HeadMembers(heap: map<Ptr, Node>, chain: seq<Ptr>)
    requires IsChain(heap, chain)
    ensures chain[0] !in chain[1..] && forall x :: x in chain <==> x == chain[0] || x in chain[1..]
  {
    assert chain == [chain[0]] + chain[1..];
  }

  lemma MoveHeadMemory(s: State, a: Action, chain: seq<Ptr>)
    requires MemoryOk(s, chain) && ProducerOk(s, chain) && ConsumerOk(s, chain) && Enabled(s, a) && a.MoveHead?
    ensures var t, next := Do(s, a), chain[1..];
            && |chain| > 1 && MemoryOk(t, next) && t.heap == s.heap
            && Values(s.heap, chain) == [s.consumer.value] + Values(s.heap, next)
  {
    hide Values, IsChain, ProducerOk;
    HeadChain(s.heap, chain);
    HeadMembers(s.heap, chain);
  }

  lemma MoveHeadPcs(s: State, a: Action, chain: seq<Ptr>)
    requires MemoryOk(s, chain) && ProducerOk(s, chain) && ConsumerOk(s, chain) && Enabled(s, a) && a.MoveHead?
    ensures |chain| > 1 && ProducerOk(Do(s, a), chain[1..]) && ConsumerOk(Do(s, a), chain[1..])
  {
    hide IsChain;
  }

  lemma MoveHeadRest(s: State, a: Action)
    requires Enabled(s, a) && a.MoveHead?
    ensures var t := Do(s, a);
            && t.sent == s.sent && t.answers == s.answers && Pending(t) == Pending(s)
            && s.consumer.Moving? && InHand(t) == [s.consumer.value] && InHand(s) == []
  {
  }

  lemma MoveHeadKeeps(s: State, a: Action, chain: seq<Ptr>)
    requires Inv(s, chain) && Enabled(s, a) && a.MoveHead?
    ensures Inv(Do(s, a), NextChain(s, a, chain))
  {
    hide HeapOk, Taken, Values, MemoryOk, ProducerOk, ConsumerOk, IsChain, Do, InHand, Pending, Enabled;
    HeapKeeps(s, a);
    MoveHeadMemory(s, a, chain);
    MoveHeadPcs(s, a, chain);
    MoveHeadRest(s, a);
    assert IsChain(Do(s, a).heap, chain[1..]) by { ChainOfMemory(Do(s, a), chain[1..]); }
    AddFirst(Taken(s.answers), s.consumer.value, Values(s.heap, chain[1..]), Pending(s));
  }

  lemma ChainOfMemory(s: State, chain: seq<Ptr>)
    requires MemoryOk(s, chain)
    ensures chain != [] && IsChain(s.heap, chain)
  {
  }

  lemma AddFirst(a: seq<int>, v: int, b: seq<int>, c: seq<int>)
    ensures a + [] + ([v] + b) + c == a + [v] + b + c
  {
    assert a + [] + ([v] + b) == a + [v] + b;
  }

  /** Freeing a node outside the list leaves the list. */
  lemma FreeChain(heap: map<Ptr, Node>, chain: seq<Ptr>, gone: Ptr)
    requires IsChain(heap, chain) && gone !in chain
    ensures IsChain(heap - {gone}, chain) && Values(heap - {gone}, chain) == Values(heap, chain)
  {
  }

  lemma FreeMemory(s: State, a: Action, chain: seq<Ptr>)
    requires MemoryOk(s, chain) && Enabled(s, a) && a.Free?
    ensures Do(s, a).heap == s.heap - {s.consumer.oldHead} && IsChain(Do(s, a).heap, chain) && MemoryOk(Do(s, a), chain)
    ensures Values(Do(s, a).heap, chain) == Values(s.heap, chain) && s.consumer.oldHead !in Unlinked(s)
  {
    FreeChain(s.heap, chain, s.consumer.oldHead);
    hide Values, IsChain;
  }

  lemma FreeRest(s: State, a: Action, chain: seq<Ptr>)
    requires Inv(s, chain) && Enabled(s, a) && a.Free? && Do(s, a).heap == s.heap - {s.consumer.oldHead}
    ensures var t := Do(s, a);
            && ProducerOk(t, chain) && ConsumerOk(t, chain) && t.sent == s.sent && Pending(t) == Pending(s)
            && t.answers == s.answers + [Got(s.consumer.value)] && InHand(t) == [] && InHand(s) == [s.consumer.value]
  {
    hide Values, ValuesOk, IsChain;
  }

  lemma FreeKeeps(s: State, a: Action, chain: seq<Ptr>)
    requires Inv(s, chain) && Enabled(s, a) && a.Free?
    ensures Inv(Do(s, a), chain)
  {
    assert s.consumer.Freeing?;
    hide HeapOk, Taken, Values, MemoryOk, ProducerOk, ConsumerOk, IsChain, Do, InHand, Pending, Unlinked, Enabled;
    HeapKeeps(s, a);
    FreeMemory(s, a, chain);
    FreeRest(s, a, chain);
    TakenMore(s.answers, Got(s.consumer.value));
    AddTaken(Taken(s.answers), s.consumer.value, Values(s.heap, chain), Pending(s));
  }

  lemma AddTaken(a: seq<int>, v: int, b: seq<int>, c: seq<int>)
    ensures a + [v] + b + c == (a + [v]) + [] + b + c
  {
    assert (a + [v]) + [] == a + [v];
  }

  /** Every step of either thread keeps the list, the memory and the values in order. */
  lemma StepKeeps(s: State, a: Action, chain: seq<Ptr>)
    requires Inv(s, chain) && Enabled(s, a)
    ensures Inv(Do(s, a), NextChain(s, a, chain))
  {
    hide Inv, Do, Enabled;
    match a
    case Enqueue(_, _) => EnqueueKeeps(s, a, chain);
    case LoadTail => LoadTailKeeps(s, a, chain);
    case Link(spurious) =>
      if spurious { FailKeeps(s, a, chain); } else { LinkKeeps(s, a, chain); }
    case Swing => SwingKeeps(s, a, chain);
    case MoveHead => MoveHeadKeeps(s, a, chain);
    case Free => FreeKeeps(s, a, chain);
    case Dequeue => ReadKeeps(s, a, chain);
    case ReadNext => ReadKeeps(s, a, chain);
    case ReadValue => ReadKeeps(s, a, chain);
    case CallEmpty => ReadKeeps(s, a, chain);
    case ReadEmpty => ReadKeeps(s, a, chain);
  }
}
