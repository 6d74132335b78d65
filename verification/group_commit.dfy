/** Group commit: concurrent Write calls queue up, the one at the front leads, merges the batches
    behind it into its own, writes once with the lock released, and dismisses its group.

    The protocol is a transition system. Everything between taking and releasing the mutex is
    cut into steps of its own, one for each round of the wait loop and of the pop loop; a thread in
    Wait can wake at any time. */
module GroupCommit {
  import opened Coding
  import opened Options
  import opened WriteBatches

  const MAX_BATCH_SIZE: nat := 2

  datatype Pc =
    | Idle                       // Write not begun
    | Checking                   // holds the lock, about to test the wait condition
    | Sleeping                   // in Wait, the lock released, not notified
    | Waking                     // notified or spuriously awake, wants the lock back
    | Writing(last: nat)         // leader, group built, lock released, I/O ahead
    | Written(last: nat)         // leader, I/O done, wants the lock
    | Popping(last: nat)         // leader, holds the lock, in the pop loop
    | Notifying                  // leader, holds the lock, pop loop done
    | Returned

  /** `batch[w]` is the byte string of the batch that writer w passed; the leader's is extended in
      place. `arrivals` and `log` are history: the order of push_back, and what each I/O wrote. */
  datatype State = State(
    pc: seq<Pc>,
    done: seq<bool>,
    batch: seq<Bytes>,
    queue: seq<nat>,
    holder: Option<nat>,
    arrivals: seq<nat>,
    log: seq<Bytes>)

  datatype Action =
    | Enter(w: nat)              // lock, push_back
    | Check(w: nat)              // one test of the wait loop, and what follows it
    | Spurious(w: nat)           // Wait returns without a signal
    | Reacquire(w: nat)          // Wait gets the lock back
    | DoIO(w: nat)
    | Relock(w: nat)
    | Pop(w: nat)                // one round of the pop loop
    | Notify(w: nat)             // signal the new front, unlock, return

  // ----- BuildBatchGroup ---------------------------------------------------------------------------

  predicate Headers(rest: seq<Bytes>) {
    forall i :: 0 <= i < |rest| ==> |rest[i]| >= HEADER
  }

  /** The merged batch, and how many of `rest` went into it. */
  function Merge(dst: Bytes, rest: seq<Bytes>): (r: (Bytes, nat))
    requires |dst| >= HEADER && Headers(rest)
    ensures |r.0| >= HEADER && r.1 <= |rest|
    decreases |rest|
  {
    if rest == [] || Count(dst) >= MAX_BATCH_SIZE then
      (dst, 0)
    else
      AppendedSize(dst, rest[0]);
      var r := Merge(Appended(dst, rest[0]), rest[1..]);
      (r.0, r.1 + 1)
  }

  lemma AppendedSize(dst: Bytes, src: Bytes)
    requires |dst| >= HEADER && |src| >= HEADER
    ensures |Appended(dst, src)| >= HEADER
  {
  }

  function Concat(ops: seq<seq<Op>>): seq<Op> {
    if ops == [] then [] else ops[0] + Concat(ops[1..])
  }

  lemma {:induction false} ConcatSplit(a: seq<seq<Op>>, b: seq<seq<Op>>)
    ensures Concat(a + b) == Concat(a) + Concat(b)
    decreases |a|
  {
    if a == [] {
      assert a + b == b;
    } else {
      assert (a + b)[0] == a[0] && (a + b)[1..] == a[1..] + b;
      ConcatSplit(a[1..], b);
    }
  }

  lemma ConcatOne(a: seq<Op>, rest: seq<seq<Op>>)
    ensures Concat([a] + rest) == a + Concat(rest)
  {
    assert ([a] + rest)[1..] == rest;
  }

  /** No count in a group can leave the range of int. */
  ghost predicate SmallBatch(ops: seq<Op>) {
    |ops| + 1 <= 0x7FFF_FFFF
  }

  /** The group is the shortest prefix whose operations number at least two, or the whole queue if
      none does, and the merged batch holds the operations of its members in queue order. */
  lemma {:induction false} MergeMeans(dst: Bytes, a: seq<Op>, rest: seq<Bytes>, ops: seq<seq<Op>>)
    requires Holds(dst, a) && |rest| == |ops|
    requires forall i :: 0 <= i < |rest| ==> |rest[i]| >= HEADER && Holds(rest[i], ops[i]) && SmallBatch(ops[i])
    ensures Merged(a, ops, Merge(dst, rest).1)
    ensures Holds(Merge(dst, rest).0, a + Concat(ops[..Merge(dst, rest).1]))
    decreases |rest|
  {
    assert Count(dst) == |a|;
    hide Holds, Appended, Count, Concat, Merged;
    if rest == [] || |a| >= MAX_BATCH_SIZE {
      MergedNone(a, ops);
    } else {
      AppendedMeans(dst, a, rest[0], ops[0]);
      MergeMeans(Appended(dst, rest[0]), a + ops[0], rest[1..], ops[1..]);
      MergedOne(a, ops, Merge(Appended(dst, rest[0]), rest[1..]).1);
    }
  }

  /** So two waiting batches of one operation each go into one group. */
  lemma TwoWaiting(a: Bytes, x: Op, b: Bytes, y: Op)
    requires Holds(a, [x]) && Holds(b, [y])
    ensures Merge(a, [b]).1 == 1 && Holds(Merge(a, [b]).0, [x, y])
  {
    hide Holds, Merge;
    HoldsHeader(a, [x]);
    HoldsHeader(b, [y]);
    var ops := [[y]];
    MergeMeans(a, [x], [b], ops);
    OnePut(y);
    hide Concat;
    var k := Merge(a, [b]).1;
    assert k == 1 by { assert [x] + Concat(ops[..0]) == [x]; }
    assert [x] + Concat(ops[..k]) == [x, y];
  }

  lemma OnePut(y: Op)
    ensures Concat([[y]][..0]) == [] && Concat([[y]][..1]) == [y]
  {
    ConcatOne([y], []);
    assert [[y]][..1] == [[y]] + [];
  }

  /** k batches after a is where merging stops. */
  ghost predicate Merged(a: seq<Op>, ops: seq<seq<Op>>, k: nat) {
    && k <= |ops|
    && (k == |ops| || |a + Concat(ops[..k])| >= 2)
    && (forall j :: 0 <= j < k ==> |a + Concat(ops[..j])| < 2)
  }

  lemma MergedNone(a: seq<Op>, ops: seq<seq<Op>>)
    ensures a + Concat(ops[..0]) == a
    ensures ops == [] || |a| >= 2 ==> Merged(a, ops, 0)
  {
    assert ops[..0] == [] && a + [] == a;
  }

  lemma MergedOne(a: seq<Op>, ops: seq<seq<Op>>, k: nat)
    requires ops != [] && |a| < 2 && Merged(a + ops[0], ops[1..], k)
    ensures Merged(a, ops, k + 1)
    ensures a + Concat(ops[..k + 1]) == a + ops[0] + Concat(ops[1..][..k])
  {
    hide Concat;
    forall j | 0 <= j < |ops| ensures a + Concat(ops[..j + 1]) == a + ops[0] + Concat(ops[1..][..j]) {
      ConcatFront(a, ops, j);
    }
    MergedNone(a, ops);
    forall j | 0 <= j < k + 1 ensures |a + Concat(ops[..j])| < 2 {
      if j > 0 { ConcatFront(a, ops, j - 1); }
    }
  }

  lemma ConcatFront(a: seq<Op>, ops: seq<seq<Op>>, j: nat)
    requires j < |ops|
    ensures a + Concat(ops[..j + 1]) == a + ops[0] + Concat(ops[1..][..j])
  {
    assert ops[..j + 1] == [ops[0]] + ops[1..][..j];
    ConcatOne(ops[0], ops[1..][..j]);
  }

  // ----- Steps ----------------------------------------------------------------------------------------

  predicate Below(ids: seq<nat>, n: nat) {
    forall i :: 0 <= i < |ids| ==> ids[i] < n
  }

  ghost predicate Typed(s: State) {
    && |s.done| == |s.batch| == |s.pc|
    && Below(s.queue, |s.pc|)
    && (forall x :: 0 <= x < |s.batch| ==> |s.batch[x]| >= HEADER)
  }

  function Batches(batch: seq<Bytes>, ids: seq<nat>): (r: seq<Bytes>)
    requires Below(ids, |batch|)
    ensures |r| == |ids|
  {
    seq(|ids|, i requires 0 <= i < |ids| => batch[ids[i]])
  }

  function Signal(pc: Pc): Pc {
    if pc.Sleeping? then Waking else pc
  }

  ghost predicate Enabled(s: State, a: Action) {
    && Typed(s)
    && a.w < |s.pc|
    && match a
       case Enter(w) => s.pc[w].Idle? && s.holder.None?
       case Check(w) => s.pc[w].Checking? && s.holder == Some(w) && (s.done[w] || s.queue != [])
       case Spurious(w) => s.pc[w].Sleeping?
       case Reacquire(w) => s.pc[w].Waking? && s.holder.None?
       case DoIO(w) => s.pc[w].Writing?
       case Relock(w) => s.pc[w].Written? && s.holder.None?
       case Pop(w) => s.pc[w].Popping? && s.holder == Some(w) && s.queue != []
       case Notify(w) => s.pc[w].Notifying? && s.holder == Some(w)
  }

  /** What the front of the queue builds: the merged batch, and how many followers joined. */
  ghost function Built(s: State, w: nat): (r: (Bytes, nat))
    requires Typed(s) && w < |s.pc| && s.queue != []
    ensures r.1 < |s.queue| && |r.0| >= HEADER
  {
    Merge(s.batch[w], Batches(s.batch, s.queue[1..]))
  }

  /** The front of the queue leads: its own batch becomes the group's, and the lock is released. */
  ghost function Lead(s: State, w: nat): State
    requires Typed(s) && w < |s.pc| && s.queue != []
  {
    var r := Built(s, w);
    s.(batch := s.batch[w := r.0], pc := s.pc[w := Writing(s.queue[r.1])], holder := None)
  }

  /** One round of the pop loop: dismiss the front, and stop if it is the last of the group. */
  ghost function PopFront(s: State, w: nat): State
    requires Typed(s) && w < |s.pc| && s.pc[w].Popping? && s.queue != []
  {
    var ready := s.queue[0];
    var pc := if ready == w then s.pc else s.pc[ready := Signal(s.pc[ready])];
    s.(queue := s.queue[1..],
       done := if ready == w then s.done else s.done[ready := true],
       pc := if ready == s.pc[w].last then pc[w := Notifying] else pc)
  }

  ghost function Do(s: State, a: Action): State
    requires Enabled(s, a)
  {
    match a
    case Enter(w) =>
      s.(queue := s.queue + [w], arrivals := s.arrivals + [w], pc := s.pc[w := Checking], holder := Some(w))
    case Check(w) =>
      if s.done[w] then
        s.(pc := s.pc[w := Returned], holder := None)
      else if s.queue[0] != w then
        s.(pc := s.pc[w := Sleeping], holder := None)
      else
        Lead(s, w)
    case Spurious(w) =>
      s.(pc := s.pc[w := Waking])
    case Reacquire(w) =>
      s.(pc := s.pc[w := Checking], holder := Some(w))
    case DoIO(w) =>
      s.(pc := s.pc[w := Written(s.pc[w].last)], log := s.log + [s.batch[w]])
    case Relock(w) =>
      s.(pc := s.pc[w := Popping(s.pc[w].last)], holder := Some(w))
    case Pop(w) =>
      PopFront(s, w)
    case Notify(w) =>
      var pc := if s.queue == [] then s.pc else s.pc[s.queue[0] := Signal(s.pc[s.queue[0]])];
      s.(pc := pc[w := Returned], holder := None)
  }

  ghost predicate IsInit(s: State, ops: seq<seq<Op>>) {
    && |s.done| == |s.batch| == |s.pc| == |ops|
    && s.queue == [] && s.arrivals == [] && s.log == [] && s.holder == None
    && (forall x :: 0 <= x < |s.pc| ==>
          s.pc[x].Idle? && !s.done[x] && Holds(s.batch[x], ops[x]) && SmallBatch(ops[x]))
  }

  // ----- The invariant ---------------------------------------------------------------------------------

  predicate Distinct(q: seq<nat>) {
    forall i, j :: 0 <= i < j < |q| ==> q[i] != q[j]
  }

  function Index(q: seq<nat>, x: nat): (i: nat)
    requires x in q
    ensures i < |q| && q[i] == x
  {
    if q[0] == x then 0 else 1 + Index(q[1..], x)
  }

  predicate Leads(pc: Pc) {
    pc.Writing? || pc.Written? || pc.Popping? || pc.Notifying?
  }

  predicate HoldsLock(pc: Pc) {
    pc.Checking? || pc.Popping? || pc.Notifying?
  }

  predicate Dismissing(s: State) {
    s.holder.Some? && s.holder.value < |s.pc| && (s.pc[s.holder.value].Popping? || s.pc[s.holder.value].Notifying?)
  }

  /** The queue is what is left of the arrivals after some prefix. */
  ghost predicate QueueOk(s: State) {
    && Distinct(s.arrivals)
    && |s.queue| <= |s.arrivals| && s.queue == s.arrivals[|s.arrivals| - |s.queue|..]
    && Below(s.arrivals, |s.pc|)
    && (forall x :: 0 <= x < |s.pc| ==> (x in s.arrivals <==> !s.pc[x].Idle?))
  }

  ghost predicate LockOk(s: State) {
    && (forall x :: 0 <= x < |s.pc| ==> (HoldsLock(s.pc[x]) <==> s.holder == Some(x)))
    && (s.holder.Some? ==> s.holder.value < |s.pc|)
    && (forall x, y :: 0 <= x < |s.pc| && 0 <= y < |s.pc| && Leads(s.pc[x]) && Leads(s.pc[y]) ==> x == y)
  }

  ghost predicate RoleOk(s: State, x: nat)
    requires x < |s.pc| == |s.done|
  {
    && (s.done[x] ==> s.pc[x].Checking? || s.pc[x].Waking? || s.pc[x].Returned?)
    && match s.pc[x]
       case Idle => true
       case Writing(last) => s.queue != [] && s.queue[0] == x && last in s.queue
       case Written(last) => s.queue != [] && s.queue[0] == x && last in s.queue
       case Popping(last) => last in s.queue && (x in s.queue ==> s.queue[0] == x)
       case Notifying => x !in s.queue
       case Returned => x !in s.queue
       case _ => (x in s.queue <==> !s.done[x])
  }

  ghost predicate RolesOk(s: State)
    requires |s.done| == |s.pc|
  {
    forall x :: 0 <= x < |s.pc| ==> RoleOk(s, x)
  }

  /** Nobody at the front sleeps unless a leader is on its way to signal it. */
  ghost predicate FrontAwake(s: State) {
    s.queue != [] && s.queue[0] < |s.pc| && s.pc[s.queue[0]].Sleeping? ==> Dismissing(s)
  }

  /** The operations of the writers in a list of writers. */
  function Pick(ops: seq<seq<Op>>, ids: seq<nat>): seq<seq<Op>> {
    seq(|ids|, i requires 0 <= i < |ids| => if ids[i] < |ops| then ops[ids[i]] else [])
  }

  /** The group of a leader whose last member is `last`: a prefix of the queue. */
  function Group(s: State, last: nat): seq<nat>
    requires last in s.queue
  {
    s.queue[..Index(s.queue, last) + 1]
  }

  ghost predicate BatchOk(s: State, ops: seq<seq<Op>>, x: nat)
    requires x < |s.pc| == |s.batch| == |ops|
  {
    match s.pc[x]
    case Writing(last) => last in s.queue ==> Holds(s.batch[x], Concat(Pick(ops, Group(s, last))))
    case Written(last) => true
    case Popping(last) => true
    case Notifying => true
    case Returned => true
    case _ => Holds(s.batch[x], ops[x])
  }

  ghost predicate BatchesOk(s: State, ops: seq<seq<Op>>)
    requires |s.pc| == |s.batch| == |ops|
  {
    forall x :: 0 <= x < |s.pc| ==> SmallBatch(ops[x]) && BatchOk(s, ops, x)
  }

  /** The bytes of one write are a batch of exactly what the arrivals from..to passed, in order. */
  ghost predicate WroteGroup(b: Bytes, ops: seq<seq<Op>>, ids: seq<nat>, from: nat, to: nat) {
    from < to <= |ids| && Holds(b, Concat(Pick(ops, ids[from..to])))
  }

  /** The log is one write for each stretch between two cut points of the arrivals `ids`. */
  ghost predicate Cut(log: seq<Bytes>, ops: seq<seq<Op>>, ids: seq<nat>, cuts: seq<nat>) {
    && |cuts| == |log| + 1 && cuts[0] == 0 && cuts[|log|] == |ids|
    && forall i :: 0 <= i < |log| ==> WroteGroup(log[i], ops, ids, cuts[i], cuts[i + 1])
  }

  lemma CutNone(ops: seq<seq<Op>>)
    ensures Cut([], ops, [], [0])
  {
  }

  lemma CutMore(log: seq<Bytes>, ops: seq<seq<Op>>, ids: seq<nat>, cuts: seq<nat>, b: Bytes, group: seq<nat>)
    requires Cut(log, ops, ids, cuts) && group != [] && Holds(b, Concat(Pick(ops, group)))
    ensures Cut(log + [b], ops, ids + group, cuts + [|ids| + |group|])
  {
    hide Holds, Concat, Pick;
    var all, more := ids + group, cuts + [|ids| + |group|];
    forall i | 0 <= i < |log| + 1 ensures WroteGroup((log + [b])[i], ops, all, more[i], more[i + 1]) {
      if i < |log| {
        assert WroteGroup(log[i], ops, ids, cuts[i], cuts[i + 1]);
        assert all[cuts[i]..cuts[i + 1]] == ids[cuts[i]..cuts[i + 1]];
      } else {
        assert all[|ids|..|ids| + |group|] == group;
      }
    }
  }

  /** The operations of the whole log, when every write in it is a well-formed batch. */
  ghost function LogOps(log: seq<Bytes>): Option<seq<Op>> {
    if log == [] then Some([]) else
      var n := |log| - 1;
      var before, b := LogOps(log[..n]), log[n];
      if before.Some? && |b| >= HEADER && Read(b[HEADER..]).Some? && Count(b) == |Read(b[HEADER..]).value| then
        Some(before.value + Read(b[HEADER..]).value)
      else
        None
  }

  lemma LogOpsMore(log: seq<Bytes>, a: seq<Op>)
    requires log != [] && LogOps(log[..|log| - 1]).Some? && Holds(log[|log| - 1], a)
    ensures LogOps(log) == Some(LogOps(log[..|log| - 1]).value + a)
  {
    hide Read, Count;
  }

  lemma LogOpsNone(ops: seq<seq<Op>>)
    ensures LogOps([]) == Some(Concat(Pick(ops, [])))
  {
  }

  /** So the log reads back, write by write, as what the arrivals passed. */
  lemma {:induction false} CutReads(log: seq<Bytes>, ops: seq<seq<Op>>, ids: seq<nat>, cuts: seq<nat>)
    requires Cut(log, ops, ids, cuts)
    ensures LogOps(log) == Some(Concat(Pick(ops, ids)))
    decreases |log|
  {
    hide LogOps, Holds, Concat, Pick, Cut;
    if log == [] {
      CutEmpty(ops, ids, cuts);
      LogOpsNone(ops);
    } else {
      CutLess(log, ops, ids, cuts);
      var n := |log| - 1;
      var k := cuts[n];
      CutReads(log[..n], ops, ids[..k], cuts[..n + 1]);
      LogOpsMore(log, Concat(Pick(ops, ids[k..])));
      PickJoin(ops, ids, k);
    }
  }

  lemma CutEmpty(ops: seq<seq<Op>>, ids: seq<nat>, cuts: seq<nat>)
    requires Cut([], ops, ids, cuts)
    ensures ids == []
  {
  }

  lemma PickJoin(ops: seq<seq<Op>>, ids: seq<nat>, k: nat)
    requires k <= |ids|
    ensures Concat(Pick(ops, ids)) == Concat(Pick(ops, ids[..k])) + Concat(Pick(ops, ids[k..]))
  {
    hide Concat, Pick;
    PickConcat(ops, ids[..k], ids[k..]);
    assert ids[..k] + ids[k..] == ids;
  }

  lemma CutLess(log: seq<Bytes>, ops: seq<seq<Op>>, ids: seq<nat>, cuts: seq<nat>)
    requires Cut(log, ops, ids, cuts) && log != []
    ensures |cuts| == |log| + 1
    ensures var n := |log| - 1; var k := cuts[n];
            k <= |ids| && Cut(log[..n], ops, ids[..k], cuts[..n + 1]) && Holds(log[n], Concat(Pick(ops, ids[k..])))
  {
    hide Holds, Concat, Pick;
    var n := |log| - 1;
    var k := cuts[n];
    assert WroteGroup(log[n], ops, ids, k, |ids|) && ids[k..|ids|] == ids[k..];
    CutsRise(log, ops, ids, cuts, n);
    forall i | 0 <= i < n ensures WroteGroup(log[i], ops, ids[..k], cuts[i], cuts[i + 1]) {
      CutsRise(log, ops, ids, cuts, n);
      assert WroteGroup(log[i], ops, ids, cuts[i], cuts[i + 1]);
      assert ids[..k][cuts[i]..cuts[i + 1]] == ids[cuts[i]..cuts[i + 1]];
    }
  }

  lemma {:induction false} CutsRise(log: seq<Bytes>, ops: seq<seq<Op>>, ids: seq<nat>, cuts: seq<nat>, n: nat)
    requires Cut(log, ops, ids, cuts) && n <= |log|
    ensures forall i :: 0 <= i <= n ==> cuts[i] <= cuts[n]
    decreases n
  {
    hide Holds, Concat, Pick;
    if n == 0 {
    } else {
      CutsRise(log, ops, ids, cuts, n - 1);
      assert WroteGroup(log[n - 1], ops, ids, cuts[n - 1], cuts[n]);
    }
  }

  /** How many arrivals have left the queue. */
  function Popped(s: State): nat
    requires |s.queue| <= |s.arrivals|
  {
    |s.arrivals| - |s.queue|
  }

  /** The leader that has written but not yet dismissed its whole group, if there is one. */
  predicate Flushing(pc: Pc) {
    pc.Written? || pc.Popping?
  }

  ghost predicate LogIs(s: State, ops: seq<seq<Op>>, flushed: nat) {
    && flushed <= |s.arrivals|
    && exists cuts :: Cut(s.log, ops, s.arrivals[..flushed], cuts)
  }

  ghost predicate LogOk(s: State, ops: seq<seq<Op>>)
    requires |s.queue| <= |s.arrivals|
  {
    && (forall x :: 0 <= x < |s.pc| && Flushing(s.pc[x]) && s.pc[x].last in s.queue ==>
          LogIs(s, ops, Popped(s) + Index(s.queue, s.pc[x].last) + 1))
    && ((forall x :: 0 <= x < |s.pc| ==> !Flushing(s.pc[x])) ==> LogIs(s, ops, Popped(s)))
  }

  ghost predicate Inv(s: State, ops: seq<seq<Op>>) {
    && Typed(s) && |s.pc| == |ops|
    && QueueOk(s) && LockOk(s) && RolesOk(s) && FrontAwake(s)
    && BatchesOk(s, ops) && LogOk(s, ops)
  }

  lemma InitInv(s: State, ops: seq<seq<Op>>)
    requires IsInit(s, ops)
    ensures Inv(s, ops)
  {
    hide Read, Concat, Index, LogIs, Pick;
    InitParts(s, ops);
    InitLog(s, ops);
    InitLock(s);
    hide IsInit, QueueOk, LockOk, RolesOk, LogOk, Typed, BatchesOk;
  }

  lemma InitLock(s: State)
    requires |s.done| == |s.pc| && s.arrivals == [] && s.queue == [] && s.holder == None
    requires forall x :: 0 <= x < |s.pc| ==> s.pc[x].Idle? && !s.done[x]
    ensures QueueOk(s) && LockOk(s) && RolesOk(s) && FrontAwake(s)
  {
  }

  lemma InitParts(s: State, ops: seq<seq<Op>>)
    requires IsInit(s, ops)
    ensures Typed(s) && BatchesOk(s, ops)
  {
    hide Read, Concat, Index;
  }

  lemma InitLog(s: State, ops: seq<seq<Op>>)
    requires s.arrivals == [] && s.queue == [] && s.log == [] && forall x :: 0 <= x < |s.pc| ==> s.pc[x].Idle?
    ensures LogOk(s, ops)
  {
    hide Index;
    CutNone(ops);
    assert s.arrivals[..0] == [];
  }

  // ----- Every step keeps it -----------------------------------------------------------------------------

  lemma {:induction false} IndexUnique(q: seq<nat>, i: nat)
    requires Distinct(q) && i < |q|
    ensures Index(q, q[i]) == i
    decreases |q|
  {
    if i == 0 {
    } else {
      IndexUnique(q[1..], i - 1);
    }
  }

  lemma EnterQueue(s: State, w: nat)
    requires Enabled(s, Enter(w)) && QueueOk(s) && LockOk(s)
    ensures QueueOk(Do(s, Enter(w))) && LockOk(Do(s, Enter(w))) && Typed(Do(s, Enter(w)))
  {
  }

  lemma EnterRoles(s: State, w: nat)
    requires Enabled(s, Enter(w)) && QueueOk(s) && LockOk(s) && RolesOk(s) && FrontAwake(s)
    ensures RolesOk(Do(s, Enter(w))) && FrontAwake(Do(s, Enter(w)))
  {
    var s' := Do(s, Enter(w));
    assert w !in s.queue;
    forall x | 0 <= x < |s.pc| ensures RoleOk(s', x) {
      assert RoleOk(s, x);
      assert x in s'.queue <==> x in s.queue || x == w;
    }
  }

  lemma {:induction false} IndexGrows(q: seq<nat>, x: nat, y: nat)
    requires x in q
    ensures Index(q + [y], x) == Index(q, x)
    decreases |q|
  {
    if q[0] != x {
      assert (q + [y])[1..] == q[1..] + [y];
      IndexGrows(q[1..], x, y);
    }
  }

  lemma EnterBatches(s: State, ops: seq<seq<Op>>, w: nat)
    requires Inv(s, ops) && Enabled(s, Enter(w))
    ensures BatchesOk(Do(s, Enter(w)), ops)
  {
    hide Holds, Concat, Index, QueueOk, LockOk, RolesOk, LogOk;
    var s' := Do(s, Enter(w));
    forall x | 0 <= x < |s.pc| ensures BatchOk(s', ops, x) {
      assert BatchOk(s, ops, x);
      assert RoleOk(s, x) by { OneRole(s, x); }
      if s.pc[x].Writing? {
        IndexGrows(s.queue, s.pc[x].last, w);
        assert Group(s', s.pc[x].last) == Group(s, s.pc[x].last);
      }
    }
  }

  lemma OneRole(s: State, x: nat)
    requires |s.done| == |s.pc| && x < |s.pc| && RolesOk(s)
    ensures RoleOk(s, x)
  {
  }

  /** Steps that neither write nor pop leave the log account as it is. */
  lemma LogFrame(s: State, s': State, ops: seq<seq<Op>>)
    requires |s.queue| <= |s.arrivals| && |s'.queue| <= |s'.arrivals| && |s'.pc| == |s.pc|
    requires s'.log == s.log && s.arrivals <= s'.arrivals && Popped(s') == Popped(s)
    requires forall x :: 0 <= x < |s.pc| ==> Flushing(s'.pc[x]) == Flushing(s.pc[x])
    requires forall x :: 0 <= x < |s.pc| && Flushing(s.pc[x]) && Flushing(s'.pc[x]) ==>
               && s'.pc[x].last == s.pc[x].last && s.pc[x].last in s.queue && s.pc[x].last in s'.queue
               && Index(s'.queue, s.pc[x].last) == Index(s.queue, s.pc[x].last)
    requires LogOk(s, ops)
    ensures LogOk(s', ops)
  {
    hide Cut, Concat, Index;
    forall k | 0 <= k <= |s.arrivals| ensures LogIs(s, ops, k) ==> LogIs(s', ops, k) {
      assert s'.arrivals[..k] == s.arrivals[..k];
    }
  }

  lemma EnterLog(s: State, ops: seq<seq<Op>>, w: nat)
    requires Inv(s, ops) && Enabled(s, Enter(w))
    ensures LogOk(Do(s, Enter(w)), ops)
  {
    hide Holds, LogIs, Concat, Index, LockOk, BatchesOk;
    var s' := Do(s, Enter(w));
    forall x | 0 <= x < |s.pc| && Flushing(s.pc[x])
      ensures s.pc[x].last in s.queue && Index(s'.queue, s.pc[x].last) == Index(s.queue, s.pc[x].last)
    {
      OneRole(s, x);
      IndexGrows(s.queue, s.pc[x].last, w);
    }
    LogFrame(s, s', ops);
  }

  lemma QuietBatches(s: State, s': State, ops: seq<seq<Op>>, w: nat, pc: Pc)
    requires |s.pc| == |s.batch| == |ops| && BatchesOk(s, ops) && w < |s.pc|
    requires s' == s.(pc := s.pc[w := pc], holder := s'.holder)
    requires BatchOk(s', ops, w)
    ensures BatchesOk(s', ops)
  {
    hide Holds, Concat, Index;
    forall x | 0 <= x < |s.pc| ensures BatchOk(s', ops, x) {
      assert BatchOk(s, ops, x);
    }
  }

  lemma QuietRoles(s: State, s': State, w: nat, pc: Pc)
    requires |s.done| == |s.pc| && RolesOk(s) && w < |s.pc|
    requires s' == s.(pc := s.pc[w := pc], holder := s'.holder) && RoleOk(s', w)
    ensures RolesOk(s')
  {
    forall x | 0 <= x < |s.pc| ensures RoleOk(s', x) {
      OneRole(s, x);
    }
  }

  lemma QuietLog(s: State, s': State, ops: seq<seq<Op>>, w: nat, pc: Pc)
    requires |s.done| == |s.pc| && RolesOk(s) && w < |s.pc| && |s.queue| <= |s.arrivals| && LogOk(s, ops)
    requires s' == s.(pc := s.pc[w := pc], holder := s'.holder)
    requires Flushing(pc) == Flushing(s.pc[w])
    requires Flushing(pc) ==> pc.last == s.pc[w].last
    ensures LogOk(s', ops)
  {
    hide LogIs, Index;
    forall x | 0 <= x < |s.pc| && Flushing(s.pc[x]) ensures s.pc[x].last in s.queue { OneRole(s, x); }
    LogFrame(s, s', ops);
  }

  /** Steps that only move the program counter of one writer, and the lock. */
  lemma QuietKeeps(s: State, s': State, ops: seq<seq<Op>>, w: nat, pc: Pc)
    requires Inv(s, ops) && w < |s.pc|
    requires s' == s.(pc := s.pc[w := pc], holder := s'.holder)
    requires Flushing(pc) == Flushing(s.pc[w])
    requires Flushing(pc) ==> pc.last == s.pc[w].last
    requires !pc.Idle? && !s.pc[w].Idle?
    requires LockOk(s') && RoleOk(s', w) && FrontAwake(s') && BatchOk(s', ops, w)
    ensures Inv(s', ops)
  {
    hide LockOk, RolesOk, BatchesOk, LogOk, FrontAwake, RoleOk, BatchOk;
    QuietQueue(s, s', w, pc);
    QuietRoles(s, s', w, pc);
    QuietBatches(s, s', ops, w, pc);
    hide QueueOk;
    assert |s.queue| <= |s.arrivals| by { QueueShorter(s); }
    QuietLog(s, s', ops, w, pc);
  }

  lemma QuietQueue(s: State, s': State, w: nat, pc: Pc)
    requires QueueOk(s) && w < |s.pc| && s' == s.(pc := s.pc[w := pc], holder := s'.holder)
    requires !pc.Idle? && !s.pc[w].Idle?
    ensures QueueOk(s')
  {
  }

  lemma SleepKeeps(s: State, ops: seq<seq<Op>>, w: nat)
    requires Inv(s, ops) && Enabled(s, Check(w)) && (s.done[w] || s.queue[0] != w)
    ensures Inv(Do(s, Check(w)), ops)
  {
    hide Holds, LogOk, Concat, Index;
    OneRole(s, w);
    var s' := Do(s, Check(w));
    assert BatchOk(s, ops, w);
    QuietKeeps(s, s', ops, w, s'.pc[w]);
  }

  lemma SpuriousKeeps(s: State, ops: seq<seq<Op>>, w: nat)
    requires Inv(s, ops) && Enabled(s, Spurious(w))
    ensures Inv(Do(s, Spurious(w)), ops)
  {
    hide Holds, LogOk, Concat, Index;
    OneRole(s, w);
    var s' := Do(s, Spurious(w));
    assert BatchOk(s, ops, w);
    QuietKeeps(s, s', ops, w, Waking);
  }

  lemma ReacquireKeeps(s: State, ops: seq<seq<Op>>, w: nat)
    requires Inv(s, ops) && Enabled(s, Reacquire(w))
    ensures Inv(Do(s, Reacquire(w)), ops)
  {
    hide Holds, LogOk, Concat, Index;
    OneRole(s, w);
    var s' := Do(s, Reacquire(w));
    assert BatchOk(s, ops, w);
    QuietKeeps(s, s', ops, w, Checking);
  }

  lemma RelockKeeps(s: State, ops: seq<seq<Op>>, w: nat)
    requires Inv(s, ops) && Enabled(s, Relock(w))
    ensures Inv(Do(s, Relock(w)), ops)
  {
    hide Holds, LogOk, Concat, Index;
    OneRole(s, w);
    var s' := Do(s, Relock(w));
    QuietKeeps(s, s', ops, w, s'.pc[w]);
  }

  lemma NotifyKeeps(s: State, ops: seq<seq<Op>>, w: nat)
    requires Inv(s, ops) && Enabled(s, Notify(w))
    ensures Inv(Do(s, Notify(w)), ops)
  {
    hide Holds, LogOk, Concat, Index;
    OneRole(s, w);
    var s1 := s;
    if s.queue != [] && s.pc[s.queue[0]].Sleeping? {
      var x := s.queue[0];
      OneRole(s, x);
      assert BatchOk(s, ops, x);
      s1 := s.(pc := s.pc[x := Waking]);
      QuietKeeps(s, s1, ops, x, Waking);
    }
    var s' := Do(s, Notify(w));
    assert s' == s1.(pc := s1.pc[w := Returned], holder := None);
    QuietKeeps(s1, s', ops, w, Returned);
  }

  /** The writers behind the front wait with their batches untouched. */
  lemma FollowersWait(s: State, ops: seq<seq<Op>>, x: nat)
    requires Inv(s, ops) && s.queue != [] && x in s.queue[1..]
    ensures x < |s.pc| && (s.pc[x].Checking? || s.pc[x].Sleeping? || s.pc[x].Waking?) && !s.done[x]
    ensures Holds(s.batch[x], ops[x]) && SmallBatch(ops[x])
  {
    hide Holds, LogOk, Concat, Index;
    assert x != s.queue[0];
    assert x in s.arrivals;
    OneRole(s, x);
    assert BatchOk(s, ops, x);
  }

  lemma PickConcat(ops: seq<seq<Op>>, a: seq<nat>, b: seq<nat>)
    ensures Pick(ops, a + b) == Pick(ops, a) + Pick(ops, b)
    ensures Concat(Pick(ops, a + b)) == Concat(Pick(ops, a)) + Concat(Pick(ops, b))
  {
    assert Pick(ops, a + b) == Pick(ops, a) + Pick(ops, b);
    ConcatSplit(Pick(ops, a), Pick(ops, b));
  }

  lemma RestHolds(s: State, ops: seq<seq<Op>>, rest: seq<Bytes>, restOps: seq<seq<Op>>)
    requires Inv(s, ops) && s.queue != [] && Below(s.queue[1..], |s.batch|)
    requires rest == Batches(s.batch, s.queue[1..]) && restOps == Pick(ops, s.queue[1..])
    ensures |rest| == |restOps|
    ensures forall i :: 0 <= i < |rest| ==> |rest[i]| >= HEADER && Holds(rest[i], restOps[i]) && SmallBatch(restOps[i])
  {
    assert |s.pc| == |ops|;
    hide Inv, Holds, SmallBatch;
    forall i | 0 <= i < |rest|
      ensures |rest[i]| >= HEADER && Holds(rest[i], restOps[i]) && SmallBatch(restOps[i])
    {
      var x := s.queue[1..][i];
      FollowersWait(s, ops, x);
      assert rest[i] == s.batch[x] && restOps[i] == ops[x];
      HoldsHeader(rest[i], restOps[i]);
    }
  }

  lemma HoldsHeader(rep: Bytes, ops: seq<Op>)
    requires Holds(rep, ops)
    ensures |rep| >= HEADER
  {
  }

  /** The group that Check builds, in terms of the queue. */
  lemma LeadMeans(s: State, ops: seq<seq<Op>>, w: nat)
    requires Inv(s, ops) && Enabled(s, Check(w)) && !s.done[w] && s.queue[0] == w
    ensures var r := Built(s, w);
            && Merged(ops[w], Pick(ops, s.queue[1..]), r.1)
            && Holds(r.0, Concat(Pick(ops, s.queue[..r.1 + 1])))
  {
    hide Merge, Holds, LogOk, Concat, Index, Merged, RolesOk, LockOk, QueueOk;
    var rest := Batches(s.batch, s.queue[1..]);
    assert BatchOk(s, ops, w);
    RestHolds(s, ops, rest, Pick(ops, s.queue[1..]));
    hide BatchOk, BatchesOk, Typed;
    MergeMeans(s.batch[w], ops[w], rest, Pick(ops, s.queue[1..]));
    var k := Merge(s.batch[w], rest).1;
    assert Pick(ops, s.queue[..k + 1]) == [ops[w]] + Pick(ops, s.queue[1..])[..k];
    ConcatOne(ops[w], Pick(ops, s.queue[1..])[..k]);
  }

  /** No second leader: at the front with the lock, nobody else is leading. */
  lemma NoOtherLeader(s: State, w: nat)
    requires |s.done| == |s.pc| && LockOk(s) && RolesOk(s) && w < |s.pc|
    requires s.pc[w].Checking? && s.queue != [] && s.queue[0] == w
    ensures forall y :: 0 <= y < |s.pc| ==> !Leads(s.pc[y])
  {
    forall y | 0 <= y < |s.pc| ensures !Leads(s.pc[y]) { OneRole(s, y); }
  }

  lemma LeadLock(s: State, s': State, w: nat)
    requires |s.done| == |s.pc| && LockOk(s) && RolesOk(s) && w < |s.pc|
    requires s.pc[w].Checking? && s.queue != [] && s.queue[0] == w
    requires |s'.pc| == |s.pc| && s'.pc[w].Writing? && s'.pc == s.pc[w := s'.pc[w]] && s'.holder == None
    ensures LockOk(s')
  {
    NoOtherLeader(s, w);
    hide RolesOk;
  }

  lemma LeadShape(s: State, w: nat)
    requires Typed(s) && QueueOk(s) && w < |s.pc| && s.queue != [] && s.queue[0] == w && !s.pc[w].Idle?
    ensures var s' := Lead(s, w); var last := s.queue[Built(s, w).1];
            && last in s.queue && Group(s, last) == s.queue[..Built(s, w).1 + 1]
            && Typed(s') && QueueOk(s') && FrontAwake(s')
  {
    hide Merge, Index;
    var k := Built(s, w).1;
    assert Distinct(s.queue);
    IndexUnique(s.queue, k);
  }

  lemma LeadKeeps(s: State, ops: seq<seq<Op>>, w: nat)
    requires Inv(s, ops) && Enabled(s, Check(w)) && !s.done[w] && s.queue[0] == w
    ensures Inv(Do(s, Check(w)), ops)
  {
    hide Built, Holds, Concat, Index, LockOk, QueueOk, LogOk, RolesOk, Group, Merged;
    LeadMeans(s, ops, w);
    LeadShape(s, w);
    OneRole(s, w);
    var s' := Lead(s, w);
    LeadLock(s, s', w);
    var last := s.queue[Built(s, w).1];
    var s1 := s.(pc := s'.pc, holder := None);
    QuietRoles(s, s1, w, Writing(last));
    RolesFrame(s1, s');
    QueueShorter(s);
    QuietLog(s, s1, ops, w, Writing(last));
    LeadLog(s, s', ops, w);
    forall x | 0 <= x < |s.pc| ensures BatchOk(s', ops, x) {
      assert BatchOk(s, ops, x);
      LeadBatch(s, s', ops, w, last, x);
    }
  }

  /** Roles depend on nothing but the program counters, the flags and the queue. */
  lemma RolesFrame(s: State, s': State)
    requires |s.done| == |s.pc| && s'.pc == s.pc && s'.done == s.done && s'.queue == s.queue
    requires RolesOk(s)
    ensures RolesOk(s')
  {
    forall x | 0 <= x < |s.pc| ensures RoleOk(s', x) { OneRole(s, x); }
  }

  lemma LeadLog(s: State, s': State, ops: seq<seq<Op>>, w: nat)
    requires |s.queue| <= |s.arrivals| && s' == s.(batch := s'.batch, pc := s'.pc, holder := None)
    requires LogOk(s.(pc := s'.pc, holder := None), ops)
    ensures LogOk(s', ops)
  {
    hide Index, Concat, Cut;
    forall k | 0 <= k ensures LogIs(s.(pc := s'.pc, holder := None), ops, k) <==> LogIs(s', ops, k) {}
  }

  lemma LeadBatch(s: State, s': State, ops: seq<seq<Op>>, w: nat, last: nat, x: nat)
    requires |s.pc| == |s.batch| == |ops| == |s'.pc| == |s'.batch| && x < |s.pc| && w < |s.pc|
    requires BatchOk(s, ops, x) && s'.queue == s.queue && last in s.queue
    requires s'.pc == s.pc[w := Writing(last)] && s'.batch == s.batch[w := s'.batch[w]]
    requires Holds(s'.batch[w], Concat(Pick(ops, Group(s, last))))
    ensures BatchOk(s', ops, x)
  {
    hide Holds, Concat, Index;
  }

  lemma CheckKeeps(s: State, ops: seq<seq<Op>>, w: nat)
    requires Inv(s, ops) && Enabled(s, Check(w))
    ensures Inv(Do(s, Check(w)), ops)
  {
    hide Inv;
    if s.done[w] || s.queue[0] != w { SleepKeeps(s, ops, w); } else { LeadKeeps(s, ops, w); }
  }

  lemma OnlyLeader(s: State, w: nat, x: nat)
    requires LockOk(s) && w < |s.pc| && x < |s.pc| && Leads(s.pc[w]) && x != w
    ensures !Leads(s.pc[x])
  {
  }

  /** One write: the log grows by what the group's writers passed, in queue order. */
  lemma IOLog(s: State, ops: seq<seq<Op>>, w: nat)
    requires Inv(s, ops) && Enabled(s, DoIO(w))
    ensures var last := s.pc[w].last;
            && last in s.queue
            && LogIs(s.(log := s.log + [s.batch[w]]), ops, Popped(s) + Index(s.queue, last) + 1)
  {
    hide Index, Holds, Concat, Pick, Cut;
    OneRole(s, w);
    assert BatchOk(s, ops, w);
    var last := s.pc[w].last;
    forall x | 0 <= x < |s.pc| ensures !Flushing(s.pc[x]) { if x != w { OnlyLeader(s, w, x); } }
    assert LogIs(s, ops, Popped(s));
    var ids := s.arrivals[..Popped(s)];
    var cuts :| Cut(s.log, ops, ids, cuts);
    assert s.arrivals[..Popped(s) + Index(s.queue, last) + 1] == ids + Group(s, last);
    CutMore(s.log, ops, ids, cuts, s.batch[w], Group(s, last));
  }

  lemma LockFrame(s: State, s1: State, w: nat, pc: Pc)
    requires LockOk(s) && w < |s.pc| && s1 == s.(pc := s.pc[w := pc])
    requires Leads(pc) == Leads(s.pc[w]) && HoldsLock(pc) == HoldsLock(s.pc[w])
    ensures LockOk(s1)
  {
    forall x | 0 <= x < |s.pc| ensures Leads(s1.pc[x]) == Leads(s.pc[x]) && HoldsLock(s1.pc[x]) == HoldsLock(s.pc[x]) {}
    hide Leads, HoldsLock;
  }

  /** The program counter's part of the I/O step. */
  lemma IORoles(s: State, w: nat, s1: State)
    requires |s.done| == |s.pc| && QueueOk(s) && RolesOk(s) && w < |s.pc| && s.pc[w].Writing?
    requires s1 == s.(pc := s.pc[w := Written(s.pc[w].last)])
    ensures QueueOk(s1) && RolesOk(s1)
  {
    hide QueueOk, RolesOk;
    OneRole(s, w);
    QuietQueue(s, s1, w, s1.pc[w]);
    QuietRoles(s, s1, w, s1.pc[w]);
  }

  lemma IOPc(s: State, ops: seq<seq<Op>>, w: nat, s1: State)
    requires |s.done| == |s.batch| == |s.pc| == |ops| && LockOk(s) && FrontAwake(s) && BatchesOk(s, ops)
    requires w < |s.pc| && s.pc[w].Writing? && s1 == s.(pc := s.pc[w := Written(s.pc[w].last)])
    ensures LockOk(s1) && FrontAwake(s1) && BatchesOk(s1, ops)
  {
    hide BatchesOk, LockOk;
    QuietBatches(s, s1, ops, w, s1.pc[w]);
    LockFrame(s, s1, w, s1.pc[w]);
  }

  lemma IOKeeps(s: State, ops: seq<seq<Op>>, w: nat)
    requires Inv(s, ops) && Enabled(s, DoIO(w))
    ensures Inv(Do(s, DoIO(w)), ops)
  {
    IOLogOk(s, ops, w);
    assert |s.done| == |s.batch| == |s.pc| == |ops|;
    var s1 := s.(pc := s.pc[w := Written(s.pc[w].last)]);
    var s' := Do(s, DoIO(w));
    assert s' == s1.(log := s'.log);
    IORoles(s, w, s1);
    IOPc(s, ops, w, s1);
    TypedFrame(s, s');
    hide Do, Enabled, LogOk, Typed, RolesOk, BatchesOk, QueueOk, LockOk, FrontAwake;
    LogLast(s1, s', ops);
  }

  /** Nothing but LogOk reads the log. */
  lemma LogLast(s: State, s': State, ops: seq<seq<Op>>)
    requires |s.pc| == |s.batch| == |s.done| == |ops| && s' == s.(log := s'.log)
    requires QueueOk(s) && LockOk(s) && RolesOk(s) && FrontAwake(s) && BatchesOk(s, ops)
    ensures QueueOk(s') && LockOk(s') && RolesOk(s') && FrontAwake(s') && BatchesOk(s', ops)
  {
    hide RolesOk, BatchesOk, Index;
    RolesFrame(s, s');
    BatchesFrame(s, s', ops);
  }

  lemma BatchesFrame(s: State, s': State, ops: seq<seq<Op>>)
    requires |s.pc| == |s.batch| == |ops| && BatchesOk(s, ops)
    requires s'.pc == s.pc && s'.batch == s.batch && s'.queue == s.queue
    ensures BatchesOk(s', ops)
  {
    hide Holds, Concat, Index, Pick;
    forall x | 0 <= x < |s.pc| ensures BatchOk(s', ops, x) { assert BatchOk(s, ops, x); }
  }

  lemma TypedFrame(s: State, s': State)
    requires Typed(s) && s'.batch == s.batch && s'.queue == s.queue && s'.done == s.done && |s'.pc| == |s.pc|
    ensures Typed(s')
  {
  }

  /** The log account when at most one writer, w, can be flushing. */
  lemma LogOkOf(s: State, ops: seq<seq<Op>>, w: nat, k: nat)
    requires |s.queue| <= |s.arrivals| && w < |s.pc| && LogIs(s, ops, k)
    requires forall x :: 0 <= x < |s.pc| && x != w ==> !Flushing(s.pc[x])
    requires if Flushing(s.pc[w]) then s.pc[w].last in s.queue && k == Popped(s) + Index(s.queue, s.pc[w].last) + 1
             else k == Popped(s)
    ensures LogOk(s, ops)
  {
    hide LogIs, Index;
  }

  lemma LogOkAt(s: State, ops: seq<seq<Op>>, w: nat)
    requires |s.queue| <= |s.arrivals| && LogOk(s, ops) && w < |s.pc| && Flushing(s.pc[w]) && s.pc[w].last in s.queue
    ensures LogIs(s, ops, Popped(s) + Index(s.queue, s.pc[w].last) + 1)
  {
    hide LogIs, Index;
  }

  lemma NoOtherFlush(s: State, s': State, w: nat)
    requires LockOk(s) && w < |s.pc| == |s'.pc| && Leads(s.pc[w])
    requires forall x :: 0 <= x < |s.pc| && x != w ==> Leads(s'.pc[x]) ==> Leads(s.pc[x])
    ensures forall x :: 0 <= x < |s.pc| && x != w ==> !Flushing(s'.pc[x])
  {
    forall x | 0 <= x < |s.pc| && x != w ensures !Flushing(s'.pc[x]) { OnlyLeader(s, w, x); }
  }

  lemma IOLogOk(s: State, ops: seq<seq<Op>>, w: nat)
    requires Inv(s, ops) && Enabled(s, DoIO(w))
    ensures LogOk(Do(s, DoIO(w)), ops)
  {
    hide LogIs, Index, LogOk, LockOk, RolesOk, BatchesOk, QueueOk, FrontAwake;
    IOLog(s, ops, w);
    QueueShorter(s);
    IOLogMoved(s, ops, w, Do(s, DoIO(w)));
  }

  lemma IOLogMoved(s: State, ops: seq<seq<Op>>, w: nat, s': State)
    requires |s.queue| <= |s.arrivals| && LockOk(s)
    requires w < |s.pc| == |s.batch| && s.pc[w].Writing? && s.pc[w].last in s.queue
    requires s' == s.(pc := s.pc[w := Written(s.pc[w].last)], log := s.log + [s.batch[w]])
    requires LogIs(s.(log := s.log + [s.batch[w]]), ops, Popped(s) + Index(s.queue, s.pc[w].last) + 1)
    ensures LogOk(s', ops)
  {
    hide LogIs, Index, LogOk, LockOk;
    NoOtherFlush(s, s', w);
    LogIsFrame(s.(log := s.log + [s.batch[w]]), s', ops, Popped(s) + Index(s.queue, s.pc[w].last) + 1);
    LogOkOf(s', ops, w, Popped(s) + Index(s.queue, s.pc[w].last) + 1);
  }

  lemma LogIsFrame(s: State, s': State, ops: seq<seq<Op>>, k: nat)
    requires s'.log == s.log && s'.arrivals == s.arrivals && LogIs(s, ops, k)
    ensures LogIs(s', ops, k)
  {
    hide Cut;
  }

  // ----- One round of the pop loop -----------------------------------------------------------------------

  lemma DistinctTail(q: seq<nat>)
    requires Distinct(q) && q != []
    ensures q[0] !in q[1..] && forall x :: x != q[0] ==> (x in q[1..] <==> x in q)
  {
    assert q == [q[0]] + q[1..];
  }

  lemma QueueDistinct(s: State)
    requires QueueOk(s)
    ensures Distinct(s.queue) && forall x :: x in s.queue ==> x < |s.pc| && !s.pc[x].Idle?
  {
    forall x | x in s.queue ensures x < |s.pc| && !s.pc[x].Idle? {
      assert x in s.arrivals;
    }
  }

  /** What the pop takes off, seen from the queue. */
  lemma PopQueue(s: State, w: nat)
    requires Enabled(s, Pop(w)) && QueueOk(s) && LockOk(s) && RolesOk(s)
    ensures var ready := s.queue[0]; var rest := s.queue[1..];
            && ready !in rest && w !in rest
            && (ready != s.pc[w].last ==> s.pc[w].last in rest)
            && (forall x :: x != ready ==> (x in rest <==> x in s.queue))
            && (ready != w ==> s.pc[ready].Sleeping? || s.pc[ready].Waking?)
            && !s.done[ready]
  {
    hide Index, QueueOk, LockOk, RolesOk, Distinct;
    QueueDistinct(s);
    DistinctTail(s.queue);
    var ready := s.queue[0];
    OneRole(s, w);
    OneRole(s, ready);
    if ready != w {
      OnlyLeader(s, w, ready);
      OnlyHolder(s, w, ready);
    }
  }

  lemma OnlyHolder(s: State, w: nat, x: nat)
    requires LockOk(s) && w < |s.pc| && x < |s.pc| && HoldsLock(s.pc[w]) && x != w
    ensures !HoldsLock(s.pc[x])
  {
  }

  /** What a round of the pop loop leaves as it was. */
  lemma PopFrame(s: State, w: nat)
    requires Enabled(s, Pop(w))
    requires s.queue[0] != w ==> s.pc[s.queue[0]].Sleeping? || s.pc[s.queue[0]].Waking?
    ensures var s' := PopFront(s, w);
            && s'.queue == s.queue[1..] && s'.arrivals == s.arrivals && s'.holder == s.holder
            && s'.batch == s.batch && |s'.pc| == |s.pc| && |s'.done| == |s.done|
            && (forall x :: 0 <= x < |s.pc| ==>
                  && (s'.pc[x].Idle? <==> s.pc[x].Idle?)
                  && (Leads(s'.pc[x]) <==> Leads(s.pc[x]))
                  && (HoldsLock(s'.pc[x]) <==> HoldsLock(s.pc[x])))
  {
  }

  lemma PopTyped(s: State, w: nat)
    requires Enabled(s, Pop(w)) && QueueOk(s) && LockOk(s) && RolesOk(s)
    ensures Typed(PopFront(s, w)) && QueueOk(PopFront(s, w))
  {
    hide LockOk, RolesOk, Distinct, PopFront, Leads, HoldsLock, QueueOk;
    PopQueue(s, w);
    PopFrame(s, w);
    PopQueueOk(s, PopFront(s, w));
  }

  lemma PopQueueOk(s: State, s': State)
    requires QueueOk(s) && s.queue != [] && s'.queue == s.queue[1..] && s'.arrivals == s.arrivals
    requires |s'.pc| == |s.pc| && forall x :: 0 <= x < |s.pc| ==> (s'.pc[x].Idle? <==> s.pc[x].Idle?)
    ensures QueueOk(s')
  {
    hide Distinct;
    PopTail(s.arrivals, s.queue);
  }

  lemma PopTail(all: seq<nat>, queue: seq<nat>)
    requires queue != [] && |queue| <= |all| && queue == all[|all| - |queue|..]
    ensures queue[1..] == all[|all| - |queue[1..]|..]
  {
  }

  lemma PopRole(s: State, w: nat, x: nat)
    requires Enabled(s, Pop(w)) && QueueOk(s) && LockOk(s) && RolesOk(s) && x < |s.pc|
    ensures RoleOk(PopFront(s, w), x)
  {
    hide QueueOk, LockOk, RolesOk, Index;
    PopQueue(s, w);
    OneRole(s, w);
    OneRole(s, x);
    if x != w { OnlyLeader(s, w, x); }
  }

  lemma PopLock(s: State, w: nat)
    requires Enabled(s, Pop(w)) && QueueOk(s) && LockOk(s) && RolesOk(s)
    ensures LockOk(PopFront(s, w)) && FrontAwake(PopFront(s, w))
  {
    PopQueue(s, w);
    PopFrame(s, w);
    PopAwake(s, w);
    hide QueueOk, RolesOk, Typed, PopFront, Leads, HoldsLock, FrontAwake;
  }

  lemma PopAwake(s: State, w: nat)
    requires Enabled(s, Pop(w))
    requires s.queue[0] != w ==> s.pc[s.queue[0]].Sleeping? || s.pc[s.queue[0]].Waking?
    ensures FrontAwake(PopFront(s, w))
  {
    assert Dismissing(PopFront(s, w));
  }

  lemma PopBatches(s: State, ops: seq<seq<Op>>, w: nat)
    requires Inv(s, ops) && Enabled(s, Pop(w))
    ensures BatchesOk(PopFront(s, w), ops)
  {
    hide QueueOk, Index, Holds, Concat, RolesOk, LogOk, Pick, LockOk, FrontAwake;
    PopQueue(s, w);
    var s' := PopFront(s, w);
    forall x | 0 <= x < |s.pc| ensures BatchOk(s', ops, x) {
      assert BatchOk(s, ops, x);
      if x != w { OnlyLeader(s, w, x); }
    }
  }

  lemma IndexStep(q: seq<nat>, x: nat)
    requires x in q
    ensures q[0] == x ==> Index(q, x) == 0
    ensures q[0] != x ==> x in q[1..] && Index(q, x) == 1 + Index(q[1..], x)
  {
  }

  lemma PopLog(s: State, ops: seq<seq<Op>>, w: nat)
    requires Inv(s, ops) && Enabled(s, Pop(w))
    ensures LogOk(PopFront(s, w), ops)
  {
    hide QueueOk, Index, RolesOk, LogIs, BatchesOk, LogOk, FrontAwake, LockOk;
    PopQueue(s, w);
    OneRole(s, w);
    assert |s.queue| <= |s.arrivals| by { QueueShorter(s); }
    var s' := PopFront(s, w);
    var last := s.pc[w].last;
    var flushed := Popped(s) + Index(s.queue, last) + 1;
    IndexStep(s.queue, last);
    LogOkAt(s, ops, w);
    LogIsFrame(s, s', ops, flushed);
    forall x | 0 <= x < |s.pc| && x != w ensures !Flushing(s'.pc[x]) { OnlyLeader(s, w, x); }
    LogOkOf(s', ops, w, flushed);
  }

  lemma QueueShorter(s: State)
    requires QueueOk(s)
    ensures |s.queue| <= |s.arrivals|
  {
  }

  lemma PopKeeps(s: State, ops: seq<seq<Op>>, w: nat)
    requires Inv(s, ops) && Enabled(s, Pop(w))
    ensures Inv(Do(s, Pop(w)), ops)
  {
    PopTyped(s, w);
    PopLock(s, w);
    PopBatches(s, ops, w);
    PopLog(s, ops, w);
    forall x | 0 <= x < |s.pc| ensures RoleOk(PopFront(s, w), x) { PopRole(s, w, x); }
    hide QueueOk, LockOk, RoleOk, FrontAwake, BatchesOk, LogOk, Typed;
  }

  lemma EnterKeeps(s: State, ops: seq<seq<Op>>, w: nat)
    requires Inv(s, ops) && Enabled(s, Enter(w))
    ensures Inv(Do(s, Enter(w)), ops)
  {
    EnterQueue(s, w);
    EnterRoles(s, w);
    EnterBatches(s, ops, w);
    EnterLog(s, ops, w);
    hide QueueOk, LockOk, RolesOk, FrontAwake, BatchesOk, LogOk, Typed;
  }

  lemma StepKeeps(s: State, ops: seq<seq<Op>>, a: Action)
    requires Inv(s, ops) && Enabled(s, a)
    ensures Inv(Do(s, a), ops)
  {
    hide Inv, Do, Enabled;
    match a
    case Enter(w) => EnterKeeps(s, ops, w);
    case Check(w) => CheckKeeps(s, ops, w);
    case Spurious(w) => SpuriousKeeps(s, ops, w);
    case Reacquire(w) => ReacquireKeeps(s, ops, w);
    case DoIO(w) => IOKeeps(s, ops, w);
    case Relock(w) => RelockKeeps(s, ops, w);
    case Pop(w) => PopKeeps(s, ops, w);
    case Notify(w) => NotifyKeeps(s, ops, w);
  }
}
