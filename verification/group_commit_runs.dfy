/** What group commit guarantees in every interleaving: order, wakeups, a stable leader, an end. */
module GroupCommitRuns {
  import opened Coding
  import opened Options
  import opened WriteBatches
  import opened GroupCommit

  ghost predicate IsRun(s: State, acts: seq<Action>)
    decreases |acts|
  {
    acts == [] || (Enabled(s, acts[0]) && IsRun(Do(s, acts[0]), acts[1..]))
  }

  ghost function After(s: State, acts: seq<Action>): State
    requires IsRun(s, acts)
    decreases |acts|
  {
    if acts == [] then s else After(Do(s, acts[0]), acts[1..])
  }

  lemma {:induction false} RunKeeps(s: State, ops: seq<seq<Op>>, acts: seq<Action>)
    requires Inv(s, ops) && IsRun(s, acts)
    ensures Inv(After(s, acts), ops)
    decreases |acts|
  {
    hide Inv, Do, Enabled;
    if acts == [] {
    } else {
      StepKeeps(s, ops, acts[0]);
      RunKeeps(Do(s, acts[0]), ops, acts[1..]);
    }
  }

  // ----- Order -------------------------------------------------------------------------------------------

  /** The writers that have entered Write in a run, in the order in which they did. */
  function Entered(acts: seq<Action>): seq<nat> {
    if acts == [] then [] else (if acts[0].Enter? then [acts[0].w] else []) + Entered(acts[1..])
  }

  /** The arrivals are just that: Enter puts the newcomer behind all others. */
  lemma {:induction false} ArrivalsAreEntered(s: State, acts: seq<Action>)
    requires IsRun(s, acts)
    ensures After(s, acts).arrivals == s.arrivals + Entered(acts)
    decreases |acts|
  {
    hide Enabled, Do;
    if acts == [] {
    } else {
      EnterArrives(s, acts[0]);
      ArrivalsAreEntered(Do(s, acts[0]), acts[1..]);
      Regroup(s.arrivals, if acts[0].Enter? then [acts[0].w] else [], Entered(acts[1..]));
    }
  }

  lemma Regroup(a: seq<nat>, b: seq<nat>, c: seq<nat>)
    ensures (a + b) + c == a + (b + c) && a + [] == a
  {
  }

  lemma EnterArrives(s: State, a: Action)
    requires Enabled(s, a)
    ensures Do(s, a).arrivals == if a.Enter? then s.arrivals + [a.w] else s.arrivals
  {
    hide Merge;
  }

  lemma FromInit(s0: State, ops: seq<seq<Op>>, acts: seq<Action>)
    requires IsInit(s0, ops) && IsRun(s0, acts)
    ensures After(s0, acts).arrivals == Entered(acts)
  {
    hide After, IsRun, Entered;
    ArrivalsAreEntered(s0, acts);
    assert s0.arrivals == [];
  }

  /** The first k of `order` fall into consecutive groups, one for each write in the log, the bytes of
      which are a well-formed batch of exactly what the group passed, in that order; and everybody who
      has left the queue is among them. */
  ghost predicate Logged(s: State, ops: seq<seq<Op>>, order: seq<nat>, k: nat) {
    && |s.done| == |s.pc| && k <= |order|
    && (exists cuts :: Cut(s.log, ops, order[..k], cuts))
    && LogOps(s.log) == Some(Concat(Pick(ops, order[..k])))
    && Distinct(order)
    && (forall x :: 0 <= x < |s.pc| && (s.done[x] || s.pc[x].Returned?) ==> x in order[..k])
  }

  lemma LogPoint(s: State, ops: seq<seq<Op>>)
    requires Inv(s, ops)
    ensures |s.done| == |s.pc| && exists k :: Popped(s) <= k <= |s.arrivals| && LogIs(s, ops, k)
  {
    hide LogIs, Index, Distinct, BatchesOk, LockOk;
    if exists x :: 0 <= x < |s.pc| && Flushing(s.pc[x]) {
      var x :| 0 <= x < |s.pc| && Flushing(s.pc[x]);
      OneRole(s, x);
      LogOkAt(s, ops, x);
      var k := Popped(s) + Index(s.queue, s.pc[x].last) + 1;
      assert LogIs(s, ops, k);
    } else {
      assert LogIs(s, ops, Popped(s));
    }
  }

  lemma LeftQueue(s: State, ops: seq<seq<Op>>, x: nat, k: nat)
    requires Inv(s, ops) && Popped(s) <= k <= |s.arrivals| && x < |s.pc| && (s.done[x] || s.pc[x].Returned?)
    ensures x in s.arrivals[..k]
  {
    hide Index, LogOk, BatchesOk, LockOk;
    OneRole(s, x);
    assert x !in s.queue && x in s.arrivals;
    assert s.arrivals == s.arrivals[..Popped(s)] + s.queue;
    var i :| 0 <= i < Popped(s) && s.arrivals[i] == x;
    assert s.arrivals[..k][i] == x;
  }

  lemma LoggedAt(s: State, ops: seq<seq<Op>>, k: nat)
    requires |s.done| == |s.pc| && LogIs(s, ops, k) && Distinct(s.arrivals)
    requires forall x :: 0 <= x < |s.pc| && (s.done[x] || s.pc[x].Returned?) ==> x in s.arrivals[..k]
    ensures Logged(s, ops, s.arrivals, k)
  {
    hide Cut, LogOps, Distinct, Concat, Pick;
    var cuts :| Cut(s.log, ops, s.arrivals[..k], cuts);
    CutReads(s.log, ops, s.arrivals[..k], cuts);
  }

  lemma InvLogged(s: State, ops: seq<seq<Op>>)
    requires Inv(s, ops)
    ensures exists k :: Logged(s, ops, s.arrivals, k)
  {
    hide LogIs, Logged, Distinct, LogOk, BatchesOk, LockOk, RolesOk, FrontAwake, Typed;
    LogPoint(s, ops);
    var k :| Popped(s) <= k <= |s.arrivals| && LogIs(s, ops, k);
    forall x | 0 <= x < |s.pc| && (s.done[x] || s.pc[x].Returned?) ensures x in s.arrivals[..k] {
      LeftQueue(s, ops, x, k);
    }
    LoggedAt(s, ops, k);
  }

  /** In every interleaving: the log is the writers' original batches in the order in which they
      entered Write, one well-formed write for each group, each batch at most once, and no Write has
      returned, or been dismissed, before its batch is in the log. */
  lemma OrderedLog(s0: State, ops: seq<seq<Op>>, acts: seq<Action>)
    requires IsInit(s0, ops) && IsRun(s0, acts)
    ensures exists k :: Logged(After(s0, acts), ops, Entered(acts), k)
  {
    hide After, IsRun, IsInit, Inv, Logged, Entered;
    InitInv(s0, ops);
    RunKeeps(s0, ops, acts);
    FromInit(s0, ops, acts);
    InvLogged(After(s0, acts), ops);
  }

  // ----- Wakeups --------------------------------------------------------------------------------------------

  /** Whenever the lock is free, the front of the queue is the leader in its I/O, or it is awake or
      has been signalled; and a dismissed writer never sleeps. */
  lemma NoLostWakeup(s0: State, ops: seq<seq<Op>>, acts: seq<Action>)
    requires IsInit(s0, ops) && IsRun(s0, acts)
    ensures var s := After(s0, acts);
            && |s.done| == |s.pc| && Below(s.queue, |s.pc|)
            && (s.holder == None && s.queue != [] ==>
                  var pc := s.pc[s.queue[0]]; pc.Writing? || pc.Written? || pc.Waking?)
            && (forall x :: 0 <= x < |s.pc| && s.done[x] ==> !s.pc[x].Sleeping?)
  {
    InitInv(s0, ops);
    RunKeeps(s0, ops, acts);
    hide After, IsRun, IsInit;
    WakeupInv(After(s0, acts), ops);
  }

  lemma WakeupInv(s: State, ops: seq<seq<Op>>)
    requires Inv(s, ops)
    ensures |s.done| == |s.pc| && Below(s.queue, |s.pc|)
    ensures s.holder == None && s.queue != [] ==>
              var pc := s.pc[s.queue[0]]; pc.Writing? || pc.Written? || pc.Waking?
    ensures forall x :: 0 <= x < |s.pc| && s.done[x] ==> !s.pc[x].Sleeping?
  {
    hide BatchesOk, LogOk, Index;
    if s.queue != [] {
      OneRole(s, s.queue[0]);
      assert s.queue[0] in s.arrivals;
    }
    forall x | 0 <= x < |s.pc| && s.done[x] ensures !s.pc[x].Sleeping? { OneRole(s, x); }
  }

  /** A thread that holds the lock can always go on: it never meets an empty queue. */
  lemma HolderSteps(s: State, ops: seq<seq<Op>>) returns (a: Action)
    requires Inv(s, ops) && s.holder.Some?
    ensures Enabled(s, a) && !a.Spurious?
  {
    hide BatchesOk, LogOk, Index, QueueOk;
    var w := s.holder.value;
    OneRole(s, w);
    assert HoldsLock(s.pc[w]);
    a := match s.pc[w]
      case Checking => Check(w)
      case Popping(_) => Pop(w)
      case _ => Notify(w);
  }

  /** A writer that is not finished, with the lock free, is not stuck for good: if it sleeps, it is
      queued, and whoever is at the front is not asleep. */
  lemma FreeLock(s: State, ops: seq<seq<Op>>, x: nat)
    requires Inv(s, ops) && s.holder.None? && x < |s.pc| && !s.pc[x].Returned?
    ensures !HoldsLock(s.pc[x])
    ensures s.pc[x].Sleeping? ==> s.queue != [] && s.queue[0] < |s.pc|
    ensures s.pc[x].Sleeping? ==> var pc := s.pc[s.queue[0]]; pc.Writing? || pc.Written? || pc.Waking?
  {
    hide BatchesOk, LogOk, Index, QueueOk;
    OneRole(s, x);
    WakeupInv(s, ops);
  }

  /** While any Write is unfinished, some step other than a spurious wakeup is possible. */
  lemma CanStep(s: State, ops: seq<seq<Op>>, x: nat) returns (a: Action)
    requires Inv(s, ops) && x < |s.pc| && !s.pc[x].Returned?
    ensures Enabled(s, a) && !a.Spurious?
  {
    hide BatchesOk, LogOk, Index, QueueOk, LockOk, RolesOk;
    if s.holder.Some? {
      a := HolderSteps(s, ops);
    } else {
      FreeLock(s, ops, x);
      var y := if s.pc[x].Sleeping? then s.queue[0] else x;
      a := if s.pc[y].Idle? then Enter(y)
           else if s.pc[y].Waking? then Reacquire(y)
           else if s.pc[y].Writing? then DoIO(y)
           else Relock(y);
    }
  }

  // ----- The leader --------------------------------------------------------------------------------------------

  /** While a leader is in its I/O: it is the only leader, it stays at the front, and the group
      stays the same prefix of the queue, whatever the others do. */
  lemma LeaderStable(s: State, ops: seq<seq<Op>>, w: nat, a: Action)
    requires Inv(s, ops) && w < |s.pc| && (s.pc[w].Writing? || s.pc[w].Written?) && Enabled(s, a)
    requires a != Relock(w)
    ensures var s' := Do(s, a); var last := s.pc[w].last;
            && |s'.pc| == |s.pc| && (s'.pc[w] == s.pc[w] || s'.pc[w] == Written(last))
            && last in s.queue && last in s'.queue && s'.queue[0] == w
            && Group(s', last) == Group(s, last)
            && (forall y :: 0 <= y < |s.pc| && y != w ==> !Leads(s'.pc[y]))
  {
    assert |s.done| == |s.pc|;
    hide QueueOk, BatchesOk, LogOk, Index, FrontAwake, Do, RolesOk, LockOk, Typed, Group;
    OnlyOne(s, w, a);
    LeaderLock(s, ops, a);
    var s' := Do(s, a);
    GroupStays(s, s', w, a);
    NoOtherLeads(s', w);
  }

  lemma LeaderLock(s: State, ops: seq<seq<Op>>, a: Action)
    requires Inv(s, ops) && Enabled(s, a)
    ensures LockOk(Do(s, a))
  {
    hide Do, QueueOk, BatchesOk, LogOk, FrontAwake, RolesOk, LockOk, Typed, Enabled;
    StepKeeps(s, ops, a);
  }

  lemma GroupStays(s: State, s': State, w: nat, a: Action)
    requires |s.done| == |s.pc| && RolesOk(s) && w < |s.pc| && (s.pc[w].Writing? || s.pc[w].Written?)
    requires s'.queue == s.queue || (a.Enter? && s'.queue == s.queue + [a.w])
    ensures var last := s.pc[w].last;
            && last in s.queue && last in s'.queue && s'.queue[0] == w
            && Group(s', last) == Group(s, last)
  {
    hide Index;
    OneRole(s, w);
    if s'.queue != s.queue { IndexGrows(s.queue, s.pc[w].last, a.w); }
  }

  lemma NoOtherLeads(s: State, w: nat)
    requires LockOk(s) && w < |s.pc| && Leads(s.pc[w])
    ensures forall y :: 0 <= y < |s.pc| && y != w ==> !Leads(s.pc[y])
  {
  }

  /** Nobody else pops or becomes a leader meanwhile. */
  lemma OnlyOne(s: State, w: nat, a: Action)
    requires |s.done| == |s.pc| && LockOk(s) && RolesOk(s) && Enabled(s, a)
    requires w < |s.pc| && (s.pc[w].Writing? || s.pc[w].Written?) && a != Relock(w)
    ensures var s' := Do(s, a);
            && |s'.pc| == |s.pc| && (s'.pc[w] == s.pc[w] || s'.pc[w] == Written(s.pc[w].last))
            && (s'.queue == s.queue || (a.Enter? && s'.queue == s.queue + [a.w]))
  {
    hide Index;
    OneRole(s, w);
    if a.w != w { OnlyLeader(s, w, a.w); OneRole(s, a.w); }
  }

  /** The group a leader builds is the shortest prefix of the queue with two operations or more,
      or the whole queue, and its merged batch reads back as the group's operations in order. */
  lemma LeaderGroup(s: State, ops: seq<seq<Op>>, w: nat)
    requires Inv(s, ops) && Enabled(s, Check(w)) && Do(s, Check(w)).pc[w].Writing?
    ensures var s' := Do(s, Check(w)); var last := s'.pc[w].last;
            && s.queue[0] == w && last in s.queue
            && Merged(ops[w], Pick(ops, s.queue[1..]), |Group(s, last)| - 1)
            && Holds(s'.batch[w], Concat(Pick(ops, Group(s, last))))
  {
    hide Inv, Typed, QueueOk, Built, Group, Merged, Holds, Concat, Pick, Merge, Index;
    LeaderFront(s, ops, w);
    LeadMeans(s, ops, w);
    LeadShape(s, w);
  }

  /** Whoever goes on to write has just found itself at the front, not done. */
  lemma LeaderFront(s: State, ops: seq<seq<Op>>, w: nat)
    requires Inv(s, ops) && Enabled(s, Check(w)) && Do(s, Check(w)).pc[w].Writing?
    ensures Typed(s) && QueueOk(s) && w < |s.pc| && !s.pc[w].Idle?
    ensures !s.done[w] && s.queue != [] && s.queue[0] == w
    ensures var s', k := Do(s, Check(w)), Built(s, w).1;
            s'.pc[w].last == s.queue[k] && s'.batch[w] == Built(s, w).0
    ensures s.queue[..Built(s, w).1 + 1] != [] && s.queue[Built(s, w).1] in s.queue
  {
    hide Built, Merge, BatchesOk, LogOk, RolesOk, LockOk;
  }

  // ----- Every run ends ------------------------------------------------------------------------------------------

  /** Writer w needs no further signal: it is dismissed, or at the front with nobody popping. */
  predicate Resolved(s: State, w: nat)
    requires w < |s.pc| == |s.done|
  {
    s.done[w] || (s.queue != [] && s.queue[0] == w && !Dismissing(s))
  }

  const MOST_STEPS: nat := 14

  function Rank(s: State, w: nat): nat
    requires w < |s.pc| == |s.done|
  {
    match s.pc[w]
    case Idle => MOST_STEPS
    case Checking => if Resolved(s, w) then 6 else 9
    case Sleeping => 8
    case Waking => if Resolved(s, w) then 7 else 10
    case Writing(_) => 5
    case Written(_) => 4
    case Popping(_) => 3
    case Notifying => 2
    case Returned => 0
  }

  function Ranks(s: State, n: nat): nat
    requires n <= |s.pc| == |s.done|
  {
    if n == 0 then 0 else Ranks(s, n - 1) + Rank(s, n - 1)
  }

  /** An upper bound on the steps that remain, spurious wakeups aside. */
  function Remaining(s: State): nat
    requires |s.pc| == |s.done|
  {
    Ranks(s, |s.pc|) + |s.queue|
  }

  lemma {:induction false} RanksDiffer(s: State, s': State, n: nat, w: nat, up: int)
    requires n <= |s.pc| == |s.done| == |s'.pc| == |s'.done|
    requires forall x :: 0 <= x < n && x != w ==> Rank(s', x) <= Rank(s, x)
    requires w < n ==> Rank(s', w) <= Rank(s, w) + up
    ensures Ranks(s', n) <= Ranks(s, n) + if w < n then up else 0
    decreases n
  {
    if n == 0 {
    } else {
      RanksDiffer(s, s', n - 1, w, up);
    }
  }

  lemma RemainingDrops(s: State, s': State, w: nat, up: int)
    requires |s.pc| == |s.done| == |s'.pc| == |s'.done| && w < |s.pc|
    requires forall x :: 0 <= x < |s.pc| && x != w ==> Rank(s', x) <= Rank(s, x)
    requires Rank(s', w) <= Rank(s, w) + up
    ensures Remaining(s') <= Remaining(s) + up + (|s'.queue| - |s.queue|)
  {
    RanksDiffer(s, s', |s.pc|, w, up);
  }

  /** A writer whose program counter stays does not move away from its end. */
  lemma RankStays(s: State, s': State, x: nat)
    requires x < |s.pc| == |s.done| == |s'.pc| == |s'.done|
    requires s'.pc[x] == s.pc[x] && (Resolved(s, x) ==> Resolved(s', x))
    ensures Rank(s', x) <= Rank(s, x)
  {
  }

  lemma EnterRank(s: State, ops: seq<seq<Op>>, w: nat)
    requires Inv(s, ops) && Enabled(s, Enter(w))
    ensures var s' := Do(s, Enter(w)); |s'.pc| == |s'.done| && Remaining(s') < Remaining(s)
  {
    hide QueueOk, BatchesOk, LogOk, LockOk, RolesOk;
    var s' := Do(s, Enter(w));
    forall x | 0 <= x < |s.pc| && x != w ensures Rank(s', x) <= Rank(s, x) { RankStays(s, s', x); }
    RemainingDrops(s, s', w, -5);
  }

  lemma CheckRank(s: State, ops: seq<seq<Op>>, w: nat)
    requires Inv(s, ops) && Enabled(s, Check(w))
    ensures var s' := Do(s, Check(w)); |s'.pc| == |s'.done| && Remaining(s') < Remaining(s)
  {
    hide QueueOk, BatchesOk, LogOk, LockOk, RolesOk, Built;
    var s' := Do(s, Check(w));
    forall x | 0 <= x < |s.pc| && x != w ensures Rank(s', x) <= Rank(s, x) { RankStays(s, s', x); }
    RemainingDrops(s, s', w, -1);
  }

  lemma ReacquireRank(s: State, ops: seq<seq<Op>>, w: nat)
    requires Inv(s, ops) && Enabled(s, Reacquire(w))
    ensures var s' := Do(s, Reacquire(w)); |s'.pc| == |s'.done| && Remaining(s') < Remaining(s)
  {
    hide QueueOk, BatchesOk, LogOk, LockOk, RolesOk;
    var s' := Do(s, Reacquire(w));
    forall x | 0 <= x < |s.pc| && x != w ensures Rank(s', x) <= Rank(s, x) { RankStays(s, s', x); }
    RemainingDrops(s, s', w, -1);
  }

  /** A writer that does not hold the lock cannot be the one dismissing. */
  lemma DismissingFrame(s: State, s': State, w: nat)
    requires LockOk(s) && w < |s.pc| && !HoldsLock(s.pc[w])
    requires s'.holder == s.holder && |s'.pc| == |s.pc| && forall x :: 0 <= x < |s.pc| && x != w ==> s'.pc[x] == s.pc[x]
    ensures Dismissing(s') == Dismissing(s)
  {
  }

  lemma SpuriousRank(s: State, ops: seq<seq<Op>>, w: nat)
    requires Inv(s, ops) && Enabled(s, Spurious(w))
    ensures var s' := Do(s, Spurious(w)); |s'.pc| == |s'.done| && Remaining(s') <= Remaining(s) + 2
  {
    hide QueueOk, BatchesOk, LogOk, LockOk, RolesOk, Dismissing;
    var s' := Do(s, Spurious(w));
    DismissingFrame(s, s', w);
    forall x | 0 <= x < |s.pc| && x != w ensures Rank(s', x) <= Rank(s, x) { RankStays(s, s', x); }
    RemainingDrops(s, s', w, 2);
  }

  lemma IORank(s: State, ops: seq<seq<Op>>, w: nat)
    requires Inv(s, ops) && Enabled(s, DoIO(w))
    ensures var s' := Do(s, DoIO(w)); |s'.pc| == |s'.done| && Remaining(s') < Remaining(s)
  {
    hide QueueOk, BatchesOk, LogOk, LockOk, RolesOk, Dismissing;
    var s' := Do(s, DoIO(w));
    DismissingFrame(s, s', w);
    forall x | 0 <= x < |s.pc| && x != w ensures Rank(s', x) <= Rank(s, x) { RankStays(s, s', x); }
    RemainingDrops(s, s', w, -1);
  }

  lemma RelockRank(s: State, ops: seq<seq<Op>>, w: nat)
    requires Inv(s, ops) && Enabled(s, Relock(w))
    ensures var s' := Do(s, Relock(w)); |s'.pc| == |s'.done| && Remaining(s') < Remaining(s)
  {
    hide QueueOk, BatchesOk, LogOk, LockOk, RolesOk;
    OneRole(s, w);
    var s' := Do(s, Relock(w));
    forall x | 0 <= x < |s.pc| && x != w ensures Rank(s', x) <= Rank(s, x) { RankStays(s, s', x); }
    RemainingDrops(s, s', w, -1);
  }

  lemma PopRank(s: State, ops: seq<seq<Op>>, w: nat)
    requires Inv(s, ops) && Enabled(s, Pop(w))
    ensures var s' := Do(s, Pop(w)); |s'.pc| == |s'.done| && Remaining(s') < Remaining(s)
  {
    hide QueueOk, BatchesOk, LogOk, LockOk, RolesOk;
    PopQueue(s, w);
    var s' := PopFront(s, w);
    assert Dismissing(s);
    forall x | 0 <= x < |s.pc| && x != w ensures Rank(s', x) <= Rank(s, x) {
      if x != s.queue[0] { RankStays(s, s', x); }
    }
    RemainingDrops(s, s', w, 0);
  }

  lemma NotifyRank(s: State, ops: seq<seq<Op>>, w: nat)
    requires Inv(s, ops) && Enabled(s, Notify(w))
    ensures var s' := Do(s, Notify(w)); |s'.pc| == |s'.done| && Remaining(s') < Remaining(s)
  {
    hide QueueOk, BatchesOk, LogOk, LockOk, RolesOk;
    OneRole(s, w);
    var s' := Do(s, Notify(w));
    assert Dismissing(s) && !Dismissing(s');
    forall x | 0 <= x < |s.pc| && x != w ensures Rank(s', x) <= Rank(s, x) {
      if s'.pc[x] == s.pc[x] { RankStays(s, s', x); }
    }
    RemainingDrops(s, s', w, -2);
  }

  lemma StepRank(s: State, ops: seq<seq<Op>>, a: Action)
    requires Inv(s, ops) && Enabled(s, a)
    ensures var s' := Do(s, a);
            && |s'.pc| == |s'.done| == |s.pc| == |s.done|
            && Remaining(s') <= if a.Spurious? then Remaining(s) + 2 else Remaining(s) - 1
  {
    assert |Do(s, a).pc| == |s.pc| && |Do(s, a).done| == |s.done| == |s.pc|;
    hide Inv, Do, Enabled, Remaining;
    match a
    case Enter(w) => EnterRank(s, ops, w);
    case Check(w) => CheckRank(s, ops, w);
    case Spurious(w) => SpuriousRank(s, ops, w);
    case Reacquire(w) => ReacquireRank(s, ops, w);
    case DoIO(w) => IORank(s, ops, w);
    case Relock(w) => RelockRank(s, ops, w);
    case Pop(w) => PopRank(s, ops, w);
    case Notify(w) => NotifyRank(s, ops, w);
  }

  function Steps(acts: seq<Action>, spurious: bool): nat {
    if acts == [] then 0 else (if acts[0].Spurious? == spurious then 1 else 0) + Steps(acts[1..], spurious)
  }

  lemma {:induction false} RunRank(s: State, ops: seq<seq<Op>>, acts: seq<Action>)
    requires Inv(s, ops) && IsRun(s, acts)
    ensures |s.pc| == |s.done|
    ensures Steps(acts, false) <= Remaining(s) + 2 * Steps(acts, true)
    decreases |acts|
  {
    assert |s.pc| == |s.done|;
    hide Inv, Do, Enabled, Remaining;
    if acts == [] {
    } else {
      StepKeeps(s, ops, acts[0]);
      StepRank(s, ops, acts[0]);
      RunRank(Do(s, acts[0]), ops, acts[1..]);
    }
  }

  lemma {:induction false} InitRanks(s: State, n: nat)
    requires n <= |s.pc| == |s.done| && forall x :: 0 <= x < n ==> s.pc[x].Idle?
    ensures Ranks(s, n) == MOST_STEPS * n
    decreases n
  {
    if n == 0 {
    } else {
      InitRanks(s, n - 1);
    }
  }

  /** No run can go on for ever on anything but spurious wakeups: n Writes take at most 14 n steps
      and two more for each spurious wakeup. */
  lemma EveryRunEnds(s0: State, ops: seq<seq<Op>>, acts: seq<Action>)
    requires IsInit(s0, ops) && IsRun(s0, acts)
    ensures Steps(acts, false) <= 14 * |s0.pc| + 2 * Steps(acts, true)
  {
    InitInv(s0, ops);
    RunRank(s0, ops, acts);
    InitRanks(s0, |s0.pc|);
  }

  /** And where it stops, everything is done: every writer has entered exactly once, every Write has
      returned, and the log holds every batch, in the order of entering. */
  lemma EndComplete(s0: State, ops: seq<seq<Op>>, acts: seq<Action>)
    requires IsInit(s0, ops) && IsRun(s0, acts)
    requires forall a :: Enabled(After(s0, acts), a) ==> a.Spurious?
    ensures var s := After(s0, acts);
            && |s.pc| == |s0.pc|
            && (forall x :: 0 <= x < |s.pc| ==> s.pc[x].Returned? && x in Entered(acts))
            && Distinct(Entered(acts)) && Below(Entered(acts), |s.pc|) && s.queue == []
            && (exists cuts :: Cut(s.log, ops, Entered(acts), cuts))
            && LogOps(s.log) == Some(Concat(Pick(ops, Entered(acts))))
  {
    hide After, IsRun, IsInit, LogOps, Concat, Inv, Cut, Enabled, Pick, Distinct, Entered;
    FromInit(s0, ops, acts);
    InitInv(s0, ops);
    RunKeeps(s0, ops, acts);
    var s := After(s0, acts);
    OneEach(s0, ops);
    OneEach(s, ops);
    forall x | 0 <= x < |s.pc| ensures s.pc[x].Returned? {
      if !s.pc[x].Returned? {
        var a := CanStep(s, ops, x);
        assert false;
      }
    }
    AllReturned(s, ops);
  }

  lemma OneEach(s: State, ops: seq<seq<Op>>)
    requires Inv(s, ops)
    ensures |s.pc| == |ops|
  {
  }

  lemma AllReturned(s: State, ops: seq<seq<Op>>)
    requires Inv(s, ops) && forall x :: 0 <= x < |s.pc| ==> s.pc[x].Returned?
    ensures forall x :: 0 <= x < |s.pc| ==> x in s.arrivals
    ensures Distinct(s.arrivals) && Below(s.arrivals, |s.pc|) && s.queue == []
    ensures exists cuts :: Cut(s.log, ops, s.arrivals, cuts)
    ensures LogOps(s.log) == Some(Concat(Pick(ops, s.arrivals)))
  {
    hide LogOps, Concat, Index, BatchesOk, Cut, LockOk, Pick;
    if s.queue != [] {
      assert s.queue[0] in s.queue;
      OneRole(s, s.queue[0]);
    }
    assert Popped(s) == |s.arrivals| && s.arrivals[..|s.arrivals|] == s.arrivals;
    assert LogIs(s, ops, Popped(s));
    var cuts :| Cut(s.log, ops, s.arrivals, cuts);
    CutReads(s.log, ops, s.arrivals, cuts);
  }
}

