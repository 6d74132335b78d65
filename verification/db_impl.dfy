/** The two loops of DBImpl::Write that run under the mutex, on the objects they change: building a
    group merges batches in place, dismissing it sets flags and signals, in the protocol's steps. */
module DBImpls {
  import opened Coding
  import opened Options
  import opened WriteBatches
  import opened GroupCommit

  class Writer {
    const batch: WriteBatch
    var done: bool
    var signalled: bool     // its condition variable has been notified

    constructor (batch: WriteBatch)
      ensures this.batch == batch && !done && !signalled
    {
      this.batch := batch;
      done := false;
      signalled := false;
    }
  }

  ghost predicate Separate(ws: seq<Writer>) {
    forall i, j :: 0 <= i < j < |ws| ==> ws[i] != ws[j] && ws[i].batch != ws[j].batch
  }

  /** The byte strings of the writers' batches. */
  ghost function Reps(ws: seq<Writer>): (r: seq<Bytes>)
    reads set i | 0 <= i < |ws| :: ws[i].batch
    ensures |r| == |ws| && forall i :: 0 <= i < |ws| ==> r[i] == ws[i].batch.rep
  {
    if ws == [] then [] else [ws[0].batch.rep] + Reps(ws[1..])
  }

  ghost predicate Ready(ws: seq<Writer>)
    reads set i | 0 <= i < |ws| :: ws[i].batch
  {
    && Separate(ws)
    && forall i :: 0 <= i < |ws| ==> |ws[i].batch.rep| >= HEADER && Count(ws[i].batch.rep) + 1 <= 0x7FFF_FFFF
  }

  /** Where the merging of `rest` into `start` stands when `dst` holds the first `k` of `rest`. */
  ghost predicate Pending(start: Bytes, rest: seq<Bytes>, dst: Bytes, k: nat)
    requires |start| >= HEADER && Headers(rest)
  {
    && |dst| >= HEADER && k <= |rest| && Headers(rest[k..])
    && Merge(start, rest) == (Merge(dst, rest[k..]).0, Merge(dst, rest[k..]).1 + k)
  }

  lemma Stop(start: Bytes, rest: seq<Bytes>, dst: Bytes, k: nat)
    requires |start| >= HEADER && Headers(rest) && Pending(start, rest, dst, k)
    ensures |dst| >= HEADER && k <= |rest|
    ensures k == |rest| || Count(dst) >= MAX_BATCH_SIZE ==> Merge(start, rest) == (dst, k)
  {
  }

  lemma Go(start: Bytes, rest: seq<Bytes>, dst: Bytes, k: nat)
    requires |start| >= HEADER && Headers(rest) && Pending(start, rest, dst, k)
    requires k < |rest| && Count(dst) < MAX_BATCH_SIZE
    ensures |rest[k]| >= HEADER && Pending(start, rest, Appended(dst, rest[k]), k + 1)
  {
    hide Appended, Count;
    AppendedSize(dst, rest[k]);
    assert rest[k..][1..] == rest[k + 1..];
  }

  ghost predicate Different(all: seq<Writer>) {
    forall x, y :: 0 <= x < y < |all| ==> all[x] != all[y]
  }

  lemma DifferentAt(all: seq<Writer>, x: nat)
    requires Different(all) && x < |all|
    ensures forall y :: 0 <= y < |all| ==> (all[y] == all[x] <==> y == x)
  {
  }

  // ----- The pop loop as steps of the protocol --------------------------------------------------------

  /** w holds the lock after its I/O, and its group reaches to the k-th of the queue. */
  ghost predicate CanDismiss(s: State, w: nat, k: nat) {
    && Typed(s) && Distinct(s.queue)
    && w < |s.pc| && k < |s.queue|
    && s.pc[w] == Popping(s.queue[k]) && s.holder == Some(w)
  }

  /** Pop steps up to the last of the group, and then Notify. */
  ghost function Dismissed(s: State, w: nat, k: nat): State
    requires CanDismiss(s, w, k)
    decreases k
  {
    var t := Do(s, Pop(w));
    PopStep(s, w, k);
    if k == 0 then Do(t, Notify(w)) else Dismissed(t, w, k - 1)
  }

  /** Who is notified on the way: the others in the group, and then the new front. */
  ghost predicate Notified(s: State, w: nat, k: nat, x: nat) {
    || (exists i :: 0 <= i <= k && i < |s.queue| && s.queue[i] == x && x != w)
    || (k + 1 < |s.queue| && s.queue[k + 1] == x)
  }

  lemma PopStep(s: State, w: nat, k: nat)
    requires CanDismiss(s, w, k)
    ensures Enabled(s, Pop(w))
    ensures var t := Do(s, Pop(w)); if k == 0 then Enabled(t, Notify(w)) else CanDismiss(t, w, k - 1)
    ensures Do(s, Pop(w)).queue == s.queue[1..]
  {
  }

  lemma NotifiedStep(s: State, t: State, w: nat, k: nat, x: nat)
    requires s.queue != [] && t.queue == s.queue[1..] && k > 0
    ensures Notified(s, w, k, x) <==> (x == s.queue[0] && x != w) || Notified(t, w, k - 1, x)
  {
    if i :| 0 <= i <= k && i < |s.queue| && s.queue[i] == x && x != w {
      if i > 0 { assert t.queue[i - 1] == x; }
    }
    if i :| 0 <= i <= k - 1 && i < |t.queue| && t.queue[i] == x && x != w {
      assert s.queue[i + 1] == x;
    }
  }

  lemma NotifiedSteps(s: State, t: State, w: nat, k: nat)
    requires s.queue != [] && t.queue == s.queue[1..] && k > 0
    ensures forall x: nat ::
              Notified(s, w, k, x) <==> (x == s.queue[0] && x != w) || Notified(t, w, k - 1, x)
  {
    hide Notified;
    forall x: nat ensures Notified(s, w, k, x) <==> (x == s.queue[0] && x != w) || Notified(t, w, k - 1, x) {
      NotifiedStep(s, t, w, k, x);
    }
  }

  lemma NotifiedLast(s: State, w: nat, x: nat)
    requires s.queue != []
    ensures Notified(s, w, 0, x) <==> (x == s.queue[0] && x != w) || (|s.queue| > 1 && x == s.queue[1])
  {
  }

  lemma PopFacts(s: State, w: nat, k: nat)
    requires CanDismiss(s, w, k)
    ensures Enabled(s, Pop(w)) && w < |s.pc| && k < |s.queue| && (s.queue[0] == s.queue[k] <==> k == 0)
    ensures var t := Do(s, Pop(w));
            && t.queue == s.queue[1..] && |t.pc| == |s.pc| == |s.done| && Below(s.queue, |s.pc|)
            && t.done == (if s.queue[0] == w then s.done else s.done[s.queue[0] := true])
            && (k > 0 ==> CanDismiss(t, w, k - 1) && Dismissed(s, w, k) == Dismissed(t, w, k - 1))
  {
    PopStep(s, w, k);
  }

  lemma PopKeepsRest(s: State, w: nat, k: nat)
    requires CanDismiss(s, w, k)
    ensures Enabled(s, Pop(w)) && |s.queue| > 0 && |Do(s, Pop(w)).pc| == |s.pc| && w < |s.pc|
    ensures var t := Do(s, Pop(w));
            && t.batch == s.batch && t.arrivals == s.arrivals && t.log == s.log
            && (forall x :: 0 <= x < |s.pc| && x != w ==>
                  t.pc[x] == if x == s.queue[0] then Signal(s.pc[x]) else s.pc[x])
  {
  }

  lemma LastFacts(s: State, w: nat)
    requires CanDismiss(s, w, 0)
    ensures Enabled(s, Pop(w))
    ensures var t, u := Do(s, Pop(w)), Dismissed(s, w, 0); u.queue == t.queue && u.done == t.done && |u.pc| == |t.pc|
    ensures forall x: nat ::
              Notified(s, w, 0, x) <==> (x == s.queue[0] && x != w) || (|s.queue| > 1 && x == s.queue[1])
  {
    PopStep(s, w, 0);
    hide Notified;
    forall x: nat ensures Notified(s, w, 0, x) <==> (x == s.queue[0] && x != w) || (|s.queue| > 1 && x == s.queue[1]) {
      NotifiedLast(s, w, x);
    }
  }

  /** What dismissing a group comes to: its members leave the queue, every one but the caller is
      marked done and notified, the new front is notified, and the caller returns without the lock. */
  lemma {:induction false} DismissMeans(s: State, w: nat, k: nat)
    requires CanDismiss(s, w, k)
    ensures var t := Dismissed(s, w, k);
            && t.queue == s.queue[k + 1..] && t.holder == None
            && t.batch == s.batch && t.arrivals == s.arrivals && t.log == s.log
            && |t.pc| == |s.pc| && |t.done| == |s.done| && t.pc[w] == Returned
            && (forall x :: 0 <= x < |s.pc| ==> t.done[x] == (s.done[x] || (x != w && x in s.queue[..k + 1])))
            && (forall x :: 0 <= x < |s.pc| && x != w ==>
                  t.pc[x] == if Notified(s, w, k, x) then Signal(s.pc[x]) else s.pc[x])
    decreases k
  {
    hide CanDismiss, Enabled, Do, Dismissed, Notified;
    PopFacts(s, w, k);
    PopKeepsRest(s, w, k);
    var t := Do(s, Pop(w));
    if k == 0 {
      DismissLast(s, w);
    } else {
      DismissMeans(t, w, k - 1);
      var u := Dismissed(t, w, k - 1);
      assert s.queue[..k + 1] == [s.queue[0]] + t.queue[..k];
      forall x | 0 <= x < |s.pc| && x != w
        ensures u.pc[x] == if Notified(s, w, k, x) then Signal(s.pc[x]) else s.pc[x]
      {
        NotifiedStep(s, t, w, k, x);
      }
    }
  }

  lemma DismissLast(s: State, w: nat)
    requires CanDismiss(s, w, 0)
    ensures var t := Dismissed(s, w, 0);
            && t.queue == s.queue[1..] && t.holder == None
            && t.batch == s.batch && t.arrivals == s.arrivals && t.log == s.log
            && |t.pc| == |s.pc| && |t.done| == |s.done| && t.pc[w] == Returned
            && (forall x :: 0 <= x < |s.pc| ==> t.done[x] == (s.done[x] || (x != w && x in s.queue[..1])))
            && (forall x :: 0 <= x < |s.pc| && x != w ==>
                  t.pc[x] == if Notified(s, w, 0, x) then Signal(s.pc[x]) else s.pc[x])
  {
    PopStep(s, w, 0);
    assert s.queue[..1] == [s.queue[0]];
    forall x: nat ensures Notified(s, w, 0, x) <==> (x == s.queue[0] && x != w) || (|s.queue| > 1 && x == s.queue[1]) {
      NotifiedLast(s, w, x);
    }
    hide Notified;
  }

  /** In the protocol, whoever is in the pop loop can dismiss its group. */
  lemma LeaderDismisses(s: State, ops: seq<seq<Op>>, w: nat)
    requires Inv(s, ops) && w < |s.pc| && s.pc[w].Popping?
    ensures exists k :: CanDismiss(s, w, k)
  {
    hide BatchesOk, LogOk;
    var last := s.pc[w].last;
    assert RoleOk(s, w);
    var k := Index(s.queue, last);
    assert CanDismiss(s, w, k);
  }

  class DBImpl {
    var writers: seq<Writer>

    constructor ()
      ensures writers == []
    {
      writers := [];
    }

    /** The batches after the first are still the original ones, and none is the first's. */
    ghost predicate Unmerged(rest: seq<Bytes>)
      reads this, set i | 0 <= i < |writers| :: writers[i].batch
    {
      && |writers| == |rest| + 1
      && forall j :: 1 <= j < |writers| ==>
           && writers[j].batch != writers[0].batch
           && writers[j].batch.rep == rest[j - 1]
    }

    /** Merges followers into the front's batch until it counts two operations. */
    method BuildBatchGroup() returns (result: WriteBatch, lastWriter: Writer)
      requires writers != [] && Ready(writers)
      modifies writers[0].batch
      ensures result == writers[0].batch
      ensures Headers(Reps(writers[1..]))
      ensures Reps(writers[1..]) == old(Reps(writers[1..]))
      ensures var r := Merge(old(writers[0].batch.rep), Reps(writers[1..]));
              result.rep == r.0 && lastWriter == writers[r.1]
    {
      hide Merge, Appended, Count, Reps;
      var first := writers[0];
      result := first.batch;
      lastWriter := first;
      ghost var rest := Reps(writers[1..]);
      ghost var start := result.rep;
      assert Pending(start, rest, start, 0) by { assert rest[0..] == rest; }
      hide Pending;
      var i := 1;
      while i < |writers|
        invariant 1 <= i <= |writers| && lastWriter == writers[i - 1]
        invariant Unmerged(rest)
        invariant Pending(start, rest, result.rep, i - 1)
      {
        Stop(start, rest, result.rep, i - 1);
        if Count(result.rep) >= MAX_BATCH_SIZE {
          break;
        }
        var w := writers[i];
        Go(start, rest, result.rep, i - 1);
        result.Append(w.batch);
        lastWriter := w;
        i := i + 1;
      }
      Stop(start, rest, result.rep, i - 1);
      assert Reps(writers[1..]) == rest;
    }

    /** These objects, numbered as in the protocol, are in the state `s` of the protocol. */
    ghost predicate Shows(all: seq<Writer>, s: State)
      reads this, set x | 0 <= x < |all| :: all[x]
    {
      && |all| == |s.pc| == |s.done| && |writers| == |s.queue| && Below(s.queue, |all|)
      && Different(all)
      && (forall i :: 0 <= i < |writers| ==> writers[i] == all[s.queue[i]])
      && (forall x :: 0 <= x < |all| ==> all[x].done == s.done[x])
    }

    lemma Numbered(all: seq<Writer>, s: State)
      requires Shows(all, s)
      ensures Different(all) && |all| == |s.pc| && Below(s.queue, |all|) && |writers| == |s.queue|
      ensures s.queue != [] ==> writers[0] == all[s.queue[0]]
    {
    }

    lemma ShowsSame(all: seq<Writer>, s: State, t: State)
      requires Shows(all, s) && t.queue == s.queue && t.done == s.done && |t.pc| == |s.pc|
      ensures Shows(all, t)
    {
    }

    /** One round of the pop loop is the protocol's Pop step. */
    method DismissFront(w: Writer, ghost all: seq<Writer>, ghost s: State, ghost id: nat, ghost k: nat)
      returns (ready: Writer)
      requires Shows(all, s) && CanDismiss(s, id, k) && w == all[id]
      modifies this, writers[0]
      ensures Enabled(s, Pop(id)) && s.queue[0] < |all|
      ensures ready == all[s.queue[0]] && Shows(all, Do(s, Pop(id)))
      ensures forall x :: 0 <= x < |all| ==>
                (all[x].signalled <==> old(all[x].signalled) || (x == s.queue[0] && x != id))
    {
      hide Do, CanDismiss, Enabled, Different, Dismissed;
      PopFacts(s, id, k);
      ghost var t, front := Do(s, Pop(id)), s.queue[0];
      DifferentAt(all, front);
      ready := writers[0];
      assert ready == all[front];
      assert ready == w <==> front == id;
      writers := writers[1..];
      if ready != w {
        ready.done := true;
        ready.signalled := true;
      }
      assert forall i :: 0 <= i < |writers| ==> writers[i] == old(writers)[i + 1] && t.queue[i] == s.queue[i + 1];
    }

    /** The signal to the new front. */
    method SignalFront(ghost all: seq<Writer>, ghost s: State)
      requires Shows(all, s)
      modifies set x | 0 <= x < |all| :: all[x]
      ensures Shows(all, s)
      ensures forall x :: 0 <= x < |all| ==>
                (all[x].signalled <==> old(all[x].signalled) || (s.queue != [] && x == s.queue[0]))
    {
      if writers != [] {
        hide Different;
        DifferentAt(all, s.queue[0]);
        writers[0].signalled := true;
      }
    }

    /** The pop loop, up to and including `last`, and the signal to the new front, take the protocol's
        own steps. `w` is the caller. */
    method DismissGroup(w: Writer, last: Writer, ghost all: seq<Writer>, ghost s: State, ghost id: nat, ghost k: nat)
      requires Shows(all, s) && CanDismiss(s, id, k)
      requires w == all[id] && last == all[s.queue[k]]
      modifies this, set x | 0 <= x < |all| :: all[x]
      ensures Shows(all, Dismissed(s, id, k))
      ensures forall x :: 0 <= x < |all| ==> (all[x].signalled <==> old(all[x].signalled) || Notified(s, id, k, x))
    {
      hide Shows, Dismissed, Notified, CanDismiss, Enabled, Do, Different;
      ghost var cur: State, left: nat, next: State := s, k, s;
      PopFacts(s, id, k);
      Numbered(all, s);
      while true
        invariant left <= k && CanDismiss(cur, id, left) && Shows(all, cur)
        invariant Below(cur.queue, |all|) && left < |cur.queue| && last == all[cur.queue[left]]
        invariant Dismissed(s, id, k) == Dismissed(cur, id, left)
        invariant forall x :: 0 <= x < |all| ==>
                    (all[x].signalled || Notified(cur, id, left, x) <==> old(all[x].signalled) || Notified(s, id, k, x))
        decreases left
      {
        PopFacts(cur, id, left);
        next := Do(cur, Pop(id));
        Numbered(all, cur);
        DifferentAt(all, cur.queue[left]);
        var ready := DismissFront(w, all, cur, id, left);
        assert ready == last <==> left == 0;
        if ready == last {
          break;
        }
        Numbered(all, next);
        NotifiedSteps(cur, next, id, left);
        cur, left := next, left - 1;
      }
      LastFacts(cur, id);
      SignalFront(all, next);
      ShowsSame(all, next, Dismissed(cur, id, 0));
    }
  }
}
