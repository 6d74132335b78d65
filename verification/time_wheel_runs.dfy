/** What a time wheel guarantees over whole runs: timers may be added, and cancelled by outside
    code, between any two ticks. */
module TimeWheelRuns {
  import opened Arith
  import opened TimeWheelModel

  function Max(a: nat, b: nat): nat { if a < b then b else a }

  ghost predicate Undisturbed(evs: seq<Event>, t: Timer) {
    forall e :: e in evs ==> e != Cancelled(t)
  }

  ghost predicate NotReadded(evs: seq<Event>, t: Timer) {
    forall e :: e in evs ==> e != Added(t)
  }

  // ----- Never early, never twice -------------------------------------------------------------

  /** Callbacks run at or after expiry, and no timer's callback runs twice. */
  ghost predicate Sound(w: Wheel) {
    && (forall i :: 0 <= i < |w.fired| ==>
          w.fired[i].timer in w.dead && w.fired[i].timer.expires <= w.fired[i].at)
    && (forall i, j :: 0 <= i < j < |w.fired| ==> w.fired[i].timer != w.fired[j].timer)
  }

  lemma ScanSound(w: Wheel)
    requires |w.idx| == TVN_NUM && Sound(w)
    ensures Sound(Scan(w))
  {
    var now := Next(w.now);
    hide Next, Expire;
    var r := Expire(At(w, Slot(0, w.idx[0])), now, w.dead);
    ExpireMeaning(At(w, Slot(0, w.idx[0])), now, w.dead);
    hide At;
    var fired := w.fired + Calls(r.1, now);
    forall i | 0 <= i < |fired|
      ensures fired[i].timer in w.dead + Elements(r.1) && fired[i].timer.expires <= fired[i].at
      ensures i >= |w.fired| ==> fired[i].timer == r.1[i - |w.fired|] && fired[i].timer !in w.dead
    {
      if i >= |w.fired| { assert r.1[i - |w.fired|] in r.1; }
    }
  }

  lemma StepSound(w: Wheel, e: Event)
    requires |w.idx| == TVN_NUM && Sound(w)
    ensures Sound(Step(w, e))
  {
    if e.Ticked? {
      ScanSound(w);
      CascadeFrame(Scan(w), 1);
      hide Scan, Cascade;
    }
  }

  /** For every run of the wheel, wrap of the clock included: no callback before its timer
      expires, and none twice. */
  lemma {:induction false} RunSound(w: Wheel, evs: seq<Event>)
    requires |w.idx| == TVN_NUM && Sound(w)
    ensures Sound(Run(w, evs))
    decreases |evs|
  {
    hide Step, Sound;
    if evs == [] {
    } else {
      StepSound(w, evs[0]);
      StepKeepsLevels(w, evs[0]);
      RunSound(Step(w, evs[0]), evs[1..]);
    }
  }

  // ----- Runs, cut and continued -------------------------------------------------------------------

  lemma StepGrows(w: Wheel, e: Event)
    requires |w.idx| == TVN_NUM
    ensures w.fired <= Step(w, e).fired && w.dead <= Step(w, e).dead
  {
    if e.Ticked? { CascadeFrame(Scan(w), 1); }
  }

  /** Callbacks stay run, and flags stay off. */
  lemma {:induction false} RunGrows(w: Wheel, evs: seq<Event>)
    requires |w.idx| == TVN_NUM
    ensures w.fired <= Run(w, evs).fired && w.dead <= Run(w, evs).dead
    decreases |evs|
  {
    hide Step;
    if evs == [] {
    } else {
      StepGrows(w, evs[0]);
      StepKeepsLevels(w, evs[0]);
      RunGrows(Step(w, evs[0]), evs[1..]);
    }
  }

  lemma {:induction false} RunJoin(w: Wheel, a: seq<Event>, b: seq<Event>)
    requires |w.idx| == TVN_NUM
    ensures Run(w, a + b) == Run(Run(w, a), b) && Ticks(a + b) == Ticks(a) + Ticks(b)
    decreases |a|
  {
    hide Step;
    if a == [] {
      assert a + b == b;
    } else {
      StepKeepsLevels(w, a[0]);
      RunJoin(Step(w, a[0]), a[1..], b);
      assert (a + b)[1..] == a[1..] + b;
    }
  }

  lemma TicksStep(e: Event, rest: seq<Event>)
    ensures Ticks([e] + rest) == (if e.Ticked? then 1 else 0) + Ticks(rest)
  {
    assert ([e] + rest)[1..] == rest;
  }

  /** A run cut right after its n-th tick. */
  lemma {:induction false} CutAt(evs: seq<Event>, n: nat) returns (a: seq<Event>, b: seq<Event>)
    requires n <= Ticks(evs)
    ensures evs == a + b && Ticks(a) == n
    decreases |evs|
  {
    if n == 0 {
      a, b := [], evs;
    } else {
      var rest: seq<Event>;
      rest, b := CutAt(evs[1..], if evs[0].Ticked? then n - 1 else n);
      TicksStep(evs[0], rest);
      a := [evs[0]] + rest;
    }
  }

  lemma PartUndisturbed(a: seq<Event>, b: seq<Event>, t: Timer)
    requires Undisturbed(a + b, t)
    ensures Undisturbed(a, t) && Undisturbed(b, t)
  {
    assert forall e :: e in a || e in b ==> e in a + b;
  }

  /** What a tick's callbacks are: timers whose flag was on, expired at the new value of the clock. */
  lemma TickFires(w: Wheel, t: Timer)
    requires |w.idx| == TVN_NUM
    ensures t in Tick(w).dead && t !in w.dead ==> t.expires <= Next(w.now) && t in At(w, Slot(0, w.idx[0]))
    ensures w.fired <= Tick(w).fired
    ensures forall i :: |w.fired| <= i < |Tick(w).fired| ==> Tick(w).fired[i].timer !in w.dead
  {
    hide Next, Cascade, Expire;
    var r := Expire(At(w, Slot(0, w.idx[0])), Next(w.now), w.dead);
    ExpireMeaning(At(w, Slot(0, w.idx[0])), Next(w.now), w.dead);
    CascadeFrame(Scan(w), 1);
    hide At;
    var calls := Calls(r.1, Next(w.now));
    assert Tick(w).fired == w.fired + calls && Tick(w).dead == w.dead + Elements(r.1);
    forall i | |w.fired| <= i < |Tick(w).fired| ensures Tick(w).fired[i].timer !in w.dead {
      assert Tick(w).fired[i] == calls[i - |w.fired|];
      assert r.1[i - |w.fired|] in r.1;
    }
  }

  /** A timer whose flag is off, cancelled or fired, is never called again. */
  lemma {:induction false} NeverCalledAgain(w: Wheel, evs: seq<Event>, t: Timer)
    requires |w.idx| == TVN_NUM && t in w.dead
    ensures w.fired <= Run(w, evs).fired
    ensures forall i :: |w.fired| <= i < |Run(w, evs).fired| ==> Run(w, evs).fired[i].timer != t
    decreases |evs|
  {
    if evs == [] {
    } else {
      var w1 := Step(w, evs[0]);
      StepGrows(w, evs[0]);
      if evs[0].Ticked? { TickFires(w, t); }
      StepKeepsLevels(w, evs[0]);
      hide Step;
      NeverCalledAgain(w1, evs[1..], t);
    }
  }

  // ----- Insertions ---------------------------------------------------------------------------------

  lemma AddAt(w: Wheel, t': Timer, t: Timer)
    requires CursorsAt(w)
    ensures CursorsAt(Add(w, t'))
    ensures forall s :: ValidSlot(s) && t in At(w, s) ==> t in At(Add(w, t'), s)
    ensures t != t' ==> forall s :: ValidSlot(s) ==> (t in At(Add(w, t'), s) <==> t in At(w, s))
    ensures t == t' && Accepts(w, t) ==> t in At(Add(w, t), Place(t.expires, w.now))
    ensures t == t' ==> forall s :: ValidSlot(s) && t in At(Add(w, t), s) ==>
              t in At(w, s) || (Accepts(w, t) && s == Place(t.expires, w.now))
  {
    if Accepts(w, t') { PlaceMeaning(t'.expires, w.now); }
  }

  // ----- When slots are looked at ---------------------------------------------------------------------

  /** The clock value at the end of the next tick that looks at slot s. */
  function Visit(s: Slot, now: Jiffies): int
    requires ValidSlot(s)
  {
    Span(s.level) * (now / Span(s.level) + 1 + (s.index - now / Span(s.level)) % TVN_SIZE)
  }

  lemma VisitParts(p: nat, m: nat, d: nat, now: nat)
    requires p > 0 && m == now / p && d < TVN_SIZE
    ensures now < p * (m + 1 + d) <= now + TVN_SIZE * p
    ensures (now + 1) % p == 0 && d == 0 <==> p * (m + 1 + d) == now + 1
    ensures d == 0 && (now + 1) % p == 0 ==> p * (m + 1) == now + 1
  {
    DivMod(now, p);
    var r := now % p;
    Distribute(p, m, 1 + d);
    Distribute(p, 1, d);
    Distribute(p, d, TVN_SIZE - 1 - d);
    assert p * (TVN_SIZE - 1 - d) >= 0;
    assert p * d >= 0;
    if d > 0 { MulGrows(p, d); }
    if r + 1 == p {
      DivUnique(now + 1, p, m + 1, 0);
    } else {
      DivUnique(now + 1, p, m, r + 1);
    }
  }

  /** Slot s is looked at exactly at its visit time, which is at most one revolution away. */
  lemma VisitMeaning(s: Slot, now: Jiffies)
    requires ValidSlot(s) && now + 1 < JIFFIES_END
    ensures now < Visit(s, now) <= now + Span(s.level + 1)
    ensures Due(s, now) <==> Visit(s, now) == now + 1
    ensures !Due(s, now) ==> Visit(s, now + 1) == Visit(s, now)
  {
    SpanStep(s.level);
    var p := Span(s.level);
    var m := now / p;
    var d := (s.index - m) % TVN_SIZE;
    hide Span;
    VisitParts(p, m, d, now);
    DivStep(now, p);
    Residue(s.index, m);
  }

  lemma Residue(i: nat, m: nat)
    requires i < TVN_SIZE
    ensures (i - m) % TVN_SIZE == 0 <==> i == m % TVN_SIZE
    ensures (i - m) % TVN_SIZE != 0 ==> (i - (m + 1)) % TVN_SIZE == (i - m) % TVN_SIZE - 1
  {
  }

  lemma SpanGrows(a: nat, b: nat)
    requires a <= b <= TVN_NUM
    ensures 1 <= Span(a) <= Span(b) <= REACH
  {
  }

  /** The same for the tick that wraps the clock. */
  lemma VisitWrap(s: Slot)
    requires ValidSlot(s)
    ensures var v := Visit(s, JIFFIES_END - 1);
            && JIFFIES_END <= v <= JIFFIES_END - 1 + Span(s.level + 1)
            && (Due(s, JIFFIES_END - 1) <==> v == JIFFIES_END)
            && (v != JIFFIES_END ==> Visit(s, 0) == v - JIFFIES_END)
  {
    SpanStep(s.level);
    var p := Span(s.level);
    var m := JIFFIES_END / p - 1;
    hide Span;
    LastOf(JIFFIES_END, p);
    Distribute(p, JIFFIES_END / p, (s.index + 1) % TVN_SIZE);
    DigitAtEnd(JIFFIES_END / p, s.index);
    Residue(s.index, m);
    MulMono(p, 0, (s.index + 1) % TVN_SIZE);
    MulMono(p, (s.index + 1) % TVN_SIZE + 1, TVN_SIZE);
    Distribute(p, (s.index + 1) % TVN_SIZE, 1);
    if (s.index + 1) % TVN_SIZE > 0 { MulGrows(p, (s.index + 1) % TVN_SIZE); }
    ZeroDiv(p);
  }

  lemma ZeroDiv(p: nat)
    requires p > 0
    ensures 0 / p == 0 && p * 0 == 0
  {
    DivUnique(0, p, 0, 0);
  }

  lemma LastOf(n: nat, p: nat)
    requires p > 0 && n > 0 && n % p == 0
    ensures n / p >= 1 && (n - 1) / p == n / p - 1 && p * (n / p) == n
  {
    DivMod(n, p);
    Distribute(p, n / p, -1);
    MulMono(p, n / p, 0);
    DivUnique(n - 1, p, n / p - 1, p - 1);
  }

  lemma DigitAtEnd(q: nat, i: nat)
    requires q >= 1 && q % TVN_SIZE == 0 && i < TVN_SIZE
    ensures (i - (q - 1)) % TVN_SIZE == (i + 1) % TVN_SIZE
    ensures i == (q - 1) % TVN_SIZE <==> (i + 1) % TVN_SIZE == 0
    ensures (i + 1) % TVN_SIZE != 0 ==> (i - 0) % TVN_SIZE == i && (i + 1) % TVN_SIZE == i + 1
  {
  }

  /** What holds of the slots a timer is in, for ever: above level 0 it is within reach of the level
      and its slot is looked at no later than one revolution after its expiry, or AddTimer refuses it
      when its slot is looked at next. The second is what a wrap of the clock leaves. */
  predicate Fits(s: Slot, expires: Jiffies, now: Jiffies)
    requires ValidSlot(s)
  {
    || s.level == 0
    || (expires < now + Span(s.level + 1) && Visit(s, now) <= expires + Span(s.level + 1))
    || Visit(s, now) + REACH <= expires
  }

  ghost predicate Fine(w: Wheel, t: Timer) {
    forall s :: ValidSlot(s) && t in At(w, s) ==> Fits(s, t.expires, w.now)
  }

  /** A timer that fits is settled for the next tick, and fits after it where it stays. */
  lemma FitsNext(s: Slot, expires: Jiffies, now: Jiffies)
    requires ValidSlot(s) && Fits(s, expires, now)
    ensures s.level >= 1 ==> Delta(expires, Next(now)) < Span(s.level + 1) || Delta(expires, Next(now)) >= REACH
    ensures !Due(s, now) || s.level == 0 ==> Fits(s, expires, Next(now))
  {
    SpanGrows(s.level + 1, TVN_NUM);
    hide Span, Visit, Due;
    if now + 1 < JIFFIES_END {
      VisitMeaning(s, now);
    } else {
      VisitWrap(s);
    }
  }

  /** A timer fits where AddTimer puts it. */
  lemma FitsPlace(expires: Jiffies, now: Jiffies)
    requires Delta(expires, now) < REACH
    ensures ValidSlot(Place(expires, now)) && Fits(Place(expires, now), expires, now)
    ensures expires < now + Span(Place(expires, now).level + 1)
  {
    PlaceMeaning(expires, now);
    var s := Place(expires, now);
    SpanGrows(s.level + 1, TVN_NUM);
    if s.level > 0 {
      SpanStep(s.level);
      var p := Span(s.level);
      VisitParts(p, now / p, (s.index - now / p) % TVN_SIZE, now);
    }
  }

  lemma FineSettled(w: Wheel, t: Timer)
    requires Fine(w, t)
    ensures Settled(w, t, Next(w.now))
  {
    hide Fits, Next, At;
    forall s | ValidSlot(s) && s.level >= 1 && t in At(w, s)
      ensures Delta(t.expires, Next(w.now)) < Span(s.level + 1) || Delta(t.expires, Next(w.now)) >= REACH
    {
      FitsNext(s, t.expires, w.now);
    }
  }

  lemma StepFine(w: Wheel, e: Event, t: Timer)
    requires CursorsAt(w) && Fine(w, t)
    ensures |w.idx| == TVN_NUM && CursorsAt(Step(w, e)) && Fine(Step(w, e), t)
    ensures Step(w, e).now == if e.Ticked? then Next(w.now) else w.now
  {
    StepKeepsCursors(w, e);
    StepClock(w, e);
    match e
    case Ticked =>
      TickFine(w, t);
    case Added(t') =>
      AddAt(w, t', t);
      hide Fits, CursorsAt;
      if Accepts(w, t') { FitsPlace(t'.expires, w.now); }
    case Cancelled(t') =>
  }

  lemma TickFine(w: Wheel, t: Timer)
    requires CursorsAt(w) && Fine(w, t)
    ensures Fine(Tick(w), t)
  {
    hide Tick, At, CursorsAt, Cursor, Fits, Next, Due;
    FourCursors(w);
    FineSettled(w, t);
    TickMoves(w, t);
    forall s | ValidSlot(s) && t in At(Tick(w), s) ensures Fits(s, t.expires, Next(w.now)) {
      var s0 := TickCameFrom(w, t, s);
      FitsNext(s0, t.expires, w.now);
      if s0 != s || (Due(s0, w.now) && s0.level >= 1) { FitsPlace(t.expires, Next(w.now)); }
    }
  }

  /** In every run, however often the clock wraps. */
  lemma {:induction false} RunFine(w: Wheel, evs: seq<Event>, t: Timer)
    requires CursorsAt(w) && Fine(w, t)
    ensures CursorsAt(Run(w, evs)) && Fine(Run(w, evs), t)
    decreases |evs|
  {
    hide Step, CursorsAt, Fine;
    if evs == [] {
    } else {
      StepFine(w, evs[0], t);
      StepKeepsLevels(w, evs[0]);
      RunFine(Step(w, evs[0]), evs[1..], t);
    }
  }

  lemma InitFine(w: Wheel, t: Timer)
    requires IsInit(w)
    ensures CursorsAt(w) && Fine(w, t) && Sound(w)
  {
    forall l | 0 <= l < TVN_NUM ensures Cursor(0, l) == 0 {
      SpanStep(l);
      DivUnique(0, Span(l), 0, 0);
    }
  }

  /** Every reachable state. */
  lemma Reachable(w0: Wheel, before: seq<Event>, t: Timer)
    requires IsInit(w0)
    ensures var w := Run(w0, before); CursorsAt(w) && Fine(w, t) && Sound(w) && |w.idx| == TVN_NUM
  {
    InitFine(w0, t);
    RunFine(w0, before, t);
    RunSound(w0, before);
  }

  // ----- Where a tick leaves a timer ------------------------------------------------------------------

  /** Where one tick leaves a timer that it does not fire: a cascade that AddTimer refuses drops it. */
  lemma TickLands(w: Wheel, t: Timer, s: Slot)
    requires CursorsAt(w) && Fine(w, t)
    requires ValidSlot(s) && t in At(w, s) && t !in Tick(w).dead
    ensures var now := Next(w.now);
            if !Due(s, w.now) || s.level == 0 then
              t in At(Tick(w), s) && (Due(s, w.now) ==> t.expires > now)
            else
              if Delta(t.expires, now) < REACH then
                ValidSlot(Place(t.expires, now)) && t in At(Tick(w), Place(t.expires, now))
              else
                t !in At(Tick(w), s)
  {
    FineSettled(w, t);
    TickMoves(w, t);
    var w', now := Tick(w), Next(w.now);
    hide Tick, At, Next, Place, Fine;
    if Due(s, w.now) && s.level == 0 {
      assert s == Slot(0, Cursor(w.now, 0));
    }
    assert TickEffect(w, w', t, s);
    if Due(s, w.now) && s.level >= 1 && Delta(t.expires, now) < REACH {
      FitsPlace(t.expires, now);
      assert Moved(w, s.level, w.now, w'.dead, t, Place(t.expires, now));
      assert TickEffect(w, w', t, Place(t.expires, now));
    }
  }

  /** Where a timer that sits in slot s after a tick was before it. */
  lemma TickCameFrom(w: Wheel, t: Timer, s: Slot) returns (s0: Slot)
    requires CursorsAt(w) && Fine(w, t)
    requires ValidSlot(s) && t in At(Tick(w), s)
    ensures ValidSlot(s0) && t in At(w, s0)
    ensures (s0 == s && (!Due(s0, w.now) || (s0.level == 0 && t.expires > Next(w.now))))
            || (Due(s0, w.now) && s0.level >= 1 && Delta(t.expires, Next(w.now)) < REACH
                && s == Place(t.expires, Next(w.now)))
  {
    FineSettled(w, t);
    TickMoves(w, t);
    hide Span, Tick, At, Place, Next, Fine;
    s0 := s;
    assert TickEffect(w, Tick(w), t, s);
    if exists k :: 1 <= k < TVN_NUM && Moved(w, k, w.now, Tick(w).dead, t, s) {
      var k :| 1 <= k < TVN_NUM && Moved(w, k, w.now, Tick(w).dead, t, s);
      s0 := Slot(k, Cursor(w.now, k));
      CursorSmall(w.now, k);
    }
  }

  /** The part of TickMoves about a timer's flag. */
  lemma TickFlag(w: Wheel, t: Timer)
    requires CursorsAt(w) && Fine(w, t)
    ensures Tick(w).now == Next(w.now) && CursorsAt(Tick(w))
    ensures t in Tick(w).dead <==>
              (t in w.dead || (t in At(w, Slot(0, Cursor(w.now, 0))) && t.expires <= Next(w.now)))
    ensures t !in w.dead && t in Tick(w).dead ==> Firing(t, Next(w.now)) in Tick(w).fired
  {
    FineSettled(w, t);
    TickMoves(w, t);
  }

  // ----- Bounded lateness ---------------------------------------------------------------------------

  function Deadline(due: nat, level: nat): nat
    requires level < TVN_NUM
  {
    due + Span(level + 1) + 1
  }

  /** Sitting in s is early enough to fire by the deadline of a timer due at `due`. */
  predicate OnTime(s: Slot, due: nat, level: nat, now: Jiffies)
    requires ValidSlot(s) && level < TVN_NUM
  {
    && s.level <= level
    && (now <= due || Visit(s, now) + (if s.level == 0 then 0 else 1) <= Deadline(due, level))
  }

  ghost predicate Waiting(w: Wheel, t: Timer, due: nat, level: nat)
    requires level < TVN_NUM
  {
    t !in w.dead && exists s :: t in At(w, s) && InTime(s, t.expires, due, level, w.now)
  }

  predicate InTime(s: Slot, expires: Jiffies, due: nat, level: nat, now: Jiffies)
    requires level < TVN_NUM
  {
    ValidSlot(s) && OnTime(s, due, level, now) && expires < now + Span(s.level + 1)
  }

  ghost predicate FiredBy(w: Wheel, t: Timer, deadline: nat) {
    exists f :: f in w.fired && f.timer == t && f.at <= deadline
  }

  lemma OnTimeNext(s: Slot, due: nat, level: nat, now: Jiffies)
    requires ValidSlot(s) && level < TVN_NUM && now + 1 < JIFFIES_END
    requires OnTime(s, due, level, now)
    ensures now + 1 <= Deadline(due, level)
    ensures !Due(s, now) ==> OnTime(s, due, level, now + 1)
    ensures now >= Deadline(due, level) ==> false
  {
    VisitMeaning(s, now);
    SpanGrows(s.level + 1, level + 1);
  }

  /** A timer taken out of a due slot above level 0 is put back in time, never on a higher level. */
  lemma OnTimeMoved(s: Slot, due: nat, level: nat, now: Jiffies, expires: Jiffies)
    requires ValidSlot(s) && level < TVN_NUM && now + 1 < JIFFIES_END
    requires OnTime(s, due, level, now) && Due(s, now) && s.level >= 1
    requires expires <= due && expires < now + Span(s.level + 1)
    ensures ValidSlot(Place(expires, now + 1)) && OnTime(Place(expires, now + 1), due, level, now + 1)
  {
    VisitMeaning(s, now);
    SpanGrows(s.level + 1, level + 1);
    SpanGrows(level + 1, TVN_NUM);
    PlaceMeaning(expires, now + 1);
    PlaceLevelAtMost(expires, now + 1, s.level);
    hide Place;
    if now + 1 > due {
      PlaceExpired(expires, now + 1, s.level);
    }
  }

  /** An expired timer re-added by a cascade goes to the slot that the next tick looks at. */
  lemma PlaceExpired(expires: Jiffies, now: Jiffies, level: nat)
    requires 1 <= level < TVN_NUM && expires < now
    requires Span(level) > 0 && now % Span(level) == 0
    ensures Place(expires, now) == Slot(0, 0) && Visit(Slot(0, 0), now) == now + 1
  {
    LowBits(now, level);
    assert Span(0) == 1;
    NegMod(now);
  }

  lemma NegMod(x: nat)
    requires x % TVN_SIZE == 0
    ensures (0 - x) % TVN_SIZE == 0
  {
  }

  lemma LowBits(x: nat, level: nat)
    requires 1 <= level < TVN_NUM && Span(level) > 0 && x % Span(level) == 0
    ensures x % TVN_SIZE == 0
  {
    AlignedBelow(x, level, 1);
    assert Span(1) == TVN_SIZE;
  }

  lemma WaitingTick(w: Wheel, t: Timer, due: nat, level: nat)
    requires CursorsAt(w) && Fine(w, t) && w.now + 1 < JIFFIES_END
    requires level < TVN_NUM && t.expires <= due && Waiting(w, t, due, level)
    ensures Waiting(Tick(w), t, due, level) || FiredBy(Tick(w), t, Deadline(due, level))
  {
    hide Span, Cursor, Tick, At, Place, OnTime, Deadline, CursorsAt, Due, Fine;
    FourCursors(w);
    TickFlag(w, t);
    assert Next(w.now) == w.now + 1;
    var s :| t in At(w, s) && InTime(s, t.expires, due, level, w.now);
    if t in Tick(w).dead {
      OnTimeNext(s, due, level, w.now);
      assert Firing(t, w.now + 1) in Tick(w).fired;
    } else {
      WaitingStays(w, t, due, level, s);
    }
  }

  lemma WaitingStays(w: Wheel, t: Timer, due: nat, level: nat, s: Slot)
    requires CursorsAt(w) && Fine(w, t) && w.now + 1 < JIFFIES_END && Tick(w).now == w.now + 1
    requires level < TVN_NUM && t.expires <= due && t !in Tick(w).dead
    requires t in At(w, s) && InTime(s, t.expires, due, level, w.now)
    ensures Waiting(Tick(w), t, due, level)
  {
    hide Span, Cursor, Tick, At, Place, OnTime, CursorsAt, Due, Fine;
    var now := w.now + 1;
    assert Next(w.now) == now;
    hide Next;
    FourCursors(w);
    SpanGrows(s.level + 1, TVN_NUM);
    TickLands(w, t, s);
    if Due(s, w.now) && s.level >= 1 { FitsPlace(t.expires, now); }
    var s' := if Due(s, w.now) && s.level >= 1 then Place(t.expires, now) else s;
    WaitingLands(s, s', due, level, w.now, t.expires);
    assert t in At(Tick(w), s') && InTime(s', t.expires, due, level, now);
  }

  lemma WaitingLands(s: Slot, s': Slot, due: nat, level: nat, now: Jiffies, expires: Jiffies)
    requires ValidSlot(s) && ValidSlot(s') && level < TVN_NUM && now + 1 < JIFFIES_END
    requires OnTime(s, due, level, now) && expires <= due && expires < now + Span(s.level + 1)
    requires s' == if Due(s, now) && s.level >= 1 then Place(expires, now + 1) else s
    requires Due(s, now) && s.level == 0 ==> expires > now + 1
    ensures OnTime(s', due, level, now + 1)
  {
    OnTimeNext(s, due, level, now);
    hide Span, Place, OnTime, Due;
    if Due(s, now) && s.level >= 1 {
      OnTimeMoved(s, due, level, now, expires);
    } else if Due(s, now) {
      StillEarly(s, due, level, now + 1);
    }
  }

  lemma StillEarly(s: Slot, due: nat, level: nat, now: Jiffies)
    requires ValidSlot(s) && level < TVN_NUM && s.level == 0 && now <= due
    ensures OnTime(s, due, level, now)
  {
  }

  lemma WaitingStep(w: Wheel, e: Event, t: Timer, due: nat, level: nat)
    requires CursorsAt(w) && Fine(w, t) && (e.Ticked? ==> w.now + 1 < JIFFIES_END)
    requires level < TVN_NUM && t.expires <= due && e != Cancelled(t)
    requires Waiting(w, t, due, level) || FiredBy(w, t, Deadline(due, level))
    ensures Waiting(Step(w, e), t, due, level) || FiredBy(Step(w, e), t, Deadline(due, level))
  {
    if FiredBy(w, t, Deadline(due, level)) {
      StepGrows(w, e);
      var f :| f in w.fired && f.timer == t && f.at <= Deadline(due, level);
      assert f in Step(w, e).fired;
    } else {
      match e
      case Ticked => WaitingTick(w, t, due, level);
      case Added(t') =>
        AddAt(w, t', t);
        hide At, OnTime, Place;
        var s :| t in At(w, s) && InTime(s, t.expires, due, level, w.now);
        assert t in At(Step(w, e), s);
      case Cancelled(t') =>
    }
  }

  lemma {:induction false} RunWaiting(w: Wheel, evs: seq<Event>, t: Timer, due: nat, level: nat)
    requires CursorsAt(w) && Fine(w, t) && w.now + Ticks(evs) < JIFFIES_END
    requires level < TVN_NUM && t.expires <= due && Undisturbed(evs, t)
    requires Waiting(w, t, due, level) || FiredBy(w, t, Deadline(due, level))
    ensures var w' := Run(w, evs);
            Waiting(w', t, due, level) || FiredBy(w', t, Deadline(due, level))
    decreases |evs|
  {
    hide Step, CursorsAt, Fine, Waiting, FiredBy, Deadline;
    if evs == [] {
    } else {
      assert evs[0] in evs;
      assert forall e :: e in evs[1..] ==> e in evs;
      StepFine(w, evs[0], t);
      WaitingStep(w, evs[0], t, due, level);
      RunWaiting(Step(w, evs[0]), evs[1..], t, due, level);
    }
  }

  /** What a timer accepted at level L is owed at a time `at`, counted on from the clock at its
      insertion and not wrapped: by the deadline it has fired, and before that it sits in a slot of
      level at most L. */
  ghost predicate Served(w: Wheel, t: Timer, due: nat, level: nat, at: nat)
    requires level < TVN_NUM
  {
    && (at >= Deadline(due, level) ==> FiredBy(w, t, Deadline(due, level)))
    && (FiredBy(w, t, Deadline(due, level)) ||
          (t !in w.dead && exists s :: ValidSlot(s) && s.level <= level && t in At(w, s)))
  }

  lemma WaitingServed(w: Wheel, t: Timer, due: nat, level: nat)
    requires level < TVN_NUM && (Waiting(w, t, due, level) || FiredBy(w, t, Deadline(due, level)))
    ensures Served(w, t, due, level, w.now)
  {
    hide OnTime, Deadline, At;
    if Waiting(w, t, due, level) {
      var q :| t in At(w, q) && InTime(q, t.expires, due, level, w.now);
      OnTimeLevel(q, due, level, w.now);
    }
  }

  lemma FourCursors(w: Wheel)
    requires CursorsAt(w)
    ensures |w.idx| == TVN_NUM
  {
  }

  lemma ServedBeforeWrap(w: Wheel, t: Timer, due: nat, level: nat, evs: seq<Event>)
    requires CursorsAt(w) && Fine(w, t) && w.now + Ticks(evs) < JIFFIES_END
    requires level < TVN_NUM && t.expires <= due && Undisturbed(evs, t) && Waiting(w, t, due, level)
    ensures Served(Run(w, evs), t, due, level, w.now + Ticks(evs))
  {
    hide Run, Waiting, FiredBy, Served, CursorsAt, Fine, Undisturbed, Ticks, Deadline;
    FourCursors(w);
    RunFine(w, evs, t);
    RunKeepsCursors(w, evs);
    RunWaiting(w, evs, t, due, level);
    WaitingServed(Run(w, evs), t, due, level);
  }

  /** After the deadline the run may go on for ever. */
  lemma ServedAfter(w: Wheel, t: Timer, due: nat, level: nat, evs: seq<Event>)
    requires level < TVN_NUM && t.expires <= due && Undisturbed(evs, t)
    requires CursorsAt(w) && Fine(w, t) && Waiting(w, t, due, level)
    requires w.now <= Deadline(due, level) < JIFFIES_END && w.now + Ticks(evs) >= Deadline(due, level)
    ensures FiredBy(Run(w, evs), t, Deadline(due, level))
  {
    hide Run, Waiting, CursorsAt, Fine, Deadline, Undisturbed, FiredBy, Ticks;
    FourCursors(w);
    var a, b := CutAt(evs, Deadline(due, level) - w.now);
    PartUndisturbed(a, b, t);
    ServedBeforeWrap(w, t, due, level, a);
    RunJoin(w, a, b);
    FiredOn(Run(w, a), b, t, Deadline(due, level));
  }

  lemma FiredOn(w: Wheel, evs: seq<Event>, t: Timer, deadline: nat)
    requires |w.idx| == TVN_NUM && FiredBy(w, t, deadline)
    ensures FiredBy(Run(w, evs), t, deadline)
  {
    hide Run;
    RunGrows(w, evs);
    StillFired(w, Run(w, evs), t, deadline);
  }

  lemma StillFired(w: Wheel, w': Wheel, t: Timer, deadline: nat)
    requires FiredBy(w, t, deadline) && w.fired <= w'.fired
    ensures FiredBy(w', t, deadline)
  {
    var f :| f in w.fired && f.timer == t && f.at <= deadline;
    assert f in w'.fired;
  }

  lemma WaitingOnAdd(w: Wheel, t: Timer)
    requires CursorsAt(w) && Fine(w, t) && Accepts(w, t)
    ensures var level := Place(t.expires, w.now).level;
            level < TVN_NUM && Waiting(Add(w, t), t, Max(t.expires, w.now), level)
    ensures CursorsAt(Add(w, t)) && Fine(Add(w, t), t) && Add(w, t).now == w.now
  {
    var s := Place(t.expires, w.now);
    StepFine(w, Added(t), t);
    AddAt(w, t, t);
    FitsPlace(t.expires, w.now);
    hide Fine;
    assert OnTime(s, Max(t.expires, w.now), s.level, w.now);
  }

  /** Bounded lateness, for a timer added at any moment, after any run and before any run. Whatever
      else is added or cancelled meanwhile, a timer accepted at level L stays in some slot of level
      at most L until it fires, and has fired by 256^(L+1) + 1 ticks after the later of its expiry
      and its insertion. The deadline has to lie before the wrap of the clock: that is known before
      the call. Until the wrap the second half holds for every timer. */
  lemma BoundedLateness(w0: Wheel, before: seq<Event>, w: Wheel, t: Timer, after: seq<Event>)
    requires IsInit(w0) && w == Run(w0, before)
    requires Accepts(w, t) && Undisturbed(after, t)
    ensures var level := Place(t.expires, w.now).level;
            var due := Max(t.expires, w.now);
            && level < TVN_NUM
            && (Deadline(due, level) < JIFFIES_END || w.now + Ticks(after) < JIFFIES_END ==>
                  Served(Run(Add(w, t), after), t, due, level, w.now + Ticks(after)))
  {
    hide Run, Place, Add, Served, Deadline, CursorsAt, Fine, Accepts, IsInit, Undisturbed, Ticks;
    Reachable(w0, before, t);
    ServedOnAdd(w, t, after);
  }

  lemma ServedOnAdd(w: Wheel, t: Timer, after: seq<Event>)
    requires CursorsAt(w) && Fine(w, t) && Accepts(w, t) && Undisturbed(after, t)
    ensures var level := Place(t.expires, w.now).level;
            var due := Max(t.expires, w.now);
            && level < TVN_NUM && |Add(w, t).idx| == TVN_NUM
            && (Deadline(due, level) < JIFFIES_END || w.now + Ticks(after) < JIFFIES_END ==>
                  Served(Run(Add(w, t), after), t, due, level, w.now + Ticks(after)))
  {
    hide Run, Add, Waiting, CursorsAt, Fine, Deadline, Place, Accepts, Undisturbed, Served, Ticks;
    WaitingOnAdd(w, t);
    var level, due := Place(t.expires, w.now).level, Max(t.expires, w.now);
    FourCursors(Add(w, t));
    if Deadline(due, level) < JIFFIES_END || w.now + Ticks(after) < JIFFIES_END {
      ServedInTime(Add(w, t), t, due, level, after);
    }
  }

  lemma ServedInTime(w: Wheel, t: Timer, due: nat, level: nat, evs: seq<Event>)
    requires level < TVN_NUM && t.expires <= due && w.now <= due && Undisturbed(evs, t)
    requires CursorsAt(w) && Fine(w, t) && Waiting(w, t, due, level)
    requires Deadline(due, level) < JIFFIES_END || w.now + Ticks(evs) < JIFFIES_END
    ensures |w.idx| == TVN_NUM && Served(Run(w, evs), t, due, level, w.now + Ticks(evs))
  {
    hide Run, Waiting, FiredBy, Served, CursorsAt, Fine, Undisturbed, Ticks;
    FourCursors(w);
    if w.now + Ticks(evs) < JIFFIES_END {
      ServedBeforeWrap(w, t, due, level, evs);
    } else {
      ServedAfter(w, t, due, level, evs);
      FiredServed(Run(w, evs), t, due, level, w.now + Ticks(evs));
    }
  }

  lemma FiredServed(w: Wheel, t: Timer, due: nat, level: nat, at: nat)
    requires level < TVN_NUM && FiredBy(w, t, Deadline(due, level))
    ensures Served(w, t, due, level, at)
  {
  }

  lemma OnTimeLevel(s: Slot, due: nat, level: nat, now: Jiffies)
    requires ValidSlot(s) && level < TVN_NUM && OnTime(s, due, level, now)
    ensures s.level <= level && now < Deadline(due, level)
  {
    if now > due {
      SpanStep(s.level);
      var p := Span(s.level);
      VisitParts(p, now / p, (s.index - now / p) % TVN_SIZE, now);
    }
  }

  lemma {:induction false} AlignedBelow(x: nat, level: nat, lower: nat)
    requires lower <= level <= TVN_NUM && Span(level) > 0 && x % Span(level) == 0
    ensures Span(lower) > 0 && x % Span(lower) == 0
    decreases level
  {
    if lower < level {
      SpanStep(level - 1);
      DivDiv(x, Span(level - 1), TVN_SIZE);
      hide Span;
      AlignedBelow(x, level - 1, lower);
    }
  }
}
