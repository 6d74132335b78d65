/** The hierarchical time wheel as a value, its transitions, and what holds over whole runs.

    `Wheel` is what one TimeWheel object holds: four levels of 256 slots, one cursor a level,
    the clock, the set of timers whose `active` flag is off, and the callbacks run so far.
    The class in time_wheel.dfy is proved to take exactly the steps defined here. */
module TimeWheelModel {
  import opened Arith

  const TVN_SIZE: nat := 256                        // 1 << TVN_BITS
  const TVN_NUM: nat := 4
  const REACH: nat := 0x1_0000_0000                 // 1 << (TVN_NUM * TVN_BITS)
  const JIFFIES_END: nat := 0x1_0000_0000_0000_0000 // jiffies are uint64_t

  type Jiffies = j: int | 0 <= j < JIFFIES_END

  /** A timer is an object: the wheel stores pointers, and firing one clears its flag in place. */
  class Timer {
    const expires: Jiffies
    var active: bool

    constructor (expires: Jiffies)
      ensures this.expires == expires && active
    {
      this.expires := expires;
      active := true;
    }
  }

  datatype Slot = Slot(level: nat, index: nat)

  /** One run of a timer's callback, with the value of the clock during the call. */
  datatype Firing = Firing(timer: Timer, at: Jiffies)

  datatype Wheel = Wheel(
    tv: map<Slot, seq<Timer>>,
    idx: seq<nat>,
    now: Jiffies,
    dead: set<Timer>,
    fired: seq<Firing>)

  predicate ValidSlot(s: Slot) {
    s.level < TVN_NUM && s.index < TVN_SIZE
  }

  ghost predicate Shape(w: Wheel) {
    && (forall s :: s in w.tv <==> ValidSlot(s))
    && |w.idx| == TVN_NUM
    && (forall l :: 0 <= l < TVN_NUM ==> w.idx[l] < TVN_SIZE)
  }

  /** The timers of one slot, in list order. */
  function At(w: Wheel, s: Slot): seq<Timer> {
    if s in w.tv then w.tv[s] else []
  }

  /** 256^level: how many ticks one slot of that level covers. */
  function Span(level: nat): nat
    requires level <= TVN_NUM
  {
    if level == 0 then 1
    else if level == 1 then 0x100
    else if level == 2 then 0x1_0000
    else if level == 3 then 0x100_0000
    else 0x1_0000_0000
  }

  // ----- AddTimer ---------------------------------------------------------------------------

  function GetLevel(delta: nat): nat {
    if delta < 0x100 then 0
    else if delta < 0x1_0000 then 1
    else if delta < 0x100_0000 then 2
    else 3
  }

  /** Conversion of a 64-bit value to `int`: two's complement, 32 bits. */
  function ToInt32(x: int): int {
    (x + 0x8000_0000) % 0x1_0000_0000 - 0x8000_0000
  }

  function Delta(expires: Jiffies, now: Jiffies): nat {
    if expires <= now then 0 else expires - now
  }

  /** The slot index AddTimer computes. `adjusted_delta` is an `int`, so it may be negative
      there; its right shift is then arithmetic, which is division rounding down. */
  function SlotIndex(level: nat, delta: nat): nat
    requires level < TVN_NUM
  {
    if level == 0 then delta % TVN_SIZE
    else ToInt32(delta - Span(level)) / Span(level) % TVN_SIZE
  }

  function Place(expires: Jiffies, now: Jiffies): Slot {
    var delta := Delta(expires, now);
    Slot(GetLevel(delta), SlotIndex(GetLevel(delta), delta))
  }

  predicate Accepts(w: Wheel, t: Timer) {
    t !in w.dead && Delta(t.expires, w.now) < REACH
  }

  function Add(w: Wheel, t: Timer): Wheel {
    if Accepts(w, t) then
      var s := Place(t.expires, w.now);
      w.(tv := w.tv[s := At(w, s) + [t]])
    else
      w
  }

  // ----- Tick and Cascade -------------------------------------------------------------------

  /** The scan of the current level-0 slot: (timers that stay, timers that expire). */
  function Expire(ts: seq<Timer>, now: Jiffies, dead: set<Timer>): (seq<Timer>, seq<Timer>) {
    if ts == [] then
      ([], [])
    else if ts[0] in dead then
      Expire(ts[1..], now, dead)
    else if ts[0].expires <= now then
      var r := Expire(ts[1..], now, dead + {ts[0]});
      (r.0, [ts[0]] + r.1)
    else
      var r := Expire(ts[1..], now, dead);
      ([ts[0]] + r.0, r.1)
  }

  function Elements(ts: seq<Timer>): set<Timer> {
    set t | t in ts
  }

  function Calls(ts: seq<Timer>, now: Jiffies): seq<Firing> {
    seq(|ts|, i requires 0 <= i < |ts| => Firing(ts[i], now))
  }

  function AddAll(w: Wheel, ts: seq<Timer>): Wheel
    decreases |ts|
  {
    if ts == [] then w else AddAll(Add(w, ts[0]), ts[1..])
  }

  /** Cascade at one level: take the current slot's timers out, re-add them, advance the cursor. */
  function Drain(w: Wheel, level: nat): Wheel
    requires level < |w.idx|
  {
    var s := Slot(level, w.idx[level]);
    var w1 := AddAll(w.(tv := w.tv[s := []]), At(w, s));
    w1.(idx := w.idx[level := (w.idx[level] + 1) % TVN_SIZE])
  }

  function Cascade(w: Wheel, level: nat): Wheel
    requires |w.idx| == TVN_NUM
    decreases TVN_NUM - level
  {
    if level >= TVN_NUM then w
    else
      var w1 := Drain(w, level);
      if w1.idx[level] == 0 && level + 1 < TVN_NUM then Cascade(w1, level + 1) else w1
  }

  function Next(now: Jiffies): Jiffies {
    (now + 1) % JIFFIES_END
  }

  /** A tick up to the cascade: the clock, the scan of the slot, the callbacks, the cursor. */
  function Scan(w: Wheel): Wheel
    requires |w.idx| == TVN_NUM
  {
    var now := Next(w.now);
    var s := Slot(0, w.idx[0]);
    var r := Expire(At(w, s), now, w.dead);
    Wheel(w.tv[s := r.0], w.idx[0 := (w.idx[0] + 1) % TVN_SIZE], now,
          w.dead + Elements(r.1), w.fired + Calls(r.1, now))
  }

  function Tick(w: Wheel): Wheel
    requires |w.idx| == TVN_NUM
  {
    var w1 := Scan(w);
    if w1.idx[0] == 0 then Cascade(w1, 1) else w1
  }

  // ----- Runs -------------------------------------------------------------------------------

  /** What can happen to a wheel. `Cancel` is outside code clearing a timer's `active` flag. */
  datatype Event = Ticked | Added(timer: Timer) | Cancelled(timer: Timer)

  ghost predicate IsInit(w: Wheel) {
    && Shape(w)
    && w.now == 0
    && w.fired == []
    && (forall s :: ValidSlot(s) ==> At(w, s) == [])
    && (forall l :: 0 <= l < TVN_NUM ==> w.idx[l] == 0)
  }

  function Step(w: Wheel, e: Event): Wheel
    requires |w.idx| == TVN_NUM
  {
    match e
    case Ticked => Tick(w)
    case Added(t) => Add(w, t)
    case Cancelled(t) => w.(dead := w.dead + {t})
  }

  lemma StepKeepsLevels(w: Wheel, e: Event)
    requires |w.idx| == TVN_NUM
    ensures |Step(w, e).idx| == TVN_NUM
  {
    if e.Ticked? {
      CascadeFrame(Scan(w), 1);
    }
  }

  ghost function Run(w: Wheel, evs: seq<Event>): Wheel
    requires |w.idx| == TVN_NUM
    ensures |Run(w, evs).idx| == TVN_NUM
    decreases |evs|
  {
    if evs == [] then w
    else
      StepKeepsLevels(w, evs[0]);
      Run(Step(w, evs[0]), evs[1..])
  }

  function Ticks(evs: seq<Event>): nat {
    if evs == [] then 0 else (if evs[0].Ticked? then 1 else 0) + Ticks(evs[1..])
  }

  // ----- Where AddTimer puts a timer ----------------------------------------------------------

  /** The truncation to `int` in AddTimer never shows, although the value may not fit. */
  lemma TruncationHarmless(delta: nat)
    requires 0x100_0000 <= delta < REACH
    ensures SlotIndex(3, delta) == delta / 0x100_0000 - 1
  {
    var x := delta - 0x100_0000;
    var q, r := x / 0x100_0000, x % 0x100_0000;
    assert Span(3) == 0x100_0000;
    if x < 0x8000_0000 {
      assert ToInt32(x) == x;
    } else {
      assert ToInt32(x) == x - 0x1_0000_0000;
      DivUnique(x - 0x1_0000_0000, 0x100_0000, q - 256, r);
    }
    DivUnique(delta, 0x100_0000, q + 1, r);
  }

  lemma NarrowIndex(delta: nat, level: nat)
    requires 1 <= level < 3 && Span(level) <= delta < Span(level + 1)
    ensures SlotIndex(level, delta) == delta / Span(level) - 1 < TVN_SIZE
  {
    var x := delta - Span(level);
    assert ToInt32(x) == x;
    if level == 1 {
      assert delta / 0x100 < 256;
    } else {
      assert delta / 0x1_0000 < 256;
    }
  }

  /** A timer `delta` away goes to the level whose span brackets delta, at the index that counts
      whole spans of that level (less one above level 0). */
  lemma PlaceMeaning(expires: Jiffies, now: Jiffies)
    requires Delta(expires, now) < REACH
    ensures ValidSlot(Place(expires, now))
    ensures var s := Place(expires, now); var d := Delta(expires, now);
            && d < Span(s.level + 1)
            && (s.level > 0 ==> Span(s.level) <= d && s.index == d / Span(s.level) - 1)
            && (s.level == 0 ==> s.index == d)
  {
    var d := Delta(expires, now);
    match GetLevel(d)
    case 0 => assert SlotIndex(0, d) == d;
    case 1 => NarrowIndex(d, 1);
    case 2 => NarrowIndex(d, 2);
    case _ => TruncationHarmless(d);
  }

  lemma PlaceLevelAtMost(expires: Jiffies, now: Jiffies, level: nat)
    requires level < TVN_NUM && Delta(expires, now) < Span(level + 1)
    ensures Place(expires, now).level <= level
  {
  }

  // ----- Frames -------------------------------------------------------------------------------

  lemma {:induction false} AddAllFrame(w: Wheel, ts: seq<Timer>)
    ensures var w' := AddAll(w, ts);
            w'.idx == w.idx && w'.now == w.now && w'.dead == w.dead && w'.fired == w.fired
    ensures Shape(w) ==> Shape(AddAll(w, ts))
    decreases |ts|
  {
    if ts == [] {
    } else {
      if Accepts(w, ts[0]) { PlaceMeaning(ts[0].expires, w.now); }
      AddAllFrame(Add(w, ts[0]), ts[1..]);
    }
  }

  lemma DrainFrame(w: Wheel, level: nat)
    requires level < |w.idx|
    ensures var w' := Drain(w, level);
            && w'.idx == w.idx[level := (w.idx[level] + 1) % TVN_SIZE]
            && w'.now == w.now && w'.dead == w.dead && w'.fired == w.fired
    ensures Shape(w) ==> Shape(Drain(w, level))
  {
    var s := Slot(level, w.idx[level]);
    AddAllFrame(w.(tv := w.tv[s := []]), At(w, s));
  }

  lemma {:induction false} CascadeFrame(w: Wheel, level: nat)
    requires |w.idx| == TVN_NUM
    ensures var w' := Cascade(w, level);
            |w'.idx| == |w.idx| && w'.now == w.now && w'.dead == w.dead && w'.fired == w.fired
    ensures Shape(w) ==> Shape(Cascade(w, level))
    decreases TVN_NUM - level
  {
    hide Drain;
    if level >= TVN_NUM {
    } else {
      DrainFrame(w, level);
      CascadeFrame(Drain(w, level), level + 1);
    }
  }

  // ----- The cursors are an odometer ------------------------------------------------------------

  function Cursor(now: Jiffies, level: nat): nat
    requires level < TVN_NUM
  {
    now / Span(level) % TVN_SIZE
  }

  ghost predicate CursorsAt(w: Wheel) {
    Shape(w) && forall l :: 0 <= l < TVN_NUM ==> w.idx[l] == Cursor(w.now, l)
  }

  lemma SpanStep(level: nat)
    requires level < TVN_NUM
    ensures Span(level) > 0 && Span(level + 1) == TVN_SIZE * Span(level)
    ensures JIFFIES_END % Span(level) == 0 && JIFFIES_END / Span(level) % TVN_SIZE == 0
  {
    match level
    case 0 =>
    case 1 =>
    case 2 =>
    case _ => assert level == 3;
  }

  lemma DigitStep(q: nat)
    ensures (q % TVN_SIZE + 1) % TVN_SIZE == (q + 1) % TVN_SIZE
  {
  }

  /** One step of one digit of a base-256 odometer. */
  lemma OdometerDigit(x: nat, p: nat)
    requires p > 0
    ensures (x + 1) % p == 0 ==> (x + 1) / p % TVN_SIZE == (x / p % TVN_SIZE + 1) % TVN_SIZE
    ensures (x + 1) % p != 0 ==> (x + 1) / p == x / p
    ensures TVN_SIZE * p > 0
    ensures (x + 1) % (TVN_SIZE * p) == 0 <==> (x + 1) % p == 0 && (x / p % TVN_SIZE + 1) % TVN_SIZE == 0
  {
    DivStep(x, p);
    DivDiv(x + 1, p, TVN_SIZE);
    DigitStep(x / p);
  }

  lemma CursorAtWrap(level: nat)
    requires level < TVN_NUM
    ensures Span(level) > 0 && JIFFIES_END % Span(level) == 0 && JIFFIES_END / Span(level) % TVN_SIZE == 0
    ensures Cursor(0, level) == 0
  {
    SpanStep(level);
    DivUnique(0, Span(level), 0, 0);
  }

  /** One step of the odometer at one level, wrap of the 64-bit clock included. */
  lemma CursorStep(prev: Jiffies, level: nat)
    requires level < TVN_NUM
    ensures Span(level) > 0 && Span(level + 1) > 0
    ensures (prev + 1) % Span(level) == 0 ==> Cursor(Next(prev), level) == (Cursor(prev, level) + 1) % TVN_SIZE
    ensures (prev + 1) % Span(level) != 0 ==> Cursor(Next(prev), level) == Cursor(prev, level)
    ensures (prev + 1) % Span(level) == 0 ==>
              ((Cursor(prev, level) + 1) % TVN_SIZE == 0 <==> (prev + 1) % Span(level + 1) == 0)
    ensures (prev + 1) % Span(level) != 0 ==> (prev + 1) % Span(level + 1) != 0
  {
    SpanStep(level);
    OdometerDigit(prev, Span(level));
    if prev + 1 == JIFFIES_END {
      assert Next(prev) == 0;
      hide Span, Next;
      CursorAtWrap(level);
    } else {
      assert Next(prev) == prev + 1;
      hide Span, Next;
    }
  }

  /** The state in which Cascade(level) is called: lower cursors have moved, this one has not. */
  ghost predicate Cascading(w: Wheel, level: nat, prev: Jiffies) {
    && Shape(w)
    && level < TVN_NUM
    && w.now == Next(prev)
    && (prev + 1) % Span(level) == 0
    && (forall l :: 0 <= l < level ==> w.idx[l] == Cursor(w.now, l))
    && (forall l :: level <= l < TVN_NUM ==> w.idx[l] == Cursor(prev, l))
  }

  lemma {:induction false} CursorsStuck(prev: Jiffies, level: nat, l: nat)
    requires level <= l < TVN_NUM
    requires (prev + 1) % Span(level) != 0
    ensures Cursor(Next(prev), l) == Cursor(prev, l)
    decreases l - level
  {
    hide Span, Cursor;
    CursorStep(prev, level);
    if level == l {
    } else {
      CursorsStuck(prev, level + 1, l);
    }
  }

  lemma {:induction false} CascadeCursors(w: Wheel, level: nat, prev: Jiffies)
    requires Cascading(w, level, prev)
    ensures CursorsAt(Cascade(w, level))
    decreases TVN_NUM - level
  {
    hide Span, Cursor, Drain, Next;
    CursorStep(prev, level);
    DrainFrame(w, level);
    var w1 := Drain(w, level);
    if level + 1 < TVN_NUM {
      if w1.idx[level] == 0 {
        CascadeCursors(w1, level + 1, prev);
      } else {
        forall l | level + 1 <= l < TVN_NUM ensures Cursor(w.now, l) == Cursor(prev, l) {
          CursorsStuck(prev, level + 1, l);
        }
      }
    }
  }

  lemma ScanShape(w: Wheel)
    requires CursorsAt(w)
    ensures var w1 := Scan(w);
            && Shape(w1)
            && (w1.idx[0] == 0 ==> Cascading(w1, 1, w.now))
            && (w1.idx[0] != 0 ==> CursorsAt(w1) && (w.now + 1) % Span(1) != 0)
  {
    assert Span(0) == 1 && Span(1) == 0x100;
    hide Span, Cursor, Next;
    CursorStep(w.now, 0);
    if (w.idx[0] + 1) % TVN_SIZE != 0 {
      forall l | 1 <= l < TVN_NUM ensures Cursor(Next(w.now), l) == Cursor(w.now, l) {
        CursorsStuck(w.now, 1, l);
      }
    }
  }

  /** Every step keeps cursor l equal to digit l of the clock in base 256, for ever. */
  lemma StepKeepsCursors(w: Wheel, e: Event)
    requires CursorsAt(w)
    ensures CursorsAt(Step(w, e))
  {
    hide Span, Cursor, Next, Scan, Cascade;
    match e
    case Ticked =>
      ScanShape(w);
      if Scan(w).idx[0] == 0 { CascadeCursors(Scan(w), 1, w.now); }
    case Added(t) =>
      if Accepts(w, t) { PlaceMeaning(t.expires, w.now); }
    case Cancelled(t) =>
  }

  lemma StepClock(w: Wheel, e: Event)
    requires |w.idx| == TVN_NUM
    ensures Step(w, e).now == if e.Ticked? then Next(w.now) else w.now
  {
    if e.Ticked? { CascadeFrame(Scan(w), 1); }
  }

  lemma NextTicks(now: Jiffies, n: nat)
    ensures (Next(now) + n) % JIFFIES_END == (now + 1 + n) % JIFFIES_END
  {
  }

  /** In every reachable state, however long the run and even after the clock wraps. */
  lemma {:induction false} RunKeepsCursors(w: Wheel, evs: seq<Event>)
    requires CursorsAt(w)
    ensures CursorsAt(Run(w, evs))
    ensures Run(w, evs).now == (w.now + Ticks(evs)) % 0x1_0000_0000_0000_0000
    decreases |evs|
  {
    hide Span, Cursor, Next, Step;
    if evs == [] {
    } else {
      StepKeepsCursors(w, evs[0]);
      StepClock(w, evs[0]);
      NextTicks(w.now, Ticks(evs[1..]));
      StepKeepsLevels(w, evs[0]);
      RunKeepsCursors(Step(w, evs[0]), evs[1..]);
    }
  }

  // ----- What one tick does to one timer ----------------------------------------------------------

  /** The slots a tick that leaves `prev` looks at. */
  predicate Due(s: Slot, prev: Jiffies)
    requires s.level < TVN_NUM
  {
    (prev + 1) % Span(s.level) == 0 && s.index == Cursor(prev, s.level)
  }

  /** Timer t sat in the due slot of level k and is put back at s. */
  predicate Moved(w: Wheel, k: nat, prev: Jiffies, dead: set<Timer>, t: Timer, s: Slot)
    requires k < TVN_NUM
  {
    && (prev + 1) % Span(k) == 0
    && t in At(w, Slot(k, Cursor(prev, k)))
    && t !in dead
    && Delta(t.expires, Next(prev)) < REACH
    && s == Place(t.expires, Next(prev))
  }

  /** At clock `now`, a timer above level 0 is within reach of its level or beyond that of the wheel. */
  ghost predicate Settled(w: Wheel, t: Timer, now: Jiffies) {
    forall s :: ValidSlot(s) && s.level >= 1 && t in At(w, s) ==>
      Delta(t.expires, now) < Span(s.level + 1) || Delta(t.expires, now) >= REACH
  }

  lemma {:induction false} AddAllAt(w: Wheel, ts: seq<Timer>, t: Timer, s: Slot)
    requires Shape(w) && ValidSlot(s)
    ensures t in At(AddAll(w, ts), s) <==>
              t in At(w, s) || (t in ts && Accepts(w, t) && s == Place(t.expires, w.now))
    decreases |ts|
  {
    if ts == [] {
    } else {
      if Accepts(w, ts[0]) { PlaceMeaning(ts[0].expires, w.now); }
      var w1 := Add(w, ts[0]);
      AddAllAt(w1, ts[1..], t, s);
      assert ts == [ts[0]] + ts[1..];
    }
  }

  ghost predicate CascadeEffect(w: Wheel, w': Wheel, level: nat, prev: Jiffies, t: Timer, s: Slot)
    requires s.level < TVN_NUM
  {
    t in At(w', s) <==>
      || (t in At(w, s) && !(s.level >= level && Due(s, prev)))
      || (exists k :: level <= k < TVN_NUM && Moved(w, k, prev, w.dead, t, s))
  }

  /** One level of a cascade: its current slot is emptied, and every active timer in it moves. */
  lemma DrainMoves(w: Wheel, level: nat, prev: Jiffies, t: Timer)
    requires Cascading(w, level, prev) && Settled(w, t, w.now)
    ensures Settled(Drain(w, level), t, w.now)
    ensures forall s :: ValidSlot(s) ==> DrainEffect(w, Drain(w, level), level, prev, t, s)
  {
    DrainFrame(w, level);
    forall s | ValidSlot(s)
      ensures DrainEffect(w, Drain(w, level), level, prev, t, s)
      ensures s.level >= 1 && t in At(Drain(w, level), s) ==>
                Delta(t.expires, w.now) < Span(s.level + 1) || Delta(t.expires, w.now) >= REACH
    {
      DrainMovesAt(w, level, prev, t, s);
    }
  }

  lemma DrainMovesAt(w: Wheel, level: nat, prev: Jiffies, t: Timer, s: Slot)
    requires Cascading(w, level, prev) && Settled(w, t, w.now) && ValidSlot(s)
    ensures DrainEffect(w, Drain(w, level), level, prev, t, s)
    ensures s.level >= 1 && t in At(Drain(w, level), s) ==>
              Delta(t.expires, w.now) < Span(s.level + 1) || Delta(t.expires, w.now) >= REACH
  {
    assert 0 < Span(level + 1) <= REACH;
    hide Span, Cursor, Place, Next;
    var slot := Slot(level, w.idx[level]);
    var w0 := w.(tv := w.tv[slot := []]);
    var ts := At(w, slot);
    AddAllFrame(w0, ts);
    AddAllAt(w0, ts, t, s);
    if Delta(t.expires, w.now) < REACH { PlaceMeaning(t.expires, w.now); }
    assert At(Drain(w, level), s) == At(AddAll(w0, ts), s);
    assert t in At(w0, s) <==> t in At(w, s) && s != slot;
  }

  ghost predicate DrainEffect(w: Wheel, w': Wheel, level: nat, prev: Jiffies, t: Timer, s: Slot)
    requires level < TVN_NUM
  {
    t in At(w', s) <==>
      (t in At(w, s) && s != Slot(level, Cursor(prev, level))) || Moved(w, level, prev, w.dead, t, s)
  }

  lemma {:induction false} CascadeMoves(w: Wheel, level: nat, prev: Jiffies, t: Timer)
    requires Cascading(w, level, prev) && 1 <= level && Settled(w, t, w.now)
    ensures forall s :: ValidSlot(s) ==> CascadeEffect(w, Cascade(w, level), level, prev, t, s)
    decreases TVN_NUM - level
  {
    CursorStep(prev, level);
    DrainFrame(w, level);
    DrainMoves(w, level, prev, t);
    var w1 := Drain(w, level);
    hide Span, Cursor, Drain, Place, Next, Moved, At;
    if w1.idx[level] == 0 && level + 1 < TVN_NUM {
      CascadeMoves(w1, level + 1, prev, t);
      forall s | ValidSlot(s) ensures CascadeEffect(w, Cascade(w, level), level, prev, t, s) {
        CascadeJoin(w, w1, Cascade(w, level), level, prev, t, s);
      }
    } else {
      forall s | ValidSlot(s) ensures CascadeEffect(w, w1, level, prev, t, s) {
        CascadeStops(w, w1, level, prev, t, s);
      }
    }
  }

  lemma CascadeStops(w: Wheel, w1: Wheel, level: nat, prev: Jiffies, t: Timer, s: Slot)
    requires Cascading(w, level, prev) && ValidSlot(s)
    requires level + 1 < TVN_NUM ==> (prev + 1) % Span(level + 1) != 0
    requires DrainEffect(w, w1, level, prev, t, s)
    ensures CascadeEffect(w, w1, level, prev, t, s)
  {
    if level + 1 < TVN_NUM { NotAligned(prev, level + 1); }
    hide Span, Cursor, Place, At;
    if Moved(w, level, prev, w.dead, t, s) {
      assert exists k :: level <= k < TVN_NUM && Moved(w, k, prev, w.dead, t, s);
    }
  }

  lemma {:induction false} NotAligned(prev: Jiffies, level: nat)
    requires level < TVN_NUM && (prev + 1) % Span(level) != 0
    ensures forall k :: level <= k < TVN_NUM ==> (prev + 1) % Span(k) != 0
    decreases TVN_NUM - level
  {
    CursorStep(prev, level);
    hide Span;
    if level + 1 < TVN_NUM { NotAligned(prev, level + 1); }
  }

  /** Splices the effect of one level onto the effect of the levels above it. */
  lemma CascadeJoin(w: Wheel, w1: Wheel, w': Wheel, level: nat, prev: Jiffies, t: Timer, s: Slot)
    requires Cascading(w, level, prev) && 1 <= level && Settled(w, t, w.now)
    requires level + 1 < TVN_NUM && ValidSlot(s) && w1.dead == w.dead
    requires forall q :: ValidSlot(q) ==> DrainEffect(w, w1, level, prev, t, q)
    requires CascadeEffect(w1, w', level + 1, prev, t, s)
    ensures CascadeEffect(w, w', level, prev, t, s)
  {
    assert forall q :: Moved(w, level, prev, w.dead, t, q) ==> q.level <= level by {
      MovedLevel(w, level, prev, t);
    }
    forall k | level + 1 <= k < TVN_NUM
      ensures Moved(w1, k, prev, w.dead, t, s) <==> Moved(w, k, prev, w.dead, t, s)
    {
      CursorSmall(prev, k);
      hide Span, Place, At, Cursor;
      var q := Slot(k, Cursor(prev, k));
      assert DrainEffect(w, w1, level, prev, t, q);
    }
    hide Span, Place, At, Moved;
    assert DrainEffect(w, w1, level, prev, t, s);
    assert Due(s, prev) && s.level == level <==> s == Slot(level, Cursor(prev, level));
  }

  lemma MovedLevel(w: Wheel, level: nat, prev: Jiffies, t: Timer)
    requires Cascading(w, level, prev) && 1 <= level && Settled(w, t, w.now)
    ensures forall q :: Moved(w, level, prev, w.dead, t, q) ==> q.level <= level
  {
    SpanStep(level);
    CursorSmall(prev, level);
    hide Span, Place, At, Cursor, Next;
    assert ValidSlot(Slot(level, Cursor(prev, level)));
    forall q | Moved(w, level, prev, w.dead, t, q) ensures q.level <= level {
      PlaceLevelAtMost(t.expires, w.now, level);
    }
  }

  /** The scan of a slot: who expires and who stays. */
  lemma {:induction false} ExpireMeaning(ts: seq<Timer>, now: Jiffies, dead: set<Timer>)
    ensures var r := Expire(ts, now, dead);
            && (forall t :: t in r.0 <==> t in ts && t !in dead && t.expires > now)
            && (forall t :: t in r.1 <==> t in ts && t !in dead && t.expires <= now)
            && (forall i, j :: 0 <= i < j < |r.1| ==> r.1[i] != r.1[j])
    decreases |ts|
  {
    if ts == [] {
    } else {
      assert ts == [ts[0]] + ts[1..];
      if ts[0] in dead {
        ExpireMeaning(ts[1..], now, dead);
      } else if ts[0].expires <= now {
        ExpireMeaning(ts[1..], now, dead + {ts[0]});
      } else {
        ExpireMeaning(ts[1..], now, dead);
      }
    }
  }

  ghost predicate TickEffect(w: Wheel, w': Wheel, t: Timer, s: Slot)
    requires s.level < TVN_NUM
  {
    t in At(w', s) <==>
      || (t in At(w, s) && !Due(s, w.now))
      || (t in At(w, s) && s.level == 0 && t !in w.dead && t.expires > Next(w.now))
      || (exists k :: 1 <= k < TVN_NUM && Moved(w, k, w.now, w'.dead, t, s))
  }

  /** What the scan of the due level-0 slot does, before any cascade. */
  lemma ScanMoves(w: Wheel, t: Timer)
    requires CursorsAt(w)
    ensures var w1, now, slot := Scan(w), Next(w.now), Slot(0, Cursor(w.now, 0));
            && (t in w1.dead <==> (t in w.dead || (t in At(w, slot) && t.expires <= now)))
            && (t !in w.dead && t in w1.dead ==> Firing(t, now) in w1.fired)
            && (forall s :: ValidSlot(s) ==>
                  (t in At(w1, s) <==>
                     if s == slot then t in At(w, s) && t !in w.dead && t.expires > now
                     else t in At(w, s)))
  {
    hide Span, Cursor, Next, Expire;
    var slot, now := Slot(0, w.idx[0]), Next(w.now);
    var r := Expire(At(w, slot), now, w.dead);
    ExpireMeaning(At(w, slot), now, w.dead);
    CallsMeaning(r.1, now, t);
    var w1 := Scan(w);
    assert w1.tv == w.tv[slot := r.0];
    assert w1.dead == w.dead + Elements(r.1);
    assert w1.fired == w.fired + Calls(r.1, now);
  }

  lemma CallsMeaning(ts: seq<Timer>, now: Jiffies, t: Timer)
    ensures t in Elements(ts) <==> t in ts
    ensures t in ts ==> Firing(t, now) in Calls(ts, now)
  {
    if t in ts {
      var i :| 0 <= i < |ts| && ts[i] == t;
      assert Calls(ts, now)[i] == Firing(t, now);
    }
  }

  /** Everything one tick does to one timer: it fires if it is in the due level-0 slot, active
      and expired; if it is in a due slot above level 0 it is re-placed, or dropped when AddTimer
      refuses it; otherwise it stays. */
  lemma TickMoves(w: Wheel, t: Timer)
    requires CursorsAt(w) && Settled(w, t, Next(w.now))
    ensures var w', now := Tick(w), Next(w.now);
            && w'.now == now
            && CursorsAt(w')
            && (t in w'.dead <==> (t in w.dead || (t in At(w, Slot(0, Cursor(w.now, 0))) && t.expires <= now)))
            && (t !in w.dead && t in w'.dead ==> Firing(t, now) in w'.fired)
    ensures forall s :: ValidSlot(s) ==> TickEffect(w, Tick(w), t, s)
  {
    assert Span(0) == 1;
    hide Span, Cursor, Scan, Cascade, At, Next, TickEffect, CascadeEffect;
    StepKeepsCursors(w, Ticked);
    ScanShape(w);
    ScanMoves(w, t);
    StepClock(w, Ticked);
    var w1 := Scan(w);
    CascadeFrame(w1, 1);
    if w1.idx[0] == 0 { CascadeMoves(w1, 1, w.now, t); }
    forall s | ValidSlot(s) ensures TickEffect(w, Tick(w), t, s) {
      TickJoin(w, w1, Tick(w), t, s);
    }
  }

  /** Splices the effect of the scan onto the effect of the cascade, if there is one. */
  lemma TickJoin(w: Wheel, w1: Wheel, w': Wheel, t: Timer, s: Slot)
    requires ValidSlot(s) && w'.dead == w1.dead
    requires forall q :: ValidSlot(q) ==>
               (t in At(w1, q) <==>
                  if q == Slot(0, Cursor(w.now, 0)) then t in At(w, q) && t !in w.dead && t.expires > Next(w.now)
                  else t in At(w, q))
    requires CascadeEffect(w1, w', 1, w.now, t, s) || (w' == w1 && (w.now + 1) % Span(1) != 0)
    ensures TickEffect(w, w', t, s)
  {
    assert Span(0) == 1;
    if w' == w1 && (w.now + 1) % Span(1) != 0 { NotAligned(w.now, 1); }
    hide Span, Cursor, At, Place;
    forall k | 1 <= k < TVN_NUM
      ensures Moved(w1, k, w.now, w1.dead, t, s) <==> Moved(w, k, w.now, w1.dead, t, s)
    {
      CursorSmall(w.now, k);
      assert ValidSlot(Slot(k, Cursor(w.now, k)));
    }
  }

  lemma CursorSmall(now: Jiffies, level: nat)
    requires level < TVN_NUM
    ensures Cursor(now, level) < TVN_SIZE
  {
  }
}
