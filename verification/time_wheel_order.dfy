/** In which order callbacks run: those of one tick in list order, and timers added at one clock value
    for one jiffy in the order in which they were added, through every cascade. */
module TimeWheelOrder {
  import opened TimeWheelModel
  import opened TimeWheelRuns

  // ----- One tick --------------------------------------------------------------------------------------

  /** The elements of a, in order, among those of b. */
  predicate Sub(a: seq<Timer>, b: seq<Timer>) {
    || a == []
    || (b != [] && ((a[0] == b[0] && Sub(a[1..], b[1..])) || Sub(a, b[1..])))
  }

  lemma SubEmpty(b: seq<Timer>)
    ensures Sub([], b)
  {
  }

  lemma SubSame(t: Timer, a: seq<Timer>, b: seq<Timer>)
    requires Sub(a, b)
    ensures Sub([t] + a, [t] + b)
  {
    assert ([t] + a)[1..] == a && ([t] + b)[1..] == b;
  }

  lemma SubSkip(t: Timer, a: seq<Timer>, b: seq<Timer>)
    requires Sub(a, b)
    ensures Sub(a, [t] + b)
  {
    assert ([t] + b)[1..] == b;
  }

  /** Both what stays in a slot and what expires keep their order. */
  lemma {:induction false} ExpireSub(ts: seq<Timer>, now: Jiffies, dead: set<Timer>)
    ensures var r := Expire(ts, now, dead); Sub(r.0, ts) && Sub(r.1, ts)
    decreases |ts|
  {
    if ts == [] {
    } else {
      var next := if ts[0] !in dead && ts[0].expires <= now then dead + {ts[0]} else dead;
      var r := Expire(ts[1..], now, next);
      ExpireSub(ts[1..], now, next);
      assert ts == [ts[0]] + ts[1..];
      hide Sub;
      SubSame(ts[0], r.0, ts[1..]);
      SubSame(ts[0], r.1, ts[1..]);
      SubSkip(ts[0], r.0, ts[1..]);
      SubSkip(ts[0], r.1, ts[1..]);
    }
  }

  function TimersOf(fs: seq<Firing>): (ts: seq<Timer>)
    ensures |ts| == |fs| && forall i :: 0 <= i < |fs| ==> ts[i] == fs[i].timer
  {
    seq(|fs|, i requires 0 <= i < |fs| => fs[i].timer)
  }

  /** The callbacks of one tick run in the order in which the timers stand in the slot. */
  lemma TickCalls(w: Wheel)
    requires |w.idx| == TVN_NUM
    ensures var w' := Tick(w);
            && w.fired <= w'.fired
            && Sub(TimersOf(w'.fired[|w.fired|..]), At(w, Slot(0, w.idx[0])))
            && forall i :: |w.fired| <= i < |w'.fired| ==> w'.fired[i].at == w'.now
  {
    hide Expire, At, Cascade, Sub;
    var ts, now := At(w, Slot(0, w.idx[0])), Next(w.now);
    ExpireSub(ts, now, w.dead);
    CascadeFrame(Scan(w), 1);
    var calls := Expire(ts, now, w.dead).1;
    assert Tick(w).fired == w.fired + Calls(calls, now);
    assert TimersOf(Tick(w).fired[|w.fired|..]) == calls;
  }

  // ----- Two timers in a list -----------------------------------------------------------------------------

  /** What is left of a list when only two timers count. */
  function Only(ts: seq<Timer>, a: Timer, b: Timer): seq<Timer> {
    if ts == [] then []
    else (if ts[0] == a || ts[0] == b then [ts[0]] else []) + Only(ts[1..], a, b)
  }

  lemma OnlyStep(t: Timer, ts: seq<Timer>, a: Timer, b: Timer)
    ensures Only([t] + ts, a, b) == (if t == a || t == b then [t] else []) + Only(ts, a, b)
  {
    assert ([t] + ts)[1..] == ts;
  }

  lemma {:induction false} OnlyJoin(s: seq<Timer>, t: seq<Timer>, a: Timer, b: Timer)
    ensures Only(s + t, a, b) == Only(s, a, b) + Only(t, a, b)
    decreases |s|
  {
    hide Only;
    if s == [] {
      OnlyNone(a, b);
      assert s + t == t;
      NothingElse(Only(t, a, b));
    } else {
      var rest := s[1..];
      OnlyJoin(rest, t, a, b);
      OnlyStep(s[0], rest, a, b);
      OnlyStep(s[0], rest + t, a, b);
      assert s + t == [s[0]] + (rest + t) && s == [s[0]] + rest;
      JoinThree(if s[0] == a || s[0] == b then [s[0]] else [], Only(rest, a, b), Only(t, a, b));
    }
  }

  lemma OnlyOne(t: Timer, a: Timer, b: Timer)
    ensures Only([t], a, b) == if t == a || t == b then [t] else []
  {
    OnlyStep(t, [], a, b);
    assert [t] + [] == [t];
  }

  lemma {:induction false} OnlyIn(ts: seq<Timer>, a: Timer, b: Timer)
    ensures forall t :: t in Only(ts, a, b) <==> t in ts && (t == a || t == b)
    decreases |ts|
  {
    if ts == [] {
    } else {
      OnlyIn(ts[1..], a, b);
      OnlyStep(ts[0], ts[1..], a, b);
      hide Only;
      assert ts == [ts[0]] + ts[1..];
    }
  }

  /** A list of which a and then b are left has a before b. */
  lemma {:induction false} OnlyOrder(ts: seq<Timer>, a: Timer, b: Timer, i: nat, j: nat)
    requires a != b && Only(ts, a, b) == [a, b]
    requires i < |ts| && j < |ts| && ts[i] == a && ts[j] == b
    ensures i < j
    decreases |ts|
  {
    var rest := ts[1..];
    assert ts == [ts[0]] + rest;
    OnlyStep(ts[0], rest, a, b);
    OnlyIn(rest, a, b);
    assert Only(ts, a, b)[0] == a;
    hide Only;
    if ts[0] == a {
      assert Only(rest, a, b) == [a, b][1..] == [b];
      forall k | 0 <= k < |rest| ensures rest[k] != a { assert rest[k] in rest; }
      assert forall k :: 0 < k < |ts| ==> ts[k] == rest[k - 1];
    } else if ts[0] == b {
      assert false;
    } else {
      OnlyOrder(rest, a, b, i - 1, j - 1);
    }
  }

  predicate Distinct(ts: seq<Timer>) {
    forall i, j :: 0 <= i < j < |ts| ==> ts[i] != ts[j]
  }

  lemma DistinctRest(t: Timer, ts: seq<Timer>)
    requires Distinct([t] + ts)
    ensures Distinct(ts) && t !in ts
  {
    var whole := [t] + ts;
    forall i, j | 0 <= i < j < |ts| ensures ts[i] != ts[j] {
      assert whole[i + 1] == ts[i] && whole[j + 1] == ts[j];
    }
    forall i | 0 <= i < |ts| ensures ts[i] != t {
      assert whole[i + 1] == ts[i] && whole[0] == t;
    }
  }

  lemma NothingElse(ts: seq<Timer>)
    ensures [] + ts == ts && ts + [] == ts
  {
  }

  /** Expiring takes either both, in order, or neither. */
  lemma {:induction false} ExpireOnly(ts: seq<Timer>, now: Jiffies, dead: set<Timer>, a: Timer, b: Timer)
    requires a != b && a.expires == b.expires && Distinct(Only(ts, a, b))
    requires forall t :: t in Only(ts, a, b) ==> t !in dead
    ensures var r := Expire(ts, now, dead);
            if a.expires <= now then Only(r.0, a, b) == [] && Only(r.1, a, b) == Only(ts, a, b)
            else Only(r.0, a, b) == Only(ts, a, b) && Only(r.1, a, b) == []
    decreases |ts|
  {
    if ts == [] {
    } else {
      var t, rest := ts[0], ts[1..];
      assert ts == [t] + rest;
      OnlyStep(t, rest, a, b);
      hide Only, Distinct;
      var next := if t !in dead && t.expires <= now then dead + {t} else dead;
      OnlyIn(rest, a, b);
      if t == a || t == b { DistinctRest(t, Only(rest, a, b)); } else { NothingElse(Only(rest, a, b)); }
      ExpireOnly(rest, now, next, a, b);
      var r := Expire(rest, now, next);
      OnlyStep(t, r.0, a, b);
      OnlyStep(t, r.1, a, b);
    }
  }

  // ----- Two timers in the wheel ---------------------------------------------------------------------------

  /** Of the two timers, neither of them dead, exactly `list` is in the wheel, in one slot if at all. */
  ghost predicate Pair(w: Wheel, a: Timer, b: Timer, at: Slot, list: seq<Timer>) {
    && a !in w.dead && b !in w.dead
    && forall s :: ValidSlot(s) ==> Only(At(w, s), a, b) == if s == at then list else []
  }

  /** The three lists there can be. */
  predicate Listed(list: seq<Timer>, a: Timer, b: Timer) {
    list == [] || list == [a] || list == [a, b]
  }

  lemma {:induction false} AddAllOnly(w: Wheel, ts: seq<Timer>, a: Timer, b: Timer, s: Slot)
    requires a.expires == b.expires && a !in w.dead && b !in w.dead && ValidSlot(s)
    ensures Only(At(AddAll(w, ts), s), a, b) ==
              Only(At(w, s), a, b) +
              if Delta(a.expires, w.now) < REACH && s == Place(a.expires, w.now) then Only(ts, a, b) else []
    decreases |ts|
  {
    hide Only, At, Place, Add, AddAll;
    AddAllStep(w, ts);
    if ts == [] {
      OnlyNone(a, b);
      NothingElse(Only(At(w, s), a, b));
    } else {
      var rest := ts[1..];
      AddOnly(w, ts[0], a, b, s);
      AddAllOnly(Add(w, ts[0]), rest, a, b, s);
      OnlyStep(ts[0], rest, a, b);
      NothingElse(Only(At(w, s), a, b));
      JoinThree(Only(At(w, s), a, b), if ts[0] == a || ts[0] == b then [ts[0]] else [], Only(rest, a, b));
    }
  }

  lemma AddAllStep(w: Wheel, ts: seq<Timer>)
    ensures ts == [] ==> AddAll(w, ts) == w
    ensures ts != [] ==> AddAll(w, ts) == AddAll(Add(w, ts[0]), ts[1..]) && ts == [ts[0]] + ts[1..]
  {
  }

  lemma JoinThree(x: seq<Timer>, y: seq<Timer>, z: seq<Timer>)
    ensures (x + y) + z == x + (y + z)
  {
  }

  lemma AddOnly(w: Wheel, t: Timer, a: Timer, b: Timer, s: Slot)
    requires a.expires == b.expires && a !in w.dead && b !in w.dead && ValidSlot(s)
    ensures Add(w, t).now == w.now && Add(w, t).dead == w.dead
    ensures var goes := Delta(a.expires, w.now) < REACH && s == Place(a.expires, w.now);
            Only(At(Add(w, t), s), a, b) ==
              Only(At(w, s), a, b) + if (t == a || t == b) && goes then [t] else []
  {
    hide Only, Place;
    OnlyJoin(At(w, s), [t], a, b);
    OnlyOne(t, a, b);
    assert Only(At(w, s), a, b) + [] == Only(At(w, s), a, b);
  }

  lemma DrainPair(w: Wheel, level: nat, a: Timer, b: Timer, at: Slot, list: seq<Timer>)
      returns (at': Slot, list': seq<Timer>)
    requires a.expires == b.expires && Shape(w) && level < TVN_NUM && Pair(w, a, b, at, list)
    ensures Pair(Drain(w, level), a, b, at', list') && (list' == list || list' == [])
  {
    hide Only, Place, At, Drain;
    var slot := Slot(level, w.idx[level]);
    DrainFrame(w, level);
    if slot == at && list != [] {
      at', list' := Place(a.expires, w.now), if Delta(a.expires, w.now) < REACH then list else [];
    } else {
      at', list' := at, list;
    }
    forall s | ValidSlot(s) ensures Only(At(Drain(w, level), s), a, b) == if s == at' then list' else [] {
      DrainOnly(w, level, a, b, s);
    }
  }

  lemma DrainOnly(w: Wheel, level: nat, a: Timer, b: Timer, s: Slot)
    requires a.expires == b.expires && a !in w.dead && b !in w.dead
    requires Shape(w) && level < TVN_NUM && ValidSlot(s)
    ensures var slot := Slot(level, w.idx[level]);
            var goes := Delta(a.expires, w.now) < REACH && s == Place(a.expires, w.now);
            && ValidSlot(slot)
            && Only(At(Drain(w, level), s), a, b) ==
                 (if s == slot then [] else Only(At(w, s), a, b)) + if goes then Only(At(w, slot), a, b) else []
  {
    hide Only, Place, AddAll;
    var slot := Slot(level, w.idx[level]);
    var w0 := w.(tv := w.tv[slot := []]);
    OnlyNone(a, b);
    AddAllOnly(w0, At(w, slot), a, b, s);
    assert At(Drain(w, level), s) == At(AddAll(w0, At(w, slot)), s);
  }

  lemma OnlyNone(a: Timer, b: Timer)
    ensures Only([], a, b) == []
  {
  }

  lemma {:induction false} CascadePair(w: Wheel, level: nat, a: Timer, b: Timer, at: Slot, list: seq<Timer>)
      returns (at': Slot, list': seq<Timer>)
    requires a.expires == b.expires && Shape(w) && Pair(w, a, b, at, list)
    ensures |w.idx| == TVN_NUM && Pair(Cascade(w, level), a, b, at', list') && (list' == list || list' == [])
    decreases TVN_NUM - level
  {
    hide Pair, Drain;
    at', list' := at, list;
    if level >= TVN_NUM {
    } else {
      at', list' := DrainPair(w, level, a, b, at, list);
      DrainFrame(w, level);
      if Drain(w, level).idx[level] == 0 && level + 1 < TVN_NUM {
        at', list' := CascadePair(Drain(w, level), level + 1, a, b, at', list');
      }
    }
  }

  /** The scan of the due slot: both timers fire, in order, or nothing happens to them. */
  lemma ScanPair(w: Wheel, a: Timer, b: Timer, at: Slot, list: seq<Timer>)
    requires a != b && a.expires == b.expires && Shape(w) && Pair(w, a, b, at, list) && Listed(list, a, b)
    ensures |w.idx| == TVN_NUM && Shape(Scan(w)) && w.fired <= Scan(w).fired
    ensures (Pair(Scan(w), a, b, at, list) && Only(TimersOf(Scan(w).fired[|w.fired|..]), a, b) == [])
            || Fires(w, Scan(w), a, b, list)
  {
    hide Only, Expire, Next, At, Distinct, Pair;
    var slot, now := Slot(0, w.idx[0]), Next(w.now);
    var ts := At(w, slot);
    ScanParts(w);
    PairAt(w, a, b, at, list, slot);
    ExpireOnly(ts, now, w.dead, a, b);
    var r := Expire(ts, now, w.dead);
    OnlyIn(r.1, a, b);
    if Only(r.1, a, b) == [] {
      assert a !in r.1 && b !in r.1 by { NoneOf(r.1, a, b); }
      StillPair(w, Scan(w), a, b, at, list, slot);
    } else {
      assert forall t :: t in list ==> t in r.1;
    }
  }

  lemma NoneOf(ts: seq<Timer>, a: Timer, b: Timer)
    requires Only(ts, a, b) == []
    ensures a !in ts && b !in ts
  {
    OnlyIn(ts, a, b);
    hide Only;
  }

  lemma StillPair(w: Wheel, w': Wheel, a: Timer, b: Timer, at: Slot, list: seq<Timer>, slot: Slot)
    requires Pair(w, a, b, at, list) && ValidSlot(slot) && a !in w'.dead && b !in w'.dead
    requires Only(At(w', slot), a, b) == Only(At(w, slot), a, b)
    requires forall s :: ValidSlot(s) && s != slot ==> At(w', s) == At(w, s)
    ensures Pair(w', a, b, at, list)
  {
    hide Only, At;
  }

  lemma ScanParts(w: Wheel)
    requires Shape(w)
    ensures |w.idx| == TVN_NUM && ValidSlot(Slot(0, w.idx[0])) && Shape(Scan(w))
    ensures var slot := Slot(0, w.idx[0]); var r := Expire(At(w, slot), Next(w.now), w.dead);
            && w.fired <= Scan(w).fired && TimersOf(Scan(w).fired[|w.fired|..]) == r.1
            && (forall t :: t in Scan(w).dead <==> t in w.dead || t in r.1)
            && At(Scan(w), slot) == r.0
            && (forall s :: ValidSlot(s) && s != slot ==> At(Scan(w), s) == At(w, s))
  {
    hide Expire, Next;
    var r := Expire(At(w, Slot(0, w.idx[0])), Next(w.now), w.dead);
    assert Scan(w).fired == w.fired + Calls(r.1, Next(w.now));
    assert TimersOf(Scan(w).fired[|w.fired|..]) == r.1;
    assert Scan(w).dead == w.dead + Elements(r.1);
  }

  /** A step that calls both, in order, for the first time. */
  ghost predicate Fires(w: Wheel, w': Wheel, a: Timer, b: Timer, list: seq<Timer>) {
    && list != [] && w.fired <= w'.fired
    && Only(TimersOf(w'.fired[|w.fired|..]), a, b) == list
    && forall t :: t in list ==> t in w'.dead
  }

  lemma PairAt(w: Wheel, a: Timer, b: Timer, at: Slot, list: seq<Timer>, s: Slot)
    requires a != b && Pair(w, a, b, at, list) && Listed(list, a, b) && ValidSlot(s)
    ensures var only := Only(At(w, s), a, b);
            && only == (if s == at then list else [])
            && (forall t :: t in only ==> t !in w.dead)
            && Distinct(only)
    ensures a !in w.dead && b !in w.dead
  {
    hide Only;
  }

  /** The same for the whole tick, cascade included. */
  lemma TickPair(w: Wheel, a: Timer, b: Timer, at: Slot, list: seq<Timer>)
      returns (at': Slot, list': seq<Timer>)
    requires a != b && a.expires == b.expires && Shape(w) && Pair(w, a, b, at, list) && Listed(list, a, b)
    ensures |w.idx| == TVN_NUM && w.fired <= Tick(w).fired
    ensures list' == list || list' == []
    ensures (&& Pair(Tick(w), a, b, at', list')
             && Only(TimersOf(Tick(w).fired[|w.fired|..]), a, b) == [])
            || Fires(w, Tick(w), a, b, list)
  {
    hide Pair, Scan, Cascade, Only;
    ScanPair(w, a, b, at, list);
    CascadeFrame(Scan(w), 1);
    at', list' := at, list;
    if Scan(w).idx[0] == 0 && Pair(Scan(w), a, b, at, list) {
      at', list' := CascadePair(Scan(w), 1, a, b, at, list);
    }
  }

  // ----- Runs ----------------------------------------------------------------------------------------------

  /** The calls of the two timers so far. */
  function CallsOf(w: Wheel, a: Timer, b: Timer): seq<Timer> {
    Only(TimersOf(w.fired), a, b)
  }

  /** Not called yet. */
  ghost predicate Live(w: Wheel, a: Timer, b: Timer, at: Slot, list: seq<Timer>) {
    Shape(w) && Pair(w, a, b, at, list) && CallsOf(w, a, b) == []
  }

  /** Called, a before b, and never again. */
  ghost predicate Done(w: Wheel, a: Timer, b: Timer) {
    a in w.dead && b in w.dead && CallsOf(w, a, b) == [a, b]
  }

  lemma CallsGrow(w: Wheel, w': Wheel, a: Timer, b: Timer)
    requires w.fired <= w'.fired
    ensures CallsOf(w', a, b) == CallsOf(w, a, b) + Only(TimersOf(w'.fired[|w.fired|..]), a, b)
  {
    var new' := w'.fired[|w.fired|..];
    OnlyJoin(TimersOf(w.fired), TimersOf(new'), a, b);
    assert w'.fired == w.fired + new';
    assert TimersOf(w'.fired) == TimersOf(w.fired) + TimersOf(new');
  }

  lemma StepLive(w: Wheel, e: Event, a: Timer, b: Timer, at: Slot, list: seq<Timer>)
      returns (at': Slot, list': seq<Timer>)
    requires a != b && a.expires == b.expires && Live(w, a, b, at, list) && (list == [] || list == [a, b] || !e.Ticked?)
    requires e != Added(a) && e != Added(b) && e != Cancelled(a) && e != Cancelled(b)
    ensures |w.idx| == TVN_NUM && Shape(Step(w, e))
    ensures !e.Ticked? ==> at' == at && list' == list && Step(w, e).now == w.now
    ensures list' == list || list' == []
    ensures Live(Step(w, e), a, b, at', list') || (e.Ticked? && list == [a, b] && Done(Step(w, e), a, b))
  {
    hide Only, Place, Tick;
    at', list' := at, list;
    StepShape(w, e);
    match e
    case Ticked =>
      at', list' := TickPair(w, a, b, at, list);
      CallsGrow(w, Tick(w), a, b);
    case Added(t) =>
      forall s | ValidSlot(s) ensures Only(At(Add(w, t), s), a, b) == Only(At(w, s), a, b) {
        AddOnly(w, t, a, b, s);
      }
    case Cancelled(_) =>
  }

  lemma StepShape(w: Wheel, e: Event)
    requires Shape(w)
    ensures Shape(Step(w, e))
  {
    match e
    case Ticked =>
      hide Cascade;
      CascadeFrame(Scan(w), 1);
    case Added(t) =>
      if Accepts(w, t) { PlaceMeaning(t.expires, w.now); }
    case Cancelled(_) =>
  }

  lemma StepDone(w: Wheel, e: Event, a: Timer, b: Timer)
    requires |w.idx| == TVN_NUM && Done(w, a, b)
    ensures Done(Step(w, e), a, b)
  {
    StepGrows(w, e);
    CallsGrow(w, Step(w, e), a, b);
    var more := TimersOf(Step(w, e).fired[|w.fired|..]);
    hide Only, Tick;
    if e.Ticked? {
      TickFires(w, a);
      assert forall i :: 0 <= i < |more| ==> more[i] !in w.dead;
    }
    OnlyOthers(more, a, b);
  }

  lemma {:induction false} OnlyOthers(ts: seq<Timer>, a: Timer, b: Timer)
    requires a !in ts && b !in ts
    ensures Only(ts, a, b) == []
    decreases |ts|
  {
    if ts == [] {
    } else {
      assert ts[0] in ts;
      OnlyOthers(ts[1..], a, b);
    }
  }

  ghost predicate Untouched(evs: seq<Event>, t: Timer) {
    NotReadded(evs, t) && Undisturbed(evs, t)
  }

  lemma {:induction false} RunDone(w: Wheel, evs: seq<Event>, a: Timer, b: Timer)
    requires |w.idx| == TVN_NUM && Done(w, a, b)
    ensures Done(Run(w, evs), a, b)
    decreases |evs|
  {
    hide Step, Done;
    if evs == [] {
    } else {
      StepDone(w, evs[0], a, b);
      StepKeepsLevels(w, evs[0]);
      RunDone(Step(w, evs[0]), evs[1..], a, b);
    }
  }

  lemma {:induction false} RunLive(w: Wheel, evs: seq<Event>, a: Timer, b: Timer, at: Slot, list: seq<Timer>)
      returns (at': Slot, list': seq<Timer>)
    requires a != b && a.expires == b.expires && Live(w, a, b, at, list)
    requires list == [] || list == [a, b] || Ticks(evs) == 0
    requires Untouched(evs, a) && Untouched(evs, b)
    ensures |w.idx| == TVN_NUM
    ensures Ticks(evs) == 0 ==> at' == at && list' == list && Run(w, evs).now == w.now
    ensures list' == list || list' == []
    ensures Live(Run(w, evs), a, b, at', list') || (list == [a, b] && Ticks(evs) > 0 && Done(Run(w, evs), a, b))
    decreases |evs|
  {
    hide Step, Live, Done;
    at', list' := at, list;
    LiveShape(w, a, b, at, list);
    if evs == [] {
    } else {
      assert evs[0] in evs;
      assert forall e :: e in evs[1..] ==> e in evs;
      var w1 := Step(w, evs[0]);
      at', list' := StepLive(w, evs[0], a, b, at, list);
      if Live(w1, a, b, at', list') {
        at', list' := RunLive(w1, evs[1..], a, b, at', list');
      } else {
        RunDone(w1, evs[1..], a, b);
      }
    }
  }

  lemma LiveShape(w: Wheel, a: Timer, b: Timer, at: Slot, list: seq<Timer>)
    requires Live(w, a, b, at, list)
    ensures Shape(w) && |w.idx| == TVN_NUM
  {
  }

  /** Adding a, and then b at the same clock value, puts them into one slot, a first, or neither. */
  lemma AddFirst(w: Wheel, a: Timer, b: Timer, at: Slot) returns (at': Slot, list': seq<Timer>)
    requires a != b && a.expires == b.expires && Live(w, a, b, at, [])
    ensures Live(Add(w, a), a, b, at', list') && Add(w, a).now == w.now
    ensures if Delta(a.expires, w.now) < REACH then at' == Place(a.expires, w.now) && list' == [a] else list' == []
  {
    hide Only, Place;
    at' := Place(a.expires, w.now);
    list' := if Delta(a.expires, w.now) < REACH then [a] else [];
    StepShape(w, Added(a));
    forall s | ValidSlot(s) ensures Only(At(Add(w, a), s), a, b) == if s == at' then list' else [] {
      AddOnly(w, a, a, b, s);
    }
  }

  lemma AddSecond(w: Wheel, a: Timer, b: Timer, at: Slot, list: seq<Timer>) returns (list': seq<Timer>)
    requires a != b && a.expires == b.expires && Live(w, a, b, at, list)
    requires if Delta(a.expires, w.now) < REACH then at == Place(a.expires, w.now) && list == [a] else list == []
    ensures Live(Add(w, b), a, b, at, list') && (list' == [] || list' == [a, b])
  {
    hide Only, Place;
    list' := if Delta(a.expires, w.now) < REACH then [a, b] else [];
    StepShape(w, Added(b));
    assert [a] + [b] == [a, b];
    forall s | ValidSlot(s) ensures Only(At(Add(w, b), s), a, b) == if s == at then list' else [] {
      AddOnly(w, b, a, b, s);
    }
  }

  lemma LiveAtInit(w: Wheel, a: Timer, b: Timer)
    requires IsInit(w) && a !in w.dead && b !in w.dead
    ensures Live(w, a, b, Slot(0, 0), [])
  {
    OnlyNone(a, b);
  }

  /** From a new wheel: two timers for the same jiffy, each added once, a before b with no tick between,
      and neither cancelled, are called a before b, each once, or neither is; whatever else is added,
      through every cascade and every wrap of the clock. */
  lemma CallsInOrder(w0: Wheel, x: seq<Event>, a: Timer, y: seq<Event>, b: Timer, z: seq<Event>)
    requires IsInit(w0) && a !in w0.dead && b !in w0.dead && a != b && a.expires == b.expires
    requires Untouched(x, a) && Untouched(y, a) && Untouched(z, a)
    requires Untouched(x, b) && Untouched(y, b) && Untouched(z, b)
    requires Ticks(y) == 0
    ensures |w0.idx| == TVN_NUM
    ensures var calls := CallsOf(Run(w0, x + [Added(a)] + y + [Added(b)] + z), a, b);
            calls == [] || calls == [a, b]
  {
    hide Live, Done, Untouched, Ticks, Place, IsInit;
    LiveAtInit(w0, a, b);
    var at, list := RunLive(w0, x, a, b, Slot(0, 0), []);
    var w1 := Run(w0, x);
    at, list := AddFirst(w1, a, b, at);
    var w2 := Add(w1, a);
    var at2, list2 := RunLive(w2, y, a, b, at, list);
    var w3 := Run(w2, y);
    list := AddSecond(w3, a, b, at2, list2);
    var w4 := Add(w3, b);
    var at4, list4 := RunLive(w4, z, a, b, at2, list);
    EndCalls(Run(w4, z), a, b, at4, list4);
    FiveParts(w0, x, Added(a), y, Added(b), z);
  }

  lemma EndCalls(w: Wheel, a: Timer, b: Timer, at: Slot, list: seq<Timer>)
    requires Live(w, a, b, at, list) || Done(w, a, b)
    ensures CallsOf(w, a, b) == [] || CallsOf(w, a, b) == [a, b]
  {
  }

  lemma FiveParts(w: Wheel, x: seq<Event>, d: Event, y: seq<Event>, e: Event, z: seq<Event>)
    requires |w.idx| == TVN_NUM
    ensures |Step(Run(w, x), d).idx| == TVN_NUM && |Step(Run(Step(Run(w, x), d), y), e).idx| == TVN_NUM
    ensures Run(w, x + [d] + y + [e] + z) == Run(Step(Run(Step(Run(w, x), d), y), e), z)
  {
    hide Run, Step;
    RunEvent(w, x, d);
    RunJoin(w, x + [d], y);
    RunEvent(w, x + [d] + y, e);
    RunJoin(w, x + [d] + y + [e], z);
  }

  lemma RunEvent(w: Wheel, evs: seq<Event>, e: Event)
    requires |w.idx| == TVN_NUM
    ensures |Step(Run(w, evs), e).idx| == TVN_NUM && Run(w, evs + [e]) == Step(Run(w, evs), e)
  {
    RunJoin(w, evs, [e]);
    StepKeepsLevels(Run(w, evs), e);
    hide Step;
    assert [e][1..] == [];
    assert Run(Run(w, evs), [e]) == Run(Step(Run(w, evs), e), []);
  }

  /** Which says that every call of a stands before every call of b, in any run. */
  lemma OrderMeans(w: Wheel, a: Timer, b: Timer, i: nat, j: nat)
    requires a != b && (CallsOf(w, a, b) == [] || CallsOf(w, a, b) == [a, b])
    requires i < |w.fired| && j < |w.fired| && w.fired[i].timer == a && w.fired[j].timer == b
    ensures i < j
  {
    var ts := TimersOf(w.fired);
    assert ts[i] == a && ts[j] == b;
    OnlyIn(ts, a, b);
    hide Only;
    assert a in ts;
    OnlyOrder(ts, a, b, i, j);
  }
}
