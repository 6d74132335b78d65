/** When a timer fires: the tick, computed from its expiry and the clock at its insertion, for every
    insertion, any number of them, and every run, however often the clock wraps. */
module TimeWheelFiring {
  import opened Arith
  import opened Options
  import opened TimeWheelModel
  import opened TimeWheelRuns

  // ----- The tick that fires a timer ---------------------------------------------------------------

  /** The first clock value from x on to which a tick looks at slot `index` of level 0. */
  function FirstAt(index: nat, x: nat): (v: nat)
    ensures x <= v < x + TVN_SIZE
  {
    x + (index + 1 - x) % TVN_SIZE
  }

  /** The value that the clock, counted on without wrapping, gets in the tick that fires a timer
      sitting in slot s; None if no tick ever does. Level 0 keeps the timer until a visit finds it
      expired, in this round of the clock or in the next. A level above puts it back with AddTimer on
      the next visit, and AddTimer refuses it if the clock has wrapped by then: it is lost. */
  function FireAt(s: Slot, expires: Jiffies, now: Jiffies): (f: Option<nat>)
    requires ValidSlot(s)
    ensures f.Some? ==> f.value > now && f.value >= expires
    decreases Delta(expires, now), s.level
  {
    if s.level == 0 then
      var v := FirstAt(s.index, Max(now + 1, expires));
      var r := FirstAt(s.index, expires);
      if v < JIFFIES_END then Some(v) else if r < JIFFIES_END then Some(JIFFIES_END + r) else None
    else
      VisitLater(s, now);
      var c: nat := Visit(s, now);
      if c < JIFFIES_END && Delta(expires, c) < REACH then
        PlaceMeaning(expires, c);
        FireAt(Place(expires, c), expires, c)
      else
        None
  }

  lemma VisitLater(s: Slot, now: Jiffies)
    requires ValidSlot(s)
    ensures now < Visit(s, now) <= now + Span(s.level + 1)
    ensures Due(s, now) <==> Visit(s, now) == now + 1
    ensures s.level == 0 ==> Visit(s, now) == FirstAt(s.index, now + 1)
  {
    SpanStep(s.level);
    var p := Span(s.level);
    assert s.level == 0 ==> p == 1;
    hide Span;
    VisitParts(p, now / p, (s.index - now / p) % TVN_SIZE, now);
    Residue(s.index, now / p);
  }

  /** The same for a timer that AddTimer is given: all of this is known before the call. */
  function FireTick(expires: Jiffies, now: Jiffies): (f: Option<nat>)
    requires Delta(expires, now) < REACH
    ensures f.Some? ==> f.value > now && f.value >= expires
  {
    PlaceMeaning(expires, now);
    FireAt(Place(expires, now), expires, now)
  }

  /** Within n ticks. */
  predicate In(f: Option<nat>, now: nat, n: nat) {
    f.Some? && f.value <= now + n
  }

  /** The same firing, seen one tick later. */
  predicate OneLess(f: Option<nat>, now: nat, f': Option<nat>, now': nat) {
    (f.Some? <==> f'.Some?) && (f.Some? ==> f'.value - now' == f.value - now - 1)
  }

  lemma FirstAtStep(index: nat, x: nat)
    ensures FirstAt(index, x) == x <==> (index + 1 - x) % TVN_SIZE == 0
    ensures FirstAt(index, x) != x ==> FirstAt(index, x + 1) == FirstAt(index, x)
  {
  }

  lemma DueZero(s: Slot, now: Jiffies)
    requires ValidSlot(s) && s.level == 0
    ensures Due(s, now) <==> FirstAt(s.index, now + 1) == now + 1
    ensures now + 1 == JIFFIES_END ==> (Due(s, now) <==> FirstAt(s.index, 0) == 0)
  {
    assert Span(0) == 1;
  }

  /** What a tick is to a timer in slot s of level 0. */
  lemma FireStepZero(s: Slot, expires: Jiffies, now: Jiffies)
    requires ValidSlot(s) && s.level == 0
    ensures var fires := Due(s, now) && expires <= Next(now);
            && (FireAt(s, expires, now) == Some(now + 1) <==> fires)
            && (!fires ==> OneLess(FireAt(s, expires, now), now, FireAt(s, expires, Next(now)), Next(now)))
  {
    hide Due, FirstAt;
    DueZero(s, now);
    if now + 1 < JIFFIES_END {
      FirstAtStep(s.index, now + 1);
    } else {
      FirstAtStep(s.index, 0);
    }
  }

  /** What a tick is to a timer in slot s of a level above. */
  lemma FireStepAbove(s: Slot, expires: Jiffies, now: Jiffies)
    requires ValidSlot(s) && s.level >= 1 && Fits(s, expires, now)
    ensures FireAt(s, expires, now) != Some(now + 1)
    ensures !Due(s, now) ==> OneLess(FireAt(s, expires, now), now, FireAt(s, expires, Next(now)), Next(now))
    ensures Due(s, now) && Delta(expires, Next(now)) >= REACH ==> FireAt(s, expires, now) == None
    ensures Due(s, now) && Delta(expires, Next(now)) < REACH ==>
              && ValidSlot(Place(expires, Next(now))) && now + 1 < JIFFIES_END
              && FireAt(s, expires, now) == FireAt(Place(expires, now + 1), expires, now + 1)
  {
    hide Span, Visit, Due, Place, FireAt;
    SpanGrows(s.level + 1, TVN_NUM);
    if now + 1 < JIFFIES_END {
      VisitMeaning(s, now);
      FireAbove(s, expires, now);
      FireAbove(s, expires, now + 1);
    } else {
      VisitWrap(s);
      FireAbove(s, expires, now);
      FireAbove(s, expires, 0);
    }
  }

  lemma FireAbove(s: Slot, expires: Jiffies, now: Jiffies)
    requires ValidSlot(s) && s.level >= 1
    ensures var c := Visit(s, now);
            && c > now
            && (c < JIFFIES_END && Delta(expires, c) < REACH ==>
                  ValidSlot(Place(expires, c)) && FireAt(s, expires, now) == FireAt(Place(expires, c), expires, c))
            && (!(c < JIFFIES_END && Delta(expires, c) < REACH) ==> FireAt(s, expires, now) == None)
    ensures FireAt(s, expires, now) != Some(now + 1)
  {
    VisitLater(s, now);
    var c: nat := Visit(s, now);
    if c < JIFFIES_END && Delta(expires, c) < REACH { PlaceMeaning(expires, c); }
    hide Place, Visit;
  }

  // ----- When that is the tick after the due time --------------------------------------------------

  /** AddTimer takes the slot from the digits of delta, where the digits of the due time decide
      when cursors get there. The two agree at the level AddTimer chooses: */
  predicate DigitsAgree(expires: Jiffies, now: Jiffies) {
    var delta := Delta(expires, now);
    var p := Span(GetLevel(delta));
    Max(expires, now) / p % TVN_SIZE == delta / p % TVN_SIZE
  }

  /** When a timer due at `due` has to leave a slot of this level to fire in the tick to due + 1. */
  function Target(level: nat, due: Jiffies): nat
    requires level < TVN_NUM
  {
    if level == 0 then due + 1 else Span(level) * (due / Span(level))
  }

  predicate OnTrack(s: Slot, due: Jiffies, now: Jiffies)
    requires ValidSlot(s)
  {
    now <= due && Visit(s, now) == Target(s.level, due)
  }

  lemma TargetBounds(level: nat, due: Jiffies)
    requires level < TVN_NUM
    ensures Span(level) > 0
    ensures level >= 1 ==> Target(level, due) <= due < Target(level, due) + Span(level)
    ensures level >= 1 ==> due - Target(level, due) == due % Span(level)
  {
    SpanStep(level);
    DivMod(due, Span(level));
  }

  /** A sum and its parts, divided by p: there is a carry or there is none. */
  lemma Carry(now: nat, d: nat, p: nat)
    requires p > 0
    ensures var c := (now + d) / p - now / p - d / p;
            (c == 0 || c == 1) && (now % p == 0 ==> c == 0)
  {
    DivMod(now, p);
    DivMod(d, p);
    Distribute(p, now / p, d / p);
    Distribute(p, now / p + d / p, 1);
    var r := now % p + d % p;
    if r < p {
      DivUnique(now + d, p, now / p + d / p, r);
    } else {
      DivUnique(now + d, p, now / p + d / p + 1, r - p);
    }
  }

  lemma SameFactor(p: nat, a: int, b: int)
    requires p > 0
    ensures p * a == p * b <==> a == b
  {
    if a < b { Distribute(p, a, b - a); MulGrows(p, b - a); }
    if b < a { Distribute(p, b, a - b); MulGrows(p, a - b); }
  }

  lemma DigitFact(m: nat, q: nat, c: nat)
    requires 1 <= q < TVN_SIZE && c <= 1
    ensures (q - 1 - m) % TVN_SIZE == q - 1 + c <==> (m + q + c) % TVN_SIZE == q % TVN_SIZE
  {
    var k, r := (m + c) / TVN_SIZE, (m + c) % TVN_SIZE;
    DigitDown(q, c, k, r);
    DigitUp(q, k, r);
  }

  lemma DigitDown(q: nat, c: nat, k: int, r: nat)
    requires 1 <= q < TVN_SIZE && c <= 1 && r < TVN_SIZE
    ensures (q - 1 - (TVN_SIZE * k + r - c)) % TVN_SIZE == q - 1 + c <==> r == 0
  {
    var x := q - 1 + c - r;
    if x >= 0 {
      DivUnique(x - TVN_SIZE * k, TVN_SIZE, -k, x);
    } else {
      DivUnique(x - TVN_SIZE * k, TVN_SIZE, -k - 1, x + TVN_SIZE);
    }
  }

  lemma DigitUp(q: nat, k: int, r: nat)
    requires 1 <= q < TVN_SIZE && r < TVN_SIZE
    ensures (TVN_SIZE * k + r + q) % TVN_SIZE == q % TVN_SIZE <==> r == 0
  {
    if q + r < TVN_SIZE {
      DivUnique(TVN_SIZE * k + r + q, TVN_SIZE, k, q + r);
    } else {
      DivUnique(TVN_SIZE * k + r + q, TVN_SIZE, k + 1, q + r - TVN_SIZE);
    }
  }

  /** The first visit to the slot AddTimer chooses is the right one exactly when the digits agree. */
  lemma TrackStart(expires: Jiffies, now: Jiffies)
    requires Delta(expires, now) < REACH
    ensures ValidSlot(Place(expires, now))
    ensures OnTrack(Place(expires, now), Max(expires, now), now) <==> DigitsAgree(expires, now)
  {
    PlaceMeaning(expires, now);
    var s := Place(expires, now);
    var due := Max(expires, now);
    var d := Delta(expires, now);
    SpanStep(s.level);
    var p := Span(s.level);
    assert s.level == 0 ==> p == 1;
    hide Span, Place;
    if s.level == 0 {
      TrackDigitZero(now, d);
    } else {
      TrackDigit(now, d, p, s.index);
    }
  }

  lemma TrackDigitZero(now: nat, d: nat)
    requires d < TVN_SIZE
    ensures now + 1 + (d - now) % TVN_SIZE == now + d + 1 <==> (now + d) % TVN_SIZE == d % TVN_SIZE
  {
    var k, r := now / TVN_SIZE, now % TVN_SIZE;
    assert now == TVN_SIZE * k + r;
    if d >= r {
      DivUnique(d - now, TVN_SIZE, -k, d - r);
    } else {
      DivUnique(d - now, TVN_SIZE, -k - 1, d - r + TVN_SIZE);
    }
    if d + r < TVN_SIZE {
      DivUnique(now + d, TVN_SIZE, k, d + r);
    } else {
      DivUnique(now + d, TVN_SIZE, k + 1, d + r - TVN_SIZE);
    }
  }

  lemma TrackDigit(now: nat, d: nat, p: nat, index: int)
    requires p > 0 && p <= d < TVN_SIZE * p && index == d / p - 1
    ensures (p * (now / p + 1 + (index - now / p) % TVN_SIZE) == p * ((now + d) / p)) <==>
            ((now + d) / p % TVN_SIZE == d / p % TVN_SIZE)
  {
    Carry(now, d, p);
    LeadingDigit(p, d);
    TrackParts(p, now / p, d / p, (now + d) / p);
  }

  lemma TrackParts(p: nat, m: nat, q: nat, u: nat)
    requires p > 0 && 1 <= q < TVN_SIZE && (u == m + q || u == m + q + 1)
    ensures (p * (m + 1 + (q - 1 - m) % TVN_SIZE) == p * u) <==> (u % TVN_SIZE == q % TVN_SIZE)
  {
    DigitFact(m, q, u - m - q);
    SameFactor(p, m + 1 + (q - 1 - m) % TVN_SIZE, u);
  }

  lemma LeadingDigit(p: nat, d: nat)
    requires p > 0 && p <= d < TVN_SIZE * p
    ensures 1 <= d / p < TVN_SIZE
  {
    DivMod(d, p);
    MulMono(p, TVN_SIZE, d / p);
    MulMono(p, d / p, 0);
  }

  /** A clock that is a multiple of 256^(L+1) makes the digits agree. */
  lemma AlignedDigits(expires: Jiffies, now: Jiffies)
    requires Delta(expires, now) < REACH
    requires now % Span(GetLevel(Delta(expires, now)) + 1) == 0
    ensures DigitsAgree(expires, now)
  {
    var d := Delta(expires, now);
    var level := GetLevel(d);
    SpanStep(level);
    AlignedDigit(now, d, Span(level));
  }

  lemma AlignedDigit(now: nat, d: nat, p: nat)
    requires p > 0 && TVN_SIZE * p > 0 && now % (TVN_SIZE * p) == 0
    ensures (now + d) / p % TVN_SIZE == d / p % TVN_SIZE
  {
    DivDiv(now, p, TVN_SIZE);
    Carry(now, d, p);
    AddMultiple(now / p, d / p);
  }

  lemma AddMultiple(m: nat, q: nat)
    requires m % TVN_SIZE == 0
    ensures (m + q) % TVN_SIZE == q % TVN_SIZE
  {
  }

  lemma TrackNext(s: Slot, due: Jiffies, now: Jiffies)
    requires ValidSlot(s) && OnTrack(s, due, now) && now + 1 < JIFFIES_END
    ensures s.level == 0 ==> (Due(s, now) <==> now == due)
    ensures s.level >= 1 ==> now < due
    ensures now < due && !Due(s, now) ==> OnTrack(s, due, now + 1)
    ensures s.level >= 1 && Due(s, now) ==> now + 1 == Target(s.level, due)
  {
    VisitMeaning(s, now);
    TargetBounds(s.level, due);
  }

  lemma TrackMoved(s: Slot, due: Jiffies, now: Jiffies)
    requires ValidSlot(s) && s.level >= 1 && OnTrack(s, due, now) && now + 1 < JIFFIES_END && Due(s, now)
    ensures now + 1 <= due
    ensures ValidSlot(Place(due, now + 1)) && OnTrack(Place(due, now + 1), due, now + 1)
  {
    TrackNext(s, due, now);
    TargetBounds(s.level, due);
    SpanGrows(s.level, TVN_NUM);
    assert Delta(due, now + 1) == due % Span(s.level) < Span(s.level);
    LevelBelow(Delta(due, now + 1), s.level);
    AlignedBelow(now + 1, s.level, GetLevel(Delta(due, now + 1)) + 1);
    AlignedDigits(due, now + 1);
    TrackStart(due, now + 1);
  }

  lemma LevelBelow(delta: nat, level: nat)
    requires 1 <= level < TVN_NUM && delta < Span(level)
    ensures GetLevel(delta) < level
  {
  }

  /** A timer on track fires in the tick to due + 1, through every cascade. */
  lemma {:induction false} OnTrackFires(s: Slot, expires: Jiffies, now: Jiffies, due: Jiffies)
    requires ValidSlot(s) && OnTrack(s, due, now) && Fits(s, expires, now) && due + 1 < JIFFIES_END
    requires expires < now + Span(s.level + 1)
    requires expires <= due && (now < due ==> expires == due)
    ensures FireAt(s, expires, now) == Some(due + 1)
    decreases due - now
  {
    hide OnTrack, FireAt, Place, Due, Visit, Span, Fits;
    OnTrackFacts(s, due, now);
    InReach(s, expires, now);
    var s' := FireOn(s, expires, now);
    FitsNext(s, expires, now);
    if now < due {
      if Due(s, now) && s.level >= 1 {
        TrackMoved(s, due, now);
        FitsPlace(expires, now + 1);
      }
      NextValue(now);
      OnTrackFires(s', expires, now + 1, due);
    }
  }

  lemma OnTrackFacts(s: Slot, due: Jiffies, now: Jiffies)
    requires ValidSlot(s) && OnTrack(s, due, now) && due + 1 < JIFFIES_END
    ensures now <= due
    ensures s.level == 0 ==> (Due(s, now) <==> now == due)
    ensures s.level >= 1 ==> now < due
    ensures now < due && !Due(s, now) ==> OnTrack(s, due, now + 1)
  {
    TrackNext(s, due, now);
  }

  lemma InReach(s: Slot, expires: Jiffies, now: Jiffies)
    requires ValidSlot(s) && expires < now + Span(s.level + 1)
    ensures expires < now + 1 + Span(s.level + 1)
    ensures now + 1 < JIFFIES_END ==> Delta(expires, now + 1) < REACH
  {
    SpanGrows(s.level + 1, TVN_NUM);
  }

  /** Before the wrap, a tick leaves the firing tick where it is. */
  lemma FireOn(s: Slot, expires: Jiffies, now: Jiffies) returns (s': Slot)
    requires ValidSlot(s) && Fits(s, expires, now) && now + 1 < JIFFIES_END
    requires Due(s, now) && s.level >= 1 ==> Delta(expires, now + 1) < REACH
    ensures s' == if Due(s, now) && s.level >= 1 then Place(expires, now + 1) else s
    ensures ValidSlot(s')
    ensures FireAt(s, expires, now) == Some(now + 1) <==> Due(s, now) && s.level == 0 && expires <= now + 1
    ensures FireAt(s, expires, now) != Some(now + 1) ==> FireAt(s', expires, now + 1) == FireAt(s, expires, now)
  {
    hide FireAt, Due, Place, Fits, Next, Span, FirstAt, Visit;
    NextValue(now);
    s' := if Due(s, now) && s.level >= 1 then Place(expires, now + 1) else s;
    if s.level == 0 {
      FireStepZero(s, expires, now);
    } else {
      FireStepAbove(s, expires, now);
    }
  }

  /** Slot s will not be visited at the one moment that makes a timer fire at due + 1. */
  predicate OffTrack(s: Slot, due: Jiffies, now: Jiffies)
    requires ValidSlot(s)
  {
    if s.level == 0 then s.index != due % TVN_SIZE
    else Visit(s, now) != Target(s.level, due) && s.index + 1 < TVN_SIZE
  }

  lemma OffTrackStart(expires: Jiffies, now: Jiffies)
    requires Delta(expires, now) < REACH && !DigitsAgree(expires, now)
    ensures ValidSlot(Place(expires, now)) && OffTrack(Place(expires, now), Max(expires, now), now)
  {
    TrackStart(expires, now);
    PlaceMeaning(expires, now);
    var s := Place(expires, now);
    var d := Delta(expires, now);
    if s.level == 0 {
      assert Span(0) == 1;
    } else {
      SpanStep(s.level);
      LeadingDigit(Span(s.level), d);
    }
  }

  lemma OffTrackStays(s: Slot, due: Jiffies, now: Jiffies)
    requires ValidSlot(s) && OffTrack(s, due, now) && now + 1 < JIFFIES_END
    requires !Due(s, now) || s.level == 0
    ensures OffTrack(s, due, now + 1)
  {
    VisitMeaning(s, now);
  }

  /** A timer taken out too early stays on its level and misses again. */
  lemma OffTrackMoved(s: Slot, due: Jiffies, now: Jiffies)
    requires ValidSlot(s) && OffTrack(s, due, now) && Due(s, now) && s.level >= 1
    requires now + 1 <= due < now + Span(s.level + 1)
    ensures ValidSlot(Place(due, now + 1)) && OffTrack(Place(due, now + 1), due, now + 1)
  {
    VisitMeaning(s, now);
    SpanStep(s.level);
    SpanGrows(s.level + 1, TVN_NUM);
    hide Span, Place, Visit;
    DigitMissed(Span(s.level), now, due, s.index);
    LevelHere(due - (now + 1), s.level);
    NotAgreeing(due, now + 1, s.level);
    OffTrackStart(due, now + 1);
  }

  /** Leaving a slot at any moment but the right one leaves at least one span to go, and digits
      that still disagree. */
  lemma DigitMissed(p: nat, now: nat, due: nat, index: nat)
    requires p > 0 && (now + 1) % p == 0 && now / p % TVN_SIZE == index && index + 1 < TVN_SIZE
    requires now + 1 <= due && now + 1 != p * (due / p)
    ensures due - (now + 1) >= p
    ensures due / p % TVN_SIZE != (due - (now + 1)) / p % TVN_SIZE
  {
    var m := now / p + 1;
    DivStep(now, p);
    DivMod(now + 1, p);
    EarlyBySpan(p, m, due);
    DigitStep(now / p);
    var d := due - (now + 1);
    DivMod(d, p);
    Distribute(p, m, d / p);
    DivUnique(due, p, m + d / p, d % p);
    DigitShift(m, d / p);
  }

  lemma NotAgreeing(expires: Jiffies, now: Jiffies, level: nat)
    requires level < TVN_NUM && now < expires && GetLevel(expires - now) == level
    requires Span(level) > 0 && expires / Span(level) % TVN_SIZE != (expires - now) / Span(level) % TVN_SIZE
    ensures !DigitsAgree(expires, now)
  {
  }

  lemma DigitShift(m: nat, q: nat)
    requires m % TVN_SIZE != 0
    ensures (m + q) % TVN_SIZE != q % TVN_SIZE
  {
  }

  lemma EarlyBySpan(p: nat, m: nat, due: nat)
    requires p > 0 && p * m <= due && p * m != p * (due / p)
    ensures due - p * m >= p
  {
    DivMod(due, p);
    MulMono(p, due / p + 1, m);
    MulMono(p, m + 1, due / p);
    Distribute(p, due / p, 1);
    Distribute(p, m, 1);
  }

  lemma LevelHere(d: nat, level: nat)
    requires level < TVN_NUM && Span(level) <= d < Span(level + 1)
    ensures GetLevel(d) == level || (level == 0 && d < TVN_SIZE)
  {
  }

  lemma {:induction false} OffTrackMisses(s: Slot, expires: Jiffies, now: Jiffies, due: Jiffies)
    requires ValidSlot(s) && OffTrack(s, due, now) && Fits(s, expires, now) && due + 1 < JIFFIES_END
    requires expires < now + Span(s.level + 1)
    requires now <= due && expires <= due && (now < due ==> expires == due)
    ensures FireAt(s, expires, now) != Some(due + 1)
    decreases due - now
  {
    hide OffTrack, FireAt, Place, Due, Visit, Span, Fits;
    InReach(s, expires, now);
    var s' := FireOn(s, expires, now);
    FitsNext(s, expires, now);
    NextValue(now);
    if now < due {
      if Due(s, now) && s.level >= 1 {
        OffTrackMoved(s, due, now) by { InSpan(s, expires, now, due); }
        FitsPlace(expires, now + 1);
      } else {
        OffTrackStays(s, due, now);
      }
      OffTrackMisses(s', expires, now + 1, due);
    } else {
      OffTrackEnd(s, due);
    }
  }

  lemma InSpan(s: Slot, expires: Jiffies, now: Jiffies, due: Jiffies)
    requires ValidSlot(s) && expires < now + Span(s.level + 1) && expires == due && now < due
    ensures now + 1 <= due < now + Span(s.level + 1)
  {
  }

  lemma OffTrackEnd(s: Slot, due: Jiffies)
    requires ValidSlot(s) && OffTrack(s, due, due)
    ensures s.level == 0 ==> !Due(s, due)
  {
    assert Span(0) == 1;
  }

  /** AddTimer's slot makes a timer fire in the tick after its due time exactly when the digits
      agree and the clock does not wrap in that tick. */
  lemma FireTickExact(expires: Jiffies, now: Jiffies)
    requires Delta(expires, now) < REACH
    ensures var due := Max(expires, now);
            FireTick(expires, now) == Some(due + 1) <==> (DigitsAgree(expires, now) && due + 1 < JIFFIES_END)
  {
    PlaceMeaning(expires, now);
    TrackStart(expires, now);
    FitsPlace(expires, now);
    NewRound(expires, now);
    var s, due := Place(expires, now), Max(expires, now);
    hide Place, OnTrack, OffTrack, DigitsAgree, FireAt, Fits;
    if due + 1 < JIFFIES_END {
      if DigitsAgree(expires, now) {
        OnTrackFires(s, expires, now, due);
      } else {
        OffTrackStart(expires, now);
        OffTrackMisses(s, expires, now, due);
      }
    }
  }

  // ----- Past the wrap -----------------------------------------------------------------------------

  lemma VisitAligned(s: Slot, now: Jiffies)
    requires ValidSlot(s)
    ensures Span(s.level) > 0 && Visit(s, now) % Span(s.level) == 0
  {
    SpanStep(s.level);
    var p := Span(s.level);
    var m := now / p + 1 + (s.index - now / p) % TVN_SIZE;
    hide Span;
    DivUnique(p * m, p, m, 0);
  }

  /** An expired timer that a cascade puts back fires in the next tick. */
  lemma FiresAtOnce(expires: Jiffies, now: Jiffies)
    requires expires <= now && now % TVN_SIZE == 0
    ensures Place(expires, now) == Slot(0, 0) && FireAt(Slot(0, 0), expires, now) == Some(now + 1)
    ensures now + 1 < JIFFIES_END
  {
    NegMod(now);
  }

  lemma {:induction false} NewRoundAt(s: Slot, expires: Jiffies, now: Jiffies)
    requires ValidSlot(s) && expires > now
    ensures FireAt(s, expires, now).Some? ==> FireAt(s, expires, now).value < JIFFIES_END
    decreases expires - now
  {
    VisitLater(s, now);
    var c: nat := Visit(s, now);
    if s.level >= 1 && c < JIFFIES_END && Delta(expires, c) < REACH {
      PlaceMeaning(expires, c);
      if expires > c {
        NewRoundAt(Place(expires, c), expires, c);
      } else {
        VisitAligned(s, now);
        LowBits(c, s.level);
        FiresAtOnce(expires, c);
      }
    }
  }

  /** A timer that expires after its insertion fires before the clock wraps, or never; one that has
      expired already fires before the wrap or, if the next round comes to a visit of slot 0 with the
      clock at or past its expiry, then. */
  lemma NewRound(expires: Jiffies, now: Jiffies)
    requires Delta(expires, now) < REACH
    ensures var f := FireTick(expires, now);
            f.Some? && f.value >= JIFFIES_END ==> expires <= now && f.value == JIFFIES_END + FirstAt(0, expires)
    ensures expires <= now ==> Place(expires, now) == Slot(0, 0)
  {
    PlaceMeaning(expires, now);
    if expires > now { NewRoundAt(Place(expires, now), expires, now); }
  }

  // ----- How late it is ----------------------------------------------------------------------------

  /** Put back late, an expired timer fires in the next tick; otherwise it is on time again. */
  lemma InTimeAtVisit(s: Slot, expires: Jiffies, now: Jiffies, due: nat, level: nat, c: Jiffies)
    requires ValidSlot(s) && s.level >= 1 && level < TVN_NUM && OnTime(s, due, level, now)
    requires expires <= due && expires < now + Span(s.level + 1) && c == Visit(s, now)
    ensures ValidSlot(Place(expires, c)) && OnTime(Place(expires, c), due, level, c)
    ensures expires < c + Span(Place(expires, c).level + 1)
  {
    VisitLater(s, now);
    VisitAligned(s, now);
    SpanGrows(s.level + 1, level + 1);
    SpanGrows(level + 1, TVN_NUM);
    PlaceMeaning(expires, c);
    PlaceLevelAtMost(expires, c, s.level);
    hide Place;
    if c > due { PlaceExpired(expires, c, s.level); }
  }

  /** A timer that is in time for a deadline fires by then, if the clock does not wrap first. */
  lemma {:induction false} FireBound(s: Slot, expires: Jiffies, now: Jiffies, due: nat, level: nat)
    requires level < TVN_NUM && InTime(s, expires, due, level, now) && expires <= due
    ensures var f, d := FireAt(s, expires, now), Deadline(due, level);
            && (f.Some? && f.value < JIFFIES_END ==> f.value <= d)
            && (d < JIFFIES_END ==> f.Some? && f.value <= d)
    decreases Delta(expires, now), s.level
  {
    VisitLater(s, now);
    SpanGrows(s.level + 1, level + 1);
    SpanGrows(level + 1, TVN_NUM);
    var c: nat := Visit(s, now);
    if s.level == 0 {
      FireBoundZero(s, expires, now, due, level);
    } else if c < JIFFIES_END {
      PlaceMeaning(expires, c);
      InTimeAtVisit(s, expires, now, due, level, c);
      hide Place, OnTime, Deadline, Visit;
      FireBound(Place(expires, c), expires, c, due, level);
    }
  }

  lemma FireBoundZero(s: Slot, expires: Jiffies, now: Jiffies, due: nat, level: nat)
    requires level < TVN_NUM && InTime(s, expires, due, level, now) && expires <= due && s.level == 0
    ensures FirstAt(s.index, Max(now + 1, expires)) <= Deadline(due, level)
  {
    VisitLater(s, now);
    SpanGrows(1, level + 1);
    assert Span(1) == TVN_SIZE;
  }

  lemma FireTickBound(expires: Jiffies, now: Jiffies)
    requires Delta(expires, now) < REACH
    ensures Place(expires, now).level < TVN_NUM
    ensures var f, d := FireTick(expires, now), Deadline(Max(expires, now), Place(expires, now).level);
            && (f.Some? && f.value < JIFFIES_END ==> f.value <= d)
            && (d < JIFFIES_END ==> f.Some? && f.value <= d)
  {
    FitsPlace(expires, now);
    var s := Place(expires, now);
    FireBound(s, expires, now, Max(expires, now), s.level);
  }

  /** For every insertion: the timer fires by its deadline, 256^(L+1) + 1
      ticks after the later of its expiry and its insertion, if and only if it fires at all and does so
      before the wrap or expires at 0 or 1. */
  lemma FiresByDeadline(expires: Jiffies, now: Jiffies)
    requires Delta(expires, now) < REACH
    ensures Place(expires, now).level < TVN_NUM
    ensures var f, d := FireTick(expires, now), Deadline(Max(expires, now), Place(expires, now).level);
            f.Some? && f.value <= d <==> f.Some? && (f.value < JIFFIES_END || expires <= 1)
  {
    FireTickBound(expires, now);
    NewRound(expires, now);
    PlaceMeaning(expires, now);
    assert Span(1) == TVN_SIZE;
    if expires <= now { LastRound(expires, now); }
    hide FireTick, Place, Span;
    FirstOfZero(expires);
  }

  lemma FirstOfZero(expires: nat)
    ensures expires <= 1 ==> FirstAt(0, expires) == 1
    ensures expires > 1 ==> FirstAt(0, expires) > TVN_SIZE
  {
    if 1 < expires <= TVN_SIZE { assert (1 - expires) % TVN_SIZE == TVN_SIZE + 1 - expires; }
  }

  /** An expired timer that does not fire in this round was added in its last 255 jiffies. */
  lemma LastRound(expires: Jiffies, now: Jiffies)
    requires expires <= now
    ensures var f := FireTick(expires, now); (f.Some? && f.value < JIFFIES_END) || now + TVN_SIZE > JIFFIES_END
  {
    PlaceMeaning(expires, now);
    NewRound(expires, now);
  }

  // ----- The wheel does fire it then ---------------------------------------------------------------

  /** From slot s, the timer fires within n ticks. */
  predicate FiresIn(s: Slot, expires: Jiffies, now: Jiffies, n: nat) {
    ValidSlot(s) && In(FireAt(s, expires, now), now, n)
  }

  /** From one of the slots it is in. */
  ghost predicate Will(w: Wheel, t: Timer, n: nat) {
    exists s :: t in At(w, s) && FiresIn(s, t.expires, w.now, n)
  }

  lemma SlotTick(s: Slot, expires: Jiffies, now: Jiffies, n: nat)
    requires ValidSlot(s) && Fits(s, expires, now)
    ensures FiresIn(s, expires, now, 1) <==> Due(s, now) && s.level == 0 && expires <= Next(now)
    ensures !Due(s, now) || (s.level == 0 && expires > Next(now)) ==>
              (FiresIn(s, expires, Next(now), n) <==> FiresIn(s, expires, now, n + 1))
    ensures Due(s, now) && s.level >= 1 ==>
              (FiresIn(s, expires, now, n + 1) <==>
                 Delta(expires, Next(now)) < REACH && FiresIn(Place(expires, Next(now)), expires, Next(now), n))
  {
    hide Due, Fits, Place, Next, FireAt;
    NextValue(now);
    if s.level == 0 {
      FireStepZero(s, expires, now);
    } else {
      FireStepAbove(s, expires, now);
    }
  }

  lemma NextValue(now: Jiffies)
    ensures Next(now) == if now + 1 < JIFFIES_END then now + 1 else 0
  {
  }

  lemma TickWill(w: Wheel, t: Timer)
    requires CursorsAt(w) && Fine(w, t) && t !in w.dead
    ensures |w.idx| == TVN_NUM && (t in Tick(w).dead <==> Will(w, t, 1))
  {
    FourCursors(w);
    DueNow(w.now);
    var slot := Slot(0, Cursor(w.now, 0));
    hide Tick, At, Fits, CursorsAt, Next, FiresIn;
    TickFlag(w, t);
    if t in At(w, slot) { SlotTick(slot, t.expires, w.now, 0); }
    if Will(w, t, 1) {
      var s :| t in At(w, s) && FiresIn(s, t.expires, w.now, 1);
      FiresInSlot(s, t.expires, w.now, 1);
      SlotTick(s, t.expires, w.now, 0);
      OnlyDue(s, w.now);
    }
  }

  lemma FiresInSlot(s: Slot, expires: Jiffies, now: Jiffies, n: nat)
    requires FiresIn(s, expires, now, n)
    ensures ValidSlot(s) && n > 0
  {
  }

  lemma DueNow(now: Jiffies)
    ensures ValidSlot(Slot(0, Cursor(now, 0))) && Due(Slot(0, Cursor(now, 0)), now)
  {
    assert Span(0) == 1;
    CursorSmall(now, 0);
  }

  lemma OnlyDue(s: Slot, now: Jiffies)
    requires ValidSlot(s)
    ensures Due(s, now) && s.level == 0 ==> s == Slot(0, Cursor(now, 0))
  {
  }

  /** A tick that does not fire it brings every firing one tick nearer. */
  lemma WillTick(w: Wheel, t: Timer, n: nat)
    requires CursorsAt(w) && Fine(w, t) && |w.idx| == TVN_NUM && t !in Tick(w).dead
    ensures Tick(w).now == Next(w.now)
    ensures Will(Tick(w), t, n) <==> Will(w, t, n + 1)
  {
    hide Tick, At, Fits, CursorsAt, Next, FiresIn, Due, Place;
    TickFlag(w, t);
    var w' := Tick(w);
    if Will(w, t, n + 1) {
      var s :| t in At(w, s) && FiresIn(s, t.expires, w.now, n + 1);
      FiresInSlot(s, t.expires, w.now, n + 1);
      SlotTick(s, t.expires, w.now, n);
      TickLands(w, t, s);
    }
    if Will(w', t, n) {
      var s :| t in At(w', s) && FiresIn(s, t.expires, w'.now, n);
      FiresInSlot(s, t.expires, w'.now, n);
      var s0 := TickCameFrom(w, t, s);
      SlotTick(s0, t.expires, w.now, n);
      assert FiresIn(s0, t.expires, w.now, n + 1);
    }
  }

  /** Given to AddTimer at clock `now`, the timer is accepted and fires within n ticks. */
  predicate AddFiresIn(expires: Jiffies, now: Jiffies, n: nat) {
    Delta(expires, now) < REACH && In(FireTick(expires, now), now, n)
  }

  lemma WillAdd(w: Wheel, t: Timer, n: nat)
    requires CursorsAt(w) && t !in w.dead
    ensures Will(Add(w, t), t, n) <==> Will(w, t, n) || AddFiresIn(t.expires, w.now, n)
  {
    var s := Place(t.expires, w.now);
    var w' := Add(w, t);
    AddAt(w, t, t);
    if Delta(t.expires, w.now) < REACH { PlaceMeaning(t.expires, w.now); }
    hide At, Place, FireAt;
    if Will(w, t, n) {
      var q :| t in At(w, q) && FiresIn(q, t.expires, w.now, n);
      assert t in At(w', q);
    }
    if AddFiresIn(t.expires, w.now, n) { assert t in At(w', s) && FiresIn(s, t.expires, w.now, n); }
    if Will(w', t, n) {
      var q :| t in At(w', q) && FiresIn(q, t.expires, w.now, n);
    }
  }

  lemma WillOther(w: Wheel, e: Event, t: Timer, n: nat)
    requires CursorsAt(w) && |w.idx| == TVN_NUM && !e.Ticked? && e != Added(t)
    ensures Will(Step(w, e), t, n) <==> Will(w, t, n)
  {
    hide FiresIn;
    match e
    case Added(t') =>
      AddAt(w, t', t);
      hide At;
      SameWill(w, Add(w, t'), t, n);
    case Cancelled(t') =>
  }

  lemma SameWill(w: Wheel, w': Wheel, t: Timer, n: nat)
    requires w'.now == w.now && forall s :: ValidSlot(s) ==> (t in At(w', s) <==> t in At(w, s))
    ensures Will(w', t, n) <==> Will(w, t, n)
  {
    hide At;
    if Will(w, t, n) {
      var q :| t in At(w, q) && FiresIn(q, t.expires, w.now, n);
      assert t in At(w', q);
    }
    if Will(w', t, n) {
      var q :| t in At(w', q) && FiresIn(q, t.expires, w.now, n);
      assert t in At(w, q);
    }
  }

  // ----- Whole runs ----------------------------------------------------------------------------------

  /** Some insertion of t in the run makes it fire within n ticks from the start of the run. */
  predicate Inserted(evs: seq<Event>, t: Timer, now: Jiffies, n: nat) {
    && evs != []
    && if evs[0].Ticked? then
         n > 0 && Inserted(evs[1..], t, Next(now), n - 1)
       else
         (evs[0] == Added(t) && AddFiresIn(t.expires, now, n)) || Inserted(evs[1..], t, now, n)
  }

  /** A slot it is in, or an insertion to come, makes t fire within n ticks. */
  ghost predicate Coming(w: Wheel, evs: seq<Event>, t: Timer, n: nat) {
    Will(w, t, n) || Inserted(evs, t, w.now, n)
  }

  lemma ComingStep(w: Wheel, evs: seq<Event>, t: Timer, n: nat)
    requires CursorsAt(w) && Fine(w, t) && t !in w.dead && evs != [] && evs[0] != Cancelled(t)
    requires |w.idx| == TVN_NUM && t !in Step(w, evs[0]).dead && (evs[0].Ticked? ==> n > 0)
    ensures Coming(w, evs, t, n) <==> Coming(Step(w, evs[0]), evs[1..], t, if evs[0].Ticked? then n - 1 else n)
  {
    hide Will, Fine, CursorsAt, AddFiresIn, Tick, Next;
    match evs[0]
    case Ticked =>
      WillTick(w, t, n - 1);
    case Added(t') =>
      if t' == t { WillAdd(w, t, n); } else { WillOther(w, evs[0], t, n); }
    case Cancelled(_) =>
      WillOther(w, evs[0], t, n);
  }

  lemma NotYet(w: Wheel, evs: seq<Event>, t: Timer)
    ensures !Coming(w, evs, t, 0)
  {
    NoneInserted(evs, t, w.now);
  }

  lemma {:induction false} NoneInserted(evs: seq<Event>, t: Timer, now: Jiffies)
    ensures !Inserted(evs, t, now, 0)
    decreases |evs|
  {
    if evs == [] {
    } else if !evs[0].Ticked? {
      NoneInserted(evs[1..], t, now);
    }
  }

  lemma WillMore(w: Wheel, t: Timer, m: nat, n: nat)
    requires m <= n && Will(w, t, m)
    ensures Will(w, t, n)
  {
    hide FireAt;
    var s :| t in At(w, s) && FiresIn(s, t.expires, w.now, m);
    assert FiresIn(s, t.expires, w.now, n);
  }

  lemma {:induction false} InsertedMore(evs: seq<Event>, t: Timer, now: Jiffies, m: nat, n: nat)
    requires m <= n && Inserted(evs, t, now, m)
    ensures Inserted(evs, t, now, n)
    decreases |evs|
  {
    hide FireTick, Next;
    if evs[0].Ticked? {
      InsertedMore(evs[1..], t, Next(now), m - 1, n - 1);
    } else if Inserted(evs[1..], t, now, m) {
      InsertedMore(evs[1..], t, now, m, n);
    }
  }

  lemma ComingMore(w: Wheel, evs: seq<Event>, t: Timer, m: nat, n: nat)
    requires m <= n && Coming(w, evs, t, m)
    ensures Coming(w, evs, t, n)
  {
    hide Will, Inserted;
    if Will(w, t, m) { WillMore(w, t, m, n); } else { InsertedMore(evs, t, w.now, m, n); }
  }

  /** From any reachable state and through any run: t has fired if and only if a slot it was in or an
      insertion made it fire within the ticks of the run. If it has not, what is to come of it is what
      was to come. */
  lemma {:induction false} RunFires(w: Wheel, evs: seq<Event>, t: Timer, m: nat)
    requires CursorsAt(w) && Fine(w, t) && t !in w.dead && Undisturbed(evs, t)
    ensures |w.idx| == TVN_NUM && (t in Run(w, evs).dead <==> Coming(w, evs, t, Ticks(evs)))
    ensures t !in Run(w, evs).dead ==> (Will(Run(w, evs), t, m) <==> Coming(w, evs, t, Ticks(evs) + m))
    decreases |evs|
  {
    hide Step, Fine, CursorsAt, Will, Coming;
    FourCursors(w);
    if evs == [] {
      RunNone(w, t, m);
    } else {
      assert evs[0] in evs;
      assert forall e :: e in evs[1..] ==> e in evs;
      var w1 := Step(w, evs[0]);
      StepFine(w, evs[0], t);
      FourCursors(w1);
      if t in w1.dead {
        StepDead(w, evs, t);
        RunGrows(w1, evs[1..]);
      } else {
        ComingStep(w, evs, t, Ticks(evs));
        ComingStep(w, evs, t, Ticks(evs) + m);
        RunFires(w1, evs[1..], t, m);
      }
    }
  }

  lemma RunNone(w: Wheel, t: Timer, m: nat)
    ensures !Coming(w, [], t, 0) && (Coming(w, [], t, m) <==> Will(w, t, m))
  {
    NotYet(w, [], t);
  }

  lemma StepDead(w: Wheel, evs: seq<Event>, t: Timer)
    requires CursorsAt(w) && Fine(w, t) && t !in w.dead && evs != [] && evs[0] != Cancelled(t)
    requires |w.idx| == TVN_NUM && t in Step(w, evs[0]).dead
    ensures evs[0].Ticked? && Coming(w, evs, t, 1) && Coming(w, evs, t, Ticks(evs))
    ensures Firing(t, Next(w.now)) in Step(w, evs[0]).fired
  {
    hide Will, Fine, CursorsAt, Tick, Inserted;
    assert evs[0].Ticked?;
    TickWill(w, t);
    TickFlag(w, t);
    WillMore(w, t, 1, Ticks(evs));
  }

  /** And it is called in the tick that the first of them says. */
  lemma {:induction false} RunCalls(w: Wheel, evs: seq<Event>, t: Timer, n: nat)
    requires CursorsAt(w) && Fine(w, t) && t !in w.dead && Undisturbed(evs, t)
    requires 0 < n <= Ticks(evs) && Coming(w, evs, t, n) && !Coming(w, evs, t, n - 1)
    ensures |w.idx| == TVN_NUM && Firing(t, (w.now + n) % JIFFIES_END) in Run(w, evs).fired
    decreases |evs|
  {
    hide Step, Fine, CursorsAt, Will, Coming;
    FourCursors(w);
    assert evs[0] in evs;
    assert forall e :: e in evs[1..] ==> e in evs;
    var w1 := Step(w, evs[0]);
    StepFine(w, evs[0], t);
    FourCursors(w1);
    NextTicks(w.now, n - 1);
    if t in w1.dead {
      StepDead(w, evs, t);
      if n > 1 { ComingMore(w, evs, t, 1, n - 1); }
      RunGrows(w1, evs[1..]);
    } else {
      ComingStep(w, evs, t, n);
      if n > 1 || !evs[0].Ticked? { ComingStep(w, evs, t, n - 1); } else { NotYet(w1, evs[1..], t); }
      RunCalls(w1, evs[1..], t, if evs[0].Ticked? then n - 1 else n);
    }
  }

  // ----- From a new wheel ------------------------------------------------------------------------------

  /** The clock at the i-th event of a run that starts at clock `now`. */
  function ClockAt(evs: seq<Event>, i: nat, now: Jiffies): Jiffies
    requires i <= |evs|
  {
    (now + Ticks(evs[..i])) % JIFFIES_END
  }

  /** The i-th event of a run gives t to AddTimer, and that makes it fire within n ticks from the start
      of the run. All of it is known from the run and the expiry alone. */
  predicate InsertionFires(evs: seq<Event>, i: nat, t: Timer, now: Jiffies, n: nat) {
    && i < |evs| && evs[i] == Added(t) && Ticks(evs[..i]) <= n
    && AddFiresIn(t.expires, ClockAt(evs, i, now), n - Ticks(evs[..i]))
  }

  ghost predicate Fires(evs: seq<Event>, t: Timer, now: Jiffies, n: nat) {
    exists i :: InsertionFires(evs, i, t, now, n)
  }

  lemma InsertionHere(evs: seq<Event>, t: Timer, now: Jiffies, n: nat)
    requires evs != []
    ensures InsertionFires(evs, 0, t, now, n) <==> evs[0] == Added(t) && AddFiresIn(t.expires, now, n)
  {
    hide AddFiresIn;
    assert evs[..0] == [];
  }

  /** What is left of a run after its first event. */
  lemma InsertionStep(evs: seq<Event>, i: nat, t: Timer, now: Jiffies, n: nat)
    requires evs != [] && (evs[0].Ticked? ==> n > 0)
    ensures InsertionFires(evs, i + 1, t, now, n) <==>
              InsertionFires(evs[1..], i, t, NowAfter(evs[0], now), if evs[0].Ticked? then n - 1 else n)
  {
    hide AddFiresIn, Next, Ticks;
    if i + 1 < |evs| {
      var rest := evs[1..][..i];
      assert evs[..i + 1] == [evs[0]] + rest;
      TicksStep(evs[0], rest);
      NextTicks(now, Ticks(rest));
    }
  }

  lemma InsertionNone(evs: seq<Event>, i: nat, t: Timer, now: Jiffies)
    requires evs != [] && evs[0].Ticked?
    ensures !InsertionFires(evs, i, t, now, 0)
  {
    hide AddFiresIn;
    if 0 < i < |evs| {
      assert evs[..i] == [evs[0]] + evs[1..i];
      TicksStep(evs[0], evs[1..i]);
    }
  }

  function NowAfter(e: Event, now: Jiffies): Jiffies {
    if e.Ticked? then Next(now) else now
  }

  lemma FiresStep(evs: seq<Event>, t: Timer, now: Jiffies, n: nat)
    requires evs != [] && (evs[0].Ticked? ==> n > 0)
    ensures Fires(evs, t, now, n) <==>
              || (evs[0] == Added(t) && AddFiresIn(t.expires, now, n))
              || Fires(evs[1..], t, NowAfter(evs[0], now), if evs[0].Ticked? then n - 1 else n)
  {
    var next, left := NowAfter(evs[0], now), if evs[0].Ticked? then n - 1 else n;
    hide InsertionFires, AddFiresIn, NowAfter;
    InsertionHere(evs, t, now, n);
    if Fires(evs[1..], t, next, left) {
      var j: nat :| InsertionFires(evs[1..], j, t, next, left);
      InsertionStep(evs, j, t, now, n);
    }
    if Fires(evs, t, now, n) {
      var i: nat :| InsertionFires(evs, i, t, now, n);
      if i > 0 { InsertionStep(evs, i - 1, t, now, n); }
    }
  }

  lemma {:induction false} InsertedIff(evs: seq<Event>, t: Timer, now: Jiffies, n: nat)
    ensures Inserted(evs, t, now, n) <==> Fires(evs, t, now, n)
    decreases |evs|
  {
    hide InsertionFires, AddFiresIn, Next, Fires;
    if evs == [] {
      NoInsertion(t, now, n);
    } else if evs[0].Ticked? && n == 0 {
      NoFires(evs, t, now);
    } else {
      FiresStep(evs, t, now, n);
      InsertedIff(evs[1..], t, NowAfter(evs[0], now), if evs[0].Ticked? then n - 1 else n);
    }
  }

  lemma NoFires(evs: seq<Event>, t: Timer, now: Jiffies)
    requires evs != [] && evs[0].Ticked?
    ensures !Fires(evs, t, now, 0)
  {
    hide InsertionFires;
    if Fires(evs, t, now, 0) {
      var i: nat :| InsertionFires(evs, i, t, now, 0);
      InsertionNone(evs, i, t, now);
    }
  }

  lemma NoInsertion(t: Timer, now: Jiffies, n: nat)
    ensures !Fires([], t, now, n)
  {
  }

  lemma ComingFromInit(w0: Wheel, evs: seq<Event>, t: Timer, n: nat)
    requires IsInit(w0)
    ensures Coming(w0, evs, t, n) <==> Fires(evs, t, 0, n)
  {
    InsertedIff(evs, t, 0, n);
    hide Inserted, Fires;
  }

  /** When every timer fires. From a new wheel and through any run, with any number of insertions of t
      and of other timers, and any number of wraps of the clock: t has fired if and only if one of its
      insertions makes it fire within the ticks of the run. */
  lemma FiresIff(w0: Wheel, evs: seq<Event>, t: Timer)
    requires IsInit(w0) && t !in w0.dead && Undisturbed(evs, t)
    ensures |w0.idx| == TVN_NUM && (t in Run(w0, evs).dead <==> Fires(evs, t, 0, Ticks(evs)))
  {
    hide Run, Fires, Coming, Fine, CursorsAt, IsInit;
    InitFine(w0, t);
    RunFires(w0, evs, t, 0);
    ComingFromInit(w0, evs, t, Ticks(evs));
  }

  /** And it does so in the tick given by the earliest of its insertions, sitting in a slot until then. */
  lemma FiresAtEarliest(w0: Wheel, evs: seq<Event>, t: Timer, n: nat)
    requires IsInit(w0) && t !in w0.dead && Undisturbed(evs, t)
    requires n > 0 && Fires(evs, t, 0, n) && !Fires(evs, t, 0, n - 1)
    ensures |w0.idx| == TVN_NUM
    ensures var w := Run(w0, evs);
            && (t in w.dead <==> n <= Ticks(evs))
            && (n <= Ticks(evs) ==> Firing(t, n % JIFFIES_END) in w.fired)
            && (n > Ticks(evs) ==> exists s :: ValidSlot(s) && t in At(w, s))
  {
    hide Run, Fires, Coming, Fine, CursorsAt, IsInit, Will, At, Undisturbed, Ticks;
    InitFine(w0, t);
    ComingFromInit(w0, evs, t, n);
    ComingFromInit(w0, evs, t, n - 1);
    if n <= Ticks(evs) {
      HasFired(w0, evs, t, n);
      StartsAtZero(w0);
    } else {
      HasNotFired(w0, evs, t, n);
    }
  }

  lemma HasFired(w: Wheel, evs: seq<Event>, t: Timer, n: nat)
    requires CursorsAt(w) && Fine(w, t) && t !in w.dead && Undisturbed(evs, t)
    requires 0 < n <= Ticks(evs) && Coming(w, evs, t, n) && !Coming(w, evs, t, n - 1)
    ensures |w.idx| == TVN_NUM
    ensures t in Run(w, evs).dead && Firing(t, (w.now + n) % JIFFIES_END) in Run(w, evs).fired
  {
    hide Run, Coming, Fine, CursorsAt, Undisturbed, Ticks;
    RunCalls(w, evs, t, n);
    RunFires(w, evs, t, 0);
    ComingMore(w, evs, t, n, Ticks(evs));
  }

  lemma HasNotFired(w: Wheel, evs: seq<Event>, t: Timer, n: nat)
    requires CursorsAt(w) && Fine(w, t) && t !in w.dead && Undisturbed(evs, t)
    requires n > Ticks(evs) && Coming(w, evs, t, n) && !Coming(w, evs, t, n - 1)
    ensures |w.idx| == TVN_NUM
    ensures t !in Run(w, evs).dead && exists s :: ValidSlot(s) && t in At(Run(w, evs), s)
  {
    hide Run, Coming, Fine, CursorsAt, Undisturbed, Ticks, Will, At;
    RunFires(w, evs, t, n - Ticks(evs));
    if Coming(w, evs, t, Ticks(evs)) { ComingMore(w, evs, t, Ticks(evs), n - 1); }
    WillSits(Run(w, evs), t, n - Ticks(evs));
  }

  lemma StartsAtZero(w: Wheel)
    requires IsInit(w)
    ensures w.now == 0
  {
  }

  lemma WillSits(w: Wheel, t: Timer, n: nat)
    requires Will(w, t, n)
    ensures exists s :: ValidSlot(s) && t in At(w, s)
  {
    hide At, FireAt;
    var s :| t in At(w, s) && FiresIn(s, t.expires, w.now, n);
  }

  // ----- One insertion among others --------------------------------------------------------------------

  /** The i-th event adds t at clock `now`, after `at` ticks. */
  predicate AddedAt(evs: seq<Event>, i: nat, t: Timer, at: nat, now: Jiffies) {
    i < |evs| && evs[i] == Added(t) && at == Ticks(evs[..i]) && now == at % JIFFIES_END && Delta(t.expires, now) < REACH
  }

  /** No other insertion of t makes it fire within n ticks. */
  ghost predicate OthersLater(evs: seq<Event>, i: nat, t: Timer, n: nat) {
    forall j :: j != i ==> !InsertionFires(evs, j, t, 0, n)
  }

  lemma InsertionAt(evs: seq<Event>, i: nat, t: Timer, at: nat, now: Jiffies, n: nat)
    requires AddedAt(evs, i, t, at, now)
    ensures InsertionFires(evs, i, t, 0, n) <==> n >= at && In(FireTick(t.expires, now), now, n - at)
  {
    hide FireTick;
  }

  /** Then that insertion alone decides. */
  lemma FiresAlone(evs: seq<Event>, i: nat, t: Timer, at: nat, now: Jiffies, n: nat, m: nat)
    requires AddedAt(evs, i, t, at, now) && OthersLater(evs, i, t, m) && n <= m
    ensures Fires(evs, t, 0, n) <==> n >= at && In(FireTick(t.expires, now), now, n - at)
  {
    InsertionAt(evs, i, t, at, now, n);
    hide FireTick, AddedAt;
    if j :| InsertionFires(evs, j, t, 0, n) && j != i { InsertionLater(evs, j, t, n, m); }
    hide InsertionFires;
  }

  lemma InsertionLater(evs: seq<Event>, i: nat, t: Timer, n: nat, m: nat)
    requires InsertionFires(evs, i, t, 0, n) && n <= m
    ensures InsertionFires(evs, i, t, 0, m)
  {
    hide FireTick;
  }

  /** Exact firing. A timer accepted at level L while the clock is a multiple of 256^(L+1), as it
      is for every timer added before the first tick, and fired by no other insertion before, runs its
      callback in the tick that makes the clock due + 1, where due is the later of its expiry and its
      insertion: not before, through every cascade, and whatever happens to other timers. */
  lemma ExactFiring(w0: Wheel, evs: seq<Event>, i: nat, t: Timer, at: nat, now: Jiffies, n: nat)
    requires IsInit(w0) && t !in w0.dead && Undisturbed(evs, t) && AddedAt(evs, i, t, at, now)
    requires Aligned(t.expires, now) && Max(t.expires, now) + 1 < JIFFIES_END
    requires n == at + (Max(t.expires, now) - now) + 1 && OthersLater(evs, i, t, n)
    ensures |w0.idx| == TVN_NUM
    ensures var w := Run(w0, evs);
            && (t in w.dead <==> n <= Ticks(evs))
            && (n <= Ticks(evs) ==> Firing(t, Max(t.expires, now) + 1) in w.fired)
            && (n > Ticks(evs) ==> exists s :: ValidSlot(s) && t in At(w, s))
  {
    hide Run, Fires, FireTick, IsInit, Undisturbed, OthersLater, Aligned, Ticks, At, AddedAt;
    AlignedFires(evs, i, t, at, now, n);
    FiresAtEarliest(w0, evs, t, n);
  }

  lemma AlignedFires(evs: seq<Event>, i: nat, t: Timer, at: nat, now: Jiffies, n: nat)
    requires AddedAt(evs, i, t, at, now) && Aligned(t.expires, now) && Max(t.expires, now) + 1 < JIFFIES_END
    requires n == at + (Max(t.expires, now) - now) + 1 && OthersLater(evs, i, t, n)
    ensures n > 0 && Fires(evs, t, 0, n) && !Fires(evs, t, 0, n - 1) && n % JIFFIES_END == Max(t.expires, now) + 1
  {
    hide Fires, FireTick, OthersLater, Ticks, DigitsAgree;
    AlignedDigits(t.expires, now);
    FireTickExact(t.expires, now);
    FiresAlone(evs, i, t, at, now, n, n);
    FiresAlone(evs, i, t, at, now, n - 1, n);
    ClockLater(at, now, Max(t.expires, now) + 1 - now);
  }

  lemma ClockLater(at: nat, now: Jiffies, d: nat)
    requires now == at % JIFFIES_END && now + d < JIFFIES_END
    ensures (at + d) % JIFFIES_END == now + d
  {
    DivMod(at, JIFFIES_END);
    DivUnique(at + d, JIFFIES_END, at / JIFFIES_END, now + d);
  }

  predicate Aligned(expires: Jiffies, now: Jiffies) {
    now % Span(GetLevel(Delta(expires, now)) + 1) == 0
  }

  /** Every timer accepted before the first tick is aligned, and due before the wrap. */
  lemma AlignedBeforeFirstTick(evs: seq<Event>, i: nat, t: Timer, at: nat, now: Jiffies)
    requires AddedAt(evs, i, t, at, now) && at == 0
    ensures Aligned(t.expires, now) && Max(t.expires, now) + 1 < JIFFIES_END
  {
  }

  /** For an insertion at any moment: if no other insertion fires the timer by then, the callback runs
      in the tick after the due time if and only if due and delta have the same digit at the level
      chosen, and the clock does not wrap in that tick. Both are known before the call. */
  lemma ExactIff(w0: Wheel, evs: seq<Event>, i: nat, t: Timer, at: nat, now: Jiffies)
    requires IsInit(w0) && t !in w0.dead && Undisturbed(evs, t) && AddedAt(evs, i, t, at, now)
    requires Ticks(evs) == at + (Max(t.expires, now) - now) && OthersLater(evs, i, t, Ticks(evs) + 1)
    ensures |w0.idx| == TVN_NUM && |Run(w0, evs).idx| == TVN_NUM
    ensures var w := Run(w0, evs);
            t !in w.dead && t in Tick(w).dead <==> DigitsAgree(t.expires, now) && Max(t.expires, now) + 1 < JIFFIES_END
  {
    hide Run, Fires, IsInit, Undisturbed, DigitsAgree, OthersLater, Tick, Ticks, Delta, FireTick;
    FireTickExact(t.expires, now);
    var n := Ticks(evs);
    FiresAlone(evs, i, t, at, now, n, n + 1);
    FiresAlone(evs, i, t, at, now, n + 1, n + 1);
    FiresIff(w0, evs, t);
    TickAfter(w0, evs, t);
  }

  /** One tick more. */
  lemma TickAfter(w0: Wheel, evs: seq<Event>, t: Timer)
    requires IsInit(w0) && t !in w0.dead && Undisturbed(evs, t)
    ensures |w0.idx| == TVN_NUM && |Run(w0, evs).idx| == TVN_NUM
    ensures t in Tick(Run(w0, evs)).dead <==> Fires(evs, t, 0, Ticks(evs) + 1)
  {
    hide Run, Fires, IsInit, Undisturbed, Tick, Ticks, Fine, CursorsAt, Will;
    FiresIff(w0, evs, t);
    Reachable(w0, evs, t);
    InitFine(w0, t);
    var w, n := Run(w0, evs), Ticks(evs);
    ComingFromInit(w0, evs, t, n);
    ComingFromInit(w0, evs, t, n + 1);
    RunFires(w0, evs, t, 1);
    if t in w.dead {
      StepGrows(w, Ticked);
      ComingMore(w0, evs, t, n, n + 1);
    } else {
      TickWill(w, t);
    }
  }

  /** When lateness is bounded: if no other insertion fires it by then, a timer has fired by the deadline
      of its insertion if and only if that makes it fire before the wrap, or at all and it expires at 0
      or 1. */
  lemma LatenessIff(w0: Wheel, evs: seq<Event>, i: nat, t: Timer, at: nat, now: Jiffies)
    requires IsInit(w0) && t !in w0.dead && Undisturbed(evs, t) && AddedAt(evs, i, t, at, now)
    requires Place(t.expires, now).level < TVN_NUM
    requires Ticks(evs) == at + (Deadline(Max(t.expires, now), Place(t.expires, now).level) - now)
    requires OthersLater(evs, i, t, Ticks(evs))
    ensures |w0.idx| == TVN_NUM
    ensures t in Run(w0, evs).dead <==>
              var f := FireTick(t.expires, now); f.Some? && (f.value < JIFFIES_END || t.expires <= 1)
  {
    FiresByDeadline(t.expires, now);
    FiresAlone(evs, i, t, at, now, Ticks(evs), Ticks(evs));
    hide Run, Fires, FireTick, IsInit, Undisturbed, OthersLater, Ticks, Place, Deadline;
    FiresIff(w0, evs, t);
  }

  // ----- Two insertions --------------------------------------------------------------------------------

  lemma OnlyInsertion(a: seq<Event>, b: seq<Event>, t: Timer, n: nat)
    requires NotReadded(a, t) && NotReadded(b, t)
    ensures var evs := a + [Added(t)] + b;
            && Ticks(evs) == Ticks(a) + Ticks(b)
            && (Delta(t.expires, Ticks(a) % JIFFIES_END) < REACH ==>
                  AddedAt(evs, |a|, t, Ticks(a), Ticks(a) % JIFFIES_END) && OthersLater(evs, |a|, t, n))
  {
    var evs := a + [Added(t)] + b;
    assert evs[..|a|] == a;
    TicksJoin(a + [Added(t)], b);
    TicksJoin(a, [Added(t)]);
    assert [Added(t)][1..] == [];
    hide AddFiresIn;
    forall j | 0 <= j < |evs| && j != |a| ensures evs[j] != Added(t) {
      if j < |a| { assert evs[j] == a[j] && a[j] in a; } else { assert evs[j] == b[j - |a| - 1] && evs[j] in b; }
    }
  }

  lemma {:induction false} TicksJoin(a: seq<Event>, b: seq<Event>)
    ensures Ticks(a + b) == Ticks(a) + Ticks(b)
    decreases |a|
  {
    if a == [] {
      assert a + b == b;
    } else {
      TicksJoin(a[1..], b);
      assert a + b == [a[0]] + (a[1..] + b);
      TicksStep(a[0], a[1..] + b);
    }
  }

  /** Exact firing does fail: a timer for jiffy 10 added at jiffy 5 fires in the tick to 262. */
  lemma AddedLateFiresLate(w0: Wheel, a: seq<Event>, t: Timer, b: seq<Event>)
    requires IsInit(w0) && t !in w0.dead && NotReadded(a, t) && NotReadded(b, t)
    requires Undisturbed(a + [Added(t)] + b, t) && Ticks(a) == 5 && t.expires == 10
    ensures |w0.idx| == TVN_NUM
    ensures var w := Run(w0, a + [Added(t)] + b);
            (t in w.dead <==> 5 + Ticks(b) >= 262) && (5 + Ticks(b) >= 262 ==> Firing(t, 262) in w.fired)
  {
    hide Run, Ticks, IsInit, FireTick, Fires, OthersLater, AddedAt, Undisturbed, NotReadded;
    FireTickAtFive();
    var evs := a + [Added(t)] + b;
    OnlyInsertion(a, b, t, 262);
    FiresAlone(evs, |a|, t, 5, 5, 261, 262);
    FiresAlone(evs, |a|, t, 5, 5, 262, 262);
    FiresAtEarliest(w0, evs, t, 262);
  }

  lemma FireTickAtFive()
    ensures Delta(10, 5) < REACH && FireTick(10, 5) == Some(262)
  {
    assert Place(10, 5) == Slot(0, 5);
  }

  /** And so does the bound on lateness, at the wrap: a timer for 2^64 - 50 added at 2^64 - 100 is never
      called, however long the wheel runs. */
  lemma LostAtWrap(w0: Wheel, a: seq<Event>, t: Timer, b: seq<Event>)
    requires IsInit(w0) && t !in w0.dead && NotReadded(a, t) && NotReadded(b, t)
    requires Undisturbed(a + [Added(t)] + b, t)
    requires Ticks(a) == 0x1_0000_0000_0000_0000 - 100 && t.expires == 0x1_0000_0000_0000_0000 - 50
    ensures |w0.idx| == TVN_NUM && t !in Run(w0, a + [Added(t)] + b).dead
  {
    hide Run, Ticks, IsInit, FireTick, Fires, OthersLater, AddedAt, Undisturbed, NotReadded;
    NeverFires(a, b, t, Ticks(a));
    FiresIff(w0, a + [Added(t)] + b, t);
  }

  lemma NeverFires(a: seq<Event>, b: seq<Event>, t: Timer, at: nat)
    requires NotReadded(a, t) && NotReadded(b, t) && at == Ticks(a)
    requires at == JIFFIES_END - 100 && t.expires == JIFFIES_END - 50
    ensures var evs := a + [Added(t)] + b; !Fires(evs, t, 0, Ticks(evs))
  {
    hide Ticks, FireTick, Fires, OthersLater, AddedAt, NotReadded;
    FireTickAtWrap(t.expires, at);
    OnlyInsertion(a, b, t, at + Ticks(b));
    FiresAlone(a + [Added(t)] + b, |a|, t, at, at, at + Ticks(b), at + Ticks(b));
  }

  lemma FireTickAtWrap(expires: Jiffies, now: Jiffies)
    requires now == JIFFIES_END - 100 && expires == JIFFIES_END - 50
    ensures Delta(expires, now) < REACH && FireTick(expires, now) == None
  {
    assert Place(expires, now) == Slot(0, 50);
  }
}
