/** The TimeWheel object: lists of timers in a fixed 4 x 256 array, updated in place.
    Each method is proved to take the corresponding step of TimeWheelModel. */
module TimeWheels {
  import opened TimeWheelModel

  /** One step of the scan, on the timer at position i. */
  lemma ExpireAt(ts: seq<Timer>, i: nat, now: Jiffies, dead: set<Timer>)
    requires i < |ts|
    ensures var t := ts[i]; var rest := (ts[..i] + ts[i + 1..])[i..]; var r := Expire(ts[i..], now, dead);
            && rest == ts[i + 1..]
            && if t in dead then
                 r == Expire(rest, now, dead)
               else if t.expires <= now then
                 var q := Expire(rest, now, dead + {t}); r == (q.0, [t] + q.1)
               else
                 var q := Expire(rest, now, dead); r == ([t] + q.0, q.1)
  {
    assert ts[i..][1..] == ts[i + 1..] == (ts[..i] + ts[i + 1..])[i..];
  }

  lemma ExpireNone(now: Jiffies, dead: set<Timer>)
    ensures Expire([], now, dead) == ([], [])
  {
  }

  class TimeWheel {
    const tv: array2<seq<Timer>>
    const tvIdx: array<nat>
    var now: Jiffies
    ghost var fired: seq<Firing>    // the callbacks run so far

    ghost predicate Valid()
      reads this, tvIdx
    {
      && tv.Length0 == TVN_NUM && tv.Length1 == TVN_SIZE
      && tvIdx.Length == TVN_NUM
      && (forall l :: 0 <= l < TVN_NUM ==> tvIdx[l] < TVN_SIZE)
    }

    /** All timers in the wheel are among `timers`. */
    ghost predicate Within(timers: set<Timer>)
      requires Valid()
      reads this, tvIdx, tv
    {
      forall l, i, t :: 0 <= l < TVN_NUM && 0 <= i < TVN_SIZE && t in tv[l, i] ==> t in timers
    }

    ghost function Slots(): (m: map<Slot, seq<Timer>>)
      requires Valid()
      reads this, tvIdx, tv
      ensures forall s :: s in m <==> ValidSlot(s)
      ensures forall s :: s in m && ValidSlot(s) ==> m[s] == tv[s.level, s.index]
    {
      map l: nat, i: nat | l < TVN_NUM && i < TVN_SIZE :: Slot(l, i) := tv[l, i]
    }

    ghost function Inactive(timers: set<Timer>): set<Timer>
      reads timers
    {
      set t | t in timers && !t.active
    }

    /** The wheel as a value, given the timers its owner knows of. */
    ghost function Abs(timers: set<Timer>): Wheel
      requires Valid()
      reads this, tvIdx, tv, timers
    {
      Wheel(Slots(), tvIdx[..], now, Inactive(timers), fired)
    }

    constructor ()
      ensures Valid() && fresh(tv) && fresh(tvIdx)
      ensures forall timers: set<Timer> :: IsInit(Abs(timers)) && Within(timers)
    {
      tv := new seq<Timer>[TVN_NUM, TVN_SIZE]((i, j) => []);
      tvIdx := new nat[TVN_NUM](i => 0);
      now := 0;
      fired := [];
    }

    method AddTimer(t: Timer?, ghost timers: set<Timer>) returns (added: bool)
      requires Valid() && Within(timers) && (t != null ==> t in timers)
      modifies tv
      ensures Valid() && Within(timers)
      ensures added == (t != null && Accepts(old(Abs(timers)), t))
      ensures added <==> t != null && t.active && t.expires - now < 0x1_0000_0000
      ensures Abs(timers) == if t == null then old(Abs(timers)) else Add(old(Abs(timers)), t)
    {
      if t == null || !t.active {
        return false;
      }
      var delta: nat := 0;
      if t.expires > now {
        delta := t.expires - now;
      }
      if delta >= REACH {
        return false;
      }
      var level := GetLevel(delta);
      var slotIdx: nat := 0;
      if level == 0 {
        slotIdx := delta % TVN_SIZE;
      } else {
        var adjustedDelta := ToInt32(delta - Span(level));
        slotIdx := adjustedDelta / Span(level) % TVN_SIZE;
      }
      assert Slot(level, slotIdx) == Place(t.expires, now);
      PlaceMeaning(t.expires, now);
      hide *;
      StoreAt(level, slotIdx, t, timers);
      return true;
    }

    /** push_back on one slot's list. */
    method StoreAt(level: nat, slotIdx: nat, t: Timer, ghost timers: set<Timer>)
      requires Valid() && Within(timers) && t in timers && level < TVN_NUM && slotIdx < TVN_SIZE
      modifies tv
      ensures Valid() && Within(timers)
      ensures var w := old(Abs(timers)); var s := Slot(level, slotIdx);
              Abs(timers) == w.(tv := w.tv[s := At(w, s) + [t]])
    {
      hide Slots;
      tv[level, slotIdx] := tv[level, slotIdx] + [t];
      assert Slots() == old(Slots())[Slot(level, slotIdx) := tv[level, slotIdx]];
    }

    /** The scan of the current level-0 slot: erase the inactive timers and the expired ones,
        clearing the flags of the latter. */
    method ScanSlot(c: nat, ghost timers: set<Timer>) returns (expired: seq<Timer>)
      requires Valid() && Within(timers) && c < TVN_SIZE
      modifies tv, timers`active
      ensures Valid() && Within(timers)
      ensures var r := Expire(old(tv[0, c]), now, old(Inactive(timers)));
              tv[0, c] == r.0 && expired == r.1
      ensures Inactive(timers) == old(Inactive(timers)) + Elements(expired)
      ensures forall l, j :: 0 <= l < TVN_NUM && 0 <= j < TVN_SIZE && (l, j) != (0, c) ==> tv[l, j] == old(tv[l, j])
    {
      hide Span, Slots, Expire;
      ghost var slot := tv[0, c];
      ghost var dead := Inactive(timers);
      ghost var r := Expire(slot, now, dead);
      expired := [];
      var i := 0;
      assert slot[0..] == slot && slot[..0] == [] && dead + Elements([]) == dead;
      while i < |tv[0, c]|
        invariant Valid()
        invariant forall l, j :: 0 <= l < TVN_NUM && 0 <= j < TVN_SIZE && (l, j) != (0, c) ==> tv[l, j] == old(tv[l, j])
        invariant i <= |tv[0, c]|
        invariant forall t :: t in tv[0, c] || t in expired ==> t in timers
        invariant forall t :: t in timers ==> (!t.active <==> !old(t.active) || t in expired)
        invariant r.0 == tv[0, c][..i] + Expire(tv[0, c][i..], now, dead + Elements(expired)).0
        invariant r.1 == expired + Expire(tv[0, c][i..], now, dead + Elements(expired)).1
        decreases |tv[0, c]| - i
      {
        ghost var cur := tv[0, c];
        ghost var d := dead + Elements(expired);
        ExpireAt(cur, i, now, d);
        var t := tv[0, c][i];
        if !t.active {
          tv[0, c] := tv[0, c][..i] + tv[0, c][i + 1..];
          assert tv[0, c][..i] == cur[..i];
        } else if t.expires <= now {
          tv[0, c] := tv[0, c][..i] + tv[0, c][i + 1..];
          expired := expired + [t];
          t.active := false;
          assert tv[0, c][..i] == cur[..i];
          assert dead + Elements(expired) == d + {t};
        } else {
          i := i + 1;
          assert cur[..i] == cur[..i - 1] + [t];
        }
      }
      assert Expire([], now, dead + Elements(expired)) == ([], []) by { ExpireNone(now, dead + Elements(expired)); }
      assert tv[0, c][i..] == [];
    }

    method Tick(ghost timers: set<Timer>)
      requires Valid() && Within(timers)
      modifies this, tv, tvIdx, timers`active
      ensures Valid() && Within(timers)
      ensures Abs(timers) == TimeWheelModel.Tick(old(Abs(timers)))
    {
      hide Span, Place, Expire, Slots;
      ghost var w := Abs(timers);
      now := Next(now);
      var c := tvIdx[0];
      assert At(w, Slot(0, c)) == tv[0, c];
      var expired := ScanSlot(c, timers);
      // every expired timer's callback runs, in order
      fired := fired + Calls(expired, now);
      tvIdx[0] := (tvIdx[0] + 1) % TVN_SIZE;
      assert Slots() == w.tv[Slot(0, c) := tv[0, c]];
      assert Inactive(timers) == w.dead + Elements(expired);
      assert Abs(timers) == Scan(w);
      if tvIdx[0] == 0 {
        Cascade(1, timers);
      }
    }

    /** Puts the timers of a list back into the wheel, in order. */
    method ReAdd(ts: seq<Timer>, ghost timers: set<Timer>)
      requires Valid() && Within(timers) && forall t :: t in ts ==> t in timers
      modifies tv
      ensures Valid() && Within(timers)
      ensures Abs(timers) == AddAll(old(Abs(timers)), ts)
    {
      hide Span, Place, Delta, Slots;
      assert ts[0..] == ts;
      for k := 0 to |ts|
        invariant Valid() && Within(timers)
        invariant AddAll(Abs(timers), ts[k..]) == AddAll(old(Abs(timers)), ts)
      {
        assert ts[k..][0] == ts[k] && ts[k..][1..] == ts[k + 1..];
        if ts[k].active {
          var _ := AddTimer(ts[k], timers);
        }
      }
    }

    /** Takes the timers out of the current slot of one level (a list swap). */
    method TakeSlot(level: nat, ghost timers: set<Timer>) returns (ts: seq<Timer>)
      requires Valid() && Within(timers) && level < TVN_NUM
      modifies tv
      ensures Valid() && Within(timers) && forall t :: t in ts ==> t in timers
      ensures var w := old(Abs(timers)); var s := Slot(level, w.idx[level]);
              ts == At(w, s) && Abs(timers) == w.(tv := w.tv[s := []])
    {
      hide Slots;
      var c := tvIdx[level];
      ts := tv[level, c];
      tv[level, c] := [];
      assert Slots() == old(Slots())[Slot(level, c) := []];
    }

    /** One level of a cascade, with its cursor. */
    method CascadeSlot(level: nat, ghost timers: set<Timer>)
      requires Valid() && Within(timers) && level < TVN_NUM
      modifies tv, tvIdx
      ensures Valid() && Within(timers)
      ensures Abs(timers) == Drain(old(Abs(timers)), level)
    {
      hide AddAll, Slots, At;
      ghost var w := Abs(timers);
      var ts := TakeSlot(level, timers);
      ReAdd(ts, timers);
      AddAllFrame(w.(tv := w.tv[Slot(level, w.idx[level]) := []]), ts);
      label added:
      tvIdx[level] := (tvIdx[level] + 1) % TVN_SIZE;
      assert Slots() == old@added(Slots());
    }

    method Cascade(level: nat, ghost timers: set<Timer>)
      requires Valid() && Within(timers)
      modifies tv, tvIdx
      ensures Valid() && Within(timers)
      ensures Abs(timers) == TimeWheelModel.Cascade(old(Abs(timers)), level)
      decreases TVN_NUM - level
    {
      hide Drain, Slots;
      if level >= TVN_NUM {
        return;
      }
      CascadeSlot(level, timers);
      if tvIdx[level] == 0 && level + 1 < TVN_NUM {
        Cascade(level + 1, timers);
      }
    }
  }
}
