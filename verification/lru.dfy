/** The LRU cache of common/lru.h: its recency list, most recent first, as a value. */
module LruLists {
  datatype Entry = Entry(key: int, value: int)

  datatype Call = Put(key: int, value: int) | Get(key: int)

  /** What a Get returns. */
  datatype Answer = Miss | Hit(value: int) {
    function ValueOr(default: int): int {
      if Hit? then value else default
    }
  }

  predicate HasKey(l: seq<Entry>, key: int) {
    exists i :: 0 <= i < |l| && l[i].key == key
  }

  predicate Distinct(l: seq<Entry>) {
    forall i, j :: 0 <= i < j < |l| ==> l[i].key != l[j].key
  }

  function Without(l: seq<Entry>, key: int): seq<Entry> {
    if l == [] then []
    else if l[0].key == key then l[1..]
    else [l[0]] + Without(l[1..], key)
  }

  function Look(l: seq<Entry>, key: int): Answer {
    if l == [] then Miss else if l[0].key == key then Hit(l[0].value) else Look(l[1..], key)
  }

  /** The entry moves or comes to the front; one too many pushes the last out. */
  function Do(l: seq<Entry>, cap: nat, c: Call): seq<Entry> {
    match c
    case Get(key) =>
      (match Look(l, key)
       case Miss => l
       case Hit(value) => [Entry(key, value)] + Without(l, key))
    case Put(key, value) =>
      if Look(l, key).Hit? then
        [Entry(key, value)] + Without(l, key)
      else
        var more := [Entry(key, value)] + l;
        if |more| > cap then more[..|more| - 1] else more
  }

  function Run(cap: nat, calls: seq<Call>): seq<Entry> {
    if calls == [] then [] else Do(Run(cap, calls[..|calls| - 1]), cap, calls[|calls| - 1])
  }

  lemma {:induction false} LookMeans(l: seq<Entry>, key: int)
    ensures Look(l, key).Hit? <==> HasKey(l, key)
    ensures Look(l, key).Hit? ==> exists i :: 0 <= i < |l| && l[i] == Entry(key, Look(l, key).value)
  {
    if l != [] && l[0].key != key {
      LookMeans(l[1..], key);
      if Look(l, key).Hit? {
        var i :| 0 <= i < |l[1..]| && l[1..][i] == Entry(key, Look(l, key).value);
        assert l[i + 1] == l[1..][i];
      }
      if HasKey(l, key) {
        var i :| 0 <= i < |l| && l[i].key == key;
        assert l[1..][i - 1] == l[i];
      }
    } else if l != [] {
      assert l[0] == Entry(key, Look(l, key).value);
    }
  }

  // ---- Subsequences ----

  /** `s` is `t` with some entries left out. */
  predicate Sub(s: seq<Entry>, t: seq<Entry>)
    decreases |t|
  {
    s == [] || (t != [] && (Sub(s, t[1..]) || (s[0] == t[0] && Sub(s[1..], t[1..]))))
  }

  lemma SubCons(s: seq<Entry>, t: seq<Entry>, x: Entry)
    requires Sub(s, t)
    ensures Sub([x] + s, [x] + t) && Sub(s, [x] + t)
  {
    assert ([x] + t)[1..] == t && ([x] + s)[1..] == s;
  }

  /** Leaving out the last of both, or the last of the shorter. */
  lemma {:induction false} SubInit(s: seq<Entry>, t: seq<Entry>)
    requires s != [] && Sub(s, t)
    ensures t != [] && Sub(s[..|s| - 1], t[..|t| - 1])
    decreases |t|
  {
    var s', t' := s[..|s| - 1], t[..|t| - 1];
    if |s| <= 1 {
    } else {
      if Sub(s, t[1..]) {
        SubInit(s, t[1..]);
        assert t'[1..] == t[1..][..|t| - 2];
      } else {
        SubInit(s[1..], t[1..]);
        assert t'[1..] == t[1..][..|t| - 2] && s'[1..] == s[1..][..|s| - 2];
      }
    }
  }

  lemma {:induction false} SubInitOne(s: seq<Entry>, t: seq<Entry>)
    requires s != [] && Sub(s, t)
    ensures Sub(s[..|s| - 1], t)
    decreases |t|
  {
    if Sub(s, t[1..]) {
      SubInitOne(s, t[1..]);
    } else if |s| > 1 {
      SubInitOne(s[1..], t[1..]);
      assert s[..|s| - 1][1..] == s[1..][..|s| - 2];
    }
  }

  lemma {:induction false} SubIn(s: seq<Entry>, t: seq<Entry>, i: nat)
    requires Sub(s, t) && i < |s|
    ensures s[i] in t
    decreases |t|
  {
    if Sub(s, t[1..]) { SubIn(s, t[1..], i); } else if i > 0 { SubIn(s[1..], t[1..], i - 1); }
  }

  lemma {:induction false} WithoutNone(l: seq<Entry>, key: int)
    requires !HasKey(l, key)
    ensures Without(l, key) == l
  {
    if l == [] {
    } else {
      assert forall i :: 0 <= i < |l| - 1 ==> l[1..][i] == l[i + 1];
      WithoutNone(l[1..], key);
    }
  }

  /** Leaving the same key out of both. */
  lemma {:induction false} SubWithout(s: seq<Entry>, t: seq<Entry>, key: int)
    requires Sub(s, t) && Distinct(t)
    ensures Sub(Without(s, key), Without(t, key))
    decreases |t|
  {
    if s == [] {
    } else {
      if t[0].key == key {
        if Sub(s, t[1..]) {
          SubNoKey(s, t[1..], key);
          WithoutNone(s, key);
        }
      } else if Sub(s, t[1..]) {
        SubWithout(s, t[1..], key);
        SubCons(Without(s, key), Without(t[1..], key), t[0]);
      } else {
        SubWithout(s[1..], t[1..], key);
        SubCons(Without(s[1..], key), Without(t[1..], key), t[0]);
      }
    }
  }

  lemma SubNoKey(s: seq<Entry>, t: seq<Entry>, key: int)
    requires Sub(s, t) && !HasKey(t, key)
    ensures !HasKey(s, key)
  {
    if HasKey(s, key) {
      var i :| 0 <= i < |s| && s[i].key == key;
      SubIn(s, t, i);
    }
  }

  lemma {:induction false} LookIn(l: seq<Entry>, e: Entry)
    requires Distinct(l) && e in l
    ensures Look(l, e.key) == Hit(e.value)
  {
    if l[0] != e { LookIn(l[1..], e); }
  }

  /** A key found in the shorter is found in the longer, with the same value. */
  lemma SubLook(s: seq<Entry>, t: seq<Entry>, key: int)
    requires Sub(s, t) && Distinct(t) && Look(s, key).Hit?
    ensures Look(t, key) == Look(s, key)
  {
    LookMeans(s, key);
    var i :| 0 <= i < |s| && s[i] == Entry(key, Look(s, key).value);
    SubIn(s, t, i);
    LookIn(t, s[i]);
  }

  // ---- What one call does ----

  predicate Fine(l: seq<Entry>, cap: nat) {
    Distinct(l) && |l| <= cap
  }

  lemma {:induction false} WithoutMeans(l: seq<Entry>, key: int)
    requires Distinct(l)
    ensures |Without(l, key)| == if HasKey(l, key) then |l| - 1 else |l|
    ensures forall e :: e in Without(l, key) <==> e in l && e.key != key
    ensures Distinct(Without(l, key)) && Sub(Without(l, key), l)
  {
    if HasKey(l, key) {
      Loses(l, key);
    } else {
      WithoutNone(l, key);
      SubSelf(l);
      assert forall e :: e in l ==> exists i :: 0 <= i < |l| && l[i] == e;
    }
  }

  lemma {:induction false} SubSelf(l: seq<Entry>)
    ensures Sub(l, l)
  {
    if l == [] {
    } else {
      SubSelf(l[1..]);
    }
  }

  lemma TailHas(l: seq<Entry>, key: int)
    requires HasKey(l, key) && l[0].key != key
    ensures HasKey(l[1..], key)
  {
    var i :| 0 <= i < |l| && l[i].key == key;
    assert l[1..][i - 1] == l[i];
  }

  lemma {:induction false} LosesOnly(l: seq<Entry>, key: int)
    requires Distinct(l) && HasKey(l, key)
    ensures |Without(l, key)| == |l| - 1
    ensures forall e :: e in Without(l, key) <==> e in l && e.key != key
  {
    assert l == [l[0]] + l[1..];
    if l[0].key != key {
      TailHas(l, key);
      LosesOnly(l[1..], key);
      hide HasKey, Distinct;
    }
  }

  lemma {:induction false} Loses(l: seq<Entry>, key: int)
    requires Distinct(l) && HasKey(l, key)
    ensures |Without(l, key)| == |l| - 1
    ensures forall e :: e in Without(l, key) <==> e in l && e.key != key
    ensures Distinct(Without(l, key)) && Sub(Without(l, key), l)
  {
    LosesOnly(l, key);
    SubSelf(l[1..]);
    if l[0].key != key {
      TailHas(l, key);
      Loses(l[1..], key);
      var t := Without(l[1..], key);
      hide Sub, HasKey, Without;
      SubCons(t, l[1..], l[0]);
      assert [l[0]] + l[1..] == l;
      assert forall i :: 0 <= i < |t| ==> t[i] in t;
    }
  }

  /** The key at the front, and the others as they were. */
  function Front(l: seq<Entry>, key: int, value: int): seq<Entry> {
    [Entry(key, value)] + Without(l, key)
  }

  lemma FrontMeans(l: seq<Entry>, key: int, value: int)
    requires Distinct(l)
    ensures var r := Front(l, key, value);
            Distinct(r) && |r| == if HasKey(l, key) then |l| else |l| + 1
  {
    WithoutMeans(l, key);
    var t := Without(l, key);
    assert forall i :: 0 <= i < |t| ==> t[i] in t;
    hide Without, HasKey;
  }

  /** Every call brings its key to the front, does nothing, or also drops the last entry. */
  lemma DoIs(l: seq<Entry>, cap: nat, c: Call)
    ensures c.Get? && Look(l, c.key).Hit? ==> Do(l, cap, c) == Front(l, c.key, Look(l, c.key).value)
    ensures c.Get? && Look(l, c.key).Miss? ==> Do(l, cap, c) == l
    ensures c.Put? && Look(l, c.key).Hit? ==> Do(l, cap, c) == Front(l, c.key, c.value)
    ensures c.Put? && Look(l, c.key).Miss? ==>
              var r := Front(l, c.key, c.value); Do(l, cap, c) == if |r| > cap then r[..|r| - 1] else r
  {
    LookMeans(l, c.key);
    if !HasKey(l, c.key) { WithoutNone(l, c.key); }
  }

  /** Keys stay distinct, and the size within the capacity. */
  lemma DoFine(l: seq<Entry>, cap: nat, c: Call)
    requires Fine(l, cap)
    ensures Fine(Do(l, cap, c), cap)
  {
    hide Front, Do, HasKey;
    DoIs(l, cap, c);
    LookMeans(l, c.key);
    FrontMeans(l, c.key, if c.Put? then c.value else Look(l, c.key).ValueOr(0));
  }

  lemma {:induction false} RunFine(cap: nat, calls: seq<Call>)
    ensures Fine(Run(cap, calls), cap)
    decreases |calls|
  {
    hide Do;
    if calls == [] {
    } else {
      var before := calls[..|calls| - 1];
      RunFine(cap, before);
      DoFine(Run(cap, before), cap, calls[|calls| - 1]);
    }
  }

  // ---- Inclusion ----

  /** The smaller cache lists some of the larger's entries, in the same order, and while it is not
      full it lists them all. */
  ghost predicate Included(s: seq<Entry>, t: seq<Entry>, small: nat, large: nat) {
    Fine(s, small) && Fine(t, large) && Sub(s, t) && (|s| == small || s == t)
  }

  lemma FrontSub(s: seq<Entry>, t: seq<Entry>, key: int, value: int)
    requires Sub(s, t) && Distinct(t)
    ensures Sub(Front(s, key, value), Front(t, key, value))
    ensures !HasKey(s, key) ==> Sub(s, Front(t, key, value))
  {
    hide HasKey, Distinct;
    SubWithout(s, t, key);
    SubCons(Without(s, key), Without(t, key), Entry(key, value));
    if !HasKey(s, key) { WithoutNone(s, key); }
  }

  lemma GetIncluded(s: seq<Entry>, t: seq<Entry>, small: nat, large: nat, c: Call)
    requires Included(s, t, small, large) && c.Get?
    ensures Sub(Do(s, small, c), Do(t, large, c))
    ensures |Do(s, small, c)| == small || Do(s, small, c) == Do(t, large, c)
  {
    hide Front, Do, Sub, HasKey, Distinct;
    DoIs(s, small, c);
    DoIs(t, large, c);
    LookMeans(s, c.key);
    LookMeans(t, c.key);
    if Look(s, c.key).Hit? { SubLook(s, t, c.key); }
    if Look(t, c.key).Hit? {
      FrontMeans(s, c.key, Look(t, c.key).value);
      FrontSub(s, t, c.key, Look(t, c.key).value);
    }
  }

  lemma PutIncluded(s: seq<Entry>, t: seq<Entry>, small: nat, large: nat, c: Call)
    requires Included(s, t, small, large) && c.Put? && small <= large
    ensures Sub(Do(s, small, c), Do(t, large, c))
    ensures |Do(s, small, c)| == small || Do(s, small, c) == Do(t, large, c)
  {
    hide Front, Do, Sub, HasKey, Distinct;
    DoIs(s, small, c);
    DoIs(t, large, c);
    LookMeans(s, c.key);
    LookMeans(t, c.key);
    if Look(s, c.key).Hit? { SubLook(s, t, c.key); }
    FrontMeans(s, c.key, c.value);
    FrontMeans(t, c.key, c.value);
    FrontSub(s, t, c.key, c.value);
    var r, q := Front(s, c.key, c.value), Front(t, c.key, c.value);
    if |r| > 0 {
      SubInit(r, q);
      SubInitOne(r, q);
    }
  }

  /** LRU inclusion: after the same calls, the list of the smaller cache is a part of the larger's. */
  lemma {:induction false} Inclusion(small: nat, large: nat, calls: seq<Call>)
    requires small <= large
    ensures Included(Run(small, calls), Run(large, calls), small, large)
    decreases |calls|
  {
    hide Do, Sub;
    if calls != [] {
      var before, c := calls[..|calls| - 1], calls[|calls| - 1];
      Inclusion(small, large, before);
      var s, t := Run(small, before), Run(large, before);
      DoFine(s, small, c);
      DoFine(t, large, c);
      if c.Get? { GetIncluded(s, t, small, large, c); } else { PutIncluded(s, t, small, large, c); }
    } else {
      SubSelf([]);
    }
  }

  /** So every hit in the smaller cache is the same hit in the larger. */
  lemma HitsIncluded(small: nat, large: nat, calls: seq<Call>, key: int)
    requires small <= large && Look(Run(small, calls), key).Hit?
    ensures Look(Run(large, calls), key) == Look(Run(small, calls), key)
  {
    hide Run, Sub;
    Inclusion(small, large, calls);
    SubLook(Run(small, calls), Run(large, calls), key);
  }

  // ---- What the list holds ----

  /** The value last put under a key. */
  function LastPut(calls: seq<Call>, key: int): Answer {
    if calls == [] then Miss
    else
      var c := calls[|calls| - 1];
      if c.Put? && c.key == key then Hit(c.value) else LastPut(calls[..|calls| - 1], key)
  }

  /** When a key was last used: the number of calls up to its latest Put or successful Get, or 0. */
  function LastUse(cap: nat, calls: seq<Call>, key: int): nat {
    if calls == [] then 0
    else
      var before, c := calls[..|calls| - 1], calls[|calls| - 1];
      if c.key == key && (c.Put? || Look(Run(cap, before), key).Hit?) then |calls|
      else LastUse(cap, before, key)
  }

  lemma {:induction false} LastUseBound(cap: nat, calls: seq<Call>, key: int)
    ensures LastUse(cap, calls, key) <= |calls|
    decreases |calls|
  {
    if calls == [] {
    } else {
      LastUseBound(cap, calls[..|calls| - 1], key);
    }
  }

  /** Most recently used first. */
  ghost predicate Falling(cap: nat, calls: seq<Call>, l: seq<Entry>) {
    forall i, j :: 0 <= i < j < |l| ==> LastUse(cap, calls, l[i].key) > LastUse(cap, calls, l[j].key)
  }

  /** Every entry has been used, and carries the value last put under its key. */
  ghost predicate Current(cap: nat, calls: seq<Call>, l: seq<Entry>) {
    forall e :: e in l ==> LastUse(cap, calls, e.key) > 0 && LastPut(calls, e.key) == Hit(e.value)
  }

  /** A key that was used and is not listed was used before every listed key. */
  ghost predicate Above(cap: nat, calls: seq<Call>, l: seq<Entry>) {
    forall key, i :: LastUse(cap, calls, key) > 0 && !HasKey(l, key) && 0 <= i < |l| ==>
      LastUse(cap, calls, l[i].key) > LastUse(cap, calls, key)
  }

  /** The list is full, or holds every key that was used. */
  ghost predicate Whole(cap: nat, calls: seq<Call>, l: seq<Entry>) {
    |l| == cap || forall key :: LastUse(cap, calls, key) > 0 ==> HasKey(l, key)
  }

  lemma {:induction false} SubFalling(cap: nat, calls: seq<Call>, s: seq<Entry>, t: seq<Entry>)
    requires Sub(s, t) && Falling(cap, calls, t)
    ensures Falling(cap, calls, s)
    decreases |t|
  {
    hide LastUse;
    if s == [] {
    } else {
      var u := t[1..];
      assert forall i :: 0 <= i < |u| ==> u[i] == t[i + 1];
      if Sub(s, u) {
        SubFalling(cap, calls, s, u);
      } else {
        SubFalling(cap, calls, s[1..], u);
        forall j | 0 < j < |s| ensures LastUse(cap, calls, s[0].key) > LastUse(cap, calls, s[j].key) {
          SubIn(s[1..], u, j - 1);
        }
        assert forall i :: 0 < i < |s| ==> s[i] == s[1..][i - 1];
      }
    }
  }

  /** `more` is `calls` and one call `c`, which uses its key or not. */
  ghost predicate Extends(cap: nat, calls: seq<Call>, more: seq<Call>, c: Call, used: bool) {
    && more == calls + [c]
    && used == (c.Put? || Look(Run(cap, calls), c.key).Hit?)
  }

  lemma UseStep(cap: nat, calls: seq<Call>, more: seq<Call>, c: Call, used: bool, key: int)
    requires Extends(cap, calls, more, c, used)
    ensures LastUse(cap, more, key) == if key == c.key && used then |more| else LastUse(cap, calls, key)
    ensures LastPut(more, key) == if key == c.key && c.Put? then Hit(c.value) else LastPut(calls, key)
    ensures LastUse(cap, calls, key) < |more|
    ensures Run(cap, more) == Do(Run(cap, calls), cap, c)
  {
    assert more[..|more| - 1] == calls;
    LastUseBound(cap, calls, key);
    hide Do, Look, Run;
  }

  lemma FrontFalling(cap: nat, calls: seq<Call>, more: seq<Call>, c: Call, l: seq<Entry>, value: int)
    requires Extends(cap, calls, more, c, true) && Distinct(l) && Falling(cap, calls, l)
    ensures Falling(cap, more, Front(l, c.key, value))
  {
    hide LastUse, LastPut, Extends, Do, Run, HasKey;
    WithoutMeans(l, c.key);
    var t := Without(l, c.key);
    SubFalling(cap, calls, t, l);
    hide Without, Distinct, Sub;
    forall i | 0 <= i < |t| ensures LastUse(cap, more, t[i].key) == LastUse(cap, calls, t[i].key) < |more| {
      assert t[i] in t;
      UseStep(cap, calls, more, c, true, t[i].key);
    }
    UseStep(cap, calls, more, c, true, c.key);
  }

  lemma FrontCurrent(cap: nat, calls: seq<Call>, more: seq<Call>, c: Call, l: seq<Entry>, value: int)
    requires Extends(cap, calls, more, c, true) && Distinct(l) && Current(cap, calls, l)
    requires if c.Put? then value == c.value else Entry(c.key, value) in l
    ensures Current(cap, more, Front(l, c.key, value))
  {
    hide LastUse, LastPut, Extends, Do, Run, HasKey;
    WithoutMeans(l, c.key);
    hide Without, Distinct;
    UseStep(cap, calls, more, c, true, c.key);
    forall e | e in Front(l, c.key, value)
      ensures LastUse(cap, more, e.key) > 0 && LastPut(more, e.key) == Hit(e.value)
    {
      UseStep(cap, calls, more, c, true, e.key);
    }
  }

  lemma FrontKeys(l: seq<Entry>, key: int, value: int)
    requires Distinct(l)
    ensures HasKey(Front(l, key, value), key)
    ensures forall k :: HasKey(l, k) ==> HasKey(Front(l, key, value), k)
    ensures forall e :: e in Front(l, key, value) ==> e.key == key || e in l
  {
    var r := Front(l, key, value);
    WithoutMeans(l, key);
    assert r[0].key == key;
    forall k | HasKey(l, k) ensures HasKey(r, k) {
      if k != key {
        var i :| 0 <= i < |l| && l[i].key == k;
        assert l[i] in l;
        assert l[i] in Without(l, key);
        assert l[i] in r;
      }
    }
  }

  lemma FrontAbove(cap: nat, calls: seq<Call>, more: seq<Call>, c: Call, l: seq<Entry>, value: int)
    requires Extends(cap, calls, more, c, true) && Distinct(l) && Above(cap, calls, l)
    ensures Above(cap, more, Front(l, c.key, value))
  {
    var r := Front(l, c.key, value);
    hide LastUse, LastPut, Extends, Do, Run;
    FrontKeys(l, c.key, value);
    hide Front, HasKey;
    UseStep(cap, calls, more, c, true, c.key);
    forall key, i | LastUse(cap, more, key) > 0 && !HasKey(r, key) && 0 <= i < |r|
      ensures LastUse(cap, more, r[i].key) > LastUse(cap, more, key)
    {
      UseStep(cap, calls, more, c, true, key);
      UseStep(cap, calls, more, c, true, r[i].key);
      assert r[i] in r;
    }
  }

  lemma FrontWhole(cap: nat, calls: seq<Call>, more: seq<Call>, c: Call, l: seq<Entry>, value: int)
    requires Extends(cap, calls, more, c, true) && Distinct(l) && Whole(cap, calls, l)
    requires |l| == cap ==> HasKey(l, c.key)
    ensures Whole(cap, more, Front(l, c.key, value))
  {
    hide LastUse, LastPut, Extends, Do, Run;
    FrontMeans(l, c.key, value);
    FrontKeys(l, c.key, value);
    hide Front, HasKey;
    forall key | LastUse(cap, more, key) > 0 && |l| != cap ensures HasKey(Front(l, c.key, value), key) {
      UseStep(cap, calls, more, c, true, key);
    }
  }

  lemma KeyDropped(r: seq<Entry>, key: int)
    requires HasKey(r, key)
    ensures HasKey(r[..|r| - 1], key) || key == r[|r| - 1].key
  {
    var i :| 0 <= i < |r| && r[i].key == key;
    if i < |r| - 1 { assert r[..|r| - 1][i].key == key; }
  }

  /** Dropping the last entry drops the one used longest ago. */
  lemma DropKeeps(cap: nat, more: seq<Call>, r: seq<Entry>)
    requires |r| > 0 && Falling(cap, more, r) && Current(cap, more, r) && Above(cap, more, r)
    ensures var s := r[..|r| - 1]; Falling(cap, more, s) && Current(cap, more, s) && Above(cap, more, s)
  {
    hide LastUse, LastPut, HasKey, Current;
    var s := r[..|r| - 1];
    forall key, i | LastUse(cap, more, key) > 0 && !HasKey(s, key) && 0 <= i < |s|
      ensures LastUse(cap, more, s[i].key) > LastUse(cap, more, key)
    {
      if HasKey(r, key) { KeyDropped(r, key); }
    }
    DropCurrent(cap, more, r);
  }

  lemma DropCurrent(cap: nat, more: seq<Call>, r: seq<Entry>)
    requires |r| > 0 && Current(cap, more, r)
    ensures Current(cap, more, r[..|r| - 1])
  {
    hide LastUse, LastPut;
    assert forall e :: e in r[..|r| - 1] ==> e in r;
  }

  ghost predicate Holds(cap: nat, calls: seq<Call>, l: seq<Entry>) {
    && Fine(l, cap) && Falling(cap, calls, l) && Current(cap, calls, l)
    && Above(cap, calls, l) && Whole(cap, calls, l)
  }

  lemma UsedHolds(cap: nat, calls: seq<Call>, more: seq<Call>, c: Call, l: seq<Entry>)
    requires Holds(cap, calls, l) && l == Run(cap, calls) && Extends(cap, calls, more, c, true)
    ensures Holds(cap, more, Do(l, cap, c))
  {
    hide LastUse, LastPut, Run, Falling, Current, Above, Whole, Front, Do;
    var value := if c.Put? then c.value else Look(l, c.key).ValueOr(0);
    LookMeans(l, c.key);
    DoFine(l, cap, c);
    DoIs(l, cap, c);
    FrontFalling(cap, calls, more, c, l, value);
    FrontCurrent(cap, calls, more, c, l, value);
    FrontAbove(cap, calls, more, c, l, value);
    FrontMeans(l, c.key, value);
    if |l| == cap && !HasKey(l, c.key) {
      DropKeeps(cap, more, Front(l, c.key, value));
      FullWhole(cap, more, Do(l, cap, c));
    } else {
      FrontWhole(cap, calls, more, c, l, value);
    }
  }

  lemma FullWhole(cap: nat, calls: seq<Call>, l: seq<Entry>)
    requires |l| == cap
    ensures Whole(cap, calls, l)
  {
  }

  lemma UnusedHolds(cap: nat, calls: seq<Call>, more: seq<Call>, c: Call, l: seq<Entry>)
    requires Holds(cap, calls, l) && l == Run(cap, calls) && Extends(cap, calls, more, c, false)
    ensures Do(l, cap, c) == l && Holds(cap, more, l)
  {
    assert Do(l, cap, c) == l;
    assert c.Get?;
    hide LastUse, LastPut, Run, Do, Extends, HasKey;
    forall key
      ensures LastUse(cap, more, key) == LastUse(cap, calls, key) && LastPut(more, key) == LastPut(calls, key)
    {
      UseStep(cap, calls, more, c, false, key);
    }
  }

  /** In every reachable state the list holds the most recently used keys, as many as fit, most
      recent first, each with the value last put under it: used means put, or got with success. */
  lemma {:induction false} RunHolds(cap: nat, calls: seq<Call>)
    ensures Holds(cap, calls, Run(cap, calls))
    decreases |calls|
  {
    if calls != [] {
      var before, c := calls[..|calls| - 1], calls[|calls| - 1];
      var l := Run(cap, before);
      var used := c.Put? || Look(l, c.key).Hit?;
      assert Extends(cap, before, calls, c, used);
      RunHolds(cap, before);
      hide Holds, Do, Extends;
      if used { UsedHolds(cap, before, calls, c, l); } else { UnusedHolds(cap, before, calls, c, l); }
    } else {
      assert Run(cap, calls) == [];
    }
  }

  /** A hit returns the value last put under the key. */
  lemma HitIsLastPut(cap: nat, calls: seq<Call>, key: int)
    requires Look(Run(cap, calls), key).Hit?
    ensures LastPut(calls, key) == Look(Run(cap, calls), key)
  {
    hide Run, LastUse, LastPut;
    RunHolds(cap, calls);
    LookMeans(Run(cap, calls), key);
  }
}
