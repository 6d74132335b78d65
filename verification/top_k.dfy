/** top_k_min: the k smallest elements of a binary heap, in order, without popping the heap. */
module TopK {
  // ---- Sorting, as the reference ----

  predicate Ascending(s: seq<int>) {
    forall i :: 0 <= i < |s| - 1 ==> s[i] <= s[i + 1]
  }

  lemma {:induction false} Ascends(s: seq<int>, i: nat, j: nat)
    requires Ascending(s) && i <= j < |s|
    ensures s[i] <= s[j]
    decreases j - i
  {
    if i == j {
    } else {
      Ascends(s, i, j - 1);
    }
  }

  function Insert(x: int, s: seq<int>): seq<int> {
    if s == [] || x <= s[0] then [x] + s else [s[0]] + Insert(x, s[1..])
  }

  /** The elements in ascending order. */
  function Sorted(s: seq<int>): seq<int> {
    if s == [] then [] else Insert(s[0], Sorted(s[1..]))
  }

  lemma AddFirst(x: int, s: seq<int>)
    ensures multiset([x] + s) == multiset(s) + multiset{x}
  {
  }

  lemma First(s: seq<int>)
    requires s != []
    ensures s == [s[0]] + s[1..] && multiset(s) == multiset(s[1..]) + multiset{s[0]}
  {
    AddFirst(s[0], s[1..]);
    assert s == [s[0]] + s[1..];
  }

  lemma {:induction false} InsertSame(x: int, s: seq<int>)
    ensures multiset(Insert(x, s)) == multiset(s) + multiset{x}
  {
    if s == [] || x <= s[0] {
      AddFirst(x, s);
    } else {
      InsertSame(x, s[1..]);
      AddFirst(s[0], Insert(x, s[1..]));
      First(s);
    }
  }

  lemma {:induction false} InsertAscends(x: int, s: seq<int>)
    requires Ascending(s)
    ensures Ascending(Insert(x, s)) && Insert(x, s) != []
    ensures Insert(x, s)[0] == if s == [] || x <= s[0] then x else s[0]
  {
    if s == [] || x <= s[0] {
    } else {
      InsertAscends(x, s[1..]);
    }
  }

  /** The same elements, in ascending order. */
  lemma {:induction false} SortedMeans(s: seq<int>)
    ensures Ascending(Sorted(s)) && multiset(Sorted(s)) == multiset(s) && |Sorted(s)| == |s|
  {
    if s == [] {
    } else {
      hide Insert;
      SortedMeans(s[1..]);
      InsertAscends(s[0], Sorted(s[1..]));
      InsertSame(s[0], Sorted(s[1..]));
      First(s);
    }
    SameSize(Sorted(s), s);
  }

  lemma SameSize(s: seq<int>, t: seq<int>)
    ensures multiset(s) == multiset(t) ==> |s| == |t|
  {
    assert |multiset(s)| == |s| && |multiset(t)| == |t|;
  }

  ghost predicate IsLeast(m: multiset<int>, x: int) {
    x in m && forall y :: y in m ==> x <= y
  }

  /** An ascending sequence starts with its least element. */
  lemma LeastFirst(t: seq<int>, x: int)
    requires Ascending(t) && IsLeast(multiset(t), x)
    ensures t != [] && t[0] == x && multiset(t[1..]) == multiset(t) - multiset{x}
  {
    var i :| 0 <= i < |t| && t[i] == x;
    Ascends(t, 0, i);
    assert t[0] in multiset(t);
    First(t);
  }

  // ---- The heap and its frontier ----

  function Parent(j: nat): nat
    requires j > 0
  {
    (j - 1) / 2
  }

  ghost predicate HeapOrder(data: seq<int>) {
    forall j :: 0 < j < |data| ==> data[Parent(j)] <= data[j]
  }

  /** The indices taken hold the parents of all of them. */
  ghost predicate Closed(data: seq<int>, taken: set<nat>) {
    && (forall j :: j in taken ==> j < |data|)
    && (forall j :: j in taken && j > 0 ==> Parent(j) in taken)
  }

  /** The indices next to those taken. */
  ghost predicate OnFrontier(data: seq<int>, taken: set<nat>, j: nat) {
    j < |data| && j !in taken && (j == 0 || Parent(j) in taken)
  }

  /** Under every index not taken there is one on the frontier that is not larger. */
  lemma {:induction false} FrontierCovers(data: seq<int>, taken: set<nat>, j: nat) returns (f: nat)
    requires HeapOrder(data) && j < |data| && j !in taken
    ensures OnFrontier(data, taken, f) && data[f] <= data[j]
    decreases j
  {
    if OnFrontier(data, taken, j) {
      f := j;
    } else {
      f := FrontierCovers(data, taken, Parent(j));
    }
  }

  /** The elements whose indices, from `from` on, are not taken. */
  ghost function Rest(data: seq<int>, taken: set<nat>, from: nat): seq<int>
    requires from <= |data|
    decreases |data| - from
  {
    if from == |data| then [] else (if from in taken then [] else [data[from]]) + Rest(data, taken, from + 1)
  }

  lemma {:induction false} RestIn(data: seq<int>, taken: set<nat>, from: nat, x: int) returns (j: nat)
    requires from <= |data| && x in Rest(data, taken, from)
    ensures from <= j < |data| && j !in taken && data[j] == x
    decreases |data| - from
  {
    if from !in taken && data[from] == x {
      j := from;
    } else {
      j := RestIn(data, taken, from + 1, x);
    }
  }

  lemma {:induction false} RestAll(data: seq<int>, from: nat)
    requires from <= |data|
    ensures Rest(data, {}, from) == data[from..]
    decreases |data| - from
  {
    if from == |data| {
    } else {
      RestAll(data, from + 1);
    }
  }

  lemma {:induction false} RestSame(data: seq<int>, taken: set<nat>, from: nat, c: nat)
    requires c < from <= |data|
    ensures Rest(data, taken, from) == Rest(data, taken + {c}, from)
    decreases |data| - from
  {
    if from == |data| {
    } else {
      assert from in taken + {c} <==> from in taken;
      RestSame(data, taken, from + 1, c);
    }
  }

  lemma RestStep(data: seq<int>, taken: set<nat>, from: nat)
    requires from < |data|
    ensures multiset(Rest(data, taken, from)) ==
            multiset(Rest(data, taken, from + 1)) + (if from in taken then multiset{} else multiset{data[from]})
  {
    if from !in taken { AddFirst(data[from], Rest(data, taken, from + 1)); }
  }

  lemma {:induction false} RestTake(data: seq<int>, taken: set<nat>, from: nat, c: nat)
    requires from <= c < |data| && c !in taken
    ensures multiset(Rest(data, taken, from)) == multiset(Rest(data, taken + {c}, from)) + multiset{data[c]}
    decreases c - from
  {
    hide Rest;
    RestStep(data, taken, from);
    RestStep(data, taken + {c}, from);
    if from == c {
      RestSame(data, taken, from + 1, c);
    } else {
      RestTake(data, taken, from + 1, c);
    }
  }

  lemma NotAllTaken(data: seq<int>, taken: set<nat>) returns (j: nat)
    requires |taken| < |data|
    ensures j < |data| && j !in taken
  {
    if forall i: nat :: i < |data| ==> i in taken {
      Counting(taken, |data|);
    }
    j :| j < |data| && j !in taken;
  }

  lemma {:induction false} Counting(s: set<nat>, n: nat)
    requires forall j: nat :: j < n ==> j in s
    ensures |s| >= n
  {
    if n == 0 {
    } else {
      Counting(s - {n - 1}, n - 1);
    }
  }

  // ---- The frontier queue ----

  /** An element on the frontier, with its index in the heap. */
  datatype Candidate = Candidate(value: int, index: nat)

  predicate Before(c: Candidate, d: Candidate) {
    c.value < d.value || (c.value == d.value && c.index <= d.index)
  }

  ghost predicate IsTop(queue: multiset<Candidate>, c: Candidate) {
    c in queue && forall d :: d in queue ==> Before(c, d)
  }

  lemma {:induction false} HasTop(queue: multiset<Candidate>)
    requires |queue| > 0
    ensures exists c :: IsTop(queue, c)
    decreases |queue|
  {
    var c :| c in queue;
    var rest := queue - multiset{c};
    assert forall d :: d in queue ==> d == c || d in rest;
    if |rest| > 0 {
      HasTop(rest);
      var d :| IsTop(rest, d);
      assert IsTop(queue, if Before(c, d) then c else d);
    } else {
      assert IsTop(queue, c);
    }
  }

  /** top and pop of the priority queue. */
  method Pop(queue: multiset<Candidate>) returns (c: Candidate, rest: multiset<Candidate>)
    requires |queue| > 0
    ensures IsTop(queue, c) && rest == queue - multiset{c}
  {
    HasTop(queue);
    c :| c in queue && forall d :: d in queue ==> Before(c, d);
    rest := queue - multiset{c};
  }

  /** The queue holds each index of the frontier once, with its element, and nothing else. */
  ghost predicate Holds(queue: multiset<Candidate>, data: seq<int>, taken: set<nat>) {
    forall c: Candidate ::
      queue[c] == if OnFrontier(data, taken, c.index) && c.value == data[c.index] then 1 else 0
  }

  /** The child `j`, when there is one. */
  function Child(data: seq<int>, j: nat): multiset<Candidate> {
    if j < |data| then multiset{Candidate(data[j], j)} else multiset{}
  }

  /** Taking an index replaces it by its children. */
  lemma FrontierStep(data: seq<int>, taken: set<nat>, queue: multiset<Candidate>, c: Candidate)
    requires Closed(data, taken) && Holds(queue, data, taken) && c in queue
    ensures c.index !in taken && c.index < |data| && c.value == data[c.index]
    ensures Closed(data, taken + {c.index})
    ensures var next := queue - multiset{c} + Child(data, 2 * c.index + 1) + Child(data, 2 * c.index + 2);
            Holds(next, data, taken + {c.index})
  {
    var next := queue - multiset{c} + Child(data, 2 * c.index + 1) + Child(data, 2 * c.index + 2);
    forall d: Candidate
      ensures next[d] == if OnFrontier(data, taken + {c.index}, d.index) && d.value == data[d.index] then 1 else 0
    {
      if d.index > 0 {
        assert Parent(d.index) == c.index <==> d.index == 2 * c.index + 1 || d.index == 2 * c.index + 2;
      }
    }
  }

  /** The queue is not empty while something is left, and its top is the least of what is left. */
  lemma TopIsLeast(data: seq<int>, taken: set<nat>, queue: multiset<Candidate>, c: Candidate)
    requires HeapOrder(data) && Closed(data, taken) && Holds(queue, data, taken) && IsTop(queue, c)
    ensures IsLeast(multiset(Rest(data, taken, 0)), c.value)
  {
    hide Rest, Parent;
    assert OnFrontier(data, taken, c.index) && c.value == data[c.index];
    RestTake(data, taken, 0, c.index);
    var rest := Rest(data, taken, 0);
    forall x | x in multiset(rest) ensures c.value <= x {
      var j := RestIn(data, taken, 0, x);
      var f := FrontierCovers(data, taken, j);
      assert Candidate(data[f], f) in queue;
    }
  }

  lemma NotEmpty(data: seq<int>, taken: set<nat>, queue: multiset<Candidate>)
    requires HeapOrder(data) && Holds(queue, data, taken) && |taken| < |data|
    ensures |queue| > 0
  {
    var j := NotAllTaken(data, taken);
    var f := FrontierCovers(data, taken, j);
    assert Candidate(data[f], f) in queue;
  }

  /** Where the loop stands after `i` rounds. */
  ghost predicate Picked(data: seq<int>, taken: set<nat>, queue: multiset<Candidate>, i: nat) {
    && Closed(data, taken) && Holds(queue, data, taken)
    && |taken| == i <= |data| == |Sorted(data)| && |queue| <= i + 1
    && multiset(Sorted(data)[i..]) == multiset(Rest(data, taken, 0))
  }

  lemma PickNone(data: seq<int>)
    requires data != []
    ensures |Sorted(data)| == |data|
    ensures Picked(data, {}, multiset{Candidate(data[0], 0)}, 0)
  {
    SortedMeans(data);
    RestAll(data, 0);
    assert Sorted(data)[0..] == Sorted(data) && data[0..] == data;
  }

  lemma AscendingEnd(s: seq<int>, i: nat)
    requires Ascending(s) && i <= |s|
    ensures Ascending(s[i..])
  {
  }

  lemma NextSorted(data: seq<int>, rest: seq<int>, i: nat, x: int)
    requires i < |data| == |Sorted(data)| && multiset(Sorted(data)[i..]) == multiset(rest) && IsLeast(multiset(rest), x)
    ensures Sorted(data)[i] == x && multiset(Sorted(data)[i + 1..]) == multiset(rest) - multiset{x}
  {
    hide Sorted;
    SortedMeans(data);
    AscendingEnd(Sorted(data), i);
    LeastFirst(Sorted(data)[i..], x);
    assert Sorted(data)[i..][1..] == Sorted(data)[i + 1..];
  }

  function Children(data: seq<int>, j: nat): (r: multiset<Candidate>)
    ensures |r| <= 2
  {
    Child(data, 2 * j + 1) + Child(data, 2 * j + 2)
  }

  /** One round takes the next element of the sorted whole. */
  lemma PickOne(data: seq<int>, taken: set<nat>, queue: multiset<Candidate>, i: nat, c: Candidate)
    requires HeapOrder(data) && Picked(data, taken, queue, i) && i < |data| && IsTop(queue, c)
    ensures |Sorted(data)| == |data| && Sorted(data)[i] == c.value
    ensures Picked(data, taken + {c.index}, queue - multiset{c} + Children(data, c.index), i + 1)
  {
    hide HeapOrder, Closed, Holds, Rest, Sorted, OnFrontier, Child;
    FrontierStep(data, taken, queue, c);
    TopIsLeast(data, taken, queue, c);
    NextSorted(data, Rest(data, taken, 0), i, c.value);
    RestTake(data, taken, 0, c.index);
    var rest, l, r := queue - multiset{c}, Child(data, 2 * c.index + 1), Child(data, 2 * c.index + 2);
    assert rest + (l + r) == rest + l + r;
    hide IsLeast;
  }

  /** Puts the children of an index on the frontier. */
  method AddChildren(data: seq<int>, queue: multiset<Candidate>, j: nat) returns (r: multiset<Candidate>)
    ensures r == queue + Children(data, j)
  {
    r := queue;
    var left := 2 * j + 1;
    if left < |data| {
      r := r + multiset{Candidate(data[left], left)};
    }
    var right := 2 * j + 2;
    if right < |data| {
      r := r + multiset{Candidate(data[right], right)};
    }
  }

  lemma AppendNext(r: seq<int>, result: seq<int>, t: seq<int>, i: nat)
    requires i < |t| && r == result + t[..i]
    ensures r + [t[i]] == result + t[..i + 1]
  {
  }

  /** Appends the min(k, n) least elements of the heap, in ascending order. */
  method TopKMin(heap: seq<int>, k: nat, result: seq<int>) returns (r: seq<int>)
    requires HeapOrder(heap)
    ensures |Sorted(heap)| == |heap|
    ensures r == result + Sorted(heap)[..if k < |heap| then k else |heap|]
  {
    ghost var t := Sorted(heap);
    hide Sorted, Picked, HeapOrder, IsTop, Children, Ascending;
    SortedMeans(heap);
    r := result;
    if heap == [] || k == 0 {
      return;
    }
    var n := |heap|;
    var m := if n < k then n else k;
    var queue := multiset{Candidate(heap[0], 0)};
    ghost var taken: set<nat> := {};
    PickNone(heap);
    var i: nat := 0;
    while i < m
      invariant i <= m && r == result + t[..i]
      invariant Picked(heap, taken, queue, i)
    {
      PickSome(heap, taken, queue, i);
      var c, rest := Pop(queue);
      PickOne(heap, taken, queue, i, c);
      AppendNext(r, result, t, i);
      r := r + [c.value];
      queue := AddChildren(heap, rest, c.index);
      taken := taken + {c.index};
      i := i + 1;
    }
  }

  lemma PickSome(data: seq<int>, taken: set<nat>, queue: multiset<Candidate>, i: nat)
    requires HeapOrder(data) && Picked(data, taken, queue, i) && i < |data|
    ensures 0 < |queue| <= i + 1
  {
    hide HeapOrder, Closed, Holds, Rest, Sorted;
    NotEmpty(data, taken, queue);
  }
}
