/** DynamicBits, the summary bitmap, against the plain set of numbers it stands for. */
module DynamicBitSets {
  import opened Arith
  import opened Words
  import opened BitTower

  const UNSIGNED: nat := 0x1_0000_0000
  const SIZE: nat := 0x1_0000_0000_0000_0000
  const NOPOS: nat := 0xFFFF_FFFF_FFFF_FFFF
  const MAX_BITS: nat := 0x1_0000_0000

  /** `r` is the least member from `start` on, or 2^64 - 1 when there is none. */
  ghost predicate IsNext(s: set<nat>, start: nat, r: nat) {
    if r == 0xFFFF_FFFF_FFFF_FFFF then
      forall e :: e in s ==> e < start
    else
      r in s && start <= r && forall e :: e in s && start <= e ==> r <= e
  }

  /** `r` is the greatest member, or 2^64 - 1 when there is none. */
  ghost predicate IsLast(s: set<nat>, r: nat) {
    if r == 0xFFFF_FFFF_FFFF_FFFF then s == {} else r in s && forall e :: e in s ==> e <= r
  }

  // ---- The steps of find_next_set ----

  ghost predicate Pointing(bits: seq<Level>, nrBits: nat, level: nat, n: nat) {
    && level < |bits| && n < nrBits && n == Place(Down(n, level), level)
    && Down(n, level + 1) < |bits[level]| && Ahead(bits, level, n) != 0
  }

  lemma AlignUpPlace(n: nat, i: nat)
    ensures var up := AlignUp(n, Pow64(i));
            n <= up <= Place(Down(n, i) + 1, i) && up == Place(Down(up, i), i)
  {
    DownMeans(n, i);
    var up := AlignUp(n, Pow64(i));
    AlignUpMeans(n, Pow64(i));
    DownMeans(up, i);
    DivMod(up, Pow64(i));
  }

  lemma TopCovers(bits: seq<Level>, nrBits: nat)
    requires Tower(bits, nrBits) && nrBits > 0
    ensures bits != [] && |bits[|bits| - 1]| == 1 && nrBits <= Place(1, |bits|)
  {
    hide Has, Place, WordsFor, Linked;
    SizeMeans(bits, nrBits, |bits|);
  }

  /** Climbing: `n`, the start of a place on `level`, goes up to the start of a place on the next. */
  lemma Climb(bits: seq<Level>, nrBits: nat, level: nat, n: nat, up: nat)
    requires Tower(bits, nrBits) && level < |bits| && n < nrBits
    requires Down(n, level + 1) < |bits[level]| && Ahead(bits, level, n) == 0
    requires up == AlignUp(n, Pow64(level + 1))
    ensures n <= up && Bare(bits[0], n, up) && up == Place(Down(up, level + 1), level + 1)
    ensures level + 1 == |bits| ==> Bare(bits[0], n, nrBits)
  {
    hide Tower, Bare, Ahead, Pow64, AlignUp, Place, Down;
    AlignUpPlace(n, level + 1);
    NothingAhead(bits, nrBits, level, n, up);
    if level + 1 == |bits| {
      TopCovers(bits, nrBits);
      NothingAhead(bits, nrBits, level, n, nrBits);
    }
  }

  lemma PlaceOf(q: nat, i: nat)
    ensures Down(Place(q, i), i) == q
    ensures if i > 0 then Place(q, i) == Place(BITS * q, i - 1) else Place(q, 0) == q
  {
    DownMeans(q * Pow64(i), i);
    DivUnique(q * Pow64(i), Pow64(i), q, 0);
    PowStep(i);
  }

  lemma PlaceMono(q: nat, s: nat, i: nat)
    requires q <= s
    ensures Place(q, i) <= Place(s, i)
  {
    MulMono(Pow64(i), q, s);
  }

  lemma LandInside(bits: seq<Level>, nrBits: nat, level: nat, q: nat)
    requires Tower(bits, nrBits) && level < |bits| && Has(bits[level], q) && nrBits > 0
    ensures Place(q, level) < nrBits
  {
    hide Has, Place, WordsFor, Linked;
    assert Fits(bits[level], Size(bits, nrBits, level));
    SizeMeans(bits, nrBits, level);
    PlaceMono(q, Size(bits, nrBits, level) - 1, level);
  }

  lemma LandBelow(bits: seq<Level>, nrBits: nat, level: nat, q: nat, m: nat)
    requires Tower(bits, nrBits) && 0 < level < |bits| && Has(bits[level], q)
    requires m == Place(q, level) && m < nrBits
    ensures Pointing(bits, nrBits, level - 1, m)
  {
    hide Tower, Has, Place, From;
    Below(bits, nrBits, level, q);
    PlaceOf(q, level);
    PlaceOf(BITS * q, level - 1);
    AllAhead(bits[level - 1][q]);
  }

  lemma AllAhead(v: Word)
    requires v != 0
    ensures From(v, 0) != 0
  {
    hide Bit, From;
    var c := CountTrailingZeros(v);
    FromBit(v, 0, c);
    ZeroBit(c);
  }

  /** Landing: the jump stays below nrBits, and leads to a non-zero word of the level below. */
  lemma Land(bits: seq<Level>, nrBits: nat, level: nat, n: nat, m: nat)
    requires Tower(bits, nrBits) && Pointing(bits, nrBits, level, n)
    requires m == Place(Jump(bits, level, n), level)
    ensures n <= m < nrBits && Bare(bits[0], n, m)
    ensures level == 0 ==> Has(bits[0], m)
    ensures level > 0 ==> Pointing(bits, nrBits, level - 1, m)
  {
    var q := Jump(bits, level, n);
    hide Tower, Has, Bare, Place, Ahead, Jump, Down;
    JumpHas(bits, level, n);
    JumpBare(bits, nrBits, level, n, m);
    PlaceMono(Down(n, level), q, level);
    hide Pointing;
    LandInside(bits, nrBits, level, q);
    PlaceOf(q, level);
    if level > 0 { LandBelow(bits, nrBits, level, q, m); }
  }

  /** The low 32 bits: what is left of a number kept in an `unsigned`. */
  function ToUnsigned(n: nat): nat {
    n % UNSIGNED
  }

  // ---- Joining the loops to the levels ----

  ghost predicate Zeros(level: Level) {
    forall j :: 0 <= j < |level| ==> level[j] == 0
  }

  lemma AreZeros(level: Level)
    requires forall j :: 0 <= j < |level| ==> level[j] == 0
    ensures Zeros(level)
  {
  }

  /** The first `i` levels are in place, all zero. */
  ghost predicate Growing(all: seq<Level>, nrBits: nat, i: nat) {
    && i <= |all|
    && forall k :: 0 <= k < i ==> Zeros(all[k]) && |all[k]| == WordsFor(Size(all, nrBits, k))
  }

  lemma GrowNone(all: seq<Level>, nrBits: nat)
    ensures Growing(all, nrBits, 0) && Size(all, nrBits, 0) == nrBits
  {
  }

  lemma Grow(all: seq<Level>, nrBits: nat, i: nat, words: Level)
    requires Growing(all, nrBits, i) && i < |all|
    requires |words| == WordsFor(Size(all, nrBits, i)) && Zeros(words)
    ensures var next := all[i := words]; Growing(next, nrBits, i + 1) && Size(next, nrBits, i + 1) == |words|
  {
    hide Zeros, WordsFor;
    var next := all[i := words];
    forall k | 0 <= k < i + 1 ensures Zeros(next[k]) && |next[k]| == WordsFor(Size(next, nrBits, k)) {
      assert Size(next, nrBits, k) == Size(all, nrBits, k);
    }
  }

  lemma Grown(all: seq<Level>, nrBits: nat)
    requires Growing(all, nrBits, |all|) && all != [] && 0 < nrBits <= Pow64(|all|)
    ensures Tower(all, nrBits) && MembersOf(all, nrBits) == {}
  {
    hide Zeros, WordsFor, Has, Pow64, Tower;
    ZerosTower(all, nrBits);
  }

  lemma ZerosHas(level: Level)
    requires Zeros(level)
    ensures forall j: nat :: !Has(level, j)
  {
    forall j: nat ensures !Has(level, j) { ZeroBit(j % BITS); }
  }

  /** Levels of zero words make a tower without members, when there are as many as the formula says. */
  lemma ZerosTower(bits: seq<Level>, nrBits: nat)
    requires bits != [] && Sized(bits, nrBits) && 0 < nrBits <= Pow64(|bits|)
    requires forall i :: 0 <= i < |bits| ==> Zeros(bits[i])
    ensures Tower(bits, nrBits) && forall n: nat :: !Has(bits[0], n)
  {
    hide Has, Zeros, WordsFor, Pow64, Place;
    forall i | 0 <= i < |bits| ensures forall j: nat :: !Has(bits[i], j) { ZerosHas(bits[i]); }
    OneTopWord(bits, nrBits);
    forall i | 0 <= i < |bits| - 1 ensures Linked(bits[i], bits[i + 1]) { ZerosLinked(bits[i], bits[i + 1]); }
  }

  lemma ZerosLinked(lo: Level, hi: Level)
    requires Zeros(lo) && Zeros(hi)
    ensures Linked(lo, hi)
  {
    ZerosHas(hi);
  }

  lemma OneTopWord(bits: seq<Level>, nrBits: nat)
    requires bits != [] && Sized(bits, nrBits) && 0 < nrBits <= Pow64(|bits|)
    ensures |bits[|bits| - 1]| == 1
  {
    hide WordsFor, Place;
    var s := |bits[|bits| - 1]|;
    SizeMeans(bits, nrBits, |bits|);
    PlaceOne(|bits|);
    if s > 1 { PlaceMono(1, s - 1, |bits|); }
  }

  lemma PlaceOne(i: nat)
    ensures Place(1, i) == Pow64(i)
  {
  }

  lemma PlaceGrows(q: nat, i: nat)
    ensures q <= Place(q, i)
  {
    if q > 0 { MulMono(q, 1, Pow64(i)); }
  }

  lemma WordsSmall(size: nat)
    requires size <= MAX_BITS
    ensures WordsFor(size) <= size && ToUnsigned(WordsFor(size)) == WordsFor(size)
    ensures forall m: nat :: m < size ==> m / BITS < WordsFor(size) && ToUnsigned(m / BITS) == m / BITS
  {
  }

  lemma SizeSmall(bits: seq<Level>, nrBits: nat, i: nat)
    requires Sized(bits, nrBits) && nrBits > 0 && i <= |bits|
    ensures Size(bits, nrBits, i) <= nrBits
  {
    hide Place, WordsFor, Sized;
    SizeMeans(bits, nrBits, i);
    PlaceGrows(Size(bits, nrBits, i) - 1, i);
  }

  /** A word index fits an unsigned. */
  lemma ChangeIndex(bits: seq<Level>, nrBits: nat, level: nat, m: nat)
    requires Shaped(bits, nrBits) && 1 <= nrBits <= MAX_BITS && level < |bits| && m < Size(bits, nrBits, level)
    ensures m / BITS < |bits[level]| && ToUnsigned(m / BITS) == m / BITS
  {
    hide Has, WordsFor, ToUnsigned;
    assert Fits(bits[level], Size(bits, nrBits, level));
    SizeSmall(bits, nrBits, level);
    WordsSmall(Size(bits, nrBits, level));
  }

  /** Where the loops of find_first_set and find_last_set stand before level i - 1. */
  lemma Reached(bits: seq<Level>, nrBits: nat, i: nat, pos: nat)
    requires Tower(bits, nrBits) && 0 < i <= |bits|
    requires if i == |bits| then pos == 0 else Has(bits[i], pos)
    ensures pos < |bits[i - 1]| && (i < |bits| ==> bits[i - 1][pos] != 0)
  {
    if i < |bits| {
      Below(bits, nrBits, i, pos);
    }
  }

  lemma TowerTop(bits: seq<Level>, nrBits: nat)
    requires Tower(bits, nrBits)
    ensures bits != [] && |bits[|bits| - 1]| == 1
  {
  }

  lemma TopFrom(bits: seq<Level>, nrBits: nat)
    requires Tower(bits, nrBits)
    ensures bits != [] && AllFrom(bits, |bits|, 0) && AllTo(bits, |bits|, 0)
  {
    hide Tower, Has, Bit, Down;
    TowerTop(bits, nrBits);
    forall e: nat | Has(bits[0], e) ensures Down(e, |bits|) == 0 {
      Inside(bits, nrBits, |bits| - 1, e);
    }
  }

  /** The climb's word is on its level. */
  lemma TowerInside(bits: seq<Level>, nrBits: nat, level: nat, n: nat)
    requires Tower(bits, nrBits) && level < |bits| && n < nrBits
    ensures Down(n, level + 1) < |bits[level]|
  {
    hide Has, WordsFor, Linked, Down;
    WordInside(bits, nrBits, level, n);
  }

  lemma AlignDownPlace(n: nat, i: nat)
    ensures AlignDown(n, Pow64(i)) == Place(Down(n, i), i)
  {
    DownMeans(n, i);
  }

  lemma PlaceSplit(w: nat, c: nat, i: nat)
    ensures Place(w, i + 1) + Place(c, i) == Place(BITS * w + c, i)
  {
    PlaceOf(w, i + 1);
    Distribute(Pow64(i), BITS * w, c);
  }

  /** Aligning down and adding the shifted bit number lands on the jump, with nothing lost in 32 bits. */
  lemma Truncated(bits: seq<Level>, nrBits: nat, level: nat, n: nat)
    requires Tower(bits, nrBits) && Pointing(bits, nrBits, level, n) && nrBits <= MAX_BITS
    ensures var c := CountTrailingZeros(Ahead(bits, level, n));
            && Place(c, level) < 0x1_0000_0000
            && Place(Down(n, level + 1), level + 1) + ToUnsigned(Place(c, level)) == Place(Jump(bits, level, n), level)
  {
    hide Tower, Has, Place, Ahead, Down;
    var c := CountTrailingZeros(Ahead(bits, level, n));
    JumpHas(bits, level, n);
    LandInside(bits, nrBits, level, Jump(bits, level, n));
    PlaceSplit(Down(n, level + 1), c, level);
  }

  ghost function MembersOf(bits: seq<Level>, nrBits: nat): set<nat>
    requires bits != []
  {
    set n: nat | n < nrBits && Has(bits[0], n)
  }

  lemma FirstFits(bits: seq<Level>, nrBits: nat, n: nat)
    requires Tower(bits, nrBits)
    ensures n in MembersOf(bits, nrBits) <==> Has(bits[0], n)
  {
    hide Has;
    assert Fits(bits[0], nrBits);
  }

  lemma FoundNext(bits: seq<Level>, nrBits: nat, start: nat, n: nat)
    requires Tower(bits, nrBits) && nrBits <= MAX_BITS
    requires Bare(bits[0], start, n) && Has(bits[0], n) && start <= n
    ensures IsNext(MembersOf(bits, nrBits), start, n)
  {
    hide Has, Tower;
    FirstFits(bits, nrBits, n);
  }

  lemma FoundNone(bits: seq<Level>, nrBits: nat, start: nat, n: nat)
    requires Tower(bits, nrBits)
    requires Bare(bits[0], start, n) && n >= nrBits
    ensures IsNext(MembersOf(bits, nrBits), start, NOPOS)
  {
    hide Has, Tower;
  }

  lemma FoundEnd(bits: seq<Level>, nrBits: nat, pos: nat)
    requires Tower(bits, nrBits) && nrBits <= MAX_BITS && Has(bits[0], pos)
    ensures AllFrom(bits, 0, pos) ==> IsNext(MembersOf(bits, nrBits), 0, pos)
    ensures AllTo(bits, 0, pos) ==> IsLast(MembersOf(bits, nrBits), pos)
  {
    hide Has, Tower;
    FirstFits(bits, nrBits, pos);
  }

  lemma FoundEmpty(bits: seq<Level>, nrBits: nat)
    requires Tower(bits, nrBits) && bits[|bits| - 1][0] == 0
    ensures IsNext(MembersOf(bits, nrBits), 0, NOPOS) && IsLast(MembersOf(bits, nrBits), NOPOS)
  {
    EmptyTop(bits, nrBits);
    hide Has, Tower;
    assert MembersOf(bits, nrBits) == {};
  }

  lemma NextStart(bits: seq<Level>, nrBits: nat, n: nat)
    requires Tower(bits, nrBits)
    ensures bits != [] && Bare(bits[0], n, n) && n == Place(Down(n, 0), 0)
  {
    hide Has;
    PlaceZero(n);
  }

  lemma Point(bits: seq<Level>, nrBits: nat, level: nat, n: nat)
    requires level < |bits| && n < nrBits && n == Place(Down(n, level), level)
    requires Down(n, level + 1) < |bits[level]| && Ahead(bits, level, n) != 0
    ensures Pointing(bits, nrBits, level, n)
  {
  }

  lemma BareJoin(level: Level, a: nat, b: nat, c: nat)
    requires Bare(level, a, b) && Bare(level, b, c)
    ensures Bare(level, a, c)
  {
  }

  lemma ChangeStart(bits: seq<Level>, nrBits: nat, n: nat, add: bool)
    requires Tower(bits, nrBits) && n < nrBits
    ensures bits != [] && Changing(bits, bits, nrBits, n, add, 0, n)
  {
    hide Linked;
  }

  lemma ChangeEnd(was: seq<Level>, now: seq<Level>, nrBits: nat, n: nat, add: bool, m: nat)
    requires Changing(was, now, nrBits, n, add, |now|, m)
    ensures Tower(now, nrBits) && Changed(was[0], now[0], n, add)
  {
    hide Linked;
  }

  lemma MembersChanged(was: seq<Level>, now: seq<Level>, nrBits: nat, n: nat, add: bool)
    requires was != [] && now != [] && n < nrBits && Changed(was[0], now[0], n, add)
    ensures MembersOf(now, nrBits) == if add then MembersOf(was, nrBits) + {n} else MembersOf(was, nrBits) - {n}
  {
    hide Has;
  }

  lemma MembersBelow(bits: seq<Level>, nrBits: nat)
    requires Tower(bits, nrBits)
    ensures bits != [] && forall e :: e in MembersOf(bits, nrBits) ==> e < nrBits
  {
  }

  /** The members below `start`, in ascending order. */
  ghost predicate VisitedTo(visited: seq<nat>, members: set<nat>, start: nat) {
    && (forall i, j :: 0 <= i < j < |visited| ==> visited[i] < visited[j])
    && (forall i :: 0 <= i < |visited| ==> visited[i] < start)
    && (forall e :: e in visited <==> e in members && e < start)
  }

  lemma NoneVisited(members: set<nat>)
    ensures VisitedTo([], members, 0)
  {
  }

  lemma VisitMore(visited: seq<nat>, members: set<nat>, start: nat, n: nat)
    requires VisitedTo(visited, members, start) && IsNext(members, start, n) && n != 0xFFFF_FFFF_FFFF_FFFF
    ensures n in members && start <= n && VisitedTo(visited + [n], members, n + 1)
  {
    var more := visited + [n];
    forall e ensures e in more <==> e in members && e < n + 1 {
      assert e in more <==> e in visited || e == n;
    }
  }

  lemma VisitedAll(visited: seq<nat>, members: set<nat>, start: nat)
    requires VisitedTo(visited, members, start) && IsNext(members, start, 0xFFFF_FFFF_FFFF_FFFF)
    ensures forall i, j :: 0 <= i < j < |visited| ==> visited[i] < visited[j]
    ensures forall e :: e in visited <==> e in members
  {
  }

  class DynamicBits {
    var bits: seq<Level>
    const nrBits: nat

    ghost predicate Valid()
      reads this
    {
      1 <= nrBits <= MAX_BITS && Tower(bits, nrBits)
    }

    /** The set of numbers the bitmap stands for. */
    ghost function Members(): set<nat>
      requires Valid()
      reads this
    {
      MembersOf(bits, nrBits)
    }

    /** Starts empty, on as many levels as needed for one word at the top. */
    constructor (nrBits: nat)
      requires 1 <= nrBits <= 0x1_0000_0000
      ensures this.nrBits == nrBits && Valid() && Members() == {}
      ensures nrBits <= Pow64(|bits|) && (|bits| == 1 || Pow64(|bits| - 1) < nrBits)
    {
      hide Growing, Zeros, Tower, Pow64, LevelCount, WordsFor, ToUnsigned, Size, MembersOf;
      LevelCountMeans(nrBits);
      var levels := LevelCount(nrBits);
      var all: seq<Level> := seq(levels, i => []);
      var levelBits := nrBits;
      var i: nat := 0;
      GrowNone(all, nrBits);
      while i != levels
        invariant i <= levels == |all|
        invariant levelBits == Size(all, nrBits, i) && levelBits <= MAX_BITS
        invariant Growing(all, nrBits, i)
        decreases levels - i
      {
        WordsSmall(levelBits);
        var levelWords := ToUnsigned(WordsFor(levelBits));
        var words := seq(levelWords, j => 0);
        AreZeros(words);
        Grow(all, nrBits, i, words);
        all := all[i := words];
        levelBits := levelWords;
        i := i + 1;
      }
      Grown(all, nrBits);
      this.nrBits := nrBits;
      this.bits := all;
    }

    predicate Test(n: nat): (r: bool)
      requires Valid() && n < nrBits
      reads this
      ensures r == (n in Members())
    {
      assert Fits(bits[0], nrBits);
      HasBitBit(bits[0][n / BITS], n % BITS);
      HasBit(bits[0][n / BITS], n % BITS)
    }

    method Set(n: nat)
      requires Valid() && n < nrBits
      modifies this
      ensures Valid() && Members() == old(Members()) + {n}
    {
      ghost var was := bits;
      hide Tower, Shaped, Has, WithBit, WithoutBit, ToUnsigned, MembersOf;
      var m: nat := n;
      var level: nat := 0;
      ChangeStart(bits, nrBits, n, true);
      while level < |bits|
        invariant level <= |bits|
        invariant Changing(was, bits, nrBits, n, true, level, m)
      {
        ChangeIndex(bits, nrBits, level, m);
        var idx := ToUnsigned(m / BITS);
        var o := bits[level][idx];
        ghost var now := bits;
        bits := bits[level := bits[level][idx := WithBit(o, m % BITS)]];
        ChangeStep(was, now, nrBits, n, true, level, m, bits);
        WithBitNonZero(o, m % BITS);
        if o != 0 {
          break;
        }
        m := idx;
        level := level + 1;
      }
      if level == |bits| { ChangeEnd(was, bits, nrBits, n, true, m); }
      MembersChanged(was, bits, nrBits, n, true);
    }

    method Clear(n: nat)
      requires Valid() && n < nrBits
      modifies this
      ensures Valid() && Members() == old(Members()) - {n}
    {
      ghost var was := bits;
      hide Tower, Shaped, Has, WithBit, WithoutBit, ToUnsigned, MembersOf;
      var m: nat := n;
      var level: nat := 0;
      ChangeStart(bits, nrBits, n, false);
      while level < |bits|
        invariant level <= |bits|
        invariant Changing(was, bits, nrBits, n, false, level, m)
      {
        ChangeIndex(bits, nrBits, level, m);
        var idx := ToUnsigned(m / BITS);
        var o := bits[level][idx];
        ghost var now := bits;
        bits := bits[level := bits[level][idx := WithoutBit(o, m % BITS)]];
        ChangeStep(was, now, nrBits, n, false, level, m, bits);
        WithoutBitZero(m % BITS);
        if o == 0 || bits[level][idx] != 0 {
          break;
        }
        m := idx;
        level := level + 1;
      }
      if level == |bits| { ChangeEnd(was, bits, nrBits, n, false, m); }
      MembersChanged(was, bits, nrBits, n, false);
    }

    method FindFirstSet() returns (pos: nat)
      requires Valid()
      ensures IsNext(Members(), 0, pos)
    {
      hide Tower, Has, Bit, Down, CountTrailingZeros, HighestBit;
      TopFrom(bits, nrBits);
      pos := 0;
      var i: nat := |bits|;
      while i > 0
        invariant 0 <= i <= |bits|
        invariant AllFrom(bits, i, pos)
        invariant if i == |bits| then pos == 0 else Has(bits[i], pos)
      {
        Reached(bits, nrBits, i, pos);
        i := i - 1;
        var v := bits[i][pos];
        if v != 0 { DescendFirst(bits, nrBits, i, pos); } else { FoundEmpty(bits, nrBits); }
        pos := pos * BITS;
        if v != 0 {
          pos := pos + CountTrailingZeros(v);
        } else {
          return NOPOS;
        }
      }
      FoundEnd(bits, nrBits, pos);
    }

    method FindLastSet() returns (pos: nat)
      requires Valid()
      ensures IsLast(Members(), pos)
    {
      hide Tower, Has, Bit, Down, CountTrailingZeros, HighestBit;
      TopFrom(bits, nrBits);
      pos := 0;
      var i: nat := |bits|;
      while i > 0
        invariant 0 <= i <= |bits|
        invariant AllTo(bits, i, pos)
        invariant if i == |bits| then pos == 0 else Has(bits[i], pos)
      {
        Reached(bits, nrBits, i, pos);
        i := i - 1;
        var v := bits[i][pos];
        if v != 0 { DescendLast(bits, nrBits, i, pos); } else { FoundEmpty(bits, nrBits); }
        pos := pos * BITS;
        if v != 0 {
          pos := pos + BITS - 1 - CountLeadingZeros(v);
        } else {
          return NOPOS;
        }
      }
      FoundEnd(bits, nrBits, pos);
    }

    /** The least member above `n`; 2^64 - 1 starts from 0. */
    method FindNextSet(n: nat) returns (r: nat)
      requires Valid() && n < 0x1_0000_0000_0000_0000
      ensures IsNext(Members(), (n + 1) % 0x1_0000_0000_0000_0000, r)
    {
      hide Tower, Has, Bare, Down, Place, Pow64, Ahead, Jump, AlignUp, AlignDown, CountTrailingZeros;
      var m := (n + 1) % SIZE;
      ghost var start := m;
      var level: nat := 0;
      NextStart(bits, nrBits, m);
      while level != |bits|
        invariant level <= |bits|
        invariant start <= m && Bare(bits[0], start, m)
        invariant m == Place(Down(m, level), level)
        invariant level == |bits| ==> Bare(bits[0], start, nrBits)
        decreases |bits| - level
      {
        if m >= nrBits {
          FoundNone(bits, nrBits, start, m);
          return NOPOS;
        }
        TowerInside(bits, nrBits, level, m);
        var v := Ahead(bits, level, m);
        if v != 0 {
          Point(bits, nrBits, level, m);
          break;
        }
        level := level + 1;
        ghost var up := AlignUp(m, Pow64(level));
        Climb(bits, nrBits, level - 1, m, up);
        BareJoin(bits[0], start, m, up);
        if level == |bits| { BareJoin(bits[0], start, m, nrBits); }
        m := AlignUp(m, Pow64(level));
      }
      if level == |bits| {
        FoundNone(bits, nrBits, start, nrBits);
        return NOPOS;
      }
      while true
        invariant start <= m && Bare(bits[0], start, m)
        invariant Pointing(bits, nrBits, level, m)
        decreases level
      {
        var v := Ahead(bits, level, m);
        Truncated(bits, nrBits, level, m);
        AlignDownPlace(m, level + 1);
        ghost var next := Place(Jump(bits, level, m), level);
        Land(bits, nrBits, level, m, next);
        BareJoin(bits[0], start, m, next);
        m := AlignDown(m, Pow64(level + 1));
        m := m + ToUnsigned(Place(CountTrailingZeros(v), level));
        if level == 0 {
          break;
        }
        level := level - 1;
      }
      FoundNext(bits, nrBits, start, m);
      return m;
    }

    /** Asking for the next member from nopos on visits every member once, in ascending order. */
    method Scan() returns (visited: seq<nat>)
      requires Valid()
      ensures forall i, j :: 0 <= i < j < |visited| ==> visited[i] < visited[j]
      ensures forall e :: e in visited <==> e in Members()
    {
      hide Tower, MembersOf, VisitedTo, IsNext;
      ghost var members := Members();
      MembersBelow(bits, nrBits);
      NoneVisited(members);
      visited := [];
      var n: nat := NOPOS;
      ghost var start: nat := 0;
      while true
        invariant n < SIZE && start == (n + 1) % SIZE && start <= nrBits
        invariant VisitedTo(visited, members, start)
        decreases nrBits - start
      {
        n := FindNextSet(n);
        if n == 0xFFFF_FFFF_FFFF_FFFF {
          break;
        }
        VisitMore(visited, members, start, n);
        visited := visited + [n];
        start := n + 1;
      }
      VisitedAll(visited, members, start);
    }
  }
}
