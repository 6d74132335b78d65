/** The tower of levels behind DynamicBits: level 0 holds the bits, and each further level has one
    bit for each word of the level below, set when that word is not zero. */
module BitTower {
  import opened Arith
  import opened Words

  const BITS: nat := 64

  type Level = seq<Word>

  function Pow64(i: nat): (p: nat)
    ensures p > 0
  {
    if i == 0 then 1 else BITS * Pow64(i - 1)
  }

  /** Bit number `j` of a level. */
  predicate Has(level: Level, j: nat) {
    j / BITS < |level| && Bit(level[j / BITS], j % BITS)
  }

  /** The words that `size` bits take. */
  function WordsFor(size: nat): nat {
    (size + BITS - 1) / BITS
  }

  ghost predicate Fits(level: Level, size: nat) {
    && |level| == WordsFor(size)
    && forall j: nat :: Has(level, j) ==> j < size
  }

  ghost predicate Linked(lo: Level, hi: Level) {
    forall j: nat :: j < |lo| ==> Has(hi, j) == (lo[j] != 0)
  }

  ghost predicate LinkedBut(lo: Level, hi: Level, m: nat) {
    forall j: nat :: j < |lo| && j != m ==> Has(hi, j) == (lo[j] != 0)
  }

  function Size(bits: seq<Level>, nrBits: nat, i: nat): nat
    requires i <= |bits|
  {
    if i == 0 then nrBits else |bits[i - 1]|
  }

  /** The levels have the right sizes, the last has one word, and no bit is set past the end. */
  ghost predicate Shaped(bits: seq<Level>, nrBits: nat) {
    && bits != [] && |bits[|bits| - 1]| == 1
    && forall i :: 0 <= i < |bits| ==> Fits(bits[i], Size(bits, nrBits, i))
  }

  ghost predicate Tower(bits: seq<Level>, nrBits: nat) {
    && Shaped(bits, nrBits)
    && forall i :: 0 <= i < |bits| - 1 ==> Linked(bits[i], bits[i + 1])
  }

  // ---- Changing one bit ----

  /** The level with bit `m` set or cleared. */
  function Put(level: Level, m: nat, add: bool): (r: Level)
    requires m / BITS < |level|
    ensures |r| == |level|
  {
    var word := level[m / BITS];
    level[m / BITS := if add then WithBit(word, m % BITS) else WithoutBit(word, m % BITS)]
  }

  lemma PutHas(level: Level, m: nat, add: bool)
    requires m / BITS < |level|
    ensures forall j: nat :: Has(Put(level, m, add), j) == (if j == m then add else Has(level, j))
  {
    hide Bit, WithBit, WithoutBit;
    forall j: nat ensures Has(Put(level, m, add), j) == (if j == m then add else Has(level, j)) {
      if j / BITS == m / BITS {
        WithBitBit(level[m / BITS], m % BITS, j % BITS);
        WithoutBitBit(level[m / BITS], m % BITS, j % BITS);
      }
    }
  }

  /** How far a change of bit `n` has got: the levels below `level` are done, and the link into
      `level` is still wrong at `m`. */
  ghost predicate Changing(was: seq<Level>, now: seq<Level>, nrBits: nat, n: nat, add: bool, level: nat, m: nat) {
    && level <= |now| == |was|
    && Shaped(now, nrBits)
    && (forall i :: 0 <= i < |now| - 1 && i != level - 1 ==> Linked(now[i], now[i + 1]))
    && m < Size(now, nrBits, level)
    && (level == 0 ==> now == was && m == n)
    && (level > 0 ==> Changed(was[0], now[0], n, add))
    && (0 < level < |now| ==> LinkedBut(now[level - 1], now[level], m) && (now[level - 1][m] != 0) == add)
  }

  ghost predicate Changed(was: Level, now: Level, n: nat, add: bool) {
    forall j: nat :: Has(now, j) == (if j == n then add else Has(was, j))
  }

  lemma PutFits(level: Level, m: nat, add: bool, size: nat)
    requires Fits(level, size) && m < size
    ensures m / BITS < |level| && Fits(Put(level, m, add), size)
  {
    hide Has;
    PutHas(level, m, add);
  }

  lemma PutBelow(lo: Level, level: Level, m: nat, add: bool)
    requires m < |lo| && m / BITS < |level|
    requires LinkedBut(lo, level, m) && (lo[m] != 0) == add
    ensures Linked(lo, Put(level, m, add))
  {
    hide Has, Put;
    PutHas(level, m, add);
  }

  lemma PutAbove(level: Level, hi: Level, m: nat, add: bool)
    requires m / BITS < |level| && Linked(level, hi)
    ensures var next, k := Put(level, m, add), m / BITS;
            && LinkedBut(next, hi, k)
            && ((level[k] != 0) == (next[k] != 0) ==> Linked(next, hi))
  {
    hide Has, WithBit, WithoutBit;
  }

  lemma ChangeShape(now: seq<Level>, nrBits: nat, level: nat, m: nat, add: bool)
    requires Shaped(now, nrBits) && level < |now| && m < Size(now, nrBits, level)
    ensures m / BITS < |now[level]| && Shaped(now[level := Put(now[level], m, add)], nrBits)
  {
    hide Fits;
    assert Fits(now[level], Size(now, nrBits, level));
    PutFits(now[level], m, add, Size(now, nrBits, level));
    var next := now[level := Put(now[level], m, add)];
    forall i | 0 <= i < |next| ensures Fits(next[i], Size(next, nrBits, i)) {
      assert Fits(now[i], Size(now, nrBits, i));
      assert Size(next, nrBits, i) == Size(now, nrBits, i);
    }
  }

  lemma ChangeLinks(was: seq<Level>, now: seq<Level>, nrBits: nat, n: nat, add: bool, level: nat, m: nat, i: nat)
    requires Changing(was, now, nrBits, n, add, level, m) && level < |now| && i < |now| - 1
    requires m / BITS < |now[level]|
    ensures var next, k := now[level := Put(now[level], m, add)], m / BITS;
            if i == level then
              && LinkedBut(next[i], next[i + 1], k)
              && ((now[level][k] != 0) == (next[level][k] != 0) ==> Linked(next[i], next[i + 1]))
            else
              Linked(next[i], next[i + 1])
  {
    hide Shaped, Linked, LinkedBut, Put, Changed;
    if i == level {
      PutAbove(now[i], now[i + 1], m, add);
    } else if i == level - 1 {
      PutBelow(now[i], now[level], m, add);
    }
  }

  /** One round of the loops of set and clear: the change is over when the word was and stays zero
      or was and stays non-zero, and goes up a level otherwise. */
  lemma ChangeStep(
    was: seq<Level>, now: seq<Level>, nrBits: nat, n: nat, add: bool, level: nat, m: nat, next: seq<Level>)
    requires Changing(was, now, nrBits, n, add, level, m) && level < |now|
    requires m / BITS < |now[level]|
    requires next == now[level := Put(now[level], m, add)]
    ensures Shaped(next, nrBits)
    ensures Changed(was[0], next[0], n, add)
    ensures var o, w := now[level][m / BITS], next[level][m / BITS];
            if (o != 0) == (w != 0) then Tower(next, nrBits)
            else (w != 0) == add ==> Changing(was, next, nrBits, n, add, level + 1, m / BITS)
  {
    hide Linked, LinkedBut, Shaped, Put;
    ChangeShape(now, nrBits, level, m, add);
    ChangeFirst(was, now, n, add, level, m);
    forall i: nat | i < |now| - 1
      ensures i != level || (now[level][m / BITS] != 0) == (next[level][m / BITS] != 0) ==> Linked(next[i], next[i + 1])
      ensures i == level ==> LinkedBut(next[i], next[i + 1], m / BITS)
    {
      ChangeLinks(was, now, nrBits, n, add, level, m, i);
    }
  }

  lemma ChangeFirst(was: seq<Level>, now: seq<Level>, n: nat, add: bool, level: nat, m: nat)
    requires level < |now| == |was| && m / BITS < |now[level]|
    requires if level == 0 then now == was && m == n else Changed(was[0], now[0], n, add)
    ensures Changed(was[0], now[level := Put(now[level], m, add)][0], n, add)
  {
    hide Has, Put;
    PutHas(now[level], m, add);
  }

  // ---- What the levels say about the bits ----

  /** n >> (6 * i): the place of bit `n` on level `i`. */
  function Down(n: nat, i: nat): nat {
    if i == 0 then n else Down(n, i - 1) / BITS
  }

  lemma {:induction false} DownMeans(n: nat, i: nat)
    ensures Down(n, i) == n / Pow64(i)
  {
    if i == 0 {
    } else {
      DownMeans(n, i - 1);
      DivDiv(n, Pow64(i - 1), BITS);
    }
  }

  lemma HasWord(level: Level, j: nat)
    requires Has(level, j)
    ensures j / BITS < |level| && level[j / BITS] != 0
  {
    ZeroBit(j % BITS);
  }

  /** Every set bit is marked on every level. */
  lemma {:induction false} Marked(bits: seq<Level>, nrBits: nat, e: nat, i: nat)
    requires Tower(bits, nrBits) && Has(bits[0], e) && i < |bits|
    ensures Has(bits[i], Down(e, i))
    decreases i
  {
    hide Has, Shaped;
    if i == 0 {
    } else {
      Marked(bits, nrBits, e, i - 1);
      HasWord(bits[i - 1], Down(e, i - 1));
      assert Linked(bits[i - 1], bits[i]);
    }
  }

  /** Every mark on a level stands for a set bit. */
  lemma {:induction false} Backed(bits: seq<Level>, nrBits: nat, i: nat, j: nat) returns (e: nat)
    requires Tower(bits, nrBits) && i < |bits| && Has(bits[i], j)
    ensures Has(bits[0], e) && Down(e, i) == j
    decreases i
  {
    hide Bit, Tower;
    e := j;
    if i == 0 {
    } else {
      Below(bits, nrBits, i, j);
      var p := BITS * j + CountTrailingZeros(bits[i - 1][j]);
      e := Backed(bits, nrBits, i - 1, p);
    }
  }

  /** Bit `j` of level `i` is set exactly when some set bit has that place: the bits of level 0
      decide all the others. */
  lemma MarkedIff(bits: seq<Level>, nrBits: nat, i: nat, j: nat)
    requires Tower(bits, nrBits) && i < |bits|
    ensures Has(bits[i], j) <==> exists e: nat :: Has(bits[0], e) && Down(e, i) == j
  {
    hide Has, Tower;
    if Has(bits[i], j) {
      var e := Backed(bits, nrBits, i, j);
    } else if e: nat :| Has(bits[0], e) && Down(e, i) == j {
      Marked(bits, nrBits, e, i);
    }
  }

  /** No bit from `a` up to but not including `b`. */
  ghost predicate Bare(level: Level, a: nat, b: nat) {
    forall e: nat :: a <= e < b ==> !Has(level, e)
  }

  // ---- Sizes ----

  ghost predicate Sized(bits: seq<Level>, nrBits: nat) {
    forall i :: 0 <= i < |bits| ==> |bits[i]| == WordsFor(Size(bits, nrBits, i))
  }

  lemma CeilChain(n: nat, s: nat, b: nat, p: nat)
    requires n > 0 && b == WordsFor(s)
    requires p * (s - 1) < n <= p * s
    ensures (BITS * p) * (b - 1) < n <= (BITS * p) * b
  {
    Regroup(p, BITS, b);
    Regroup(p, BITS, b - 1);
    MulMono(p, BITS * (b - 1), s - 1);
    MulMono(p, s, BITS * b);
  }

  /** The first bit number whose place on level `i` is `q`. */
  function Place(q: nat, i: nat): nat {
    q * Pow64(i)
  }

  /** Level `i` has just enough words for `nrBits` bits. */
  lemma {:induction false} SizeMeans(bits: seq<Level>, nrBits: nat, i: nat)
    requires Sized(bits, nrBits) && nrBits > 0 && i <= |bits|
    ensures var s := Size(bits, nrBits, i); s > 0 && Place(s - 1, i) < nrBits <= Place(s, i)
  {
    hide WordsFor, Place;
    if i > 0 {
      SizeMeans(bits, nrBits, i - 1);
      PlaceChain(nrBits, Size(bits, nrBits, i - 1), |bits[i - 1]|, i);
    } else {
      PlaceZero(nrBits);
    }
  }

  lemma PlaceZero(q: nat)
    ensures Place(q, 0) == q && (q > 0 ==> Place(q - 1, 0) == q - 1)
  {
  }

  lemma PlaceChain(n: nat, s: nat, b: nat, i: nat)
    requires i > 0 && s > 0 && b == WordsFor(s) && Place(s - 1, i - 1) < n <= Place(s, i - 1)
    ensures b > 0 && Place(b - 1, i) < n <= Place(b, i)
  {
    hide Pow64;
    PowStep(i);
    CeilChain(n, s, b, Pow64(i - 1));
  }

  lemma PowStep(i: nat)
    ensures Pow64(i) == if i == 0 then 1 else BITS * Pow64(i - 1)
  {
  }

  lemma DivBelow(n: nat, p: nat, s: nat)
    requires p > 0 && n < p * s
    ensures n / p < s
  {
    DivMod(n, p);
    if n / p >= s { MulMono(p, s, n / p); }
  }

  /** The word that holds the place of bit `n` is on the level. */
  lemma WordInside(bits: seq<Level>, nrBits: nat, level: nat, n: nat)
    requires Sized(bits, nrBits) && level < |bits| && n < nrBits
    ensures Down(n, level + 1) < |bits[level]|
  {
    hide Place, WordsFor, Down;
    SizeMeans(bits, nrBits, level + 1);
    BeforePlace(n, |bits[level]|, level + 1);
  }

  lemma BeforePlace(e: nat, q: nat, i: nat)
    requires e < Place(q, i)
    ensures Down(e, i) < q
  {
    DownMeans(e, i);
    DivBelow(e, Pow64(i), q);
  }

  function BitLength(x: nat): nat {
    if x == 0 then 0 else BitLength(x / 2) + 1
  }

  /** Digits minus leading zeros of x - 1. */
  function Log2Ceil(x: nat): nat
    requires x > 0
  {
    if x == 1 then 0 else BitLength(x - 1)
  }

  lemma {:induction false} BitLengthIs(v: Word)
    requires v != 0
    ensures BitLength(Val(v)) == HighestBit(v) + 1
    decreases v
  {
    HalfSmaller(v);
    ValStep(v);
    ValZero();
    LoneOne();
    var h := Half(v);
    if v == 1 {
      assert h == 0 && Low(v);
      assert BitLength(1) == BitLength(0) + 1;
    } else {
      assert h != 0;
      BitLengthIs(h);
      assert Val(v) / 2 == Val(h);
      BitLengthMeans(Val(h));
    }
  }

  /** log2ceil as the code computes it: the 64 digits of a size_t less the leading zeros of x - 1. */
  lemma Log2CeilIs(v: Word)
    requires v != 0
    ensures Log2Ceil(Val(v) + 1) == 64 - CountLeadingZeros(v)
  {
    BitLengthIs(v);
    BitLengthMeans(Val(v));
    hide Val, HighestBit;
    assert BitLength(0) == 0;
    assert Val(v) > 0;
  }

  /** align_up: adding align - 1 and clearing the bits below align. */
  function AlignUp(n: nat, align: nat): nat
    requires align > 0
  {
    (n + align - 1) / align * align
  }

  /** align_down: clearing the bits below align. */
  function AlignDown(n: nat, align: nat): nat
    requires align > 0
  {
    n / align * align
  }

  lemma AlignUpMeans(n: nat, align: nat)
    requires align > 0
    ensures var r := AlignUp(n, align);
            r >= n && r % align == 0 && r <= (n / align + 1) * align && r < n + align
  {
    var q := (n + align - 1) / align;
    DivMod(n + align - 1, align);
    DivMod(n, align);
    DivUnique(q * align, align, q, 0);
    Distribute(align, n / align, 1);
    if q > n / align + 1 { MulMono(align, n / align + 2, q); Distribute(align, n / align, 2); }
    MulMono(align, q, n / align + 1);
  }

  function LevelCount(nrBits: nat): nat
    requires nrBits > 0
  {
    (Log2Ceil(AlignUp(nrBits, BITS)) + 5) / 6
  }

  lemma {:induction false} BitLengthMeans(x: nat)
    ensures x < Pow2(BitLength(x))
    ensures x > 0 ==> BitLength(x) > 0 && Pow2(BitLength(x) - 1) <= x
  {
    if x == 0 {
    } else {
      BitLengthMeans(x / 2);
    }
  }

  lemma {:induction false} Pow64Is(i: nat)
    ensures Pow64(i) == Pow2(6 * i)
  {
    if i == 0 {
    } else {
      Pow64Is(i - 1);
      var p := Pow2(6 * i - 6);
      assert Pow2(6 * i - 5) == 2 * p && Pow2(6 * i - 4) == 2 * Pow2(6 * i - 5);
      assert Pow2(6 * i - 3) == 2 * Pow2(6 * i - 4) && Pow2(6 * i - 2) == 2 * Pow2(6 * i - 3);
      assert Pow2(6 * i - 1) == 2 * Pow2(6 * i - 2);
    }
  }

  lemma CeilSixth(b: nat)
    ensures var l := (b + 5) / 6;
            b <= 6 * l && (b > 0 ==> l > 0) && (l > 1 ==> 6 * (l - 1) <= b - 1)
  {
  }

  lemma LevelsEnough(a: nat, levels: nat)
    requires a > 1 && levels == (BitLength(a - 1) + 5) / 6
    ensures levels > 0 && a <= Pow64(levels)
  {
    hide Pow2, BitLength, Pow64;
    var b := BitLength(a - 1);
    CeilSixth(b);
    BitLengthMeans(a - 1);
    Pow64Is(levels);
    Pow2Grows(b, 6 * levels);
  }

  lemma LevelsNeeded(a: nat, levels: nat)
    requires a > 1 && levels == (BitLength(a - 1) + 5) / 6 && levels > 1
    ensures Pow64(levels - 1) < a
  {
    hide Pow2, BitLength, Pow64;
    var b := BitLength(a - 1);
    CeilSixth(b);
    BitLengthMeans(a - 1);
    Pow64Is(levels - 1);
    Pow2Grows(6 * (levels - 1), b - 1);
  }

  /** The level formula of the constructor: as many levels as one top word needs, and no more. */
  lemma LevelCountMeans(nrBits: nat)
    requires nrBits > 0
    ensures var levels := LevelCount(nrBits);
            && levels > 0 && nrBits <= Pow64(levels)
            && (levels == 1 || Pow64(levels - 1) < nrBits)
  {
    hide Pow64, BitLength;
    var a := AlignUp(nrBits, BITS);
    var levels := LevelCount(nrBits);
    LevelsEnough(a, levels);
    if levels > 1 {
      LevelsNeeded(a, levels);
      PowStep(levels - 1);
      Multiple(a, Pow64(levels - 2));
    }
  }

  lemma Multiple(a: nat, p: nat)
    requires a % BITS == 0 && BITS * p < a
    ensures BITS * p <= a - BITS
  {
  }

  // ---- Searching ----

  lemma {:induction false} DownMono(a: nat, b: nat, i: nat)
    requires a <= b
    ensures Down(a, i) <= Down(b, i)
  {
    if i == 0 {
    } else {
      DownMono(a, b, i - 1);
    }
  }

  /** The word below a set bit of a higher level exists and is not zero. */
  lemma Below(bits: seq<Level>, nrBits: nat, i: nat, p: nat)
    requires Tower(bits, nrBits) && 0 < i < |bits| && Has(bits[i], p)
    ensures p < |bits[i - 1]| && bits[i - 1][p] != 0
  {
    hide Has;
    assert Fits(bits[i], Size(bits, nrBits, i));
    assert Linked(bits[i - 1], bits[i]);
  }

  /** The bit that leads from the word of a place on level i + 1 to the place on level `i`. */
  lemma Inside(bits: seq<Level>, nrBits: nat, i: nat, e: nat)
    requires Tower(bits, nrBits) && i < |bits| && Has(bits[0], e)
    ensures Down(e, i + 1) < |bits[i]|
    ensures Down(e, i) == BITS * Down(e, i + 1) + Down(e, i) % BITS
    ensures Bit(bits[i][Down(e, i + 1)], Down(e, i) % BITS) && bits[i][Down(e, i + 1)] != 0
  {
    hide Bit, Tower;
    Marked(bits, nrBits, e, i);
    HasWord(bits[i], Down(e, i));
  }

  /** No set bit has a place below `pos` on level `i`. */
  ghost predicate AllFrom(bits: seq<Level>, i: nat, pos: nat)
    requires bits != []
  {
    forall e: nat :: Has(bits[0], e) ==> Down(e, i) >= pos
  }

  ghost predicate AllTo(bits: seq<Level>, i: nat, pos: nat)
    requires bits != []
  {
    forall e: nat :: Has(bits[0], e) ==> Down(e, i) <= pos
  }

  lemma DescendFirst(bits: seq<Level>, nrBits: nat, i: nat, pos: nat)
    requires Tower(bits, nrBits) && i < |bits| && pos < |bits[i]| && bits[i][pos] != 0
    requires AllFrom(bits, i + 1, pos)
    ensures var p := BITS * pos + CountTrailingZeros(bits[i][pos]);
            Has(bits[i], p) && AllFrom(bits, i, p)
  {
    hide Tower, Bit, CountTrailingZeros;
    var c := CountTrailingZeros(bits[i][pos]);
    forall e: nat | Has(bits[0], e) ensures Down(e, i) >= BITS * pos + c {
      Inside(bits, nrBits, i, e);
    }
  }

  lemma DescendLast(bits: seq<Level>, nrBits: nat, i: nat, pos: nat)
    requires Tower(bits, nrBits) && i < |bits| && pos < |bits[i]| && bits[i][pos] != 0
    requires AllTo(bits, i + 1, pos)
    ensures var p := BITS * pos + HighestBit(bits[i][pos]);
            Has(bits[i], p) && AllTo(bits, i, p)
  {
    hide Tower, Bit, HighestBit;
    var c := HighestBit(bits[i][pos]);
    forall e: nat | Has(bits[0], e) ensures Down(e, i) <= BITS * pos + c {
      Inside(bits, nrBits, i, e);
    }
  }

  /** A zero top word means that no bit is set. */
  lemma EmptyTop(bits: seq<Level>, nrBits: nat)
    requires Tower(bits, nrBits) && bits[|bits| - 1][0] == 0
    ensures forall e: nat :: !Has(bits[0], e)
  {
    hide Has, Bit, Linked, Fits, Down;
    forall e: nat ensures !Has(bits[0], e) {
      if Has(bits[0], e) { Inside(bits, nrBits, |bits| - 1, e); }
    }
  }

  /** The part of the word at the place of bit `n` on a level that is not below that place. */
  function Ahead(bits: seq<Level>, level: nat, n: nat): Word
    requires level < |bits| && Down(n, level + 1) < |bits[level]|
  {
    From(bits[level][Down(n, level + 1)], Down(n, level) % BITS)
  }

  /** With nothing ahead in its word, no bit is set from `n` to the end of what the word covers. */
  lemma NothingAhead(bits: seq<Level>, nrBits: nat, level: nat, n: nat, end: nat)
    requires Tower(bits, nrBits) && level < |bits| && Down(n, level + 1) < |bits[level]|
    requires Ahead(bits, level, n) == 0
    requires end <= Place(Down(n, level + 1) + 1, level + 1)
    ensures Bare(bits[0], n, end)
  {
    hide Tower, Has, From, Place, Bit;
    forall e: nat | n <= e < end ensures !Has(bits[0], e) {
      if Has(bits[0], e) {
        BeforePlace(e, Down(n, level + 1) + 1, level + 1);
        DownMono(n, e, level);
        Inside(bits, nrBits, level, e);
        FromBit(bits[level][Down(n, level + 1)], Down(n, level) % BITS, Down(e, level) % BITS);
        ZeroBit(Down(e, level) % BITS);
      }
    }
  }

  /** Where the descent of find_next_set goes from `n`. */
  function Jump(bits: seq<Level>, level: nat, n: nat): nat
    requires level < |bits| && Down(n, level + 1) < |bits[level]| && Ahead(bits, level, n) != 0
  {
    BITS * Down(n, level + 1) + CountTrailingZeros(Ahead(bits, level, n))
  }

  lemma JumpHas(bits: seq<Level>, level: nat, n: nat)
    requires level < |bits| && Down(n, level + 1) < |bits[level]| && Ahead(bits, level, n) != 0
    ensures Has(bits[level], Jump(bits, level, n)) && Jump(bits, level, n) >= Down(n, level)
  {
    hide Bit, From, CountTrailingZeros;
    FromBit(bits[level][Down(n, level + 1)], Down(n, level) % BITS, CountTrailingZeros(Ahead(bits, level, n)));
  }

  /** Every bit set from `n` on has a place at or after the jump's. */
  lemma JumpFirst(bits: seq<Level>, nrBits: nat, level: nat, n: nat, e: nat)
    requires Tower(bits, nrBits) && level < |bits| && Down(n, level + 1) < |bits[level]| && Ahead(bits, level, n) != 0
    requires Has(bits[0], e) && n <= e
    ensures Down(e, level) >= Jump(bits, level, n)
  {
    hide Tower, Has, From, Bit, CountTrailingZeros;
    DownMono(n, e, level);
    DownMono(n, e, level + 1);
    Inside(bits, nrBits, level, e);
    FromBit(bits[level][Down(n, level + 1)], Down(n, level) % BITS, Down(e, level) % BITS);
  }

  lemma JumpBare(bits: seq<Level>, nrBits: nat, level: nat, n: nat, end: nat)
    requires Tower(bits, nrBits) && level < |bits| && Down(n, level + 1) < |bits[level]| && Ahead(bits, level, n) != 0
    requires end == Place(Jump(bits, level, n), level)
    ensures Bare(bits[0], n, end)
  {
    hide Tower, Has, Place, Ahead, Jump;
    forall e: nat | n <= e < end ensures !Has(bits[0], e) {
      if Has(bits[0], e) {
        JumpFirst(bits, nrBits, level, n, e);
        BeforePlace(e, Jump(bits, level, n), level);
      }
    }
  }
}
