/** First-fit search in a bitset: the plain scans, the scans by 64-bit chunks, and the search for a
    run of free (zero) bits. */
module FreeSpace {
  import opened Words

  const CHUNK: nat := 64

  type Bitset = seq<bool>

  /** `r` is the first index from `from` on whose bit is `b`, or the size when there is none. */
  ghost predicate IsFirst(space: Bitset, from: nat, b: bool, r: nat) {
    && from <= r <= |space|
    && (forall i :: from <= i < r ==> space[i] != b)
    && (r < |space| ==> space[r] == b)
  }

  method FindFirst(space: Bitset, start: nat, b: bool) returns (r: nat)
    requires start <= |space|
    ensures IsFirst(space, start, b, r)
  {
    var from := start;
    while from < |space|
      invariant start <= from <= |space|
      invariant forall i :: start <= i < from ==> space[i] != b
    {
      if space[from] == b {
        return from;
      }
      from := from + 1;
    }
    return |space|;
  }

  // ---- By chunks ----

  /** space >> k: the bits move down, and zeros come in at the top. */
  function ShiftRight(space: Bitset, k: nat): (r: Bitset)
    ensures |r| == |space|
    ensures forall j :: 0 <= j < |space| ==> r[j] == (k + j < |space| && space[k + j])
  {
    if k < |space| then space[k..] + seq(k, i => false) else seq(|space|, i => false)
  }

  /** to_ullong of the chunk left by the mask. */
  function LowChunk(space: Bitset): Word {
    ToWord(if |space| < CHUNK then space else space[..CHUNK])
  }

  /** The low bits as a number. */
  function ToWord(bits: Bitset): Word {
    if bits == [] then 0 else Or(Double(ToWord(bits[1..])), if bits[0] then 1 else 0)
  }

  lemma LowDouble(v: Word)
    ensures !Low(Double(v)) && Low(1) && !Low(0) && Half(1) == 0 && Half(0) == 0 && Or(v, 0) == v
    ensures !Top(v) ==> Half(Double(v)) == v
  {
  }

  lemma TopBit(v: Word)
    ensures Top(v) == Bit(v, 63)
  {
    HasBitBit(v, 63);
    OneTop();
  }

  lemma {:induction false} ToWordBit(bits: Bitset, j: nat)
    requires |bits| <= CHUNK
    ensures Bit(ToWord(bits), j) == (j < |bits| && bits[j])
    decreases |bits|, 0
  {
    if bits == [] {
      ZeroBit(j);
    } else {
      var v := ToWord(bits[1..]);
      var b := if bits[0] then 1 as Word else 0;
      TopClear(bits[1..]);
      hide Low, Half, Double, Or, Top;
      LowDouble(v);
      LowOr(Double(v), b);
      if j > 0 {
        LowDouble(Half(Double(v)));
        ToWordBit(bits[1..], j - 1);
        OrZero(v, Half(b));
      }
    }
  }

  lemma OrZero(v: Word, z: Word)
    requires z == 0
    ensures Or(v, z) == v
  {
  }

  lemma {:induction false} TopClear(bits: Bitset)
    requires |bits| < CHUNK
    ensures !Top(ToWord(bits))
    decreases |bits|, 1
  {
    hide Top, ToWord;
    TopBit(ToWord(bits));
    ToWordBit(bits, 63);
  }

  lemma AllOnes(v: Word)
    ensures v == ALL <==> Not(v) == 0
  {
  }

  /** FindFirstOneUInt64 and FindFirstZeroUInt64. */
  method FindInWord(v: Word, b: bool) returns (found: bool, pos: nat)
    ensures found ==> pos < 64 && Bit(v, pos) == b && forall j :: 0 <= j < pos ==> Bit(v, j) != b
    ensures !found ==> forall j :: 0 <= j < 64 ==> Bit(v, j) != b
  {
    hide Bit, Not;
    AllOnes(v);
    forall j | 0 <= j < 64 ensures Bit(Not(v), j) == !Bit(v, j) { NotBit(v, j); }
    forall j: nat ensures !Bit(0, j) { ZeroBit(j); }
    var w := if b then v else Not(v);
    if w == 0 {
      return false, 0;
    }
    return true, CountTrailingZeros(w);
  }

  /** The word holds the bits from `base` on, and zeros past the end. */
  ghost predicate Window(v: Word, space: Bitset, base: nat) {
    forall j: nat :: j < 64 ==> Bit(v, j) == (base + j < |space| && space[base + j])
  }

  /** The bitset is `whole` moved down by `base`. */
  ghost predicate Moved(space: Bitset, whole: Bitset, base: nat) {
    |space| == |whole| && forall j :: 0 <= j < |space| ==> space[j] == (base + j < |whole| && whole[base + j])
  }

  lemma MoveOn(space: Bitset, whole: Bitset, base: nat, k: nat)
    requires Moved(space, whole, base)
    ensures Moved(ShiftRight(space, k), whole, base + k)
  {
    hide ShiftRight;
  }

  lemma ChunkIs(space: Bitset, whole: Bitset, base: nat)
    requires Moved(space, whole, base)
    ensures Window(LowChunk(space), whole, base)
  {
    hide Bit, ToWord;
    var bits := if |space| < CHUNK then space else space[..CHUNK];
    forall j: nat | j < 64 ensures Bit(LowChunk(space), j) == (base + j < |whole| && whole[base + j]) {
      ToWordBit(bits, j);
    }
  }

  /** The first bit of the chunk, past the end too, is the first from `from` on. */
  lemma FoundInChunk(whole: Bitset, from: nat, base: nat, v: Word, b: bool, pos: nat)
    requires from <= base < |whole| && Window(v, whole, base)
    requires forall i :: from <= i < base ==> whole[i] != b
    requires pos < 64 && Bit(v, pos) == b && forall j :: 0 <= j < pos ==> Bit(v, j) != b
    ensures IsFirst(whole, from, b, base + pos)
  {
    hide Bit;
    var end: nat := |whole| - base;
    assert end < 64 ==> !Bit(v, end);
    forall i | from <= i < base + pos ensures whole[i] != b {
      if i >= base { assert Bit(v, i - base) != b; }
    }
  }

  lemma NotInChunk(whole: Bitset, from: nat, base: nat, v: Word, b: bool)
    requires from <= base < |whole| && Window(v, whole, base)
    requires forall i :: from <= i < base ==> whole[i] != b
    requires forall j :: 0 <= j < 64 ==> Bit(v, j) != b
    ensures forall i :: from <= i < base + 64 && i < |whole| ==> whole[i] != b
  {
    hide Bit;
    forall i | from <= i < base + 64 && i < |whole| ensures whole[i] != b {
      if i >= base { assert Bit(v, i - base) != b; }
    }
  }

  /** FindFirstOneV1 and FindFirstZeroV1. */
  method FindFirstV1(whole: Bitset, from: nat, b: bool) returns (r: nat)
    requires from <= |whole|
    ensures IsFirst(whole, from, b, r)
  {
    hide Bit, Window, Moved, LowChunk, ShiftRight;
    var space := ShiftRight(whole, from);
    var n := |whole| - from;
    var totalChunk := (n + CHUNK - 1) / CHUNK;
    MovedNone(whole);
    MoveOn(whole, whole, 0, from);
    var chunkIndex: nat := 0;
    while chunkIndex < totalChunk
      invariant chunkIndex <= totalChunk
      invariant Moved(space, whole, from + chunkIndex * CHUNK)
      invariant forall i :: from <= i < from + chunkIndex * CHUNK && i < |whole| ==> whole[i] != b
    {
      ghost var base := from + chunkIndex * CHUNK;
      var chunk := LowChunk(space);
      ChunkIs(space, whole, base);
      var found, pos := FindInWord(chunk, b);
      if found {
        FoundInChunk(whole, from, base, chunk, b, pos);
        return pos + chunkIndex * CHUNK + from;
      }
      NotInChunk(whole, from, base, chunk, b);
      MoveOn(space, whole, base, CHUNK);
      space := ShiftRight(space, CHUNK);
      chunkIndex := chunkIndex + 1;
    }
    return |whole|;
  }

  lemma MovedNone(whole: Bitset)
    ensures Moved(whole, whole, 0)
  {
  }

  // ---- Runs ----

  ghost predicate IsRun(space: Bitset, start: nat, cnt: nat) {
    start + cnt <= |space| && forall i :: start <= i < start + cnt ==> !space[i]
  }

  /** `r` is the lowest start of `cnt` free bits, or the size when there is none, or none is asked. */
  ghost predicate IsFirstRun(space: Bitset, cnt: nat, r: nat) {
    if cnt > 0 && r < |space| then
      IsRun(space, r, cnt) && forall s: nat :: s < r ==> !IsRun(space, s, cnt)
    else
      r == |space| && (cnt > 0 ==> forall s: nat :: !IsRun(space, s, cnt))
  }

  /** space.count() */
  function Count(space: Bitset): (n: nat)
    ensures n <= |space|
  {
    if space == [] then 0 else (if space[0] then 1 else 0) + Count(space[1..])
  }

  lemma {:induction false} CountRun(space: Bitset, start: nat, cnt: nat)
    requires IsRun(space, start, cnt)
    ensures |space| - Count(space) >= cnt
    decreases |space|
  {
    if cnt == 0 {
    } else {
      if start > 0 { CountRun(space[1..], start - 1, cnt); } else { CountRun(space[1..], 0, cnt - 1); }
    }
  }

  method Find(space: Bitset, from: nat, b: bool, v1: bool) returns (r: nat)
    requires from <= |space|
    ensures IsFirst(space, from, b, r)
  {
    if v1 { r := FindFirstV1(space, from, b); } else { r := FindFirst(space, from, b); }
  }

  lemma TooFew(space: Bitset, cnt: nat)
    requires |space| - Count(space) < cnt
    ensures forall s: nat :: !IsRun(space, s, cnt)
  {
    forall s: nat ensures !IsRun(space, s, cnt) {
      if IsRun(space, s, cnt) { CountRun(space, s, cnt); }
    }
  }

  /** No run starts before the first zero, nor between it and the next one unless it is long enough. */
  lemma SkipRuns(space: Bitset, cnt: nat, curr: nat, zero: nat, one: nat)
    requires cnt > 0 && IsFirst(space, curr, false, zero) && zero < |space|
    requires IsFirst(space, zero + 1, true, one)
    ensures forall s: nat :: curr <= s < zero ==> !IsRun(space, s, cnt)
    ensures if one - zero >= cnt then IsRun(space, zero, cnt)
            else forall s: nat :: curr <= s <= one ==> !IsRun(space, s, cnt)
  {
    forall s: nat | curr <= s < zero ensures !IsRun(space, s, cnt) {
      assert space[s];
    }
    if one - zero < cnt {
      forall s: nat | zero <= s <= one ensures !IsRun(space, s, cnt) {
        assert one < |space| ==> space[one];
      }
    }
  }

  /** FindContinuousFreeSpace, with the plain scans or the chunked ones. */
  method FindContinuousFreeSpace(space: Bitset, cnt: nat, v1: bool) returns (r: nat)
    ensures IsFirstRun(space, cnt, r)
  {
    hide IsRun, IsFirst;
    var n := |space|;
    if cnt == 0 {
      return n;
    }
    if n - Count(space) < cnt {
      TooFew(space, cnt);
      return n;
    }
    var curr := 0;
    while curr <= n - cnt
      invariant forall s: nat :: s < curr ==> !IsRun(space, s, cnt)
      decreases n - curr
    {
      var firstZero := Find(space, curr, false, v1);
      InRange(space, curr, false, firstZero);
      if firstZero == n {
        NoZero(space, cnt, curr);
        return n;
      }
      var firstOne := Find(space, firstZero + 1, true, v1);
      InRange(space, firstZero + 1, true, firstOne);
      SkipRuns(space, cnt, curr, firstZero, firstOne);
      if firstOne - firstZero >= cnt {
        return firstZero;
      }
      curr := firstOne + 1;
    }
    PastEnd(space, cnt, curr);
    return n;
  }

  lemma InRange(space: Bitset, from: nat, b: bool, r: nat)
    requires IsFirst(space, from, b, r)
    ensures from <= r <= |space|
  {
  }

  lemma NoZero(space: Bitset, cnt: nat, curr: nat)
    requires cnt > 0 && IsFirst(space, curr, false, |space|)
    ensures forall s: nat :: curr <= s ==> !IsRun(space, s, cnt)
  {
    forall s: nat | curr <= s ensures !IsRun(space, s, cnt) {
      assert s < |space| ==> space[s];
    }
  }

  lemma PastEnd(space: Bitset, cnt: nat, curr: nat)
    requires cnt > 0 && curr > |space| - cnt
    ensures forall s: nat :: curr <= s ==> !IsRun(space, s, cnt)
  {
  }
}
