/** 64-bit words read bit by bit: the masks and the bit counts of common/bitopts.h. */
module Words {
  import opened Arith

  type Word = bv64

  predicate Low(v: Word) {
    v & 1 == 1
  }

  function Half(v: Word): Word {
    v >> 1
  }

  function Double(v: Word): Word {
    v << 1
  }

  /** Bit `k` of the word. */
  predicate Bit(v: Word, k: nat)
    decreases k
  {
    if k == 0 then Low(v) else Bit(Half(v), k - 1)
  }

  /** 1 << k, one place at a time. */
  function One(k: nat): Word {
    if k == 0 then 1 else Double(One(k - 1))
  }

  function Up4(v: Word): Word {
    v << 4
  }

  function Up16(v: Word): Word {
    v << 16
  }

  lemma Ups(v: Word)
    ensures Double(Double(Double(Double(v)))) == Up4(v) && Up4(Up4(Up4(Up4(v)))) == Up16(v)
  {
  }

  lemma OneUp(k: nat)
    ensures One(k + 4) == Up4(One(k))
  {
    hide Double, Up4;
    Ups(One(k));
    assert One(k + 1) == Double(One(k));
    assert One(k + 2) == Double(One(k + 1));
    assert One(k + 3) == Double(One(k + 2));
  }

  lemma OneUp16(k: nat)
    ensures One(k + 16) == Up16(One(k))
  {
    hide Up4, Up16, One;
    OneUp(k); OneUp(k + 4); OneUp(k + 8); OneUp(k + 12);
    Ups(One(k));
  }

  lemma Tops(x: Word)
    requires x == 1
    ensures Up4(Up4(Up4(Up16(Up16(Up16(x)))))) == 0x1000_0000_0000_0000
    ensures Double(Double(Double(0x1000_0000_0000_0000))) == 0x8000_0000_0000_0000
  {
  }

  lemma OneHigh()
    ensures One(48) == Up16(Up16(Up16(One(0))))
  {
    hide One, Up16;
    OneUp16(0);
    OneUp16(16);
    OneUp16(32);
  }

  lemma OneTop()
    ensures One(63) == 0x8000_0000_0000_0000
  {
    hide Double, Up4, Up16;
    Tops(One(0));
    OneHigh();
    OneUp(48); OneUp(52); OneUp(56);
    assert One(61) == Double(One(60));
    assert One(62) == Double(One(61));
  }

  /** A word with one bit other than bit 63 does not lose it when doubled. */
  predicate Lone(v: Word) {
    v & (v - 1) == 0
  }

  predicate Top(v: Word) {
    v & 0x8000_0000_0000_0000 != 0
  }

  lemma LoneDouble(v: Word)
    requires Lone(v)
    ensures Lone(Double(v)) && !Low(Double(v)) && (Double(v) == 0 <==> v == 0 || Top(v))
    ensures !Top(v) ==> Half(Double(v)) == v
  {
  }

  lemma {:induction false} OneLone(k: nat)
    ensures Lone(One(k))
  {
    hide Lone, Double;
    if k > 0 {
      OneLone(k - 1);
      LoneDouble(One(k - 1));
    } else {
      assert Lone(1) by { LoneOne(); }
    }
  }

  lemma LoneOne()
    ensures Lone(1) && Low(1) && Half(1) == 0 && Half(0) == 0 && !Low(0)
  {
  }

  lemma {:induction false} OneStays(k: nat, m: nat)
    requires k <= m && One(k) == 0
    ensures One(m) == 0
    decreases m
  {
    if k == m {
    } else {
      OneStays(k, m - 1);
      assert Double(0) == 0;
    }
  }

  lemma OneFits(k: nat)
    requires k < 64
    ensures One(k) != 0 && Lone(One(k)) && (k < 63 ==> !Top(One(k)))
  {
    hide Lone, Top, Double;
    OneTop();
    OneLone(k);
    if One(k) == 0 {
      OneStays(k, 63);
    } else if k < 63 && Top(One(k)) {
      LoneDouble(One(k));
      OneStays(k + 1, 63);
    }
  }

  function Down4(v: Word): Word {
    v >> 4
  }

  function Down16(v: Word): Word {
    v >> 16
  }

  lemma Downs(v: Word)
    ensures Half(Half(Half(Half(v)))) == Down4(v) && Down4(Down4(Down4(Down4(v)))) == Down16(v)
    ensures Down16(Down16(Down16(Down16(v)))) == 0
  {
  }

  lemma BitUp(v: Word, k: nat)
    ensures Bit(v, k + 4) == Bit(Down4(v), k)
  {
    hide Half, Low, Down4;
    Downs(v);
    assert Bit(v, k + 4) == Bit(Half(v), k + 3);
    assert Bit(Half(v), k + 3) == Bit(Half(Half(v)), k + 2);
    assert Bit(Half(Half(v)), k + 2) == Bit(Half(Half(Half(v))), k + 1);
  }

  lemma BitUp16(v: Word, k: nat)
    ensures Bit(v, k + 16) == Bit(Down16(v), k)
  {
    hide Bit, Down4, Down16;
    Downs(v);
    BitUp(v, k + 12);
    BitUp(Down4(v), k + 8);
    BitUp(Down4(Down4(v)), k + 4);
    BitUp(Down4(Down4(Down4(v))), k);
  }

  lemma {:induction false} ZeroBit(k: nat)
    ensures !Bit(0, k)
  {
    hide Half, Low;
    LoneOne();
    if k == 0 {
    } else {
      ZeroBit(k - 1);
    }
  }

  /** A word has 64 bits. */
  lemma BitBelow(v: Word, k: nat)
    requires Bit(v, k)
    ensures k < 64
  {
    hide Bit, Down16;
    if k >= 64 {
      BitUp16(v, k - 16);
      BitUp16(Down16(v), k - 32);
      BitUp16(Down16(Down16(v)), k - 48);
      BitUp16(Down16(Down16(Down16(v))), k - 64);
      Downs(v);
      ZeroBit(k - 64);
    }
  }

  lemma {:induction false} OneBit(k: nat, j: nat)
    requires k < 64
    ensures Bit(One(k), j) == (j == k)
  {
    hide Lone, Low, Half, Double;
    LoneOne();
    if k > 0 {
      OneFits(k - 1);
      LoneDouble(One(k - 1));
      if j > 0 { OneBit(k - 1, j - 1); }
    } else if j > 0 {
      ZeroBit(j - 1);
    }
  }

  function Or(v: Word, w: Word): Word {
    v | w
  }

  function And(v: Word, w: Word): Word {
    v & w
  }

  function Not(v: Word): Word {
    !v
  }

  lemma LowOr(v: Word, w: Word)
    ensures Low(Or(v, w)) == (Low(v) || Low(w)) && Half(Or(v, w)) == Or(Half(v), Half(w))
  {
    assert (v | w) & 1 == (v & 1) | (w & 1);
  }

  lemma LowAnd(v: Word, w: Word)
    ensures Low(And(v, w)) == (Low(v) && Low(w)) && Half(And(v, w)) == And(Half(v), Half(w))
  {
    assert (v & w) & 1 == (v & 1) & (w & 1);
  }

  lemma {:induction false} OrBit(v: Word, w: Word, k: nat)
    ensures Bit(Or(v, w), k) == (Bit(v, k) || Bit(w, k))
    decreases k
  {
    hide Low, Half, Or;
    LowOr(v, w);
    if k == 0 {
    } else {
      OrBit(Half(v), Half(w), k - 1);
    }
  }

  lemma {:induction false} AndBit(v: Word, w: Word, k: nat)
    ensures Bit(And(v, w), k) == (Bit(v, k) && Bit(w, k))
    decreases k
  {
    hide Low, Half, And;
    LowAnd(v, w);
    if k == 0 {
    } else {
      AndBit(Half(v), Half(w), k - 1);
    }
  }

  const ALL: Word := 0xFFFF_FFFF_FFFF_FFFF

  lemma Complement(v: Word)
    ensures Or(v, Not(v)) == ALL && And(v, Not(v)) == 0 && And(v, ALL) == v
  {
  }

  lemma NotBit(v: Word, k: nat)
    requires k < 64
    ensures Bit(Not(v), k) == !Bit(v, k)
  {
    hide Bit, One, Or, And, Not;
    Complement(v);
    OrBit(v, Not(v), k);
    AndBit(v, Not(v), k);
    ZeroBit(k);
    AllBit(k);
  }

  lemma AllBit(k: nat)
    requires k < 64
    ensures Bit(ALL, k)
  {
    hide Bit, One, And;
    Complement(One(k));
    OneBit(k, k);
    AndBit(One(k), ALL, k);
  }

  /** All bits below n. */
  function MaskLower(n: nat): Word {
    Less(One(n))
  }

  function Less(v: Word): Word {
    v - 1
  }

  /** All bits from n on. */
  function MaskHigher(n: nat): Word {
    Not(MaskLower(n))
  }

  lemma LessDouble(v: Word)
    requires v != 0 && !Top(v)
    ensures Low(Less(Double(v))) && Half(Less(Double(v))) == Less(v)
  {
  }

  lemma LessOne()
    ensures Less(1) == 0
  {
  }

  lemma {:induction false} MaskLowerBit(n: nat, k: nat)
    requires n < 64
    ensures Bit(MaskLower(n), k) == (k < n)
  {
    hide Lone, Top, Low, Half, Double, Less;
    if n > 0 {
      OneFits(n - 1);
      LessDouble(One(n - 1));
      if k > 0 { MaskLowerBit(n - 1, k - 1); }
    } else {
      LessOne();
      ZeroBit(k);
    }
  }

  /** The bits of `v` from `n` on. */
  function From(v: Word, n: nat): Word {
    And(v, MaskHigher(n))
  }

  lemma FromBit(v: Word, n: nat, k: nat)
    requires n < 64
    ensures Bit(From(v, n), k) == (Bit(v, k) && k >= n)
  {
    hide Bit, MaskLower, And, Not;
    AndBit(v, MaskHigher(n), k);
    if k < 64 {
      NotBit(MaskLower(n), k);
      MaskLowerBit(n, k);
    } else if Bit(v, k) {
      BitBelow(v, k);
    }
  }

  function WithBit(v: Word, n: nat): Word {
    Or(v, One(n))
  }

  lemma WithBitBit(v: Word, n: nat, k: nat)
    requires n < 64
    ensures Bit(WithBit(v, n), k) == (Bit(v, k) || k == n)
  {
    hide Bit, One, Or;
    OrBit(v, One(n), k);
    OneBit(n, k);
  }

  function WithoutBit(v: Word, n: nat): Word {
    And(v, Not(One(n)))
  }

  lemma WithoutBitBit(v: Word, n: nat, k: nat)
    requires n < 64
    ensures Bit(WithoutBit(v, n), k) == (Bit(v, k) && k != n)
  {
    hide Bit, One, And, Not;
    AndBit(v, Not(One(n)), k);
    if k < 64 {
      NotBit(One(n), k);
      OneBit(n, k);
    } else if Bit(v, k) {
      BitBelow(v, k);
    }
  }

  /** Testing with a one-bit mask. */
  predicate HasBit(v: Word, n: nat) {
    And(v, One(n)) != 0
  }

  lemma HasBitBit(v: Word, n: nat)
    requires n < 64
    ensures HasBit(v, n) == Bit(v, n)
  {
    hide Bit, One, And;
    AndBit(v, One(n), n);
    OneBit(n, n);
    ZeroBit(n);
    if And(v, One(n)) != 0 {
      var c := CountTrailingZeros(And(v, One(n)));
      AndBit(v, One(n), c);
      OneBit(n, c);
    }
  }

  lemma HalfSmaller(v: Word)
    requires v != 0
    ensures Half(v) < v
    ensures !Low(v) ==> Half(v) != 0
    ensures v == 1 || Half(v) != 0
  {
  }

  function CountTrailingZeros(v: Word): (c: nat)
    requires v != 0
    ensures c < 64 && Bit(v, c) && forall k :: 0 <= k < c ==> !Bit(v, k)
    decreases v
  {
    HalfSmaller(v);
    var c := if Low(v) then 0 else CountTrailingZeros(Half(v)) + 1;
    BitBelow(v, c);
    c
  }

  function HighestBit(v: Word): (c: nat)
    requires v != 0
    ensures c < 64 && Bit(v, c) && forall k :: k > c ==> !Bit(v, k)
    decreases v
  {
    HalfSmaller(v);
    var c := if v == 1 then 0 else HighestBit(Half(v)) + 1;
    BitBelow(v, c);
    if v == 1 then OneHasNone(); c else c
  }

  lemma OneHasNone()
    ensures Bit(1, 0) && forall k :: k > 0 ==> !Bit(1, k)
  {
    LoneOne();
    forall k: nat | k > 0 ensures !Bit(1, k) { ZeroBit(k - 1); }
  }

  function CountLeadingZeros(v: Word): (c: nat)
    requires v != 0
    ensures c < 64
  {
    63 - HighestBit(v)
  }

  lemma WithBitNonZero(v: Word, n: nat)
    requires n < 64
    ensures WithBit(v, n) != 0
  {
    hide Bit, WithBit;
    WithBitBit(v, n, n);
    ZeroBit(n);
  }

  lemma WithoutBitZero(n: nat)
    ensures WithoutBit(0, n) == 0
  {
  }

  // ---- Words as numbers ----

  function Val(v: Word): nat
    decreases v
  {
    if v == 0 then 0
    else
      HalfSmaller(v);
      (if Low(v) then 1 else 0) + 2 * Val(Half(v))
  }

  lemma ValStep(v: Word)
    ensures Val(v) == (if Low(v) then 1 else 0) + 2 * Val(Half(v))
  {
    LoneOne();
  }

  lemma HalfNot(v: Word, m: Word)
    ensures Half(And(v, Not(m))) == And(Half(v), Not(Half(m)))
  {
  }

  lemma LowNot(m: Word)
    ensures Low(Not(m)) == !Low(m) && Not(0) == ALL
  {
    assert !m & 1 == 1 - (m & 1);
  }

  lemma AndZero(v: Word)
    ensures And(v, ALL) == v && And(v, 0) == 0
  {
  }

  lemma HalfMaskLower(k: nat)
    requires 0 < k < 64
    ensures Low(MaskLower(k)) && Half(MaskLower(k)) == MaskLower(k - 1)
  {
    OneFits(k - 1);
    hide Lone, Top, Low, Half, Double, Less;
    LessDouble(One(k - 1));
  }

  lemma Halving(n: nat, b: nat, h: nat, p: nat)
    requires p > 0 && b < 2 && n == b + 2 * h
    ensures n % (2 * p) == 2 * (h % p) + b
  {
    DivMod(h, p);
    DivUnique(n, 2 * p, h / p, 2 * (h % p) + b);
  }

  /** v & (align - 1), with align = 1 << k, is the remainder. */
  lemma {:induction false} MaskRemains(v: Word, k: nat)
    requires k < 64
    ensures Val(And(v, MaskLower(k))) == Val(v) % Pow2(k)
    decreases k
  {
    hide And, Low, Half, MaskLower, Val;
    if k == 0 {
      MaskZero();
      AndZero(v);
      ValZero();
    } else {
      var b := if Low(v) then 1 else 0;
      HalfMaskLower(k);
      LowAnd(v, MaskLower(k));
      MaskRemains(Half(v), k - 1);
      ValStep(v);
      ValStep(And(v, MaskLower(k)));
      Halving(Val(v), b, Val(Half(v)), Pow2(k - 1));
    }
  }

  lemma MaskZero()
    ensures MaskLower(0) == 0
  {
    LessOne();
  }

  lemma ValZero()
    ensures Val(0) == 0
  {
  }

  /** v & ~(align - 1) rounds down to a multiple of align. */
  lemma {:induction false} MaskRounds(v: Word, k: nat)
    requires k < 64
    ensures Val(And(v, Not(MaskLower(k)))) + Val(v) % Pow2(k) == Val(v)
    decreases k
  {
    hide And, Not, Low, Half, MaskLower, Val;
    LowNot(MaskLower(k));
    if k == 0 {
      MaskZero();
      AndZero(v);
    } else {
      var b := if Low(v) then 1 else 0;
      HalfMaskLower(k);
      LowAnd(v, Not(MaskLower(k)));
      HalfNot(v, MaskLower(k));
      MaskRounds(Half(v), k - 1);
      ValStep(v);
      ValStep(And(v, Not(MaskLower(k))));
      Halving(Val(v), b, Val(Half(v)), Pow2(k - 1));
    }
  }
}
