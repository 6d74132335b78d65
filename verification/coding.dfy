/** Fixed-width and variable-length integers in byte strings.
    Variable-length integers are unsigned LEB128 (section 7.6 of the DWARF 5 standard). */
module Coding {
  import opened Arith
  import opened Options

  type Byte = b: int | 0 <= b < 256
  type Bytes = seq<Byte>

  const U32: nat := 0x1_0000_0000
  const U64: nat := 0x1_0000_0000_0000_0000

  type uint32 = v: int | 0 <= v < U32
  type uint64 = v: int | 0 <= v < U64

  /** What a decoder leaves: the value, and the bytes after it. */
  datatype Decoded = Decoded(value: nat, rest: Bytes)

  // ----- The bit operations of the source, as arithmetic ---------------------------------------

  /** `static_cast<uint8_t>(v | 128)` is the low seven bits with the top bit set. */
  lemma OrTopBit(v: bv64)
    ensures (v | 128) & 0xFF == (v & 127) + 128
  {
  }

  /** `result |= piece << shift` adds, as result has no bit at or above shift. */
  lemma OrAdds32(result: bv32, piece: bv32)
    ensures result < 0x1 ==> result | piece == result + piece
    ensures result < 0x80 ==> result | (piece << 7) == result + (piece << 7)
    ensures result < 0x4000 ==> result | (piece << 14) == result + (piece << 14)
    ensures result < 0x20_0000 ==> result | (piece << 21) == result + (piece << 21)
    ensures result < 0x1000_0000 ==> result | (piece << 28) == result + (piece << 28)
  {
  }

  /** The same at the shifts of the 64-bit loop. */
  lemma OrAdds64(result: bv64, piece: bv64)
    ensures result < 0x1 ==> result | piece == result + piece
    ensures result < 0x80 ==> result | (piece << 7) == result + (piece << 7)
    ensures result < 0x4000 ==> result | (piece << 14) == result + (piece << 14)
    ensures result < 0x200000 ==> result | (piece << 21) == result + (piece << 21)
    ensures result < 0x10000000 ==> result | (piece << 28) == result + (piece << 28)
    ensures result < 0x800000000 ==> result | (piece << 35) == result + (piece << 35)
    ensures result < 0x40000000000 ==> result | (piece << 42) == result + (piece << 42)
    ensures result < 0x2000000000000 ==> result | (piece << 49) == result + (piece << 49)
    ensures result < 0x100000000000000 ==> result | (piece << 56) == result + (piece << 56)
    ensures result < 0x8000000000000000 ==> result | (piece << 63) == result + (piece << 63)
  {
  }

  lemma Pow2Zero()
    ensures Pow2(0) == 1
  {
  }

  // ----- Powers of two ---------------------------------------------------------------------------

  lemma Pow2Step(n: nat)
    ensures Pow2(n + 7) == 128 * Pow2(n)
  {
    assert Pow2(n + 7) == 2 * Pow2(n + 6) && Pow2(n + 6) == 2 * Pow2(n + 5) && Pow2(n + 5) == 2 * Pow2(n + 4);
    assert Pow2(n + 4) == 2 * Pow2(n + 3) && Pow2(n + 3) == 2 * Pow2(n + 2) && Pow2(n + 2) == 2 * Pow2(n + 1);
  }

  lemma Pow2Values()
    ensures Pow2(7) == 0x80 && Pow2(14) == 0x4000 && Pow2(21) == 0x20_0000 && Pow2(28) == 0x1000_0000
    ensures Pow2(32) == U32 && Pow2(64) == U64
  {
    Pow2Step(0);
    Pow2Step(7);
    Pow2Step(14);
    Pow2Step(21);
    Pow2Step(28);
    Pow2Step(35);
    Pow2Step(42);
    Pow2Step(49);
    Pow2Step(56);
    assert Pow2(57) == 2 * Pow2(56);
  }

  // ----- Encoding -----------------------------------------------------------------------------------

  /** The unsigned LEB128 form of v. */
  function Leb128(v: nat): (s: Bytes)
    ensures |s| >= 1
  {
    if v < 128 then [v] else [v % 128 + 128] + Leb128(v / 128)
  }

  /** Byte i has the i-th seven bits of v, least significant first. */
  lemma {:induction false} Leb128Digits(v: nat, i: nat)
    requires i < |Leb128(v)|
    ensures Leb128(v)[i] % 128 == v / Pow2(7 * i) % 128
    decreases v
  {
    if i == 0 {
      assert Pow2(0) == 1;
    } else {
      assert v >= 128;
      Leb128Digits(v / 128, i - 1);
      Pow2Step(7 * i - 7);
      hide Pow2;
      DivDiv(v, 128, Pow2(7 * i - 7));
      Swap(Pow2(7 * i - 7));
    }
  }

  lemma Swap(p: nat)
    ensures p * 128 == 128 * p
  {
  }

  /** Continuation bits are set on every byte but the last. */
  lemma {:induction false} Leb128Shape(v: nat)
    ensures forall i :: 0 <= i < |Leb128(v)| ==> (Leb128(v)[i] >= 128 <==> i < |Leb128(v)| - 1)
    decreases v
  {
    if v < 128 {
    } else {
      Leb128Shape(v / 128);
    }
  }

  lemma Leb128One(v: nat)
    requires v < 128
    ensures Leb128(v) == [v]
  {
  }

  lemma Leb128Step(v: nat)
    requires v >= 128
    ensures Leb128(v) == [v % 128 + 128] + Leb128(v / 128)
  {
  }

  /** v >> log2(d) with the continuation bit, stored in a byte. */
  function More(v: nat, d: nat): Byte
    requires d > 0
  {
    v / d % 128 + 128
  }

  /** v >> log2(d), stored in a byte. */
  function Last(v: nat, d: nat): Byte
    requires d > 0
  {
    v / d % 256
  }

  lemma Leb128Short(v: nat)
    requires v < 128
    ensures Leb128(v) == [Last(v, 1)]
  {
  }

  lemma Leb128Two(v: nat)
    requires 0x80 <= v < 0x4000
    ensures Leb128(v) == [More(v, 1), Last(v, 0x80)]
  {
    hide Leb128;
    Leb128Step(v);
    Leb128One(v / 128);
  }

  lemma Leb128Three(v: nat)
    requires 0x4000 <= v < 0x20_0000
    ensures Leb128(v) == [More(v, 1), More(v, 0x80), Last(v, 0x4000)]
  {
    hide Leb128;
    Leb128Step(v);
    Leb128Two(v / 128);
  }

  lemma Leb128Four(v: nat)
    requires 0x20_0000 <= v < 0x1000_0000
    ensures Leb128(v) == [More(v, 1), More(v, 0x80), More(v, 0x4000), Last(v, 0x20_0000)]
  {
    hide Leb128;
    Leb128Step(v);
    Leb128Three(v / 128);
    assert v / 128 / 128 == v / 0x4000 && v / 128 / 0x4000 == v / 0x20_0000;
  }

  lemma Leb128Five(v: uint32)
    requires 0x1000_0000 <= v
    ensures Leb128(v) == [More(v, 1), More(v, 0x80), More(v, 0x4000), More(v, 0x20_0000), Last(v, 0x1000_0000)]
  {
    hide Leb128;
    var a := v / 128;
    Leb128Step(v);
    Leb128Step(a);
    Leb128Three(a / 128);
    assert a / 128 == v / 0x4000 && a / 128 / 128 == v / 0x20_0000 && a / 128 / 0x4000 == v / 0x1000_0000;
  }

  /** `buffer` with `s` written over it from position `at`. */
  function Overwrite(buffer: Bytes, at: nat, s: Bytes): Bytes
    requires at + |s| <= |buffer|
  {
    buffer[..at] + s + buffer[at + |s|..]
  }

  /** `dst` holds the first `k` bytes of `z`, written over `buffer` from position `at` on. */
  ghost predicate Written(dst: array<Byte>, buffer: Bytes, at: nat, z: Bytes, k: nat)
    reads dst
  {
    at + k <= |buffer| && k <= |z| && dst[..] == Overwrite(buffer, at, z[..k])
  }

  /** `*(ptr++) = b`, where `b` is byte `k` of `z`. */
  method WriteByte(dst: array<Byte>, at: nat, end: nat, b: Byte, ghost buffer: Bytes, ghost z: Bytes, ghost k: nat)
    returns (end': nat)
    requires end == at + k < dst.Length == |buffer| && k < |z| && z[k] == b
    requires Written(dst, buffer, at, z, k)
    modifies dst
    ensures end' == end + 1 && Written(dst, buffer, at, z, k + 1)
  {
    AppendByte(buffer, at, z[..k], b);
    dst[end] := b;
    end' := end + 1;
    assert z[..k + 1] == z[..k] + [b];
  }

  lemma WrittenNone(dst: array<Byte>, at: nat, z: Bytes)
    requires at <= dst.Length
    ensures Written(dst, dst[..], at, z, 0)
  {
  }

  lemma WrittenAll(dst: array<Byte>, buffer: Bytes, at: nat, z: Bytes)
    requires Written(dst, buffer, at, z, |z|)
    ensures at + |z| <= |buffer| && dst[..] == Overwrite(buffer, at, z)
  {
    assert z[..|z|] == z;
  }

  lemma AppendByte(buffer: Bytes, at: nat, s: Bytes, b: Byte)
    requires at + |s| + 1 <= |buffer|
    ensures Overwrite(buffer, at, s)[at + |s| := b] == Overwrite(buffer, at, s + [b])
  {
  }

  /** The three bytes that the longest branches of EncodeVarint32 start with. */
  method WriteThree(dst: array<Byte>, at: nat, v: uint32, ghost buffer: Bytes, ghost z: Bytes) returns (end: nat)
    requires |z| > 3 && z[0] == More(v, 1) && z[1] == More(v, 0x80) && z[2] == More(v, 0x4000)
    requires at + 3 <= dst.Length && buffer == dst[..]
    modifies dst
    ensures end == at + 3 && Written(dst, buffer, at, z, 3)
  {
    WrittenNone(dst, at, z);
    hide Leb128, Written, More;
    end := WriteByte(dst, at, at, More(v, 1), buffer, z, 0);
    end := WriteByte(dst, at, end, More(v, 0x80), buffer, z, 1);
    end := WriteByte(dst, at, end, More(v, 0x4000), buffer, z, 2);
  }

  /** The branches of EncodeVarint32 for four and five bytes. */
  method EncodeLong(dst: array<Byte>, at: nat, v: uint32) returns (end: nat)
    requires 0x20_0000 <= v && at + |Leb128(v)| <= dst.Length
    modifies dst
    ensures end == at + |Leb128(v)| && dst[..] == Overwrite(old(dst[..]), at, Leb128(v))
  {
    ghost var buffer, z := dst[..], Leb128(v);
    if v < 0x1000_0000 { Leb128Four(v); } else { Leb128Five(v); }
    hide Leb128, Written, More, Last;
    end := WriteThree(dst, at, v, buffer, z);
    if v < 0x1000_0000 {
      end := WriteByte(dst, at, end, Last(v, 0x20_0000), buffer, z, 3);
    } else {
      end := WriteByte(dst, at, end, More(v, 0x20_0000), buffer, z, 3);
      end := WriteByte(dst, at, end, Last(v, 0x1000_0000), buffer, z, 4);
    }
    WrittenAll(dst, buffer, at, z);
  }

  /** The branch of EncodeVarint32 for three bytes. */
  method EncodeThree(dst: array<Byte>, at: nat, v: uint32) returns (end: nat)
    requires 0x4000 <= v < 0x20_0000 && at + |Leb128(v)| <= dst.Length
    modifies dst
    ensures end == at + |Leb128(v)| && dst[..] == Overwrite(old(dst[..]), at, Leb128(v))
  {
    hide Leb128, Written, More, Last;
    ghost var buffer, z := dst[..], Leb128(v);
    Leb128Three(v);
    WrittenNone(dst, at, z);
    end := WriteByte(dst, at, at, More(v, 1), buffer, z, 0);
    end := WriteByte(dst, at, end, More(v, 0x80), buffer, z, 1);
    end := WriteByte(dst, at, end, Last(v, 0x4000), buffer, z, 2);
    WrittenAll(dst, buffer, at, z);
  }

  /** The branch of EncodeVarint32 for two bytes. */
  method EncodeTwo(dst: array<Byte>, at: nat, v: uint32) returns (end: nat)
    requires 0x80 <= v < 0x4000 && at + |Leb128(v)| <= dst.Length
    modifies dst
    ensures end == at + |Leb128(v)| && dst[..] == Overwrite(old(dst[..]), at, Leb128(v))
  {
    hide Leb128, Written, More, Last;
    ghost var buffer, z := dst[..], Leb128(v);
    Leb128Two(v);
    WrittenNone(dst, at, z);
    end := WriteByte(dst, at, at, More(v, 1), buffer, z, 0);
    end := WriteByte(dst, at, end, Last(v, 0x80), buffer, z, 1);
    WrittenAll(dst, buffer, at, z);
  }

  /** The unrolled encoder writes LEB128. `dst` must have room, and nothing else is touched. */
  method EncodeVarint32(dst: array<Byte>, at: nat, v: uint32) returns (end: nat)
    requires at + |Leb128(v)| <= dst.Length
    modifies dst
    ensures end == at + |Leb128(v)| && dst[..] == Overwrite(old(dst[..]), at, Leb128(v))
  {
    if v >= 0x20_0000 {
      end := EncodeLong(dst, at, v);
    } else if v >= 0x4000 {
      end := EncodeThree(dst, at, v);
    } else if v >= 0x80 {
      end := EncodeTwo(dst, at, v);
    } else {
      hide Leb128, Written, Last;
      ghost var buffer, z := dst[..], Leb128(v);
      Leb128Short(v);
      WrittenNone(dst, at, z);
      end := WriteByte(dst, at, at, Last(v, 1), buffer, z, 0);
      WrittenAll(dst, buffer, at, z);
    }
  }

  /** The looped encoder writes the same bytes. */
  method EncodeVarint64(dst: array<Byte>, at: nat, value: uint64) returns (end: nat)
    requires at + |Leb128(value)| <= dst.Length
    modifies dst
    ensures end == at + |Leb128(value)| && dst[..] == Overwrite(old(dst[..]), at, Leb128(value))
  {
    end := at;
    var v: nat := value;
    ghost var buffer, z, k := dst[..], Leb128(value), 0;
    WrittenNone(dst, at, z);
    while v >= 128
      invariant k < |z| && end == at + k && z[k..] == Leb128(v)
      invariant Written(dst, buffer, at, z, k)
    {
      Leb128Step(v);
      TailStep(z, k, v % 128 + 128, Leb128(v / 128));
      end := WriteByte(dst, at, end, v % 128 + 128, buffer, z, k);
      k := k + 1;
      v := v / 128;
    }
    Leb128One(v);
    TailStep(z, k, v, []);
    end := WriteByte(dst, at, end, v, buffer, z, k);
    WrittenAll(dst, buffer, at, z);
  }

  lemma TailStep(z: Bytes, k: nat, b: Byte, rest: Bytes)
    requires k < |z| && z[k..] == [b] + rest
    ensures z[k] == b && z[k + 1..] == rest
    ensures rest == [] ==> k + 1 == |z|
  {
    assert z[k..][1..] == z[k + 1..];
  }

  /** The number of bytes EncodeVarint64 writes. */
  method VarintLength(v: uint64) returns (len: nat)
    ensures len == |Leb128(v)|
  {
    len := 1;
    var rest: nat := v;
    while rest >= 128
      invariant len + |Leb128(rest)| == 1 + |Leb128(v)|
    {
      rest := rest / 128;
      len := len + 1;
    }
  }

  /** A varint fits in ceil(bits / 7) bytes: 5 for 32 bits, 10 for 64. */
  lemma {:induction false} Leb128Length(v: nat, k: nat)
    requires v < Pow2(7 * k)
    ensures |Leb128(v)| <= if k == 0 then 1 else k
    decreases k
  {
    if k == 0 {
    } else {
      Pow2Step(7 * (k - 1));
      if v >= 128 {
        Leb128Length(v / 128, k - 1);
      }
    }
  }

  lemma FitsBuffer32(v: uint32)
    ensures |Leb128(v)| <= 5
  {
    hide Leb128, Pow2;
    Pow2Values();
    Pow2Grows(32, 35);
    Leb128Length(v, 5);
  }

  lemma FitsBuffer64(v: uint64)
    ensures |Leb128(v)| <= 10
  {
    hide Leb128, Pow2;
    Pow2Values();
    Pow2Grows(64, 70);
    Leb128Length(v, 10);
  }

  method PutVarint32(dst: Bytes, value: uint32) returns (r: Bytes)
    ensures r == dst + Leb128(value)
  {
    hide Leb128;
    FitsBuffer32(value);
    var buf := new Byte[5](i => 0);
    var end := EncodeVarint32(buf, 0, value);
    r := dst + buf[..end];
  }

  method PutVarint64(dst: Bytes, value: uint64) returns (r: Bytes)
    ensures r == dst + Leb128(value)
  {
    hide Leb128;
    FitsBuffer64(value);
    var buf := new Byte[10](i => 0);
    var end := EncodeVarint64(buf, 0, value);
    r := dst + buf[..end];
  }

  // ----- Decoding ---------------------------------------------------------------------------------

  /** Seven bits shifted into place; those beyond the width are dropped. */
  function Piece(bits: nat, shift: nat, width: nat): nat {
    bits * Pow2(shift) % Pow2(width)
  }

  /** `|` on numbers, bit by bit. */
  function Or(a: nat, b: nat): nat {
    if a == 0 then b else (if a % 2 == 1 || b % 2 == 1 then 1 else 0) + 2 * Or(a / 2, b / 2)
  }

  /** Bits that end below place k, or-ed with bits that begin there, add up. */
  lemma {:induction false} OrAdds(a: nat, m: nat, k: nat)
    requires a < Pow2(k)
    ensures Or(a, Pow2(k) * m) == a + Pow2(k) * m
    decreases k
  {
    if k == 0 {
    } else {
      Regroup(2, Pow2(k - 1), m);
      OrAdds(a / 2, m, k - 1);
      OrStep(a, Pow2(k - 1) * m);
    }
  }

  lemma OrStep(a: nat, h: nat)
    requires Or(a / 2, h) == a / 2 + h
    ensures Or(a, 2 * h) == a + 2 * h
  {
  }

  /** A piece begins at its shift and is cut at the width. */
  lemma PieceParts(bits: nat, shift: nat, width: nat)
    requires shift <= width
    ensures Piece(bits, shift, width) == Pow2(shift) * (bits % Pow2(width - shift))
  {
    var p, m := Pow2(shift), Pow2(width - shift);
    Pow2Sum(shift, width - shift);
    hide Pow2;
    DivUnique(bits * p, p, bits, 0);
    DivDiv(bits * p, p, m);
  }

  /** So `result |= piece << shift` adds, and stays below the next shift. */
  lemma PieceAdds(result: nat, bits: nat, shift: nat, width: nat)
    requires bits < 128 && shift < width && result < Pow2(shift)
    ensures Or(result, Piece(bits, shift, width)) == result + Piece(bits, shift, width)
    ensures result + Piece(bits, shift, width) < Pow2(shift + 7)
  {
    PieceParts(bits, shift, width);
    OrAdds(result, bits % Pow2(width - shift), shift);
    Pow2Step(shift);
    hide Pow2, Or, Piece;
    var q := bits % Pow2(width - shift);
    ModAtMost(bits, Pow2(width - shift));
    MulMono(Pow2(shift), q, 127);
    Distribute(Pow2(shift), 127, 1);
  }

  lemma ModAtMost(x: nat, m: nat)
    requires m > 0
    ensures 0 <= x % m <= x
  {
    DivMod(x, m);
    MulMono(m, 0, x / m);
  }

  /** The decoder loop from `shift` on. */
  function Varint(s: Bytes, shift: nat, result: nat, width: nat): Option<Decoded>
    decreases |s|
  {
    if shift >= width || s == [] then
      None
    else
      var next := result + Piece(s[0] % 128, shift, width);
      if s[0] >= 128 then Varint(s[1..], shift + 7, next, width) else Some(Decoded(next, s[1..]))
  }

  function Varint32(s: Bytes): Option<Decoded> { Varint(s, 0, 0, 32) }

  function Varint64(s: Bytes): Option<Decoded> { Varint(s, 0, 0, 64) }

  lemma ShiftFits(v: nat, shift: nat, width: nat)
    requires v > 0 && v * Pow2(shift) < Pow2(width)
    ensures shift < width
  {
    hide Pow2;
    if shift >= width {
      Pow2Grows(width, shift);
      MulGrows(Pow2(shift), v);
    }
  }

  lemma SplitDigit(v: nat, shift: nat)
    ensures v * Pow2(shift) == v % 128 * Pow2(shift) + v / 128 * Pow2(shift + 7)
  {
    Pow2Step(shift);
    var p := Pow2(shift);
    var q, r := v / 128, v % 128;
    assert v == 128 * q + r;
    Distribute(p, 128 * q, r);
    Regroup(q, 128, p);
  }

  /** Decoding what was encoded, after `result` has been read and before `rest`. */
  lemma {:induction false} DecodeEncoded(v: nat, rest: Bytes, shift: nat, result: nat, width: nat)
    requires result + v * Pow2(shift) < Pow2(width) && shift < width
    ensures Varint(Leb128(v) + rest, shift, result, width) == Some(Decoded(result + v * Pow2(shift), rest))
    decreases v
  {
    hide Varint, Leb128, Pow2;
    var s, p := Leb128(v) + rest, Pow2(shift);
    LebOnto(v, rest);
    VarintRound(s, shift, result, width);
    if v < 128 {
      ModSmall(v * p, Pow2(width));
    } else {
      SplitDigit(v, shift);
      assert v / 128 * Pow2(shift + 7) >= 0;
      ModSmall(v % 128 * p, Pow2(width));
      ShiftFits(v / 128, shift + 7, width);
      DecodeEncoded(v / 128, rest, shift + 7, result + v % 128 * p, width);
    }
  }

  lemma LebOnto(v: nat, rest: Bytes)
    ensures var s := Leb128(v) + rest;
            && s != []
            && if v < 128 then s[0] == s[0] % 128 == v && s[1..] == rest
               else s[0] >= 128 && s[0] % 128 == v % 128 && s[1..] == Leb128(v / 128) + rest
  {
  }

  lemma VarintRound(s: Bytes, shift: nat, result: nat, width: nat)
    requires s != [] && shift < width
    ensures var next := result + Piece(s[0] % 128, shift, width);
            Varint(s, shift, result, width) ==
              if s[0] >= 128 then Varint(s[1..], shift + 7, next, width) else Some(Decoded(next, s[1..]))
  {
  }

  lemma ModSmall(x: nat, m: nat)
    requires x < m
    ensures x % m == x
  {
    DivUnique(x, m, 0, x);
  }

  /** Round trip, 32 bits: whatever follows the encoding is left. */
  lemma RoundTrip32(v: uint32, rest: Bytes)
    ensures Varint32(Leb128(v) + rest) == Some(Decoded(v, rest))
  {
    Pow2Values();
    assert Pow2(0) == 1;
    hide Pow2, Varint, Leb128;
    DecodeEncoded(v, rest, 0, 0, 32);
  }

  lemma RoundTrip64(v: uint64, rest: Bytes)
    ensures Varint64(Leb128(v) + rest) == Some(Decoded(v, rest))
  {
    Pow2Values();
    assert Pow2(0) == 1;
    hide Pow2, Varint, Leb128;
    DecodeEncoded(v, rest, 0, 0, 64);
  }

  lemma {:induction false} AllContinue(s: Bytes, shift: nat, result: nat, width: nat)
    requires forall i :: 0 <= i < |s| ==> s[i] >= 128
    ensures Varint(s, shift, result, width) == None
    decreases |s|
  {
    if s == [] || shift >= width {
    } else {
      AllContinue(s[1..], shift + 7, result + Piece(s[0] % 128, shift, width), width);
    }
  }

  /** A truncated encoding is rejected, at either width. */
  lemma PrefixRejected(v: nat, k: nat)
    requires k < |Leb128(v)|
    ensures Varint32(Leb128(v)[..k]) == None && Varint64(Leb128(v)[..k]) == None
  {
    Leb128Shape(v);
    AllContinue(Leb128(v)[..k], 0, 0, 32);
    AllContinue(Leb128(v)[..k], 0, 0, 64);
  }

  /** What a decoder accepts it accepts with more bytes behind it, and leaves those bytes. */
  lemma {:induction false} VarintExtends(s: Bytes, t: Bytes, shift: nat, result: nat, width: nat)
    requires Varint(s, shift, result, width).Some?
    ensures var d := Varint(s, shift, result, width).value;
            && Varint(s + t, shift, result, width) == Some(Decoded(d.value, d.rest + t))
            && |d.rest| < |s| && d.rest == s[|s| - |d.rest|..]
    decreases |s|
  {
    assert (s + t)[0] == s[0] && (s + t)[1..] == s[1..] + t;
    if s[0] >= 128 {
      VarintExtends(s[1..], t, shift + 7, result + Piece(s[0] % 128, shift, width), width);
    }
  }

  /** What bytes add up to at seven bits each, with no width to cut them at. */
  function Raw(c: Bytes): nat {
    if c == [] then 0 else c[0] % 128 + 128 * Raw(c[1..])
  }

  /** A byte string with the continuation bit on every byte but the last. */
  predicate OneVarint(c: Bytes) {
    && c != [] && c[|c| - 1] < 128
    && forall i :: 0 <= i < |c| - 1 ==> c[i] >= 128
  }

  /** The decoder accepts exactly the inputs that have a last byte in reach. */
  lemma {:induction false} AcceptedIff(s: Bytes, shift: nat, result: nat, width: nat)
    ensures Varint(s, shift, result, width).Some? <==>
              exists i :: 0 <= i < |s| && shift + 7 * i < width && s[i] < 128
    decreases |s|
  {
    if s == [] || shift >= width {
    } else {
      var next := result + Piece(s[0] % 128, shift, width);
      AcceptedIff(s[1..], shift + 7, next, width);
      hide Piece;
      if i :| 0 <= i < |s| && shift + 7 * i < width && s[i] < 128 && s[0] >= 128 {
        assert s[1..][i - 1] == s[i];
      }
      if j :| 0 <= j < |s[1..]| && shift + 7 + 7 * j < width && s[1..][j] < 128 {
        assert s[j + 1] == s[1..][j];
      }
    }
  }

  lemma AddMod(a: nat, y: nat, m: nat)
    requires m > 0 && a + y % m < m
    ensures (a + y) % m == a + y % m
  {
    DivMod(y, m);
    DivUnique(a + y, m, y / m, a + y % m);
  }

  /** One more byte below bytes already shifted: the two do not overlap, and neither does the cut. */
  lemma PieceJoin(b: nat, rest: nat, shift: nat, width: nat)
    requires b < 128 && shift + 7 < width
    ensures (b + 128 * rest) * Pow2(shift) % Pow2(width) ==
            Piece(b, shift, width) + rest * Pow2(shift + 7) % Pow2(width)
  {
    var p, m := Pow2(shift), Pow2(width);
    Pow2Step(shift);
    Pow2Sum(shift + 7, width - shift - 7);
    ShiftMod(rest, Pow2(shift + 7), Pow2(width - shift - 7));
    hide Pow2;
    MulMono(p, b, 127);
    ModSmall(b * p, m);
    Distribute(p, b, 128 * rest);
    Regroup(rest, 128, p);
    AddMod(b * p, rest * Pow2(shift + 7), m);
  }

  /** What the decoder loop reads: one varint, whose bits beyond the width are dropped. */
  lemma {:induction false} VarintReads(s: Bytes, shift: nat, result: nat, width: nat)
    requires Varint(s, shift, result, width).Some?
    ensures var d := Varint(s, shift, result, width).value;
            |d.rest| < |s|
            && var c := s[..|s| - |d.rest|];
               OneVarint(c) && s == c + d.rest && d.value == result + Raw(c) * Pow2(shift) % Pow2(width)
    decreases |s|
  {
    hide Piece, Varint, Pow2, Raw;
    VarintStep(s, shift, result, width);
    var d := Varint(s, shift, result, width).value;
    if s[0] >= 128 {
      var next := result + Piece(s[0] % 128, shift, width);
      VarintReads(s[1..], shift + 7, next, width);
      var c := s[1..][..|s[1..]| - |d.rest|];
      PieceJoin(s[0] % 128, Raw(c), shift, width);
      OneMore(s[0], c);
      ReadOneMore(s, c, d.rest);
    } else {
      RawOne(s[0]);
      assert s[..1] == [s[0]];
      PieceIs(s[0], shift, width);
    }
  }

  /** One round of the decoder. */
  lemma VarintStep(s: Bytes, shift: nat, result: nat, width: nat)
    requires Varint(s, shift, result, width).Some?
    ensures s != [] && shift < width
    ensures var d, next := Varint(s, shift, result, width), result + Piece(s[0] % 128, shift, width);
            if s[0] >= 128 then shift + 7 < width && d == Varint(s[1..], shift + 7, next, width)
            else d == Some(Decoded(next, s[1..]))
  {
  }

  lemma PieceIs(b: Byte, shift: nat, width: nat)
    requires b < 128
    ensures Piece(b % 128, shift, width) == b * Pow2(shift) % Pow2(width)
  {
  }

  lemma ReadOneMore(s: Bytes, c: Bytes, rest: Bytes)
    requires s != [] && s[1..] == c + rest
    ensures |rest| < |s| && s[..|s| - |rest|] == [s[0]] + c && s == [s[0]] + c + rest
  {
    assert s == [s[0]] + s[1..];
  }

  lemma OneMore(b: Byte, c: Bytes)
    requires b >= 128 && OneVarint(c)
    ensures OneVarint([b] + c) && Raw([b] + c) == b % 128 + 128 * Raw(c)
  {
    assert ([b] + c)[1..] == c;
  }

  lemma RawOne(b: Byte)
    requires b < 128
    ensures Raw([b]) == b && OneVarint([b])
  {
    assert [b][1..] == [];
  }

  lemma Leb128Small(b: Byte)
    requires b < 128
    ensures Leb128(b) == [b]
  {
  }

  lemma {:induction false} RawOfLeb128(v: nat)
    ensures Raw(Leb128(v)) == v && OneVarint(Leb128(v))
    ensures |Leb128(v)| > 1 ==> Leb128(v)[|Leb128(v)| - 1] != 0
    decreases v
  {
    if v >= 128 {
      RawOfLeb128(v / 128);
      OneMore(v % 128 + 128, Leb128(v / 128));
    } else {
      assert Leb128(v)[1..] == [];
    }
  }

  lemma {:induction false} Leb128OfRaw(c: Bytes)
    requires OneVarint(c) && (|c| == 1 || c[|c| - 1] != 0)
    ensures Leb128(Raw(c)) == c && (c[|c| - 1] != 0 ==> Raw(c) > 0)
    decreases |c|
  {
    hide Raw, Leb128;
    if |c| == 1 {
      RawOne(c[0]);
      Leb128Small(c[0]);
      assert c == [c[0]];
    } else {
      OneLess(c);
      Leb128OfRaw(c[1..]);
      Leb128Join(c[0], Raw(c[1..]));
    }
  }

  lemma OneLess(c: Bytes)
    requires OneVarint(c) && |c| > 1
    ensures c[0] >= 128 && OneVarint(c[1..]) && c == [c[0]] + c[1..] && Raw(c) == c[0] % 128 + 128 * Raw(c[1..])
  {
  }

  lemma Leb128Join(b: Byte, n: nat)
    requires b >= 128 && n > 0
    ensures Leb128(b % 128 + 128 * n) == [b] + Leb128(n)
  {
    var v := b % 128 + 128 * n;
    assert v % 128 == b % 128 && v / 128 == n && v >= 128;
  }

  /** The bytes a decoder has read of `s` when it leaves `rest`. */
  function Consumed(s: Bytes, rest: Bytes): Bytes {
    if |rest| <= |s| then s[..|s| - |rest|] else []
  }

  /** No zero byte to spare at the end. */
  predicate Minimal(c: Bytes) {
    |c| == 1 || (c != [] && c[|c| - 1] != 0)
  }

  /** When encoding undoes decoding. The value read is that of the bytes with the bits beyond the
      width dropped; and encoding it gives those bytes back exactly when they do not end in a zero
      byte to spare, and have no bits beyond the width. */
  lemma ReencodesIff(s: Bytes, width: nat)
    requires Varint(s, 0, 0, width).Some?
    ensures var d := Varint(s, 0, 0, width).value; var c := Consumed(s, d.rest);
            && OneVarint(c) && s == c + d.rest && d.value == Raw(c) % Pow2(width)
            && (Leb128(d.value) == c <==> Minimal(c) && Raw(c) < Pow2(width))
  {
    VarintReads(s, 0, 0, width);
    assert Pow2(0) == 1;
    hide Varint, Pow2, Leb128, Raw;
    var d := Varint(s, 0, 0, width).value;
    var c := Consumed(s, d.rest);
    RawOfLeb128(d.value);
    DivMod(Raw(c), Pow2(width));
    if Raw(c) < Pow2(width) { ModSmall(Raw(c), Pow2(width)); }
    if Minimal(c) { Leb128OfRaw(c); }
  }

  /** The two widths of the code. */
  lemma Reencodes32(s: Bytes)
    requires Varint32(s).Some?
    ensures var d := Varint32(s).value; var c := Consumed(s, d.rest);
            && OneVarint(c) && s == c + d.rest && d.value == Raw(c) % U32
            && (Leb128(d.value) == c <==> Minimal(c) && Raw(c) < U32)
  {
    Pow2Values();
    hide Pow2, Varint, Leb128, Raw, Consumed, Minimal, OneVarint;
    ReencodesIff(s, 32);
  }

  lemma Reencodes64(s: Bytes)
    requires Varint64(s).Some?
    ensures var d := Varint64(s).value; var c := Consumed(s, d.rest);
            && OneVarint(c) && s == c + d.rest && d.value == Raw(c) % U64
            && (Leb128(d.value) == c <==> Minimal(c) && Raw(c) < U64)
  {
    Pow2Values();
    hide Pow2, Varint, Leb128, Raw, Consumed, Minimal, OneVarint;
    ReencodesIff(s, 64);
  }

  /** One varint within the width is accepted to its end. */
  lemma AcceptsAll(c: Bytes, width: nat)
    requires OneVarint(c) && 7 * (|c| - 1) < width
    ensures Varint(c, 0, 0, width).Some? && Varint(c, 0, 0, width).value.rest == []
  {
    AcceptedIff(c, 0, 0, width) by { assert c[|c| - 1] < 128 && 0 + 7 * (|c| - 1) < width; }
    VarintReads(c, 0, 0, width);
    hide Varint, Raw;
  }

  /** Two inputs that decode to 0 and are not its encoding: one has a byte to spare, and the other
      a bit beyond the width. */
  lemma NotReencoded()
    ensures Varint32([128, 0]) == Some(Decoded(0, [])) && Leb128(0) != [128, 0]
    ensures Varint32([128, 128, 128, 128, 16]) == Some(Decoded(0, [])) && Leb128(0) != [128, 128, 128, 128, 16]
  {
    hide Raw, Varint, Leb128;
    RawOne(0);
    OneMore(128, [0]);
    RawOne(16);
    OneMore(128, [16]);
    OneMore(128, [128, 16]);
    OneMore(128, [128, 128, 16]);
    OneMore(128, [128, 128, 128, 16]);
    var spare: Bytes, beyond: Bytes := [128, 0], [128, 128, 128, 128, 16];
    assert spare == [128] + [0] && beyond == [128] + [128, 128, 128, 16];
    assert [128, 128, 128, 16] == [128] + [128, 128, 16] && [128, 128, 16] == [128] + [128, 16];
    assert [128, 16] == [128] + [16];
    AcceptsAll(spare, 32);
    AcceptsAll(beyond, 32);
    Reencodes32(spare);
    Reencodes32(beyond);
    assert Consumed(spare, []) == spare && Consumed(beyond, []) == beyond;
    assert Raw(beyond) == U32;
    Leb128Small(0);
  }

  lemma ShiftMod(b: nat, p: nat, q: nat)
    requires p > 0 && q > 0
    ensures q * p > 0 && 0 <= b * p % (q * p) <= q * p - p
  {
    DivUnique(b * p, p, b, 0);
    DivDiv(b * p, p, q);
    var r := b % q;
    MulMono(p, r, q - 1);
    Distribute(p, q - 1, 1);
  }

  lemma {:induction false} Pow2Sum(m: nat, n: nat)
    ensures Pow2(m + n) == Pow2(n) * Pow2(m)
    decreases n
  {
    if n == 0 {
    } else {
      Pow2Sum(m, n - 1);
      Regroup(2, Pow2(n - 1), Pow2(m));
    }
  }

  /** Positions p..limit of `buffer`, as the decoding routines see them. */
  function Window(buffer: Bytes, p: nat, limit: nat): Bytes
    requires limit <= |buffer|
  {
    if p < limit then buffer[p..limit] else []
  }

  lemma WindowStep(buffer: Bytes, q: nat, limit: nat, shift: nat, result: nat, width: nat)
    requires limit <= |buffer|
    ensures q >= limit || shift >= width ==> Varint(Window(buffer, q, limit), shift, result, width) == None
    ensures q < limit && shift < width ==>
              Varint(Window(buffer, q, limit), shift, result, width) ==
                if buffer[q] >= 128 then
                  Varint(Window(buffer, q + 1, limit), shift + 7, result + Piece(buffer[q] % 128, shift, width), width)
                else
                  Some(Decoded(result + Piece(buffer[q], shift, width), buffer[q + 1..limit]))
  {
    hide Pow2, Piece;
    if q < limit {
      assert Window(buffer, q, limit)[1..] == Window(buffer, q + 1, limit) == buffer[q + 1..limit];
    }
  }

  /** Decoding loop: None stands for the null result. */
  method GetVarint32PtrFallback(buffer: Bytes, p: nat, limit: nat) returns (r: Option<nat>, value: nat)
    requires limit <= |buffer|
    ensures r.Some? <==> Varint32(Window(buffer, p, limit)).Some?
    ensures r.Some? ==> p <= r.value <= limit
                        && Varint32(Window(buffer, p, limit)) == Some(Decoded(value, buffer[r.value..limit]))
  {
    hide Pow2, Piece, Varint, Window, Or;
    Pow2Zero();
    var result: nat := 0;
    var shift: nat := 0;
    var q := p;
    while shift <= 28 && q < limit
      invariant p <= q && shift % 7 == 0 && shift <= 35
      invariant result < Pow2(shift)
      invariant Varint(Window(buffer, q, limit), shift, result, 32) == Varint32(Window(buffer, p, limit))
      decreases 35 - shift
    {
      WindowStep(buffer, q, limit, shift, result, 32);
      var byte := buffer[q];
      q := q + 1;
      PieceAdds(result, byte % 128, shift, 32);
      if byte >= 128 {
        result := Or(result, Piece(byte % 128, shift, 32));
      } else {
        result := Or(result, Piece(byte, shift, 32));
        return Some(q), result;
      }
      shift := shift + 7;
    }
    WindowStep(buffer, q, limit, shift, result, 32);
    return None, 0;
  }

  /** The fast path for one-byte values gives what the loop gives, on every input. */
  method GetVarint32Ptr(buffer: Bytes, p: nat, limit: nat) returns (r: Option<nat>, value: nat)
    requires limit <= |buffer|
    ensures r.Some? <==> Varint32(Window(buffer, p, limit)).Some?
    ensures r.Some? ==> p <= r.value <= limit
                        && Varint32(Window(buffer, p, limit)) == Some(Decoded(value, buffer[r.value..limit]))
  {
    if p < limit {
      var result := buffer[p];
      if result < 128 {
        Pow2Values();
        ModSmall(result, U32);
        assert Window(buffer, p, limit)[1..] == buffer[p + 1..limit];
        assert Pow2(0) == 1;
        return Some(p + 1), result;
      }
    }
    r, value := GetVarint32PtrFallback(buffer, p, limit);
  }

  method GetVarint64Ptr(buffer: Bytes, p: nat, limit: nat) returns (r: Option<nat>, value: nat)
    requires limit <= |buffer|
    ensures r.Some? <==> Varint64(Window(buffer, p, limit)).Some?
    ensures r.Some? ==> p <= r.value <= limit
                        && Varint64(Window(buffer, p, limit)) == Some(Decoded(value, buffer[r.value..limit]))
  {
    hide Pow2, Piece, Varint, Window, Or;
    Pow2Zero();
    var result: nat := 0;
    var shift: nat := 0;
    var q := p;
    while shift <= 63 && q < limit
      invariant p <= q && shift % 7 == 0 && shift <= 70
      invariant result < Pow2(shift)
      invariant Varint(Window(buffer, q, limit), shift, result, 64) == Varint64(Window(buffer, p, limit))
      decreases 70 - shift
    {
      WindowStep(buffer, q, limit, shift, result, 64);
      var byte := buffer[q];
      q := q + 1;
      PieceAdds(result, byte % 128, shift, 64);
      if byte >= 128 {
        result := Or(result, Piece(byte % 128, shift, 64));
      } else {
        result := Or(result, Piece(byte, shift, 64));
        return Some(q), result;
      }
      shift := shift + 7;
    }
    WindowStep(buffer, q, limit, shift, result, 64);
    return None, 0;
  }

  /** Reads a varint off the front of a slice; the slice moves only on success. */
  method GetVarint32(input: Bytes) returns (ok: bool, rest: Bytes, value: nat)
    ensures ok <==> Varint32(input).Some?
    ensures if ok then Varint32(input) == Some(Decoded(value, rest)) else rest == input
  {
    assert Window(input, 0, |input|) == input;
    var q, v := GetVarint32PtrFallback(input, 0, |input|);
    if q.None? {
      return false, input, v;
    }
    return true, input[q.value..|input|], v;
  }

  method GetVarint64(input: Bytes) returns (ok: bool, rest: Bytes, value: nat)
    ensures ok <==> Varint64(input).Some?
    ensures if ok then Varint64(input) == Some(Decoded(value, rest)) else rest == input
  {
    assert Window(input, 0, |input|) == input;
    var q, v := GetVarint64Ptr(input, 0, |input|);
    if q.None? {
      return false, input, v;
    }
    return true, input[q.value..|input|], v;
  }

  // ----- Length-prefixed slices ---------------------------------------------------------------------

  /** The size is narrowed to 32 bits on the way into the prefix. */
  function Prefixed(s: Bytes): Bytes {
    Leb128(|s| % U32) + s
  }

  function ReadPrefixed(input: Bytes): Option<(Bytes, Bytes)> {
    match Varint32(input)
    case None => None
    case Some(d) => if d.value <= |d.rest| then Some((d.rest[..d.value], d.rest[d.value..])) else None
  }

  lemma PrefixedRoundTrip(s: Bytes, rest: Bytes)
    requires |s| < U32
    ensures ReadPrefixed(Prefixed(s) + rest) == Some((s, rest))
  {
    ModSmall(|s|, U32);
    assert Prefixed(s) + rest == Leb128(|s|) + (s + rest);
    RoundTrip32(|s|, s + rest);
    assert (s + rest)[..|s|] == s && (s + rest)[|s|..] == rest;
  }

  lemma ReadPrefixedExtends(s: Bytes, t: Bytes)
    requires ReadPrefixed(s).Some?
    ensures var r := ReadPrefixed(s).value;
            ReadPrefixed(s + t) == Some((r.0, r.1 + t)) && |r.1| < |s|
  {
    VarintExtends(s, t, 0, 0, 32);
    var d := Varint32(s).value;
    assert (d.rest + t)[..d.value] == d.rest[..d.value];
    assert (d.rest + t)[d.value..] == d.rest[d.value..] + t;
  }

  method PutLengthPrefixedSlice(dst: Bytes, value: Bytes) returns (r: Bytes)
    ensures r == dst + Prefixed(value)
    ensures r == dst + Leb128(|value| % 0x1_0000_0000) + value
  {
    r := PutVarint32(dst, |value| % U32);
    r := r + value;
  }

  /** On failure the slice may still have moved: past a length that is too large for what follows. */
  method GetLengthPrefixedSlice(input: Bytes) returns (ok: bool, rest: Bytes, result: Bytes)
    ensures ok <==> ReadPrefixed(input).Some?
    ensures ok ==> ReadPrefixed(input) == Some((result, rest))
    ensures ok ==> Varint32(input) == Some(Decoded(|result|, result + rest))
    ensures !ok ==> rest == match Varint32(input) case None => input case Some(d) => d.rest
  {
    hide Varint;
    var len;
    ok, rest, len := GetVarint32(input);
    if ok && |rest| >= len {
      result := rest[..len];
      assert result + rest[len..] == rest;
      rest := rest[len..];
    } else {
      ok, result := false, [];
    }
  }

  // ----- Fixed-width integers -------------------------------------------------------------------------

  /** The n low-order bytes of v, least significant first. */
  function LittleEndian(v: nat, n: nat): (s: Bytes)
    ensures |s| == n
    decreases n
  {
    if n == 0 then [] else [v % 256] + LittleEndian(v / 256, n - 1)
  }

  function FromLittleEndian(s: Bytes): nat {
    if s == [] then 0 else s[0] + 256 * FromLittleEndian(s[1..])
  }

  /** Byte i has the i-th eight bits. */
  lemma {:induction false} LittleEndianDigits(v: nat, n: nat, i: nat)
    requires i < n
    ensures LittleEndian(v, n)[i] == v / Pow2(8 * i) % 256
    decreases n
  {
    if i == 0 {
      assert Pow2(0) == 1;
    } else {
      LittleEndianDigits(v / 256, n - 1, i - 1);
      Pow2Step(8 * i - 8);
      assert Pow2(8 * i) == 2 * Pow2(8 * i - 1);
      hide Pow2;
      DivDiv(v, 256, Pow2(8 * i - 8));
    }
  }

  lemma {:induction false} FixedRoundTrip(v: nat, n: nat)
    requires v < Pow2(8 * n)
    ensures FromLittleEndian(LittleEndian(v, n)) == v
    decreases n
  {
    if n == 0 {
    } else {
      Pow2Step(8 * n - 8);
      assert Pow2(8 * n) == 2 * Pow2(8 * n - 1);
      FixedRoundTrip(v / 256, n - 1);
    }
  }

  lemma {:induction false} FixedOnto(s: Bytes)
    ensures LittleEndian(FromLittleEndian(s), |s|) == s
    ensures FromLittleEndian(s) < Pow2(8 * |s|)
    decreases |s|
  {
    if s == [] {
    } else {
      FixedOnto(s[1..]);
      var t := FromLittleEndian(s[1..]);
      DivUnique(s[0] + 256 * t, 256, t, s[0]);
      Pow2Step(8 * |s| - 8);
      assert Pow2(8 * |s|) == 2 * Pow2(8 * |s| - 1);
      assert s == [s[0]] + s[1..];
    }
  }

  method EncodeFixed32(dst: array<Byte>, at: nat, value: uint32)
    requires at + 4 <= dst.Length
    modifies dst
    ensures dst[..] == Overwrite(old(dst[..]), at, LittleEndian(value, 4))
  {
    Fixed32Bytes(value);
    dst[at] := value % 256;
    dst[at + 1] := value / 0x100 % 256;
    dst[at + 2] := value / 0x1_0000 % 256;
    dst[at + 3] := value / 0x100_0000;
  }

  lemma Fixed32Bytes(v: uint32)
    ensures LittleEndian(v, 4) == [v % 256, v / 0x100 % 256, v / 0x1_0000 % 256, v / 0x100_0000]
  {
    var a := v / 256;
    var b := a / 256;
    var c := b / 256;
    assert b == v / 0x1_0000 && c == v / 0x100_0000;
    assert LittleEndian(v, 4) == [v % 256] + LittleEndian(a, 3);
    assert LittleEndian(a, 3) == [a % 256] + LittleEndian(b, 2);
    assert LittleEndian(b, 2) == [b % 256] + LittleEndian(c, 1);
    assert LittleEndian(c, 1) == [c % 256] + LittleEndian(c / 256, 0);
  }

  function DecodeFixed32(buffer: Bytes, at: nat): uint32
    requires at + 4 <= |buffer|
  {
    var b0: nat, b1: nat, b2: nat, b3: nat := buffer[at], buffer[at + 1], buffer[at + 2], buffer[at + 3];
    b0 + b1 * 0x100 + b2 * 0x1_0000 + b3 * 0x100_0000
  }

  lemma DecodeFixed32Meaning(buffer: Bytes, at: nat)
    requires at + 4 <= |buffer|
    ensures DecodeFixed32(buffer, at) == FromLittleEndian(buffer[at..at + 4])
  {
    var s := buffer[at..at + 4];
    assert FromLittleEndian(s[3..]) == s[3] + 256 * FromLittleEndian(s[3..][1..]);
    assert s[2..][1..] == s[3..] && s[1..][1..] == s[2..];
    assert FromLittleEndian(s[2..]) == s[2] + 256 * FromLittleEndian(s[3..]);
    assert FromLittleEndian(s[1..]) == s[1] + 256 * FromLittleEndian(s[2..]);
  }

  /** Reading back what EncodeFixed32 wrote. */
  lemma Fixed32RoundTrip(buffer: Bytes, at: nat, v: uint32)
    requires at + 4 <= |buffer|
    ensures DecodeFixed32(Overwrite(buffer, at, LittleEndian(v, 4)), at) == v
  {
    var b := Overwrite(buffer, at, LittleEndian(v, 4));
    assert b[at..at + 4] == LittleEndian(v, 4);
    DecodeFixed32Meaning(b, at);
    Pow2Values();
    FixedRoundTrip(v, 4);
  }
}
