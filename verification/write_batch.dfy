/** The write batch: a byte string with a 12-byte header and a record for each operation. */
module WriteBatches {
  import opened Coding
  import opened Options

  const HEADER: nat := 12          // an 8-byte sequence number and a 4-byte count
  const TYPE_DELETION: Byte := 0
  const TYPE_VALUE: Byte := 1
  // counts are returned as `int`: up to 0x7FFF_FFFF no conversion wraps

  datatype Op = Put(key: Bytes, value: Bytes) | Delete(key: Bytes)

  // ----- The byte-level operations -----------------------------------------------------------------

  function Count(rep: Bytes): nat
    requires |rep| >= HEADER
  {
    DecodeFixed32(rep, 8)
  }

  function Sequence(rep: Bytes): nat
    requires |rep| >= HEADER
  {
    FromLittleEndian(rep[..8])
  }

  function SetCount(rep: Bytes, n: nat): (r: Bytes)
    requires |rep| >= HEADER
    ensures |r| == |rep|
  {
    Overwrite(rep, 8, LittleEndian(n % U32, 4))
  }

  /** The record an operation is stored as. */
  function Record(op: Op): Bytes {
    match op
    case Put(key, value) => [TYPE_VALUE] + Prefixed(key) + Prefixed(value)
    case Delete(key) => [TYPE_DELETION] + Prefixed(key)
  }

  function Cleared(): Bytes {
    seq(HEADER, i => 0)
  }

  function WithOp(rep: Bytes, op: Op): Bytes
    requires |rep| >= HEADER
  {
    SetCount(rep, Count(rep) + 1) + Record(op)
  }

  function Appended(dst: Bytes, src: Bytes): Bytes
    requires |dst| >= HEADER && |src| >= HEADER
  {
    SetCount(dst, Count(dst) + Count(src)) + src[HEADER..]
  }

  // ----- What the bytes mean --------------------------------------------------------------------------

  /** Reads one record off the front, by the documented grammar. */
  function ReadRecord(data: Bytes): Option<(Op, Bytes)> {
    if data == [] then
      None
    else
      match ReadPrefixed(data[1..])
      case None => None
      case Some((key, rest)) =>
        if data[0] == TYPE_DELETION then
          Some((Delete(key), rest))
        else if data[0] == TYPE_VALUE then
          match ReadPrefixed(rest)
          case None => None
          case Some((value, rest')) => Some((Put(key, value), rest'))
        else
          None
  }

  lemma ReadRecordShrinks(data: Bytes)
    requires ReadRecord(data).Some?
    ensures |ReadRecord(data).value.1| < |data|
  {
    ReadPrefixedExtends(data[1..], []);
    if data[0] == TYPE_VALUE { ReadPrefixedExtends(ReadPrefixed(data[1..]).value.1, []); }
  }

  /** The tag byte decides: 0 is a deletion, 1 a value, and no other byte begins a record. */
  lemma ReadRecordTag(data: Bytes)
    requires ReadRecord(data).Some?
    ensures data != [] && data[0] == if ReadRecord(data).value.0.Delete? then 0 else 1
  {
  }

  /** The documented layout, byte by byte. A fixed 64-bit sequence number, which stays; at byte 8 a
      fixed 32-bit count, which goes up by one; from byte 12 on the records so far; and then a byte 1,
      the key and the value, or a byte 0 and the key. */
  lemma WithOpBytes(rep: Bytes, op: Op)
    requires |rep| >= 12
    ensures var r := WithOp(rep, op);
            && |r| > |rep| && r[..8] == rep[..8] && r[12..|rep|] == rep[12..]
            && FromLittleEndian(r[8..12]) == (FromLittleEndian(rep[8..12]) + 1) % 0x1_0000_0000
            && var key := Leb128(|op.key| % 0x1_0000_0000) + op.key;
               && (op.Put? ==> r[|rep|] == 1
                               && r[|rep| + 1..] == key + Leb128(|op.value| % 0x1_0000_0000) + op.value)
               && (op.Delete? ==> r[|rep|] == 0 && r[|rep| + 1..] == key)
  {
    hide Leb128, DecodeFixed32, LittleEndian, FromLittleEndian;
    DecodeFixed32Meaning(rep, 8);
    CountBytes(rep, Count(rep) + 1);
    var s := SetCount(rep, Count(rep) + 1);
    var r := WithOp(rep, op);
    assert r[..|rep|] == s && r[|rep|..] == Record(op);
    assert r[8..12] == s[8..12] && r[..8] == s[..8] && r[12..|rep|] == s[12..];
    match op
    case Put(key, value) =>
      assert Record(op)[1..] == Prefixed(key) + Prefixed(value);
      assert Prefixed(key) + Prefixed(value) == Leb128(|key| % U32) + key + Leb128(|value| % U32) + value;
    case Delete(key) => assert Record(op)[1..] == Prefixed(key);
  }

  lemma CountBytes(rep: Bytes, n: nat)
    requires |rep| >= 12
    ensures var s := SetCount(rep, n);
            && |s| == |rep| && s[..8] == rep[..8] && s[12..] == rep[12..]
            && FromLittleEndian(s[8..12]) == n % 0x1_0000_0000
  {
    hide DecodeFixed32, LittleEndian, FromLittleEndian;
    Fixed32RoundTrip(rep, 8, n % U32);
    DecodeFixed32Meaning(SetCount(rep, n), 8);
  }

  /** Append keeps the first twelve bytes apart from the count, which adds up, and puts the records of
      the source behind its own. */
  lemma AppendedBytes(dst: Bytes, src: Bytes)
    requires |dst| >= 12 && |src| >= 12
    ensures var r := Appended(dst, src);
            && |r| == |dst| + |src| - 12
            && r[..8] == dst[..8] && r[12..] == dst[12..] + src[12..]
            && FromLittleEndian(r[8..12]) ==
                 (FromLittleEndian(dst[8..12]) + FromLittleEndian(src[8..12])) % 0x1_0000_0000
  {
    hide DecodeFixed32, LittleEndian, FromLittleEndian;
    DecodeFixed32Meaning(dst, 8);
    DecodeFixed32Meaning(src, 8);
    CountBytes(dst, Count(dst) + Count(src));
    var s := SetCount(dst, Count(dst) + Count(src));
    assert Appended(dst, src)[..|dst|] == s;
    assert Appended(dst, src)[8..12] == s[8..12];
  }

  /** All records, with no byte left over. */
  function Read(data: Bytes): Option<seq<Op>>
    decreases |data|
  {
    if data == [] then
      Some([])
    else
      match ReadRecord(data)
      case None => None
      case Some((op, rest)) =>
        ReadRecordShrinks(data);
        match Read(rest)
        case None => None
        case Some(ops) => Some([op] + ops)
  }

  /** The bytes are a batch of exactly these operations. */
  ghost predicate Holds(rep: Bytes, ops: seq<Op>) {
    |rep| >= HEADER && Read(rep[HEADER..]) == Some(ops) && Count(rep) == |ops|
  }

  predicate FitsPrefix(op: Op) {
    |op.key| < U32 && (op.Put? ==> |op.value| < U32)
  }

  lemma ReadRecordExtends(data: Bytes, more: Bytes)
    requires ReadRecord(data).Some?
    ensures var r := ReadRecord(data).value;
            ReadRecord(data + more) == Some((r.0, r.1 + more))
  {
    assert (data + more)[0] == data[0] && (data + more)[1..] == data[1..] + more;
    ReadPrefixedExtends(data[1..], more);
    if data[0] == TYPE_VALUE { ReadPrefixedExtends(ReadPrefixed(data[1..]).value.1, more); }
  }

  lemma ReadStep(data: Bytes, op: Op, rest: Bytes)
    requires ReadRecord(data) == Some((op, rest))
    ensures data != []
    ensures Read(data) == if Read(rest).Some? then Some([op] + Read(rest).value) else None
  {
    hide ReadRecord;
    assert data != [] by { RecordNotEmpty(data); }
  }

  lemma RecordNotEmpty(data: Bytes)
    requires ReadRecord(data).Some?
    ensures data != []
  {
  }

  lemma ReadHead(data: Bytes)
    requires data != [] && Read(data).Some?
    ensures ReadRecord(data).Some?
    ensures var r := ReadRecord(data).value;
            |r.1| < |data| && Read(r.1).Some? && Read(data) == Some([r.0] + Read(r.1).value)
  {
    hide ReadRecord;
    if ReadRecord(data).Some? { ReadRecordShrinks(data); }
  }

  lemma ReadNothing()
    ensures Read([]) == Some([])
  {
  }

  /** Reading distributes over concatenation, for whatever bytes the reader accepts. */
  lemma {:induction false} ReadConcat(a: Bytes, b: Bytes)
    requires Read(a).Some? && Read(b).Some?
    ensures Read(a + b) == Some(Read(a).value + Read(b).value)
    decreases |a|
  {
    hide Read, ReadRecord;
    if a == [] {
      ReadNothing();
      assert a + b == b && [] + Read(b).value == Read(b).value;
    } else {
      ReadHead(a);
      var op, rest := ReadRecord(a).value.0, ReadRecord(a).value.1;
      ReadRecordExtends(a, b);
      ReadStep(a + b, op, rest + b);
      ReadConcat(rest, b);
      assert [op] + (Read(rest).value + Read(b).value) == ([op] + Read(rest).value) + Read(b).value;
    }
  }

  lemma ReadRecordBack(op: Op)
    requires FitsPrefix(op)
    ensures ReadRecord(Record(op)) == Some((op, []))
    ensures Read(Record(op)) == Some([op])
  {
    var data := Record(op);
    hide Prefixed, ReadPrefixed;
    match op {
      case Put(key, value) =>
        assert data[1..] == Prefixed(key) + Prefixed(value);
        PrefixedRoundTrip(key, Prefixed(value));
        PrefixedRoundTrip(value, []);
        assert Prefixed(value) + [] == Prefixed(value);
      case Delete(key) =>
        assert data[1..] == Prefixed(key) + [];
        PrefixedRoundTrip(key, []);
    }
    hide Record, ReadRecord;
    ReadNothing();
    ReadStep(data, op, []);
    assert [op] + [] == [op];
  }

  // ----- The header is kept apart from the records ------------------------------------------------------

  lemma SetCountTail(rep: Bytes, n: nat)
    requires |rep| >= HEADER
    ensures SetCount(rep, n)[HEADER..] == rep[HEADER..]
  {
  }

  lemma SetCountParts(rep: Bytes, n: nat, tail: Bytes)
    requires |rep| >= HEADER && n < U32
    ensures var r := SetCount(rep, n) + tail;
            Count(r) == n && Sequence(r) == Sequence(rep) && r[HEADER..] == rep[HEADER..] + tail
  {
    ModSmall(n, U32);
    var s := LittleEndian(n, 4);
    var r := Overwrite(rep, 8, s) + tail;
    Fixed32RoundTrip(rep, 8, n);
    assert r[8..12] == Overwrite(rep, 8, s)[8..12];
    DecodeFixed32Meaning(r, 8);
    DecodeFixed32Meaning(Overwrite(rep, 8, s), 8);
    assert r[..8] == rep[..8];
  }

  lemma ClearedIsEmpty()
    ensures Cleared() == [0, 0, 0, 0, 0, 0, 0, 0, 0, 0, 0, 0]
    ensures Holds(Cleared(), []) && Sequence(Cleared()) == 0
  {
    DecodeFixed32Meaning(Cleared(), 8);
    ZeroBytes(Cleared()[8..12]);
    ZeroBytes(Cleared()[..8]);
  }

  lemma {:induction false} ZeroBytes(s: Bytes)
    requires forall i :: 0 <= i < |s| ==> s[i] == 0
    ensures FromLittleEndian(s) == 0
    decreases |s|
  {
    if s == [] {
    } else {
      ZeroBytes(s[1..]);
    }
  }

  /** Put and Delete add one operation at the end and leave the sequence number alone. */
  lemma WithOpMeans(rep: Bytes, ops: seq<Op>, op: Op)
    requires Holds(rep, ops) && FitsPrefix(op) && |ops| < 0x7FFF_FFFF
    ensures Holds(WithOp(rep, op), ops + [op]) && Sequence(WithOp(rep, op)) == Sequence(rep)
  {
    hide Read, SetCount, Count, Sequence, Record;
    SetCountParts(rep, Count(rep) + 1, Record(op));
    ReadRecordBack(op);
    ReadConcat(rep[HEADER..], Record(op));
  }

  /** Append is concatenation of the operations; dst keeps its sequence number. */
  lemma AppendedMeans(dst: Bytes, a: seq<Op>, src: Bytes, b: seq<Op>)
    requires Holds(dst, a) && Holds(src, b) && |a| + |b| <= 0x7FFF_FFFF
    ensures Holds(Appended(dst, src), a + b) && Sequence(Appended(dst, src)) == Sequence(dst)
  {
    hide Read, SetCount, Count, Sequence;
    SetCountParts(dst, Count(dst) + Count(src), src[HEADER..]);
    ReadConcat(dst[HEADER..], src[HEADER..]);
  }

  // ----- Any sequence of operations on a batch ------------------------------------------------------------

  datatype Call = Clear | Add(op: Op) | Append(src: Bytes)

  function Apply(rep: Bytes, call: Call): (r: Bytes)
    requires |rep| >= HEADER && (call.Append? ==> |call.src| >= HEADER)
    ensures |r| >= HEADER
  {
    match call
    case Clear => Cleared()
    case Add(op) => WithOp(rep, op)
    case Append(src) => Appended(rep, src)
  }

  /** The same call on the list of operations. */
  function Effect(ops: seq<Op>, call: Call): seq<Op> {
    match call
    case Clear => []
    case Add(op) => ops + [op]
    case Append(src) => ops + (if |src| >= HEADER then Read(src[HEADER..]).ValueOr([]) else [])
  }

  /** What callers owe: slices below 2^32 bytes, a well-formed source, counts that fit an int. */
  ghost predicate Callable(ops: seq<Op>, calls: seq<Call>)
    decreases |calls|
  {
    calls == [] ||
    (&& (calls[0].Add? ==> FitsPrefix(calls[0].op))
     && (calls[0].Append? ==> |calls[0].src| >= HEADER && exists more :: Holds(calls[0].src, more))
     && |Effect(ops, calls[0])| <= 0x7FFF_FFFF
     && Callable(Effect(ops, calls[0]), calls[1..]))
  }

  function ApplyAll(rep: Bytes, calls: seq<Call>): Bytes
    requires |rep| >= HEADER && forall c :: c in calls && c.Append? ==> |c.src| >= HEADER
    decreases |calls|
  {
    if calls == [] then rep else ApplyAll(Apply(rep, calls[0]), calls[1..])
  }

  function EffectAll(ops: seq<Op>, calls: seq<Call>): seq<Op>
    decreases |calls|
  {
    if calls == [] then ops else EffectAll(Effect(ops, calls[0]), calls[1..])
  }

  lemma {:induction false} CallableHeaders(ops: seq<Op>, calls: seq<Call>)
    requires Callable(ops, calls)
    ensures forall c :: c in calls && c.Append? ==> |c.src| >= HEADER
    decreases |calls|
  {
    if calls == [] {
    } else {
      CallableHeaders(Effect(ops, calls[0]), calls[1..]);
      assert calls == [calls[0]] + calls[1..];
    }
  }

  lemma ApplyMeans(rep: Bytes, ops: seq<Op>, call: Call)
    requires Holds(rep, ops) && Callable(ops, [call])
    ensures Holds(Apply(rep, call), Effect(ops, call))
    ensures !call.Clear? ==> Sequence(Apply(rep, call)) == Sequence(rep)
  {
    assert [call][0] == call;
    match call
    case Clear => ClearedIsEmpty();
    case Add(op) => WithOpMeans(rep, ops, op);
    case Append(src) =>
      var more :| Holds(src, more);
      AppendedMeans(rep, ops, src, more);
  }

  /** After any calls, reading the bytes by the documented grammar gives exactly the list of
      operations the calls describe, with no byte left over, and Count is its length. */
  lemma {:induction false} ApplyAllMeans(rep: Bytes, ops: seq<Op>, calls: seq<Call>)
    requires Holds(rep, ops) && Callable(ops, calls)
    ensures forall c :: c in calls && c.Append? ==> |c.src| >= HEADER
    ensures Holds(ApplyAll(rep, calls), EffectAll(ops, calls))
    ensures (forall c :: c in calls ==> !c.Clear?) ==> Sequence(ApplyAll(rep, calls)) == Sequence(rep)
    decreases |calls|
  {
    CallableHeaders(ops, calls);
    if calls == [] {
    } else {
      assert calls[0] in calls;
      assert [calls[0]][1..] == [];
      ApplyMeans(rep, ops, calls[0]);
      ApplyAllMeans(Apply(rep, calls[0]), Effect(ops, calls[0]), calls[1..]);
    }
  }

  lemma Regrouped(a: Bytes, b: Bytes, c: Bytes, d: Bytes)
    ensures a + b + c + d == a + (b + c + d)
    ensures a + b + c == a + (b + c)
  {
  }

  // ----- The object ------------------------------------------------------------------------------------------

  class WriteBatch {
    var rep: Bytes

    constructor ()
      ensures rep == Cleared()
    {
      rep := Cleared();
    }

    method Clear()
      modifies this
      ensures rep == Cleared()
    {
      rep := [];
      rep := rep + seq(HEADER, i => 0);
    }

    /** kTypeValue, then the two slices, after the count has gone up. */
    method Put(key: Bytes, value: Bytes)
      requires |rep| >= 12 && Count(rep) < 0x7FFF_FFFF
      modifies this
      ensures |rep| > |old(rep)|
      ensures rep == WithOp(old(rep), Op.Put(key, value)) && rep[|old(rep)|] == 1
    {
      hide SetCount, Count, Prefixed;
      rep := SetCount(rep, Count(rep) + 1);
      rep := rep + [TYPE_VALUE];
      rep := PutLengthPrefixedSlice(rep, key);
      rep := PutLengthPrefixedSlice(rep, value);
      Regrouped(SetCount(old(rep), Count(old(rep)) + 1), [TYPE_VALUE], Prefixed(key), Prefixed(value));
    }

    method Delete(key: Bytes)
      requires |rep| >= 12 && Count(rep) < 0x7FFF_FFFF
      modifies this
      ensures |rep| > |old(rep)|
      ensures rep == WithOp(old(rep), Op.Delete(key)) && rep[|old(rep)|] == 0
    {
      hide SetCount, Count, Prefixed;
      rep := SetCount(rep, Count(rep) + 1);
      rep := rep + [TYPE_DELETION];
      rep := PutLengthPrefixedSlice(rep, key);
      Regrouped(SetCount(old(rep), Count(old(rep)) + 1), [TYPE_DELETION], Prefixed(key), []);
    }

    /** `src` may be this batch itself. */
    method Append(src: WriteBatch)
      requires |rep| >= HEADER && |src.rep| >= HEADER
      requires Count(rep) + Count(src.rep) <= 0x7FFF_FFFF
      modifies this
      ensures rep == Appended(old(rep), old(src.rep))
    {
      hide SetCount, Count;
      ghost var mine, more := rep, src.rep;
      SetCountTail(mine, Count(mine) + Count(more));
      rep := SetCount(rep, Count(rep) + Count(src.rep));
      assert src.rep[HEADER..] == more[HEADER..];
      rep := rep + src.rep[HEADER..];
    }
  }
}
