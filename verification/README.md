# Verified models of the hard cores

This project models the repository's self-contained cores and proves what they are for. Each part
has a specification (functions on values, or a transition system), the code's own steps written in
Dafny's terms, and theorems for all inputs, all states or all runs.

* **Time wheel** (`time_wheel_model.dfy`, `time_wheel_runs.dfy`, `time_wheel_firing.dfy`,
  `time_wheel_order.dfy`, `time_wheel.dfy`). `Wheel` is what a `TimeWheel` object holds; the class updates a 4 x 256 array of
  lists in place and is proved to take exactly the model's steps. Events are ticks, insertions, and
  outside code clearing a timer's `active` flag. The run theorems are about every sequence of events,
  with any number of insertions of the same timer and any number of wraps of the 64-bit clock.
* **Group commit** (`group_commit.dfy`, `group_commit_runs.dfy`, `db_impl.dfy`), joined to the byte
  format of **write batches** (`write_batch.dfy`) and to the **varint and fixed-width coding**
  (`coding.dfy`, `arith.dfy`, `option.dfy`). `DBImpl::Write` is a transition system whose steps are the stretches
  between taking and releasing the mutex, one for each round of the wait loop and of the pop loop;
  a waiting thread may wake at any time. Every concurrent Write passes its own batch.
* **DynamicBits** (`words.dfy`, `dynamic_bits_model.dfy`, `dynamic_bits.dfy`): a summary bitmap over
  64-bit words, against the plain set of numbers it stands for, for 1 <= nr_bits <= 2^32.
* **Lock-free queue** (`lock_free_queue.dfy`, `lock_free_queue_runs.dfy`): one atomic access per
  step, an explicit heap in which freed addresses may be handed out again (pointers carry the number
  of their allocation, so that a stale one shows; the code's comparisons see addresses only), one
  producer and one consumer, sequential consistency, spurious failures of the weak compare-and-swap
  included.
* **Top-k over a heap** (`top_k.dfy`), **free-run search in a bitset** (`free_space.dfy`), **LRU
  cache** (`lru.dfy`, `lru_cache.dfy`) and **round-robin fair queue** (`fair_line.dfy`,
  `fair_queue.dfy`).

`dafny verify dfyconfig.toml` checks everything.

## What the proofs show about the code

* The tick that fires a timer can be computed when it is added (`TimeWheelFiring.FireTick`), and over
  every run from a new wheel a timer fires in the tick given by the earliest of its insertions
  (`TimeWheelFiring.FiresIff`, `TimeWheelFiring.FiresAtEarliest`). That is not always the tick after
  its due time. `AddTimer` takes the slot index from `delta` alone and ignores the cursors, so it is
  the tick to due + 1 if and only if the due time and delta have the same base-256 digit at the level
  chosen and the clock does not wrap in that tick (`TimeWheelFiring.FireTickExact`). They do have it
  for every timer accepted while the clock is a multiple of 256^(level + 1), so for every timer added
  before the first tick. A timer for jiffy 10 added at jiffy 5 runs its callback in the tick to 262
  (`TimeWheelFiring.AddedLateFiresLate`).
* For all insertions the callback is never early, and late by at most 256^(level + 1) if the deadline
  comes before the clock wraps at 2^64 (`TimeWheelRuns.BoundedLateness`). Without that condition the
  bound holds if and only if FireTick comes before the wrap, or exists and the timer expires at 0 or 1
  (`TimeWheelFiring.LatenessIff`).
* Some timers never fire: FireTick is None. One that has not expired when it is added fires before the
  wrap or never (`TimeWheelFiring.NewRound`): on level 0 no visit of its slot comes at or after its
  expiry, and above level 0 the first cascade of the new round of the clock hands it to AddTimer,
  which refuses it (`TimeWheelRuns.TickLands`). A timer for jiffy 2^64 - 50 added at jiffy 2^64 - 100
  is never called (`TimeWheelFiring.LostAtWrap`).
* The ranges in the comments of `GetLevel` (example-time-wheel/time_wheel.cc:75-77) are not those of
  the conditions beside them: level 1 ends at 65535 and level 2 at 16777215. The model follows the
  conditions.
* `adjusted_delta` is an `int` and can overflow at level 3. The model has the conversion, and
  `TimeWheelModel.TruncationHarmless` shows that the slot index is the same without it.
* `shift <= 28 && p < limit` in the 32-bit varint loop accepts a fifth byte with high bits set and
  drops them, and both decoders accept a zero byte to spare. The value is that of the 7-bit digits
  modulo 2^32 or 2^64, and encoding it gives back the bytes read if and only if these do not end in a
  spare zero byte and have no bits beyond the width (`Coding.Reencodes32`, `Coding.Reencodes64`).
  `Coding.NotReencoded` has an input for each of the two.
* In a DynamicBits object, `count_trailing_zeros(v) << (level * level_shift)` is a 32-bit shift. On
  the highest level it would lose bits of a large count, but no such count is there
  (`DynamicBitSets.Truncated`).
* The lock-free queue frees a node that `tail_` may still name. With one producer the dangling
  address is only compared, never followed (`LockFreeQueueRuns.MemorySafe`).

## Model

| member | source | states |
|---|---|---|
| TimeWheelModel.PlaceMeaning | example-time-wheel/time_wheel.cc:10-32 | a timer `delta` away goes to the level whose span brackets delta, at the index that counts whole spans (less one above level 0), whatever the cursors |
| TimeWheelModel.TruncationHarmless | example-time-wheel/time_wheel.cc:25-27 | narrowing `adjusted_delta` to `int` never changes the slot index, even where the value does not fit |
| TimeWheelModel.StepKeepsCursors | example-time-wheel/time_wheel.cc:41-99 | every event keeps all four cursors equal to the base-256 digits of the clock |
| TimeWheelModel.RunKeepsCursors | example-time-wheel/time_wheel.cc:66-98 | in every reachable state, also after the clock wraps, cursor l is (now / 256^l) mod 256, and now counts the ticks modulo 2^64 |
| TimeWheelModel.ExpireMeaning | example-time-wheel/time_wheel.cc:48-62 | the scan keeps exactly the active, unexpired timers of the slot and expires each active, expired one once |
| TimeWheelModel.CascadeMoves | example-time-wheel/time_wheel.cc:80-99 | a cascade empties exactly the due slots of the levels it reaches, and puts each active timer of them that AddTimer accepts where AddTimer would, the cascade at the wrap of the clock included |
| TimeWheelModel.TickMoves | example-time-wheel/time_wheel.cc:41-71 | what any tick, the one that wraps the clock included, does to any timer: it fires exactly if it is active and expired in the due level-0 slot, moves exactly if it is in a due slot above and AddTimer accepts it, and stays otherwise |
| TimeWheelRuns.RunSound | example-time-wheel/time_wheel.cc:53-65 | over any run, no callback runs before expiry and no timer's callback runs twice |
| TimeWheelRuns.RunFine | example-time-wheel/time_wheel.cc:4-99 | in every run, however often the clock wraps, a timer above level 0 is within reach of its level and looked at no later than one revolution after its expiry, or AddTimer refuses it when its slot is looked at next |
| TimeWheelRuns.TickLands | example-time-wheel/time_wheel.cc:41-99 | a tick leaves every timer it does not fire in a slot, and says which; a cascade that AddTimer refuses takes it out |
| TimeWheelRuns.BoundedLateness | example-time-wheel/time_wheel.cc:4-99 | a timer accepted at any moment at level L, after any run and before any run, in other slots already or not, stays in a slot of level at most L until it fires, and has fired by 256^(L+1) + 1 ticks after the later of expiry and insertion, if that deadline comes before the clock wraps |
| TimeWheelRuns.NeverCalledAgain | example-time-wheel/time_wheel.cc:48-65 | a timer whose flag is off, fired or cancelled, is not called in any later run |
| TimeWheelFiring.FiresIff | example-time-wheel/time_wheel.cc:4-99 | over any run from a new wheel, with any insertions and any wraps, a timer that is not cancelled has fired if and only if one of its insertions has a FireTick, a number computed from its expiry and the clock at that insertion, within the ticks of the run |
| TimeWheelFiring.FiresAtEarliest | example-time-wheel/time_wheel.cc:4-99 | it is called in exactly the tick of the earliest of them, and sits in a slot until then |
| TimeWheelFiring.NewRound | example-time-wheel/time_wheel.cc:10-18 | a timer that has not expired when it is added fires before the clock wraps or never; one that has, before the wrap, or in the first tick of the new round that looks at slot 0 of level 0 with the clock at or past its expiry, or never |
| TimeWheelFiring.FireTickExact | example-time-wheel/time_wheel.cc:19-32 | FireTick is due + 1 if and only if due and delta have the same digit at the chosen level and the clock does not wrap in that tick |
| TimeWheelFiring.FireTickBound | example-time-wheel/time_wheel.cc:10-32 | FireTick is at most the deadline if it comes before the wrap, and exists and is at most the deadline if that comes before the wrap |
| TimeWheelFiring.ExactFiring | example-time-wheel/time_wheel.cc:4-99 | a timer accepted at level L while now is a multiple of 256^(L+1), and fired by no other insertion by then, fires in exactly the tick that makes now the later of expiry and insertion plus one, through every cascade, and sits in a slot until then |
| TimeWheelFiring.AlignedBeforeFirstTick | example-time-wheel/time_wheel.h:23 | every timer accepted before the first tick meets the conditions of exact firing |
| TimeWheelFiring.ExactIff | example-time-wheel/time_wheel.cc:19-32 | for an insertion at any moment, if no other insertion fires the timer by then, the callback runs in the tick after the due time if and only if due and delta have the same digit at the chosen level and the clock does not wrap in that tick |
| TimeWheelFiring.LatenessIff | example-time-wheel/time_wheel.cc:4-99 | for an insertion at any moment, if no other insertion fires it by then, the timer has fired by its deadline if and only if FireTick comes before the wrap, or exists and the timer expires at 0 or 1 |
| TimeWheelFiring.AddedLateFiresLate | example-time-wheel/time_wheel.cc:19-32 | over every run from a new wheel in which it is added once, a timer for jiffy 10 added at jiffy 5 fires in exactly the tick to 262 |
| TimeWheelFiring.LostAtWrap | example-time-wheel/time_wheel.cc:19-42 | over every run from a new wheel in which it is added once, a timer for jiffy 2^64 - 50 added at jiffy 2^64 - 100 never fires |
| TimeWheelOrder.CallsInOrder | example-time-wheel/time_wheel.cc:32-93 | over any run from a new wheel, through every cascade and wrap, two timers for the same jiffy, each added once with no tick between and not cancelled, are called in the order in which they were added, each once, or neither is |
| TimeWheelOrder.OrderMeans | example-time-wheel/time_wheel.cc:63-65 | so a call of the first stands before a call of the second among all callbacks |
| TimeWheelOrder.TickCalls | example-time-wheel/time_wheel.cc:46-65 | the callbacks that one tick adds are a subsequence of the list in the due slot, at the new value of the clock |
| TimeWheelOrder.ExpireSub | example-time-wheel/time_wheel.cc:46-62 | the timers that stay and the timers that expire both keep their order |
| TimeWheels.TimeWheel.constructor | example-time-wheel/time_wheel.h:23 | a new wheel is the model's initial state |
| TimeWheels.TimeWheel.AddTimer | example-time-wheel/time_wheel.cc:4-35 | takes the model's insertion step, at the end of the slot's list; answers true exactly for an active timer less than 2^32 jiffies away |
| TimeWheels.TimeWheel.ScanSlot | example-time-wheel/time_wheel.cc:46-62 | the erasing loop leaves the slot with the survivors and returns the expired timers in list order, with exactly their flags cleared |
| TimeWheels.TimeWheel.Tick | example-time-wheel/time_wheel.cc:41-71 | takes the model's tick: clock, slot, flags, callbacks in list order, cursor and cascade |
| TimeWheels.TimeWheel.Cascade | example-time-wheel/time_wheel.cc:80-99 | takes the model's cascade from any level, in place |
| Coding.EncodeVarint32 | common/coding.cc:17-42 | the unrolled encoder writes unsigned LEB128 at the given place, returns its end, and touches nothing else |
| Coding.EncodeVarint64 | common/coding.cc:50-59 | the looped encoder writes unsigned LEB128, so both encoders agree on 32-bit values |
| Coding.VarintLength | common/coding.cc:72-79 | is the length of the LEB128 encoding |
| Coding.Leb128Length | common/coding.cc:44-65 | 32-bit values fit the 5-byte buffer and 64-bit values the 10-byte buffer |
| Coding.Leb128Digits | common/coding.cc:17-59 | byte i of an encoding has the i-th seven bits of the value, least significant first |
| Coding.Leb128Shape | common/coding.cc:17-59 | the continuation bit is set on every byte but the last |
| Coding.PutVarint32 | common/coding.cc:44-48 | appends the encoding |
| Coding.PutVarint64 | common/coding.cc:61-65 | appends the encoding |
| Coding.OrTopBit | common/coding.cc:23-39 | or-ing 128 and storing a byte is the low seven bits plus 128, so the model's arithmetic is the code's |
| Coding.OrAdds32 | common/coding.cc:88-90 | or-ing a shifted piece into a result that is below it adds, so the model's arithmetic is the code's |
| Coding.OrAdds64 | common/coding.cc:113-121 | the same at every shift of the 64-bit loop |
| Coding.PieceAdds | common/coding.cc:84-95 | with the result below the shift, which both decoder loops keep, or-ing the piece in adds it, and the result stays below the next shift |
| Coding.RoundTrip32 | common/coding.cc:81-96 | decoding an encoded 32-bit value gives it back and leaves what follows |
| Coding.RoundTrip64 | common/coding.cc:110-124 | the same for 64 bits |
| Coding.PrefixRejected | common/coding.cc:84-95 | every strict prefix of an encoding is rejected, at both widths |
| Coding.VarintExtends | common/coding.cc:84-95 | a decoder that accepts also accepts with more bytes behind, and leaves those |
| Coding.AcceptedIff | common/coding.cc:84-95 | the loop accepts exactly the inputs with a byte below 128 at a shift below the width, whatever its high bits |
| Coding.Reencodes32 | common/coding.cc:81-96 | the value is the sum of the 7-bit digits read modulo 2^32, and encoding it gives the bytes read if and only if they do not end in a spare zero byte and their sum is below 2^32 |
| Coding.Reencodes64 | common/coding.cc:110-124 | the same for 64 bits |
| Coding.NotReencoded | common/coding.cc:84-95 | two inputs that decode to 0 and are not its encoding, one with a byte to spare and one with a bit beyond the width |
| Coding.GetVarint32PtrFallback | common/coding.cc:81-96 | the loop, or-ing bit by bit, accepts exactly what the decoder accepts, and returns its value and the position after it |
| Coding.GetVarint32Ptr | common/coding.h:92-103 | the fast path gives what the fallback gives on every input |
| Coding.GetVarint64Ptr | common/coding.cc:110-124 | as the fallback, for 64 bits |
| Coding.GetVarint32 | common/coding.cc:98-108 | moves the slice past the varint on success and leaves it alone on failure |
| Coding.GetVarint64 | common/coding.cc:126-136 | as GetVarint32, for 64 bits |
| Coding.PutLengthPrefixedSlice | common/coding.cc:67-70 | appends the length, narrowed to 32 bits, as a varint, and then the bytes |
| Coding.GetLengthPrefixedSlice | common/coding.cc:138-147 | reads a prefixed slice; on failure the slice has moved past a length that is too large, and not otherwise |
| Coding.PrefixedRoundTrip | common/coding.cc:138-147 | a prefixed slice below 2^32 bytes reads back, and what follows is left |
| Coding.FixedRoundTrip | common/coding.h:43-86 | n little-endian bytes decode to the value encoded |
| Coding.LittleEndianDigits | common/coding.h:43-66 | byte i has the i-th eight bits of the value |
| Coding.FixedOnto | common/coding.h:43-86 | the number read from n bytes fits n bytes, and writing it gives those bytes |
| Coding.EncodeFixed32 | common/coding.h:43-50 | writes the four little-endian bytes and nothing else |
| Coding.DecodeFixed32Meaning | common/coding.h:68-74 | reads four bytes as a little-endian number |
| Coding.Fixed32RoundTrip | common/coding.h:43-74 | reading back what EncodeFixed32 wrote gives the value |
| WriteBatches.ReadRecordBack | example-ping-pong-batch/write_batch.cc:6-15 | a written record reads back by the documented grammar, with nothing left |
| WriteBatches.ReadRecordTag | example-ping-pong-batch/write_batch.cc:6-15 | a record begins with byte 0 exactly if it is a deletion and with byte 1 exactly if it is a value; no other byte begins one |
| WriteBatches.WithOpBytes | example-ping-pong-batch/write_batch.cc:33-44 | the layout byte by byte: eight bytes of sequence number as before, at byte 8 a 32-bit count one higher, the records so far, and then byte 1 with key and value, or byte 0 with the key, each behind its length |
| WriteBatches.AppendedBytes | example-ping-pong-batch/write_batch.cc:66-69 | the same for Append: counts at byte 8 add up, and the source's bytes from 12 on go behind |
| WriteBatches.WithOpMeans | example-ping-pong-batch/write_batch.cc:33-44 | Put and Delete add one operation at the end, one to the count, and keep the sequence number |
| WriteBatches.AppendedMeans | example-ping-pong-batch/write_batch.cc:66-69 | Append concatenates the operations, adds the counts, and keeps the destination's sequence number |
| WriteBatches.ClearedIsEmpty | example-ping-pong-batch/write_batch.cc:26-29 | a cleared batch is twelve zero bytes and holds no operation, count 0 and sequence 0 |
| WriteBatches.ApplyAllMeans | example-ping-pong-batch/write_batch.cc:22-69 | after any sequence of Clear, Put, Delete and Append, reading the bytes gives exactly the operations the calls describe, with no byte left over, Count is their number, and without Clear the sequence is unchanged |
| WriteBatches.WriteBatch.constructor | example-ping-pong-batch/write_batch.cc:22 | a new batch is a cleared one |
| WriteBatches.WriteBatch.Clear | example-ping-pong-batch/write_batch.cc:26-29 | leaves twelve zero bytes |
| WriteBatches.WriteBatch.Put | example-ping-pong-batch/write_batch.cc:33-38 | changes the bytes as the model's put, with tag byte 1 |
| WriteBatches.WriteBatch.Delete | example-ping-pong-batch/write_batch.cc:40-44 | changes the bytes as the model's delete, with tag byte 0 |
| WriteBatches.WriteBatch.Append | example-ping-pong-batch/write_batch.cc:66-69 | changes the bytes as the model's append of the bytes the source had, which may be the same batch |
| GroupCommit.MergeMeans | example-ping-pong-batch/main.cc:106-125 | merging stops at the shortest prefix with at least two operations, or takes the whole queue, and the merged bytes hold the operations of exactly those batches in order |
| GroupCommit.TwoWaiting | example-ping-pong-batch/main.cc:113-122 | two waiting batches of one operation each are merged, and the merged bytes hold both in order |
| GroupCommit.InitInv | example-ping-pong-batch/main.cc:21-53 | the invariant holds before any Write |
| GroupCommit.StepKeeps | example-ping-pong-batch/main.cc:46-125 | every step of every thread, spurious wakeups included, keeps the invariant on queue, lock, roles, batches and log |
| GroupCommitRuns.FromInit | example-ping-pong-batch/main.cc:57-59 | the order of arrivals is the order in which the run's Writes took the lock first: push_back puts a newcomer behind all others |
| GroupCommit.CutReads | example-ping-pong-batch/main.cc:66-104 | a log cut into one well-formed write for each group reads back, record by record and with the right counts, as the concatenation of what the arrivals passed |
| GroupCommitRuns.OrderedLog | example-ping-pong-batch/main.cc:46-104 | in every interleaving the log is one write for each group, each a well-formed batch with the right count of exactly the operations of the next Writes in the order in which they entered, each Write at most once, and no Write has returned or been dismissed before its batch is in it |
| GroupCommitRuns.NoLostWakeup | example-ping-pong-batch/main.cc:60-101 | whenever the lock is free, the front is the leader in its I/O or is awake or signalled, and no dismissed writer sleeps |
| GroupCommitRuns.HolderSteps | example-ping-pong-batch/main.cc:86-101 | whoever holds the lock can go on; the pop loop never meets an empty queue |
| GroupCommitRuns.CanStep | example-ping-pong-batch/main.cc:46-104 | while any Write is unfinished, some step other than a spurious wakeup is enabled |
| GroupCommitRuns.LeaderStable | example-ping-pong-batch/main.cc:71-86 | while a leader is in its I/O it is the only one, it stays at the front, and its group stays the same prefix of the queue |
| GroupCommitRuns.LeaderGroup | example-ping-pong-batch/main.cc:106-125 | the group is the shortest prefix of the queue with at least two operations, or all of it, and its batch reads back as the group's operations in order |
| GroupCommitRuns.EveryRunEnds | example-ping-pong-batch/main.cc:46-104 | n Writes take at most 14 n steps and two more for each spurious wakeup |
| GroupCommitRuns.EndComplete | example-ping-pong-batch/main.cc:46-104 | where only spurious wakeups are left, every writer has entered once, every Write has returned and the log is well-formed writes of all batches in the order of entering |
| DBImpls.DBImpl.BuildBatchGroup | example-ping-pong-batch/main.cc:106-125 | merges in place exactly as the model's merge, returns the last member, leaves the followers' batches alone |
| DBImpls.DBImpl.DismissGroup | example-ping-pong-batch/main.cc:86-99 | takes the protocol's Pop steps up to the last member and its Notify step: afterwards queue and done flags are those of that state, and exactly the writers notified there are signalled |
| DBImpls.DismissMeans | example-ping-pong-batch/main.cc:86-101 | those steps come to this: the group leaves the queue, every member but the caller is done and notified, the new front is notified, nothing else changes, and the caller returns without the lock |
| DBImpls.LeaderDismisses | example-ping-pong-batch/main.cc:86-96 | in every state that the invariant allows, a leader in its pop loop meets the preconditions of dismissing its group |
| Words.MaskLowerBit | example-dynamic-bits/dynamic_bits.h:40-42 | the mask has exactly the bits below n |
| Words.FromBit | example-dynamic-bits/dynamic_bits.h:44-46 | masking with the higher bits keeps exactly the bits from n on |
| Words.HasBitBit | example-dynamic-bits/dynamic_bits.h:19-22 | a word and a one-bit mask test that bit |
| Words.WithBitBit | example-dynamic-bits/dynamic_bits.cc:31 | or-ing a one-bit mask changes that bit only |
| Words.WithoutBitBit | example-dynamic-bits/dynamic_bits.cc:43 | and-ing its complement changes that bit only |
| Words.CountTrailingZeros | common/bitopts.h:21-23 | the number of the lowest set bit |
| Words.HighestBit | common/bitopts.h:9-11 | the number of the highest set bit, from which the leading zeros are counted |
| Words.MaskRounds | common/align.h:22-25 | clearing the bits below 1 << k rounds down to a multiple of 2^k |
| Words.MaskRemains | example-dynamic-bits/dynamic_bits.h:52-54 | keeping the bits below 1 << k is the remainder modulo 2^k |
| BitTower.AlignUpMeans | common/align.h:9-12 | the least multiple of align that is not smaller |
| BitTower.Log2CeilIs | common/bitopts.h:30-36 | for a 64-bit x > 1, log2ceil is 64 less the leading zeros of x - 1 |
| BitTower.LevelCountMeans | example-dynamic-bits/dynamic_bits.cc:8-16 | the level formula gives L with nr_bits <= 64^L, and L = 1 or 64^(L-1) < nr_bits |
| BitTower.SizeMeans | example-dynamic-bits/dynamic_bits.cc:17-24 | level i has just enough words for its bits |
| BitTower.MarkedIff | example-dynamic-bits/dynamic_bits.h:56-60 | bit j of level i is set exactly when some member has place j there |
| BitTower.ChangeStep | example-dynamic-bits/dynamic_bits.cc:27-49 | one round of set or clear: the summary invariant is whole again where the code breaks off, and is short of one bit of the next level where it goes on |
| BitTower.NothingAhead | example-dynamic-bits/dynamic_bits.cc:71-82 | with nothing ahead in its word, no member lies from n to the end of what the word covers |
| DynamicBitSets.Climb | example-dynamic-bits/dynamic_bits.cc:80-81 | a round of the climb skips no member |
| DynamicBitSets.Land | example-dynamic-bits/dynamic_bits.cc:87-92 | a round of the descent skips no member, stays below nr_bits, and lands on a non-zero word or on a member |
| DynamicBitSets.Truncated | example-dynamic-bits/dynamic_bits.cc:90-91 | the shifted bit number is below 2^32, so the 32-bit shift loses nothing |
| DynamicBitSets.DynamicBits.constructor | example-dynamic-bits/dynamic_bits.cc:8-25 | starts empty, with the summary invariant, and as many levels as one top word needs |
| DynamicBitSets.DynamicBits.Test | example-dynamic-bits/dynamic_bits.h:19-22 | membership |
| DynamicBitSets.DynamicBits.Set | example-dynamic-bits/dynamic_bits.cc:27-37 | adds n to the set and nothing else, and keeps the summary invariant despite the early break |
| DynamicBitSets.DynamicBits.Clear | example-dynamic-bits/dynamic_bits.cc:39-49 | removes n and nothing else, and keeps the summary invariant |
| DynamicBitSets.DynamicBits.FindFirstSet | example-dynamic-bits/dynamic_bits.cc:51-64 | the least member, or 2^64 - 1 |
| DynamicBitSets.DynamicBits.FindLastSet | example-dynamic-bits/dynamic_bits.cc:97-110 | the greatest member, or 2^64 - 1 |
| DynamicBitSets.DynamicBits.FindNextSet | example-dynamic-bits/dynamic_bits.cc:66-95 | the least member above n, or 2^64 - 1; n = 2^64 - 1 starts from 0; every access in bounds, climb and descent end |
| DynamicBitSets.DynamicBits.Scan | example-dynamic-bits/main.cc:33-49 | asking for the next member, beginning with nopos, until 2^64 - 1 comes back visits every member once, in ascending order |
| LockFreeQueues.StepKeeps | example-lfq/main.cc:30-61 | every atomic step of either thread keeps list, memory and values in order |
| LockFreeQueueRuns.MemorySafe | example-lfq/main.cc:17-59 | in every interleaving no freed node is read, written or freed again, even when its address has been handed out since; no two live nodes share an address, null_tail stays null, tail_ is the last node or, while a swing is pending, the one linked before it, and the allocated memory is exactly the list, the node not linked yet and the node not freed yet |
| LockFreeQueueRuns.FreedForGood | example-lfq/main.cc:56 | a freed node is never live again, whatever is allocated at its address, so a stale pointer shows as a fault |
| LockFreeQueueRuns.Linearizable | example-lfq/main.cc:30-61 | every run's answers, false and empty included, are those of a plain FIFO queue doing one whole operation at a step inside each call, enqueues in call order |
| LockFreeQueueRuns.RealTimeOrder | example-lfq/main.cc:30-61 | an enqueue that has returned before a call of the consumer is made comes before it in the history, and the other way round |
| LockFreeQueueRuns.CallsInHistory | example-lfq/main.cc:30-61 | the history of a run holds every call that has returned, and no call that has not been made |
| LockFreeQueueRuns.TakenIsPrefix | example-lfq/main.cc:44-59 | the values dequeued are a prefix of those enqueued |
| LockFreeQueueRuns.CallsEnd | example-lfq/main.cc:30-61 | enqueue takes four steps and two for each spurious failure, dequeue at most five, empty two: no call waits for the other thread |
| LockFreeQueueRuns.AllAnswered | example-lfq/main.cc:30-61 | a run that can only go on with a new call has answered every call, all of them stand in the history, and what was enqueued is what was dequeued followed by what is in the list |
| TopK.SortedMeans | example-minheap-topk/min_heap.h:17-48 | the reference: the same elements in ascending order |
| TopK.FrontierCovers | example-minheap-topk/min_heap.h:37-46 | under every index not taken there is one on the frontier that is not larger |
| TopK.FrontierStep | example-minheap-topk/min_heap.h:34-46 | after a round the queue holds each frontier index once, with its element, and nothing else |
| TopK.TopIsLeast | example-minheap-topk/min_heap.h:34 | the top of the queue is the least of all that is left |
| TopK.PickSome | example-minheap-topk/min_heap.h:33-35 | the queue is not empty when popped, and has at most i + 1 entries after i rounds |
| TopK.TopKMin | example-minheap-topk/min_heap.h:17-48 | appends exactly the first min(k, n) elements of the sorted heap, in order |
| LruLists.RunFine | common/lru.h:18-45 | in every reachable state keys are distinct and the size is at most cap |
| LruLists.Inclusion | common/lru.h:18-45 | after the same calls, the list of a smaller cache is a subsequence of a larger one's, with equal values, and equal to it while not full |
| LruLists.HitsIncluded | common/lru.h:18-27 | every hit in the smaller cache is the same hit in the larger |
| LruLists.RunHolds | common/lru.h:18-45 | in every reachable state the list holds the most recently used keys, as many as fit, most recent first, each with the value last put |
| LruLists.HitIsLastPut | common/lru.h:18-27 | a hit returns the value last put under the key |
| LruCaches.LRU.constructor | common/lru.h:11 | starts empty |
| LruCaches.LRU.Get | common/lru.h:18-27 | a miss changes nothing; a hit gives the value and moves the node to the front |
| LruCaches.LRU.Put | common/lru.h:29-45 | updates in place and moves to the front, or inserts and drops the last; the map keeps leading each key to its own node |
| FreeSpace.FindFirst | example-bitset/main.cc:51-71 | the plain scans give the first bit of that value, or N |
| FreeSpace.ToWordBit | example-bitset/main.cc:121-123 | the chunk as a number has the chunk's bits and zeros above |
| FreeSpace.FindInWord | example-bitset/main.cc:97-107 | the lowest bit of that value in a chunk, or none |
| FreeSpace.FindFirstV1 | example-bitset/main.cc:111-151 | the chunked scans give what the plain ones give, zeros shifted in past N included |
| FreeSpace.CountRun | example-bitset/main.cc:78 | with a run of cnt free bits at least cnt bits are free, so the early exit is right |
| FreeSpace.SkipRuns | example-bitset/main.cc:81-92 | skipping to after the next used bit skips no run |
| FreeSpace.FindContinuousFreeSpace | example-bitset/main.cc:73-94 | the lowest start of cnt consecutive free bits, or N when there is none or cnt is 0, with either kind of scan |
| FairLines.PushMeans | example-fq/fair_queue.cc:35-45 | Push adds exactly the request behind what its client has pending, or puts a new client with it at the end, and leaves all others as and where they are |
| FairLines.ServedNext | example-fq/fair_queue.cc:35-60 | a client at place i is served by exactly the (i+1)-th following Pop, whatever is pushed in between, with the request it had first |
| FairLines.RunOrderly | example-fq/fair_queue.cc:35-60 | in every reachable state clients are distinct and have something to serve |
| FairLines.FirstInFirstOut | example-fq/fair_queue.cc:10-21 | over any run each client's requests leave in the order they came, none lost and none twice |
| FairQueues.ClientRequestQueue.Push | example-fq/fair_queue.cc:10-13 | appends the request |
| FairQueues.ClientRequestQueue.Pop | example-fq/fair_queue.cc:15-21 | takes the first request and says whether it was the last |
| FairQueues.RequestFairQueue.Push | example-fq/fair_queue.cc:35-45 | takes the model's step, and keeps map and line listing the same clients |
| FairQueues.RequestFairQueue.Pop | example-fq/fair_queue.cc:47-60 | takes the model's step; false exactly when nobody waits |

## Left out

- `RemoveTimer` (example-time-wheel/time_wheel.cc:37-39): its null test is inverted, so it does nothing for a real timer.
- Callbacks that add timers to or tick the wheel that runs them, and outside code that sets `active` back to true.
- TimeWheelRuns.BoundedLateness: says nothing about a deadline past the wrap of the clock; `TimeWheelFiring.LatenessIff` does.
- TimeWheelFiring.ExactFiring: is, like ExactIff and LatenessIff, about an insertion that no other insertion of the same timer gets ahead of; `TimeWheelFiring.FiresAtEarliest` is for all of them together.
- TimeWheels.TimeWheel.Tick: a timer whose `func` is empty counts as called; the wheel treats it the same way.
- Printing, sleeping, real threads, mutexes and condition variables: abstract steps in their place. Weak memory orderings: sequential consistency in their place.
- `Status` values, which are always OK in `DBImpl::Write`, and the write-ahead log itself: its content is a history variable.
- Two concurrent Writes that pass the same batch: the leader's batch is changed in place, so each passes its own.
- WriteBatches.ApplyAllMeans: takes slices below 2^32 bytes and counts below 2^31, as the format does; so do `WriteBatches.WriteBatch.Put`, `WriteBatches.WriteBatch.Delete` and `WriteBatches.WriteBatch.Append` for counts.
- `SetSequence`, `SetContents`, `ApproximateSize`, `EncodeFixed64` and `DecodeFixed64` as routines of their own: easy members (`Coding.FixedRoundTrip` is for any width).
- DynamicBitSets.DynamicBits.Scan: a loop of callers, as in the tests of find_next_set; the class has no such routine.
- Coding.EncodeVarint32: the byte stores go through a helper, and the longer branches are methods of their own.
- DynamicBits with `nr_bits` 0 or above 2^32: the level formula and the 32-bit values are not meant for it. `set`, `clear` and `test` take n < nr_bits.
- DynamicBitSets.DynamicBits.FindNextSet: places are computed on numbers; that masks and shifts of a word compute them is `Words.MaskRounds` and `Words.MaskRemains`, for k < 64.
- Several producers or consumers of the lock-free queue, `empty` called by the producer, and its destructor: `null_tail` is shared and overwritten on a failed compare-and-swap, and the result of the one on `head_` is ignored.
- LockFreeQueueRuns.Linearizable: values are integers, where the queue is a template.
- LockFreeQueueRuns.CallsEnd: counts a call's own steps, and leaves the scheduler and how often the weak compare-and-swap fails open.
- The insides of `std::priority_queue`, `std::list`, `std::deque` and `std::unordered_map`: abstract containers. Heap order is a precondition of `TopK.TopKMin`.
- TopK.TopKMin: elements are integers, and indices do not overflow.
- LruCaches.LRU.Get: keys and values are integers; the list search that `splice` avoids is a function here.
- FreeSpace.FindFirstV1: the two routines for zeros and ones are one method with a parameter, and so are the two entry points of the search.
- `MarkSpaceUsed` and `MarkSpaceFreed` (example-bitset/main.cc:153-165): easy members.
- FairQueues.RequestFairQueue.Pop: its steps (take the front, come back, erase) are methods of their own; they run in the code's order.
- FairQueues.ClientRequestQueue.Pop: copies the request before removing it. Object lifetime in fair_queue.cc (a reference used after `pop_front`, emptied client queues not deleted) is not part of this model.
- example-writablefile, example-posix, example-wal, example-str-utils, example-blocklist, and the language-feature examples: system calls, thin wrappers or easier look-ups.
