# Capacitor, modelled and proved in Dafny

Capacitor is a local-first replicated cache. Every node answers reads and writes from its own
memory, stamps each write with a hybrid logical clock, appends it to a delta log, and ships the
log to its peers, which merge the entries. This project models that core and proves what the
parts promise together: causality of the clocks, convergence of registers and counters,
read-your-writes, the double ring of the log, the replication cursor, the wire codec, sliding
windows, write-behind persistence and the sharded store. `dafny verify dfyconfig.toml` checks
all of it.

| file | subject |
|---|---|
| `Wrappers.dfy` | `Option` and `Max` |
| `Clock.dfy` | the hybrid logical clock, with its int32 wrap-around |
| `Causality.dfy` | clocks of a cluster exchanging timestamps, wall clocks arbitrary |
| `Registers.dfy` | last-write-wins registers, tombstones, TTLs, pruning |
| `Cluster.dfy` | the cluster as a state machine: calls of every node interleaved step by step, entries delivered in any order and any number of times |
| `ClusterRegisters.dfy`, `ClusterReads.dfy`, `ClusterCounters.dfy`, `ClusterDecrements.dfy` | what every run of that machine keeps, and what reads answer |
| `MessagePack.dfy`, `Wire.dfy`, `Framing.dfy`, `Cuts.dfy` | the codec of timestamps, log entries, handshakes and batches, the batch stream, and streams that are cut |
| `Formats.dfy`, `Skipping.dfy`, `Widening.dfy` | the bytes of that codec literally, unknown fields, and deltas that arrive as float32 |
| `DeltaLog.dfy`, `LogBounds.dfy`, `EntryBounds.dfy`, `EntrySizes.dfy` | the index ring over the byte ring, how large its pieces may be, and how large its log entries may be |
| `Replication.dfy`, `Pacing.dfy`, `Acceptance.dfy`, `Delivery.dfy` | the cursor protocol over that log, cursors that are overtaken or moved back, which entries the peer's clock accepts, and the entries from end to end |
| `Windows.dfy` | sliding windows |
| `Keys.dfy`, `Sums.dfy`, `Store.dfy`, `Persistence.dfy`, `Ledger.dfy`, `Shards.dfy` | key encoding, cached sums, the flat memory, flush and load, the account of a run, and the 256 shards that refine the memory |

Wall clocks, delivery, send failures, the moments of flushes, prunes, expiry and restarts are
free choices of the state machines, so a theorem about a run is about every such choice.

Where the code does not do what its documentation, or a reader, would expect, the model follows
the code:

- The documentation calls the counter a PN-counter. A peer keeps only larger partials, so a
  decrement is lost unless the final total is the largest one logged
  (`ClusterCounters.PeerAgreesExactlyWhenLargest`, `ClusterDecrements.DecrementIsLost`).
- "Read your writes" holds up to timestamp ties, because timestamps carry no node id
  (`ClusterRegisters.ReadYourWrites`, `ClusterRegisters.TieHidesLocalWrite`).
- A positive TTL below a millisecond expires at the writer and never at its peers
  (`Registers.SubMillisecondNeverExpires`).
- Counter and metric keys that contain a colon collide, and are reloaded into another shard and
  another aggregate (`Keys.ColonKeysCollide`, `Keys.ColonKeyMovesShard`, `Store.AddKeepsSums`).
- The default log buffer is safe exactly up to a size estimate of a few hundred bytes an entry
  (`EntrySizes.DefaultBuffer`): 277 at the default of a million entries, 293 if all entries are
  those of `Set` (`EntrySizes.DefaultLogSize`). Beyond it a run of log entries loses a live one
  (`EntryBounds.TwoEntriesLose`, `LogBounds.OverwrittenWhileLive`), and an entry longer than the
  buffer makes a read panic (`LogBounds.OversizedEntryPanics`).
- The cursor of the replicator advances when a write to the connection returns, which says
  nothing about the peer (`Replication.AppliedExactlyWhenFaithful`, `Replication.SilentLoss`):
  the peer stops reading a connection after 100 MiB (`Delivery.ShipBacklog`) and drops entries
  that are ahead of its clock (`Acceptance.AppliedExactlyWhenTimely`). The cursor is also seeded from the peer's sequence numbers (`Replication.SkipFreeExactlyFromZero`).
- A cursor that the log has overtaken is moved on from where it stood, not from where the read
  started, so entries are sent twice (`Pacing.OnceExactlyWhenPaced`, `Pacing.OvertakenSendsTwice`),
  and a handshake that arrives while a batch is in flight is undone when the send succeeds
  (`Pacing.RewindInFlight`).
- A longer sliding window after a shorter one on the same key, or one over an hour, misses
  events (`Windows.ExactExactlyWhenShrinking`), and so may any second increment whose first was
  overtaken by a remote event between its stamp and its append (`Windows.ExactExactlyWhenAlone`).

## Model

| member | source | states |
|---|---|---|
| `Clock.TickIsNewer` | hlc.go:52-68 | `Now` is strictly newer than the clock it came from exactly when the logical part does not wrap, whatever the wall clock reads |
| `Clock.MergeIsNewer` | hlc.go:71-112 | `Update` ends above both the clock and the remote timestamp exactly when the logical part it increments is not the largest int32 |
| `Clock.TickIsLeast` | hlc.go:52-68 | until the logical part wraps, `Now` answers the least timestamp that is newer than the clock, not behind the wall clock, and has a counter of at least 0 |
| `Clock.MergeIsLeast` | hlc.go:82-112 | and `Update` the least one that is newer than the remote timestamp as well |
| `Clock.OrderIsTotal` | hlc.go:29-35 | physical time decides, then the counter; the two comparisons are one total order |
| `Clock.IncrementWraps` | hlc.go:61-61 | the counter is incremented modulo 2^32 |
| `Clock.HLC.constructor` | hlc.go:37-42 | starts at the wall time with logical 0 and a 500 ms offset |
| `Clock.HLC.Now` | hlc.go:52-68 | the timestamp returned is the new clock state, one tick past the old one |
| `Clock.HLC.Update` | hlc.go:71-112 | refuses exactly the timestamps further ahead than the offset, without moving; otherwise merges |
| `Causality.NextKeepsInv` | hlc.go:52-112 | every clock step keeps causal order, the logical bound, provenance and the drift bound |
| `Causality.ClocksAdvance` | hlc.go:52-112 | no clock ever moves back; issuing or accepting moves strictly past the old reading and past the accepted timestamp |
| `Causality.RunKeepsInv` | hlc.go:37-112 | in every reachable state each physical time is a wall reading some node took, no node is more than its offset past its own largest reading, and the logical part is at most the number of events carrying that physical time |
| `Causality.NoWrap` | hlc.go:57-62 | fewer than 2^31 clock events leave no room for the int32 wrap |
| `Causality.CausalityHolds` | hlc.go:52-112 | over every run, with wall clocks that may run backward, an event that happened before another has a strictly smaller timestamp |
| `Causality.RunMovesLeast` | hlc.go:52-112 | over every run each clock operation leaves the least timestamp it may: newer than the clock, not behind the wall, newer than what it accepts |
| `Registers.ReplayKeepsAWinner` | store.go:343-415 | after any sequence of sets and deletes a key holds the outcome of a newest write to it, and is present exactly when it was written |
| `Registers.ReadAfterWrite` | store.go:362-392 | after a write that is not ignored a read of the key answers its value exactly until its TTL is up, nothing after a delete; every other key answers as before |
| `Registers.ReplayReads` | store.go:343-392 | after any sequence of sets and deletes a read answers what the first newest write to the key asks, and nothing when there is none |
| `Registers.TimestampsConverge` | store.go:348-350 | two replicas that merged the same (key, timestamp) pairs, in any order and with any repetition, hold the same keys and timestamps, ties included |
| `Registers.OrderFreeExactlyWhenSettled` | store.go:343-415 | the register left by a set of writes is independent of order and repetition exactly when its newest writes agree |
| `Registers.TwoOrdersDiffer` | store.go:348-350 | two newest writes with different outcomes have two delivery orders with different results |
| `Registers.WireOutcome` | capacitor.go:397-404 | a peer stores the same register as the writer exactly when a positive TTL is a whole number of milliseconds |
| `Registers.SubMillisecondNeverExpires` | capacitor.go:403-403 | a TTL below a millisecond expires at the writer and never at a peer |
| `Registers.PruningUnobservable` | store.go:209-222 | a store that prunes at arbitrary moments and one that never does answer every later get and exists alike, if writes to a pruned key are newer than what was pruned |
| `Registers.PrunedKeyRevives` | store.go:209-222 | a write to a pruned key is answered alike exactly when it is newer than what was pruned or is itself not live |
| `Registers.TombstoneLasts` | store.go:404-405 | a prune keeps a tombstone exactly through 3 600 000 000 000 ns after its timestamp; while it is there an older write is ignored, afterwards the same write brings the key back |
| `Cluster.RunClocked` | capacitor.go:343-409 | over every run of the cluster machine the clocks keep their invariant and every timestamp in a call or a log was issued by its node's clock |
| `ClusterRegisters.RunKeepsInv` | capacitor.go:343-409 | over every run each store is the replay of the writes it merged, and every timestamp stored or in flight at a node is at most its clock |
| `ClusterRegisters.RegistersConverge` | capacitor.go:343-373 | strong eventual consistency: nodes that applied the same entries hold the same keys and timestamps, and the same payload, tombstone and expiry wherever the winning timestamp belongs to one operation |
| `ClusterRegisters.ReadYourWrites` | capacitor.go:378-388 | when a local write reaches the store the key holds it or something at least as new, and it is ignored exactly when its node merged, since it was stamped, a write to that key at least as new |
| `ClusterRegisters.WritesStay` | store.go:343-415 | a merged write is displaced only by a strictly newer one, or hidden by another write with the same timestamp |
| `ClusterRegisters.TieHidesLocalWrite` | capacitor.go:384-388 | a concrete run in which a remote write with the same timestamp hides a local one |
| `ClusterRegisters.CausalWriteWins` | capacitor.go:350-353 | a write issued by a node that had merged another write to the key wins over it at every node that applies it, in every delivery order |
| `ClusterReads.ReadsAnswerCalls` | capacitor.go:378-548 | over every run, at every node and time, a read answers what one call asked for: of the calls on the key that reached the node, the first of the newest ones |
| `ClusterReads.StaysExactlyUntilNewer` | store.go:343-415 | over every run a register stays as it is exactly until its node merges a strictly newer write |
| `ClusterReads.CallAnswersUntilNewer` | capacitor.go:343-373 | a Delete leaves its key there and not live at any time, a Set reads its value exactly until its TTL is up, at its node and at every peer, until something strictly newer is merged |
| `ClusterReads.CommittedCallAnswers` | capacitor.go:378-563 | the same from the call on, with any steps of others between stamping, storing and reading |
| `ClusterReads.MergedCallAnswers` | capacitor.go:355-370 | the same from the merge of the entry at a peer on, the TTL in whole milliseconds |
| `ClusterCounters.AggregateIsSum` | store.go:418-430 | over every cluster run, with any deltas, each cached aggregate is the sum of its partials |
| `ClusterCounters.RunKeepsInv` | store.go:451-463 | with increments of at least 0, no copy, logged total or received total of a partial ever exceeds the owner's value |
| `ClusterCounters.LogReachesPartial` | capacitor.go:570-588 | with increment, read-back and append interleaved among any number of calls, no logged total exceeds the live partial and, when no call is in flight, the largest equals it |
| `ClusterCounters.PartialIsLargest` | store.go:451-463 | each partial of a quiet replica is the largest total applied for it |
| `ClusterCounters.CountersConverge` | store.go:451-463 | quiet nodes that applied the same count entries, in any order and with duplicates, hold the same partials and aggregates |
| `ClusterCounters.PeerReachesOwner` | capacitor.go:360-361 | a peer that applied the whole log of a quiet owner holds exactly its partial |
| `ClusterCounters.OwnersHoldIncrements` | capacitor.go:570-588 | the owners' partials together are the sum of all increments made in the run |
| `ClusterCounters.CountIsTotal` | capacitor.go:606-609 | conservation: once all calls finished and a node applied every log, its count is the sum of all increments made anywhere |
| `ClusterCounters.RunIsGenuine` | capacitor.go:343-373 | over every run with increments of any sign, in which no node is sent its own log, each partial is in the log or about to be, each copy is the largest total received, and only the owner's own totals are received |
| `ClusterCounters.PeerAgreesExactlyWhenLargest` | store.go:451-463 | over every such run, a peer that applied the whole log of a quiet node agrees with it exactly when the node's partial is not negative and no total it logged is larger |
| `ClusterDecrements.PeerAgreesExactlyWhenPeak` | capacitor.go:570-588 | when the node's calls do not overlap, exactly when no earlier running total, the empty one included, exceeds the final one |
| `ClusterDecrements.DecrementIsLost` | capacitor.go:570-588 | a run of the cluster for every a > 0 > b: two calls one after the other leave a + b at the owner and a at the peer |
| `ClusterDecrements.OverlapKeepsDecrement` | capacitor.go:575-588 | if a + b is not negative, the same two calls overlapping leave a + b at both |
| `MessagePack.ReadAppendUint` | log_gen.go:39-39 | unsigned integers of every format decode to themselves and leave the bytes that follow |
| `MessagePack.ReadAppendInt` | hlc_gen.go:82-85 | signed integers of every format likewise, within the size msgp states |
| `MessagePack.ReadAppendString` | log_gen.go:59-59 | strings of every header size likewise |
| `MessagePack.ReadAppendBytes` | log_gen.go:68-68 | byte strings of every header size likewise |
| `MessagePack.DecodeEncoded` | log_gen.go:94-163 | the field loop of a decoder reads back any list of fields that it reads back one by one |
| `MessagePack.UnmarshalMap` | log_gen.go:85-166 | the loop of a generated decoder, errors included, computes the recursive decoder |
| `MessagePack.UnmarshalArray` | transport_gen.go:295-313 | the same for arrays |
| `Wire.TimestampRoundTrip` | hlc_gen.go:77-129 | a timestamp decodes to itself, over any old value and before any bytes |
| `Wire.TimestampFits` | hlc_gen.go:132-135 | its encoding is within `Msgsize` |
| `Wire.EntryRoundTrip` | log_gen.go:10-166 | every log entry, with any of its optional fields omitted, decodes before any bytes and leaves exactly those bytes |
| `Wire.EntryFaithful` | log_gen.go:16-31 | the entry decoded is the entry encoded exactly when its value is not empty-but-present and its delta is not negative zero |
| `Wire.EntryFits` | log_gen.go:169-172 | the encoding of every entry is within `Msgsize` |
| `Wire.EntryIsObject` | log_gen.go:156-161 | skipping an encoded entry consumes exactly that entry |
| `Wire.MarshalEntry` | log_gen.go:10-82 | appends exactly the encoding, field count and omissions included |
| `Wire.UnmarshalEntry` | log_gen.go:85-166 | the decoding loop computes the decoder |
| `Formats.FieldFormats` | log_gen.go:38-79 | the nine fields of an entry are written under these literal names, each with its type |
| `Formats.EntryFormat` | log_gen.go:10-82 | an entry is a map of five to nine fields in this literal order, four of them left out at their zero values |
| `Formats.TimestampFormat` | hlc_gen.go:77-87 | the literal bytes around the two numbers of a timestamp |
| `Formats.HandshakeFormat` | transport_gen.go:473-497 | of a handshake, with and without token |
| `Formats.BatchFormat` | transport_gen.go:213-269 | of a batch, with and without handshake |
| `Formats.EntriesFormat` | transport_gen.go:232-236 | its entries are an array of byte strings, in order |
| `Formats.UintFormats` | log_gen.go:39-39 | unsigned integers take the shortest of five formats, byte by byte |
| `Formats.IntFormats` | hlc_gen.go:82-85 | signed integers take the shortest signed format, negative ones in two's complement |
| `Formats.FloatFormat` | log_gen.go:73-73 | a delta is 0xcb and eight bytes |
| `Formats.StringFormats` | log_gen.go:59-59 | strings take one of four headers |
| `Formats.BytesFormats` | log_gen.go:68-68 | byte strings take one of three |
| `Formats.ArrayFormats` | transport_gen.go:233-233 | array headers one of three |
| `Formats.ReadsEveryInteger` | log_gen.go:102-124 | the decoders read every integer format, not only those the encoders choose |
| `Formats.IntegerRanges` | hlc_gen.go:107-118 | and take exactly the integers in range of the field, nothing else |
| `Formats.ReadsStringHeaders` | log_gen.go:126-143 | every string and binary header is read |
| `Formats.ReadsListHeaders` | log_gen.go:89-93 | and every array and map header |
| `Formats.ReadsShortHeaders` | log_gen.go:95-99 | those within one byte included |
| `Formats.ReadsEveryFloat` | log_gen.go:144-149 | a float64 is read bit by bit, a float32 is widened, nothing else is a float |
| `Formats.NilHandshake` | transport_gen.go:314-321 | a nil handshake in a batch is none |
| `Skipping.PackIsObject` | log_gen.go:156-161 | skipping passes over every MessagePack object whole, of any format and however nested |
| `Skipping.UnknownEntryField` | log_gen.go:156-161 | an unknown field, holding any object, changes nothing of the entry that is decoded |
| `Skipping.UnknownTimestampField` | hlc_gen.go:119-124 | the same of a timestamp |
| `Skipping.UnknownHandshakeField` | transport_gen.go:530-535 | of a handshake |
| `Skipping.UnknownBatchField` | transport_gen.go:360-365 | and of a batch |
| `Widening.WidenedKeepsValue` | log_gen.go:144-149 | a delta that arrives as a float32 keeps its sign and its exact value; infinities and NaNs stay what they are |
| `Framing.HandshakeRoundTrip` | transport_gen.go:473-540 | a handshake, with or without token, decodes to itself before any bytes |
| `Framing.HandshakeFits` | transport_gen.go:543-546 | its encoding is within `Msgsize` and is never the nil byte |
| `Framing.BatchRoundTrip` | transport_gen.go:213-370 | every batch decodes to itself before any bytes |
| `Framing.BatchFits` | transport_gen.go:373-385 | the encoding of every batch is within `Msgsize` |
| `Framing.MarshalBatch` | transport_gen.go:213-269 | appends exactly the encoding of the batch |
| `Framing.UnmarshalBatch` | transport_gen.go:272-370 | the decoding loop computes the decoder |
| `Framing.UnmarshalEntries` | transport_gen.go:295-313 | the loop over the entries of a batch computes the array decoder |
| `Framing.MeasureBatch` | transport_gen.go:373-385 | the summing loop computes the bound of `BatchFits` |
| `Formats.SizesAre` | transport_gen.go:373-385 | the estimates in literal numbers |
| `Formats.EntriesSizeIs` | transport_gen.go:375-378 | each entry of a batch adds five bytes and its length to the estimate |
| `Framing.StreamRoundTrip` | transport.go:102-135 | any batches written back to back and read to the end are received as exactly that list, and what follows is decoded as if it stood alone |
| `Framing.WholeStream` | transport.go:102-135 | a stream of batches that is read to its end is received as exactly those batches |
| `Cuts.BatchStable` | transport_gen.go:272-370 | whatever a decoder accepts it accepts alike when more bytes follow |
| `Cuts.CutBatch` | transport_gen.go:272-370 | no proper part of an encoded batch decodes |
| `Cuts.CutStream` | transport.go:102-109 | a stream cut at any byte is received as exactly the batches that lie whole before the cut |
| `Cuts.LimitedStream` | transport.go:99-109 | of one connection the server receives exactly the batches that lie whole within 100 MiB |
| `Cuts.LimitedTo` | transport.go:99-99 | the server reads the first 104 857 600 bytes of a connection |
| `Delivery.DecodeBatchEntries` | transport.go:127-133 | the loop over raw entries passes over those that do not decode |
| `Delivery.EndToEnd` | transport.go:99-135 | batches that hold a part of the log, written to a connection, make the peer decode a first part of those entries in order, as the wire leaves them, and hand them to the merge; with no empty batch among them, it is all of them exactly when the stream is at most the 100 MiB that a server reads |
| `Delivery.CutDelivery` | transport.go:99-135 | the same of a connection that ends at any byte: a first part, each entry whole, and all of them exactly when it ended behind the last batch and within 100 MiB |
| `Delivery.ShipBacklog` | capacitor.go:275-341 | fetch, batch, stream, decode: the replicator loop leaves the cursor at the head, and a peer that was not lapped hands a first part of the entries it was owed to the merge, all of them exactly when the stream is at most 100 MiB |
| `DeltaLog.SlotIsRemainder` | log.go:77-77 | the slot of a sequence number is its remainder by the capacity |
| `DeltaLog.WriteIsClear` | log.go:64-85 | with room for capacity encodings of l bytes and one estimate of m bytes, less one byte, a write with early wrap does not touch any entry that stays live |
| `DeltaLog.AppendKeepsIntact` | log.go:57-87 | with that room the double ring refines the append-only history: live slots point at exactly the bytes appended under their number, in bounds and disjoint, and the marshal stays inside the buffer |
| `DeltaLog.DeltaLog.constructor` | log.go:39-55 | an empty log over a zeroed buffer of 256 bytes an entry, or 256 MiB from 100 000 entries on |
| `DeltaLog.BufferSizes` | log.go:40-44 | the size of that buffer on both sides of the limit, literally |
| `DeltaLog.BlankIsZeroed` | log.go:45-54 | a new log is all zeroes, with its next sequence number 1 and the write offset 0 |
| `DeltaLog.DeltaLog.Append` | log.go:57-87 | the entry goes under the next number, the history grows by its bytes, and the rings stay intact when entries fit |
| `DeltaLog.DeltaLog.GetEntriesRaw` | log.go:89-130 | reads from the later of the start and the earliest live entry; while the live entries are readable, the longest run that meets both limits, not empty when there is something to read; a slot out of bounds is a panic |
| `DeltaLog.DeltaLog.CollectWith` | log.go:111-129 | the copying loop computes the run that stops before an entry over the byte limit, unless it is the first, and panics at a slot out of bounds |
| `DeltaLog.ReadsLongestRun` | log.go:97-129 | that run is the longest one, when the live entries are readable |
| `LogBounds.ReadableExactlyWhenRoomy` | log.go:57-87 | whatever byte strings of at most l bytes are appended with estimates of at most m, every live one stays readable, exactly when the buffer has room for capacity times l plus m bytes, less one (with one slot, for m) |
| `LogBounds.LosesEntry` | log.go:66-80 | otherwise a run of appends of such byte strings that loses a live one |
| `EntryBounds.TwoEntriesLose` | log.go:66-80 | two entries of a kind that reach its bounds and differ by one byte are enough: in a buffer that is not roomy for them some run of the two loses a live one |
| `EntryBounds.KeptExactlyWhenRoomy` | log.go:57-87 | for entries of any kind whose bounds are reached, no run ever loses a live one exactly when the buffer is roomy for those bounds |
| `EntrySizes.EstimateIs` | log_gen.go:169-172 | the size estimate is 94 bytes and the lengths of key, node and value |
| `EntrySizes.EntryIsLong` | log_gen.go:10-82 | the exact length of every encoded log entry |
| `EntrySizes.EncodingIsShorter` | log_gen.go:169-172 | an entry estimated below 350 bytes takes at least nine fewer, whatever its number |
| `EntrySizes.Filled` | log.go:39-87 | appending log entries to a new log fills its rings with exactly what these bounds speak about |
| `EntrySizes.EntriesKeptExactly` | log.go:57-87 | over every run of log entries estimated at no more than m, for m from 158 to 349: no live entry is ever lost exactly when the buffer has room for capacity times m - 9 plus m bytes, less one (with one slot, for m) |
| `EntrySizes.EntriesKeptWithin` | log.go:57-87 | for every larger m: safe if there is room for capacity + 1 times m bytes, less one, and only if there is room for capacity times m - 9 plus m |
| `EntrySizes.SetsKeptExactly` | capacitor.go:378-404 | the same equivalence for the entries of `Set` alone, which take at least 25 bytes fewer than estimated, for m from 127 to 349 |
| `EntrySizes.KeptBelowThreshold` | log.go:57-87 | as a threshold on the estimates: exactly up to (size + 1 + 9 capacity) / (capacity + 1), and up to the size of the buffer with one slot, wherever that lies between 158 and 348 |
| `EntrySizes.SetsKeptBelowThreshold` | capacitor.go:378-404 | for the entries of `Set`, with 25 in place of 9, between 127 and 348 |
| `EntrySizes.DefaultBuffer` | log.go:40-51 | for the buffer that `NewDeltaLog` sets aside, at every capacity below 100 000: no run of log entries loses a live one exactly when no estimate exceeds that threshold, 256 at capacity 1, and likewise for `Set` |
| `EntrySizes.DefaultLogSize` | capacitor.go:111-111 | at the default of a million entries: exactly up to 277 bytes, and up to 293 for the entries of `Set` |
| `LogBounds.OverwrittenWhileLive` | log.go:66-80 | two log entries in a new log of any capacity above 1: when the estimate of the second does not fit behind the first, the first is live and lost |
| `LogBounds.LongKeySuffices` | log_gen.go:169-172 | an entry with a key of 230 bytes is one, in a log of two |
| `LogBounds.OversizedEntryPanics` | log.go:66-80 | in any log, after an append whose estimate exceeds the buffer, reading the entry panics exactly when its encoding is longer than the buffer |
| `Replication.NothingSkipped` | capacitor.go:275-341 | from a fresh peer, over all interleavings of appends, reads, sends that succeed or fail with or without arriving, and handshakes, the cursor stays inside the log and every live entry up to it was sent |
| `Replication.SkipFreeExactlyFromZero` | capacitor.go:291-296 | no run has an unsent live entry at or below the cursor exactly when the cursor is seeded with 0 |
| `Replication.SendsLeaveNothingExactly` | capacitor.go:314-340 | no successful send leaves one behind exactly when the seed is 0 or the log has a single slot |
| `Replication.SeedSkips` | capacitor.go:313-341 | the run that skips, for every other seed and capacity |
| `Replication.ExactlyOnce` | capacitor.go:313-341 | with no rewind, no lapped cursor and no send that fails after arriving, each entry is sent exactly once and in order |
| `Replication.FaithfulApplies` | capacitor.go:343-373 | in any run in which all that is sent arrives and the peer's clock accepts all of it, the peer has applied what was sent, so every live entry up to the cursor |
| `Replication.AppliedExactlyWhenFaithful` | transport.go:272-282 | nothing is acknowledged: in a run without rewinds, laps and late failures the peer has applied every entry up to the cursor exactly when each batch sent without error arrived and was accepted whole |
| `Replication.SuccessAppliesExactly` | capacitor.go:336-340 | in any run, a successful send extends what the peer has applied up to the cursor exactly when the peer has or accepts each live entry of the batch |
| `Replication.SilentLoss` | capacitor.go:350-353 | a peer that refuses or never gets the batches applies nothing while the cursor reaches the head |
| `Replication.Drains` | capacitor.go:313-341 | without appends each successful cycle shrinks the backlog, and as many cycles as the backlog empty it: every live entry has been sent |
| `Replication.CycleMoves` | capacitor.go:313-341 | a read and a successful send move the cursor by exactly the number of entries read, from where it stood; a failed send leaves all as before the read, but for what arrived |
| `Replication.FetchExactly` | capacitor.go:313-322 | a read returns between one and 1000 of the entries that are there, from the later of the cursor and the earliest live one |
| `Pacing.OnceExactlyWhenPaced` | capacitor.go:339-339 | in every drained run without handshakes and late failures each entry was sent at most once exactly when no batch was read after the log had overtaken the cursor, and then in order |
| `Pacing.OvertakenSendsTwice` | capacitor.go:339-339 | for every capacity a run that sends an entry twice and another never |
| `Pacing.RewindResends` | transport.go:118-118 | after every run, a handshake with nothing in flight makes the replicator send every live entry above the sequence it reports again |
| `Pacing.RewindInFlight` | transport.go:118-118 | one that arrives while a batch is in flight is undone when the send succeeds, and takes effect when it fails |
| `Replication.IdleStays` | capacitor.go:301-303 | with no backlog further cycles change nothing |
| `Replication.MetricsExact` | capacitor.go:362-364 | after any such run that is applied whole, the receiving store's count and sum for the sender are those of the deltas it logged up to the cursor |
| `Acceptance.WholeExactlyInTime` | hlc.go:77-80 | the peer's clock accepts a whole batch exactly when no timestamp in it is further ahead than the offset of the wall time read for it |
| `Acceptance.AppliedExactlyWhenTimely` | capacitor.go:343-353 | in a run without rewinds, laps and late failures the peer has applied every entry up to the cursor, once and in order, exactly when each batch sent without error arrived while its wall clock was at most the offset behind the timestamps in it |
| `Acceptance.NothingRefused` | hlc.go:77-80 | over every run of the cluster, a node whose wall clock plus offset is not behind any reading taken so far refuses no entry of any log |
| `Acceptance.DeliveredIsApplied` | capacitor.go:343-376 | delivering a batch entry by entry to a node of the cluster merges exactly the entries that the replicator's model calls applied, in order, and touches no other node |
| `Acceptance.CurrentPeerMergesAll` | capacitor.go:343-376 | so over every run of the cluster a batch of any log delivered to such a node is merged whole |
| `Replication.ResentBatchCountsTwice` | store.go:472-494 | applying an entry again leaves the store's metric unchanged exactly when it is not a delta of that metric |
| `Replication.FetchBatch` | capacitor.go:313-322 | while the log is readable the batch is the one owed at the cursor, within 1000 entries and 8 MB |
| `Replication.BatchLimits` | capacitor.go:313-322 | such a batch has at most 1000 entries and 8 388 608 bytes, unless one entry alone is larger, and is empty exactly at the head |
| `Replication.Replicator.ReplicateToPeer` | capacitor.go:313-341 | the cursor advances by the batch exactly when the send succeeds; other peers are untouched |
| `Replication.Replicator.ReplicateCycle` | capacitor.go:313-341 | for every cursor, overtaken ones included, such a round is one cycle of the state machine: same entries, same cursor |
| `Replication.Replicator.ReplicateUntilIdle` | capacitor.go:275-311 | with successful sends the loop ends at the head having sent, to a peer that was not lapped, exactly the owed entries once and in order |
| `Replication.Replicator.SendNext` | capacitor.go:313-341 | a successful round towards a peer that is not lapped sends the next part of the history |
| `Windows.DropExactlyWhenStaleFirst` | store.go:517-531 | dropping as many events from the front as are stale keeps the right ones exactly when the ones dropped are stale |
| `Windows.SortedDrop` | store.go:517-531 | in a sorted window it always does |
| `Windows.InterleavedIncrementDropsFresh` | capacitor.go:656-658 | whatever two windows, not growing and at most an hour, a run in which a remote event is merged between stamp and append of the first increment, the stale time is kept in its place, and the second increment misses it |
| `Windows.MergedIsSet` | store.go:538-567 | merging remote times from empty gives the strictly increasing list of the distinct times |
| `Windows.MergeCanonical` | store.go:538-567 | any order and repetition of the same remote times gives the same window |
| `Windows.RunIsBounded` | hlc.go:77-112 | over every run, appends in any order, no time that was stamped, merged or appended is further ahead of the wall clock than the clock accepts |
| `Windows.RunKeepsInv` | store.go:507-567 | over every run that appends in stamp order, with any other use of the clock in between, the window is sorted and holds every recorded event after the last pruning horizon |
| `Windows.CountIsExact` | store.go:507-536 | in such a run an increment whose horizon is not before one already pruned at counts every recorded event at or after it |
| `Windows.ShrinkingWindowCounts` | store.go:507-536 | an increment whose window is at most an hour and no longer than an earlier one on the key, or ends behind every acceptable time, counts exactly, over every such run of increments, remote entries of any kind and janitor passes |
| `Windows.ExactExactlyWhenShrinking` | store.go:224-244 | a list of successive windows counts exactly under every schedule that appends in stamp order exactly when none is longer than an earlier one or than an hour, leaving out negative ones that end behind every acceptable time |
| `Windows.ExactExactlyWhenAlone` | capacitor.go:656-658 | under every schedule at all, stamps and appends interleaved, it does so exactly when only the first window can count anything and is at most an hour |
| `Windows.LongerWindowMisses` | store.go:529-531 | after any increments, a run in which a longer window following a shorter one misses an event that the shorter one pruned |
| `Windows.LongWindowMisses` | store.go:237-240 | after any increments, a run in which a window of more than an hour misses what the janitor removed |
| `Windows.InsertAt` | store.go:557-564 | the in-place shift moves the tail up by one, loses and invents nothing |
| `Windows.InsertPosition` | store.go:543-553 | inserting at the first position that is not smaller is the sorted insertion without duplicates |
| `Windows.CountEvents` | store.go:517-528 | the loop counts the events at or after the horizon, and the stale ones |
| `Windows.SlidingWindows.IncrementSlidingWindow` | store.go:507-536 | counts and prunes its key, leaves the other windows alone |
| `Windows.SlidingWindows.AddWindowTimestamp` | store.go:538-567 | the scan for the position is the sorted insertion; other windows are left alone |
| `Windows.SlidingWindows.PruneStaleWindows` | store.go:224-244 | removes exactly the windows whose newest event is over an hour old, and the empty ones |
| `Keys.SameShardKey` | store.go:45-55 | the composite key hashes like the bare key exactly when the bare key is hashed on its first segment; all colon-free keys are |
| `Keys.ColonKeyMovesShard` | store.go:45-55 | a counter named a:b is kept under b and reloaded under a |
| `Keys.CompositeInjective` | store.go:419-420 | on colon-free keys and any node ids the composite keys of all kinds are injective |
| `Keys.ColonKeysCollide` | store.go:419-420 | with a colon in the key two partials share an entry |
| `Keys.SplitComposite` | store.go:121-126 | splitting a composite key gives back the key as second part exactly when the key is colon-free |
| `Keys.SplitJoins` | store.go:121-126 | splitting is undone by joining with colons, and no part has one |
| `Keys.Hash` | store.go:57-64 | the loop computes the FNV-1a hash |
| `Keys.HashVectors` | store.go:57-64 | it gives the published vectors of 32-bit FNV-1a |
| `Keys.ShardVectors` | store.go:66-68 | and these shards |
| `Keys.CompositeShard` | store.go:66-68 | each kind of partial lands in the shard of its bare key |
| `Sums.RaiseSums` | store.go:422-425 | raising an entry and a cached sum together keeps all sums right exactly when the entry feeds that sum, or nothing is added |
| `Store.PartialTarget` | store.go:117-153 | a reload adds a partial to the aggregate the live store kept it in exactly when its key is colon-free |
| `Store.AggregateKeysDiffer` | store.go:474-486 | aggregates of different colon-free keys or kinds have different names |
| `Store.AddKeepsSums` | store.go:418-494 | adding to a partial keeps every aggregate the sum a reload would compute exactly when the key is colon-free, or nothing is added |
| `Store.AddsOnce` | store.go:418-430 | an increment changes one partial and one aggregate, by exactly its delta, and no other of any kind, key or node |
| `Store.TakesLarger` | store.go:451-463 | taking over a remote count leaves the larger of the two values and every other partial alone |
| `Store.MetricAdds` | store.go:472-494 | a metric observation adds one to its count and its delta to its sum, partials and aggregates, and changes nothing else |
| `Store.KeyNames` | store.go:419-486 | the literal names of partials and aggregates |
| `Store.PlainExactly` | store.go:107-160 | a key is taken for a register exactly when it has none of the five reserved prefixes, as no colon-free key has |
| `Store.WriteActs` | store.go:343-415 | a set or delete acts on its register alone and marks it dirty, unless ignored; reads then answer what it asks |
| `Store.PruneActs` | store.go:209-222 | a prune removes exactly the registers it visits whose time is up, marks them dirty, and changes no later read |
| `Persistence.LoadRecord` | store.go:107-175 | one record, told apart by its key prefix, goes to the registers unless expired, or to the partials and their aggregate |
| `Persistence.Load` | store.go:99-179 | in any order of records: exactly the unexpired registers, exactly the partials, and aggregates that are their sums |
| `Persistence.NextKeepsInv` | store.go:246-334 | every write, increment, merge, prune, flush, expiry and restart keeps the agreement of clean keys with the database and the sums |
| `Persistence.RunKeepsInv` | store.go:99-494 | over every run a key that is not dirty agrees with the database up to registers whose time is up, and every aggregate is the sum of what feeds it |
| `Persistence.CleanKeysSurvive` | store.go:99-334 | a restart at any moment of any run finds every clean key as it was |
| `Persistence.FlushThenLoad` | store.go:246-334 | after any run, flush and load restore every register and tombstone whose time is not up and no other, every per-node count and every aggregate; later reads answer as before |
| `Persistence.Reopen` | store.go:582-586 | flushing on close and loading on open, with that result |
| `Persistence.AggregateIsSum` | store.go:465-470 | after any run, restarts included, the aggregate of a counter or metric is the sum of its partials over all nodes |
| `Persistence.FlushRecords` | store.go:272-331 | a flush records a dirty register exactly while time remains of it, deletes what is gone, records numbers, and leaves other records alone |
| `Ledger.NumbersAddUp` | store.go:99-494 | over every run in which a store is closed before it is opened again, each number of each node is exactly what the calls on it add up to |
| `Ledger.ReadsAnswerWrites` | store.go:99-415 | over every such run, if writes to a key that is gone are newer than what was there, later reads answer what the first newest write asks, whatever was pruned, flushed, expired or loaded in between |
| `Ledger.PruneClears` | store.go:209-222 | a prune of all keys leaves exactly the registers whose time is not up |
| `Shards.OneShardEach` | store.go:66-68 | a cached key is in its own shard and in no other |
| `Shards.SameShard` | store.go:418-494 | partial and aggregate of a colon-free key live in the shard of the key |
| `Shards.WrittenPart` | store.go:343-415 | a set or delete on the flat memory is the same one in its key's shard, and nothing in the others |
| `Shards.BumpPart` | store.go:418-430 | adding to a partial of the flat memory is adding in its shard |
| `Shards.PrunedPart` | store.go:209-222 | pruning the flat memory is pruning each shard |
| `Shards.SetIn` | store.go:343-360 | `set` on one shard ignores older and equal timestamps, computes the expiry and marks the key dirty |
| `Shards.DeleteIn` | store.go:394-415 | `delete` likewise leaves an hour-long tombstone |
| `Shards.PruneIn` | store.go:214-219 | the loop removes exactly the expired registers and marks them dirty |
| `Shards.FlushKey` | store.go:272-331 | what a flush records for a dirty key, deletions and lapsed registers included |
| `Shards.FlushKeys` | store.go:246-334 | the loop over the dirty keys of a shard records each and leaves other records alone |
| `Shards.FlushAll` | store.go:246-334 | shard by shard, the database becomes what flushing the flat memory makes it, and nothing is left dirty |
| `Shards.CountAll` | store.go:432-441 | the shard sizes add up to the number of cached keys |
| `Shards.GetShard` | store.go:66-68 | the shard index is the hash of the shard key modulo 256 |
| `Shards.LoadAll` | store.go:99-179 | loading into shards is loading into the flat memory |
| `Shards.ShardedStore.constructor` | store.go:70-97 | a store opened on a database holds exactly what loading it gives |
| `Shards.ShardedStore.Set` | store.go:343-360 | acts as on one flat map, for every key |
| `Shards.ShardedStore.Delete` | store.go:394-415 | acts as on one flat map, for every key |
| `Shards.ShardedStore.Get` | store.go:362-376 | answers as one flat map |
| `Shards.ShardedStore.Exists` | store.go:378-392 | answers as one flat map |
| `Shards.ShardedStore.Increment` | store.go:418-430 | adds to the node's partial and answers the new total of the key |
| `Shards.ShardedStore.GetNodeCount` | store.go:443-449 | the node's partial |
| `Shards.ShardedStore.SetNodeCount` | store.go:451-463 | takes over larger values only, aggregate included |
| `Shards.ShardedStore.GetAggregateCount` | store.go:465-470 | the key's total |
| `Shards.ShardedStore.IncrementMetric` | store.go:472-494 | adds one to the count and the delta to the sum, and answers both totals |
| `Shards.ShardedStore.GetAggregateMetric` | store.go:496-505 | the metric's count and sum |
| `Shards.ShardedStore.PruneExpiredKeys` | store.go:209-222 | removes exactly the expired registers of the flat map and marks them dirty |
| `Shards.ShardedStore.CacheSize` | store.go:432-441 | the number of distinct cached keys |
| `Shards.ShardedStore.Flush` | store.go:246-334 | records exactly the dirty keys of the flat map and leaves nothing dirty |

## Left out

- TCP, TLS, dialing, connection pools, authentication and gossip membership: I/O and plumbing; a send succeeds or fails, its batch arrives whole or not at all, and the set of nodes is fixed.
- BadgerDB: the database is a map of typed records, a flush is one atomic write that succeeds, and an expired record may vanish at any time.
- Conversion of Go values in `Get` and `GetScan` and their msgpack encoding: values are opaque and their serialization is taken as faithful.
- `metrics.go` and the `Message` codec in `types.go` and `types_gen.go`: latency counters, and a codec that is not on the replication path.
- Persisted peer sequences and persisted windows: peer sequences are not found again at flush, and pruned window times stay on disk.
- Restart of a node inside the cluster machine: the log starts again at 1 and the clock at the wall time, so no clean theorem exists there; restarts are modelled for the store alone.
- Floating point: counter and metric values are integers in the store; on the wire a float64 is its bit pattern.
- Tickers, condition variables, channels and locks: their effects are steps that may happen at any time, each locked region one step.
- The quality of the hash: only that it is a function of the shard key matters.
- Error kinds of the decoder: all errors are one, and the recursion limit of skipping is not modelled.
- Leaving and rejoining peers: the cursor of a peer is not seeded anew during a run.
- `SetMaxOffset`: the offset of each node is an arbitrary constant of the run.
- Strings are sequences of characters in the store and of bytes on the wire; the hash takes each character modulo 256.
- Causality.RunKeepsInv: runs of fewer than 2^31 clock events, so that no int32 logical part wraps; Clock.TickIsNewer and Clock.MergeIsNewer say what happens otherwise.
- ClusterRegisters.RunKeepsInv: no pruning, which Registers.PruningUnobservable covers, and fewer than 2^31 clock events.
- DeltaLog.DeltaLog.Append: asks that the write offset plus the size estimate stays below 2^32, so the uint32 wrap of that sum is not modelled.
- DeltaLog.DeltaLog.constructor: asks for a positive capacity, which the only caller ensures by its default; a log of capacity 0 divides by zero at its first append.
- Persistence.Load: asks that registers are under keys without a reserved prefix and numbers under keys with one; a register named like `c:...` would be reloaded as a counter.
- Persistence.RunKeepsInv: register names avoid the reserved prefixes, counter and metric names have no colon; Store.AddKeepsSums shows the sums fail otherwise.
- Shards.ShardedStore.Increment: asks for a colon-free key, as do the other counter and metric methods, because with colons the flat map is not refined (Keys.ColonKeysCollide).
- Shards.ShardedStore.Set: shards are values in a sequence that the methods reassign, so the sharing of shard objects between goroutines is not captured.
- ClusterCounters.PeerAgreesExactlyWhenLargest: no node is sent its own log, as no node replicates to itself.
- Windows.ExactExactlyWhenShrinking: the wall clock does not move back, and the offset is not negative; with a negative offset Windows.ShrinkingWindowCounts still gives one direction.
- Windows.ExactExactlyWhenAlone: the same two conditions; the direction from the windows to exact counts, Windows.AloneIsExact, holds for every offset.
- EntrySizes.EntriesKeptWithin: from 350 bytes on the sufficient and the necessary condition are nine bytes an entry apart, because how much shorter than its estimate an entry is depends on which of its fields are long; EntrySizes.EntriesKeptExactly covers 158 to 349 bytes, and EntrySizes.KeptBelowThreshold every estimate where the threshold lies in that range.
- EntrySizes.DefaultBuffer: capacities below 100 000, and EntrySizes.DefaultLogSize the default; for the others EntrySizes.KeptBelowThreshold where the threshold is in its range, and EntrySizes.EntriesKeptWithin.
- Delivery.ShipBacklog: one connection for the whole backlog, as the client keeps it; what the merge then makes of the entries is Acceptance.DeliveredIsApplied.
- Windows.SlidingWindows.AddWindowTimestamp: works on sequence values; the in-place shift of the underlying array is Windows.InsertAt.
- Ledger.ReadsAnswerWrites: stores are closed before they are opened again, which Persistence.CleanKeysSurvive does not ask; a write to a key that is gone is newer than what was there, as Registers.PrunedKeyRevives needs too; reads are after the last moment of the run, because the database may drop a register at the very instant its time is up.
- ClusterReads.CommittedCallAnswers: no pruning inside the cluster machine, which Registers.PruningUnobservable and Registers.TombstoneLasts cover.
- Pacing.OnceExactlyWhenPaced: runs that are drained in the end; without that an entry sent ahead of the cursor may not have been sent again yet.
