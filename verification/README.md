# MyQUIC2: a verified model

MyQUIC2 is a QUIC-based TCP/UDP relay. This project models the parts of it whose correctness is hardest to see from the
code, in Dafny 4.11, and proves them for all inputs and all runs. `dafny verify dfyconfig.toml` checks everything.

* **DNS fast path.** `Key` (cache keys), `MemoHash` and `Bits` (the 64-bit key hash), `Memo` (the two-way thread-local
  memo as a mutable class), `Lookup` (the lookup over it), `NegEpoch` (the epoch protocol that keeps thread-local
  refusals coherent with the shared cache, as a state machine over all interleavings).
* **MQP-2 wire.** `Addr`, `Datagram` (with the prefix cache as a class), `Batch` (with the item iterator as a class),
  `Varint` and `Train` (the dictionary TRAIN).
* **Fragmentation.** `Fragmenter` (cutting, framing, fragment ids), `Partials`, `FragTable` and `Reassembler` (the bounded
  reassembler as a class), `Reader` (the receive loop around it, as a state machine), `FragmentTrip` (one payload's
  pieces), `FragmentRuns` (what whole runs hand on: delivery, redelivery, at most once, restarts) and `NoSplice` (end to end, with
  lost, repeated and reordered frames, wrapping ids and a lagging clock).
* **Control stream.** `CtlStream` (framing under arbitrary chunking, the receiver as a class), `CtlRate` (the limiter).
* **Statistics and configuration.** `Histogram` (latency percentiles), `Listen` (forward tables and listener conflicts).

`Bytes`, `Net` and `Utf8` hold shared vocabulary. Clocks, the global epoch and hash seeds are parameters; a HashMap is a
`map` field that methods reassign, and its iteration order is left open. Where the source keeps a buffer or a table in
place, the model does too and is proved equal to a pure function; the theorems are about that function.

Where code and documentation differ, the model follows the code:

* A batch payload length is cast to `u16` without a check, so the round trip holds exactly for payloads of at most 65535
  bytes (`Batch.BatchRoundTripExactly`).
* The wire form of an IPv6 address drops its flow information, so the round trip holds exactly without it
  (`Addr.RoundTripExactly`).
* `memo_put` documents that a negative write is tagged with the epoch; without the fence that tag can be newer than the
  verdict (`NegEpoch.UnfencedStaleExactly`, `NegEpoch.UnfencedWriteCanBeStale`).
* The varint reader accepts padded forms the writer never produces (`Varint.LebOfRd`).
* The dictionary TRAIN reference decoder does not check that flow ids are distinct, though the frame description asks it
  (`Train.RepeatedFlowAccepted`); a frame is accepted as the parts it was built from exactly when these are well-formed
  in every other respect (`Train.AcceptedExactly`).
* The comment on `push` says a complete set replayed after delivery is delivered again. Tombstones refuse each piece that
  comes while its tombstone is kept and less than the timeout after the delivery; the payload comes out again exactly when
  every piece arrives again outside of that (`FragmentRuns.DeliveredAgainExactly`, and on a plain replay
  `FragmentRuns.SetReplayed`).
* The id window is documented to outlast every partial it protects. It leaves 500 ms beyond a partial's life by a precise
  clock, but the readers stamp fragments with the coarse clock, which may be 1000 ms behind. No run mixes payloads if the
  clock's lag and the time on the way are bounded by at most 500 ms together (`NoSplice.DeliveredWasSent`); for any larger
  bounds some run does (`NoSplice.LateFragmentsSplice`). That run goes through all 2^32 ids within three seconds, which
  the source takes to be out of reach in practice.
* A percentile's rank is documented as `ceil(p% of n)`; the saturating product gives that rank exactly while `p * n` is at
  most 18446744073709551700 (`Histogram.RankIsCeiling`).
* The payload ceiling is documented as enforced on every push. It is checked only against an existing partial, so a partial
  is over it exactly when it holds one chunk that is (`Partials.OverCeilingExactly`, `Partials.FirstChunkUncapped`); such
  a partial never delivers (`Partials.OverCeilingNeverDelivers`), and no delivered payload is over it.

## Model

| member | source | states |
|---|---|---|
| `Key.DnsNameBytes` | src/dns/key.rs:36-42 | The loop strips trailing dots down to, but never past, one byte of a non-empty name. |
| `Key.DnsKey` | src/dns/key.rs:59-88 | The stack builder refuses exactly the hosts whose stripped name is over 255 bytes; any other host gives the bytes of the owned key, so its final UTF-8 check cannot fail. |
| `Key.PortDigits` | src/dns/key.rs:74-84 | The right-to-left digit loop leaves exactly the canonical decimal form of the port. |
| `Key.DnsHostKey` | src/dns/key.rs:105-114 | The host-only builder agrees with the owned host key and refuses exactly the over-long names. |
| `Key.CanonicalUnique` | src/dns/key.rs:48-55 | A canonical digit string is the only one that prints its value, so a port has one spelling in a key. |
| `Key.LowerPreservesUtf8` | src/dns/key.rs:68-70 | ASCII lowercasing neither breaks nor repairs UTF-8, for any byte string. |
| `Key.KeyValid` | src/dns/key.rs:85-87 | Every key of a well-formed host is well-formed UTF-8. |
| `Key.NormalMeansSameName` | src/dns/key.rs:34-42 | Normal forms are equal exactly for two spellings of one name: the same letters position by position, in either case, up to trailing dots. "Same letter" is stated on the byte values. |
| `Key.KeyInjective` | src/dns/key.rs:48-55 | Keys are equal if and only if port and name are: NUL bytes inside a name cannot make two names collide. |
| `Key.KeyLayout` | src/dns/key.rs:48-55 | A key byte by byte: the name in small letters, a NUL, the port in canonical decimal. |
| `Key.KeyFits` | src/dns/key.rs:26-28 | Every name within the wire limit gives a key that fits the 261-byte stack buffer and the memo slot. |
| `MemoHash.DnsMemoHash` | src/dns/memo.rs:188-209 | The chunk loop and its padded tail compute the fold the injectivity theorems are about. |
| `MemoHash.FinalizeBijective` | src/dns/memo.rs:204-208 | The multiply/xor-shift finalizer has a two-sided inverse on 64-bit words. |
| `MemoHash.FinalizeIsSplitmix` | src/dns/memo.rs:204-208 | The finalizer is splitmix64: mix by 2^30, multiply, mix by 2^27, multiply, mix by 2^31, stated by division. |
| `MemoHash.FoldStepInjective` | src/dns/memo.rs:194-203 | One fold step is injective in the running state and in the chunk. |
| `MemoHash.HashSeparatesOneChunk` | src/dns/memo.rs:188-209 | Two keys of one length that differ only inside one eight-byte chunk, padded tail included, never share a hash. |
| `MemoHash.EveryByteReachesHash` | src/lib.rs:1054-1067 | Changing any one byte of any key changes its hash, for all keys and positions, not only the 24 sampled ones. |
| `MemoHash.LengthReachesHash` | src/dns/memo.rs:191-194 | The length-mixed seed tells a key from the same key padded with zeros inside its last chunk. |
| `Memo.NewSlot` | src/dns/memo.rs:129-161 | A slot exists exactly for keys within the inline size and matches exactly its own hash and key; only a negative slot carries the epoch. |
| `Memo.DnsMemo.MemoStore` | src/dns/memo.rs:300-337 | The in-place two-way store has the effect of one step of the pure store, the guard re-check before publication included. |
| `Memo.DnsMemo.MemoPut` | src/dns/memo.rs:266-269 | An unfenced write is one accepted store tagged with the epoch read at write time. |
| `Memo.DnsMemo.MemoPutWithEpoch` | src/dns/memo.rs:281-294 | A negative write lands only if both readings of the epoch equal the one sampled before the probe; a positive write has no fence. |
| `Memo.DnsMemo.MemoPeekBoth` | src/dns/memo.rs:233-254 | The probe returns the pure lookup of the key, positive and negative hits apart, whatever the hash does. |
| `Memo.SetHoldsLastTwoKeys` | src/dns/memo.rs:300-337 | After any sequence of stores a set holds exactly the last two distinct keys accepted for it, the newer in way 0. |
| `Memo.RecencyDistinct` | src/dns/memo.rs:300-337 | The reference recency list names each key once and holds only accepted stores of its own set. |
| `Memo.PeekAnswersLastPut` | src/dns/memo.rs:233-254 | A probe returns the last value stored for its key if and only if at most one other key whose hash agrees modulo 64 was stored since, and misses otherwise. |
| `Memo.OtherSetUntouched` | src/dns/memo.rs:211-216 | A store leaves the answer for every key whose hash differs modulo 64 as it was, in any table. |
| `Memo.OtherSetsNeverEvict` | src/dns/memo.rs:211-216 | Over any run, keys of other sets never displace a key, however many there are. |
| `Memo.PeekMissesUnknown` | src/dns/memo.rs:156-161 | A key never stored is never answered, collisions or not. |
| `Lookup.LookupKey` | src/dns/resolve.rs:903-911 | Stack key or owned fallback: one key either way, for every host. |
| `Lookup.LookupCachedFastWithTtl` | src/dns/resolve.rs:903-943 | The imperative lookup over the mutable memo equals the pure answer for any clock and epoch reading. |
| `Lookup.LookupAnswersLastWrite` | src/dns/resolve.rs:903-943 | After any history of writes, in terms of the last accepted write for the name and port: the lookup is its address with the time left, whatever the epoch, iff it has one, is unexpired and at most one other key was stored in its set since; it is the refusal iff that write was one, likewise alive, of the current epoch. |
| `Lookup.LookupMissesUnwritten` | src/dns/resolve.rs:903-943 | A name and port never accepted for storage is Unknown. |
| `Lookup.LookupNeverMisServes` | src/dns/resolve.rs:903-943 | Whatever is served comes from the newest write for the same port and the same name up to case and trailing dots, is unexpired, and a refusal carries the current epoch. |
| `Lookup.WireNamesAlwaysFit` | src/dns/memo.rs:120-150 | No write for a name within the wire limit is refused for its length. |
| `NegEpoch.Run.EpochMonotone` | src/dns/memo.rs:97-109 | Along any run the epoch never falls and stands still exactly between bumps. |
| `NegEpoch.InvHolds` | src/dns/resolve.rs:1093-1112 | Every state of every interleaving of probes, refusals, abandoned tasks, publications, successes, evictions and lookups satisfies the protocol invariant. |
| `NegEpoch.HonouredHitProvenance` | src/dns/resolve.rs:937-940 | Every honoured refusal was written by the honouring thread for the same port and name, no address was stored there for them since, and no bump completed since the sample (fenced) or the write (unfenced). |
| `NegEpoch.NoStaleVerdictHonoured` | src/dns/memo.rs:64-74 | Safety over whole runs: once a success has removed a verdict and bumped, no thread honours a verdict read before that removal. Nor was an address stored on that thread after it. |
| `NegEpoch.HonouredHitIsBacked` | src/dns/resolve.rs:1143-1149 | Coherence: an honoured fenced refusal is still in the shared cache, or its removal is about to bump, or the cache itself evicted it after it was read. |
| `NegEpoch.RefusedExactly` | src/dns/resolve.rs:932-943 | In every reachable state, a thread refuses a name if and only if what it was told last about it is a refusal of the current epoch, unexpired, with at most one other key of its set stored since. |
| `NegEpoch.PublishedIsHonoured` | src/dns/memo.rs:281-294 | A fenced verdict published in the current epoch refuses every spelling of its name on that thread right after. |
| `NegEpoch.PublishedAfterChecks` | src/dns/memo.rs:281-294 | Before every fenced publication the epoch was compared twice after the verdict, and had not moved since the sample. |
| `NegEpoch.PublishedNotAbandoned` | src/dns/resolve.rs:1093-1112 | A task that was dropped on the way publishes nothing. |
| `NegEpoch.SharedExactly` | src/dns/resolve.rs:1143-1149 | The shared cache refuses a name if and only if a refusal was filed for it and neither a success nor the cache took it out since. |
| `NegEpoch.BumpedForRemoval` | src/dns/resolve.rs:1143-1149 | The epoch is bumped only for a success that took a refusal out of the shared cache. |
| `NegEpoch.UnfencedStaleExactly` | src/dns/memo.rs:259-269 | While a refusal written by the unfenced path still carries the current epoch: some withdrawal began after its verdict was read and completed since, if and only if it had completed before the write. For every name. |
| `NegEpoch.UnfencedWriteCanBeStale` | src/dns/resolve.rs:1084-1092 | A concrete eight-step run in which the unfenced path honours a withdrawn verdict, for every hash. |
| `Addr.Encode` | src/mqp/addr.rs:122-160 | The encoder appends the wire form, or leaves the buffer alone and reports the validator's error. |
| `Addr.EncodeInto` | src/mqp/addr.rs:81-106 | The unchecked writer fills exactly the measured length with the same wire form and leaves the rest of the buffer alone. |
| `Addr.HeaderMeasures` | src/mqp/addr.rs:165-196 | The measured length is the written length, and at most the fixed buffer size. |
| `Addr.DecodeOfWire` | src/mqp/addr.rs:198-245 | Whatever follows an encoding, decoding returns the address and exactly the bytes it took. |
| `Addr.RoundTripExactly` | src/mqp/addr.rs:198-245 | The address itself comes back if and only if it carries no IPv6 flow information, which the wire form drops. |
| `Addr.WireOfDecode` | src/mqp/addr.rs:198-245 | Every accepted prefix is the encoding of the address it returns. |
| `Addr.DecodeAcceptsExactly` | src/mqp/addr.rs:198-245 | The decoder accepts exactly the byte strings that start with some encoding. |
| `Addr.PrefixFree` | src/mqp/addr.rs:122-160 | No encoding is a proper prefix of another. |
| `Addr.WireLayout` | src/mqp/addr.rs:122-160 | An encoded address position by position: type, octets or length and name, port with its high byte first. |
| `Utf8.ValidExactly` | src/mqp/addr.rs:228-245 | A byte string is accepted as text if and only if it is the UTF-8 form of some scalar values. |
| `Datagram.EncodeWithHeader` | src/mqp/datagram.rs:87-108 | The buffer-filling encoder is the reference encoder. |
| `Datagram.EncodeRefWithLimit` | src/mqp/datagram.rs:73-81 | Validation, measurement and refusal together are the reference encoder. |
| `Datagram.DecodeOfEncoded` | src/mqp/datagram.rs:225-232 | Decoding an encoded datagram gives back session, address and payload. |
| `Datagram.DatagramLayout` | src/mqp/datagram.rs:87-108 | A datagram on the wire: type 2, session with its low byte first, address, payload. |
| `Datagram.EncodedOfDecode` | src/mqp/datagram.rs:225-232 | Every accepted datagram re-encodes to itself within any limit that covers it. |
| `Datagram.EncodesIffWithinCap` | src/mqp/datagram.rs:37-42 | A payload encodes iff the limit covers prefix and header and the payload is at most the cap; below that nothing encodes though the cap reads 0. |
| `Datagram.DgramPrefixCache.PrefixFor` | src/mqp/datagram.rs:178-209 | Hit or miss, the answer is the prefix a fresh validation would give; the entry follows the last accepted destination and a refusal clears it; only a miss validates. |
| `Datagram.SendCached` | src/mqp/datagram.rs:122-135 | The cached path gives the frame, or the refusal, of the uncached encoder. |
| `Datagram.SendAll` | src/mqp/datagram.rs:146-209 | Over any run of packets the cached path is byte for byte the uncached one and validates exactly once per change of accepted destination. |
| `Datagram.SteadyStateValidatesOnce` | src/mqp/datagram.rs:137-145 | One destination is validated once, however many packets it gets. |
| `Batch.EncodeBatchWithHeader` | src/mqp/batch.rs:49-79 | The encoder with its saturating length budget is the reference encoder. |
| `Batch.DecodeBatch` | src/mqp/batch.rs:158-198 | Validation without keeping items accepts and rejects exactly like the collecting decoder, with the same error, and leaves items that parse exactly. |
| `Batch.ItemsEndIsParse` | src/mqp/batch.rs:175-191 | Walking offsets agrees with parsing items, errors included. |
| `Batch.BatchItems.Next` | src/mqp/batch.rs:137-148 | The iterator yields the items in order and is exhausted exactly when its count and its bytes are. |
| `Batch.DecodeBatchCollect` | src/mqp/batch.rs:203-210 | Collecting the iterator of a validated frame is the reference decoder. |
| `Batch.BatchLayout` | src/mqp/batch.rs:100-157 | A batch on the wire: type 6, session, address, count, and each item as a little-endian length and its body, in order. |
| `Batch.ItemsOfParse` | src/mqp/batch.rs:158-198 | Whatever parses is the written form of the items it yields. |
| `Batch.BatchRoundTripExactly` | src/mqp/batch.rs:49-79 | An encoded frame decodes to its session, address and payloads in order if and only if every payload length fits the u16 it is cast to. |
| `Batch.AcceptedIsHeadAndItems` | src/mqp/batch.rs:158-198 | An accepted frame is exactly its head followed by its items. |
| `Batch.FrameLenIsEncoderBudget` | src/mqp/batch.rs:20-26 | The encoded length is what the budget helper predicts and within the limit, unless the budget saturates. |
| `Batch.EncodedOfBatchDecode` | src/mqp/batch.rs:158-198 | Every accepted frame re-encodes to itself within any limit that covers it. |
| `Batch.BatchSelfDelimiting` | src/mqp/batch.rs:177-191 | No strict extension of an accepted frame is accepted. |
| `Varint.PutVarint` | examples/rev3_bench.rs:98-104 | The writer loop appends the LEB128 form. |
| `Varint.VarintLen` | examples/rev3_bench.rs:89-96 | The length loop is the length of that form. |
| `Varint.RdVarint` | examples/rev3_bench.rs:106-123 | The bounded reading loop is the recursive reader, its end offset included. |
| `Varint.RdBound` | examples/rev3_bench.rs:106-123 | The reader takes at most five bytes and yields a 32-bit value. |
| `Varint.LebLength` | analysis/rev3/wire_model.py:35-44 | The writer's length is the threshold table of the byte model, at most five. |
| `Varint.LebWeighs` | examples/rev3_bench.rs:98-104 | The written groups of seven bits weigh the number, lowest first, and exactly the last byte has no top bit. |
| `Varint.RdOfLeb` | examples/rev3_bench.rs:106-123 | The reader inverts the writer wherever it finds its bytes and stops exactly after them. |
| `Varint.LebOfRd` | examples/rev3_bench.rs:106-123 | Accepted bytes are never shorter than the canonical form, and are it iff they are one byte or do not end in a zero byte. |
| `Train.RefEncodeTrainDict` | examples/rev3_bench.rs:151-166 | The encoder writes the frame, both counts cast to a byte. |
| `Train.RefDecodeTrainDict` | examples/rev3_bench.rs:199-239 | One pass over the bytes, with a fixed flow table and a wrapping sum, computes what the reference parse denotes and rejects what it rejects. |
| `Train.SumBound` | examples/rev3_bench.rs:214-237 | The wrapping sum of an accepted frame cannot wrap. |
| `Train.SumAdds` | examples/rev3_bench.rs:221-236 | An item is worth the id its index names and its length, and items add up. |
| `Train.TrainHead` | examples/rev3_bench.rs:151-166 | A dictionary frame starts with 4, 1, the number of items and the number of flows. |
| `Train.ParseDictWellFormed` | README.md:342-349 | Only frames within the documented counts and indices are accepted. |
| `Train.TrainRoundTrip` | examples/rev3_bench.rs:151-166 | Every well-formed dictionary train decodes to its parts, consuming every byte, and sums to their sum. |
| `Train.AcceptedExactly` | examples/rev3_bench.rs:199-236 | The decoder gives back the parts a frame was built from if and only if the counts, indices, ids and lengths are well-formed. |
| `Train.RepeatedFlowAccepted` | examples/rev3_bench.rs:213-220 | Giving any flow of any well-formed frame the id of another leaves the frame accepted, items and sum included. |
| `Train.TrainLengthIsModel` | analysis/rev3/wire_model.py:74-76 | The encoded length is the closed form of the byte model. |
| `Train.ReencodeNormalises` | examples/rev3_bench.rs:199-239 | Whatever is accepted, padded integers included, re-encodes to a frame no longer that decodes to the same contents. |
| `CtlRate.Limiter.Allow` | src/mqp/ctl_stream.rs:265-276 | The window counter moves as the pure step does. |
| `CtlRate.TotalBounded` | src/mqp/ctl_stream.rs:240-276 | For any clock readings in any order, at most one budget per second seen and one more are admitted. |
| `CtlRate.SpanBounded` | src/mqp/ctl_stream.rs:240-276 | While the clock does not run backwards no one-second span admits more than twice the budget. |
| `CtlRate.SpanBoundReached` | src/mqp/ctl_stream.rs:240-276 | For every budget there are readings that reach twice it, so the bound is exact. |
| `CtlRate.CounterMeaning` | src/mqp/ctl_stream.rs:265-276 | The budget left is the budget less the messages inside the current window. |
| `CtlRate.HonestSenderNeverRefused` | src/mqp/ctl_stream.rs:240-276 | A sender within budget in every one-second span is never refused. |
| `CtlStream.MessageRoundTrip` | src/mqp/r3.rs:1578-1688 | Every representable control message survives the wire, whatever follows it. |
| `CtlStream.MessageOfDecode` | src/mqp/r3.rs:1615-1688 | Every accepted frame is the encoding of its message. |
| `CtlStream.ControlLayout` | src/mqp/r3.rs:1578-1612 | Every control message byte by byte: type, body length, session or flow id, reason, low bytes first. |
| `CtlStream.VerdictIsFinal` | src/mqp/ctl_stream.rs:111-128 | A message or an error, once reported for a buffer, does not change with more bytes. |
| `CtlStream.DrainSplit` | src/mqp/ctl_stream.rs:111-128 | Draining a stream in two steps is draining it at once, errors included. |
| `CtlStream.ChunkingIsIrrelevant` | src/mqp/ctl_stream.rs:111-128 | However any byte stream, malformed or not, is cut, the messages, the remainder and the error are the same. |
| `CtlStream.StreamSurvivesChunking` | src/mqp/ctl_stream.rs:111-128 | However frames are cut, the messages come out in order, with no error and only prefixes on the way. |
| `CtlStream.CtlReceiver.Recv` | src/mqp/ctl_stream.rs:198-225 | Two exact reads give the verdict of the incremental decoder on the rest of the stream and consume exactly the message. |
| `CtlStream.RecvAll` | src/mqp/ctl_stream.rs:198-225 | Receiving until the end yields exactly the messages and the ending of draining the whole stream. |
| `Histogram.Position` | src/dns/stats.rs:75-79 | The search returns the one bucket the sample belongs to. |
| `Histogram.Recorder.Record` | src/dns/stats.rs:74-85 | Recording appends one sample to what the counters mean, with durations clamped to 64 bits. |
| `Histogram.Recorder.Snapshot` | src/dns/stats.rs:87-97 | A snapshot is the histogram of all samples recorded, counters wrapping at 2^64. |
| `Histogram.PercentileUs` | src/dns/stats.rs:240-256 | For any counts, the loop returns the bound of the first bucket whose running count reaches the rank, both sums wrapping as in a release build. |
| `Histogram.OrderStatisticUnique` | src/dns/stats.rs:235-247 | Every rank has exactly one order statistic. |
| `Histogram.RunningCount` | src/dns/stats.rs:248-254 | The running count through a bucket is the number of samples at most its bound. |
| `Histogram.PercentileBracketsOrderStatistic` | src/dns/stats.rs:235-256 | The order statistic of the computed rank lies at or below the returned bound and strictly above the bound of the bucket before. |
| `Histogram.RankIsCeiling` | src/dns/stats.rs:245-247 | The computed rank is ceil(p*n/100), at least 1, if and only if the product is at most 18446744073709551700. |
| `Histogram.NoSamplesNoPercentile` | src/dns/stats.rs:240-244 | Without samples, in a histogram or in an interval, every percentile is 0. |
| `Histogram.LargestIsMaximum` | src/dns/stats.rs:74-85 | The reported maximum is one of the samples and at least every one. |
| `Histogram.DeltaIsInterval` | src/dns/stats.rs:266-280 | A snapshot difference counts exactly the samples between, bucket by bucket; its sum is theirs iff adding them does not carry the wrapped sum past 2^64; its maximum is the lifetime one. |
| `Histogram.IntervalCeiling` | src/dns/stats.rs:258-264 | The interval's ceiling, the 100th percentile of a snapshot difference, is at least every sample in between, and one of them lies above the bucket bound before it. |
| `Listen.OverlapIsSharedTraffic` | src/config/client_conf.rs:526-567 | The pairwise test holds if and only if some destination would reach both listeners. What a listener takes is stated on its own octets: a mapped IPv6 address takes exactly the IPv4 destination in its last four octets, in order, or all of IPv4 if these are zero; the IPv6 wildcard takes both families. |
| `Listen.DefaultForwardShare` | src/config/client_conf.rs:515-522 | The default share is at least 1, leaves at least a quarter from a cap of 2 on, and is at least three quarters from 4 on. |
| `Listen.ForwardSessionBudget` | src/config/client_conf.rs:324-345 | The session budget is within 1 and the maximum, a configured one in range is kept, and the default leaves room beside it. |
| `Listen.ForwardConnBudget` | src/config/client_conf.rs:347-355 | The connection budget is within 1 and the maximum, a configured one in range is kept, and the default leaves room beside it. |
| `Listen.Forwards` | src/config/client_conf.rs:420-502 | A table is accepted iff it is small enough and every entry passes; entries are lowered in order with caps in range; otherwise the error is that of the first failing entry. |
| `Listen.Lowered` | src/config/client_conf.rs:452-456 | An entry keeps its listener, its target and a cap in range; a larger cap becomes the maximum, and no cap the budget. |
| `Listen.ReportedOverlapIsReal` | src/config/client_conf.rs:434-451 | Every reported overlap is a pair of listeners that could receive the same traffic. |
| `Listen.AcceptedListenersDisjoint` | src/config/client_conf.rs:420-502 | On success all accept sets, the SOCKS listener's included, are pairwise disjoint. |
| `Listen.RefusedExactlyForConflict` | src/config/client_conf.rs:420-502 | If nothing else is wrong, a table is refused exactly when two listeners conflict, and then with an overlap report. |
| `Listen.AcceptedExactly` | src/config/client_conf.rs:420-502 | A table passes every check if and only if each entry has a listen address with a port, a nonzero cap and a target, and no two listeners can get the same traffic. |
| `Fragmenter.EncodeFragment` | src/mqp/fragment.rs:219-261 | The encoder writes head, address and chunk, or refuses what exceeds the limit or has a refused address. |
| `Fragmenter.FragmentRoundTrip` | src/mqp/fragment.rs:263-279 | A frame decodes to the fragment it was made from. |
| `Fragmenter.FragmentLayout` | src/mqp/fragment.rs:234-261 | A fragment on the wire: type 5, session, id, index, total, address, chunk. |
| `Fragmenter.FrameOfDecode` | src/mqp/fragment.rs:263-279 | Every accepted frame re-encodes to itself within any limit that covers it. |
| `Fragmenter.Fragments` | src/udp/fragmenter.rs:259-284 | A payload is fragmented exactly when its address is valid, a fragment can carry something, and both the fragment count and the payload ceiling hold; then it is cut and numbered whole. |
| `Fragmenter.Number` | src/udp/fragmenter.rs:348-353 | The enumerated chunk loop numbers the pieces from 0 with their exact count as total. |
| `Fragmenter.CutCount` | src/udp/fragmenter.rs:259-266 | The number of pieces is the rounded-up quotient the sender announces. |
| `Fragmenter.FragmentsCarryPayload` | src/udp/fragmenter.rs:259-368 | The pieces make up the payload, every frame fits the limit (so the loop's refusal branch is dead), and a payload too long for one datagram gives at least two well-shaped fragments. |
| `Fragmenter.DgramFragmenter.TryClaimId` | src/udp/fragmenter.rs:135-148 | The claim moves the id counter and the wrap stamp as the pure step does. |
| `Fragmenter.DgramFragmenter.ClaimId` | src/udp/fragmenter.rs:159-168 | The claim that skips the clock before the first wrap equals the clocked claim for every clock reading. |
| `Fragmenter.IdReuseOutsideWindow` | src/udp/fragmenter.rs:75-96 | In any run of claims from any state under a clock that does not run backwards, two grants of one id are at least the 3 s window apart. |
| `Fragmenter.IdsInTurn` | src/udp/fragmenter.rs:135-148 | A fresh counter hands out 0, 1, 2 and so on modulo 2^32, and refuses nothing before the first cycle is over. |
| `Fragmenter.RefusedExactly` | src/udp/fragmenter.rs:94-96 | A claim is refused if and only if the ids wrapped less than 3000 ms before it. |
| `Partials.Assemble` | src/udp/reassembler.rs:86-92 | The copy loop concatenates the stored chunks in index order. |
| `Partials.FullExactly` | src/udp/reassembler.rs:495-521 | The chunk counter equals the table size exactly when every slot is filled. |
| `Partials.StoreKeepsExact` | src/udp/reassembler.rs:495-521 | Storing a chunk keeps every counter equal to what the chunk table says and charges the slot table once. |
| `Partials.NextExactly` | src/udp/reassembler.rs:426-436 | What is held once a fragment is in, chunk by chunk: its own at its index, and elsewhere what was held if it agrees in total, address and bytes, else nothing: it opens a new generation. |
| `Partials.CompleteWithinCap` | src/udp/reassembler.rs:404-436 | A payload that completes is within the 8 KiB ceiling, and every slot is filled. |
| `Partials.OverCeilingExactly` | src/udp/reassembler.rs:404-425 | A held partial is over the ceiling if and only if it holds a single chunk that is. |
| `Partials.FirstChunkUncapped` | src/udp/reassembler.rs:404-406 | The chunk that opens a partial is stored whatever its length, so every longer one makes a partial over the ceiling. |
| `Partials.OverCeilingNeverDelivers` | src/udp/reassembler.rs:423-424 | A partial over the ceiling completes with no fragment; every fragment that would add to it is over the cap. |
| `FragTable.PopOldest` | src/udp/reassembler.rs:678-716 | Popping the lazy queue finds an entry in every non-empty table, and the oldest one as long as stamps never ran backwards. |
| `FragTable.Sweep` | src/udp/reassembler.rs:587-615 | The sweep drops exactly what timed out and frees exactly what that was charged. |
| `FragTable.LiveSlots` | src/udp/reassembler.rs:651-657 | A rebuilt queue holds exactly one slot per entry, sorted by stamp and key. |
| `FragTable.Prune` | src/udp/reassembler.rs:628-665 | Pruning still reaches every entry, in the same order, and bounds the queue by twice the table plus 64. |
| `Reassembler.DgramReassembler.EvictOldest` | src/udp/reassembler.rs:698-716 | Eviction fails only on an empty table, takes the oldest partial, and gives its bytes back. |
| `Reassembler.DgramReassembler.EvictOldestTombstone` | src/udp/reassembler.rs:678-694 | The same for tombstones; partials are untouched. |
| `Reassembler.DgramReassembler.Remember` | src/udp/reassembler.rs:352-381 | Filing a tombstone keeps both caps, drops only tombstones, the oldest first, and never one more than a cap needs. |
| `Reassembler.DgramReassembler.Reclaim` | src/udp/reassembler.rs:545-561 | The byte budget is always reached; nothing is dropped within it, no partial while a tombstone is left or the partials alone fit, always the oldest, and never one more than needed. |
| `Reassembler.DgramReassembler.Expire` | src/udp/reassembler.rs:587-621 | Exactly the entries past the timeout go, from both tables, and both queues come out bounded. |
| `Reassembler.DgramReassembler.MaybeSweep` | src/udp/reassembler.rs:569-574 | A sweep of both tables at most once a second, by the same rule. |
| `Reassembler.DgramReassembler.Place` | src/udp/reassembler.rs:455-563 | Restart, store, delivery and reclaim together give the unbounded outcome for partials and tombstones, minus only the oldest of what the caps force out. |
| `Reassembler.DgramReassembler.Admit` | src/udp/reassembler.rs:404-454 | The count cap and the payload ceiling, in the order the source checks them; making room takes exactly one partial, the oldest. |
| `Reassembler.DgramReassembler.Push` | src/udp/reassembler.rs:296-308 | After every push the held-byte count is exact and within 256 KiB, and at most 256 partials and tombstones live; malformed fragments and remembered replays change nothing; delivery happens exactly on the last missing fragment, at most 8 KiB, from pieces all pushed under this session, id, total and address. Everything to be remembered is remembered as long as it fits both caps, and what the caps take is always the oldest. |
| `Reassembler.DeliveredIsLogged` | src/udp/reassembler.rs:523-544 | A delivered payload is the in-order concatenation of chunks that were all pushed under its identity. |
| `Reassembler.DeliveredIsSent` | src/udp/reassembler.rs:476-495 | If everything pushed under an identity was cut from one payload, that payload is what is delivered. |
| `Reassembler.ReplayOfDelivered` | src/udp/reassembler.rs:313-327 | While its tombstone is kept, a fragment of a delivered payload is refused if and only if less than the timeout has passed. |
| `Reassembler.ReplaysExactly` | src/udp/reassembler.rs:313-327 | A tombstone refuses exactly the chunks its generation held: same shape, address, index, length and fingerprint, inside the window. |
| `FragmentTrip.OnePiece` | src/udp/reassembler.rs:383-563 | One more fragment of a payload, or a repeat, into whatever its partial has gathered: it completes exactly the payload if nothing else is missing, and otherwise adds exactly that piece and retires nothing. |
| `FragmentTrip.FramesAreOneParcel` | src/udp/fragmenter.rs:348-368 | Cut, framed and decoded, the fragments are those of one payload, so the delivery above is what the sender sent. |
| `FragmentTrip.ReusedIdSplices` | src/udp/reassembler.rs:484-494 | Two same-shaped payloads under one live id do come out mixed; the id window is what rules this out. |
| `FragmentTrip.TombRefuses` | src/udp/reassembler.rs:313-327 | The tombstone of a payload refuses each of its pieces for the timeout, and no longer. |
| `Reader.OnTick` | src/bin/myquic2-server/accept.rs:4339-4355 | The guarded tick drops exactly the partials that timed out, although it is skipped while nothing is held. |
| `Reader.Feed` | src/bin/myquic2-server/accept.rs:4458-4465 | A reassembler in any valid state, fed any events, continues the state machine the theorems below quantify over, handing on what it says. |
| `Reader.Receive` | src/bin/myquic2-server/accept.rs:4458-4465 | A reader over a fresh reassembler makes a run of that machine from nothing held. |
| `FragmentRuns.OtherKeeps` | src/udp/reassembler.rs:383-621 | A tick or an arrival under another key that fits both caps leaves a live partial as it is. |
| `FragmentRuns.EveryDelivery` | src/udp/reassembler.rs:523-544 | Whatever a step hands on is some legal payload whose partial, with the piece that just came, is all of it. |
| `FragmentRuns.Delivers` | src/udp/reassembler.rs:186-192 | From any state and among any other traffic: once a payload's first piece is taken, with only its pieces under its key, within the timeout and nothing forced out, in any order and with any repeats, nothing comes out for the key while a piece is missing, and exactly the payload comes out with the last one. |
| `FragmentRuns.DeliveredAgainExactly` | src/udp/reassembler.rs:276-281 | After a delivery, pieces that come under the kept tombstone and inside the timeout do not count; the payload comes out again if and only if every piece arrives again otherwise, and nothing comes out for the key before. |
| `FragmentRuns.SetReplayed` | src/udp/reassembler.rs:276-281 | On every run of a two-piece payload and its replay: delivered again if and only if the replay comes no sooner than the timeout. |
| `FragmentRuns.AtMostOnce` | src/udp/reassembler.rs:134-158 | While neither cap is reached and no other generation of its key is retired, a payload handed on is not handed on again less than the timeout later: one of its key, shape and address that is differs in every piece. Nothing is assumed of the tombstones. |
| `FragmentRuns.StaysRemembered` | src/udp/reassembler.rs:352-381 | Under the same conditions the tombstone of a delivered payload is there after every event. |
| `FragmentRuns.UnderOneTombstone` | src/udp/reassembler.rs:313-327 | Two payloads of one key, shape and address handed on under one kept tombstone differ in every piece, whatever the caps did to the rest. |
| `FragmentRuns.RestartGuarded` | src/udp/reassembler.rs:459-465 | A fragment that contradicts its key's partial retires it; with room, none of its chunks enters the new generation while the window is open. |
| `FragmentRuns.NoneSeenIsOld` | src/udp/reassembler.rs:569-574 | Even if no tick ever comes, no fragment is put to a partial opened three seconds before. |
| `NoSplice.DeliveredIsAssembled` | src/udp/reassembler.rs:495-543 | What a fragment completes, out of partials no older than the timeout and a tick allow, is the in-order pieces of one identity, all recently arrived. |
| `NoSplice.RunAssembles` | src/mqp/fragment.rs:101-116 | Over every run, from any sessions: each payload handed on consists of pieces of one identity that arrived within one partial's life plus the clock's lag. |
| `NoSplice.DeliveredWasSent` | src/mqp/fragment.rs:118-150 | End to end, over every run: if the clock's lag and the time on the way are together at most 500 ms, every payload that comes out for a session is one its sender sent, to the address it was sent to, though ids wrap and frames are lost, repeated and reordered. |
| `NoSplice.SentIsDelivered` | src/mqp/fragment.rs:118-150 | End to end, the other way: if the timeout, the clock's lag and the time on the way fit the id window, whatever carries a sent payload's key is a piece of it, so the payload that was sent comes out with the last of its pieces to arrive. |
| `NoSplice.LateRunMixes` | src/udp/reassembler.rs:484-494 | Every run on the late events, whatever the hash, ends by handing on halves of two payloads. |
| `NoSplice.LateFragmentsSplice` | src/time/coarse.rs:28-53 | For every larger sum of lag and time on the way there is a run within both bounds, fed by a sender that keeps to the id window, in which a payload nobody sent comes out. |

## Left out

- The `r2`/`r3` frame codecs beyond control messages, the rev-2 stager and reassembler, and the flow registry: separate wire generations, not modelled.
- The send side of the fragmenter past cutting and naming (`conn.send_datagram`, backpressure gate, counters): it depends on the QUIC connection's buffer.
- `ref_decode_train_same` and the same-flow TRAIN: would only repeat the dictionary form with fewer parts.
- DNS policy, the persistent store, resolution itself, single flight and positive-cache expiry: input/output bound; the shared negative cache appears in `NegEpoch` with eviction as a free step.
- Relaxed memory orderings: `NegEpoch` interleaves atomic steps, and its epoch is unbounded where the source wraps at 2^64.
- Clock functions: `coarse_millis`, `mono_millis` and `Instant` are parameters; `coarse_deadline` is not modelled.
- Text parsing of listen and target addresses in the configuration: an entry carries the parsed address or its absence.
- Transport tuning, memory estimates, descriptor limits, server configuration, ACK negotiation and all socket code: arithmetic on constants or operating-system calls.
- The seeded hashers (`foldhash`): the reassembler's fingerprint is an arbitrary function; no claim depends on it being collision-free.
- Statistics counters of the UDP path: they do not feed back into behaviour.
- NegEpoch.InvHolds: covers the probe, publication, success, eviction and lookup steps; a step that both inserts and publishes is split into its two atomic halves.
- Lookup.LookupNeverMisServes: expiry is compared in the coarse epoch handed in; rounding of deadlines into that epoch is not modelled.
- Histogram.PercentileUs: models the release build, where the unchecked sums wrap; a debug build panics instead.
- Histogram.PercentileBracketsOrderStatistic: is about percentages up to 100; above that there is no such order statistic and the code returns a bucket bound.
- Varint.RdVarint: writes the source's bitwise or of disjoint bits as an addition.
- NoSplice.DeliveredWasSent: takes the reader's tick as at least every 500 ms; a runtime that delays ticks adds the delay to the clock's lag.
- FragmentRuns.Delivers: requires that what arrives in between fits both caps; which partials the caps take otherwise is left to what `Reassembler.DgramReassembler.Push` says.
- Reassembler.DgramReassembler.Place: the removal of a complete partial and the filing of its tombstone are one helper shared with the restart path.
