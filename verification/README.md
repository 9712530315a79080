# Order-book feature datapath: model and proofs

The system turns limit-order-book events into fixed-point features in an FPGA and scores
them with a small integer MLP. A host program reads LOBSTER rows, maps them to deltas,
batches them and sends LOB v1 packets. The fabric parses the packets as 64-bit beats,
updates a 16-level book and emits one feature beat per packet: order-flow imbalance (OFI),
top-of-book imbalance, a leaky-bucket burst rate and a micro-volatility. Two reference
scripts predict those features, one per packet and one per event. The MLP core loads its
weights from a word stream and multiplies and accumulates in integers. Offline Python
quantizes the network, folds the normalization into its first layer and labels the data.

The project models this path and proves, among other things:

- **Wire.** Parsing the beats of printed packets returns every field and stays in frame;
  the exact conditions for both are if-and-only-if.
- **Refinement.** For every CSV whose flows overflow no 32-bit register, every batching up
  to 128, and every positive clock, the fabric consumes its input and gives one TLAST beat per packet;
  the beats carry the features the packet-level reference computes if and only if every
  packet's gap meets an exact condition, which a clock that moves forward by less than 2^32 ns
  always does. The per-event reference agrees on OFI and imbalance whatever the clock.
- **Where they part.** Each difference between fabric and reference that the code has is
  stated as an exact condition: deep levels, overflow, gaps, the reset bit, the rounding of
  the volatility, and the byte order of the reply. Deltas of any level keep the two books
  equal one by one exactly when none overflows and none beyond level 15 shows. Over whole runs
  of such deltas, fabric and reference stay related exactly when every packet meets its reset
  and gap condition.
- **Filters over whole runs.** A rate bound on the burst, a range for the volatility, and
  two bounds on the drift between the truncating and the flooring volatility: at most one
  unit per packet, and, however long the run, at most 2·tau/d for gaps in [d, tau].
- **Weights and MLP.** Loader and reload are inverse on the on-chip sizes; the accumulators
  relate exactly to the signed int8 reference and cannot wrap given bias headroom.
- **Quantization.** Over the reals: half a step per code exactly when in range, an error
  bound for the whole emulated layer, which holds exactly when the int32 product does not wrap,
  and the meaning of norm folding.
- **Smaller cores.** The streaming labeller equals the naive quadratic labelling; compressed
  CPU lists read back and are the shortest possible; the best-price caches always hold; the
  echo server's threads neither lose, reorder nor invent replies, and drain under every
  schedule in a bounded number of steps.

## Layout

| file | contents |
|---|---|
| `Words.dfy`, `Reals.dfy` | integer widths, truncating division, byte strings; real products, rounding |
| `Wire.dfy` | the packet format: host printer, fabric parser |
| `Fabric.dfy` | the pipeline's functions on values, and its state invariant |
| `FeaturePipeline.dfy` | the pipeline's registers and streams (class `Pipeline`) |
| `PacketReference.dfy`, `EventReference.dfy` | the two reference scripts (class `Validator`; a loop) |
| `Refinement.dfy`, `Agreement.dfy`, `ImbalanceFacts.dfy`, `FilterBounds.dfy`, `Reflected.dfy`, `Batching.dfy` | fabric against reference, and what each feature means over runs |
| `Replay.dfy`, `EndToEnd.dfy`, `ReplyBytes.dfy` | the host replayer, the whole path, the reply's bytes |
| `WeightLoad.dfy`, `MlpCore.dfy` | weight loader and reload (class `WeightCache`), the integer MLP |
| `Quantize.dfy`, `NormFold.dfy`, `Labels.dfy` | the offline pipeline |
| `CpuList.dfy`, `SimpleBook.dfy`, `EchoThreads.dfy` | CPU lists, the reflex book (class `Book`), the threads |

Code that changes state in place is a class or a method with loops, proved equal to a
function; the properties are lemmas about those functions. Times, clocks and the outcomes
of timing tests are parameters.

## Model

| member | source | states |
|---|---|---|
| Wire.WireRoundTrip | host/udp/replay-udp.c:337-354 | Parsing a printed packet, whatever follows it on the stream, returns its count, send time and every delta with TLAST on the last, and leaves exactly what follows |
| Wire.InFrameIff | fpga/ip/feature_pipe/feature_pipeline.cpp:25-31 | After one packet the parser stands at the next packet iff the announced count, capped at 128, is the number of deltas attached |
| Wire.DeltaRoundTripIff | host/udp/replay-udp.c:269-275 | A delta survives the wire iff price and quantity are int32, level is 16 bits, side is one bit and action two |
| Wire.OversizePacketLosesFrame | fpga/ip/feature_pipe/feature_pipeline.cpp:28-30 | With more than 128 deltas the fabric takes the 129th for the next header |
| Wire.CapIs128 | fpga/ip/feature_pipe/feature_pipeline.cpp:26-31 | The cap in numbers: up to 128 announced deltas are all read, of more than 128 exactly 128 |
| Wire.HeaderLayout | host/udp/replay-udp.c:337-349 | The printed header byte by byte: LOB1, version 1, type 1, then high byte first flags, length 32, the low 32 bits of the sequence number, send time, zeros |
| Wire.DeltaLayout | host/udp/replay-udp.c:269-275 | Where each field of delta i stands in the printed bytes |
| Fabric.PumpSound | fpga/ip/feature_pipe/feature_pipeline.cpp:235-308 | For any beats, well formed or not, all registers stay in their declared ranges, quantities stay non-negative and the cached best levels equal level 0 |
| Fabric.PumpMarksEveryBeat | fpga/ip/feature_pipe/feature_pipeline.cpp:293-304 | For any beats, well formed or not: what was written stays, and every feature beat written has its TLAST bit set |
| Fabric.ImbalanceFits | fpga/ip/feature_pipe/feature_pipeline.cpp:164-170 | No intermediate of the imbalance leaves its 33-, 48- or 32-bit register |
| Fabric.BurstFits | fpga/ip/feature_pipe/feature_pipeline.cpp:180-186 | The leaky bucket's 64-bit intermediates cannot overflow |
| Fabric.VolFits | fpga/ip/feature_pipe/feature_pipeline.cpp:189-199 | The volatility's 64-bit intermediates cannot overflow and the mid fits int32 |
| FeaturePipeline.Pipeline.constructor | fpga/ip/feature_pipe/feature_pipeline.cpp:218-227 | Power-on clears every register and the FIFO |
| FeaturePipeline.Pipeline.ParseOnePacket | fpga/ip/feature_pipe/feature_pipeline.cpp:10-101 | The read loop consumes exactly the parsed packet and appends its deltas to the FIFO in order |
| FeaturePipeline.Pipeline.UpdateLevels | fpga/ip/feature_pipe/feature_pipeline.cpp:109-130 | The in-place switch and clamp change one level of one side as specified, nothing for levels from 16 |
| FeaturePipeline.Pipeline.UpdateRegisters | fpga/ip/feature_pipe/feature_pipeline.cpp:103-146 | One delta moves the book arrays, the OFI accumulator and the four cached registers to the specified book |
| FeaturePipeline.Pipeline.ImbalanceQ15 | fpga/ip/feature_pipe/feature_pipeline.cpp:163-178 | The division and its two clamps give (bid - ask)/(bid + ask) in units of 2^-15, rounded toward zero, for all non-negative quantities; 0 for an empty top, and 0x7FFF, the only saturation, for an empty ask side |
| FeaturePipeline.Pipeline.LeakyBucket | fpga/ip/feature_pipe/feature_pipeline.cpp:180-186 | The result is the exact bucket, content minus content·dt/tau plus one, rounded up and saturated to 32 bits; stated without division, so it fixes the result |
| FeaturePipeline.Pipeline.MicroVol | fpga/ip/feature_pipe/feature_pipeline.cpp:194-199 | The result is the exact moving average, old plus dt/tau of the distance to the scaled mid move, rounded toward the old value on either side and saturated to 32 bits |
| FeaturePipeline.Pipeline.ComputeFeatures | fpga/ip/feature_pipe/feature_pipeline.cpp:148-206 | Updates the filter registers from the book and returns the features of the new state |
| FeaturePipeline.Pipeline.DrainFifo | fpga/ip/feature_pipe/feature_pipeline.cpp:281-287 | Pops exactly the packet's deltas, in order, into the book; the FIFO ends empty |
| FeaturePipeline.Pipeline.WriteFeatures | fpga/ip/feature_pipe/feature_pipeline.cpp:288-304 | Appends one beat with the new state's features and its TLAST bit set, and leaves the book alone |
| FeaturePipeline.Pipeline.PumpOne | fpga/ip/feature_pipe/feature_pipeline.cpp:235-308 | One turn of the loop, either branch: one packet consumed, one beat written, FIFO empty again |
| FeaturePipeline.Pipeline.Run | fpga/ip/feature_pipe/feature_pipeline.cpp:235-308 | The endless loop, up to the read that blocks, computes the value-level pump, and every beat it wrote has TLAST |
| PacketReference.Validator.constructor | tests/validate_features_off_packets.py:26-30 | The script starts from the reset state |
| PacketReference.Validator.ApplyDelta | tests/validate_features_off_packets.py:76-92 | One replayed delta, with levels from 16 charged to level 0 and a saturating OFI |
| PacketReference.Validator.Replay | tests/validate_features_off_packets.py:70-74 | Replays as many deltas as announced, or as many as the dump holds |
| PacketReference.Validator.Expect | tests/validate_features_off_packets.py:45-130 | One receive record: reset, skip or replay, then the expected features |
| Refinement.NextQtyMatchesIff | fpga/ip/feature_pipe/feature_pipeline.cpp:112-129 | The two level quantities agree after a delta iff no 32-bit overflow |
| Refinement.NextOfiMatchesIff | tests/validate_features_off_packets.py:90-92 | The wrapping and the saturating accumulator agree iff the sum fits int32 |
| Refinement.DeltaMatchesIff | fpga/ip/feature_pipe/feature_pipeline.cpp:109-139 | Inside the book one delta keeps both books and OFIs equal iff nothing overflows |
| Refinement.DeepDeltaMatchesIff | tests/validate_features_off_packets.py:78-89 | Beyond level 15 the fabric drops what the reference charges to level 0; they agree iff the reference changes nothing: the exact cases |
| Refinement.DeltaAgreesIff | tests/validate_features_off_packets.py:77-92 | The two conditions as one, for a delta of any level |
| Refinement.DeepDeltaDiverges | tests/validate_features_off_packets.py:78 | A concrete level-16 set that the two books disagree on |
| Refinement.GapMatchesIff | fpga/ip/feature_pipe/feature_pipeline.cpp:158-161 | The two gap computations agree iff time moves forward by less than 2^32 ns (with 0 meaning none in the fabric) |
| Refinement.ResetDiverges | tests/validate_features_off_packets.py:55-63 | Two packets after which the fabric, which ignores the reset bit, and the reference differ |
| Agreement.EmptyResetAgreesIff | tests/validate_features_off_packets.py:55-63 | A reset packet without deltas is harmless iff the fabric holds the power-on book and its bucket leaks to the last unit over the gap |
| Agreement.LevelsMeetIff | tests/validate_features_off_packets.py:55-92 | One level, with and without the reset before the payload, ends the same iff its price was 0 or is set, and its quantity is set, removed or pushed to the floor: q + min S_k <= 0 |
| Agreement.BooksMeetIff | tests/validate_features_off_packets.py:55-92 | The whole books end the same iff that holds of all 32 levels and the OFI was 0 |
| Agreement.BurstAgreesIff | fpga/ip/feature_pipe/feature_pipeline.cpp:158-186 | Exactly which gaps, of any length and direction, leave the two bursts equal: beyond 2^32 ns forward every bucket except some of 1 to 3 units, backward only without a leak or when full |
| Agreement.BurstLeakedIff | tests/validate_features_off_packets.py:119-122 | After a reset the bursts are equal iff the fabric's bucket leaks all it held |
| Agreement.PacketAgreesIff | tests/validate_features_off_packets.py:42-130 | For every packet whose deltas keep the books equal one by one, with or without reset and for any gap: fabric and reference stay related iff the packet meets its reset or gap condition |
| Agreement.RunAgreesIff | tests/validate_features_off_packets.py:42-130 | Over every run of such packets they are related at every packet boundary iff every packet meets it, and then OFI, imbalance and burst are equal throughout |
| Agreement.FeaturesAgreeIff | tests/validate_features_off_packets.py:42-130 | Where no reset takes anything back, OFI, imbalance and burst of all packets equal the reference iff every packet meets its gap condition: a difference shows |
| Refinement.BurstMatches | tests/validate_features_off_packets.py:120-122 | On the same state and gap both bursts are equal |
| Refinement.ImbalanceMatches | tests/validate_features_off_packets.py:94-105 | Truncating division equals the reference's negate-floor-negate emulation |
| Refinement.DrainMatches | tests/validate_features_off_packets.py:70-92 | Over deltas that agree one by one the two books stay equal and sound |
| Refinement.DrainMatchesIff | fpga/ip/feature_pipe/feature_pipeline.cpp:109-139 | Over any well-formed deltas, of any levels, the two books are equal after every one iff every delta agrees where it comes: no overflow inside the book, no trace beyond it |
| Refinement.CleanlySplits | tests/validate_features_off_packets.py:70-92 | Whether deltas keep the books equal does not depend on where they are cut into packets |
| Refinement.PacketMatches | tests/validate_features_off_packets.py:71-130 | One packet in scope keeps the relation and gives equal OFI, imbalance and burst |
| Refinement.RunRefines | tests/validate_features_off_packets.py:42-130 | Over every run in scope the states stay related and every packet's OFI, imbalance and burst equal the reference |
| Refinement.PumpRuns | fpga/ip/feature_pipe/feature_pipeline.cpp:235-308 | Fed concatenated packets the pump consumes all beats and emits exactly one beat per packet, each with TLAST |
| Refinement.PipelineRefinesReference | fpga/ip/feature_pipe/feature_pipeline.cpp:235-308 | The two above together: beats in, reference features out |
| ImbalanceFacts.ImbalanceAccuracy | fpga/ip/feature_pipe/feature_pipeline.cpp:163-178 | The value is (bid - ask)/(bid + ask) in units of 2^-15 rounded toward zero; only an empty ask side saturates |
| ImbalanceFacts.ImbalanceAntisymmetric | fpga/ip/feature_pipe/feature_pipeline.cpp:163-178 | Swapping non-empty sides negates the imbalance |
| ImbalanceFacts.FlooredImbalanceIff | tests/trace_compare.py:81-86 | The trace comparer's flooring division agrees iff nothing negative is rounded |
| FilterBounds.BurstStepBound | fpga/ip/feature_pipe/feature_pipeline.cpp:180-186 | burst·d <= 65537·tau survives any step whose gap is at least d |
| FilterBounds.BurstRateBound | fpga/ip/feature_pipe/feature_pipeline.cpp:158-186 | For every run of packets at least d apart, burst·min(d, tau) <= 65537·tau |
| FilterBounds.VolStaysBetween | fpga/ip/feature_pipe/feature_pipeline.cpp:188-199 | For gaps up to tau the new volatility lies between the old one and the scaled mid move |
| FilterBounds.VolStaysBetweenIff | fpga/ip/feature_pipe/feature_pipeline.cpp:188-199 | It never overshoots, whatever the levels, iff the gap is at most tau |
| FilterBounds.VolRunBound | fpga/ip/feature_pipe/feature_pipeline.cpp:188-199 | Over a run the volatility never exceeds 65536 times the largest mid move |
| FilterBounds.MidMoveExactIff | fpga/ip/feature_pipe/feature_pipeline.cpp:190-192 | The 32-bit mid difference is exact iff the mids are at most 2^31 apart |
| FilterBounds.VolStepMatchesIff | tests/validate_features_off_packets.py:123-129 | On equal inputs truncating and flooring volatility agree exactly in the listed cases |
| FilterBounds.FloorStepLipschitz | tests/validate_features_off_packets.py:127 | The floor step is 1-Lipschitz up to 2·tau and monotone up to tau |
| FilterBounds.DriftStep | tests/validate_features_off_packets.py:123-129 | One packet adds at most 1 to the difference of two volatilities, for gaps up to 2·tau |
| FilterBounds.DriftStepIff | tests/validate_features_off_packets.py:123-129 | ... and for no larger gap is that true of all levels |
| FilterBounds.VolDriftBound | tests/validate_features_off_packets.py:123-129 | Over every run in scope the fabric's and the reference's volatility differ by at most the number of packets |
| FilterBounds.DriftStepUniform | tests/validate_features_off_packets.py:123-129 | drift·d <= 2·tau, and the fabric not below the reference, survive a step with gap in [d, tau] |
| FilterBounds.VolDriftUniform | tests/validate_features_off_packets.py:123-129 | Over every run with gaps in [d, tau] the fabric is never below the reference and drift·d <= 2·tau, independent of length |
| Reflected.LowestIsLeast | fpga/ip/feature_pipe/feature_pipeline.cpp:117-129 | The running minimum bounds every prefix of the net flow and is attained |
| Reflected.QtyIsReflected | fpga/ip/feature_pipe/feature_pipeline.cpp:109-130 | With only adds and updates on a level, its quantity is S_n minus the running minimum of S, other deltas interleaved at will |
| Reflected.QtyIsReflectedIff | fpga/ip/feature_pipe/feature_pipeline.cpp:109-130 | That holds at every moment iff the closed form never exceeds int32 |
| Batching.RunBook | fpga/ip/feature_pipe/feature_pipeline.cpp:281-287 | The book after a run is the book after the concatenated deltas |
| Batching.FeatureReadsPayload | tests/validate_features_offline.py:28-52 | OFI and imbalance of packet k are those of the book after the first k+1 payloads |
| Batching.BatchingIndependent | tests/validate_features_offline.py:28-52 | Two batchings of the same deltas end in the same book and show the same OFI and imbalance wherever their payloads coincide |
| Batching.ShortcutReadsLevelZero | fpga/ip/feature_pipe/feature_pipeline.cpp:255-280 | After any beats the zero-delta shortcut reads cached registers that equal level 0 |
| Replay.ReplayLob | host/udp/replay-udp.c:248-436 | The replay loop with its fixed buffer, and the final flush, compute the packet sequence |
| Replay.BatchingConserves | host/udp/replay-udp.c:322-436 | For every timing the payloads concatenate to the mapped rows in order; every packet has 1..batch deltas, consecutive numbers and its clock reading |
| Replay.BatchingConservesIff | host/udp/replay-udp.c:323 | With a batch below 1 every row is lost, so conservation holds iff batch >= 1 or nothing maps |
| Replay.PacketLeavesIff | host/udp/replay-udp.c:322-368 | A row that maps to nothing changes nothing; after any other a packet leaves iff the timing test passes or the batch is full |
| Replay.PacketSizes | host/udp/replay-udp.c:322-368 | If the test never passes every packet of the loop is full; if it always passes each has one delta |
| Replay.FlagWordIff | host/udp/replay-udp.c:341-343 | The flag word carries count and reset mark iff the count fits 15 bits |
| Replay.FlagsDecode | host/udp/replay-udp.c:341-343 | Up to batch 32767 every header announces its deltas and only the first carries reset |
| Replay.MappedFitsWire | host/udp/replay-udp.c:256-275 | Every mapped delta fits the wire, is on level 0 and never sets a price |
| EndToEnd.RowEffect | host/udp/replay-udp.c:256-275 | What each row type does to the fabric's book when nothing overflows: a submission adds its size to the top of its side and to the flow, a cancellation or execution takes it off down to nothing, a deletion empties it, a replacement leaves it; the other side never changes |
| EventReference.YieldFeatures | models/features_ref.py:37-113 | The generator's loop yields, for each mapped row in order, its time since the first readable row in rounded nanoseconds and the 16 big-endian bytes of its snapshot |
| EventReference.StampsAreNanoseconds | models/features_ref.py:46-48 | The timestamps are 1e9 times the seconds since the first row that can be read, to the nearest integer, and that row's is 0 |
| EventReference.RowMappingsAgree | models/features_ref.py:50-62 | Of the rows both can parse, host and reference map the same ones, to the same side, action and quantity, and the delta carries the row's price |
| EventReference.EventsMatchDeltas | models/features_ref.py:50-95 | Snapshot j has the OFI and imbalance of the packet-level reference after j+1 deltas |
| EventReference.EventsAreOneDeltaPackets | models/features_ref.py:64-113 | Every snapshot, in all four fields and for any timestamps, is what the packet-level reference computes when each mapped row is sent alone at its time |
| EventReference.EventsMatchPackets | tests/validate_features_off_packets.py:42-130 | ... and that is the script's own run over those packets, for non-negative timestamps |
| EventReference.EventVolIsZero | models/features_ref.py:104-109 | No row sets a price, so the per-event volatility is always 0 |
| EndToEnd.DrainBounded | tests/validate_features_off_packets.py:80-92 | Quantities and OFI never exceed the sum of absolute quantities |
| EndToEnd.BoundedFlowIsClean | tests/validate_features_off_packets.py:80-92 | So a total flow that fits int32 overflows nothing |
| EndToEnd.CleanBeyondBoundedFlow | tests/validate_features_off_packets.py:80-92 | ... but is not needed: an order of 1.2e9 and its cancellation |
| EndToEnd.ScopeIff | tests/validate_features_off_packets.py:42-92 | A run is in the scope of the refinement iff its packets can be parsed, the clock advances and the concatenated deltas keep the books equal |
| EndToEnd.ReplayInScope | host/udp/replay-udp.c:248-436 | For every timing, with batch 1..128, the replayer's packets are in that scope as soon as its rows overflow nothing |
| EndToEnd.FabricVolIsZero | fpga/ip/feature_pipe/feature_pipeline.cpp:188-199 | Packets that never set a price leave the fabric's volatility at 0 |
| EndToEnd.RefVolIsZero | tests/validate_features_off_packets.py:123-129 | ... and the reference's |
| EndToEnd.FabricEqualsPacketReference | tests/validate_features_off_packets.py:42-134 | From CSV rows that overflow nothing, for any positive clock: the fabric consumes every beat, and its beats are those of the packet-level reference's features, all four fields, iff every packet meets its gap condition |
| EndToEnd.SteadyClockAgrees | tests/validate_features_off_packets.py:42-134 | A clock that moves forward by less than 2^32 ns meets it throughout, so then the beats are equal |
| EndToEnd.FabricMatchesEventReference | tests/validate_features_offline.py:33-52 | For every batching and every clock, OFI and imbalance of packet k equal the per-event snapshot after as many events as were sent |
| EndToEnd.BeatsMatchEventReference | tests/validate_features_offline.py:33-52 | With batch 1..128 the beats that leave the fabric are those features, one per packet, and every input beat is consumed |
| ReplyBytes.RepackIsIdentity | fpga/pynq/feature_echo_mt.py:292-295 | The echo server's decode and re-encode change no byte of the feature beat |
| ReplyBytes.ValidatorAcceptsIff | tests/validate_features_off_packets.py:134-135 | The byte comparison accepts a reply iff each expected field is the byte swap of the fabric's |
| ReplyBytes.FirstPacketNeverAccepted | fpga/ip/feature_pipe/feature_pipeline.cpp:293-298 | So the first packet is refused even with equal values: its burst is 65536 |
| WeightLoad.StreamBytes | fpga/ip/feature_pipe/weight_loader/weight_loader.cpp:37-52 | The packing loop writes each four bytes as one big-endian word, the last padded with zeros |
| WeightLoad.WordIsBigEndian | fpga/ip/feature_pipe/weight_loader/weight_loader.cpp:41-45 | The first of the four bytes is the word's most significant |
| WeightLoad.StreamInts | fpga/ip/feature_pipe/weight_loader/weight_loader.cpp:81-89 | The word loop writes every word, TLAST only on the last when marked |
| WeightLoad.WeightLoader | fpga/ip/feature_pipe/weight_loader/weight_loader.cpp:33-89 | The four blocks in order, or nothing without start |
| WeightLoad.WeightCache.ReloadW0 | fpga/ip/feature_pipe/mlp_infer_stream/mlp_infer_stream.cpp:102-125 | Each byte below w0_bytes lands at (h, d) = (i / 4, i % 4), other slots keep their value, and exactly the block's words are read |
| WeightLoad.WeightCache.StoreRow | fpga/ip/feature_pipe/mlp_infer_stream/mlp_infer_stream.cpp:110-124 | One word fills the row of one hidden unit, as far as w0_bytes reaches |
| WeightLoad.WeightCache.ReloadB0 | fpga/ip/feature_pipe/mlp_infer_stream/mlp_infer_stream.cpp:126-132 | The biases are replaced from the stream, the rest kept |
| WeightLoad.WeightCache.ReloadW1 | fpga/ip/feature_pipe/mlp_infer_stream/mlp_infer_stream.cpp:133-151 | As W0, one byte per hidden unit |
| WeightLoad.WeightCache.ReloadB1 | fpga/ip/feature_pipe/mlp_infer_stream/mlp_infer_stream.cpp:152-158 | All words are read, the first is kept |
| WeightLoad.WeightCache.Reload | fpga/ip/feature_pipe/mlp_infer_stream/mlp_infer_stream.cpp:101-160 | The whole new cache and stream position, in terms of the words read |
| WeightLoad.LoadRoundTrip | fpga/ip/feature_pipe/mlp_infer_stream/mlp_infer_stream.cpp:101-160 | Within the on-chip sizes the words reload reads are exactly the loader's, and hold every source byte and word |
| WeightLoad.LoadThenReload | fpga/ip/feature_pipe/mlp_infer_stream/mlp_infer_stream.cpp:101-160 | Loading and then reloading a fresh cache leaves every W0 and W1 byte and every bias in its array slot, zero elsewhere, and the stream at what follows |
| WeightLoad.ReloadInFrameIff | fpga/ip/feature_pipe/mlp_infer_stream/mlp_infer_stream.cpp:104-107 | Reload reads as many words as were written iff W0 has at most 128 bytes and W1 at most 32 |
| WeightLoad.LastMarksTheEnd | fpga/ip/feature_pipe/weight_loader/weight_loader.cpp:81-89 | TLAST is on the last B1 word and nowhere else |
| MlpCore.MlpSeesSwappedFields | fpga/ip/feature_pipe/mlp_infer_stream/mlp_infer_stream.cpp:172-182 | What the core decodes from a feature beat is every field byte-swapped |
| MlpCore.ByteSwapIdentityIff | fpga/ip/feature_pipe/mlp_infer_stream/mlp_infer_stream.cpp:23-36 | A field survives iff its bytes read the same both ways |
| MlpCore.OneShareIsSwapped | fpga/ip/feature_pipe/mlp_infer_stream/mlp_infer_stream.cpp:179 | An OFI of 1 reaches the network as 2^24 |
| MlpCore.UnpackOfEmit | fpga/ip/feature_pipe/feature_pipeline.cpp:293-298 | Reading the feature word low byte first gives the four features back |
| MlpCore.HiddenAccumulator | fpga/ip/feature_pipe/mlp_infer_stream/mlp_infer_stream.cpp:202-208 | The layer-0 loop, wrapping at each step, ends at the wrapped bias plus dot product |
| MlpCore.ClampIsNearest | fpga/ip/feature_pipe/mlp_infer_stream/mlp_infer_stream.cpp:37-42 | The clamp gives the one int8 nearest to its argument |
| MlpCore.OutputAccumulator | fpga/ip/feature_pipe/mlp_infer_stream/mlp_infer_stream.cpp:218-224 | The same for layer 1 |
| MlpCore.DotIsSignedPlusHigh | models/tests/cpu_parity.py:49-59 | Unsigned weights give the signed result plus 256 times the activations of bytes from 128 |
| MlpCore.FabricMatchesSignedIff | models/tests/cpu_parity.py:49-59 | With the wrap, fabric and signed reference agree iff that sum vanishes modulo 2^24 |
| MlpCore.LayerMatchesSignedIff | models/tests/cpu_parity.py:49-59 | On layers of up to 32 inputs: iff the activations of bytes from 128 sum to 0 |
| MlpCore.DotBound | fpga/ip/feature_pipe/mlp_infer_stream/mlp_infer_stream.cpp:202-224 | n products stay within 32640·n, and non-negative up to 32385·n for non-negative activations |
| MlpCore.AccumulatorNeverWraps | fpga/ip/feature_pipe/mlp_infer_stream/mlp_infer_stream.cpp:202-224 | Given that headroom around the bias every partial sum is exact |
| MlpCore.LayerBounds | fpga/ip/feature_pipe/mlp_infer_stream/mlp_infer_stream.cpp:202-224 | Partial sums stay within 130560 (layer 0) and 1044480 (layer 1) |
| MlpCore.ReluLayerBound | fpga/ip/feature_pipe/mlp_infer_stream/mlp_infer_stream.cpp:209-221 | After ReLU layer 1's partial sums are in [0, 1036320] |
| Quantize.CodeErrorIff | models/quant/fxp.py:24-31 | A clamped code is within half a step of its value iff the value is in the code range extended by half a step |
| Quantize.AutoNeverClamps | models/quant/fxp.py:26-31 | On its own range no value clamps, every code is the rounded quotient and accurate to half a step |
| Quantize.RangeAttained | models/quant/fxp.py:26-31 | The automatic range is the largest absolute entry plus 1e-12: an entry attains it, none exceeds it, and its code is the largest one iff it exceeds (2·qmax - 1)·1e-12 |
| Quantize.ExplicitRange | models/quant/fxp.py:24-31 | With an explicit range the largest code stands for it, codes are accurate exactly within the code range, and beyond it they saturate at qmax and -qmax - 1 |
| Quantize.CodeRanges | models/quant/fxp.py:24-25 | The largest codes of 8 and 16 bits are 127 and 32767 |
| Reals.RoundMeaning | models/quant/fxp.py:29 | The rounded value is the nearest integer, and the even one of two |
| Quantize.BiasErrorIff | models/quant/fxp.py:43-46 | The bias code is accurate to half a step iff it is in int32 range |
| Quantize.ProductError | models/quant/fxp.py:63-64 | One product of codes is off by at most abs(x)·s_w/2 + abs(w)·s_x/2 + s_x·s_w/4 |
| Quantize.DotError | models/quant/fxp.py:63-64 | The integer dot product is off by at most the sum of those |
| Quantize.LinearError | models/quant/fxp.py:63-69 | The dequantized accumulator is within that sum plus s_x·s_w/2 of x·W + b |
| Quantize.LinearErrorIff | models/quant/fxp.py:63-69 | For codes up to m and n and fewer than 2^32/(m + n + 2) inputs, that bound holds iff the sum of products fits int32 |
| Quantize.WrappingBreaksBound | models/quant/fxp.py:64 | Three products of the largest 16-bit codes, for which it fails |
| Quantize.CalibratedLayerError | models/quant/fxp.py:75-93 | The bound for every sample and unit of a layer calibrated on its own data, whenever the bias is not clamped and this one sum of products fits int32 |
| Quantize.CalibratedLayerErrorIff | models/quant/fxp.py:63-93 | ... and for layers of practical size only then |
| Quantize.NoProductWrapSuffices | models/quant/fxp.py:64 | Dimension times the two largest codes within int32 is enough for every sum of products |
| Quantize.RequantizedError | models/quant/fxp.py:70-72 | Requantizing adds at most half an output step |
| Quantize.EmulatedLayerError | models/quant/fxp.py:49-93 | The whole emulated layer, requantized, against the real one: all three bounds added up, under the same two conditions |
| Quantize.EmulatedLayerErrorIff | models/quant/fxp.py:49-93 | With an output step of at most k accumulator steps, k part of the size limit, requantizing hides no wrap: the bound holds iff the sum of products fits int32 |
| NormFold.FoldedRow | models/quant/quantize_models.py:31-33 | One unit: folded weights and bias correction give w · ((x - mean)/(std + 1e-8)), any dimension |
| NormFold.NormalizeMeaning | models/quant/quantize_models.py:26-31 | Normalized times (deviation + 1e-8) is the input minus the mean |
| NormFold.FoldPreservesMeaning | models/quant/quantize_models.py:24-34 | The folded layer on x equals the layer on the normalized x, for every layer, mean, std and input |
| Labels.BuildLabels | models/datasets/build_labels.py:61-96 | The row loop with its queue: labels in row order, each true of its row and a later quote a horizon away (times, sums of ask and bid, sign 1 iff the sum rose, move at least the threshold); with quotes in time order, exactly one for each row whose first quote a horizon later moved that far |
| Labels.LabelsAreTrue | models/datasets/build_labels.py:78-92 | For any timestamps every label the queue writes is true of the rows of the file |
| Labels.NaiveLabelsAreExact | models/datasets/build_labels.py:78-92 | The naive labelling writes exactly the rows whose first later quote moved far enough, with that quote's sum |
| Labels.PopExpired | models/datasets/build_labels.py:86-93 | The inner loop finalizes exactly the queued rows whose turn this row is |
| Labels.QueueIsNaiveIff | models/datasets/build_labels.py:86-88 | Every row finalizes at its naive row iff the naive rows come in order |
| Labels.OrderedTimesOrderNaive | models/datasets/build_labels.py:86-88 | Non-decreasing timestamps guarantee that order, for any horizon |
| Labels.StreamIsNaive | models/datasets/build_labels.py:86-96 | Then the output is the naive labelling and the queue holds exactly the rows with no row a horizon later |
| Labels.LabelsInRowOrder | models/datasets/build_labels.py:86-92 | Labels come out in row order, each row at most once, for any timestamps |
| Labels.UnorderedTimesBlock | models/datasets/build_labels.py:87 | A late row in front holds back one the naive definition would label |
| CpuList.CompressRanges | infra/tuning/irq_affinity.sh:47-53 | The start/prev loop computes the ranges |
| CpuList.RangesAreCanonical | infra/tuning/irq_affinity.sh:47-53 | They are ascending, non-empty, non-adjacent, and cover exactly the list |
| CpuList.CanonicalIsShortest | infra/tuning/irq_affinity.sh:47-53 | No list of ranges with the same numbers is shorter |
| CpuList.DecimalRoundTrip | infra/tuning/irq_affinity.sh:54-57 | A number printed in decimal parses back |
| CpuList.SplitJoin | infra/tuning/irq_affinity.sh:38-57 | Splitting at the comma undoes joining |
| CpuList.TextRoundTripIff | infra/tuning/irq_affinity.sh:36-57 | The compressed text parses back to the ranges iff there is at least one CPU |
| CpuList.ReadsUsualNotation | infra/tuning/irq_affinity.sh:36-57 | "0-3,18" names 0 to 3 and 18, and those ranges are printed so |
| CpuList.Expand | infra/tuning/irq_affinity.sh:36-43 | The sorted list of exactly the numbers named, or an error iff some part is malformed |
| CpuList.CompressThenExpand | infra/tuning/irq_affinity.sh:36-58 | Expanding a compressed list gives the list back |
| CpuList.Complement | infra/tuning/irq_affinity.sh:44-46 | The ascending list of exactly the CPUs not isolated |
| CpuList.AffinityText | infra/tuning/irq_affinity.sh:33-59 | The text reads back, canonically, to exactly the CPUs not isolated; empty iff all are |
| SimpleBook.Book.constructor | host/strategy/book.py:8-12 | An empty book with agreeing caches |
| SimpleBook.Book.LoadSnapshot | host/strategy/book.py:14-21 | Both sides are the snapshot, later entries winning, and the caches agree |
| SimpleBook.FromPairsLaw | host/strategy/book.py:18-19 | A snapshot holds each mentioned price with the quantity of its last entry, and nothing else |
| SimpleBook.Book.ApplyUpdate | host/strategy/book.py:23-62 | One side changes: an add is added, a modify replaces, a reduce is taken off, nothing left is gone, no other price changes; the other side is untouched, the caches agree, and KeyError is raised iff a missing price is modified to nothing |
| SimpleBook.UpdateLaw | host/strategy/book.py:32-62 | Those quantities, for every dictionary, price, quantity and action |
| SimpleBook.RunQuantity | host/strategy/book.py:23-62 | Over any run of adds and reduces, other prices interleaved, a price holds its net flow lifted by as much as it fell below nothing, and is present iff something is left |
| SimpleBook.QuantityAfterModify | host/strategy/book.py:45-56 | After a modify the same from the quantity it set, whatever came before |
| SimpleBook.Book.UpdateBids | host/strategy/book.py:32-62 | The bid branches; the cached best is kept without a scan |
| SimpleBook.Book.UpdateAsks | host/strategy/book.py:32-62 | The ask branches |
| SimpleBook.Book.RemoveBid | host/strategy/book.py:64-69 | Deletes a bid, rescanning only when it was the best |
| SimpleBook.Book.RemoveAsk | host/strategy/book.py:64-72 | Deletes an ask |
| SimpleBook.MaxKey | host/strategy/book.py:74-78 | The greatest key, or None iff there is none |
| SimpleBook.MinKey | host/strategy/book.py:80-84 | The least key, or None iff there is none |
| SimpleBook.Book.GetSpread | host/strategy/book.py:86-89 | None iff a side is empty, else the smallest gap between any ask and any bid |
| SimpleBook.Book.IsCrossed | host/strategy/book.py:91-94 | True iff some bid is at or above some ask |
| SimpleBook.PositiveIff | host/strategy/book.py:32-62 | One update keeps all quantities positive iff an add leaves its price positive |
| SimpleBook.RunStaysPositive | host/strategy/book.py:23-62 | Every run with positive adds keeps all quantities positive |
| SimpleBook.SnapshotPositive | host/strategy/book.py:18-19 | A snapshot with positive quantities starts one |
| EchoThreads.ConservedStep | fpga/pynq/feature_echo_mt.py:38-123 | Every step keeps received = taken + queue + hand, and the replies short of the calls for an answer by exactly the swallowed exceptions |
| EchoThreads.InOrderStep | fpga/pynq/feature_echo_mt.py:96-123 | Every step keeps the replies in order, at most one per datagram, none fabricated |
| EchoThreads.RunsKeepInv | fpga/pynq/feature_echo_mt.py:38-123 | All of that, the queue bounds, and counters at most one behind, in every state of every interleaving |
| EchoThreads.DrainedIsComplete | fpga/pynq/feature_echo_mt.py:339-348 | Once drained without exceptions, exactly the answers to everything received were sent, in order, and both counters are exact |
| EchoThreads.EveryReplyEchoes | fpga/pynq/feature_echo_mt.py:105-123 | In every reachable state every reply, queued or sent, answers a datagram with at least 32 bytes, the magic and type 0 or 1: a ping with 0, deltas with 2, or 4 with timing; flags, sequence number, send time and address are the datagram's |
| EchoThreads.EveryCallIsAnswered | fpga/pynq/feature_echo_mt.py:339-345 | Once drained without exceptions, each datagram that calls for an answer was sent one |
| EchoThreads.NeverStuck | fpga/pynq/feature_echo_mt.py:38-77 | While the threads live, some thread can move whenever anything is in flight |
| EchoThreads.EveryScheduleDrains | fpga/pynq/feature_echo_mt.py:38-123 | Without new datagrams every schedule, exceptions of the processor included, is no longer than the work in flight, and cannot be continued iff it has drained the pipeline |
| EchoThreads.WorkBound | fpga/pynq/feature_echo_mt.py:38-123 | That work is at most eight steps a received datagram, and two |

## Where the code differs from its documentation

- `protocol/lob_v1.h` and the host define bit 15 of the flags as reset; the fabric masks it
  out. `Refinement.ResetDiverges` shows the effect and `Agreement.PacketAgreesIff` says
  exactly when it makes no difference. The refinement of `Refinement.RunRefines` allows reset
  only where the reference is still in its reset state, which is all the replayer sends.
- `protocol/lob_v1.h` puts the feature fields in network byte order; the fabric packs them
  low byte first, and both the MLP core and the echo server read them high byte first.
  The model follows the code (`MlpCore.MlpSeesSwappedFields`, `ReplyBytes.ValidatorAcceptsIff`).
- The weight bytes are described as int8 (`mlp_infer_stream.cpp`, opening comment); the core
  multiplies them as unsigned.
- `fpga/ip/feature_pipe/README.md` describes a 4→8→1 network; the core has 32 hidden units.
- `tests/trace_compare.py` floors the imbalance where the fabric truncates.

## Left out

- Sockets, polling, CSV parsing and dump files: rows arrive as parsed fields, and the timing tests and clock readings are parameters of `Replay`. Send errors end the original program and are not modelled.
- Replay.ReplayLob: the price in ticks is given as an integer; the rounding of price / tick is floating point.
- EventReference.RowMappingsAgree: a row is parsed or not for both programs alike. In fact the host also needs a numeric order id, which the script never reads, so a row with a bad id is skipped by one and used by the other. Sizes are within ±(2^31-1), since negating the smallest int is undefined in C.
- EventReference.YieldFeatures: times are reals, so the rounding of float subtraction and multiplication before `round` is not modelled.
- Agreement.PacketAgreesIff: packets with a delta that parts the books, by overflow or by a level beyond 15 that shows, are excluded, and so is a reset packet whose flows saturate the reference's fresh accumulator. Refinement.DrainMatchesIff is exact about where such deltas part the books; whether later deltas of the packet bring them together again is not stated. Two states are related when books, OFI, burst, last time and mid are; the volatility is treated in FilterBounds.
- Agreement.RunAgreesIff: the same packets are excluded.
- EndToEnd.FabricMatchesEventReference: the script compared with reads 18-byte records and takes the first two bytes as a plain count (tests/validate_features_offline.py:22-39), while the replayer dumps 30-byte records whose flag field also carries the reset bit. The record layout and the count are not modelled; the snapshots are compared after as many events as the packets carried.
- EndToEnd.BeatsMatchEventReference: feature values only, as for the packet-level reference; the script's byte records are not modelled.
- EndToEnd.FabricEqualsPacketReference: the reference is run on every packet sent. The replayer writes no dump of its final flush packet (host/udp/replay-udp.c:414-436), so the script skips that one and compares the others.
- ReplyBytes.ValidatorAcceptsIff: the reply of the hardware path, assuming the DMA stores a beat's low byte at the lowest address, as the input stream does; replies computed by the software fallback are not modelled.
- Header fields the fabric does not look at (magic, version, message type, lengths) are printed but never tested, as in the code; its stream keep/strb bits, done pulse and cycle counters are not modelled.
- HLS pipelining and the depth-8 delta FIFO: the FIFO is an unbounded sequence, so a fabric that stalls on a full FIFO is not captured.
- The floating-point part of the MLP (input scaling, ReLU scale, requantization, score): only decoding and the two integer loops are modelled, for arbitrary int8 activations.
- WeightLoad.WeightCache.Reload: bias counts above 32 would write outside the on-chip array and are excluded; the 32-bit byte index of the loader, which wraps near 2^32 bytes, is unbounded here.
- Quantize.EmulatedLayerError: scales and tensors are reals, so float32 and float64 rounding are not modelled; bit widths are at least 2 and an empty tensor counts as maximum 0. A clamped bias is excluded: its error can be made up for by the others, so the bound may hold or not.
- `quantize_mlp`'s floor on tiny scales, its export, the calibration data and all training.
- Python's `int()` extras in CPU lists (signs, blanks, underscores) and the number of CPUs, which is a parameter.
- Labels.BuildLabels: timestamps and the horizon are reals, and the threshold is an integer parameter.
- EchoThreads.RunsKeepInv: threads only; the feature arithmetic of the software fallback, DMA transfers, timestamps and the timing trailer are not modelled. Queue timeouts of the processor change nothing and have no step.
- Traffic generator, DPDK echo, PTP and system tuning scripts, reflex arbiter, score sink: plumbing, or settled by reading one branch.
