# IgniRelay lab: a verified model of the store-and-forward path

The lab simulates how an emergency message travels from a phone to a gateway. A phone signs an
envelope and hands it to a node over BLE. The node verifies it, makes room for it in a bounded
priority queue if it must, translates its payload to a compact form and queues it. It then puts
LORA-WIRE frames on a radio channel that loses, defers, corrupts, duplicates, delays and reorders
them, retrying within a budget. A second node runs the receive pipeline and passes what it accepts
to a gateway that keeps one row per event id.

The model has two layers. The wire layer holds the CRC, the frame codec and its verifier, the proto3
codec, the canonical signature input and the compact payloads. The path layer holds the node's
decisions, the channel, the gateway and the phone, joined into one state machine whose random choices
are labels, so that a statement about a run is a statement about every run. The wire results carry
the path results: a corrupted frame changes nothing at the receiver because of the CRC theorem, and a
sent event reaches the gateway with its own data because of the frame and payload round trips.

| file | content |
|---|---|
| `Bits.dfy` | bytes, little-endian integers, Python's `^` on unbounded integers |
| `Crc.dfy` | CRC-16/CCITT-FALSE and its error detection |
| `CrcCheck.dfy` | the CRC's published check value |
| `Keys.dfy` | the cryptographic primitives as abstract functions |
| `LoraV1.dfy` | frame encoders, the receive pipeline, corruption |
| `FrameLayout.dfy` | the frame at literal offsets and every verdict in terms of the bytes |
| `ProtoWire.dfy` | varints, zigzag, field runs, the writer and reader objects |
| `EnvelopeV3.dfy` | the messages, the envelope, the canonical signature input |
| `ProtoLayout.dfy`, `SigLayout.dfy` | varints, tags and field numbers in literal numbers; the 141 signed bytes at literal offsets |
| `Compact.dfy` | compact payloads and their translation |
| `Model.dfy`, `Heapq.dfy` | the order of queued events and the heap they are kept in |
| `Channel.dfy`, `ChannelLaws.dfy` | the radio channel; what it does in each settled case, and in what order |
| `Node.dfy`, `Actors.dfy` | what a node decides, and the node and gateway objects that do it |
| `Genuine.dfy` | what it takes for a node to believe an envelope |
| `Accounts.dfy` | an ingest, an attempt, a reception and the phone told by their inputs and effects, without the node's own decision functions |
| `Pipeline.dfy`, `Theorems.dfy` | the state machine, what every step keeps, what holds of every run |
| `Admission.dfy` | what the bounded queue keeps over a run of ingests |
| `Phone.dfy` | the phone, its agreement with the node, the end-to-end data result |
| `Liveness.dfy` | what is certain to be delivered |
| `Scenario.dfy` | the main loop driving the objects, and the relay storm |
| `Normal.dfy` | the `normal` scenario from the phone to the gateway |
| `Findings.dfy` | inputs on which the code falls short |

Conventions. Bytes are integers below 256 and Python's integer operators are written out. Event ids
are kept as their bytes where the lab uses the hex string of the same bytes. Labels are kept as the
numbers they name. SHA-256, the MACs and Ed25519 are arbitrary functions with their output lengths;
the only further fact used about them, and only where a lemma asks for it, is that a signature made
with a seed verifies under that seed's public key. The random generator may return anything in range.
An exception that reaches the caller is an explicit outcome. Numbers the decoders produce are
naturals, and so are the unsigned fields of the messages.

## What was found

- An event accepted with `max_hops` a multiple of 256 (and not zero) goes on air with time-to-live
  zero. The channel reports it as sent, so the node forgets it, and every receiver refuses it.
  `Findings.WrappedHopsAreLost` shows it of a signed envelope, 256 hops for one;
  `Theorems.DeliveredIff` and `Theorems.SentIsDeliveredIff` state when an event does arrive, exactly.
- A payload that does not translate raises after the eviction that made room for it
  (`ignirelay_lab/actors.py:333-350`): a queued event is dropped and nothing takes its place.
  `Admission.QueueKeepsMostSevere` says that the queue holds the most severe all the way through a run
  if and only if no such envelope arrives while the queue is full and holds something less severe;
  `Findings.EvictionForNothing` is such a run, with a signed envelope of type 50. This is up to UTF-8: in
  the code a checkpoint id or an anchor node id that is not UTF-8 also fails to translate, and so also
  costs a place, which the model does not see.
- Reading a varint bounds its length, not its value: a decoded number has more than 64 bits exactly when
  ten bytes were read and the tenth is 2 or more (`ProtoWire.VarintFits64Iff`), and 2^70 - 1 is read
  (`ProtoWire.WidestReads`). The error message speaks of 64 bits; the model follows the code.
- The node packs the canonical input before it checks the signature, and packing raises on a number wider
  than its slot (`ignirelay_lab/wire/envelope_v3.py:733-742`). `Admission.ScreenTripsIff`: verification
  ends in an exception if and only if the bytes decode to an envelope of version 3 and algorithm 1 whose
  event type, priority, hop count or an HLC counter has more than 32 bits, or a clock more than 64.
  `Findings.OverwideRaises` is such an envelope, unsigned, with an event type of 2^32;
  `Admission.WideClockTrips` is another, with a clock of 70 bits. `Admission.IngestRaisesIff` is the
  account of every exception an ingest can end in.
- An envelope whose protocol version or signature algorithm is zero can be written but not read
  (`EnvelopeV3.EnvelopeRoundTrip` gives the exact set that comes back).

## Model

| member | source | states |
|---|---|---|
| Bits.UnLe | ignirelay_lab/wire/lora_v1.py:59-75 | reading back little-endian bytes gives the number modulo 256^n |
| Bits.LeUn | ignirelay_lab/wire/lora_v1.py:59-75 | writing a number read from bytes gives those bytes back |
| Crc.Crc16Ccitt | ignirelay_lab/wire/lora_v1.py:46-55 | the nested loops compute the CRC the theorems speak of |
| Crc.ShiftLinear | ignirelay_lab/wire/lora_v1.py:50-54 | a register shift distributes over xor |
| Crc.ShiftInjective | ignirelay_lab/wire/lora_v1.py:50-54 | a register shift is injective: the odd polynomial leaves the branch in the low bit |
| CrcCheck.ShiftIsArithmetic | ignirelay_lab/wire/lora_v1.py:50-54 | a register shift in plain arithmetic: doubling, and toggling bits 12, 5 and 0 when the top bit leaves |
| CrcCheck.CheckValue | ignirelay_lab/wire/lora_v1.py:41-42 | the CRC of the digits 1 to 9 is 0x29B1, the published check value |
| Crc.FeedPairInjective | ignirelay_lab/wire/lora_v1.py:48-54 | two bytes fed into equal registers leave equal registers only if they are equal |
| Crc.BurstDetected | ignirelay_lab/wire/lora_v1.py:46-55 | for messages of any length, a change confined to two adjacent bytes changes the CRC |
| Crc.BitBurstDetected | ignirelay_lab/wire/lora_v1.py:46-55 | so does a burst of up to sixteen bits straddling three bytes, wherever in a byte it begins |
| LoraV1.ReadU48 | ignirelay_lab/wire/lora_v1.py:71-75 | the accumulating loop reads a 48-bit little-endian number |
| LoraV1.VerifyLoraFrame | ignirelay_lab/wire/lora_v1.py:171-266 | the pipeline in its order, every index in bounds for every byte string, and exactly what it adds to the caller's ring |
| LoraV1.InspectEncoded | ignirelay_lab/wire/lora_v1.py:121-153 | an encoded frame is accepted with its fields reduced to their on-air widths, unless its ttl wraps to zero, when it is ttl-expired |
| LoraV1.AcceptsExactlyEncodings | ignirelay_lab/wire/lora_v1.py:171-246 | a byte string passes steps 1 to 7 as a frame iff it is the encoding of that frame, with all fields in range and a non-zero ttl |
| LoraV1.AcceptedIsEncoded | ignirelay_lab/wire/lora_v1.py:156-168 | re-encoding the parse of an accepted frame gives its bytes |
| LoraV1.BurstRejected | ignirelay_lab/wire/lora_v1.py:214-225 | no change within two adjacent bytes of a frame is accepted, the MAC and the CRC itself included |
| LoraV1.BitBurstRejected | ignirelay_lab/wire/lora_v1.py:214-225 | no burst of up to sixteen bits anywhere in a frame is accepted |
| LoraV1.SignedDecides | ignirelay_lab/wire/lora_v1.py:214-225 | two accepted frames of one length that agree under the MAC are equal |
| LoraV1.ByteChangeRejected | ignirelay_lab/wire/lora_v1.py:176-229 | no change of a single byte anywhere in an accepted frame, CRC included, is accepted |
| LoraV1.FlipCaught | ignirelay_lab/channel.py:73-80 | every flip the channel can make is rejected, as payload-too-long at an EVENT's length byte and as crc-mismatch elsewhere, for every clock and ring, and adds nothing to the ring |
| FrameLayout.EventLayout | ignirelay_lab/wire/lora_v1.py:107-139 | an EVENT frame byte by byte: 0x11 first, every field at its offset and width, MAC over all before it, CRC over all before that, low byte first |
| FrameLayout.AckLayout | ignirelay_lab/wire/lora_v1.py:142-153 | an ACK frame byte by byte: 32 bytes, 0x12 first |
| FrameLayout.EncoderRaisesIff | ignirelay_lab/wire/lora_v1.py:107-147 | the encoders raise iff the field tag is not 4 bytes, an id not 16 (prefix not 8), or a payload over 64 |
| FrameLayout.VerdictTable | ignirelay_lab/wire/lora_v1.py:177-212 | for every byte string, iff conditions on its bytes for unknown-version, unknown-ptype, payload-too-long, truncated and length-mismatch |
| FrameLayout.RightSizeVerdict | ignirelay_lab/wire/lora_v1.py:214-229 | for a frame of the right size: crc-mismatch, mac-mismatch, ttl-expired and accepted, each iff its own check and all before it say so |
| FrameLayout.EventRead | ignirelay_lab/wire/lora_v1.py:189-265 | where each field of an accepted EVENT is read |
| FrameLayout.AckRead | ignirelay_lab/wire/lora_v1.py:189-239 | where each field of an accepted ACK is read |
| FrameLayout.ReplayVerdict | ignirelay_lab/wire/lora_v1.py:249-266 | replay-window iff an EVENT with bit 0 of its flags set lies more than 172800000 ms from the receiver's clock, then replay-duplicate iff its id is in the ring, and exactly the ids taken into the ring |
| FrameLayout.FlipMeans | ignirelay_lab/channel.py:79 | xor with 0xFF is the complement 255 - b |
| ProtoWire.ZigzagBijection | ignirelay_lab/wire/envelope_v3.py:63-68 | zigzag is a bijection between int64 and uint64, both ways |
| ProtoWire.ReadVarintBounds | ignirelay_lab/wire/envelope_v3.py:150-163 | a read that succeeds consumes at most ten bytes and yields less than 2^70 |
| ProtoWire.VarintFits64Iff | ignirelay_lab/wire/envelope_v3.py:150-163 | what is read fits 64 bits iff fewer than ten bytes were read or the tenth is below 2 |
| ProtoWire.WidestReads | ignirelay_lab/wire/envelope_v3.py:150-163 | nine bytes 255 and a byte 127 are read, as 2^70 - 1 |
| ProtoWire.ReadWritten | ignirelay_lab/wire/envelope_v3.py:78-83 | a written varint is read back and the reader stops right behind it, whatever follows |
| ProtoWire.ProtoWriter.PutVarint | ignirelay_lab/wire/envelope_v3.py:78-83 | the loop appends the varint of the value modulo 2^64 |
| ProtoWire.ProtoWriter.PutUint | ignirelay_lab/wire/envelope_v3.py:88-92 | appends the field, [8n, v] for a small one, or nothing for zero |
| ProtoWire.ProtoWriter.PutSint64 | ignirelay_lab/wire/envelope_v3.py:96-100 | appends the zigzag field, [8n, 2v] or [8n, -2v - 1] for a small one, or nothing for zero |
| ProtoWire.ProtoWriter.PutBytes | ignirelay_lab/wire/envelope_v3.py:114-119 | appends the field, [8n + 2, length] and the data for a short one, or nothing for empty bytes |
| ProtoWire.ProtoWriter.PutBytesAlways | ignirelay_lab/wire/envelope_v3.py:121-138 | appends tag, length and bytes even when empty, as for nested messages: [8n + 2, length] and the data for a short one |
| ProtoWire.ProtoReader.GetVarint | ignirelay_lab/wire/envelope_v3.py:150-163 | the loop reads the varint at any offset and stops behind it, or fails exactly when the specification does |
| ProtoWire.ProtoReader.GetLen | ignirelay_lab/wire/envelope_v3.py:176-182 | reads length-delimited bytes, or fails on overflow |
| ProtoWire.ProtoReader.SkipValue | ignirelay_lab/wire/envelope_v3.py:187-200 | skips a value by wire type; fixed-width ones may pass the end |
| ProtoWire.FieldsWritten | ignirelay_lab/wire/envelope_v3.py:187-240 | a written run of fields reads back as those fields, whatever follows |
| ProtoWire.UnknownFieldsIgnored | ignirelay_lab/wire/envelope_v3.py:187-200 | complete unknown fields between the fields of any message leave the decoded fields unchanged, well-formed rest or not |
| ProtoWire.AlienComplete | ignirelay_lab/wire/envelope_v3.py:187-200 | varint, length-delimited and fixed-width fields with unknown numbers are such complete fields |
| ProtoWire.WrittenComplete | ignirelay_lab/wire/envelope_v3.py:88-138 | and so is every run of written fields |
| ProtoWire.ItemsRead | ignirelay_lab/wire/envelope_v3.py:187-200 | of any mix of written known fields and unknown fields, a decoder sees exactly the known ones, in order |
| ProtoWire.ShortFieldBytes | ignirelay_lab/wire/envelope_v3.py:78-138 | in bytes: a small number v under n is [8n, v], short data is [8n + 2, length] and the data |
| ProtoLayout.VarintShape | ignirelay_lab/wire/envelope_v3.py:78-83 | a written varint group by group: seven bits each, lowest first, all but the last marked, no longer than needed |
| ProtoLayout.ReadMeans | ignirelay_lab/wire/envelope_v3.py:150-163 | what a varint reads, padded or not: the groups up to the first unmarked byte if it is among the first ten, and an error otherwise |
| ProtoLayout.UnendedFails | ignirelay_lab/wire/envelope_v3.py:150-163 | bytes without an unmarked one are not read |
| ProtoLayout.WireTypeIgnored | ignirelay_lab/wire/envelope_v3.py:165-240 | a known field number is read as what it is known for, whatever wire type its tag claims |
| ProtoLayout.SkipTable | ignirelay_lab/wire/envelope_v3.py:187-200 | how an unknown value is skipped for wire types 0, 1, 2 and 5, and that 3, 4, 6 and 7 fail |
| EnvelopeV3.HlcRoundTrip | ignirelay_lab/wire/envelope_v3.py:216-241 | decode of encode is the identity |
| EnvelopeV3.DecodeHlc | ignirelay_lab/wire/envelope_v3.py:227-241 | the decode loop terminates on every byte string with what the field run yields |
| EnvelopeV3.LocRoundTrip | ignirelay_lab/wire/envelope_v3.py:249-311 | all nine fields survive; absent and zero bearing stay distinct |
| EnvelopeV3.LocEmpty | ignirelay_lab/wire/envelope_v3.py:261-274 | a location encodes to nothing iff it is at its defaults |
| EnvelopeV3.EncodeLocation | ignirelay_lab/wire/envelope_v3.py:261-274 | the writer calls produce the specified bytes |
| EnvelopeV3.DecodeLocation | ignirelay_lab/wire/envelope_v3.py:276-311 | the decode loop computes the specified result |
| EnvelopeV3.NeedRoundTrip | ignirelay_lab/wire/envelope_v3.py:314-343 | decode of encode is the identity |
| EnvelopeV3.StatusRoundTrip | ignirelay_lab/wire/envelope_v3.py:346-378 | a status survives with any number of needs, in order; absent and default location stay distinct |
| EnvelopeV3.EncodeStatus | ignirelay_lab/wire/envelope_v3.py:352-359 | the loop over the needs produces the specified bytes |
| EnvelopeV3.DecodeStatus | ignirelay_lab/wire/envelope_v3.py:361-378 | the decode loop computes the specified result |
| EnvelopeV3.PresenceRoundTrip | ignirelay_lab/wire/envelope_v3.py:381-413 | decode of encode is the identity although a default location is not written |
| EnvelopeV3.DecodePresence | ignirelay_lab/wire/envelope_v3.py:396-413 | the decode loop computes the specified result |
| EnvelopeV3.CheckpointRoundTrip | ignirelay_lab/wire/envelope_v3.py:416-448 | decode of encode is the identity although a default location is not written |
| EnvelopeV3.DecodeCheckpoint | ignirelay_lab/wire/envelope_v3.py:431-448 | the decode loop computes the specified result |
| EnvelopeV3.EnvelopeRoundTrip | ignirelay_lab/wire/envelope_v3.py:592-696 | for 64-bit envelopes, decode of encode is the envelope if it meets the field rules and an error if it breaks any |
| EnvelopeV3.EnvelopeShape | ignirelay_lab/wire/envelope_v3.py:665-689 | whatever decodes meets the field rules, an explicit zero signature algorithm apart |
| EnvelopeV3.EnvelopeForwardCompatible | ignirelay_lab/wire/envelope_v3.py:592-664 | an encoded envelope with any number of fields above 15 put anywhere before, between and behind its own reads as without them |
| EnvelopeV3.UnknownInEnvelope | ignirelay_lab/wire/envelope_v3.py:611-664 | behind complete fields an unknown field changes nothing even if what follows is malformed |
| EnvelopeV3.WideEnvelopeDecodes | ignirelay_lab/wire/envelope_v3.py:611-664 | an envelope followed by a second creation time of 70 bits decodes, with that time |
| EnvelopeV3.PackingRaisesIff | ignirelay_lab/wire/envelope_v3.py:708-748 | packing a decoded envelope raises iff one of its numbers is too wide for its slot |
| EnvelopeV3.EncodeEnvelope | ignirelay_lab/wire/envelope_v3.py:592-609 | the writer calls produce the specified bytes |
| EnvelopeV3.DecodeEnvelope | ignirelay_lab/wire/envelope_v3.py:611-696 | the decode loop and the required-field checks compute the specified result on every byte string |
| ProtoLayout.HlcNumbers | ignirelay_lab/wire/envelope_v3.py:227-241 | which field number of a timestamp carries what |
| ProtoLayout.LocNumbers | ignirelay_lab/wire/envelope_v3.py:276-311 | which field number of a location carries what, the bearing one more than it is and 0 when absent |
| ProtoLayout.NeedNumbers | ignirelay_lab/wire/envelope_v3.py:326-343 | which field number of a need carries what |
| ProtoLayout.StatusNumbers | ignirelay_lab/wire/envelope_v3.py:361-378 | which field number of a status carries what, the needs in order of arrival |
| ProtoLayout.PresenceNumbers | ignirelay_lab/wire/envelope_v3.py:396-413 | which field number of a presence carries what |
| ProtoLayout.CheckpointNumbers | ignirelay_lab/wire/envelope_v3.py:431-448 | which field number of a checkpoint carries what |
| ProtoLayout.EnvelopeNumbers | ignirelay_lab/wire/envelope_v3.py:611-696 | exactly which byte strings decode to an envelope, and which of the field numbers 1 to 15 carries which value |
| ProtoLayout.EnvelopeWritten | ignirelay_lab/wire/envelope_v3.py:592-609 | the writer puts each value under its number, in ascending order, each once, nothing for zero or empty ones except 5, 6 and 11 |
| ProtoLayout.LocInOrder | ignirelay_lab/wire/envelope_v3.py:261-274 | a location is written in ascending field numbers, each once, nothing for zero or empty values |
| EnvelopeV3.CanonicalSigInput | ignirelay_lab/wire/envelope_v3.py:708-748 | the appends produce the specified bytes, or it raises exactly when a value does not fit |
| EnvelopeV3.CanonicalInjective | ignirelay_lab/wire/envelope_v3.py:708-748 | the canonical input is 141 bytes and equal inputs mean equal claims in all thirteen values |
| SigLayout.CanonicalLayout | ignirelay_lab/wire/envelope_v3.py:731-748 | the 141 bytes offset by offset: version, ids, type, priority, creation before expiry, hops, key, algorithm, hash |
| SigLayout.CanonicalCovers | ignirelay_lab/actors.py:371-386 | for every envelope, packing yields s iff s has the envelope's own values at these offsets and the SHA-256 of its own payload |
| Compact.I32RoundTrip | ignirelay_lab/wire/compact.py:53-64 | two's complement round trip of every 32-bit integer |
| Compact.Loc13RoundTrip | ignirelay_lab/wire/compact.py:84-102 | coordinates exact, accuracy and age saturated to 0..65535 |
| Compact.SosSurvives | ignirelay_lab/wire/compact.py:163-198 | what the receiver of a translated status reads: safety and location, age floor-divided and saturated |
| Compact.PresenceSurvives | ignirelay_lab/wire/compact.py:176-182 | what the receiver of a translated presence reads |
| Compact.CheckpointSurvives | ignirelay_lab/wire/compact.py:201-207 | what the receiver of a translated checkpoint reads |
| Compact.AgeIsShown | ignirelay_lab/wire/compact.py:78-80 | the age: 0 for an observation to come, else the whole seconds passed, 65535 at most |
| Compact.AnonIsShown | ignirelay_lab/wire/compact.py:73-75 | the anonymous id: the first eight bytes, or all and zeros behind |
| Compact.SosLayout | ignirelay_lab/wire/compact.py:84-198 | the 22 bytes of a status, offset by offset |
| Compact.PresenceLayout | ignirelay_lab/wire/compact.py:176-182 | the 10 bytes of a presence, offset by offset |
| Compact.CheckpointLayout | ignirelay_lab/wire/compact.py:201-207 | the 10 bytes of a checkpoint, offset by offset |
| Compact.RawIff | ignirelay_lab/actors.py:555-565 | a payload stays raw iff its length is not that of its type, or the type is unknown |
| Model.LessTotal | ignirelay_lab/model.py:35-55 | the dataclass comparison is a strict total order |
| Model.LeqTransitive | ignirelay_lab/model.py:35-55 | and transitive |
| Model.LeqSeverity | ignirelay_lab/model.py:39-41 | smaller means more severe, or older among equals |
| Model.LessIsBefore | ignirelay_lab/model.py:35-55 | the order spelled out: priority, time, counter, id, type, hops, author, payload, the first difference deciding |
| Heapq.HeapPush | ignirelay_lab/actors.py:352-362 | keeps the heap and adds exactly the event |
| Heapq.HeapPop | ignirelay_lab/actors.py:448 | takes exactly the first event and keeps the heap |
| Heapq.Heapify | ignirelay_lab/actors.py:341-342 | makes a heap of any list, keeping its events |
| Heapq.HeapMin | ignirelay_lab/actors.py:441-443 | the first event of a heap is no larger than any other |
| Heapq.WorstIndex | ignirelay_lab/actors.py:337-338 | the first event with the largest priority number |
| Channel.FakeLoRaChannel.Hit | ignirelay_lab/channel.py:70-71 | 0 percent never hits and 100 percent always does |
| Channel.FakeLoRaChannel.CorruptFrame | ignirelay_lab/channel.py:73-80 | one flipped byte between header and CRC, or byte 0 of a short frame |
| Channel.FakeLoRaChannel.Transmit | ignirelay_lab/channel.py:82-112 | outcome and added deliveries agree: SENT adds the intact frame once or twice, a corrupted frame is LOST, BUSY and plain loss add nothing |
| Channel.FakeLoRaChannel.Reorder | ignirelay_lab/channel.py:114-118 | what is pending is stably sorted by due time or, if reordering may happen, permuted |
| Channel.FakeLoRaChannel.DrainReady | ignirelay_lab/channel.py:120-123 | hands over what is due in order and keeps the rest in order |
| Channel.DrainSplits | ignirelay_lab/channel.py:120-123 | each pending delivery is handed over or kept, none lost or invented |
| ChannelLaws.ExpiredIsLost | ignirelay_lab/channel.py:83-85 | a frame with no hops left is lost and puts nothing on air |
| ChannelLaws.Busyness | ignirelay_lab/channel.py:86-88 | 100 percent busy always defers, 0 percent never; a deferred frame puts nothing on air |
| ChannelLaws.AlwaysLost | ignirelay_lab/channel.py:89-91 | an idle channel that loses 100 percent loses and puts nothing on air |
| ChannelLaws.AlwaysCorrupted | ignirelay_lab/channel.py:93-103 | one that corrupts 100 percent answers lost and puts on air one copy with one byte complemented, between header and CRC, within the delays |
| ChannelLaws.ClearIsSent | ignirelay_lab/channel.py:105-112 | one that does none of these sends the frame as it is, once, or twice a millisecond apart |
| ChannelLaws.AnythingCanBe | ignirelay_lab/channel.py:82-112 | and whatever a profile leaves open can happen: each outcome, any delay, any place of corruption |
| ChannelLaws.SortedIsStable | ignirelay_lab/channel.py:114-118 | without reordering what is pending is sorted by due time, those due together in the order in which they were sent |
| ChannelLaws.DrainInOrder | ignirelay_lab/channel.py:120-123 | each pending delivery is handed over iff due, and kept otherwise, at its place in the order |
| Actors.SimNode.BleIngest | ignirelay_lab/actors.py:307-365 | receipt or exception and the whole new state follow the decision, up to the layout of the heap |
| Actors.SimNode.TranslateAndRemember | ignirelay_lab/actors.py:388-404 | the compact payload and the remembered anonymous id, or an exception |
| Actors.SimNode.Backoff | ignirelay_lab/actors.py:411-413 | between 100 and 180 ms from now |
| Actors.SimNode.TransmitNext | ignirelay_lab/actors.py:437-478 | the attempt's outcome, the whole new state and the channel's step |
| Actors.SimNode.ReceiveLora | ignirelay_lab/actors.py:481-521 | what is handed on and what the ring becomes |
| Actors.SimNode.Reboot | ignirelay_lab/actors.py:523-528 | what a reboot clears and what it keeps |
| Actors.FakeGatewaySink.Receive | ignirelay_lab/actors.py:579-590 | the first row of an id stays, every inbound is routed |
| Genuine.VerifiedIff | ignirelay_lab/actors.py:307-327 | the checks pass iff the bytes decode to a version 3, algorithm 1, unexpired envelope whose signature verifies under its author key and whose MAC is the field's, both over the 141 bytes that cover it |
| Genuine.AttestedIff | ignirelay_lab/actors.py:319-325 | such bytes exist iff the packed input exists and signature and MAC are right for it |
| Accounts.IngestAnswer | ignirelay_lab/actors.py:307-365 | accepted iff genuine, unseen, of priority 1 to 6, translatable and with a place; duplicate iff genuine and seen; rejected iff not genuine and not too wide to pack, or genuine without room; and whom the receipt names, with what depth |
| Accounts.IngestLeaves | ignirelay_lab/actors.py:307-365 | short of acceptance the node is unchanged, except that an untranslatable payload may cost a full queue the first of its least severe events |
| Accounts.IngestTakes | ignirelay_lab/actors.py:333-365 | what acceptance stores, value by value, the compact payload byte by byte, and what it evicts: nothing while there is room, else the first of the least severe, less severe than the newcomer |
| Accounts.AcceptedComesFrom | ignirelay_lab/actors.py:307-365 | in any run every accepted event was taken in from a genuine envelope, with that envelope's values |
| Accounts.RowComesFrom | ignirelay_lab/actors.py:579-590 | and so was every row at the gateway |
| Accounts.AttemptIs | ignirelay_lab/actors.py:437-460 | nothing iff the queue is empty, backing off iff the head is not due, given up iff it was lost 6 (priority 1) or 3 times, else its frame goes to the channel |
| Accounts.FrameIsFor | ignirelay_lab/actors.py:415-435 | that frame, byte by byte, from the event, the node and the packet number |
| Accounts.AttemptLeaves | ignirelay_lab/actors.py:448-478 | what an attempt takes off the queue and puts among the dropped, and the packet number |
| Accounts.AttemptCounts | ignirelay_lab/actors.py:464-478 | a failed attempt waits 100 to 180 ms, only a lost one counts, no other event's account changes |
| Accounts.AnyBackoffCanBe | ignirelay_lab/actors.py:411-413 | any wait in that range can follow |
| Accounts.ReceptionIs | ignirelay_lab/actors.py:481-521 | ignored iff for another, dropped with the verdict's reason, an exception iff accepted and an ACK or of priority outside 1 to 6, else handed on with its values read from the bytes and one hop less |
| Accounts.RingIs | ignirelay_lab/actors.py:481-501 | what enters the ring: the id of an addressed, accepted EVENT, even one reception raises on |
| Pipeline.StoredIsGood | ignirelay_lab/actors.py:307-365 | whatever is stored has an unseen 16-byte id, a known type and priority, ttl at least 1 and a payload of 10 or 22 bytes; at most one event is evicted, and none while there is room |
| Pipeline.CorruptedRejected | ignirelay_lab/channel.py:73-80 | a corrupted frame of an accepted event is dropped as payload-too-long or crc-mismatch, whatever the clock and ring |
| Pipeline.CorruptedIgnored | ignirelay_lab/actors.py:481-501 | a corrupted frame leaves ring, gateway and refusals unchanged |
| Pipeline.IntactVerdict | ignirelay_lab/wire/lora_v1.py:227-266 | the verdict on a node's intact frame in every case: ttl wrapped, outside the window, already seen, accepted with its fields |
| Pipeline.IntactReceived | ignirelay_lab/actors.py:481-521 | the effect of an intact frame: refused iff undeliverable, ignored iff known, otherwise one new ring entry and one new row with the event's data |
| Pipeline.AllSettles | ignirelay_lab/scenario.py:112-115 | after a batch every intact frame's id is in the ring or refused, rows only grow, and only undeliverable ids are refused |
| Pipeline.StepInv | ignirelay_lab/actors.py:306-532 | the invariant of the path is kept by every ingest, attempt, drain and reboot |
| Pipeline.RunInv | ignirelay_lab/scenario.py:103-117 | the invariant holds after any run |
| Theorems.NoSilentLoss | ignirelay_lab/actors.py:307-532 | after any run an accepted event is in exactly one of queue, sent, dropped, wiped; a sent one is on air intact, known to the receiver or refused by it; an unsent one is unknown to receiver and gateway |
| Theorems.DeliveredIff | ignirelay_lab/actors.py:481-521 | in any run, an accepted event is at receiver and gateway iff an intact frame of it was drained when its ttl had not wrapped and its time was in the window, and is among the refused iff one was drained otherwise |
| Theorems.RefusedWhenUndeliverable | ignirelay_lab/wire/lora_v1.py:227-252 | a refused id is that of a sent event of which an intact frame was drained when its ttl had wrapped or its time was outside the window |
| Theorems.SentIsDeliveredIff | ignirelay_lab/actors.py:359 | a sent event no longer on air has been drained; it is at receiver and gateway iff that happened while deliverable, and, if it was never drained outside its own window, iff its ttl is not a multiple of 256 |
| Theorems.AtMostOnce | ignirelay_lab/actors.py:579-590 | gateway keys equal the receiver's ring, every row is a sent and accepted event's, sent once, and never changes |
| Theorems.StrictPriority | ignirelay_lab/actors.py:437-448 | whatever goes on air in a run is the least of the whole queue, events backing off included |
| Theorems.BoundedLosses | ignirelay_lab/actors.py:407-409 | in any run an event is lost at most 6 (SOS_RED) or 3 times and sent at most once |
| Theorems.ReachableNode | ignirelay_lab/actors.py:328-365 | in any reachable state the queue is a heap within its bound, of distinct seen ids, and frames can be built without raising |
| Theorems.ReplayAfterReboot | ignirelay_lab/scenario.py:141-151 | a replayed frame is dropped by a receiver that kept its ring and taken by one that lost it, the gateway's row staying as it was |
| Theorems.SpacedAttempts | ignirelay_lab/actors.py:444-446 | two transmissions of one event are at least 100 ms apart, whatever the clock does in between |
| Theorems.MeasureFalls | ignirelay_lab/actors.py:447-478 | the retries left over the whole queue, at least one per event, fall with every sent, lost or exhausted attempt and do not move when busy or backing off |
| Theorems.DecisiveBounded | ignirelay_lab/actors.py:447-478 | whatever the channel does, a stretch without ingest, restarts included, has no more sent, lost or exhausted attempts than retries were left, and after that many the queue is empty |
| Theorems.GivenUpAfterBudget | ignirelay_lab/actors.py:449-455 | an event is given up only after exactly six (SOS_RED) or three lost attempts |
| Theorems.SentWithinBudget | ignirelay_lab/actors.py:449-478 | in any run a sent event was lost fewer times than its budget and is not lost again |
| Liveness.AtRest | ignirelay_lab/scenario.py:103-117 | once queue and air are empty, an accepted event is at the gateway with its own data, was refused, dropped or wiped |
| Liveness.ClearTransmit | ignirelay_lab/actors.py:437-476 | over air without loss, busy or corruption every attempt sends one event, with no retry and in bounded time |
| Liveness.ClearEnd | ignirelay_lab/scenario.py:109-117 | after the last arrival over such air the gateway has an accepted event iff it was not dropped |
| Admission.QueueKeepsMostSevere | ignirelay_lab/actors.py:328-365 | an ingest-only run keeps exactly the most severe of what was offered, each id counted with the envelope stored for it or else the last one refused, as many as fit, at every point iff no offer costs a place: verified, new, more severe than something in a full queue, and not translatable |
| Admission.LedgerIsOffers | ignirelay_lab/actors.py:317-365 | that account has every wanted offer's id once and nothing else |
| Admission.TopKUnique | ignirelay_lab/actors.py:333-348 | that description fits only one multiset of priorities |
| Admission.BreaksAt | ignirelay_lab/actors.py:340-350 | right after the first offer that costs a place the queue is one short |
| Admission.ScreenTripsIff | ignirelay_lab/actors.py:307-327 | verification raises iff the bytes decode to an envelope of version 3 and algorithm 1 with a number too wide for its slot, whatever the signature |
| Admission.IngestRaisesIff | ignirelay_lab/actors.py:307-365 | an ingest ends in an exception iff that is so, or the envelope is verified and new and has no wire priority, or meets a node that can hold nothing, or is due a place and not translatable |
| Admission.WrittenTripsIff | ignirelay_lab/wire/envelope_v3.py:592-609 | of the envelopes the encoder can write, verification raises on exactly those of version 3 and algorithm 1 with an event type, priority, hop count or HLC counter of more than 32 bits |
| Admission.WideClockTrips | ignirelay_lab/actors.py:307-327 | such bytes exist for every version 3 envelope, signed or not |
| Findings.OverwideRaises | ignirelay_lab/wire/envelope_v3.py:736 | an unsigned envelope with an event type of 2^32 makes every ingest raise, in any field and state |
| Findings.SpoiltCostsAPlace | ignirelay_lab/actors.py:333-350 | a signed envelope of type 50 and priority SOS_RED costs any full queue with something less severe in it an event |
| Findings.EvictionForNothing | ignirelay_lab/actors.py:333-350 | a run of two ingests that ends with an empty queue although a presence was offered and accepted |
| Findings.WrappedHopsAreLost | ignirelay_lab/actors.py:359 | a signed envelope with max_hops a multiple of 256 is stored, its frame is sent, and every receiver answers ttl-expired |
| Admission.SosRedOnlyGivenUp | ignirelay_lab/actors.py:333-348 | in any run a dropped SOS_RED event has been lost six times on air, so none is ever evicted |
| Admission.SosRedTurnedAway | ignirelay_lab/actors.py:333-348 | in any run a verified new SOS_RED envelope is refused only by a full queue of nothing but SOS_RED |
| Phone.FakePhone.Build | ignirelay_lab/actors.py:106-155 | the bytes of the signed envelope, or an exception |
| Phone.FakePhone.Presence | ignirelay_lab/actors.py:168-176 | the presence envelope with all its values, valid for 86400000 ms |
| Phone.FakePhone.Sos | ignirelay_lab/actors.py:178-185 | the SOS envelope with all its values, valid for 86400000 ms |
| Phone.FakePhone.Checkpoint | ignirelay_lab/actors.py:187-195 | the checkpoint envelope with all its values, valid for 86400000 ms |
| Phone.FakePhone.ExpiredSos | ignirelay_lab/actors.py:197-207 | the envelope that has expired by now |
| Accounts.BuiltIs | ignirelay_lab/actors.py:106-155 | the phone's envelope value by value, with signature and MAC over the 141 bytes that cover it; None iff a time is before the epoch or a number too wide |
| Phone.SignedAgrees | ignirelay_lab/actors.py:307-327 | whatever its other fields, an envelope signed with the key is decoded as it is and verified, refused iff expired |
| Phone.NodeAgrees | ignirelay_lab/actors.py:106-155 | the node decodes the phone's very envelope and verifies it, refusing it iff it has expired |
| Phone.NodeStores | ignirelay_lab/actors.py:307-365 | unexpired, unseen, translatable and with room, it is stored and nothing is evicted |
| Phone.BuildersTranslate | ignirelay_lab/actors.py:168-195 | what the phone's builders produce always translates |
| Phone.RowIsTheEnvelopes | ignirelay_lab/actors.py:503-521 | a gateway row of an accepted envelope carries its id, type, priority, sending node and decoded compact payload |
| Phone.AnonRemembered | ignirelay_lab/actors.py:388-404 | in any run the node remembers of an author the first eight bytes of the anonymous id in its last accepted presence or checkpoint, zero-padded, zeros if there was none, reboots included |
| Phone.SosEndToEnd | ignirelay_lab/actors.py:388-435 | the gateway row of any accepted status, with or without a location, of any priority and signer, is wholly determined in any run: safety state, exact coordinates, accuracy up to 65535, age in whole seconds from 0 to 65535, and the first eight bytes of the author's last accepted anonymous id, zero-padded |
| Phone.PresenceEndToEnd | ignirelay_lab/actors.py:388-435 | the gateway row of any accepted presence shows the first eight bytes of its anonymous id, zero-padded, its battery and source |
| Phone.CheckpointEndToEnd | ignirelay_lab/actors.py:388-435 | the gateway row of any accepted checkpoint shows the first eight bytes of its anonymous id, zero-padded, and the node |
| Phone.SosFromPhone | ignirelay_lab/actors.py:178-185 | for an SOS the phone built, these are the values it put into the status |
| Phone.PresenceFromPhone | ignirelay_lab/actors.py:168-176 | for a presence the phone built, these are the values it put in |
| Phone.CheckpointFromPhone | ignirelay_lab/actors.py:187-195 | for a checkpoint the phone built, these are the values it put in |
| Scenario.NeverRaises | ignirelay_lab/actors.py:497-501 | reception never raises while only frames of accepted events are on air |
| Scenario.AllDelivered | ignirelay_lab/scenario.py:116-117 | the gateway's ids are among the accepted ones, and as many means the same |
| Scenario.Lab.Send | ignirelay_lab/scenario.py:103-107 | one ingest by the objects is a step of the machine, and ACCEPTED means the event is recorded |
| Scenario.Lab.TransmitOnce | ignirelay_lab/scenario.py:111 | one attempt by the objects is a step of the machine |
| Scenario.Lab.DrainOnce | ignirelay_lab/scenario.py:112-115 | draining, receiving and storing by the objects is a step of the machine |
| Scenario.Lab.RestartSender | ignirelay_lab/actors.py:523-528 | a restart of the sender that keeps what it has seen is a step of the machine |
| Scenario.Lab.RestartReceiver | ignirelay_lab/scenario.py:147-148 | a restart of the receiver that keeps its ring is a step of the machine |
| Scenario.IngestAll | ignirelay_lab/scenario.py:103-107 | the envelopes are ingested one after the other at 1 ms, up to the first that raises, and the accepted are counted |
| Scenario.StepOnSchedule | ignirelay_lab/scenario.py:109-115 | undisturbed (no loss, busy or corruption, time for every arrival, every event deliverable from the first step to the last), one step of the loop sends one event and refuses nothing |
| Scenario.Deliver | ignirelay_lab/scenario.py:109-117 | the loop makes exactly these steps: an attempt and a drain at 0, 100, 200, ... ms, at most 160 times, stopping right after the first drain that leaves as many rows as were accepted; undisturbed in the same sense it drops nothing more and stops early if nothing was dropped before |
| Scenario.RunMain | ignirelay_lab/scenario.py:103-117 | the whole run is the envelopes ingested in order at 1 ms, up to one that raises, and then that loop; stopping early means delivered equals accepted and nothing dropped; undisturbed it stops early exactly when nothing was dropped |
| Normal.RunNormal | ignirelay_lab/scenario.py:96-117 | a presence and an SOS from the phone over clear air: the loop stops early and the gateway holds exactly two rows, showing what the phone reported, coordinates and ages included |
| Scenario.StormStoresOnce | ignirelay_lab/scenario.py:171-202 | however many relays encode and send the same new event, each copy arriving at its own time, the gateway gains the row of the first copy it can take, or none |

## Left out

- Cryptography (`ignirelay_lab/wire/keys.py`): SHA-256, HMAC, HKDF and Ed25519 are abstract functions.
- UTF-8: strings are their bytes, so the exception on invalid UTF-8 in a string field is not modelled.
- Hex ids: `event_id_hex` is identified with the id bytes it renders.
- Structured logs and their sinks are erased.
- `allow_oversize_payload`: the encoder switch that only test vectors use.
- Heapq.HeapPush: the library's heap algorithm is written out, and callers rely on the heap property and the contents, not on the layout.
- Channel.FakeLoRaChannel.Transmit: draws are oracles, so probabilities and the seed are not modelled.
- Hazard markers, admin broadcasts and the receipt message: codecs of the same shape as the modelled ones.
- `FakeGatewaySink.routes` is kept by the object; no run property is stated about it.
- The real-stack scenarios, the gateway command line, corpus fixtures and the vector generator.
- A reboot that forgets what was seen is a method of the node and the subject of `Theorems.ReplayAfterReboot`, but not a step of the run machine.
- Normal.RunNormal: that SHA-256 gives the phone's two envelopes different ids is assumed, not proved.
- Channel profile fields that the simulated channel never reads (partitions, asymmetric links, collisions).
