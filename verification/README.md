# rustrtc in Dafny

A model of the parts of rustrtc (a Rust WebRTC stack) whose correctness is hard to see from the code: SRTP packet indices and
layouts over a hostile network, a lock-free ring and the multi-producer queue on top of it, two embedded channels, the RTP,
RTCP, NACK, TWCC and SDP codecs, H.264 and VP9 packetisation, the jitter buffer, the reception statistics and the T.4 fax
encoder. `dafny verify dfyconfig.toml` checks all of it.

## How the model is laid out

| files | system |
|---|---|
| `SpscRing`, `SampleTrack` | `SpscRing` split into single atomic accesses; the drop-oldest sample queue of many sources and receivers on top of it |
| `Broadcast`, `Watch`, `Wakers` | the embedded broadcast and watch channels |
| `SrtpIndex`, `SrtpIv`, `Srtp`, `SrtpContext`, `SrtpRun`, `SrtpIdeal`, `Srtcp` | SRTP: 48-bit index, vectors and nonces, packet layout, the mutable context, runs over a network, tags that meet their premise, SRTCP |
| `Rtp`, `RtpExtension` | RTP header, packet and header extensions |
| `Rtcp`, `RtcpCompound`, `RtcpRange`, `RtcpCode`, `Nack`, `Twcc` | RTCP bodies, compound packets, which packets survive the wire, the loops that build and parse them, NACK packing, transport-wide feedback |
| `H264`, `Vp9` | packetisation and reassembly |
| `JitterBuffer`, `ReceptionStats` | sequence-number state machines |
| `MhTables`, `MhBits`, `MhEncoder` | the T.4 MH encoder and a decoder written from clause 4.1 of ITU-T T.4 |
| `SdpText`, `Sdp`, `SdpClosure` | SDP text |
| `Bytes`, `Modular`, `Wrappers` | shared definitions |

Loops of the source are methods with invariants, proved equal to functions; objects whose methods change fields are classes
whose methods are tied to a function on an abstract state; protocols are state machines over their atomic steps, and runs
are arbitrary lists of steps. The theorems are about those functions and state machines.

## What the source gets and what it does not

Some promises fail on some inputs. Each of these has a theorem with the exact condition:

- `SpscRing` is safe in all interleavings exactly when its capacity divides 2^64, because `tail % capacity` is taken of a
  wrapping counter (`SpscRing.SafeIffCapacityDividesModulus`). Its `len` says zero with values queued once the tail has wrapped
  past the head (`SpscRing.LenExactIff`).
- `SampleStreamTrack::recv` can end the stream with samples still queued (`SampleTrack.EndCanStrandASample`,
  `SampleTrack.EndStrandsExactly`).
- TWCC deltas outside the 16-bit range wrap, because the clamped value is not the one written (`Twcc.DeltasExactIff`).
- VP9 loss inside a frame goes unnoticed (`Vp9.IntactIffAllArrive`, `Vp9.MiddleLossGoesUnnoticed`), though frames are never mixed (`Vp9.NeverMixed`).
- `marshal` accepts RTCP packets with more than 31 blocks, long item texts and bodies that overflow the length field, which do
  not come back (`RtcpRange.RoundTripIff`, `RtcpRange.BlocksAreLost`).
- The H.264 payloader loses units of types 24 and 28, units cut into a single fragment, and a set forbidden bit
  (`H264.DeliveredIffFits`, `H264.FragmentTypeIsLost`).
- The jitter buffer can start out of order when two or more of the early packets come before a wrap of the sequence number
  (`JitterBuffer.FirstIsOldestIff`, `JitterBuffer.StartCanMisorder`), and across a wrap a full buffer gives up a newer packet
  than its oldest (`JitterBuffer.EvictsOldestIff`, `JitterBuffer.EvictionTakesNewer`).
- The fraction lost is wrong from 2^24 lost packets on (`ReceptionStats.FractionExactIff`, `ReceptionStats.JumpsFraction`).
- `validate` lets through payload types above 127 and extension blocks of 2^18 bytes and more, which do not survive the wire
  (`Rtp.PacketRoundTrip`, `Srtp.LayoutRoundTrip`, `Rtp.WideTypeIsLost`, `Srtp.WideTypeIsLost`).
- SRTCP indices from 2^31 on are not recovered (`Srtcp.IndexRecoveredIff`, `Srtcp.TopBitIsLost`).
- `set_extension` panics on a block that ends inside another element, and loses the block (`RtpExtension.BrokenBlockPanics`,
  `RtpExtension.ExtensionField.Set`).
- An SDP line with a colon in an unknown prefix changes its key when printed (`SdpClosure.AcceptedTextSurvivesIff`).
- Neighbouring black pixels of different non-zero values break the colour alternation of MH (`MhEncoder.ColoursAlternateIff`,
  `MhEncoder.TwoBlackCodes`).

Where comments and code disagree the model follows the code: a cloned watch receiver keeps its own cursor instead of starting
at the current version (src/platform/sync_embedded.rs:497-507).

## Premises

- AES keystream, HMAC digest and GCM tag are unknown functions of their inputs. Runs over a network assume ideal tags: no
  datagram carries a valid tag for an input the sender did not authenticate (`SrtpRun.Unforged`); `SrtpIdeal.IdealRun`
  shows that such tags exist for every sender and every profile.
- Atomic accesses interleave sequentially consistently. One call at a time is in progress per source handle.
- Time is a parameter. Counters that would take 2^64 operations to overflow (broadcast and watch versions, received
  packets) are unbounded.
- Text fields of RTCP are byte strings.

## Model

| member | source | states |
|---|---|---|
| `SpscRing.ProducerKeepsInv` | src/media/spsc.rs:88-102 | Each access of `push` keeps the ring invariant; the slot it is about to write holds nothing unread; it reports full exactly when the queue holds `capacity` values at its head load |
| `SpscRing.ConsumerKeepsInv` | src/media/spsc.rs:105-117 | Each access of `pop` keeps the ring invariant; the slot it is about to read is initialised; it reports empty exactly when nothing is queued at its tail load |
| `SpscRing.StepKeepsInv` | src/media/spsc.rs:88-117 | Any single access by either side keeps the invariant and corrupts no slot |
| `SpscRing.Occupancy` | src/media/spsc.rs:83-117 | The wrapping difference that `push` takes of the two counters is the number of queued values, and the counters are equal exactly when there are none, as `pop` and `is_empty` assume |
| `SpscRing.LenExactIff` | src/media/spsc.rs:74-85 | After every interleaving `is_empty` is right; `len` is the number of queued values if and only if there are none or the head counter plus their number stays below the counter modulus, and else it is zero |
| `SpscRing.LenMissesAValue` | src/media/spsc.rs:74-80 | For every capacity a run after which a value is queued, the tail has wrapped, and `len` is zero |
| `SpscRing.EventAllowed` | src/media/spsc.rs:88-117 | What a step reports is something a bounded FIFO could do at that point, and leaves the FIFO holding exactly the values not yet popped |
| `SpscRing.RunKeepsInv` | src/media/spsc.rs:88-117 | For every interleaving: the observed pushes and pops are those of a bounded FIFO whose contents are the values not yet popped |
| `SpscRing.RefinesFifo` | src/media/spsc.rs:88-117 | In every interleaving of one producer and one consumer no unread slot is overwritten, no unwritten slot is read, and the observations are a FIFO run |
| `SpscRing.DropQueued` | src/media/spsc.rs:121-132 | The drop loop visits exactly the queued values, oldest first, each once |
| `SpscRing.Drop` | src/media/spsc.rs:121-132 | Dropping the ring after any run with no pop in flight drops exactly what the FIFO still holds |
| `SpscRing.OverwritesAfterWrap` | src/media/spsc.rs:95-101 | When the capacity does not divide the counter modulus there is a run that overwrites an unread value |
| `SpscRing.SafeIffCapacityDividesModulus` | src/media/spsc.rs:88-117 | All interleavings are safe if and only if the capacity divides the counter modulus |
| `SampleTrack.PushBlockSound` | src/media/track.rs:183-190 | One access of `queue.push` under the push lock keeps the whole track invariant |
| `SampleTrack.EvictBlockSound` | src/media/track.rs:193-199 | One access of the evicting `queue.pop` under the pop lock keeps it; what it takes out is the oldest queued sample |
| `SampleTrack.RetryBlockSound` | src/media/track.rs:200-203 | The push after an eviction finds room: it never reports full |
| `SampleTrack.PopBlockSound` | src/media/track.rs:531-535 | One access of the `queue.pop` inside `recv` keeps the invariant |
| `SampleTrack.SenderSound` | src/media/track.rs:178-204 | Every step of `try_send_drop_oldest` and `try_send` keeps the invariant |
| `SampleTrack.ReceiverSound` | src/media/track.rs:525-549 | Every step of `recv` keeps the invariant |
| `SampleTrack.LifeKept` | src/media/track.rs:158-176 | The handle counter counts the live handles: while one is live the source is not closed, and after closing nothing is queued |
| `SampleTrack.StepSound` | src/media/track.rs:158-300 | Every step of every thread, including clone, drop and stop, keeps the invariant |
| `SampleTrack.RunGood` | src/media/track.rs:178-300 | The invariant holds in every interleaving of any number of senders and receivers |
| `SampleTrack.MutualExclusion` | src/media/track.rs:178-204 | In every run at most one thread is inside ring push and at most one inside ring pop, and the ring is never about to be corrupted |
| `SampleTrack.NoSampleLost` | src/media/track.rs:191-204 | In every run the retry push never fails, no send from a live handle is refused as closed, and no uninitialised sample is handed out |
| `SampleTrack.Conservation` | src/media/track.rs:178-275 | In every run each accepted sample is received, evicted as the oldest, dropped on pop-lock contention or still queued, exactly once; received samples are queued samples at strictly increasing positions |
| `SampleTrack.EndAccount` | src/media/track.rs:530-547 | One step that ends the stream, in any good state: what stays behind is exactly what was queued after a `recv` last saw the queue empty; the check after a wake-up leaves nothing behind |
| `SampleTrack.EndStrandsExactly` | src/media/track.rs:525-549 | After every run in which some `recv` ends the stream: no source is live, and a sample stays behind if and only if that `recv` checks right after an empty pop and one was queued in between |
| `SampleTrack.EndCanStrandASample` | src/media/track.rs:530-541 | A concrete run in which the stream ends with a queued sample: the last source sends and is dropped between the empty pop and the closed check |
| `MhTables.TableOk` | src/t38/t4.rs:7-219 | Each of the 104 rows of a table has the run length its index stands for, and its codeword owns a block of the 13-bit windows that no other row of the table owns |
| `MhBits.PrefixFree` | src/t38/t4.rs:7-219 | No codeword of a colour begins another codeword of that colour |
| `MhBits.NoCodeStartsEol` | src/t38/t4.rs:7-219 | No bit string starts both with a codeword and with the end-of-line code |
| `MhEncoder.TablesDecodable` | src/t38/t4.rs:7-219 | Both tables of the source are uniquely decodable and keep clear of the end-of-line code |
| `MhEncoder.PushWord` | src/t38/t4.rs:227-229 | Appends the bits of a codeword, most significant first |
| `MhEncoder.PushCode` | src/t38/t4.rs:221-243 | Appends make-up codes greedily, longest first, then one terminating code, for a run of any length |
| `MhEncoder.FindChanges` | src/t38/t4.rs:255-266 | The list of positions where the pixel value changes |
| `MhEncoder.PushStretch` | src/t38/t4.rs:267-272 | Appends the code of one stretch in the table of its colour |
| `MhEncoder.PushRow` | src/t38/t4.rs:253-272 | One row: a code for each stretch between changes and one for the last |
| `MhEncoder.PushRows` | src/t38/t4.rs:248-272 | An end-of-line code and the codes of each row |
| `MhEncoder.PushEols` | src/t38/t4.rs:273-277 | Appends six end-of-line codes |
| `MhEncoder.PadToByte` | src/t38/t4.rs:278-280 | Fills up with zero bits to a whole byte |
| `MhEncoder.Pack` | src/t38/t4.rs:281-283 | Eight bits to a byte, first bit highest; unpacking gives the bits back |
| `MhEncoder.EncodeMhPage` | src/t38/t4.rs:246-284 | The whole page: its unpacked bytes are the rows, six end-of-line codes and padding to a byte |
| `MhEncoder.EncodeMhPageNoRtc` | src/t38/t4.rs:287-291 | Cuts the last nine bytes off the page |
| `MhEncoder.DecodeRunInverts` | src/t38/t4.rs:221-243 | A decoder for make-up plus terminating codes reads back any run length and leaves what follows untouched |
| `MhEncoder.DecodeRowInverts` | src/t38/t4.rs:253-272 | A row decoder reads back every bilevel row and leaves what follows untouched |
| `MhEncoder.DecodePageInverts` | src/t38/t4.rs:246-284 | A page decoder reads back every row, for any table pair that is uniquely decodable |
| `MhEncoder.PageRoundTrip` | src/t38/t4.rs:246-284 | Decoding an encoded page gives its rows, through end-of-line codes, return to control and byte padding |
| `MhEncoder.NoRtcRoundTrip` | src/t38/t4.rs:286-291 | Cutting nine bytes never reaches a bit of a row, and the rest still decodes to all rows |
| `MhEncoder.EncodingInjective` | src/t38/t4.rs:246-291 | Different 0/1 pages of one width never encode to the same bytes, with or without the return to control |
| `MhEncoder.RowIsCodes` | src/t38/t4.rs:253-272 | What is written for a row is the concatenation of the codes of its stretches, each in the table of its colour |
| `MhEncoder.ColoursAlternateIff` | src/t38/t4.rs:257-271 | The stretches whose codes make up a written row alternate in colour if and only if no two neighbouring pixels are black with different values |
| `MhEncoder.TwoBlackCodes` | src/t38/t4.rs:257-271 | The row of pixels 1 and 2 is written as an empty white run and two black runs |
| `Twcc.CollectStatuses` | src/media/twcc_feedback.rs:180-213 | The status of every sequence number from the first record on: lost for gaps below 1000, received with the inter-arrival delta, out-of-window records skipped |
| `Twcc.PushLost` | src/media/twcc_feedback.rs:194-200 | Marks the missing numbers of a gap as lost |
| `Twcc.BuildVector` | src/media/twcc_feedback.rs:236-250 | A vector chunk of seven two-bit symbols, zero filled |
| `Twcc.NextChunk` | src/media/twcc_feedback.rs:224-251 | The chunk for the statuses from an index on: a run-length chunk for three or more equal symbols, else a vector chunk |
| `Twcc.WriteChunks` | src/media/twcc_feedback.rs:222-252 | The chunk bytes of all statuses |
| `Twcc.WriteChunk` | src/media/twcc_feedback.rs:223-251 | One turn of the chunk loop writes the first chunk of the remaining symbols and moves past what it covers |
| `Twcc.WriteDeltas` | src/media/twcc_feedback.rs:253-266 | The delta bytes of the received statuses, one or two bytes each |
| `Twcc.BuildFeedback` | src/media/twcc_feedback.rs:169-279 | The whole feedback packet for a list of records |
| `Twcc.ExpandChunk` | src/rtp.rs:947-969 | The symbols of one chunk: run-length, one-bit vector or two-bit vector |
| `Twcc.ReadSymbols` | src/rtp.rs:938-971 | Reads chunks until enough symbols or the payload end |
| `Twcc.DecodeDeltas` | src/rtp.rs:973-999 | Reads the deltas of the received symbols, stopping where the payload does |
| `Twcc.DecodeFeedback` | src/rtp.rs:930-1000 | The whole decoder |
| `Twcc.ReadChunksInverts` | src/media/twcc_feedback.rs:222-252 | Whatever mix of chunks was chosen, reading them gives the symbols back and stops at the first delta byte |
| `Twcc.ReadDeltasInverts` | src/media/twcc_feedback.rs:253-266 | Reading the deltas back gives each status with its delta in 250 microsecond units |
| `Twcc.DecodeInvertsEncode` | src/media/twcc_feedback.rs:169-279 | Decoding any report of up to 480 statuses, with any bytes after it, gives every status it carries |
| `Twcc.ReportRoundTrip` | src/media/twcc_feedback.rs:169-279 | The same for the report built from any list of records |
| `Twcc.DeltasExactIff` | src/media/twcc_feedback.rs:253-266 | All deltas come back rounded to 250 microseconds if and only if each lies above -8.19225 s and below 8.192 s |
| `Twcc.LargeDeltaWraps` | src/media/twcc_feedback.rs:316-327 | A delta of 8.192 s is written unclamped and comes back as -8.192 s |
| `Twcc.ReadChunk` | src/rtp.rs:939-969 | One chunk of the first decoding pass |
| `Twcc.StatusMarked` | src/media/twcc_feedback.rs:180-213 | Every status that says received is that of a record that was not skipped |
| `Twcc.StatusNamesRecord` | src/media/twcc_feedback.rs:180-213 | Every received status stands at the sequence number of a reported record, and its value is that record's arrival minus the arrival of the record reported before it |
| `H264.BuildFragment` | src/media/packetizer.rs:501-520 | One FU-A fragment: indicator, header with start and end marks, and its bytes |
| `H264.Payload` | src/media/packetizer.rs:486-524 | The payloader loop: a unit that fits goes whole, others are cut at `mtu - 2` bytes (at least one) |
| `H264.CutUp` | src/media/packetizer.rs:499-521 | The fragment loop cuts at every `max_frag` bytes and marks the first and the last fragment |
| `H264.Depacketizer.Push` | src/media/depacketizer.rs:81-243 | One packet moves the depacketizer state and emits samples as the step function says |
| `H264.Depacketizer.PushFua` | src/media/depacketizer.rs:157-222 | The fragment branch: start, wrong number, wrong timestamp, middle and end |
| `H264.SplitAggregate` | src/media/depacketizer.rs:127-155 | The units of an aggregation packet, and whether it broke off |
| `H264.PiecesArePayloads` | src/media/packetizer.rs:486-524 | The packets of the abstract stream are exactly what the payloader produces |
| `H264.SentIsStream` | src/media/packetizer.rs:486-524 | Whatever units are sent, their fragments follow each other in the stream |
| `H264.FragmentHeader` | src/media/packetizer.rs:501-520 | What the two header bytes of a fragment say back: type, start, end, importance and original type |
| `H264.Neighbours` | src/media/depacketizer.rs:180-195 | In a stream of at most 65536 packets consecutive sequence numbers mean neighbouring packets |
| `H264.StartFragment` | src/media/depacketizer.rs:167-177 | A start fragment discards what was held and holds its own unit |
| `H264.NextFragment` | src/media/depacketizer.rs:178-221 | The next fragment in order extends the held unit, and the last one emits it |
| `H264.DeliverOne` | src/media/depacketizer.rs:157-222 | Whatever came before, a delivered fragment emits nothing or the unit it belongs to |
| `H264.HistoryKeepsHeld` | src/media/depacketizer.rs:157-222 | After any history of deliveries the buffer holds a prefix of one sent unit, or nothing |
| `H264.FragmentsAreSafe` | src/media/depacketizer.rs:157-222 | Under any loss, repetition and reordering, a unit emitted from fragments is one that was fragmented, byte for byte when its forbidden bit is zero |
| `H264.LosslessDelivery` | src/media/packetizer.rs:486-524 | In-order delivery from any receiver state emits every unit that fits exactly once, in order |
| `H264.DeliveredIffFits` | src/media/packetizer.rs:486-524 | A unit comes back as itself from an idle receiver if and only if it is sent whole with a type other than 24 and 28, or in two or more fragments with forbidden bit zero |
| `H264.FragmentTypeIsLost` | src/media/packetizer.rs:486-524 | A one-byte unit of type 28, sent whole to an idle receiver, does not come back |
| `Vp9.Payloader.Split` | src/media/packetizer.rs:141-191 | The payloader loop and its 15-bit picture id, which moves on once per non-empty frame |
| `Vp9.SplitFrom` | src/media/packetizer.rs:161-187 | The chunk loop: a descriptor and at most `max_payload_size` bytes, begin and end marked, until all bytes are out |
| `Vp9.PayloadParses` | src/media/packetizer.rs:163-187 | The descriptor parser reads the payloader's descriptor back: picture id, start, end, three bytes |
| `Vp9.PacketsArePayloads` | src/media/packetizer.rs:141-191 | The packets of the abstract frame are exactly the payloader's payloads |
| `Vp9.ParseDescriptor` | src/media/depacketizer.rs:286-366 | The parser, field by field, computes the descriptor function |
| `Vp9.SkipReferences` | src/media/depacketizer.rs:322-331 | Skips at most three chained reference indices |
| `Vp9.SkipStructure` | src/media/depacketizer.rs:333-356 | Skips a scalability structure with its group loop; its end is checked once |
| `Vp9.DescriptorIsPrefix` | src/media/depacketizer.rs:286-366 | For arbitrary bytes: the header length is between 1 and the payload length, and the result depends only on those bytes |
| `Vp9.Depacketizer.Push` | src/media/depacketizer.rs:405-471 | One packet moves the depacketizer state and emits frames as the step function says |
| `Vp9.StepPacket` | src/media/depacketizer.rs:434-469 | A start packet resets the buffer, a continuation of the same timestamp appends, the end hands the frame out |
| `Vp9.FrameArrives` | src/media/depacketizer.rs:405-471 | A frame whose first and last packets arrive comes out as the bytes that arrived, whatever was lost between |
| `Vp9.FrameUnderLoss` | src/media/depacketizer.rs:405-471 | Under any loss within a frame: nothing comes out unless its first and last packets arrive, and then the bytes that arrived |
| `Vp9.IntactIffAllArrive` | src/media/depacketizer.rs:434-448 | Under any loss the frame comes out intact if and only if no packet of it was lost, unless the depacketizer is in the middle of a frame with its timestamp |
| `Vp9.MiddleLossGoesUnnoticed` | src/media/depacketizer.rs:434-469 | A frame of three packets without the middle one comes out as a frame of the other two |
| `Vp9.NeverMixed` | src/media/depacketizer.rs:405-471 | Frames with distinct timestamps, packets lost, repeated and reordered in any way: every frame handed out is glued from arrived packets of a single frame, from its first packet to its last |
| `Vp9.LosslessStream` | src/media/depacketizer.rs:405-471 | Any non-empty frames, cut at any mtu and pushed in order to any depacketizer, all come back exactly |
| `Rtp.ParseHeader` | src/rtp.rs:71-125 | The header parser with its CSRC loop and extension block computes the parse function |
| `Rtp.WriteFixed` | src/rtp.rs:278-296 | The first twelve bytes |
| `Rtp.WriteTo` | src/rtp.rs:278-306 | Writes exactly the header bytes at the front of the buffer and touches nothing else |
| `Rtp.WriteExtension` | src/rtp.rs:300-305 | Writes the extension block after what is there |
| `Rtp.ParseInvertsWrite` | src/rtp.rs:71-125 | Parsing a written header gives the header, its padding bit and its length, whatever follows |
| `Rtp.WriteInvertsParse` | src/rtp.rs:278-306 | Writing a parsed header gives back the bytes it was parsed from |
| `Rtp.Marshal` | src/rtp.rs:352-390 | Marshalling succeeds exactly when `validate` does, and gives header, payload and padding |
| `Rtp.PacketRoundTrip` | src/rtp.rs:326-390 | A packet that marshals parses back to itself if and only if its payload type is below 128 and its extension below 2^18 bytes |
| `Rtp.WideTypeIsLost` | src/rtp.rs:278-390 | A valid packet with a payload type of 128 or more is written as the bytes of the packet whose type is 128 less, and parses as that one |
| `RtpExtension.GetOneByte` | src/rtp.rs:129-153 | The first element with the id in a one-byte block |
| `RtpExtension.GetTwoByte` | src/rtp.rs:154-178 | The first element with the id in a two-byte block |
| `RtpExtension.ExtensionField.Get` | src/rtp.rs:127-184 | Looks the id up in the decoded block of any profile |
| `RtpExtension.Rebuild` | src/rtp.rs:210-249 | The rebuilding loop: replaced and copied elements, the new one appended if absent, zero filled; `None` exactly when an element of another id runs past the end |
| `RtpExtension.Place` | src/rtp.rs:222-239 | One turn of the rebuilding loop: the element is replaced or copied, or the call breaks on an element of another id that runs past the end |
| `RtpExtension.ExtensionField.Set` | src/rtp.rs:186-252 | Refuses bad ids, lengths and profiles leaving the block as it was; panics exactly on a broken foreign element, losing the block; else stores the rebuilt block |
| `RtpExtension.LayoutDecodes` | src/rtp.rs:210-249 | Decoding a rebuilt block gives exactly its elements |
| `RtpExtension.SetRefinesUpdate` | src/rtp.rs:186-252 | Setting an element updates the map of answers at its id and nowhere else |
| `RtpExtension.SetStep` | src/rtp.rs:186-252 | A successful call on any one-byte block updates the map, and leaves an aligned block without broken element |
| `RtpExtension.RunRefinesMap` | src/rtp.rs:127-252 | Every run of calls from no block or a well-formed one: never a panic, refusals exactly for unacceptable values, lookups as the finite map of accepted values says |
| `RtpExtension.RunFits` | src/rtp.rs:186-252 | Built up from nothing, a block never exceeds 240 bytes and stays aligned |
| `RtpExtension.BrokenBlockPanics` | src/rtp.rs:235-235 | A block that ends inside another element makes a call panic and lose the block |
| `Nack.PackNackPairs` | src/rtp.rs:1143-1169 | The packing loops compute the greedy packing of the sorted distinct numbers |
| `Nack.PackOne` | src/rtp.rs:1149-1166 | One pair: the first number and the mask of those within 16 of it |
| `Nack.ExpandOne` | src/rtp.rs:849-859 | The numbers one pair names, bit by bit |
| `Nack.ExpandAll` | src/rtp.rs:841-865 | The numbers all pairs name |
| `Nack.ExpandInvertsPack` | src/rtp.rs:1143-1169 | Expanding the packing of an increasing list gives the list |
| `Nack.PackIsExact` | src/rtp.rs:1143-1169 | Expanding the packing of any list gives its distinct numbers in increasing order |
| `Nack.PackIsMinimal` | src/rtp.rs:1143-1169 | No list of pairs whose windows stay below 65536 names the same packets with fewer pairs |
| `Nack.WrappedWindowIsShorter` | src/rtp.rs:1143-1169 | A pair whose window wraps past 65535 can name two packets that the packing needs two pairs for |
| `RtcpCode.BuildBlocks` | src/rtp.rs:1010-1012 | The report block loop of the two report builders |
| `RtcpCode.ParseBlocks` | src/rtp.rs:652-658 | The report block loop of the two report parsers, failing as soon as one is missing |
| `RtcpCode.BuildItems` | src/rtp.rs:1029-1033 | The item loop of a source description chunk |
| `RtcpCode.BuildChunk` | src/rtp.rs:1027-1038 | One chunk: source, items, end mark, fill to four bytes |
| `RtcpCode.BuildSdesBody` | src/rtp.rs:1025-1040 | All chunks |
| `RtcpCode.SkipPadding` | src/rtp.rs:713-718 | Skips fill bytes to the next multiple of four |
| `RtcpCode.ParseItems` | src/rtp.rs:705-733 | The item loop of the parser with its end, padding and error branches |
| `RtcpCode.ParseSdes` | src/rtp.rs:690-736 | The chunk loop of the parser |
| `RtcpCode.BuildWords` | src/rtp.rs:1044-1046 | An SSRC loop of a builder |
| `RtcpCode.ParseWords` | src/rtp.rs:741-753 | An SSRC loop of a parser |
| `RtcpCode.ParseBye` | src/rtp.rs:738-766 | The goodbye parser with its optional reason |
| `RtcpCode.BuildRequests` | src/rtp.rs:1082-1086 | The request loop of the FIR builder |
| `RtcpCode.ParseFirBody` | src/rtp.rs:816-839 | The FIR parser |
| `RtcpCode.BuildPairs` | src/rtp.rs:1098-1101 | The pair loop of the NACK builder |
| `RtcpCode.ParseNackBody` | src/rtp.rs:841-865 | The NACK parser |
| `Rtcp.Normalise` | src/rtp.rs:1114-1119 | The loop that halves a bitrate until it fits 18 bits |
| `RtcpCode.BuildRembBody` | src/rtp.rs:1105-1128 | The REMB builder, failing for more than 255 sources |
| `RtcpCode.ParseRembBody` | src/rtp.rs:867-897 | The REMB parser |
| `RtcpCode.BuildBody` | src/rtp.rs:575-627 | The body of any of the nine packet kinds |
| `RtcpCode.PadTo4` | src/rtp.rs:630-632 | Fills a body to a multiple of four bytes |
| `RtcpCode.WriteRtcpPacket` | src/rtp.rs:629-638 | Header, length in words and filled body after what is there |
| `RtcpCode.MarshalRtcpPackets` | src/rtp.rs:575-627 | The compound builder, failing at the first packet that cannot be built |
| `RtcpCode.ParseOne` | src/rtp.rs:551-569 | Dispatch on packet type |
| `RtcpCode.ParseFeedback` | src/rtp.rs:789-804 | Dispatch on feedback format |
| `RtcpCode.ParseRtcpPackets` | src/rtp.rs:522-573 | The sub-packet loop with version, length and padding checks |
| `Rtcp.LostRead` | src/rtp.rs:768-787 | 24 signed bits of a report block come back as the clamped loss |
| `Rtcp.SenderRead` | src/rtp.rs:640-668 | A sender report comes back with its losses clamped to 24 signed bits |
| `Rtcp.ReceiverRead` | src/rtp.rs:670-688 | A receiver report comes back with its losses clamped |
| `Rtcp.SdesRead` | src/rtp.rs:690-736 | Source description chunks come back exactly |
| `Rtcp.GoodbyeRead` | src/rtp.rs:738-766 | A goodbye comes back, its reason cut to 255 bytes |
| `Rtcp.PliRead` | src/rtp.rs:806-814 | A picture loss indication comes back exactly |
| `Rtcp.FirRead` | src/rtp.rs:816-839 | A full intra request comes back exactly |
| `Rtcp.NackRead` | src/rtp.rs:841-865 | A NACK comes back sorted and without repetitions |
| `Rtcp.FloorBounds` | src/rtp.rs:1114-1123 | The encoded bitrate is at most the true one and less than one unit of the exponent below it |
| `Rtcp.BitratePrecision` | src/rtp.rs:1114-1123 | The encoded bitrate is exact below 2^18 and otherwise low by less than one part in 2^17 |
| `Rtcp.RembRead` | src/rtp.rs:867-897 | A bitrate estimate comes back with its bitrate rounded down |
| `Rtcp.TwccRead` | src/rtp.rs:899-922 | Transport-wide feedback comes back with its fill bytes appended and its reference time modulo 2^24 |
| `RtcpCompound.BodyRead` | src/rtp.rs:551-569 | Each of the nine parsers undoes its builder up to the normal form |
| `RtcpCompound.FrameAt` | src/rtp.rs:527-550 | The framing of a sub-packet is read back |
| `RtcpCompound.MarshalFailsIff` | src/rtp.rs:575-627 | Marshalling fails exactly when some NACK is empty or some REMB names more than 255 sources |
| `RtcpRange.NackFits` | src/rtp.rs:1090-1103 | A NACK body always fits the length field |
| `RtcpRange.OutOfRangeIsLost` | src/rtp.rs:575-638 | No packet out of range is read back from what its header leaves of it |
| `RtcpRange.RoundTripIff` | src/rtp.rs:522-638 | Whatever is marshalled parses back in order, each packet in its normal form, if and only if every packet is in range: at most 31 blocks, sources and chunks, item kinds other than zero, item texts of at most 255 bytes, bodies of at most 65535 words |
| `RtcpRange.BlocksAreLost` | src/rtp.rs:522-688 | Every receiver report with 32 blocks is marshalled and parses back as a report with none |
| `RtcpCompound.CompoundRoundTrip` | src/rtp.rs:522-638 | Parsing a marshalled list of in-range packets gives the list back in order, each in its normal form |
| `RtcpCompound.NormalIsIdentity` | src/rtp.rs:1002-1141 | The normal form changes nothing but out-of-range losses, long reasons, unsorted NACKs, bitrates of 2^18 and more, and unaligned feedback payloads |
| `RtcpCompound.FeedbackSurvives` | src/rtp.rs:899-1000 | Transport-wide feedback decodes to every status after marshalling and parsing have appended padding |
| `SrtpIndex.EstimateExact` | src/srtp.rs:1057-1072 | The estimated rollover counter is the true one if and only if the index is less than 2^15 from the highest on the circle of 2^48, or exactly 2^15 away without a rollover between |
| `SrtpIndex.UpdateIsMax` | src/srtp.rs:1074-1089 | Accepting an index leaves the larger of it and the one before |
| `SrtpIndex.SenderIndices` | src/srtp.rs:1057-1089 | A sender stepping its sequence number by one gets index `first + n` for packet `n`, through every wrap below 2^48 |
| `SrtpIndex.SenderWraps` | src/srtp.rs:1057-1089 | After the last index the estimate starts again at zero and the state no longer moves |
| `SrtpIv.Mask` | src/srtp.rs:1051-1053 | The masking loop computes the exclusive or of vector and block |
| `SrtpIv.BuildIv` | src/srtp.rs:1039-1055 | The AES-CTR vector of a packet |
| `SrtpIv.BuildNonce` | src/srtp.rs:1024-1037 | The GCM nonce of a packet |
| `SrtpIv.XorAllInjective` | src/srtp.rs:1051-1053 | Different blocks stay different under one salt |
| `SrtpIv.NoncesDistinct` | src/srtp.rs:1024-1037 | GCM nonces differ for different SSRC or index, for any salt |
| `SrtpIv.RtcpNoncesDistinct` | src/srtp.rs:1010-1022 | SRTCP nonces differ for different SSRC or index, for any salt |
| `SrtpIv.CounterSplits` | src/srtp.rs:1039-1055 | The first 2^16 counters of a vector never carry beyond its last two bytes |
| `SrtpIv.CounterBlocksDisjoint` | src/srtp.rs:1039-1055 | The 2^16 counter blocks of one packet are disjoint from those of any packet with another SSRC or index, for any salt |
| `SrtpIv.RtcpCounterBlocksDisjoint` | src/srtp.rs:770-787 | The same for SRTCP |
| `Srtp.CryptTwice` | src/srtp.rs:857-861 | Applying the keystream of one index twice gives the data back |
| `Srtp.LayoutRoundTrip` | src/srtp.rs:811-1008 | For every profile, MKI, CSRC list, extension and padding: at the sender's index the receiver gets the packet back if and only if its header fits the wire |
| `Srtp.WideTypeIsLost` | src/srtp.rs:811-1008 | A valid packet with a payload type of 128 or more arrives as the packet whose type is 128 less, authenticated |
| `SrtpContext.ApplyKeystream` | src/srtp.rs:857-861 | Masks a range of a buffer in place and touches nothing else |
| `SrtpContext.Context.Advance` | src/srtp.rs:1074-1089 | The update of rollover counter and last sequence number |
| `SrtpContext.Context.WriteClear` | src/srtp.rs:829-835 | Header, payload and padding in the clear |
| `SrtpContext.Context.SealGcm` | src/srtp.rs:837-854 | Ciphertext, tag, MKI |
| `SrtpContext.Context.SealMac` | src/srtp.rs:855-877 | Ciphertext, MKI, truncated digest over header, ciphertext and rollover counter |
| `SrtpContext.Context.Protect` | src/srtp.rs:811-881 | Succeeds exactly for a valid header and an output of the right length; writes the protected packet and advances the index; a failed call changes nothing |
| `SrtpContext.Context.DecipherGcm` | src/srtp.rs:945-962 | Tag check and decryption with the MKI after the tag |
| `SrtpContext.Context.DecipherMac` | src/srtp.rs:963-986 | Digest check over header, ciphertext and rollover counter, then decryption, with the MKI before the digest |
| `SrtpContext.Context.UnprotectWithMki` | src/srtp.rs:931-1008 | One attempt: what it returns, and that only success moves the index |
| `SrtpContext.Context.Unprotect` | src/srtp.rs:883-925 | The adaptive MKI retry: candidates in order with the body restored between; a failed call leaves rollover counter, last sequence and MKI mode unchanged |
| `SrtpRun.InputDetermines` | src/srtp.rs:968-976 | What was authenticated pins down header, padding bit, ciphertext and the full 48-bit index |
| `SrtpRun.OpenedIsSent` | src/srtp.rs:931-1008 | With ideal tags, what opens is a packet that was sent, at the index it was sent with |
| `SrtpRun.RunIsSafe` | src/srtp.rs:883-1008 | For any datagrams in any order: each packet returned is one that was sent, and the state stands for the largest 48-bit index accepted |
| `SrtpRun.WrongLengthFails` | src/srtp.rs:883-925 | A wrong MKI length does not open a genuine packet |
| `SrtpRun.Accepts` | src/srtp.rs:883-925 | A genuine packet whose index is estimated right is returned, and settles the MKI mode on what the sender does |
| `SrtpRun.NetworkRun` | src/srtp.rs:883-1089 | Over any loss, repetition and reordering within the 2^15 window, each arrival is returned as sent and the state is the maximum index that arrived |
| `SrtpRun.ForgeriesChangeNothing` | src/srtp.rs:883-1008 | A run with any number of datagrams in between that carry no valid tag is the run without them |
| `SrtpRun.EndToEnd` | src/srtp.rs:811-1089 | For a sender stepping its sequence number by one through any number of wraps, over a network that loses, repeats and reorders its packets within the window and slips in any number of forgeries, each copy that arrives is returned as the packet sent, and nothing else is |
| `SrtpIdeal.UnusedExists` | src/srtp.rs:945-986 | Whatever stands `at` bytes into the bodies of a sender of at most 2^48 packets, some 16-byte tag does not |
| `SrtpIdeal.IdealTagIsGenuine` | src/srtp.rs:837-986 | For every profile, log and MKI there are keys, the same but for the tags, under which all datagrams of the sender meet the premise of the runs |
| `SrtpIdeal.IdealRun` | src/srtp.rs:811-1089 | Under such keys the end-to-end result holds without a premise on tags, for every profile |
| `Srtcp.Context.Protect` | src/srtp.rs:590-651 | Each packet takes the next index and is laid out by profile, also below eight bytes where the source does not panic |
| `Srtcp.Context.UnprotectGcm` | src/srtp.rs:668-715 | The GCM branch: index, nonce, tag, plaintext |
| `Srtcp.Context.UnprotectMac` | src/srtp.rs:717-756 | The HMAC branch: tag over everything up to the index, then decryption if the E bit is set |
| `Srtcp.Context.UnprotectWithMki` | src/srtp.rs:658-756 | Only an authentic packet moves the index, and only forward |
| `Srtcp.RtcpRoundTrip` | src/srtp.rs:590-756 | For every profile and MKI, unprotecting a protected packet gives the packet and its index, for indices below 2^31 |
| `Srtcp.IndexRecoveredIff` | src/srtp.rs:590-756 | Under every profile the receiver gets a packet with its index if and only if the index is below 2^31; without GCM the packet is taken for authentic beyond that too |
| `Srtcp.TopBitIsLost` | src/srtp.rs:590-756 | Protected at index 2^31 without GCM, a packet is authentic and opens at index zero |
| `JitterBuffer.FirstIsNearest` | src/media/jitter_buffer.rs:286-310 | With something delivered, the sequence number picked has the least modular distance ahead of it |
| `JitterBuffer.StartIsOldestIff` | src/media/jitter_buffer.rs:290-297 | Before the first delivery, the pick leaves only newer numbers behind if and only if the numbers span less than 2^15, or the highest alone lies more than 2^15 above all others |
| `JitterBuffer.FirstIsOldest` | src/media/jitter_buffer.rs:286-310 | With something delivered, the pick is the packet with the least sender index in the buffer |
| `JitterBuffer.FirstIsOldestIff` | src/media/jitter_buffer.rs:290-297 | Before the first delivery, with packets less than half a turn apart, the pick is the one with the least sender index if and only if at most one of them is of the turn before the others |
| `JitterBuffer.EvictsOldestIff` | src/media/jitter_buffer.rs:207-217 | What a full buffer gives up is its oldest packet if and only if all it holds are of one turn of the sequence number |
| `JitterBuffer.EvictionTakesNewer` | src/media/jitter_buffer.rs:207-217 | A run into a buffer for two that gives up packet 65536 and keeps packet 65535 |
| `JitterBuffer.DroppedIffLate` | src/media/jitter_buffer.rs:112-117 | Less than half a turn from the last delivered packet, a packet of the same source is dropped if and only if its index is not above that one |
| `JitterBuffer.StartCanMisorder` | src/media/jitter_buffer.rs:290-297 | A run from an empty buffer: packets 65534, 65535 and 65536 pushed in order are delivered as 65535, 65536, 65534 |
| `JitterBuffer.WaitIsZeroIff` | src/media/jitter_buffer.rs:220-278 | `next_pop_wait` is zero exactly when `pop` would deliver, and absent exactly when the buffer is empty |
| `JitterBuffer.WaitIsEnough` | src/media/jitter_buffer.rs:220-278 | After the stated wait, with nothing pushed in between, `pop` delivers |
| `JitterBuffer.PopKeepsOrder` | src/media/jitter_buffer.rs:220-252 | A delivery goes forward from the one before and leaves only newer samples buffered |
| `JitterBuffer.PushKeeps` | src/media/jitter_buffer.rs:59-218 | Every push keeps the buffered samples newer than the last delivered one, and the size at most max(capacity, 1) |
| `JitterBuffer.RunKeeps` | src/media/jitter_buffer.rs:48-310 | In every run that starts well: what is buffered is newer than what was delivered, the size bound holds, and each delivery is newer than the one before it unless the buffer was restarted in between |
| `JitterBuffer.RunInOrder` | src/media/jitter_buffer.rs:48-310 | In every run with packets within half a turn and at most one straggler at a first delivery: between restarts the sender indices of the deliveries strictly increase, through any number of wraps |
| `JitterBuffer.Buffer.PushSample` | src/media/jitter_buffer.rs:59-218 | The code of `push`: SSRC change, late, gap, timestamp jump, talkspurt and full-buffer branches |
| `JitterBuffer.Buffer.Insert` | src/media/jitter_buffer.rs:207-217 | Drops the numerically lowest sample when full, then stores |
| `JitterBuffer.Buffer.StartOver` | src/media/jitter_buffer.rs:88-105 | Reset with one sample |
| `JitterBuffer.Buffer.ResetAll` | src/media/jitter_buffer.rs:48-53 | Clears everything |
| `JitterBuffer.Buffer.PopSample` | src/media/jitter_buffer.rs:220-252 | The code of `pop` |
| `ReceptionStats.LocalInbound.Arrive` | src/stats_collector.rs:125-143 | The sequence bookkeeping of one arrival |
| `ReceptionStats.LocalInbound.TakeReportBlock` | src/stats_collector.rs:184-210 | The report fields, and the prior counters moved on |
| `ReceptionStats.UpdateMoves` | src/stats_collector.rs:128-143 | The extended maximum moves forward by the 16-bit distance when that is less than half a turn |
| `ReceptionStats.StepExactIff` | src/stats_collector.rs:125-143 | One arrival keeps the extended maximum equal to the true highest index modulo 2^32 if and only if it lies in the window |
| `ReceptionStats.StepAgrees` | src/stats_collector.rs:125-210 | Every arrival within 2^15 of the highest and every report keeps the counters in agreement with the true indices |
| `ReceptionStats.LostAgrees` | src/stats_collector.rs:190-193 | The lost interval of a report is the true one |
| `ReceptionStats.ShareExactIff` | src/stats_collector.rs:194-198 | The shifted quotient is exact, and fits a byte, if and only if fewer than 2^24 were lost |
| `ReceptionStats.FractionExactIff` | src/stats_collector.rs:190-198 | The fraction lost of a report is 256 times the loss over what was expected, if and only if fewer than 2^24 were lost in the interval; it fits a byte because something was received |
| `ReceptionStats.JumpsFraction` | src/stats_collector.rs:125-210 | In a run that steps the sequence number by 32767 again and again, within the premise of the statistics, the fraction is exact if and only if there are at most 512 steps |
| `ReceptionStats.NothingLost` | src/stats_collector.rs:194-198 | The fraction is zero when the interval lost nothing |
| `ReceptionStats.RunAgrees` | src/stats_collector.rs:125-210 | Over every run the extended maximum is the true highest index modulo 2^32 and the lost intervals of all reports add up to the cumulative loss |
| `ReceptionStats.ReportIsSum` | src/stats_collector.rs:177-210 | The cumulative loss in a report is the clamped sum of all lost intervals up to it |
| `Wakers.Register` | src/platform/sync_embedded.rs:37-41 | One waker per task: registering keeps the list free of repetitions and loses nobody |
| `Broadcast.Position` | src/platform/sync_embedded.rs:1090-1093 | The search for a sequence number in the history |
| `Broadcast.Channel.Send` | src/platform/sync_embedded.rs:1032-1051 | A send appends to the history, keeps the newest sixteen, takes all wakers, and fails exactly when the channel is closed |
| `Broadcast.Channel.TryRecv` | src/platform/sync_embedded.rs:1081-1100 | Lagged, value, closed or empty, and where the cursor goes |
| `Broadcast.Channel.Poll` | src/platform/sync_embedded.rs:1106-1133 | The same, registering the task when there is nothing |
| `Broadcast.Channel.ReleaseSender` | src/platform/sync_embedded.rs:1135-1140 | The handle counter; only the last handle goes on to close |
| `Broadcast.Channel.Close` | src/platform/sync_embedded.rs:1141-1148 | Marks the channel closed and takes all wakers |
| `Broadcast.ReceivedMeans` | src/platform/sync_embedded.rs:1081-1133 | A value is the one sent at the cursor, a lag count is exactly how far the cursor is behind the history, and closed or empty is said only at the end |
| `Broadcast.SentHistory` | src/platform/sync_embedded.rs:1032-1051 | The history is always the newest sixteen values, numbered as sent |
| `Broadcast.StepKeeps` | src/platform/sync_embedded.rs:918-1149 | Every operation keeps the channel invariant |
| `Broadcast.RunKeeps` | src/platform/sync_embedded.rs:918-1149 | The invariant holds in every run |
| `Broadcast.RunPromises` | src/platform/sync_embedded.rs:918-1149 | In every run: deliveries in order without repeats, delivered plus lagged equal to the cursor's advance, a delivered value is the one sent at the cursor, a lag count is what the history has dropped, closed exactly when drained, a send from a live handle succeeds, a pending receiver's task is woken by the next send or close |
| `Watch.Channel.Send` | src/platform/sync_embedded.rs:565-575 | Stores the value, raises the version, takes all wakers |
| `Watch.Channel.SendIfModified` | src/platform/sync_embedded.rs:598-611 | The same only when a change is reported; the value is stored in any case |
| `Watch.Channel.BorrowAndUpdate` | src/platform/sync_embedded.rs:624-629 | Reads the value and marks the version as seen by this receiver |
| `Watch.Channel.PollChanged` | src/platform/sync_embedded.rs:646-666 | Ready on an unseen version, closed when every sender is gone, else registered |
| `Watch.Channel.ReleaseSender` | src/platform/sync_embedded.rs:668-673 | The handle counter |
| `Watch.Channel.Close` | src/platform/sync_embedded.rs:674-681 | Marks the channel closed and takes all wakers |
| `Watch.RunKeeps` | src/platform/sync_embedded.rs:461-682 | The invariant holds in every run |
| `Watch.PendingIsWoken` | src/platform/sync_embedded.rs:646-682 | In every run a receiver left pending has its task woken by every later version and by the close |
| `Watch.StaysPending` | src/platform/sync_embedded.rs:646-666 | A pending receiver stays registered until a version is published, the channel closes, or it observes itself |
| `Watch.PublishReachesAll` | src/platform/sync_embedded.rs:565-611 | A published version makes the next poll of every receiver ready |
| `Watch.ChangeIsNotStolen` | src/platform/sync_embedded.rs:499-507 | No receiver's observation consumes another's: an unseen version stays unseen until that receiver looks |
| `Watch.ClosedMeansSeen` | src/platform/sync_embedded.rs:646-682 | In every run a poll says closed if and only if the channel was closed before and the receiver has no unseen version; then it has looked after every version published in its lifetime, and none is published later |
| `SdpText.LinesRoundTrip` | src/sdp.rs:91-95 | Printing lines and splitting the text again gives the lines |
| `SdpText.WordsOfJoin` | src/sdp.rs:436-472 | Words joined by spaces and split at whitespace come back |
| `SdpText.NumberRoundTrip` | src/sdp.rs:436-472 | A printed number parses back |
| `Sdp.DirectionRoundTrip` | src/sdp.rs:703-722 | Direction names parse back |
| `Sdp.AttributeRoundTrip` | src/sdp.rs:524-537 | An attribute line parses back |
| `Sdp.OriginRoundTrip` | src/sdp.rs:436-472 | An origin line parses back |
| `Sdp.TimingRoundTrip` | src/sdp.rs:494-508 | A timing line parses back |
| `Sdp.MediaRoundTrip` | src/sdp.rs:1305-1334 | A media line parses back |
| `Sdp.AttributeSurvivesIff` | src/sdp.rs:524-537 | An attribute line parses back if and only if its key has no colon |
| `Sdp.SessionRead` | src/sdp.rs:401-422 | The printed session part parses back, its attributes as their lines read |
| `Sdp.MediaRead` | src/sdp.rs:1305-1393 | A printed media section parses back as its normal form with a stated direction, after anything |
| `Sdp.SettleStated` | src/sdp.rs:162-178 | A session-level direction does not reach sections that state their own |
| `Sdp.ParsePrinted` | src/sdp.rs:78-210 | What parsing a printed description gives, also with colons in the keys of session attributes |
| `Sdp.SurvivesIff` | src/sdp.rs:78-210 | A printable description parses back to its normal form if and only if no key of a session attribute has a colon |
| `Sdp.ParseUndoesPrint` | src/sdp.rs:78-210 | For every well-formed description, parsing its print gives it back with the transport attributes of each section stably moved first |
| `Sdp.NormalSelects` | src/sdp.rs:1369-1392 | Moving the transport attributes first keeps both groups in their order |
| `Sdp.PrintParsePrint` | src/sdp.rs:78-210 | Printing, parsing and printing again gives the first text, also with a session-level direction; the normal form is idempotent |
| `Sdp.ParseText` | src/sdp.rs:78-201 | The line loop of the parser |
| `Sdp.WriteAttributes` | src/sdp.rs:418-420 | The attribute loop of a printer |
| `Sdp.WriteSession` | src/sdp.rs:401-422 | Prints the session part |
| `Sdp.Partition` | src/sdp.rs:1369-1383 | Splits the attributes into transport attributes and others, in order |
| `Sdp.WriteMedia` | src/sdp.rs:1357-1393 | Prints a media section |
| `Sdp.PrintText` | src/sdp.rs:203-210 | Prints a description |
| `SdpClosure.ParsedIsWellFormedIff` | src/sdp.rs:78-201 | What any accepted text parses to can be printed, and is well-formed if and only if no line has a colon before its equals sign |
| `SdpClosure.AcceptedTextSurvivesIff` | src/sdp.rs:78-210 | Printing what an accepted text parses to and parsing again gives the same description up to attribute order if and only if no line of the text has a colon before its equals sign |
| `SdpClosure.AcceptedTextIsStable` | src/sdp.rs:78-210 | For any accepted text without such lines, printing the reparsed description gives the same text again |
| `SdpClosure.ColonPrefixIsLost` | src/sdp.rs:148-153 | A whole accepted text with a line `x:y=z`: printing and parsing turn the key `x:y` into `x` |

## Left out

- AES, HMAC-SHA1, GCM and key derivation: foreign primitives, represented by unknown functions; the constant-time comparison is equality.
- `SrtpSession`: context maps, time-based eviction and its copy of the MKI retry for SRTCP; index properties are per context.
- `Vp8Payloader`, `SimplePayloader` and pass-through depacketizers: easier than the two modelled.
- `evict_stale_ssrcs` and the jitter estimate of the reception statistics: wall-clock and floating-point arithmetic around map removal.
- SDP helpers (fingerprints, simulcast, rid, crypto, capabilities, DTMF, bundle): per-branch string scans.
- `oneshot`, `AsyncMutex`, `Notify` and mpsc channels: not modelled; `recv` of a sample track may proceed from its wait at any time, so lost wake-ups are not ruled out.
- Error texts and line numbers of error messages: errors are distinguished by kind only.
- UTF-8: `from_utf8_lossy` on SDES and goodbye texts is the identity on the bytes.
- In-place update of the RTCP packet buffer in SRTCP and of `Vec` outputs: the methods return the new byte string instead.
- H264.Depacketizer.Push: does not model the pass-through of audio samples and the frame metadata copied along.
- Vp9.Depacketizer.Push: does not model the pass-through of audio samples and the frame metadata copied along.
- Rtcp.GoodbyeRead: texts are bytes, so a reason cut inside a UTF-8 character does not turn into a replacement character.
- MhEncoder.PushStretch: requires less than 2^32 pixels, since the length is cast to `u32`.
- MhEncoder.PushRow: requires a row of the page's width, as the source's debug assertion does, and less than 2^32 pixels.
- MhEncoder.PushRows: requires rows of the page's width, as the source's debug assertion does, and less than 2^32 pixels.
- MhEncoder.EncodeMhPage: requires rows of the page's width, as the source's debug assertion does, and less than 2^32 pixels.
- MhEncoder.EncodeMhPageNoRtc: requires rows of the page's width, as the source's debug assertion does, and less than 2^32 pixels.
- SpscRing.LenExactIff: reads both counters at one instant, where the source reads them one after the other.
- Broadcast.RunPromises: the wake calls after the lock is released are one step with the locked section, since they touch no channel state.
- Watch.PendingIsWoken: the wake calls after the lock is released are one step with the locked section, since they touch no channel state.
- SampleTrack.MutualExclusion: does not model the wake-ups of `Notify`, only the two locks and the ring.
- Srtcp.Context.Protect: requires at least eight bytes under GCM, where the source panics on less, and an index below 2^32 - 1.
- Nack.PackNackPairs: the standard library sort and dedup are one insertion sort into a strictly increasing list.
- Rtp.WriteTo: the exact output slice of the source is the front of a buffer that may be longer.
