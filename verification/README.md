# A verified model of the RTP/RTCP stack and the frame depacketizer

RemoteControlGalileo streams video over the bundled JRTPLIB (`jrtp/`), an implementation of RTP and RTCP
(RFC 3550), with a packetizer and a depacketizer of its own (`RemoteControlGalileo/AV Capture/RtpSessionEx.cpp`).
This Dafny project models the parts that carry state or octets and proves what they are for. `dafny verify
dfyconfig.toml` checks all of it.

One module per component:

- `Prelude`: lists without one element, and steps of arithmetic.
- `Bytes`, `RtcpFormat`, `RtcpDecode`, `RtcpCompound`: octets in network order, the RTCP packet formats, what the
  packet classes accept and their accessors return, and the framing of compound packets.
- `RtcpAccounting`, `RtcpWriter`, `RtcpSerializer`, `RtcpBuilder`, `RtcpRuns`: `RTCPCompoundPacketBuilder` with its
  predicted sizes, the serializer that writes one flat buffer, and theorems about every sequence of calls.
- `SdesPacket`: the validating constructor of `RTCPSDESPacket` and its chunk and item cursor.
- `KeyHashTable`: `RTPKeyHashTable` on the heap, as a refinement of an insertion-ordered map with a cursor.
- `RtpTime`, `SourceStats`, `SourceData`, `Sources`: times, per-source sequence, probation and loss state, the
  reorder queue of a source, and the source table with its counters and timeouts.
- `Scheduler`: RTCP timing with reconsideration and reverse reconsideration.
- `PacketBuilder`: `RTCPPacketBuilder`, which spreads report blocks and own SDES items over compound packets.
- `Depacketizer`: `SendMultiPacket` and the reorder buffer of `RTPSessionEx`.
- `RtpPacket`: building and parsing one RTP data packet.

Objects the program updates in place are classes here. Each method is proved against a function of the old state,
or against a property stated outright; the theorems about whole runs are lemmas over these functions and invariants
every method keeps.

## What the proofs show about the code

- **First SDES source.** The size predictor answers 0 while there is no source, so the compound can exceed the
  maximum by 12 octets. That happens in exactly the runs in which the first source is added with fewer than 12
  octets left (`RtcpRuns.RunBounded`). Once the maximum is exceeded the unsigned subtraction of the two Start
  functions wraps around and lets a report through as well, for at most 40 octets in all. Both happen
  (`RtcpRuns.OverrunHappens`, `RtcpRuns.OverrunBy40`).
- **Hash table cursor.** Neither the constructor nor `Clear` sets the cursor. After `Clear` it is valid only if it
  was null before.
- **Active counter.** A known inactive source that is named as contributing source becomes active without being
  counted. The shortfall is exactly the number of such adoptions since the last timeout pass, and can make the
  counter negative (`Sources.ShortfallExample`).
- **Sequence extension.** A packet gets its true extended number if and only if it lies ahead within the same block of
  65536, or ahead by less than 2^15, or behind by at most 2^15 within the same block. A late packet from before a
  wrap is taken for a new one.
- **Fraction lost.** The octet is not defined for an interval without a packet (0/0, or a share of 256 256ths). The
  report builder meets that case: it reports a source a second time in the same packet exactly when no round of own
  items goes on, a source reported before stands behind the first due one, and there is room for the second blocks up
  to that one behind all due sources and all selected items (`PacketBuilder.RepeatsExactly`,
  `PacketBuilder.UndefinedExactly`, `PacketBuilder.ReportedTwice`).
- **Bandwidth.** The transmission interval is cut to whole microseconds. Members of one kind exceed their share of the
  RTCP bandwidth exactly when their packets take longer at that share than the cut minimum and not a whole number of
  microseconds (`Scheduler.ExcessExact`, `Scheduler.BandwidthExact`, `Scheduler.BandwidthExceeded`); never by more
  than the factor tmin / (tmin - 1 microsecond) (`Scheduler.BandwidthShared`).
- **Reverse reconsideration** keeps its times in order exactly when the new member count is not negative or the spans
  are too short to matter; then it moves the next time later exactly when that time has already passed
  (`Scheduler.ReverseExact`). The counter of active members can be negative, and then the spans are stretched, so that
  a transmission can follow the last one too soon (`Scheduler.ReverseFails`, `Scheduler.HurryExactly`,
  `Scheduler.DecreaseHurries`).
- **No 16-bit reduction.** The next sequence number of the depacketizer is never reduced modulo 65536. A stream that
  arrives in order is delivered exactly if and only if its numbers do not wrap (`Depacketizer.InOrderExact`).
- **Recovery after a loss.** A packet that inserts nothing makes the depacketizer drop the frame in progress and go on
  behind it exactly if it has the marker and is at least 5 ahead of the last inserted number or the 26th in a row
  (`Depacketizer.SkipsExactly`). From then on the frames of the stream behind it are delivered exactly
  (`Depacketizer.LossRecovered`).
- **Timestamp increments** of the packets of a frame add up to the increment of the frame exactly when the number of
  packets divides it.
- **Built RTP packets.** `BuildPacket` never sets the extension pointer, so `GetExtensionData` returns null for a
  built packet that has an extension; a parsed packet has it. `BuildPacket` refuses the payload types 72 and 73
  always, `ParseRawPacket` only together with the marker bit.

## Model

| member | source | states |
|---|---|---|
| `RtcpFormat.LostReadBack` | jrtp/rtcprrpacket.h:159-169 | the 24-bit cumulative loss reads back as the same signed number exactly for the values in [-2^23, 2^23); any other value comes back reduced to 24 bits |
| `RtcpFormat.PacketAligned` | jrtp/rtcpcompoundpacketbuilder.cpp:567-806 | every packet the builder can write fills whole 32-bit words |
| `Bytes.NetworkOrder` | jrtp/rtcpcompoundpacketbuilder.cpp:180-255 | numbers are stored with their most significant octet first, and read back so |
| `RtcpFormat.HeaderOctets` | jrtp/rtcpcompoundpacketbuilder.cpp:604-636 | version 2 without padding and the count in the first octet, the type number 200 to 204 in the second, the length in words less one behind it |
| `RtcpFormat.InfoOctets` | jrtp/rtcpsrpacket.h:142-173 | the five numbers of the sender info, at the offsets of RFC 3550 |
| `RtcpFormat.BlockOctets` | jrtp/rtcpcompoundpacketbuilder.cpp:243-258 | the fields of a report block at the offsets of RFC 3550, the loss in three octets |
| `RtcpFormat.BodyOctets` | jrtp/rtcpcompoundpacketbuilder.cpp:604-656 | where SSRC, sender info, blocks, name and data stand in SR, RR and APP packets, and the length of these |
| `RtcpFormat.TextOctets` | jrtp/rtcpcompoundpacketbuilder.cpp:676-709 | an item and a reason of five octets written out octet by octet, with their null octets |
| `RtcpDecode.BlockReadBack` | jrtp/rtcprrpacket.h:143-201 | each accessor of a stored report block returns the value that was put in, the loss count as its 24 bits say |
| `RtcpDecode.InfoReadBack` | jrtp/rtcpsrpacket.h:142-173 | the five sender info fields read back |
| `RtcpDecode.SenderReportReadBack` | jrtp/rtcpsrpacket.cpp:43-71 | a written SR is of known format: its length matches its block count, and SSRC, sender info and all blocks read back |
| `RtcpDecode.ReceiverReportReadBack` | jrtp/rtcprrpacket.cpp:43-71 | the same for a written RR |
| `RtcpDecode.ItemsReadBack` | jrtp/rtcpsdespacket.cpp:90-129 | the item scan finds exactly the items that were stored, in order, and stops at their null octet |
| `RtcpDecode.ChunksReadBack` | jrtp/rtcpsdespacket.cpp:82-139 | the chunk scan finds exactly the chunks that were stored and ends at the end of the packet |
| `RtcpDecode.ByeReadBack` | jrtp/rtcpbyepacket.cpp:44-76 | a written BYE is of known format, with its SSRCs and its reason, or with no reason when none was written |
| `RtcpDecode.AppReadBack` | jrtp/rtcpapppacket.cpp:45-70 | a written APP is of known format with its subtype, SSRC, name and data |
| `RtcpDecode.HeaderReadBack` | jrtp/rtcpcompoundpacket.cpp:116-159 | version, type, count and (when it fits 16 bits) length of a written packet read back, and its padding bit is clear |
| `RtcpDecode.PacketReadBack` | jrtp/rtcpcompoundpacket.cpp:157-186 | every packet the builder writes is decoded by the class for its type as a known format with the values put in |
| `RtcpDecode.UnpaddedExact` | jrtp/rtcprrpacket.cpp:50-61 | a padded packet has the unpadded length its last octet says exactly if that is positive, a multiple of four from the end, and no more than the packet |
| `RtcpDecode.KnownExactly` | jrtp/rtcpbyepacket.cpp:44-76 | which frames are of known format, by type number, count and unpadded length: SR and RR of exactly their blocks, BYE with a reason that fits, APP of 12 octets or more; every other type is unknown |
| `RtcpDecode.PaddedReadBack` | jrtp/rtcpcompoundpacket.cpp:157-186 | every packet with padding of any length and the padding bit set is decoded as the same packet without it |
| `RtcpCompound.FramesSound` | jrtp/rtcpcompoundpacket.cpp:105-198 | what the parser accepts is taken apart without remainder into frames that describe themselves, a report in front, padding in the last one only |
| `RtcpCompound.FramesComplete` | jrtp/rtcpcompoundpacket.cpp:105-198 | every sequence of such frames is accepted and taken apart into itself |
| `RtcpCompound.FramesExact` | jrtp/rtcpcompoundpacket.cpp:105-198 | the accepted byte strings are exactly the compound packets, and the parse is unique |
| `RtcpCompound.ParseData` | jrtp/rtcpcompoundpacket.cpp:105-198 | the loop that advances through the buffer computes exactly these frames, or refuses |
| `RtcpCompound.ReportPacketsDivide` | jrtp/rtcpcompoundpacketbuilder.cpp:595-656 | report blocks are divided without loss, in order, 31 to a packet; only the first packet may be an SR and all carry the reporter |
| `RtcpCompound.SdesPacketsDivide` | jrtp/rtcpcompoundpacketbuilder.cpp:658-730 | SDES chunks are divided without loss, in order, 31 to a packet, no packet empty |
| `RtcpCompound.ReportSizeExact` | jrtp/rtcpcompoundpacketbuilder.h:174-212 | the predicted size of a report is the number of octets its packets take |
| `RtcpCompound.SdesSizeExact` | jrtp/rtcpcompoundpacketbuilder.h:305-323 | the predicted size of the source descriptions is the number of octets their packets take |
| `RtcpCompound.WireSplit` | jrtp/rtcpcompoundpacketbuilder.cpp:577-806 | the compound is the reports, then SDES, then APP, then BYE packets, nothing between them |
| `RtcpCompound.CompoundRoundTrip` | jrtp/rtcpcompoundpacketbuilder.cpp:567-810 | the parser takes what was written apart into exactly the packets intended if and only if each of them fits the 16-bit length field; then each is of known format and reads back |
| `RtcpCompound.SmallCompoundRoundTrip` | jrtp/rtcpcompoundpacket.cpp:105-198 | nothing is lost in a compound of at most 2^18 octets |
| `RtcpAccounting.SizeSplit` | jrtp/rtcpcompoundpacketbuilder.cpp:577-581 | the length EndBuild adds up from four parts is the length of the whole |
| `RtcpAccounting.HeaderGrowth` | jrtp/rtcpcompoundpacketbuilder.cpp:154-219 | starting a report takes 28 or 8 octets |
| `RtcpAccounting.FirstSource` | jrtp/rtcpcompoundpacketbuilder.h:346-368 | the first SDES source takes 12 octets, although the predictor answers 0 for it |
| `RtcpAccounting.ExtraSource` | jrtp/rtcpcompoundpacketbuilder.h:346-368 | one more empty chunk takes 8 octets, and a packet header when a new packet has to begin |
| `RtcpAccounting.ByeSize` | jrtp/rtcpcompoundpacketbuilder.cpp:403-417 | the size of a BYE with its padded reason |
| `RtcpAccounting.ItemOctets` | jrtp/rtcpcompoundpacketbuilder.cpp:283-346 | the seven item types have the numbers 1 to 7, no other type has one, and a private item is 8 with the length of its prefix in front |
| `RtcpRuns.AcceptedExactly` | jrtp/rtcpcompoundpacketbuilder.cpp:154-523 | which calls are accepted, for every content: a report or a block that fits, a first source when the compound fits without it, the seven item types of a current source, PRIV items of 254 octets, 31 SSRCs, subtypes to 31, APP data of whole words that fits the length field |
| `RtcpRuns.RefusedExactly` | jrtp/rtcpcompoundpacketbuilder.cpp:154-523 | and what every other call is refused for: the first thing that is wrong with it |
| `RtcpRuns.RunHolds` | jrtp/rtcpcompoundpacketbuilder.cpp:154-523 | after any run the builder holds exactly what the accepted calls named: the one report header, blocks, APP and BYE packets in order, and each source with the items added between it and the next |
| `RtcpRuns.StepGrows` | jrtp/rtcpcompoundpacketbuilder.cpp:154-523 | no accepted call makes the compound smaller, and each leaves packets the format has room for |
| `RtcpRuns.StepBounded` | jrtp/rtcpcompoundpacketbuilder.cpp:154-523 | a single call takes the compound over the maximum exactly if it is a first SDES source with fewer than 12 octets left |
| `RtcpRuns.RunBounded` | jrtp/rtcpcompoundpacketbuilder.cpp:154-523 | over any sequence of calls the compound exceeds the maximum exactly in the runs in which the first source was added with fewer than 12 octets left |
| `RtcpRuns.RunNearlyBounded` | jrtp/rtcpcompoundpacketbuilder.cpp:154-219 | even then by no more than 12 octets, or 40 when a report follows |
| `RtcpRuns.OverrunHappens` | jrtp/rtcpcompoundpacketbuilder.cpp:261-281 | such a run exists: an APP packet that fills a maximum of 600 and a source behind it, 612 octets |
| `RtcpRuns.OverrunBy40` | jrtp/rtcpcompoundpacketbuilder.cpp:154-219 | and with a report after that, which the wrapped subtraction lets through, 640 octets |
| `RtcpRuns.RunRoundTrip` | jrtp/rtcpcompoundpacketbuilder.cpp:567-810 | for any sequence of calls with a maximum up to 2^18 - 40 that starts a report, the octets parse into exactly the intended packets, with every value that was put in |
| `RtcpWriter.WriteReport` | jrtp/rtcpcompoundpacketbuilder.cpp:595-656 | one turn of the report loop writes one SR or RR packet and nothing else |
| `RtcpWriter.WriteSdes` | jrtp/rtcpcompoundpacketbuilder.cpp:665-729 | one turn of the SDES loop writes one SDES packet with its padded chunks and nothing else |
| `RtcpSerializer.WriteReports` | jrtp/rtcpcompoundpacketbuilder.cpp:595-656 | the report loop writes exactly the report packets, one after the other, and records their frames |
| `RtcpSerializer.WriteSources` | jrtp/rtcpcompoundpacketbuilder.cpp:658-730 | the SDES loop writes exactly the SDES packets |
| `RtcpSerializer.WriteRaw` | jrtp/rtcpcompoundpacketbuilder.cpp:732-803 | the APP and BYE buffers are copied in their order |
| `RtcpSerializer.WriteAll` | jrtp/rtcpcompoundpacketbuilder.cpp:577-806 | the whole buffer up to the predicted length is written, nothing beyond it, and the packet list has the frame of each packet |
| `RtcpBuilder.CompoundPacketBuilder.constructor` | jrtp/rtcpcompoundpacketbuilder.cpp:52-63 | a builder that builds nothing yet |
| `RtcpBuilder.CompoundPacketBuilder.InitBuild` | jrtp/rtcpcompoundpacketbuilder.cpp:108-129 | refuses a second build and maxima below 600, and begins an empty compound otherwise |
| `RtcpBuilder.CompoundPacketBuilder.InitBuildExternal` | jrtp/rtcpcompoundpacketbuilder.cpp:131-152 | the same in a buffer of the caller |
| `RtcpBuilder.CompoundPacketBuilder.SdesNeededBytes` | jrtp/rtcpcompoundpacketbuilder.h:305-323 | the octets the source descriptions will take, computed by the loop over the sources |
| `RtcpBuilder.CompoundPacketBuilder.SdesNeededBytesWithExtraItem` | jrtp/rtcpcompoundpacketbuilder.h:325-344 | the octets they will take after the item has been added |
| `RtcpBuilder.CompoundPacketBuilder.SdesNeededBytesWithExtraSource` | jrtp/rtcpcompoundpacketbuilder.h:346-368 | the octets they will take after the source has been added; 0 while there is none |
| `RtcpBuilder.CompoundPacketBuilder.StartSenderReport` | jrtp/rtcpcompoundpacketbuilder.cpp:154-190 | all error cases, the new content, and 28 octets more; the subtraction wraps once the maximum is exceeded |
| `RtcpBuilder.CompoundPacketBuilder.StartReceiverReport` | jrtp/rtcpcompoundpacketbuilder.cpp:192-219 | the same with 8 octets |
| `RtcpBuilder.CompoundPacketBuilder.AddReportBlock` | jrtp/rtcpcompoundpacketbuilder.cpp:221-259 | accepted exactly if the compound with the block fits |
| `RtcpBuilder.CompoundPacketBuilder.AddSDESSource` | jrtp/rtcpcompoundpacketbuilder.cpp:261-281 | a first source is accepted when the compound without it fits, any other when the compound with it fits |
| `RtcpBuilder.CompoundPacketBuilder.AddSDESNormalItem` | jrtp/rtcpcompoundpacketbuilder.cpp:283-346 | all error cases in order; accepted exactly for item types 1 to 7 of the current source that fit |
| `RtcpBuilder.CompoundPacketBuilder.AddSDESPrivateItem` | jrtp/rtcpcompoundpacketbuilder.cpp:349-392 | the same for prefix and value of at most 254 octets together |
| `RtcpBuilder.CompoundPacketBuilder.AddBYEPacket` | jrtp/rtcpcompoundpacketbuilder.cpp:395-465 | at most 31 SSRCs, reason padded with zeros, accepted exactly if it fits |
| `RtcpBuilder.CompoundPacketBuilder.AddAPPPacket` | jrtp/rtcpcompoundpacketbuilder.cpp:467-522 | subtype, data length and size are checked in this order; accepted exactly if it fits |
| `RtcpBuilder.ByeSizes` | jrtp/rtcpcompoundpacketbuilder.cpp:403-417 | the predicted size of a BYE and the zeros behind its reason |
| `RtcpBuilder.ByeBuffer` | jrtp/rtcpcompoundpacketbuilder.cpp:428-458 | the octets of the BYE packet that was asked for, filled in front to back |
| `RtcpBuilder.CompoundPacketBuilder.EndBuild` | jrtp/rtcpcompoundpacketbuilder.cpp:567-810 | writes exactly the predicted number of octets, leaves the rest of an external buffer alone, and leaves the builder empty |
| `RtcpBuilder.BuiltReadsBack` | jrtp/rtcpcompoundpacketbuilder.cpp:567-810 | after any run of calls, parsing the buffer of EndBuild gives the packet list it has kept, with every value that was put in |
| `RtcpBuilder.Perform` | jrtp/rtcpcompoundpacketbuilder.cpp:154-523 | each call on a builder does what the step of the run says |
| `RtcpBuilder.BuildAll` | jrtp/rtcpcompoundpacketbuilder.cpp:108-810 | a builder that is given any sequence of calls and ends the build holds the compound of that run, and parsing its buffer gives every value that was put in; without a report it refuses |
| `SdesPacket.ItemsSound` | jrtp/rtcpsdespacket.cpp:90-129 | items the scan accepts are stored there octet for octet, null octet included |
| `SdesPacket.ChunkSound` | jrtp/rtcpsdespacket.cpp:82-139 | an accepted chunk is an SSRC, its items, a null octet and padding up to a word |
| `SdesPacket.ChunkComplete` | jrtp/rtcpsdespacket.cpp:82-139 | every such chunk is accepted |
| `SdesPacket.ChunksExact` | jrtp/rtcpsdespacket.cpp:82-139 | the scan accepts a list of chunks exactly when the octets are these chunks and nothing else |
| `SdesPacket.AcceptsExactly` | jrtp/rtcpsdespacket.cpp:44-143 | the constructor knows the format of exactly the frames whose unpadded body is as many chunks as the header counts |
| `SdesPacket.ScanItemList` | jrtp/rtcpsdespacket.cpp:84-129 | the inner loop finds the end of the chunk, or that the octets do not hold it |
| `SdesPacket.ValidateChunks` | jrtp/rtcpsdespacket.cpp:82-139 | the outer loop accepts exactly the chunk lists |
| `SdesPacket.Validate` | jrtp/rtcpsdespacket.cpp:44-143 | the constructor body decides exactly whether the format is known |
| `SdesPacket.PrivReadBack` | jrtp/rtcpsdespacket.h:304-379 | the four PRIV accessors return a prefix and a value exactly when AddSDESPrivateItem would have written the item from them |
| `SdesPacket.TypeOfId` | jrtp/rtcpsdespacket.h:246-277 | the type switch inverts the identifiers the builder writes |
| `SdesPacket.ItemAt` | jrtp/rtcpsdespacket.h:225-244 | the header under the cursor is the next item, and stepping over it stays inside the validated octets |
| `SdesPacket.ChunkEnds` | jrtp/rtcpsdespacket.h:184-200 | behind the null octet and its padding the next chunk begins |
| `SdesPacket.SkipItems` | jrtp/rtcpsdespacket.h:184-193 | the walk over the item headers ends at the null octet and reads validated octets only |
| `SdesPacket.CursorNextChunk` | jrtp/rtcpsdespacket.h:175-200 | the position GotoNextChunk computes is that of the next chunk |
| `SdesPacket.CursorItem` | jrtp/rtcpsdespacket.h:212-302 | what the accessors read at the cursor is the item with the number of the cursor |
| `SdesPacket.SDESPacket.constructor` | jrtp/rtcpsdespacket.cpp:44-143 | no current chunk; the known-format flag is exact |
| `SdesPacket.SDESPacket.GetChunkCount` | jrtp/rtcpsdespacket.h:154-160 | the number of chunks of the packet |
| `SdesPacket.SDESPacket.GotoFirstChunk` | jrtp/rtcpsdespacket.h:162-173 | goes to chunk one, item one, if there is a chunk |
| `SdesPacket.SDESPacket.GotoNextChunk` | jrtp/rtcpsdespacket.h:175-200 | goes to the first item of the next chunk exactly if there is one |
| `SdesPacket.SDESPacket.GetChunkSSRC` | jrtp/rtcpsdespacket.h:202-210 | the SSRC of the current chunk |
| `SdesPacket.SDESPacket.GotoFirstItem` | jrtp/rtcpsdespacket.h:212-223 | goes back to the first item; true exactly if the chunk has one |
| `SdesPacket.SDESPacket.GotoNextItem` | jrtp/rtcpsdespacket.h:225-244 | goes to the next item exactly if there is one |
| `SdesPacket.SDESPacket.GetItemType` | jrtp/rtcpsdespacket.h:246-277 | the type of the current item |
| `SdesPacket.SDESPacket.GetItemData` | jrtp/rtcpsdespacket.h:279-302 | the octets of the current item |
| `SdesPacket.SDESPacket.GetPRIV` | jrtp/rtcpsdespacket.h:304-379 | prefix and value of the current item when it is a well-formed PRIV item |
| `SdesPacket.SDESPacket.Visit` | jrtp/rtpsources.cpp:447-491 | the walk of the source table over an SDES packet visits every chunk exactly once, in order, with exactly its items |
| `SdesPacket.SDESPacket.VisitItems` | jrtp/rtpsources.cpp:457-481 | the inner walk visits exactly the items of the current chunk |
| `KeyHashTable.ListAppend` | jrtp/rtpkeyhashtable.h:288-301 | appending keeps the order list doubly linked |
| `KeyHashTable.ListUnlink` | jrtp/rtpkeyhashtable.h:143-162 | unlinking any element keeps the order list doubly linked and finds its successor |
| `KeyHashTable.BucketPush` | jrtp/rtpkeyhashtable.h:282-286 | pushing in front keeps a bucket doubly linked |
| `KeyHashTable.BucketUnlink` | jrtp/rtpkeyhashtable.h:125-141 | unlinking any element keeps a bucket doubly linked |
| `KeyHashTable.KeysAdded` | jrtp/rtpkeyhashtable.h:254-302 | list and buckets keep the same elements, with unique keys, each in the bucket of its key |
| `KeyHashTable.KeysRemoved` | jrtp/rtpkeyhashtable.h:117-171 | the same for a removal |
| `KeyHashTable.EntriesRemoved` | jrtp/rtpkeyhashtable.h:117-171 | the entries without the element, and a cursor that moves on to the successor |
| `KeyHashTable.RTPKeyHashTable.constructor` | jrtp/rtpkeyhashtable.h:105-114 | an empty table; nothing is promised about the cursor, which is not initialised |
| `KeyHashTable.RTPKeyHashTable.Find` | jrtp/rtpkeyhashtable.h:183-191 | the walk along a bucket finds an element exactly if the key is in the table |
| `KeyHashTable.RTPKeyHashTable.HasElement` | jrtp/rtpkeyhashtable.h:197-218 | true exactly for keys in the table with a valid index |
| `KeyHashTable.RTPKeyHashTable.AddElement` | jrtp/rtpkeyhashtable.h:253-302 | the ordered map gains the entry at its end, or the error says why not; the cursor stays |
| `KeyHashTable.RTPKeyHashTable.GotoFirstElement` | jrtp/rtpkeyhashtable.h:59 | the cursor goes to the oldest entry |
| `KeyHashTable.RTPKeyHashTable.GotoLastElement` | jrtp/rtpkeyhashtable.h:60 | the cursor goes to the newest entry |
| `KeyHashTable.RTPKeyHashTable.GotoNextElement` | jrtp/rtpkeyhashtable.h:220-225 | the cursor goes to the next entry in insertion order, or is lost |
| `KeyHashTable.RTPKeyHashTable.GotoPreviousElement` | jrtp/rtpkeyhashtable.h:227-232 | the cursor goes to the previous entry, or is lost |
| `KeyHashTable.RTPKeyHashTable.HasCurrentElement` | jrtp/rtpkeyhashtable.h:61 | true exactly when the cursor is on an entry |
| `KeyHashTable.RTPKeyHashTable.GetCurrent` | jrtp/rtpkeyhashtable.h:63-64 | key and element at the cursor |
| `KeyHashTable.RTPKeyHashTable.GotoElement` | jrtp/rtpkeyhashtable.h:173-195 | the cursor goes to the entry of the key, or is lost; unchanged for an invalid index |
| `KeyHashTable.RTPKeyHashTable.DeleteCurrentElement` | jrtp/rtpkeyhashtable.h:117-171 | the entry at the cursor leaves the ordered map and the cursor moves to its successor in insertion order |
| `KeyHashTable.RTPKeyHashTable.DeleteElement` | jrtp/rtpkeyhashtable.h:304-313 | the entry of the key leaves the map, with all error cases |
| `KeyHashTable.RTPKeyHashTable.UniqueKeys` | jrtp/rtpkeyhashtable.h:254-302 | no two entries have the same key |
| `KeyHashTable.RTPKeyHashTable.Clear` | jrtp/rtpkeyhashtable.h:234-251 | the table is empty, but the cursor is valid afterwards only if it was null before |
| `KeyHashTable.SparedExact` | jrtp/rtpsources.cpp:1008-1048 | such a loop leaves each entry its condition spares as often as it was there, and no other |
| `KeyHashTable.SparedAppend` | jrtp/rtpsources.cpp:1008-1048 | and in the order they had |
| `KeyHashTable.RTPKeyHashTable.DeleteWhere` | jrtp/rtpsources.cpp:1008-1048 | the delete-while-iterating loop of the timeouts leaves exactly the entries its condition spares, in order |
| `KeyHashTable.RTPKeyHashTable.DeleteOrGoOn` | jrtp/rtpsources.cpp:1009-1046 | one turn of that loop keeps what is done and what remains |
| `RtpTime.ArithmeticExact` | jrtp/rtptimeutilities.h:241-263 | addition and subtraction are exact modulo the wrap of the seconds and keep microseconds normalised |
| `RtpTime.ComparisonExact` | jrtp/rtptimeutilities.h:278-320 | the comparisons order times by their microseconds |
| `RtpTime.FromDoubleExact` | jrtp/rtptimeutilities.h:131-138 | a time made from seconds has the whole microseconds of that number |
| `RtpTime.DoubleReadBack` | jrtp/rtptimeutilities.h:112-138 | converting to seconds and back loses nothing |
| `SourceStats.ProbationState` | jrtp/rtpsourcedata.cpp:86-133 | for every input stream the countdown says how far the last packets follow one another |
| `SourceStats.AcceptedExactly` | jrtp/rtpsourcedata.cpp:86-133 | with probation a packet is accepted exactly when it, or one before it, completes three consecutive numbers modulo 65536 |
| `SourceStats.CyclesKept` | jrtp/rtpsourcedata.cpp:48-63 | the maximum is always the cycle count plus its low 16 bits, and decreases only where the 32-bit count wraps |
| `SourceStats.ExtensionExact` | jrtp/rtpsourcedata.cpp:155-179 | a packet gets its true extended index if and only if it is ahead within the same 65536 block, or ahead by less than 2^15, or behind by at most 2^15 within the same block |
| `SourceStats.ExtensionTracks` | jrtp/rtpsourcedata.cpp:155-179 | after such a packet the state stands for the new maximum |
| `SourceStats.StreamExact` | jrtp/rtpsourcedata.cpp:155-179 | for any arrival order that stays near its maximum every packet gets its true extended index |
| `SourceStats.StreamBegins` | jrtp/rtpsourcedata.cpp:48-63 | the first accepted packet sets the origin of the numbering |
| `SourceStats.FirstAccepted` | jrtp/rtpsourcedata.cpp:48-68 | the first accepted packet is its own maximum, and base and saved number are the number before it |
| `SourceStats.ExpectedExact` | jrtp/rtpsourcedata.h:117 | for any arrivals that stay near their maximum, with intervals ended anywhere, what all intervals expected is m - f + 1 modulo 2^32, from first true index f to highest m; that is also the distance from base to maximum, and what they received is the packets that arrived |
| `SourceStats.MissingCounted` | jrtp/rtcppacketbuilder.cpp:385-389 | when no packet arrives twice, m - f + 1 less the packets received is the number of true indices between f and m that never arrived |
| `SourceStats.LossConserved` | jrtp/rtpsourcedata.h:117 | across any number of intervals the expectations add up to the distance from base to maximum and the receipts to the packets received |
| `SourceStats.FractionLostExact` | jrtp/rtcppacketbuilder.cpp:369-383 | the fraction octet is defined exactly for intervals with a packet, and is the lost share in 256ths rounded down, 0 with duplicates |
| `SourceStats.TimestampDifferenceExact` | jrtp/rtpsourcedata.cpp:202-236 | a true timestamp change below 2^28 in either direction is found, across a wrap |
| `SourceStats.SmoothedBounds` | jrtp/rtpsourcedata.cpp:238-244 | the jitter estimate moves towards the new deviation and never past it |
| `SourceStats.SmoothedExact` | jrtp/rtpsourcedata.cpp:238-244 | the new deviation has the weight of one sixteenth |
| `SourceStats.RTPSourceStats.constructor` | jrtp/rtpsourcedata.h:146-163 | no data yet, all counts zero |
| `SourceStats.RTPSourceStats.ProcessPacket` | jrtp/rtpsourcedata.cpp:78-259 | all sequence, probation, jitter and time fields after one packet |
| `SourceStats.RTPSourceStats.AcceptSequence` | jrtp/rtpsourcedata.cpp:48-68 | the sequence fields after the first accepted packet |
| `SourceStats.RTPSourceStats.ExtendSequence` | jrtp/rtpsourcedata.cpp:151-179 | the sequence fields and the extended number of a later packet |
| `SourceStats.RTPSourceStats.UpdateJitter` | jrtp/rtpsourcedata.cpp:183-252 | the smoothed deviation, and its whole part as reported jitter |
| `SourceStats.RTPSourceStats.StartNewInterval` | jrtp/rtpsourcedata.h:117 | a new interval begins at the current maximum |
| `SourceData.RankUnique` | jrtp/rtpinternalsourcedata.cpp:135-172 | a place with smaller numbers before it and none behind it is the only one |
| `SourceData.EnqueueKeeps` | jrtp/rtpinternalsourcedata.cpp:111-175 | the queue stays strictly increasing, holds at most 32 packets while unvalidated, and `stored` is true exactly when the packet entered it |
| `SourceData.EnqueueExact` | jrtp/rtpinternalsourcedata.cpp:111-175 | what is queued afterwards: the packets queued before, without the first of 32 while unvalidated, and the new one exactly if its number is not among them; in increasing order |
| `SourceData.RoomDropsMinimum` | jrtp/rtpinternalsourcedata.cpp:120-131 | what makes room is the packet with the smallest number |
| `SourceData.Accounted` | jrtp/rtpinternalsourcedata.cpp:111-175 | nothing else disappears: queue and packet are what is queued afterwards and what was evicted |
| `SourceData.LedgerQueued` | jrtp/rtpinternalsourcedata.cpp:111-175 | over a whole run every packet that entered is queued, delivered or evicted: kept by a new packet |
| `SourceData.LedgerDelivered` | jrtp/rtpsourcedata.h:453-465 | and kept by a delivery |
| `SourceData.FirstValueStays` | jrtp/rtpinternalsourcedata.cpp:177-248 | whatever a source sends later, CNAME, NAME, EMAIL and TOOL keep their first non-empty value |
| `SourceData.ItemsExact` | jrtp/rtpinternalsourcedata.cpp:177-248 | after any items CNAME, NAME, EMAIL and TOOL have their first non-empty text, PHONE, LOC and NOTE the last text received, and nothing else is stored |
| `SourceData.FirstThree` | jrtp/rtpinternalsourcedata.cpp:56-109 | a new source that receives three consecutive packets keeps all three, or only the third when those on probation are discarded; it delivers from the first packet without probation, from the third with it |
| `SourceData.FindPlace` | jrtp/rtpinternalsourcedata.cpp:135-172 | the backward search ends and finds the place of the number, or that it is there already |
| `SourceData.Place` | jrtp/rtpinternalsourcedata.cpp:111-175 | the queue after insertion |
| `SourceData.RTPInternalSourceData.constructor` | jrtp/rtpinternalsourcedata.cpp:44-49 | an empty, unvalidated source |
| `SourceData.RTPInternalSourceData.ProcessRTPPacket` | jrtp/rtpinternalsourcedata.cpp:56-175 | judgement, validation, sender flag, queue and evictions after one packet, for each probation policy |
| `SourceData.RTPInternalSourceData.Judge` | jrtp/rtpinternalsourcedata.cpp:56-109 | the statistics judge the packet, and acceptance validates the source |
| `SourceData.RTPInternalSourceData.JudgedExclusively` | jrtp/rtpinternalsourcedata.cpp:68-109 | a packet is accepted or on probation, never both, and never on probation once validated |
| `SourceData.RTPInternalSourceData.GetNextPacket` | jrtp/rtpsourcedata.h:453-465 | only a validated source delivers, smallest number first |
| `SourceData.RTPInternalSourceData.ProcessSDESItem` | jrtp/rtpinternalsourcedata.cpp:177-248 | the stored items, validation by the first CNAME, and the collision flag, which is exact |
| `SourceData.RTPInternalSourceData.ProcessBYEPacket` | jrtp/rtpinternalsourcedata.cpp:263-281 | the source has left at that time for that reason |
| `Sources.CollideKeeps` | jrtp/rtpsources.cpp:1330-1414 | checking for a collision settles an address and changes nothing else |
| `Sources.CollideExact` | jrtp/rtpsources.cpp:1330-1414 | a packet collides exactly if the address of its kind is known and differs, or is unknown while the other address is known and on another host; otherwise the address is settled |
| `Sources.CollideStays` | jrtp/rtpsources.cpp:1330-1414 | from then on exactly the packets from another address collide |
| `Sources.NewIsBlank` | jrtp/rtpsourcedata.cpp:261-277 | a new entry has heard nothing |
| `Sources.ObtainedAt` | jrtp/rtpsources.cpp:798-828 | an entry for the SSRC is in the table afterwards, new or as it was |
| `Sources.AdmittedExact` | jrtp/rtpsources.cpp:289-332 | the entry a packet goes to: a new blank one at its address, or the known one unless it collides |
| `Sources.CsrcExact` | jrtp/rtpsources.cpp:333-356 | a contributing source is appended as validated blank entry, or marked where it is; a collision changes nothing |
| `Sources.PacketEffect` | jrtp/rtpinternalsourcedata.cpp:56-109 | what an RTP packet changes in its entry: sequence state and last message always; validation, sender flag and last RTP time when it is accepted |
| `Sources.ItemEffect` | jrtp/rtpinternalsourcedata.cpp:177-248 | what an SDES item changes in its entry: the item, the last message, validation by a first CNAME and the time of a NOTE |
| `Sources.ByeEffect` | jrtp/rtpinternalsourcedata.cpp:263-281 | a BYE is recorded with its time, and the entry is no longer active |
| `Sources.CsrcEffect` | jrtp/rtpsources.cpp:340-356 | a contributing source is active unless it has sent a BYE |
| `Sources.ChangesCommute` | jrtp/rtpsources.cpp:881-1129 | what one timeout changes never matters to another |
| `Sources.SweepsCommute` | jrtp/rtpsources.cpp:881-1129 | two timeouts leave the same table in either order |
| `Sources.OrderIrrelevant` | jrtp/rtpsources.cpp:881-1129 | the table after any sequence of timeouts does not depend on their order |
| `Sources.PassExact` | jrtp/rtpsources.cpp:881-1129 | whom each single timeout removes and what it changes, in microseconds: all entries but our own that were last heard, or whose BYE came, before the check time; the sender flag and the NOTE exactly of those whose last RTP packet or NOTE is from before it; all others stay as they are, in order |
| `Sources.TimeoutsExact` | jrtp/rtpsources.cpp:1131-1260 | the same for MultipleTimeouts: an entry stays exactly if it is our own, or was last heard not before the general check time and has no BYE from before the BYE check time; what is left loses sender flag and NOTE exactly by age |
| `Sources.FusionExact` | jrtp/rtpsources.cpp:1131-1260 | the fused timeouts leave, entry by entry, what the four timeouts leave in any order |
| `Sources.SweepKeyed` | jrtp/rtpsources.cpp:881-1129 | a timeout invents and duplicates no entry and keeps the own entry the one it names |
| `Sources.SweepSparesOwn` | jrtp/rtpsources.cpp:1013-1028 | the own entry is never removed |
| `Sources.ShortfallExample` | jrtp/rtpsources.cpp:351-355 | a source known from RTCP and named as contributing source is active but not counted; its BYE takes the counter to -1 |
| `Sources.RTPSources.constructor` | jrtp/rtpsources.cpp:57-66 | an empty table whose counters are exact |
| `Sources.RTPSources.Clear` | jrtp/rtpsources.cpp:73-94 | the same after clearing |
| `Sources.RTPSources.CreateOwnSSRC` | jrtp/rtpsources.cpp:96-121 | one own entry at most, appended, validated and counted |
| `Sources.RTPSources.DeleteOwnSSRC` | jrtp/rtpsources.cpp:123-144 | the own entry leaves the table and the counters |
| `Sources.RTPSources.SentRTPPacket` | jrtp/rtpsources.cpp:146-156 | the own entry becomes a sender, counted once |
| `Sources.RTPSources.Obtain` | jrtp/rtpsources.cpp:798-828 | finds the entry or appends a new one, which is counted |
| `Sources.RTPSources.ProcessRTPPacket` | jrtp/rtpsources.cpp:289-360 | table, counters and uncounted adoptions after one packet with any contributing sources; a collision leaves all as it was |
| `Sources.RTPSources.ProcessCSRCs` | jrtp/rtpsources.cpp:333-356 | each contributing source is created or adopted |
| `Sources.RTPSources.ProcessCSRC` | jrtp/rtpsources.cpp:340-356 | a known inactive entry becomes active without being counted: exactly these make up the shortfall |
| `Sources.RTPSources.ObtainForRTCP` | jrtp/rtpsources.cpp:830-857 | the entry of an RTCP item, none on a collision |
| `Sources.RTPSources.UpdateReceiveTime` | jrtp/rtpsources.cpp:859-879 | the time of the last message of the entry |
| `Sources.RTPSources.ProcessSDESNormalItem` | jrtp/rtpsources.cpp:689-743 | the item of the entry; a first CNAME makes it active and counted |
| `Sources.RTPSources.ProcessBYE` | jrtp/rtpsources.cpp:768-796 | the entry has left and is no longer counted; a BYE for the own SSRC is ignored |
| `Sources.RTPSources.SenderTimeout` | jrtp/rtpsources.cpp:945-998 | one sweep; afterwards all three counters are exact |
| `Sources.RTPSources.BYETimeout` | jrtp/rtpsources.cpp:1000-1071 | one sweep that deletes; afterwards all three counters are exact |
| `Sources.RTPSources.Timeout` | jrtp/rtpsources.cpp:881-943 | one sweep that deletes; afterwards all three counters are exact |
| `Sources.RTPSources.NoteTimeout` | jrtp/rtpsources.cpp:1073-1129 | one sweep; afterwards all three counters are exact |
| `Sources.RTPSources.MultipleTimeouts` | jrtp/rtpsources.cpp:1131-1260 | the table of the four sweeps one after the other, in one loop that looks at each entry once; all three counters are exact |
| `Sources.RTPSources.CheckEntry` | jrtp/rtpsources.cpp:1148-1237 | what the fused loop body does with one entry is what the four timeouts do |
| `Scheduler.IntervalBounds` | jrtp/rtcpscheduler.cpp:300-316 | for every member count no random draw gives an interval below half the minimum over 1.21828, or above the largest draw |
| `Scheduler.DeterministicExact` | jrtp/rtcpscheduler.cpp:250-298 | the interval before the draw: what the packets of all members take at the bandwidth, or those of the own kind at its share when the senders are no more than theirs, or the minimum, up to the microsecond it is cut at |
| `Scheduler.DrawExact` | jrtp/rtcpscheduler.cpp:300-316 | for every draw r the interval is that time (r + 0.5) / 1.21828, within one microsecond from below |
| `Scheduler.DrawSpreads` | jrtp/rtcpscheduler.cpp:300-316 | a greater draw never gives a shorter interval, and the greatest gives three times what the least does, within two microseconds |
| `Scheduler.BandwidthShared` | jrtp/rtcpscheduler.cpp:250-298 | if all members use the interval CalculateDeterministicInterval returns, with one average size, their total rate exceeds the RTCP bandwidth by no more than the factor tmin / (tmin - 1 microsecond), in both branches |
| `Scheduler.BandwidthExact` | jrtp/rtcpscheduler.cpp:250-298 | with many senders the total rate keeps within the bandwidth if and only if the cut is harmless: the packets take a whole number of microseconds at their share, or no longer than the minimum in whole microseconds; with few senders it does if and only if what one kind sends beyond its share is no more than what the other leaves, so always if the cut is harmless for both kinds and never if it is for neither |
| `Scheduler.CutExact` | jrtp/rtcpscheduler.cpp:279-297 | the returned interval is the time the packets take, or the minimum if that is more, in whole microseconds; it is too short for the packets exactly when that time is not whole and above the cut minimum |
| `Scheduler.ExcessExact` | jrtp/rtcpscheduler.cpp:279-297 | the members of one kind send more than their share exactly when the cut is not harmless for them |
| `Scheduler.BandwidthExceeded` | jrtp/rtcpscheduler.cpp:297 | the cut can take the total over the bandwidth: one sender and one receiver at 6 octets a second, both with 3.333333 seconds |
| `Scheduler.ScaledExact` | jrtp/rtcpscheduler.cpp:340-355 | a span is scaled to at most itself, whatever an undefined conversion gives, if and only if the new count is not negative or the span is too short for it to matter |
| `Scheduler.ScaledShare` | jrtp/rtcpscheduler.cpp:318-357 | what a span is scaled to when members have left: its share active / pmembers, rounded down |
| `Scheduler.ReverseExact` | jrtp/rtcpscheduler.cpp:318-357 | reverse reconsideration keeps prev <= now <= next and moves neither prev back nor a coming next time away, if and only if both spans are harmless in that sense; then next moves later exactly when it has already passed |
| `Scheduler.PrevExact` | jrtp/rtcpscheduler.cpp:349-355 | the previous time stays between its old value and the clock, whatever an undefined conversion gives, if and only if the span since the last transmission is harmless |
| `Scheduler.ReverseFails` | jrtp/rtcpscheduler.cpp:340-355 | the failing inputs: from -1 to -2 members both spans double, from 0 to -1 the converted value is undefined |
| `Scheduler.WaitBound` | jrtp/rtcpscheduler.cpp:300-316 | no draw gives a wait below the least one of the state, BYE backoff included |
| `Scheduler.RunningKept` | jrtp/rtcpscheduler.cpp:111-420 | every event of a run, BYE included, keeps the timer invariant for any integer counts, if a reverse reconsideration does not stretch the time since the last transmission; a transmission comes at least the least wait after the last one |
| `Scheduler.TransmissionsSpaced` | jrtp/rtcpscheduler.cpp:181-236 | in every such run any two transmissions are at least the least wait of the later one apart: half the minimum interval over 1.21828, or the gap of the BYE backoff |
| `Scheduler.CountsSteady` | jrtp/rtcpscheduler.cpp:318-357 | a run is such a run if no member decrease reports a negative count |
| `Scheduler.DecreaseHurries` | jrtp/rtcpscheduler.cpp:318-357 | with negative counts it can fail: a decrease from -1 to -2 members makes IsTime say true half a second after the last transmission where the least wait is a second |
| `Scheduler.HurryExactly` | jrtp/rtcpscheduler.cpp:181-357 | when the next time has come but the least wait since the last transmission is not over, a decrease can let IsTime say true too early if and only if the time since that transmission is not harmless |
| `Scheduler.AgainIsFalse` | jrtp/rtcpscheduler.cpp:181-236 | a call within the gap after a transmission changes nothing and says false |
| `Scheduler.EventuallyTrue` | jrtp/rtcpscheduler.cpp:181-236 | once the next time has come, a call later than the longest interval after the previous one says true |
| `Scheduler.GapPositive` | jrtp/rtcpscheduler.cpp:300-316 | the gap is never zero |
| `Scheduler.ImmediateBye` | jrtp/rtcpscheduler.cpp:359-386 | with fewer than 50 members an immediate BYE goes out at the first call |
| `Scheduler.ByeExact` | jrtp/rtcpscheduler.cpp:394-420 | the backoff of a held BYE for every draw: the time the counted BYE packets take at the share of the receivers, or the minimum, times (r + 0.5) / 1.21828 |
| `Scheduler.ByesCounted` | jrtp/rtcpscheduler.cpp:111-137 | from the scheduling of a BYE on, one member and the BYE packets heard since are counted, and the next time is one backoff after the clock |
| `Scheduler.PollExact` | jrtp/rtcpscheduler.cpp:181-236 | when IsTime says true, and the whole state after each answer: a true answer, or the first call, is followed by a next time one random interval after the second clock reading |
| `Scheduler.DelayExact` | jrtp/rtcpscheduler.cpp:160-179 | the delay ends at the next time, or is zero; a first call begins as IsTime would |
| `Scheduler.AverageExact` | jrtp/rtcpscheduler.cpp:123-127 | a new size has the weight of one sixteenth in the average, rounded down |
| `Scheduler.SentExact` | jrtp/rtcpscheduler.cpp:139-158 | what a sent packet changes: the sent flag, and the average unless it holds a BYE |
| `Scheduler.ReceivedExact` | jrtp/rtcpscheduler.cpp:111-137 | what a received packet changes: the average, or while a BYE is scheduled the average and the count of BYE packets |
| `Scheduler.ByeBounds` | jrtp/rtcpscheduler.cpp:394-420 | the BYE backoff lies between half its minimum over 1.21828 and the largest draw, and is zero exactly for a BYE that may go at once |
| `Scheduler.ByeWaits` | jrtp/rtcpscheduler.cpp:359-386 | a BYE that may not go at once goes out at least a positive gap after it was scheduled, whatever happens in between |
| `Scheduler.RTCPScheduler.constructor` | jrtp/rtcpscheduler.cpp:90-109 | the timer invariant holds before the first call |
| `Scheduler.RTCPScheduler.CalculateDeterministicInterval` | jrtp/rtcpscheduler.cpp:250-298 | the interval of section 6.3.1 of RFC 3550 for the members, cut to microseconds, for any integer counts |
| `Scheduler.RTCPScheduler.CalculateTransmissionInterval` | jrtp/rtcpscheduler.cpp:300-316 | that interval with the random factor and the compensation |
| `Scheduler.RTCPScheduler.CalculateNextRTCPTime` | jrtp/rtcpscheduler.cpp:238-248 | the next time is one interval after the clock |
| `Scheduler.RTCPScheduler.IsTime` | jrtp/rtcpscheduler.cpp:181-236 | answer and new timer state: start, reconsideration, or transmission, with BYE backoff |
| `Scheduler.RTCPScheduler.GetTransmissionDelay` | jrtp/rtcpscheduler.cpp:160-179 | the time left, zero once it has come |
| `Scheduler.RTCPScheduler.ActiveMemberDecrease` | jrtp/rtcpscheduler.cpp:388-392 | reverse reconsideration exactly when members have left |
| `Scheduler.RTCPScheduler.PerformReverseReconsideration` | jrtp/rtcpscheduler.cpp:318-357 | both times are scaled towards the clock in proportion to the members left; a conversion that is undefined gives any value |
| `Scheduler.RTCPScheduler.AnalyseIncoming` | jrtp/rtcpscheduler.cpp:111-137 | the loop over the packets finds whether there is a BYE; average size, and the BYE count while a BYE is scheduled |
| `Scheduler.RTCPScheduler.AnalyseOutgoing` | jrtp/rtcpscheduler.cpp:139-158 | the same loop; average size, and that RTCP has been sent |
| `Scheduler.RTCPScheduler.CalculateBYETransmissionInterval` | jrtp/rtcpscheduler.cpp:394-420 | zero for a BYE that may go at once, otherwise the randomised time the counted BYE packets take at the rate of the receivers, and at least the least wait |
| `Scheduler.RTCPScheduler.ScheduleBYEPacket` | jrtp/rtcpscheduler.cpp:359-386 | the BYE backoff begins once |
| `PacketBuilder.DraftSize` | jrtp/rtcppacketbuilder.cpp:106-308 | the size of a packet of this class from its blocks, items and BYEs |
| `PacketBuilder.StartSizes` | jrtp/rtcppacketbuilder.cpp:137-188 | report, CNAME and one block or one more item stay below 600 octets |
| `PacketBuilder.FirstBlockFits` | jrtp/rtcppacketbuilder.cpp:195-205 | the first report block of a packet always fits |
| `PacketBuilder.OneItemFits` | jrtp/rtcppacketbuilder.cpp:263-273 | behind the CNAME one more own item always fits |
| `PacketBuilder.ByeFits` | jrtp/rtcppacketbuilder.cpp:628-738 | report, CNAME and a BYE with the longest reason stay below 600 octets |
| `PacketBuilder.ChosenExact` | jrtp/rtcppacketbuilder.cpp:504-621 | the items a round takes are the selected ones, each once, in order |
| `PacketBuilder.ChosenSplit` | jrtp/rtcppacketbuilder.cpp:504-621 | what several packets take in turn is what one pass would take |
| `PacketBuilder.DueStep` | jrtp/rtcppacketbuilder.cpp:361-437 | looking at one more source adds its block and marks it exactly if it is due |
| `PacketBuilder.MarkedNotDue` | jrtp/rtcppacketbuilder.cpp:434-435 | what has been reported is no longer due |
| `PacketBuilder.BlocksOfStates` | jrtp/rtcppacketbuilder.cpp:361-437 | each block of a packet reports a source of the table, in the state it is in when its turn comes |
| `PacketBuilder.PacketsSent` | jrtp/rtcppacketbuilder.cpp:118-188 | what a plan sends: a sender report exactly when we are a sender, with the given information, receiver reports for more than 31 blocks, then one SDES packet with our CNAME first and the own items of this packet in order |
| `PacketBuilder.BlockFields` | jrtp/rtcppacketbuilder.cpp:369-414 | each field of a report block: SSRC, highest number, jitter and the two times of the last sender report from their own fields, the fraction in 256ths of what this interval expected |
| `PacketBuilder.LossReported` | jrtp/rtcppacketbuilder.cpp:385-389 | the cumulative loss of a block, after any sequence of packets and intervals: all that the intervals expected less all that they received, as a signed 32-bit number |
| `PacketBuilder.LossCounted` | jrtp/rtcppacketbuilder.cpp:385-389 | for a stream from true index f to m, however it arrives: m - f + 1 less the packets received, negative for duplicates |
| `PacketBuilder.LossExact` | jrtp/rtcppacketbuilder.cpp:385-389 | without duplicates and below 2^31 it is exactly the number of packets that never arrived |
| `PacketBuilder.OnlyHeard` | jrtp/rtcppacketbuilder.cpp:338-368 | blocks go only to sources that are neither our own nor contributing, have sent data, have not been reported in this round, and were heard since the last one |
| `PacketBuilder.AllHeard` | jrtp/rtcppacketbuilder.cpp:338-368 | and every such source before the place where the loop stopped has its block |
| `PacketBuilder.ReportableAgain` | jrtp/rtcppacketbuilder.cpp:310-320 | the table keeps its sources, and when a round of reports is over no source is left marked |
| `PacketBuilder.RepeatsByLooking` | jrtp/rtcppacketbuilder.cpp:190-256 | for every plan the builder can make, a packet reports a source twice if and only if its further reports look again at a source that was due when the packet was begun |
| `PacketBuilder.RepeatsExactly` | jrtp/rtcppacketbuilder.cpp:190-256 | for every table the next packet reports a source twice if and only if no round of own items goes on, a source that has been reported before stands behind the first due one, and behind all due sources and all selected items there is room for blocks up to that one once more |
| `PacketBuilder.RepeatsSeen` | jrtp/rtcppacketbuilder.cpp:361-437 | in a table without two entries for one SSRC these are exactly the packets with two blocks for one SSRC |
| `PacketBuilder.UndefinedExactly` | jrtp/rtcppacketbuilder.cpp:369-383 | when every eligible source has a packet in its interval, the fraction lost of a block is undefined exactly for these second blocks |
| `PacketBuilder.ReportedTwice` | jrtp/rtcppacketbuilder.cpp:236-254 | it happens: with one due source and one already reported, the builder can make exactly one plan, and that one reports the due source twice, for any header and any maximum of at least 600 |
| `PacketBuilder.BuildRepeating` | jrtp/rtcppacketbuilder.cpp:106-308 | BuildNextPacket on such a table does build this packet |
| `PacketBuilder.StartReport` | jrtp/rtcppacketbuilder.cpp:118-168 | a packet begins with a report, which always fits |
| `PacketBuilder.StartPacket` | jrtp/rtcppacketbuilder.cpp:118-188 | report and CNAME always fit |
| `PacketBuilder.StopsAt` | jrtp/rtcppacketbuilder.cpp:333-449 | the place where the loop is specified to stop is the first one at which it can: the table or the quota is at its end, or a due source does not fit |
| `PacketBuilder.FillInReportBlocks` | jrtp/rtcppacketbuilder.cpp:322-502 | the due sources in table order until the packet is full or the quota is reached, no sooner and no later; the numbers of added and passed over sources and whether any is left are exact |
| `PacketBuilder.FillReports` | jrtp/rtcppacketbuilder.cpp:190-205 | reports in a fresh packet: a full packet has at least one |
| `PacketBuilder.FillMore` | jrtp/rtcppacketbuilder.cpp:240-254 | room behind the own items goes to further due sources of the table as it is then |
| `PacketBuilder.RTCPPacketBuilder.constructor` | jrtp/rtcppacketbuilder.cpp:46-53 | not initialised |
| `PacketBuilder.RTCPPacketBuilder.Init` | jrtp/rtcppacketbuilder.cpp:60-96 | all refusals in order: a second call, a maximum below 600, a negative timestamp unit; otherwise the CNAME is cut to 255 octets, no own items are due and the flags of all sources are cleared |
| `PacketBuilder.RTCPPacketBuilder.SetInterval` | jrtp/rtcppacketbuilder.h:119-159 | the interval of one of the six items; a round that goes on keeps its selection |
| `PacketBuilder.RTCPPacketBuilder.SetLocalItem` | jrtp/rtcppacketbuilder.h:162-177 | one of the six own items, refused before initialisation and beyond 255 octets; a round that goes on may be sending it |
| `PacketBuilder.RTCPPacketBuilder.SetMaximumPacketSize` | jrtp/rtcppacketbuilder.h:93 | refused before initialisation and below 600 |
| `PacketBuilder.RoundShare` | jrtp/rtcppacketbuilder.cpp:211-228 | an item with interval d takes part in exactly every d-th round, in none if d is not positive |
| `PacketBuilder.RTCPPacketBuilder.FillInSDES` | jrtp/rtcppacketbuilder.cpp:504-621 | adds the selected items not yet sent, in order, until one does not fit |
| `PacketBuilder.RTCPPacketBuilder.SendItems` | jrtp/rtcppacketbuilder.cpp:504-621 | the round is over exactly when all selected items have been sent |
| `PacketBuilder.RTCPPacketBuilder.FillFresh` | jrtp/rtcppacketbuilder.cpp:190-256 | as many due reports as fit; only when all do, a round of own items begins in the same packet, and room behind it goes to sources passed over before |
| `PacketBuilder.RTCPPacketBuilder.FillContinued` | jrtp/rtcppacketbuilder.cpp:257-296 | items that did not fit go first, at least one of them; room that is left goes to as many reports as fit, and the flags are cleared when none is due any more |
| `PacketBuilder.RTCPPacketBuilder.NextItems` | jrtp/rtcppacketbuilder.cpp:263-273 | progress: at least one item |
| `PacketBuilder.RTCPPacketBuilder.BuildNextPacket` | jrtp/rtcppacketbuilder.cpp:106-308 | never fails for lack of space with 600 octets or more and makes progress; the packet holds as many due reports as fit, then as many items of the round, then further reports, exactly as the source decides, and the returned table has exactly these sources marked; whether it reports a source twice is told by the state before the call |
| `PacketBuilder.RTCPPacketBuilder.RoundExact` | jrtp/rtcppacketbuilder.cpp:504-621 | a finished round has emitted every selected item exactly once, in at most seven packets |
| `PacketBuilder.RTCPPacketBuilder.RoundEnds` | jrtp/rtcppacketbuilder.cpp:257-296 | a round that goes on has sent fewer packets than items are selected |
| `PacketBuilder.RTCPPacketBuilder.BuildBYEPacket` | jrtp/rtcppacketbuilder.cpp:628-738 | never fails for lack of space; the packet is the report, the CNAME and the BYE with its reason cut to 255 octets |
| `PacketBuilder.AtMost255Exact` | jrtp/rtcppacketbuilder.cpp:636-637 | a text is cut to its first 255 octets, and kept below that |
| `PacketBuilder.OwnItemOctets` | jrtp/rtcppacketbuilder.cpp:504-621 | the six own items are NAME, EMAIL, LOC, PHONE, TOOL and NOTE in this order, each with its text |
| `Depacketizer.FramesSound` | RemoteControlGalileo/AV Capture/RtpSessionEx.cpp:123-241 | for any loss, duplication or reordering every delivered frame is payloads with consecutive numbers ending in the only marker, and begins at the first packet ever received or right behind a received marker |
| `Depacketizer.DrainMovesOn` | RemoteControlGalileo/AV Capture/RtpSessionEx.cpp:134-161 | the rescan moves on exactly when the next packet is in the buffer, and stops where it is not |
| `Depacketizer.PendingExact` | RemoteControlGalileo/AV Capture/RtpSessionEx.cpp:207-222 | the cleanup drops each packet below the next number and keeps every other, as often as it is there |
| `Depacketizer.InsertsExactly` | RemoteControlGalileo/AV Capture/RtpSessionEx.cpp:134-161 | the packet that is waited for is inserted with all that follow it in the buffer, the counter starts again, and what waits is beyond the next number |
| `Depacketizer.SkipsExactly` | RemoteControlGalileo/AV Capture/RtpSessionEx.cpp:163-222 | a packet that inserts nothing makes the depacketizer skip behind it exactly if it has the marker and is at least 5 ahead of the last inserted number or the 26th in a row; then the frame in progress is dropped, otherwise only the counter moves |
| `Depacketizer.StillWaits` | RemoteControlGalileo/AV Capture/RtpSessionEx.cpp:163-186 | any number of packets without marker that are not the next one delivers nothing and is counted |
| `Depacketizer.LossRecovered` | RemoteControlGalileo/AV Capture/RtpSessionEx.cpp:123-241 | recovery from any state: after such a marker the frames of the stream behind it are delivered exactly, whatever part of it is waiting already, once the missing packets arrive in order |
| `Depacketizer.LossRecoveredInOrder` | RemoteControlGalileo/AV Capture/RtpSessionEx.cpp:123-241 | in particular when the whole stream behind the marker arrives in order |
| `Depacketizer.LongWaitRecovered` | RemoteControlGalileo/AV Capture/RtpSessionEx.cpp:163-186 | and when 25 packets that inserted nothing came before the marker |
| `Depacketizer.ArriveReached` | RemoteControlGalileo/AV Capture/RtpSessionEx.cpp:123-223 | each packet of a nearly ordered stream goes into a frame or waits in the buffer, and nothing is skipped |
| `Depacketizer.ReorderingUndone` | RemoteControlGalileo/AV Capture/RtpSessionEx.cpp:123-241 | packets that arrive lowest first, each at most four ahead of the last inserted one, give exactly the frames of the stream in order |
| `Depacketizer.ArriveMarkers` | RemoteControlGalileo/AV Capture/RtpSessionEx.cpp:123-241 | frames delivered and markers waiting never outnumber the markers received |
| `Depacketizer.RunMarkers` | RemoteControlGalileo/AV Capture/RtpSessionEx.cpp:123-241 | the same over every run |
| `Depacketizer.WrapLoses` | RemoteControlGalileo/AV Capture/RtpSessionEx.cpp:150 | a stream whose numbers wrap loses a frame even when it arrives in order |
| `Depacketizer.InOrderExact` | RemoteControlGalileo/AV Capture/RtpSessionEx.cpp:123-241 | a stream that arrives in order is delivered exactly if and only if its numbers do not wrap |
| `Depacketizer.FragmentsExact` | RemoteControlGalileo/AV Capture/RtpSessionEx.cpp:243-293 | the fragments of a frame concatenate to it, each fits, all but the last are full |
| `Depacketizer.CountExact` | RemoteControlGalileo/AV Capture/RtpSessionEx.cpp:257 | the packet count computed in advance is the number of fragments |
| `Depacketizer.IncrementsExact` | RemoteControlGalileo/AV Capture/RtpSessionEx.cpp:257-284 | the timestamp increments of a frame add up to the whole exactly when the packets divide it evenly |
| `Depacketizer.SendMultiPacket` | RemoteControlGalileo/AV Capture/RtpSessionEx.cpp:243-293 | sends the fragments in order, marker on the last; a failure ends it after a beginning of them |
| `Depacketizer.AssembleStream` | RemoteControlGalileo/AV Capture/RtpSessionEx.cpp:243-293 | cutting and putting together in order give back the frames |
| `Depacketizer.StreamNumbered` | RemoteControlGalileo/AV Capture/RtpSessionEx.cpp:243-293 | the packets of a list of frames are numbered in their order, modulo 65536 |
| `Depacketizer.SentExact` | RemoteControlGalileo/AV Capture/RtpSessionEx.cpp:243-293 | the packets SendMultiPacket sends for a list of frames are, in payload, marker and number, the fragments of the frames |
| `Depacketizer.FramesRoundTrip` | RemoteControlGalileo/AV Capture/RtpSessionEx.cpp:123-293 | frames sent by SendMultiPacket and received in any bounded reordering without wrap come back exactly, in order |
| `Depacketizer.Cleanup` | RemoteControlGalileo/AV Capture/RtpSessionEx.cpp:207-222 | erases exactly the packets below the next number |
| `Depacketizer.RTPSessionEx.constructor` | RemoteControlGalileo/AV Capture/RtpSessionEx.cpp:51-75 | waits for its first packet |
| `Depacketizer.RTPSessionEx.InsertPacketIntoFrame` | RemoteControlGalileo/AV Capture/RtpSessionEx.cpp:225-241 | appends the payload; a marker delivers the frame |
| `Depacketizer.RTPSessionEx.InsertPackets` | RemoteControlGalileo/AV Capture/RtpSessionEx.cpp:134-161 | the rescan loop ends, and inserts exactly what is in sequence |
| `Depacketizer.RTPSessionEx.ProcessRTPPacket` | RemoteControlGalileo/AV Capture/RtpSessionEx.cpp:123-223 | buffer, next number, wait counter and delivered frames after one packet |
| `RtpPacket.ReadBack` | jrtp/rtppacket.cpp:103-205 | a packet built from any contents, padded or not, is accepted with all its fields if and only if it does not look like an RTCP report and its payload length fits an int |
| `RtpPacket.Rebuilt` | jrtp/rtppacket.cpp:222-320 | building again what was read from an accepted packet gives back all its octets, given the same padding |
| `RtpPacket.RebuiltUnpadded` | jrtp/rtppacket.cpp:222-320 | without the padding it gives the packet with padding and padding bit removed; the same octets when there was none |
| `RtpPacket.AcceptedExactly` | jrtp/rtppacket.cpp:103-205 | the reader accepts exactly the octets the format describes, and reads them one way only |
| `RtpPacket.ReadEncodable` | jrtp/rtppacket.cpp:103-205 | what is read always has room in the format and never looks like an RTCP report |
| `RtpPacket.AskedExact` | jrtp/rtppacket.cpp:222-246 | a request that is not refused has one layout, of exactly the predicted length |
| `RtpPacket.RefusedExactly` | jrtp/rtppacket.cpp:222-246 | what is refused and for what, in this order: 16 or more identifiers, payload types of 128 or more, 72 and 73, more octets than the layout may have |
| `RtpPacket.LooksExactly` | jrtp/rtppacket.cpp:130-143 | a packet looks like an RTCP report exactly when its second octet is 200 or 201 |
| `RtpPacket.WireOctets` | jrtp/rtppacket.cpp:281-319 | the octets of a packet at the offsets of RFC 3550: flags and counts, type, number, timestamp, SSRC, contributing sources, extension, payload and padding |
| `RtpPacket.RequestFor` | jrtp/rtppacket.cpp:222-228 | any contents the format has room for can be asked for |
| `RtpPacket.AskAgain` | jrtp/rtppacket.cpp:228-233 | asking again for what was read is refused exactly for the payload types 72 and 73 |
| `RtpPacket.FieldsBuilt` | jrtp/rtppacket.cpp:268-282 | the accessors of a built packet report what was asked for if and only if no extension was; otherwise everything but the extension data, whose pointer stays null |
| `RtpPacket.FieldsRead` | jrtp/rtppacket.cpp:170-199 | the accessors of a received packet report what its octets say |
| `RtpPacket.WriteFixed` | jrtp/rtppacket.cpp:281-296 | the twelve octets of the fixed header and nothing else |
| `RtpPacket.WriteCsrcs` | jrtp/rtppacket.cpp:298-303 | the loop writes the identifiers behind the header and nothing else |
| `RtpPacket.WriteExtension` | jrtp/rtppacket.cpp:306-317 | the extension header and its data behind the identifiers and nothing else |
| `RtpPacket.RTPPacket.Received` | jrtp/rtppacket.cpp:72-76 | accepted exactly as described, with the view of the reader; cleared otherwise |
| `RtpPacket.RTPPacket.Built` | jrtp/rtppacket.cpp:78-86 | all error cases in order; the octets of what was asked for, and the accessors report all of it but the extension data |
| `RtpPacket.RTPPacket.BuiltInto` | jrtp/rtppacket.cpp:88-101 | the same at the start of the buffer of the caller, the rest of which is untouched |
| `RtpPacket.RTPPacket.ParseRawPacket` | jrtp/rtppacket.cpp:103-205 | all refusals, and all fields of an accepted packet |
| `RtpPacket.RTPPacket.BuildPacket` | jrtp/rtppacket.cpp:222-320 | all error cases; exactly the predicted octets are written, and the accessors report all that was asked for but the extension data |
| `RtpPacket.RTPPacket.WriteOctets` | jrtp/rtppacket.cpp:281-319 | exactly the layout is written, nothing beyond it |
| `RtpPacket.RTPPacket.GetCSRC` | jrtp/rtppacket.cpp:207-220 | the identifier at the index, zero beyond the count |

## Left out

- Sockets, transmitters, DNS, threads, `RTPSession` and the poll thread: the components they drive are modelled, with the clock and the random source as parameters.
- Memory managers, allocation failure, ownership and deletion: allocation succeeds.
- Callbacks of `RTPSources` and `RTPSession`: they have no effect on the modelled state; the frames handed to the depacketizer callback are recorded.
- `RTP_SUPPORT_RTCPUNKNOWN` and `SKIP_TO_KEYFRAME` code: neither is enabled.
- `RTPHashTable`: the same structure as the key hash table without the key stored apart.
- Address classes, error strings, dumps, random generators and the private SDES item list of a source.
- Rounding of floating-point numbers: jitter, intervals and fractions are real numbers.
- RtcpBuilder.CompoundPacketBuilder.InitBuild: the maximum must be below 2^63, so that the sum of the sizes does not wrap a 64-bit size_t.
- RtcpBuilder.CompoundPacketBuilder.EndBuild: with an external buffer the compound must fit it; `RtcpRuns.RunBounded` says exactly when it does.
- SourceStats.RTPSourceStats.ProcessPacket: the timestamp unit is a parameter, its estimate from sender reports is not modelled; `prevexthighseqnr` is written and never read.
- SourceStats.ExtensionExact: true indices less than 2^32 - 2^17 apart, beyond which 32-bit numbers repeat.
- Sources.RTPSources.constructor: the table is a sequence of entry values in insertion order instead of shared objects, and the counters are unbounded integers; the hash table that holds them is proved apart to be such an ordered map.
- Sources.RTPSources.UpdateReceiveTime: also stands for sender info, report blocks and private items, which change the table in the same way but store more in the entry.
- Sources.RTPSources.ProcessRTPPacket: the queue and the jitter of the entry are those of `SourceData` and `SourceStats`, which the table does not depend on.
- Scheduler.RTCPScheduler.constructor: bandwidth positive and sender fraction strictly between 0 and 1, although the setters let 0 and 1 through, for which the interval divides by zero; times are microseconds without the 32-bit wrap of the seconds, which `RtpTime` treats apart.
- PacketBuilder.RTCPPacketBuilder.FillInSDES: the six blocks of the function, one for each item, are one loop over lists of six flags.
- PacketBuilder.RTCPPacketBuilder.BuildNextPacket: NTP and RTP timestamps of a sender report are parameters, and the source table is a value that is returned changed; the table is not empty, since the report builder dereferences a null source for an empty one; where the fraction lost is not defined its octet is taken to be zero.
- PacketBuilder.BlockFields: the two fields about the last sender report are given with the source; the code takes them from its NTP time and from the time since it was received.
- PacketBuilder.RTCPPacketBuilder.Init: `Destroy`, and with it a second initialisation, is not modelled.
- Depacketizer.RTPSessionEx.InsertPacketIntoFrame: the frame buffer has room for every frame; the rotation of the buffers is not modelled.
- Depacketizer.SendMultiPacket: sleeping between packets and the header extension of the keyframe helper are left out, the status of each single send is a parameter, and the timestamp increment is not negative; the numbers the session gives the packets are those of `SentStream`.
- RtpPacket.RTPPacket.Received: the three C++ constructors are `Received`, `Built` and `BuiltInto`; data members other than the buffer are one record value, and pointers into the buffer are offsets.
- RtpPacket.RTPPacket.ParseRawPacket: the extension header is not read when it does not fit, which the code does before it refuses such a packet.
