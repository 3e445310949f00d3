# Q-learning routing simulator: tables, wire formats and analysis scripts

This project models the self-contained core of an ns-3 based simulator
for Q-learning packet routing, which is compared against AODV (RFC 3561)
and a QoS-aware Q-learning variant. It proves properties of that model.
The modelled parts are these:

- **The data structures the learners keep.** The packet table
  (`PacketTables`) tracks each packet's queue state and how often it was
  enqueued. The Q-table (`QTables`) holds destination rows, neighbour
  availability, the minimum-estimate next hop and the strike/blacklist
  counter. The learner's bookkeeping (`QLearners`) covers the traffic-type,
  port and table mappings and the timestamped per-neighbour send history.
- **The wire formats.** These are the Q-learning header (30 bytes), the QoS
  header (44 bytes), the tqlrn type and HELLO headers, and the packet tags.
  Each is a class whose Serialize/Deserialize methods are proved against
  byte-level encode/decode functions, with round-trip lemmas.
- **The test harness.** This covers the learned-route walk `GetQRoute`,
  the trace file `PrintQRouteToFile` writes, the route check
  (`QRoutes`), and the readers of the harness's own test files
  (`TestParsing`).
- **The analysis scripts.** `AodvRoutes` and `QlrnRoutes` model the two
  route reconstructions of 2DPlot.py. `Counters` and `AlgorithmOutput`
  model the counter aggregation of parse_ALGORITHM_OUTPUT.py. `Hyperparam`
  models the value selectors of plot_hyperparam_graphs.py.

These conventions hold throughout:

- Loops and in-place updates in the source are Dafny methods and classes.
  Each is proved equal to a specification function, and the properties
  are stated as lemmas about those functions.
- C++ fatal errors, failed assertions the source relies on at run time,
  uncaught exceptions and Python exceptions and `sys.exit` calls become
  error values (`Result`).
- `NS_ASSERT` conditions on a caller's arguments become `requires`.
- C++ unsigned arithmetic is written out modulo 2^32 or 2^64.
- Simulator time is an integer count of nanoseconds.
- Text is `seq<char>` with Python's `str.split`, `in`, `int()` and
  `float()`, and C++'s `find`, `substr`, `getline`, `stoi` and `stof`,
  defined in `Text`.

## Model

| member | source | states |
|---|---|---|
| TrafficTypes.Code | clone_repo_TH/ns-3-dev/src/applications/model/traffic-types.h:10-21 | every traffic type's numeric value fits the 0 to 8 range that the headers write as one byte |
| TrafficTypes.FromCode | clone_repo_TH/ns-3-dev/src/applications/model/traffic-types.h:10-21 | a value names a traffic type iff it is 0 to 8, and that type's code is the value |
| TrafficTypes.FromCodeOfCode | clone_repo_TH/ns-3-dev/src/applications/model/traffic-types.h:10-21 | every traffic type's code decodes back to it |
| QLrnHeaders.Encode | clone_repo_TH/ns-3.26/src/applications/model/qlrn-header.cc:43-58 | the header is written as exactly 30 bytes |
| QLrnHeaders.Decode | clone_repo_TH/ns-3.26/src/applications/model/qlrn-header.cc:66-84 | the header is valid iff the type byte (offset 28) names a traffic type; a valid header takes that type, an invalid one keeps its previous type; converged iff the last byte is non-zero |
| QLrnHeaders.RoundTrip | clone_repo_TH/ns-3.26/src/applications/model/qlrn-header.cc:48-89 | reading back the bytes Serialize wrote, with anything after them, restores time, packet id, estimate, destination, type and converged flag; the type byte is accepted, so reading does not invalidate the header |
| QLrnHeaders.EncodeDecode | clone_repo_TH/ns-3.26/src/applications/model/qlrn-header.cc:48-89 | the other direction: a 30-byte prefix with a valid type byte and a 0/1 converged byte is re-serialised unchanged |
| QLrnHeaders.QLrnHeader.constructor | clone_repo_TH/ns-3.26/src/applications/model/qlrn-header.cc:8-27 | the header holds the given fields and validity; every traffic type is accepted |
| QLrnHeaders.QLrnHeader.GetSerializedSize | clone_repo_TH/ns-3.26/src/applications/model/qlrn-header.cc:43-46 | the declared size is the length of Encode for every field tuple (three uint64, a byte, an address, a byte) |
| QLrnHeaders.QLrnHeader.Serialize | clone_repo_TH/ns-3.26/src/applications/model/qlrn-header.cc:47-59 | writes Encode of the header's fields, GetSerializedSize bytes |
| QLrnHeaders.QLrnHeader.Deserialize | clone_repo_TH/ns-3.26/src/applications/model/qlrn-header.cc:60-89 | a buffer shorter than 30 bytes makes the header invalid, leaves the fields and returns 0; otherwise the fields become Decode of the buffer, validity is cleared on a bad type byte, and 30 bytes are consumed |
| QoSQLrnHeaders.Encode | clone_repo_TH/ns-3-dev/src/applications/model/qos-qlrn-header.cc:48-67 | the header is written as exactly 44 bytes |
| QoSQLrnHeaders.Decode | clone_repo_TH/ns-3-dev/src/applications/model/qos-qlrn-header.cc:75-96 | the header is valid iff the type byte (offset 36) names a traffic type; a valid header takes that type, an invalid one keeps its previous type; converged iff byte 37 is non-zero |
| QoSQLrnHeaders.RoundTrip | clone_repo_TH/ns-3-dev/src/applications/model/qos-qlrn-header.cc:53-101 | reading back the bytes Serialize wrote restores all nine fields (time, id, estimate, delay, destination, type, converged, loss, packet count); the type byte is accepted, so reading does not invalidate the header |
| QoSQLrnHeaders.EncodeSlices | clone_repo_TH/ns-3-dev/src/applications/model/qos-qlrn-header.cc:53-67 | the write order: each field sits at its own offset with its own width (u64 ×4, 4 address bytes, type, converged, u16, u32) |
| QoSQLrnHeaders.EncodeDecode | clone_repo_TH/ns-3-dev/src/applications/model/qos-qlrn-header.cc:53-101 | the other direction: a 44-byte prefix with a valid type byte and a 0/1 converged byte is re-serialised unchanged |
| QoSQLrnHeaders.QoSQLrnHeader.constructor | clone_repo_TH/ns-3-dev/src/applications/model/qos-qlrn-header.cc:6-32 | the header holds the given fields and validity |
| QoSQLrnHeaders.QoSQLrnHeader.GetSerializedSize | clone_repo_TH/ns-3-dev/src/applications/model/qos-qlrn-header.cc:48-51 | the declared size is the length of Encode for every field tuple |
| QoSQLrnHeaders.QoSQLrnHeader.Serialize | clone_repo_TH/ns-3-dev/src/applications/model/qos-qlrn-header.cc:52-68 | writes Encode of the header's fields, GetSerializedSize bytes |
| QoSQLrnHeaders.QoSQLrnHeader.Deserialize | clone_repo_TH/ns-3-dev/src/applications/model/qos-qlrn-header.cc:69-101 | a buffer shorter than 44 bytes makes the header invalid, leaves the fields and returns 0; otherwise the fields become Decode of the buffer, validity is cleared on a bad type byte, and 44 bytes are consumed |
| TqlrnPackets.MessageCode | clone_repo_TH/ns-3.26/src/tqlrn/model/tqlrn-packet.cc:38-42 | the byte written for a message type decodes to that type |
| TqlrnPackets.MessageTypeFromCode | clone_repo_TH/ns-3.26/src/tqlrn/model/tqlrn-packet.cc:50-60 | only the bytes 1 and 2 name a message type |
| TqlrnPackets.TypeHeader.constructor | clone_repo_TH/ns-3.26/src/tqlrn/model/tqlrn-packet.cc:10-13 | a new type header holds its type and is valid |
| TqlrnPackets.TypeHeader.GetSerializedSize | clone_repo_TH/ns-3.26/src/tqlrn/model/tqlrn-packet.cc:32-36 | the declared size is the one byte written for either message type |
| TqlrnPackets.TypeHeader.Serialize | clone_repo_TH/ns-3.26/src/tqlrn/model/tqlrn-packet.cc:32-42 | one byte, the type's code |
| TqlrnPackets.TypeHeader.Deserialize | clone_repo_TH/ns-3.26/src/tqlrn/model/tqlrn-packet.cc:44-64 | consumes one byte; valid iff it is 1 or 2, then the type is the decoded one, otherwise the old type stays |
| TqlrnPackets.TypeHeader.Equals | clone_repo_TH/ns-3.26/src/tqlrn/model/tqlrn-packet.cc:86-90 | operator==: two type headers are equal iff they serialise to the same type byte and have the same validity |
| TqlrnPackets.TypeHeaderRoundTrip | clone_repo_TH/ns-3.26/src/tqlrn/model/tqlrn-packet.cc:39-90 | a valid type header read back from its own byte is equal to it under operator== (same type, same validity) |
| TqlrnPackets.EncodeHello | clone_repo_TH/ns-3.26/src/tqlrn/model/tqlrn-packet.cc:125-130 | the request id written in network byte order reads back as the request id |
| TqlrnPackets.HelloSizeMismatch | clone_repo_TH/ns-3.26/src/tqlrn/model/tqlrn-packet.cc:121-130 | as written, the declared serialised size (0) differs from the 4 bytes Serialize writes |
| TqlrnPackets.HelloRoundTrip | clone_repo_TH/ns-3.26/src/tqlrn/model/tqlrn-packet.cc:121-141 | with the size corrected to 4, the bytes written are exactly the bytes Deserialize reads, and they give the request id back |
| TqlrnPackets.HelloHeader.constructor | clone_repo_TH/ns-3.26/src/tqlrn/model/tqlrn-packet.cc:102-107 | the header holds the given request id, destination and origin |
| TqlrnPackets.HelloHeader.GetSerializedSize | clone_repo_TH/ns-3.26/src/tqlrn/model/tqlrn-packet.cc:121-123 | the declared size is the number of bytes written for any request id (corrected from the source's 0 to 4, see Findings and Left out) |
| TqlrnPackets.HelloHeader.Serialize | clone_repo_TH/ns-3.26/src/tqlrn/model/tqlrn-packet.cc:125-130 | writes the request id in network byte order, 4 bytes, which is the corrected GetSerializedSize (the source declares 0) |
| TqlrnPackets.HelloHeader.Equals | clone_repo_TH/ns-3.26/src/tqlrn/model/tqlrn-packet.cc:148-151 | operator==: two HELLO headers are equal iff they serialise to the same bytes and have the same destination and origin |
| TqlrnPackets.HelloHeader.Deserialize | clone_repo_TH/ns-3.26/src/tqlrn/model/tqlrn-packet.cc:132-141 | reads the request id in network byte order and consumes 4 bytes; destination and origin are not on the wire and stay; the always-failing size assertion is omitted (Left out) |
| TqlrnPackets.HelloHeaderRoundTrip | clone_repo_TH/ns-3.26/src/tqlrn/model/tqlrn-packet.cc:125-151 | a HELLO header read back from its own bytes is equal to it under operator== (id, destination, origin) |
| PacketTags.EncodeFlag | clone_repo_TH/ns-3-dev/src/applications/model/thomas-packet-tags.h:35-45 | a flag takes one byte, non-zero iff the flag is set |
| PacketTags.PairRoundTrip | clone_repo_TH/ns-3-dev/src/applications/model/thomas-packet-tags.h:181-191 | the two u64 fields of a precursor tag, 16 bytes, read back as written |
| PacketTags.QLrnInfoRoundTrip | clone_repo_TH/ns-3-dev/src/applications/model/thomas-packet-tags.h:110-134 | QLrnInfoTag's time, four previous-hop bytes, maintenance and usable-delay flags read back as written, whatever follows them |
| PacketTags.TimeSentRoundTrip | clone_repo_TH/ns-3-dev/src/applications/model/thomas-packet-tags.h:363-381 | PacketTimeSentTag's sent time, initial estimate and previous hop read back as written |
| PacketTags.TimeSentSlices | clone_repo_TH/ns-3-dev/src/applications/model/thomas-packet-tags.h:367-373 | the write order: sent time at 0, initial estimate at 8, the previous hop's four bytes at 16 |
| PacketTags.PortNrRoundTrip | clone_repo_TH/ns-3-dev/src/applications/model/thomas-packet-tags.h:484-498 | PortNrTag's u16 port, learning byte and u64 packet number read back as written |
| PacketTags.RandomDecisionTag.constructor | clone_repo_TH/ns-3-dev/src/applications/model/thomas-packet-tags.h:11 | the flag defaults to false |
| PacketTags.RandomDecisionTag.GetSerializedSize | clone_repo_TH/ns-3-dev/src/applications/model/thomas-packet-tags.h:35-37 | the declared size is the length of the flag encoding for either flag value, one byte |
| PacketTags.RandomDecisionTag.Serialize | clone_repo_TH/ns-3-dev/src/applications/model/thomas-packet-tags.h:35-41 | one byte, the flag |
| PacketTags.RandomDecisionTag.Deserialize | clone_repo_TH/ns-3-dev/src/applications/model/thomas-packet-tags.h:43-45 | the flag is set iff the byte read is non-zero |
| PacketTags.QLrnInfoTag.constructor | clone_repo_TH/ns-3-dev/src/applications/model/thomas-packet-tags.h:68-69 | defaults: time uint64(-1), previous hop 103.103.103.103, maintenance false, usable delay true |
| PacketTags.QLrnInfoTag.GetSerializedSize | clone_repo_TH/ns-3-dev/src/applications/model/thomas-packet-tags.h:110-112 | the declared size is the length of EncodeQLrnInfo for every tag value (8 + 4 + 1 + 1 bytes) |
| PacketTags.QLrnInfoTag.Serialize | clone_repo_TH/ns-3-dev/src/applications/model/thomas-packet-tags.h:110-123 | writes the tag's fields in QLrnInfoTag's layout, 14 bytes |
| PacketTags.QLrnInfoTag.Deserialize | clone_repo_TH/ns-3-dev/src/applications/model/thomas-packet-tags.h:125-134 | the fields become those decoded from the buffer |
| PacketTags.PacketTimeSentTagPrecursorCT.constructor | clone_repo_TH/ns-3-dev/src/applications/model/thomas-packet-tags.h:160-161 | both fields default to uint64(-1) |
| PacketTags.PacketTimeSentTagPrecursorCT.GetSerializedSize | clone_repo_TH/ns-3-dev/src/applications/model/thomas-packet-tags.h:181 | the declared size is the length of EncodePair for every pair of 64-bit values |
| PacketTags.PacketTimeSentTagPrecursorCT.Serialize | clone_repo_TH/ns-3-dev/src/applications/model/thomas-packet-tags.h:181-186 | the type-C estimate then the sent time, 16 bytes |
| PacketTags.PacketTimeSentTagPrecursorCT.Deserialize | clone_repo_TH/ns-3-dev/src/applications/model/thomas-packet-tags.h:188-191 | both fields become those decoded from the buffer |
| PacketTags.PacketTimeSentTagPrecursorAB.constructor | clone_repo_TH/ns-3-dev/src/applications/model/thomas-packet-tags.h:208-209 | both fields default to uint64(-1) |
| PacketTags.PacketTimeSentTagPrecursorAB.GetSerializedSize | clone_repo_TH/ns-3-dev/src/applications/model/thomas-packet-tags.h:229 | the declared size is the length of EncodePair for every pair of 64-bit values |
| PacketTags.PacketTimeSentTagPrecursorAB.Serialize | clone_repo_TH/ns-3-dev/src/applications/model/thomas-packet-tags.h:229-234 | the type-A then the type-B estimate, 16 bytes |
| PacketTags.PacketTimeSentTagPrecursorAB.Deserialize | clone_repo_TH/ns-3-dev/src/applications/model/thomas-packet-tags.h:236-239 | both fields become those decoded from the buffer |
| PacketTags.PacketLossTrackingSentTimeQInfo.constructor | clone_repo_TH/ns-3-dev/src/applications/model/thomas-packet-tags.h:265 | the sent time defaults to uint64(-1) |
| PacketTags.PacketLossTrackingSentTimeQInfo.GetSerializedSize | clone_repo_TH/ns-3-dev/src/applications/model/thomas-packet-tags.h:287-289 | the declared size is the length of the 8-byte little-endian encoding of every 64-bit time, and exactly that many bytes hold every uint64 value |
| PacketTags.PacketLossTrackingSentTimeQInfo.Serialize | clone_repo_TH/ns-3-dev/src/applications/model/thomas-packet-tags.h:287-293 | eight bytes that read back as the sent time |
| PacketTags.PacketLossTrackingSentTimeQInfo.Deserialize | clone_repo_TH/ns-3-dev/src/applications/model/thomas-packet-tags.h:295-297 | the sent time is the u64 read from the buffer |
| PacketTags.PacketTimeSentTag.constructor | clone_repo_TH/ns-3-dev/src/applications/model/thomas-packet-tags.h:317-318 | defaults: both times uint64(-1) and the uninitialised previous hop |
| PacketTags.PacketTimeSentTag.GetSerializedSize | clone_repo_TH/ns-3-dev/src/applications/model/thomas-packet-tags.h:363-365 | the declared size is the length of EncodeTimeSent for every tag value (8 + 4 + 8 bytes) |
| PacketTags.PacketTimeSentTag.Serialize | clone_repo_TH/ns-3-dev/src/applications/model/thomas-packet-tags.h:363-373 | writes the tag's fields in PacketTimeSentTag's layout, 20 bytes |
| PacketTags.PacketTimeSentTag.Deserialize | clone_repo_TH/ns-3-dev/src/applications/model/thomas-packet-tags.h:375-381 | the fields become those decoded from the buffer |
| PacketTags.QRoutedTrafficPacketTag.constructor | clone_repo_TH/ns-3-dev/src/applications/model/thomas-packet-tags.h:406-407 | the flag defaults to false |
| PacketTags.QRoutedTrafficPacketTag.GetSerializedSize | clone_repo_TH/ns-3-dev/src/applications/model/thomas-packet-tags.h:430-432 | the declared size is the length of the flag encoding for either flag value, one byte |
| PacketTags.QRoutedTrafficPacketTag.Serialize | clone_repo_TH/ns-3-dev/src/applications/model/thomas-packet-tags.h:430-436 | one byte, the flag |
| PacketTags.QRoutedTrafficPacketTag.Deserialize | clone_repo_TH/ns-3-dev/src/applications/model/thomas-packet-tags.h:438-440 | the flag is set iff the byte read is non-zero |
| PacketTags.PortNrTag.constructor | clone_repo_TH/ns-3-dev/src/applications/model/thomas-packet-tags.h:458-459 | defaults: port 0, not learning, packet number 0 |
| PacketTags.PortNrTag.GetSerializedSize | clone_repo_TH/ns-3-dev/src/applications/model/thomas-packet-tags.h:484-486 | the declared size is the length of EncodePortNr for every tag value (2 + 1 + 8 bytes) |
| PacketTags.PortNrTag.Serialize | clone_repo_TH/ns-3-dev/src/applications/model/thomas-packet-tags.h:484-492 | writes the tag's fields in PortNrTag's layout, 11 bytes |
| PacketTags.PortNrTag.Deserialize | clone_repo_TH/ns-3-dev/src/applications/model/thomas-packet-tags.h:494-498 | the fields become those decoded from the buffer |
| PacketTags.DropPacketTag.constructor | clone_repo_TH/ns-3-dev/src/applications/model/thomas-packet-tags.h:518 | the flag defaults to false |
| PacketTags.DropPacketTag.GetSerializedSize | clone_repo_TH/ns-3-dev/src/applications/model/thomas-packet-tags.h:537-539 | the declared size is the length of the flag encoding for either flag value, one byte |
| PacketTags.DropPacketTag.Serialize | clone_repo_TH/ns-3-dev/src/applications/model/thomas-packet-tags.h:537-543 | one byte, the flag |
| PacketTags.DropPacketTag.Deserialize | clone_repo_TH/ns-3-dev/src/applications/model/thomas-packet-tags.h:545-547 | the flag is set iff the byte read is non-zero |
| PacketTables.StateCode | clone_repo_TH/ns-3-dev/src/applications/model/packettable.h:11-15 | the three packet states carry the codes 200, 300 and 500 |
| PacketTables.NewEntry | clone_repo_TH/ns-3-dev/src/applications/model/packettable.cc:5-10 | a new entry is unqueued, enqueued 0 times, with last queue time 0, created now |
| PacketTables.Enqueue | clone_repo_TH/ns-3-dev/src/applications/model/packettable.cc:12-17 | requires a packet not in a queue; the count goes up by one, the state becomes enqueued at now, the last queue time stays |
| PacketTables.Dequeue | clone_repo_TH/ns-3-dev/src/applications/model/packettable.cc:19-24 | requires an enqueued packet; the last queue time becomes now minus the enqueue time (non-negative when time moves forward), the state becomes dequeued, the count stays |
| PacketTables.TransitionsKeepConsistent | clone_repo_TH/ns-3-dev/src/applications/model/packettable.cc:12-24 | both transitions keep "unqueued iff never enqueued" |
| PacketTables.Lookup | clone_repo_TH/ns-3-dev/src/applications/model/packettable.cc:58-65 | operator[] gives the stored entry, or a new one (never queued, queue time 0) for an unknown uid |
| PacketTables.Step | clone_repo_TH/ns-3-dev/src/applications/model/packettable.cc:40-65 | dequeuing an unknown uid fails; a successful operation leaves the uid in the table and no other entry changes; a query inserts the looked-up entry |
| PacketTables.StepTimesSeen | clone_repo_TH/ns-3-dev/src/applications/model/packettable.cc:26-28 | one operation raises a uid's times seen by one exactly when it enqueues that uid, and keeps every entry consistent |
| PacketTables.TimesSeenCountsEnqueues | clone_repo_TH/ns-3-dev/src/applications/model/packettable.cc:26-28 | over any run of operations, the times a packet is seen equals the number of enqueues of it |
| PacketTables.RunKeepsConsistent | clone_repo_TH/ns-3-dev/src/applications/model/packettable.cc:5-24 | over any run, every entry is unqueued exactly while its count is zero |
| PacketTables.PacketTable.constructor | clone_repo_TH/ns-3-dev/src/applications/model/packettable.cc:32-34 | a new table is empty |
| PacketTables.PacketTable.EnqueuePacket | clone_repo_TH/ns-3-dev/src/applications/model/packettable.cc:40-46 | creates the entry only when the uid is absent, then enqueues it: the new table is the Step of the old one |
| PacketTables.PacketTable.DequeuePacket | clone_repo_TH/ns-3-dev/src/applications/model/packettable.cc:48-56 | an unknown uid is a fatal error and changes nothing; otherwise the new table is the Step of the old one |
| PacketTables.PacketTable.GetPacketQueueTime | clone_repo_TH/ns-3-dev/src/applications/model/packettable.cc:58-61 | returns the entry's last queue time; an unknown uid is inserted with a default entry and gives 0 |
| PacketTables.PacketTable.GetNumberOfTimesSeen | clone_repo_TH/ns-3-dev/src/applications/model/packettable.cc:63-65 | returns the times seen; an unknown uid is inserted with a default entry and gives 0 |
| QTables.NewEntry | clone_repo_TH/ns-3-dev/src/applications/model/qtable.cc:58-75 | a new entry holds its next hop and estimate, is available, not blacklisted and has no strikes |
| QTables.AddStrike | clone_repo_TH/ns-3-dev/src/applications/model/qtable.cc:673-682 | a blacklisted entry is unchanged; otherwise one more strike, blacklisted exactly on reaching 5, never more than 5 (the assertion becomes the requires); nothing else changes |
| QTables.DeductStrike | clone_repo_TH/ns-3-dev/src/applications/model/qtable.cc:666-671 | one strike fewer; blacklisted afterwards iff it was and strikes remain |
| QTables.StrikesStayConsistent | clone_repo_TH/ns-3-dev/src/applications/model/qtable.cc:666-682 | both strike operations keep "at most 5, blacklisted at 5, a blacklisted entry has a strike" |
| QTables.StrikesBlacklistAtMaximum | clone_repo_TH/ns-3-dev/src/applications/model/qtable.cc:673-682 | from a clean entry, n strikes give min(start + n, 5) strikes, blacklisted iff start + n reaches 5 |
| QTables.BlacklistedStays | clone_repo_TH/ns-3-dev/src/applications/model/qtable.cc:674-676 | further strikes leave a blacklisted entry unchanged |
| QTables.InitialRow | clone_repo_TH/ns-3-dev/src/applications/model/qtable.cc:148-157 | a neighbour's initial row has one entry per neighbour in order: 0 ms via the neighbour itself, 1 ms via every other |
| QTables.DestinationRow | clone_repo_TH/ns-3-dev/src/applications/model/qtable.cc:354-364 | a new destination's row: with the no-next-hop-known via every estimate is 0 ms; otherwise t via `via` and t + 1 ms via the others; all entries available |
| QTables.RowWithAvailability | clone_repo_TH/ns-3-dev/src/applications/model/qtable.cc:177-181 | exactly the entries via the neighbour get the availability flag; the others stay |
| QTables.MinEstim | clone_repo_TH/ns-3-dev/src/applications/model/qtable.cc:238 | the smallest estimate in a non-empty row: no entry is below it and some entry has it |
| QTables.ResetFromZero | clone_repo_TH/ns-3-dev/src/applications/model/qtable.cc:930-938 | the reset of an all-zero row: 1 ms via the AODV next hop, 0 ms via every other, nothing else changes |
| QTables.SelectBestIsMinimal | clone_repo_TH/ns-3-dev/src/applications/model/qtable.cc:640-646 | the scan's choice is the start entry or an entry via an available next hop, and no entry via an available next hop has a smaller estimate |
| QTables.InitialBestIsDirect | clone_repo_TH/ns-3-dev/src/applications/model/qtable.cc:148-157 | in a new table the best way to an available neighbour is straight to it, at 0 ms |
| QTables.DestinationBestIsVia | clone_repo_TH/ns-3-dev/src/applications/model/qtable.cc:354-364 | for a destination added via an available known next hop at a time t under ten years, the best way is via it at t |
| QTables.RemoveFirst | clone_repo_TH/ns-3-dev/src/applications/model/qtable.cc:220-221 | erasing a listed address removes exactly one occurrence of it; an unlisted address leaves the list |
| QTables.RemoveFirstAt | clone_repo_TH/ns-3-dev/src/applications/model/qtable.cc:220-221 | erasing at the position find returns (the first occurrence) is RemoveFirst |
| QTables.RowMinimum | clone_repo_TH/ns-3-dev/src/applications/model/qtable.cc:238 | the min_element loop returns MinEstim |
| QTables.FindEntry | clone_repo_TH/ns-3-dev/src/applications/model/qtable.cc:449-456 | the entry found via a next hop is in the row and goes via it; nothing is found iff no entry goes via it |
| QTables.FindEntryWellFormed | clone_repo_TH/ns-3-dev/src/applications/model/qtable.cc:449-456 | in a well-formed row of distinct neighbours, the entry via the k-th neighbour is the k-th |
| QTables.SetRowAvailability | clone_repo_TH/ns-3-dev/src/applications/model/qtable.cc:177-181 | the inner loop computes RowWithAvailability |
| QTables.MarkedRows | clone_repo_TH/ns-3-dev/src/applications/model/qtable.cc:176-182 | marking keeps the set of rows |
| QTables.MarkedAll | clone_repo_TH/ns-3-dev/src/applications/model/qtable.cc:176-182 | rows flagged one destination at a time, over all destinations, are MarkedRows |
| QTables.MarkedRowsWellFormed | clone_repo_TH/ns-3-dev/src/applications/model/qtable.cc:176-182 | marking keeps every destination row in the neighbours' order and leaves other rows empty |
| QTables.ExtendedRow | clone_repo_TH/ns-3-dev/src/applications/model/qtable.cc:235-244 | a row extended for a new neighbour keeps its entries and ends with one via the neighbour |
| QTables.ExtendedRows | clone_repo_TH/ns-3-dev/src/applications/model/qtable.cc:234-245 | extending keeps the set of rows |
| QTables.ExtendRows | clone_repo_TH/ns-3-dev/src/applications/model/qtable.cc:234-245 | AddNeighbour's loop computes ExtendedRows: 0 ms where the neighbour is the destination, else the row's minimum + 3 ms (3 ms when there are no neighbours) |
| QTables.ExtendedRowsWellFormed | clone_repo_TH/ns-3-dev/src/applications/model/qtable.cc:234-246 | after extending, every destination row follows the neighbours with the new one appended; other rows stay |
| QTables.IsAllZero | clone_repo_TH/ns-3-dev/src/applications/model/qtable.cc:924-929 | the first loop decides whether every estimate in the row is zero |
| QTables.ResetRow | clone_repo_TH/ns-3-dev/src/applications/model/qtable.cc:930-938 | the second loop computes ResetFromZero |
| QTables.ScanBest | clone_repo_TH/ns-3-dev/src/applications/model/qtable.cc:627-646 | the scan from the default entry computes SelectBest |
| QTables.QTable.constructor | clone_repo_TH/ns-3-dev/src/applications/model/qtable.cc:141-157 | neighbours and destinations are the given neighbours; there is exactly one row per neighbour, and it is InitialRow; the table is Valid |
| QTables.QTable.CheckDestinationKnown | clone_repo_TH/ns-3-dev/src/applications/model/qtable.cc:326-334 | known iff the destination is this node or has a row |
| QTables.QTable.AddDestination | clone_repo_TH/ns-3-dev/src/applications/model/qtable.cc:336-367 | false and no change when the destination has a row; otherwise true, the destination is appended and its row is DestinationRow; Valid is kept |
| QTables.QTable.SetAvailability | clone_repo_TH/ns-3-dev/src/applications/model/qtable.cc:176-182 | the rows become MarkedRows over the destinations; Valid is kept |
| QTables.QTable.MarkNeighbDown | clone_repo_TH/ns-3-dev/src/applications/model/qtable.cc:170-188 | a non-neighbour or an already-unavailable one changes nothing; otherwise it is appended to unavail once and every entry via it becomes unavailable; Valid is kept |
| QTables.QTable.AddNeighbour | clone_repo_TH/ns-3-dev/src/applications/model/qtable.cc:217-250 | an unavailable neighbour's first listing is erased and its entries re-enabled; a new neighbour gets an entry in every destination row (ExtendedRows) and is appended; Valid is kept |
| QTables.QTable.UnmarkNeighbour | clone_repo_TH/ns-3-dev/src/applications/model/qtable.cc:218-228 | the first listing goes and every entry via the neighbour becomes available again |
| QTables.QTable.AppendNeighbour | clone_repo_TH/ns-3-dev/src/applications/model/qtable.cc:232-246 | every destination row is extended for the new neighbour and it is appended to the neighbours |
| QTables.QTable.DestinationLookupsSucceed | clone_repo_TH/ns-3-dev/src/applications/model/qtable.cc:449-456 | in a Valid table GetEntryByRef's assertion holds for every known destination and every available neighbour |
| QTables.QTable.GetNextEstim | clone_repo_TH/ns-3-dev/src/applications/model/qtable.cc:598-664 | a 0 estimate for this node; the random choice at 10.1.1.1 when every neighbour is blacklisted; the no-neighbours sentinel when every neighbour is unreachable; otherwise the SelectBest entry: the default or an entry via an available neighbour, with no available entry below it; when that entry's estimate is still the one-year initial value, the sanity assertion of qtable.cc:662 fails (EstimateStillInitial) |
| QTables.QTable.ChangeQValuesFromZero | clone_repo_TH/ns-3-dev/src/applications/model/qtable.cc:920-940 | an all-zero row becomes ResetFromZero, any other row stays; an unknown destination gets the empty row the lookup creates; Valid is kept |
| QLearners.TrafficPort | clone_repo_TH/ns-3-dev/src/applications/model/q-learner.cc:39-49 | trafficA, trafficB and trafficC have ports 10002, 10003 and 10004, each iff it is that name; every other name has port 0 |
| QLearners.TrafficTypeOf | clone_repo_TH/ns-3-dev/src/applications/model/q-learner.cc:51-65 | the type is always A, B or C |
| QLearners.TrafficTypeOfPath | clone_repo_TH/ns-3-dev/src/applications/model/q-learner.cc:51-65 | only the last '/' segment decides: .../voip is A, .../video is B, any other last segment (not trafficA/B) is C |
| QLearners.LastSegment | clone_repo_TH/ns-3-dev/src/applications/model/q-learner.cc:55-56 | the getline loop leaves the segment after the last '/' |
| QLearners.TrafficString | clone_repo_TH/ns-3-dev/src/applications/model/q-learner.cc:67-88 | every traffic type has a non-empty description, so the fatal branch is unreachable; the description is the VIDEO / TRAFFIC_B (VOIP / TRAFFIC_A) one iff the type goes by the video (voip) table |
| QLearners.DescriptionsDistinguishTypes | clone_repo_TH/ns-3-dev/src/applications/model/q-learner.cc:67-88 | two types share a description iff they are the same type or both go by the video table or both by the voip table |
| QLearners.PortAgreesWithTable | clone_repo_TH/ns-3-dev/src/applications/model/q-learner.cc:39-65 | a ported traffic name and its type agree: trafficA goes by the voip table, trafficB by the video table, trafficC by the general one |
| QLearners.MostRecentIsNewest | clone_repo_TH/ns-3-dev/src/applications/model/q-learner.cc:588-593 | the newest record found is the start or a record of the list, and no record is newer |
| QLearners.LatestBeforeIsLatest | clone_repo_TH/ns-3-dev/src/applications/model/q-learner.cc:619-626 | the record found is the start or a record strictly before ts, and no record before ts is newer |
| QLearners.Recent | clone_repo_TH/ns-3-dev/src/applications/model/q-learner.cc:602-616 | the records kept are records of the list at or after the cutoff |
| QLearners.Cleaned | clone_repo_TH/ns-3-dev/src/applications/model/q-learner.cc:602-616 | cleaning keeps only records of the list and never empties a non-empty list |
| QLearners.EraseFirstStale | clone_repo_TH/ns-3-dev/src/applications/model/q-learner.cc:606-613 | erasing the first stale record from a list of two or more does not change what cleaning keeps (the loop's variant step) |
| QLearners.CleanedFixpoint | clone_repo_TH/ns-3-dev/src/applications/model/q-learner.cc:603-615 | when no record is erasable the list is already cleaned (the loop's exit) |
| QLearners.CutoffAsWritten | clone_repo_TH/ns-3-dev/src/applications/model/q-learner.cc:599 | Now() - 5 s as uint64: five seconds ago after 5 s; in the first five seconds it wraps to a value above now |
| QLearners.Cutoff | clone_repo_TH/ns-3-dev/src/applications/model/q-learner.cc:599 | the intended cutoff: never after now, exactly 5 s before now once 5 s have passed |
| QLearners.CutoffWrapLosesHistory | clone_repo_TH/ns-3-dev/src/applications/model/q-learner.cc:599-627 | at 2 s the wrapped cutoff erases a record from 1 s, and the count sent before 1.5 s reads 0 instead of 1 |
| QLearners.NewRecordSurvives | clone_repo_TH/ns-3-dev/src/applications/model/q-learner.cc:595-599 | with the intended cutoff, the record just pushed survives cleaning and is the last one kept |
| QLearners.FindMostRecent | clone_repo_TH/ns-3-dev/src/applications/model/q-learner.cc:588-593 | the loop computes MostRecent |
| QLearners.FindLatestBefore | clone_repo_TH/ns-3-dev/src/applications/model/q-learner.cc:619-625 | the loop computes LatestBefore |
| QLearners.CleanList | clone_repo_TH/ns-3-dev/src/applications/model/q-learner.cc:602-616 | the restart-on-erase loop computes Cleaned |
| QLearners.QLearner.constructor | clone_repo_TH/ns-3-dev/src/applications/model/q-learner.cc:1220-1225 | three distinct new tables, all valid and in step, each holding this node's address, the given neighbours (also its destinations) and unavailable list, one row per neighbour that is the initial row, and no send history |
| QLearners.QLearner.GetQTable | clone_repo_TH/ns-3-dev/src/applications/model/q-learner.cc:1561-1571 | ICMP, WEB, OTHER, UDP_ECHO and C use the general table, VIDEO and B the video table, VOIP and A the voip table |
| QLearners.QLearner.AddDestination | clone_repo_TH/ns-3-dev/src/applications/model/q-learner.cc:1573-1581 | the three tables agree on whether the destination was new (the assertions hold); the result is that answer; a new destination gets DestinationRow in every table and is appended to its destinations, an old one leaves every row and destination list as it was; neighbours and unavailable lists never change; all stay valid and in step |
| QLearners.QLearner.CheckDestinationKnown | clone_repo_TH/ns-3-dev/src/applications/model/q-learner.cc:1583-1587 | the three tables agree on whether the destination is known, and the answer is that |
| QLearners.QLearner.RoutingPacketViaNeighbToDst | clone_repo_TH/ns-3-dev/src/applications/model/q-learner.cc:586-600 | appends (now, newest count + 1 modulo 2^64, newest loss) to the (via, dst) history, then cleans it with the corrected cutoff, not the wrapping one of q-learner.cc:599 (see Findings and Left out); the tables and other histories stay |
| QLearners.QLearner.CleanTheNumPktsTimestampMap | clone_repo_TH/ns-3-dev/src/applications/model/q-learner.cc:602-616 | the (via, dst) history becomes Cleaned; nothing else changes |
| QLearners.QLearner.GetNumPktsSentViaNeighbToDst | clone_repo_TH/ns-3-dev/src/applications/model/q-learner.cc:618-627 | the count of the newest record strictly before ts, 0 when there is none; the lookup creates an empty history |
| Counters.After | clone_repo_TH/ns-3.26/parse_ALGORITHM_OUTPUT.py:51 | `line.split(tag)[1]` raises IndexError exactly when the tag does not split the line in two |
| Counters.Ints | clone_repo_TH/ns-3.26/parse_ALGORITHM_OUTPUT.py:51-54 | `int()` of every item succeeds iff each item reads as an integer, giving those integers in order; otherwise ValueError |
| Counters.CounterListExcludes | clone_repo_TH/ns-3.26/parse_ALGORITHM_OUTPUT.py:180-187 | a printed counter list holds only digits, slashes and its ending |
| Counters.ValuesOfCounterList | clone_repo_TH/ns-3.26/parse_ALGORITHM_OUTPUT.py:51 | splitting a printed `n0/n1/.../nk/` list on '/' and dropping the piece after the trailing slash gives back exactly the counters |
| Counters.NodeKeyInjective | clone_repo_TH/ns-3.26/parse_ALGORITHM_OUTPUT.py:53 | two node numbers with the same "node<i>" key are equal |
| Counters.StoreLookup | clone_repo_TH/ns-3.26/parse_ALGORITHM_OUTPUT.py:50-54 | after the store loop, "node<i>" holds the i-th value |
| Counters.StoreKeys | clone_repo_TH/ns-3.26/parse_ALGORITHM_OUTPUT.py:50-54 | the keys after storing are the old keys and "node0" .. "node<k-1>" |
| Counters.StoreKeeps | clone_repo_TH/ns-3.26/parse_ALGORITHM_OUTPUT.py:50-54 | a key the loop does not write keeps its value |
| Counters.SecondToLastIsLastValue | clone_repo_TH/ns-3.26/parse_ALGORITHM_OUTPUT.py:58-59 | where the list reads, `split('/')[-2]` is the last node's value |
| Counters.DelayOfReport | clone_repo_TH/ns-3.26/parse_ALGORITHM_OUTPUT.py:60-61 | a delay printed as `+<n>ms` reads back as n |
| Counters.LastWhere | clone_repo_TH/ns-3.26/parse_ALGORITHM_OUTPUT.py:60-61 | the last line satisfying a test: it satisfies it and no later line does; none when no line does |
| AlgorithmOutput.AddValues | clone_repo_TH/ns-3.26/parse_ALGORITHM_OUTPUT.py:56-57 | the sum loop gives total plus the sum of the values, or the ValueError of the first bad item |
| AlgorithmOutput.StoreValues | clone_repo_TH/ns-3.26/parse_ALGORITHM_OUTPUT.py:73-76 | the store loop gives the map with "node<i>" set to the i-th value, or the ValueError |
| AlgorithmOutput.AddAndStoreValues | clone_repo_TH/ns-3.26/parse_ALGORITHM_OUTPUT.py:50-54 | the loop adding and storing gives both results above, or the ValueError |
| AlgorithmOutput.TaggedAdd | clone_repo_TH/ns-3.26/parse_ALGORITHM_OUTPUT.py:55-57 | the values after the tag's `TAG:   ` head, added to the total |
| AlgorithmOutput.TaggedStore | clone_repo_TH/ns-3.26/parse_ALGORITHM_OUTPUT.py:72-76 | the values after the tag's head, stored per node |
| AlgorithmOutput.TaggedAddStore | clone_repo_TH/ns-3.26/parse_ALGORITHM_OUTPUT.py:49-54 | the values after the tag's head, added and stored per node |
| AlgorithmOutput.DataStep | clone_repo_TH/ns-3.26/parse_ALGORITHM_OUTPUT.py:55-61 | the DATA TRAFFIC, DATA REC TRAFFIC and delay branches for one line compute DataLine |
| AlgorithmOutput.DataRecIsLastNode | clone_repo_TH/ns-3.26/parse_ALGORITHM_OUTPUT.py:58-59 | a DATA REC TRAFFIC line adds only the last node's value to the received total |
| AlgorithmOutput.DataLineDelay | clone_repo_TH/ns-3.26/parse_ALGORITHM_OUTPUT.py:60-61 | after a line, the delay is that line's delay if it is a delay line, else the old one |
| AlgorithmOutput.AodvStep | clone_repo_TH/ns-3.26/parse_ALGORITHM_OUTPUT.py:48-61 | the AODV loop body for one line computes AodvLine |
| AlgorithmOutput.ParseAodvOutput | clone_repo_TH/ns-3.26/parse_ALGORITHM_OUTPUT.py:46-61 | the AODV section's loop computes AodvFile: the fold of AodvLine over the lines, stopping at the first exception |
| AlgorithmOutput.AodvErrorSticks | clone_repo_TH/ns-3.26/parse_ALGORITHM_OUTPUT.py:48-61 | once a prefix raises, the whole file raises the same exception |
| AlgorithmOutput.AodvLineStoresPerNode | clone_repo_TH/ns-3.26/parse_ALGORITHM_OUTPUT.py:49-54 | an AODV TRAFFIC line adds all its values to the total and stores value i under "node<i>"; the data counters stay |
| AlgorithmOutput.AodvLineDelay | clone_repo_TH/ns-3.26/parse_ALGORITHM_OUTPUT.py:60-61 | after an AODV-section line, the delay is that line's delay if it is a delay line, else the old one |
| AlgorithmOutput.AodvDelayLastWins | clone_repo_TH/ns-3.26/parse_ALGORITHM_OUTPUT.py:60-61 | the AODV delay is that of the last delay line, 0.0 when there is none |
| AlgorithmOutput.QStep | clone_repo_TH/ns-3.26/parse_ALGORITHM_OUTPUT.py:65-71 | the QoS-Q/Q loop body for one line computes QLine |
| AlgorithmOutput.LrnStep | clone_repo_TH/ns-3.26/parse_ALGORITHM_OUTPUT.py:72-89 | the rest of the elif chain for a line without QLRN TRAFFIC computes LrnLine |
| AlgorithmOutput.ParseQOutput | clone_repo_TH/ns-3.26/parse_ALGORITHM_OUTPUT.py:63-89 | the QoS-Q section's loop (the Q section, 91-117, is the same) computes QFile, stopping at the first exception |
| AlgorithmOutput.QErrorSticks | clone_repo_TH/ns-3.26/parse_ALGORITHM_OUTPUT.py:65-89 | once a prefix raises, the whole file raises the same exception |
| AlgorithmOutput.QlrnContainsLrn | clone_repo_TH/ns-3.26/parse_ALGORITHM_OUTPUT.py:66-77 | every QLRN TRAFFIC line also contains "LRN TRAFFIC", so the test order decides |
| AlgorithmOutput.QlrnLineIsNotLrn | clone_repo_TH/ns-3.26/parse_ALGORITHM_OUTPUT.py:66-82 | a QLRN TRAFFIC line stores its values as Q packets and touches neither learning-traffic table |
| AlgorithmOutput.QLineLearning | clone_repo_TH/ns-3.26/parse_ALGORITHM_OUTPUT.py:66-82 | a line adds its QLRN TRAFFIC values, or else its LRN TRAFFIC values, to the learning total |
| AlgorithmOutput.QLearningTotal | clone_repo_TH/ns-3.26/parse_ALGORITHM_OUTPUT.py:66-82 | the learning total of a file is the sum of what each line adds: both QLRN and LRN TRAFFIC values count |
| AlgorithmOutput.QDelayLastWins | clone_repo_TH/ns-3.26/parse_ALGORITHM_OUTPUT.py:88-89 | the QoS-Q/Q delay is that of the last delay line, 0.0 when there is none |
| AlgorithmOutput.QLineDelay | clone_repo_TH/ns-3.26/parse_ALGORITHM_OUTPUT.py:88-89 | after a QoS-Q/Q line, the delay is that line's delay if it is a delay line, else the old one |
| AlgorithmOutput.DeliveryPercent | clone_repo_TH/ns-3.26/parse_ALGORITHM_OUTPUT.py:121-122 | the percentage raises ZeroDivisionError exactly when no packet was sent; otherwise percentage × sent = received × 100 |
| AlgorithmOutput.FullRows | clone_repo_TH/ns-3.26/parse_ALGORITHM_OUTPUT.py:125-131 | the while loop prints n/3 rows of three |
| AlgorithmOutput.FlattenFullRows | clone_repo_TH/ns-3.26/parse_ALGORITHM_OUTPUT.py:125-131 | the full rows list nodes 0 to 3k-1 in order |
| AlgorithmOutput.RowsCoverNodes | clone_repo_TH/ns-3.26/parse_ALGORITHM_OUTPUT.py:125-134 | the full rows and the last row together list every node exactly once, in order |
| AlgorithmOutput.ReportRows | clone_repo_TH/ns-3.26/parse_ALGORITHM_OUTPUT.py:125-134 | the report's loop and last row produce FullRows and the 1 or 2 remaining nodes |
| AlgorithmOutput.Lookup | clone_repo_TH/ns-3.26/parse_ALGORITHM_OUTPUT.py:118-128 | `d[to_key(i)]` succeeds iff "node<i>" is a key |
| AlgorithmOutput.QCell | clone_repo_TH/ns-3.26/parse_ALGORITHM_OUTPUT.py:144-145 | a QoS-Q/Q entry reads iff the node has Q packets and both learning-traffic entries; otherwise KeyError |
| AlgorithmOutput.QCells | clone_repo_TH/ns-3.26/parse_ALGORITHM_OUTPUT.py:144-149 | a row reads iff each of its entries does; otherwise KeyError |
| AlgorithmOutput.QRowCells | clone_repo_TH/ns-3.26/parse_ALGORITHM_OUTPUT.py:141-155 | all rows read iff each does; otherwise KeyError |
| AlgorithmOutput.RowIndicesBelow | clone_repo_TH/ns-3.26/parse_ALGORITHM_OUTPUT.py:141-155 | every node the report reads is below the node count |
| AlgorithmOutput.QReportComplete | clone_repo_TH/ns-3.26/parse_ALGORITHM_OUTPUT.py:141-155 | when nodes 0..n-1 have entries in all three tables, the report reads without KeyError |
| AlgorithmOutput.QReportAsWritten | clone_repo_TH/ns-3.26/parse_ALGORITHM_OUTPUT.py:163-177 | the Q run's report as written: it fails only with KeyError, has one full row per three nodes and the remaining one or two nodes in the last row, and equals the intended QReport whenever the QoS-Q run counted the same Q packets |
| AlgorithmOutput.QReportReadsQosqTable | clone_repo_TH/ns-3.26/parse_ALGORITHM_OUTPUT.py:163-177 | as written, the Q report's full rows read the QoS-Q run's Q packets: with an empty QoS-Q table it raises KeyError where the intended report reads |
| AlgorithmOutput.AodvCells | clone_repo_TH/ns-3.26/parse_ALGORITHM_OUTPUT.py:128-130 | an AODV row reads iff each of its nodes has an entry |
| AlgorithmOutput.AodvRowCells | clone_repo_TH/ns-3.26/parse_ALGORITHM_OUTPUT.py:125-134 | all AODV rows read iff each does |
| AlgorithmOutput.AodvReportComplete | clone_repo_TH/ns-3.26/parse_ALGORITHM_OUTPUT.py:124-134 | when nodes 0..n-1 have entries, the AODV report reads without KeyError |
| Hyperparam.ValueStep | clone_repo_TH/ns-3.26/plot_hyperparam_graphs.py:23-52 | the loop body for one line computes ValueLine (with TOTAL_QLRN_RECV corrected, see Findings) |
| Hyperparam.GetValueFromAlgorithmOutput | clone_repo_TH/ns-3.26/plot_hyperparam_graphs.py:19-53 | the loop over the file computes GetValue: the fold of ValueLine from the int 0, stopping at the first exception or exit; TOTAL_QLRN_RECV is the corrected rule, not GetValueAsWritten's (see Findings and Left out) |
| Hyperparam.GetValueErrorSticks | clone_repo_TH/ns-3.26/plot_hyperparam_graphs.py:22-52 | once a prefix of the file raises or exits, the whole file gives the same |
| Hyperparam.FoldErrorSticks | clone_repo_TH/ns-3.26/plot_hyperparam_graphs.py:22-52 | once a prefix raises, the fold over the whole file gives the same error |
| Hyperparam.UnknownSelectorExits | clone_repo_TH/ns-3.26/plot_hyperparam_graphs.py:50-52 | an unknown selector exits with status 0 at the first line; an empty file returns 0 |
| Hyperparam.SumWithAdds | clone_repo_TH/ns-3.26/plot_hyperparam_graphs.py:25-26 | a summing branch adds the sum of the listed values to ret |
| Hyperparam.ValueLineSums | clone_repo_TH/ns-3.26/plot_hyperparam_graphs.py:23-46 | under a summing selector each line adds the values of the tag that selector counts on it |
| Hyperparam.FoldAdds | clone_repo_TH/ns-3.26/plot_hyperparam_graphs.py:22-53 | a loop whose every line adds a number ends at the sum of those numbers |
| Hyperparam.SumsEveryLine | clone_repo_TH/ns-3.26/plot_hyperparam_graphs.py:23-46 | TOTAL_LRN_SENT (LRN TRAFFIC lines without QLRN), TOTAL_LRN_RECV (LRN REC TRAFFIC lines without QLRN), DATA_SENT and DATA_RECV sum every value of every line they select |
| Hyperparam.QlrnLinesSkipped | clone_repo_TH/ns-3.26/plot_hyperparam_graphs.py:23-34 | under the three learning selectors a line mentioning QLRN changes nothing |
| Hyperparam.RecvAtDstKeepsLast | clone_repo_TH/ns-3.26/plot_hyperparam_graphs.py:31-34 | TOTAL_LRN_RECV_AT_DST sets ret to the last value listed, or keeps it when none is listed |
| Hyperparam.DelayLastWins | clone_repo_TH/ns-3.26/plot_hyperparam_graphs.py:47-49 | DELAY is the float on the last delay line, or the int 0 when there is none |
| Hyperparam.FoldSame | clone_repo_TH/ns-3.26/plot_hyperparam_graphs.py:22-53 | two loops whose bodies agree on every line agree on every file |
| Hyperparam.ValueLineAsWritten | clone_repo_TH/ns-3.26/plot_hyperparam_graphs.py:23-53 | the loop body as written: every selector but TOTAL_QLRN_RECV is read as ValueLine reads it, and for TOTAL_QLRN_RECV a line mentioning QLRN leaves the value unchanged |
| Hyperparam.GetValueAsWritten | clone_repo_TH/ns-3.26/plot_hyperparam_graphs.py:19-53 | as written, TOTAL_QLRN_RECV gives on every file what the corrected GetValue gives for TOTAL_LRN_SENT, and every other selector gives its corrected value |
| Hyperparam.QlrnLineMentionsQlrn | clone_repo_TH/ns-3.26/plot_hyperparam_graphs.py:35-38 | a QLRN TRAFFIC line mentions QLRN, so as written its branch skips it |
| Hyperparam.QlrnLineValues | clone_repo_TH/ns-3.26/plot_hyperparam_graphs.py:35-38 | a printed QLRN TRAFFIC line lists its Q packets |
| Hyperparam.QlrnRecvMissesQPackets | clone_repo_TH/ns-3.26/plot_hyperparam_graphs.py:35-38 | as written, on a file listing Q packets TOTAL_QLRN_RECV reports 0 |
| Hyperparam.QlrnRecvCountsQPackets | clone_repo_TH/ns-3.26/plot_hyperparam_graphs.py:35-38 | as corrected, the same file gives the sum of its Q packets |
| Hyperparam.Label | clone_repo_TH/ns-3.26/plot_hyperparam_graphs.py:61-70 | labels_dict: a selector has a non-empty axis label iff the value loop handles it, that is, iff reading a line does not exit |
| Hyperparam.ParamValues | clone_repo_TH/ns-3.26/plot_hyperparam_graphs.py:72-80 | each hyperparameter has exactly four values |
| Hyperparam.CreateGraphAlgout | clone_repo_TH/ns-3.26/plot_hyperparam_graphs.py:55-86 | the label is looked up first (KeyError for an unknown selector), then each file's value (GetValue, with TOTAL_QLRN_RECV corrected, see Left out) is paired with the parameter's value at the same index |
| Hyperparam.PointsErrorSticks | clone_repo_TH/ns-3.26/plot_hyperparam_graphs.py:82-85 | once a prefix of the files fails, the whole run fails the same way |
| Hyperparam.PointsPairUp | clone_repo_TH/ns-3.26/plot_hyperparam_graphs.py:82-85 | on success the parameter is known, there are at most four files, and the i-th x is the parameter's i-th value while the i-th y is GetValue of the i-th file |
| Hyperparam.FifthFileFails | clone_repo_TH/ns-3.26/plot_hyperparam_graphs.py:82-85 | a fifth file has no parameter value to pair with, so the run raises |
| QRoutes.NodeOf | clone_repo_TH/ns-3-dev/src/applications/model/qlrn-test-base.cc:617-619 | the node found owns the address; none is found exactly when no interface has it |
| QRoutes.UnvisitedShrinks | clone_repo_TH/ns-3-dev/src/applications/model/qlrn-test-base.cc:614-615 | recording a new address as seen leaves strictly fewer addresses to visit, so the walk ends |
| QRoutes.StepOf | clone_repo_TH/ns-3-dev/src/applications/model/qlrn-test-base.cc:614-657 | a round that moves on does so from a node other than the destination, to a next hop that is not the sentinel and was not seen; a round that reaches the destination adds no id of its own |
| QRoutes.WalkIsChain | clone_repo_TH/ns-3-dev/src/applications/model/qlrn-test-base.cc:614-658 | the learned route is a chain of distinct nodes, each naming the next one's address as its next hop, starting at the source |
| QRoutes.WalkEndsAsNamed | clone_repo_TH/ns-3-dev/src/applications/model/qlrn-test-base.cc:643-657 | the destination is reached only from a node naming it; the no-neighbours ending comes from a node naming the sentinel |
| QRoutes.WalkStopsEarly | clone_repo_TH/ns-3-dev/src/applications/model/qlrn-test-base.cc:623-641 | a loop ends at a node naming an address already visited; an unknown destination ends at a node whose learner does not know it |
| QRoutes.SelfHopIsLoop | clone_repo_TH/ns-3-dev/src/applications/model/qlrn-test-base.cc:636-640 | a node naming itself gives the route of that node alone, ended as a loop |
| QRoutes.WalkUnfolds | clone_repo_TH/ns-3-dev/src/applications/model/qlrn-test-base.cc:614-658 | the route from an address is the ids its round adds followed by the route from where that round leads |
| QRoutes.VisitNode | clone_repo_TH/ns-3-dev/src/applications/model/qlrn-test-base.cc:617-657 | one round of the loop computes the round's step: the ids it adds and the address it moves to |
| QRoutes.OnTrackStep | clone_repo_TH/ns-3-dev/src/applications/model/qlrn-test-base.cc:614-658 | one round keeps the collected ids plus the rest of the walk equal to the whole route and leaves fewer addresses to visit |
| QRoutes.GetQRoute | clone_repo_TH/ns-3-dev/src/applications/model/qlrn-test-base.cc:608-660 | without Q-learning the route is empty; with it the loop returns exactly the learned route |
| QRoutes.RoundAsWritten | clone_repo_TH/ns-3-dev/src/applications/model/qlrn-test-base.cc:614-658 | one round of the loop as written: it returns only on an address some interface owns, each round adds at most one node id to the route, and on an unowned address that is neither the destination nor the no-neighbour sentinel it moves on to the previous round's next hop |
| QRoutes.UnownedHopSpins | clone_repo_TH/ns-3-dev/src/applications/model/qlrn-test-base.cc:614-658 | as written, on an address no interface owns (not the destination, 1.1.1.1 or the sentinel) the loop keeps the same current node and result however many rounds run, and never returns |
| QRoutes.UnownedHopNeverEnds | clone_repo_TH/ns-3-dev/src/applications/model/qlrn-test-base.cc:614-658 | a two-node network whose first learner names 9.9.9.9 is not well formed, and the loop as written moves onto 9.9.9.9 and stays there |
| QRoutes.RouteInRange | clone_repo_TH/ns-3-dev/src/applications/model/qlrn-test-base.cc:644-651 | every id on a learned route names a node |
| QRoutes.PairLines | clone_repo_TH/ns-3-dev/src/applications/model/qlrn-test-base.cc:1545-1549 | the first n lines are the pair lines (address of route[i+1], route[i]) in order |
| QRoutes.TraceFile | clone_repo_TH/ns-3-dev/src/applications/model/qlrn-test-base.cc:1538-1553 | the file holds the source line, the destination line, then one line per consecutive pair of the route |
| QRoutes.PrintQRouteToFile | clone_repo_TH/ns-3-dev/src/applications/model/qlrn-test-base.cc:1533-1555 | the lines written are exactly the trace file of the learned route, whose ids all name nodes |
| QRoutes.WritePairs | clone_repo_TH/ns-3-dev/src/applications/model/qlrn-test-base.cc:1545-1553 | the loop appends exactly the pair lines of the route after the header |
| QRoutes.VerifyQRouteResults | clone_repo_TH/ns-3-dev/src/applications/model/qlrn-test-base.cc:681-715 | true if and only if the expectation is empty, or the lengths agree and each position matches or holds the wildcard |
| QlrnRoutes.Line | clone_repo_TH/ns-3.26/2DPlot.py:69-78 | a pair line adds one pair to the path and binds the next hop to it; only a destination line changes the destination id |
| QlrnRoutes.ParseQlrnRoutes | clone_repo_TH/ns-3.26/2DPlot.py:63-86 | the method computes exactly the loop over the lines and the closing pair |
| QlrnRoutes.LinesErrorSticks | clone_repo_TH/ns-3.26/2DPlot.py:68-78 | an exception on a line ends the whole loop with it |
| QlrnRoutes.NoDestinationExits | clone_repo_TH/ns-3.26/2DPlot.py:82-84 | without a destination line the id stays -1 and the script exits with 111 |
| QlrnRoutes.PrintedFile | clone_repo_TH/ns-3-dev/src/applications/model/qlrn-test-base.cc:1538-1548 | a trace file has two header lines and one line per pair |
| QlrnRoutes.PairsPath | clone_repo_TH/ns-3.26/2DPlot.py:70-71 | one path element per pair |
| QlrnRoutes.SourceLineReads | clone_repo_TH/ns-3.26/2DPlot.py:73-75 | the source line written for an address reads back as that address appended to the path |
| QlrnRoutes.DestinationLineReads | clone_repo_TH/ns-3.26/2DPlot.py:76-78 | the destination line reads back as the address and its last octet minus one |
| QlrnRoutes.PairLineReads | clone_repo_TH/ns-3.26/2DPlot.py:69-71 | a pair line reads back as its pair and binds the next hop |
| QlrnRoutes.PrintedFileLines | clone_repo_TH/ns-3.26/2DPlot.py:68-78 | reading a whole trace file yields the source, the pairs, the destination and its id |
| QlrnRoutes.PrintedFileReads | clone_repo_TH/ns-3.26/2DPlot.py:63-86 | a trace file with pairs reads back as the source, the pairs and (last next hop, destination id), found exactly when the last next hop is the destination |
| QlrnRoutes.NoPairsNoNextHop | clone_repo_TH/ns-3.26/2DPlot.py:85 | a trace file without pair lines never binds the next hop and fails with a NameError |
| QlrnRoutes.RoutePairs | clone_repo_TH/ns-3-dev/src/applications/model/qlrn-test-base.cc:1545-1549 | one pair per consecutive pair of route nodes |
| QlrnRoutes.TraceFileIsPrinted | clone_repo_TH/ns-3-dev/src/applications/model/qlrn-test-base.cc:1538-1553 | the C++ writer's lines are the trace file of the source, the last node and the route's pairs |
| QlrnRoutes.TraceFilePrintable | clone_repo_TH/ns-3-dev/src/applications/model/qlrn-test-base.cc:1538-1548 | every address written is in dotted decimal |
| QlrnRoutes.FoundIff | clone_repo_TH/ns-3.26/2DPlot.py:86 | distinct interfaces print as distinct addresses, so address equality is node equality |
| QlrnRoutes.TraceFileReadsBack | clone_repo_TH/ns-3.26/2DPlot.py:63-86 | a printed route of two or more nodes reads back as its pairs closed by the destination, found exactly when the route ends at the last node |
| QlrnRoutes.ShortRouteHasNoNextHop | clone_repo_TH/ns-3.26/2DPlot.py:85 | a printed route of fewer than two nodes reads back as a NameError |
| AodvRoutes.LastDstRow | clone_repo_TH/ns-3.26/2DPlot.py:28-30 | the index returned is a row naming a destination (third field not 127.0.0.1) with no such row after it; None exactly when no row names one |
| AodvRoutes.FirstSrcRow | clone_repo_TH/ns-3.26/2DPlot.py:31-32 | the index returned is a row naming a source (third field non-empty) with no such row before it; None exactly when no row names one |
| AodvRoutes.ScanLineFails | clone_repo_TH/ns-3.26/2DPlot.py:29-30 | one line of the first pass fails if and only if it has exactly two tab-separated fields, and then with IndexError |
| AodvRoutes.ScanFails | clone_repo_TH/ns-3.26/2DPlot.py:28-32 | the first pass succeeds if and only if no line has exactly two fields; a failure is IndexError |
| AodvRoutes.ScanFindsDst | clone_repo_TH/ns-3.26/2DPlot.py:26-30 | the destination found is the third field of the last row naming one, or 0.0.0.0 when none does |
| AodvRoutes.ScanFindsSrc | clone_repo_TH/ns-3.26/2DPlot.py:27-32 | the source found is the third field of the first row naming one, or 0.0.0.0 when none does |
| AodvRoutes.FindEndpoints | clone_repo_TH/ns-3.26/2DPlot.py:25-32 | the loop over the lines computes exactly the first pass |
| AodvRoutes.ScanErrorSticks | clone_repo_TH/ns-3.26/2DPlot.py:28-32 | once a prefix of the dump fails, the whole first pass fails with the same error |
| AodvRoutes.LastEntry | clone_repo_TH/ns-3.26/2DPlot.py:43-45 | the index returned is an entry for the destination with the given interface key and no such entry after it; None exactly when there is none |
| AodvRoutes.TableLineSets | clone_repo_TH/ns-3.26/2DPlot.py:39-45 | one line sets the table only at the key of an entry for the destination and leaves every other key as it was |
| AodvRoutes.TableKeepsLastEntry | clone_repo_TH/ns-3.26/2DPlot.py:37-45 | the next-hop table holds exactly the keys of entries for the destination, each with the gateway of its last entry |
| AodvRoutes.BuildNextHops | clone_repo_TH/ns-3.26/2DPlot.py:37-45 | the loop over the lines computes exactly the second pass; an entry before any `Node:` line raises NameError before its missing third field is looked at, as Python evaluates the stored pair first |
| AodvRoutes.TablesErrorSticks | clone_repo_TH/ns-3.26/2DPlot.py:39-45 | once a prefix of the dump fails the second pass, the whole pass fails with the same error |
| AodvRoutes.FollowExtends | clone_repo_TH/ns-3.26/2DPlot.py:50-55 | the walk keeps the path it started with as a prefix and appends only pairs not already on it |
| AodvRoutes.FollowChains | clone_repo_TH/ns-3.26/2DPlot.py:50-56 | every appended pair is the table's entry for the address current before it and the walk moves on to that pair's gateway |
| AodvRoutes.FollowStops | clone_repo_TH/ns-3.26/2DPlot.py:50-58 | the walk stops only at the destination, at an address without an entry, or at a pair already on the path |
| AodvRoutes.FollowPath | clone_repo_TH/ns-3.26/2DPlot.py:48-58 | the while loop computes exactly the walk from the source |
| AodvRoutes.FinishFound | clone_repo_TH/ns-3.26/2DPlot.py:59-61 | the intended ending reports found if and only if the path's last address is the destination and then closes it with (destination, id) |
| AodvRoutes.FinishAsWritten | clone_repo_TH/ns-3.26/2DPlot.py:59-61 | the ending as written: IndexError exactly when the path is an empty source string; otherwise the path comes back unchanged or closed with (destination, id), and when it ends in a pair the result is the intended Finish |
| AodvRoutes.SourceAtDestinationMissed | clone_repo_TH/ns-3.26/2DPlot.py:59-61 | when the source is the destination (two or more characters) the code as written reports the route not found |
| AodvRoutes.SourceAtDestinationFound | clone_repo_TH/ns-3.26/2DPlot.py:59-61 | the intended ending closes that path and reports the destination found |
| AodvRoutes.WalkFromDestination | clone_repo_TH/ns-3.26/2DPlot.py:50 | a walk starting at the destination stops at once whatever the table |
| AodvRoutes.ParseAodvRoutes | clone_repo_TH/ns-3.26/2DPlot.py:22-61 | the method computes the two passes, the walk and the intended ending Finish; the as-written ending FinishAsWritten differs only when the path is the source alone (see Findings and Left out) |
| TestParsing.Substr | clone_repo_TH/ns-3-dev/src/applications/model/qlrn-test.cc:51 | std::string::substr yields at most the requested length and a prefix of the text from the position |
| TestParsing.GetValueAbsent | clone_repo_TH/ns-3-dev/src/applications/model/qlrn-test.cc:37-55 | without the delimiter the default comes back uncounted, except that a first comma where the unsigned end wraps to 0 is fatal |
| TestParsing.ValueBetween | clone_repo_TH/ns-3-dev/src/applications/model/qlrn-test.cc:40-51 | a delimiter ending before the first comma yields the text between them and counts one more value |
| TestParsing.ValueEmpty | clone_repo_TH/ns-3-dev/src/applications/model/qlrn-test.cc:46-53 | a delimiter followed at once by the first comma is a fatal missing value |
| TestParsing.ValueWrapped | clone_repo_TH/ns-3-dev/src/applications/model/qlrn-test.cc:46-51 | a first comma before the end of the delimiter wraps the unsigned end, so the value runs to the end of the line |
| TestParsing.GetValueFoundBefore | clone_repo_TH/ns-3-dev/src/applications/model/qlrn-test.cc:31-56 | GetValue with the delimiter before the first comma returns the text between them and counts it |
| TestParsing.GetValueFoundAfter | clone_repo_TH/ns-3-dev/src/applications/model/qlrn-test.cc:31-56 | GetValue with the first comma inside or before the delimiter returns the rest of the line and counts it |
| TestParsing.GetValueFoundEmpty | clone_repo_TH/ns-3-dev/src/applications/model/qlrn-test.cc:31-56 | GetValue with the comma right after the delimiter is fatal |
| TestParsing.GetValueOfEntry | clone_repo_TH/ns-3-dev/src/applications/model/qlrn-test.cc:31-56 | a line prefix, key, value, comma, rest reads as the value and counts it |
| TestParsing.GetValueMissing | clone_repo_TH/ns-3-dev/src/applications/model/qlrn-test.cc:52-53 | a key followed directly by a comma is fatal |
| TestParsing.GetValueAfterEarlierComma | clone_repo_TH/ns-3-dev/src/applications/model/qlrn-test.cc:46-51 | a line with a comma before the key reads the value as everything after the key |
| TestParsing.RouteItems | clone_repo_TH/ns-3-dev/src/applications/model/qlrn-test.cc:273-276 | the route list succeeds if and only if every item reads, and then holds each item's value in order |
| TestParsing.SplitQRouteInput | clone_repo_TH/ns-3-dev/src/applications/model/qlrn-test.cc:267-279 | the getline loop computes exactly the list of the items' values, "*" as the wildcard |
| TestParsing.RouteItemsErrorSticks | clone_repo_TH/ns-3-dev/src/applications/model/qlrn-test.cc:273-276 | an item that fails std::stoi ends the whole parse with that failure |
| TestParsing.ReadsRouteText | clone_repo_TH/ns-3-dev/src/applications/model/qlrn-test.cc:267-279 | a route written as ids and "*" joined by a delimiter reads back as the same route |
| TestParsing.EventsStep | clone_repo_TH/ns-3-dev/src/applications/model/qlrn-test.cc:65-107 | one round of the loop: a line without an event ends the list, a bad event is fatal, a good one is pushed before the rest |
| TestParsing.EventsAfter | clone_repo_TH/ns-3-dev/src/applications/model/qlrn-test.cc:65-107 | from any point of the loop, running past the file is fatal and otherwise the next line decides the whole result |
| TestParsing.EventsAreTheEventLines | clone_repo_TH/ns-3-dev/src/applications/model/qlrn-test.cc:65-107 | the events read are exactly those of the consecutive event lines from the start, and the line after them holds no event |
| TestParsing.EventsFromLines | clone_repo_TH/ns-3-dev/src/applications/model/qlrn-test.cc:58-112 | each event read is what its line's text between the event key and the first closing brace parses to |
| TestParsing.UnknownTypeIsFatal | clone_repo_TH/ns-3-dev/src/applications/model/qlrn-test.cc:83-89 | an event whose type name is none of the six is fatal |
| TestParsing.ReadsEvent | clone_repo_TH/ns-3-dev/src/applications/model/qlrn-test.cc:75-92 | a written event other than TRAFFIC reads back as its time, node, type and value |
| TestParsing.ReadsTrafficEvent | clone_repo_TH/ns-3-dev/src/applications/model/qlrn-test.cc:93-102 | a written TRAFFIC event reads back with its receiver, duration and traffic type |
| TestParsing.ShortTrafficEventRejected | clone_repo_TH/ns-3-dev/src/applications/model/qlrn-test.cc:94-96 | a TRAFFIC event missing its receiver reads the value again as the receiver and fails the assertion |
| TestParsing.EventList.constructor | clone_repo_TH/ns-3-dev/src/applications/model/qlrn-test.cc:27 | a new test starts with no events |
| TestParsing.EventList.ReadEventLine | clone_repo_TH/ns-3-dev/src/applications/model/qlrn-test.cc:66-101 | one round reads exactly the line's event or its absence |
| TestParsing.EventList.ParseEvent | clone_repo_TH/ns-3-dev/src/applications/model/qlrn-test.cc:58-112 | the loop appends exactly the events of the lines read, answers false, and fails exactly when reading fails |
| TestParsing.ExpectedResult | clone_repo_TH/ns-3-dev/src/applications/model/qlrn-test.cc:229-234 | a node's expected count exists exactly for a node in range and is that node's Q, AODV or data count for types 0 to 2 |

## Left out

- Several parts of the simulator are not modelled:
  - the routing protocols (aodv-routing-protocol.cc, tqlrn-routing-protocol.cc);
  - the learner's Route/Receive/Send callbacks and qos-q-learner.cc;
  - the Q-value updates (Update, CalculateNewQValue, SetQValue, GetRandomEstim);
  - the neural-network code and the traffic generators.

  They are socket, timer and simulator callbacks, floating-point learning rules and `rand()` draws over ns-3 APIs that are not part of this model.
- The matplotlib sections of the scripts, and every `print`, are not modelled. Files are given as sequences of lines. The route dumps and the hyperparameter files are readline results with their newline. The ALGORITHM_OUTPUT files are given as `file_iter`'s output, `line[:-1]`, and a final line without a newline, whose last real character `[:-1]` drops, is given already cut. PrintQRouteToFile returns the lines it would write.
- Floating point is not modelled. Delays, losses and the hyperparameter values are exact decimals (`real`), so rounding is not captured. DeliveryPercent divides exactly, and a zero divisor is a ZeroDivisionError.
- Text.Stof reads plain decimal numerals only: exponents, hexadecimal floats, `inf` and `nan` are not modelled.
- Text.PyInt and Text.PyFloat accept signs, ASCII whitespace and decimal digits only. Python's underscores, exponents, `inf`/`nan` and Unicode digits are not modelled.
- The byte order of ns-3's Buffer::Iterator and TagBuffer (least significant byte first for WriteU16/U32/U64, network order for WriteHtonU32 and Ipv4Address::Serialize) follows ns-3's implementation, which is not part of this model. Likewise the tags' declared sizes take `sizeof(Ipv4Address)` (thomas-packet-tags.h:111,364) as the 4 bytes written, since the layout of ns-3's Ipv4Address object is not part of this model.
- QLrnHeaders.QLrnHeader.constructor: the fatal branch for an unknown traffic type is not reachable. The traffic type is a datatype that holds only the valid types, and the byte decoding covers the unknown codes.
- QRoutes.GetQRoute: each learner's answer for the destination is an input (DstUnknown or a next hop). How GetNextHop chooses it is not modelled.
- QRoutes.GetQRoute requires every next hop to be an interface, the destination, a sentinel or 1.1.1.1. For any other address the loop as written never ends (see Findings); RoundAsWritten models that loop for any next hop.
- PacketTables: the `int` counters are unbounded. A 32-bit overflow after 2^31 enqueues of one packet is not modelled.
- TestParsing.GetValueOfEntry and TestParsing.GetValueAfterEarlierComma assume lines shorter than 2^32 characters, because `begin` and `end` are `uint`. GetValueAbsent and ValueWrapped state the wrap-around cases.
- The test readers QLrnTest::ParseNode, QLrnTestResult::ParseNode and FromFile, and the rest of qlrn-test-base.cc (node placement, wifi setup, application installation), are not modelled. Only the GetValue, split_q_route_input and ParseEvent readers they build on are modelled.
- Tag and header Deserialize methods require a buffer holding at least the serialised size. ns-3 asserts this on the buffer iterator, so the model does not treat a shorter buffer as an error path. The Q-learning headers do check the remaining size, and that check is modelled.
- QTables.QTable.constructor and QLearners.QLearner.constructor require the neighbour list to hold no address twice. The C++ constructor does not check this; its only caller passes the AODV neighbour list, which holds one entry per address.
- TqlrnPackets.HelloHeader.GetSerializedSize returns the corrected size 4, not the source's 0 (see Findings).
- TqlrnPackets.HelloHeader.Serialize promises 4 bytes, the corrected GetSerializedSize; the source declares 0 for the same 4 bytes.
- TqlrnPackets.HelloHeader.Deserialize omits the assertion that the bytes read equal GetSerializedSize(). As written it compares 4 with 0 and can never hold; HelloSizeMismatch states that.
- QLearners.QLearner.RoutingPacketViaNeighbToDst cleans with the intended cutoff Cutoff, not CutoffAsWritten, the wrapping uint64 of q-learner.cc:599. The two differ during the first five seconds (see Findings).
- Hyperparam.ValueStep computes ValueLine, whose TOTAL_QLRN_RECV sums the QLRN TRAFFIC values; the script's branch repeats the TOTAL_LRN_SENT rule, which ValueLineAsWritten models (see Findings).
- Hyperparam.GetValueFromAlgorithmOutput computes GetValue, not GetValueAsWritten; they differ only for TOTAL_QLRN_RECV (see Findings).
- Hyperparam.CreateGraphAlgout pairs each file with GetValue, not GetValueAsWritten; they differ only for TOTAL_QLRN_RECV (see Findings).
- AodvRoutes.ParseAodvRoutes ends with the intended Finish, not FinishAsWritten. They can differ only when the walk adds nothing to the source, as when the source is the destination (see Findings; FinishAsWritten states the rest).

## Findings

| source | as written | input that shows it | evidently intended | confidence | as-written member | corrected member |
|---|---|---|---|---|---|---|
| clone_repo_TH/ns-3-dev/src/applications/model/qlrn-test-base.cc:614-658 | when a learner names a next hop that no node's interface owns, the interface search finds nothing, `currNode` stays on that address and the while loop never ends | a two-node network, 10.1.1.1 and destination 10.1.1.2, where 10.1.1.1's learner names 9.9.9.9 | a walk that always ends: GetQRoute takes as a precondition that every next hop names a node, the destination, a sentinel or 1.1.1.1, and under it the loop is proved to end with the learned route | not executed | QRoutes.UnownedHopNeverEnds | QRoutes.GetQRoute |
| clone_repo_TH/ns-3.26/src/tqlrn/model/tqlrn-packet.cc:121-130 | HelloHeader::GetSerializedSize returns 0 but Serialize writes the 4-byte request id | any HELLO header: 4 bytes written where 0 are declared | a serialised size of 4 | not executed | TqlrnPackets.HelloSizeMismatch | TqlrnPackets.HelloRoundTrip |
| clone_repo_TH/ns-3-dev/src/applications/model/q-learner.cc:599 | the cleaning cutoff Now() - Seconds(5) is taken as a uint64 and wraps round in the first five seconds | records sent at 1 s and 2 s, cleaned at 2 s: the 1 s record is erased and the count sent before 1.5 s reads 0 | a cutoff of five seconds ago and no earlier than time zero | not executed | QLearners.CutoffWrapLosesHistory | QLearners.NewRecordSurvives |
| clone_repo_TH/ns-3.26/2DPlot.py:59-61 | `path_output[-1][0]` on a path that is only the source string takes the source's first character | source and destination both 10.1.1.2: the route is reported not found | compare the last element's address with the destination | not executed | AodvRoutes.SourceAtDestinationMissed | AodvRoutes.SourceAtDestinationFound |
| clone_repo_TH/ns-3.26/parse_ALGORITHM_OUTPUT.py:166-171 | the Q run's per-node rows print the QoS-Q run's Q packets | a QoS-Q run with no Q packets and a Q run of three nodes: KeyError | print the Q run's own Q packets | not executed | AlgorithmOutput.QReportReadsQosqTable | AlgorithmOutput.QReportComplete |
| clone_repo_TH/ns-3.26/plot_hyperparam_graphs.py:35-38 | TOTAL_QLRN_RECV repeats the TOTAL_LRN_SENT test, which skips every line mentioning QLRN | a file whose only counter line is `QLRN TRAFFIC:   1/2/3/`: the value is 0 | sum the QLRN TRAFFIC values | not executed | Hyperparam.QlrnRecvMissesQPackets | Hyperparam.QlrnRecvCountsQPackets |
