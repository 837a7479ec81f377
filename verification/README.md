# srtmp: a Dafny model

The project models the media core of an RTMP server and client and proves what its parts are for.

- **RTMP chunk layer** (Adobe RTMP 1.0, sections 5.3.1 to 5.4.4): a message is cut into chunks, a connection
  reads the chunks of many streams back into messages, swallows control messages, retunes its chunk size in mid-stream
  and acknowledges what it received. Files `Bytes`, `ReadWriter`, `Chunks`, `OlderChunks`, `ChunkStream`,
  `Connection`, `RtmpConn`, and the results in `Transfer`, `TimestampLimit`, `Interleaving`, `Compression`, `Turns`,
  `OlderReader`, `Acks`.
- **MPEG-TS muxer and CRC** (ISO/IEC 13818-1, sections 2.4.3.2 to 2.4.3.7 and Annex A): `Crc32`, `TsFormat`,
  `TsMuxer`, and the reference demultiplexer with the results in `TsDemux`.
- **H.264 framing** (ITU-T H.264, Annex B.1; ISO/IEC 14496-15): `Buffers`, `AnnexB`, `FlvTag`, `Flv`, `H264`, and
  `Framing` from the packing call to the player.
- **AMF0 and AMF3**: the values and what comes back of them in `AmfValues`, `KeyOrder`, `AmfExpected`, `AmfDates`; the
  formats in `Amf0Format`, `Amf3Format`, `AmfExternal`, `AmfBatch`; the classes in `AmfEncoder`, `AmfDecoder`; the
  results in `Amf0RoundTrip`, `Amf3RoundTrip`, `AmfBatch`, and against second writers in `Amf0Sender`, `Amf3Sender`; the
  metadata wrapping in `Metadata`.
- **Stream relay**: one player's writer in `StreamWriter` and what it delivers in `Delivery`, the cache in `Cache`, the
  relay as a step system in `Relay`, what every step keeps in `RelayInvariant`, its runs over all interleavings in
  `RelayRuns` and, from publisher to player, `RelayDelivery`, two failures of it in `RelayFailures`, the loop's own code
  in `RtmpStream`.

Code that changes fields, buffers or lists in place is a class whose methods are proved equal to a function of the old
state; the results are lemmas about those functions, for all inputs or all runs. Where a property holds only under a
condition, the condition is given in both directions; the exceptions are named under "Left out".

What the code does differently from what one would expect, as proved here:

- `Read` hands out the 24-bit timestamp field (`TimestampLimit.TimestampExact`); the older reader keeps all 32 bits.
- `Read` does not move the time on at a compressed header: the message has the time of the last whole one, unlike the
  comment in `chunk_stream.go` (`Compression.TimesExactly`).
- `ParseNalusN` looks four bytes ahead and leaves the data at a last unit under four bytes: a panic, or whatever is
  behind the data in the slice (`AnnexB.SplitInvertsJoin`).
- `PackVideoData` splits into three units at most and does not split at all unless the first is an SPS or PPS
  (`Framing.PublishToPlay`). Data that open with a 3-byte start code are sent whole, start codes and all
  (`Framing.ShortCodeGoesWhole`).
- `Write` sends a WindowAckSize message that is too short for the peer, whose `Read` then panics or takes old bytes of
  the buffer (`Transfer.ShortWindowAck`); a SetChunkSize message that names 1 to 3 is misread (`Transfer.ShortChunkSize`).
- `writeTs` subtracts 2^33 - 1 instead of 2^33 (`TsDemux.FieldExact`); the PCR branch of `Mux` cannot be reached.
- AMF3 arrays and objects referred to are looked up at half their place (`Amf3Sender.RefersToHalf`), where an object's own
  entry is nil and arrays are numbered behind their elements.
- AMF3 integers from 2^28 come back negative although the encoder's limit is 2^29 - 1, and a `bytes.Reader` cannot read
  an empty string at the very end of the data (`Amf3RoundTrip.Amf3RoundTrip`).
- `MetaDataReform` removes 16 bytes whatever the encoding of the string was (`Metadata.DeletesExactly`), an array
  collection around it included (`Metadata.CollectionCounts`).
- Rebased timestamps can go down when packets wait in a player's queue at a hand-over (`StreamWriters.LeftOverGoesDown`)
  and when the cache still holds a header of the old publisher (`RelayFailures.StaleHeader`).
- The writer of a player handed over after the stream's loop has exited stays open until the player itself closes it
  (`RelayRuns.StaysOpen`), and a player who leaves before the loop has taken it up can end the process
  (`RelayFailures.CrashExactly`).

`dafny verify dfyconfig.toml` checks the project.

## Model

| member | source | states |
|---|---|---|
| ReadWriters.ReadWriter.ReadUintBE | protocol/core/read_writer.go:39-53 | the loop reads exactly n bytes and returns the big-endian number they denote modulo 2^32; a short stream sets the sticky read error and is used up |
| ReadWriters.ReadWriter.ReadUintLE | protocol/core/read_writer.go:56-70 | the same for little-endian numbers, each byte shifted to its place |
| ReadWriters.ReadWriter.WriteUintBE | protocol/core/read_writer.go:98-110 | appends the n low bytes of the number, most significant first |
| ReadWriters.ReadWriter.WriteUintLE | protocol/core/read_writer.go:113-125 | appends the n low bytes of the number, least significant first |
| ReadWriters.ReadWriter.ReadInto | protocol/core/read_writer.go:24-31 | io.ReadFull into part of a buffer: the bytes read, the rest of the buffer unchanged, and the sticky error |
| Bytes.FromBEOfBE | protocol/core/read_writer.go:39-110 | reading back what WriteUintBE wrote gives the number, for every width it fits |
| Bytes.BEOfFromBE | protocol/core/read_writer.go:39-110 | writing what ReadUintBE read gives the bytes back |
| Bytes.FromLEOfLE | protocol/core/read_writer.go:56-125 | reading back what WriteUintLE wrote gives the number |
| ChunkStreams.ChunkStream.Alloc | protocol/core/chunk_stream.go:140-146 | a fresh message: index 0, everything remaining, not complete; the buffer is reused when it is long enough |
| ChunkStreams.ChunkStream.WriteHeader | protocol/core/chunk_stream.go:149-191 | the bytes written are basic header, message header of the format and extended timestamp; a message of more than 0xFFFFFF bytes is refused |
| ChunkStreams.ChunkStream.WriteChunk | protocol/core/chunk_stream.go:194-230 | the loop writes exactly the message cut into chunks of the given size: type 0 first, type 3 after it, nothing for an empty message |
| Chunks.SplitIsSplit | protocol/core/chunk_stream.go:194-230 | the chunks of a message are its pieces in order: first of type 0 with the full header, the others of type 3, payloads concatenating to the data |
| Chunks.BasicRoundTrip | protocol/core/chunk_stream.go:149-163 | the three forms of the basic header carry every csid from 2 to 65599 and every format, and are read back with the same rest |
| ChunkStreams.ChunkStream.ReadChunk | protocol/core/chunk_stream.go:232-324 | one chunk read in place equals the specified transition of the partial message: header fields, Pts, timeDelta, index, remain, complete, data and the bytes left |
| Chunks.ReadChunkApplies | protocol/core/chunk_stream.go:232-324 | on the encoding of a well-shaped chunk the reader consumes exactly that chunk and does what the chunk says |
| Chunks.OpensMessage | protocol/core/chunk_stream.go:232-324 | the first chunk of a message brings the partial message to the state of having its first bytes |
| Chunks.ContinuesMessage | protocol/core/chunk_stream.go:232-324 | every further chunk extends the prefix that has been read |
| RtmpConns.RtmpConn.Read | protocol/core/rtmp_conn.go:49-103 | the call returns the message, consumes the bytes and leaves the connection in the state that the specification of reading a chunk sequence gives, with the acks written to the output |
| RtmpConns.RtmpConn.Write | protocol/core/rtmp_conn.go:105-110 | the new chunk size is adopted before a SetChunkSize message is written; the bytes appended are the message cut at the size then in force; it fails on more than 0xFFFFFF bytes, and where Go panics on a SetChunkSize body that is short or names 0 |
| RtmpConns.RtmpConn.HandleControlMsg | protocol/core/rtmp_conn.go:160-174 | types 1 to 6 are swallowed; only SetChunkSize and WindowAckSize change the connection, and a short body fails |
| RtmpConns.RtmpConn.Ack | protocol/core/rtmp_conn.go:176-187 | both counters grow, the first wraps at 0xF0000000, and reaching the window writes one ack and clears the count |
| RtmpConns.RtmpConn.SendAck | protocol/core/rtmp_conn.go:138-210 | the ack message that initControlMsg builds, written at the chunk size in force |
| Connection.DrainIsRepeatedRead | protocol/core/rtmp_conn.go:49-103 | reading until the input ends is calling Read again and again: same messages, same acks, same final state |
| Connection.StepTakes | protocol/core/rtmp_conn.go:49-103 | a turn of the loop on the encoding of a chunk routes that chunk to its csid and consumes exactly its bytes |
| Transfer.EndToEnd | protocol/core/rtmp_conn.go:49-110 | for every list of messages through Write, SetChunkSize messages anywhere among them, repeated Read by the peer returns exactly the non-control non-empty ones, in order and equal in payload, type, stream id, timestamp and rewritten csid; both sides agree on the chunk size afterwards, whatever follows |
| Transfer.ReadsMessage | protocol/core/chunk_stream.go:194-324 | one message of any length at any chunk size is read back whole and leaves what follows it |
| Transfer.ShortWindowAck | protocol/core/rtmp_conn.go:160-174 | a WindowAckSize message of one to three bytes, at any chunk size, ends the peer's reading for good if and only if no message before left a buffer of four bytes on its stream |
| Transfer.ShortChunkSize | protocol/core/rtmp_conn.go:105-110 | a SetChunkSize message that names 1 to 3 makes a peer with larger chunks adopt a size of at least 192 |
| Transfer.WriteOpens | protocol/core/chunk_stream.go:149-230 | the bytes of a nonempty message open with format 0 and chunk stream 4 for type 8, 6 for types 9, 18 and 15, and otherwise its own; then, in numbers, the timestamp up to 0xFFFFFF, the length, the type and the little-endian stream id |
| TimestampLimit.TimestampExact | protocol/core/chunk_stream.go:265-306 | at every chunk size the timestamps Read gives back are exactly those below 0xFFFFFF, and 0xFFFFFF itself when the message fits one chunk |
| TimestampLimit.LosesHighBits | protocol/core/chunk_stream.go:289-306 | a larger timestamp arrives as 0xFFFFFF even in a single chunk |
| TimestampLimit.Misreads | protocol/core/chunk_stream.go:275-324 | with more than one chunk, of any size, the repeated extended timestamp is taken for data and the message does not come back |
| TimestampLimit.NeverReads | protocol/core/rtmp_conn.go:73-101 | once a byte of the message is wrong in the buffer and all bytes left are needed, no input makes Read hand the message out, however it goes on |
| Interleaving.Interleaved | protocol/core/rtmp_conn.go:73-101 | however the chunks of several streams are interleaved, the messages handed out on one csid are those cut up for it, in order |
| Interleaving.Projection | protocol/core/rtmp_conn.go:73-101 | what the demultiplexer does on one csid is what it would do on the chunks of that csid alone |
| Interleaving.SoloReassembles | protocol/core/chunk_stream.go:232-324 | one csid alone: every message cut into well-formed chunks is handed out whole |
| Interleaving.SplitIsPart | protocol/core/chunk_stream.go:194-230 | the chunks writeChunk produces, at any chunk size, are such a cut |
| Interleaving.KeepsAssembling | protocol/core/chunk_stream.go:289-324 | index + remain = length, complete iff nothing remains, and the data are a prefix of the payload after a chunk exactly when the chunk does not overrun or restart the message |
| Interleaving.ReachableAssembling | protocol/core/rtmp_conn.go:73-101 | the same invariant in every state that a disciplined chunk sequence reaches |
| Interleaving.MessageIsItsPayloads | protocol/core/chunk_stream.go:311-323 | a completed message is the concatenation of the payloads of its chunks |
| Interleaving.DrainRuns | protocol/core/rtmp_conn.go:49-103 | reading the bytes of a chunk sequence is running the chunk sequence |
| Compression.CompressedArrive | protocol/core/chunk_stream.go:232-324 | the messages of a peer that compresses its headers (types 1, 2 and 3), cut and interleaved with other streams in any way, are handed out in order with data, type and stream id; their time and format are those of the last whole header and the last header |
| Compression.TimesExactly | protocol/core/chunk_stream.go:253-309 | where time moves on, all of them have their own times exactly if every header is of type 0 |
| Compression.ThreeFrames | protocol/core/chunk_stream.go:103-108 | the example of the documentation, meant as 100, 120 and 140, is handed out as 100, 100 and 100 |
| ChunkStreams.ChunkStream.ReadChunk1 | protocol/core/chunk_stream.go:326-424 | the older reader in place equals its specification, with its extended timestamps on type-3 chunks |
| OlderReader.ExtendedTimeRoundTrip | protocol/core/chunk_stream.go:165-424 | for every 32-bit timestamp, 1..0xFFFFFF bytes and any chunk size of at least 1, readChunk1 recovers timestamp and payload of what writeChunk wrote and consumes every repeated timestamp |
| OlderReader.ReadersAgree | protocol/core/chunk_stream.go:232-424 | on chunks without extended timestamp the two readers consume the same bytes and make the same of them; their times agree exactly when a type-3 chunk does not reopen after a type-0 header with an old delta |
| OlderReader.RunsAgree | protocol/core/chunk_stream.go:232-424 | the same over whole runs |
| OlderReader.PtsIsRunningSum | protocol/core/chunk_stream.go:289-306 | Pts is the running sum of the deltas modulo 2^32, each added once a message |
| Acks.AckAccount | protocol/core/rtmp_conn.go:176-187 | one ack reports or keeps every byte, except for the 2^32 lost exactly when the 32-bit sum wraps, and nothing is due after it |
| Acks.AckAccounting | protocol/core/rtmp_conn.go:85-100 | over any run of Read the acks plus the open count equal the bytes of completed messages less 2^32 for each addition that wraps: exact if and only if none does; nothing is left due |
| Acks.SafeWindowsDoNotWrap | protocol/core/rtmp_conn.go:176-187 | none does while every window stays at or below 2^32 - 2^24 |
| Acks.ReceivedBounded | protocol/core/rtmp_conn.go:176-187 | received stays below 0xF0000000 in every run, so its addition never wraps |
| Turns.EveryTurn | protocol/core/rtmp_conn.go:73-101 | in every run a turn sends an ack if and only if the bytes completed since the last one reach the window, which is the big-endian number of the last message of type 5 or the one in force before; the ack names their number; a message is handed out if and only if its type is none of 1 to 6 |
| Turns.NewConnection | protocol/core/rtmp_conn.go:25-47 | the same on a new connection, from count 0 and window 2500000 |
| Turns.AfterRun | protocol/core/rtmp_conn.go:49-210 | after any run the messages handed out, the acks sent, the chunk size (the last type 1 number), the window and both counters are those the completed messages give |
| Turns.AckBytesAre | protocol/core/rtmp_conn.go:138-210 | the sixteen bytes of an ack: type 3, chunk stream 2, four bytes, the number most significant byte first |
| Turns.AckArrives | protocol/core/rtmp_conn.go:189-210 | at any chunk size a peer completes exactly that message: type 3, chunk stream 2, time 0, with the number sent |
| Crc32.GenCrc32 | container/ts/crc32.go:3-78 | the table-driven loop computes the bit-by-bit remainder by 0x04C11DB7 with initial value 0xFFFFFFFF, for every byte string |
| Crc32.TableEntry | container/ts/crc32.go:4-69 | each of the 256 table entries is eight bitwise steps on its index |
| Crc32.FeedIsTable | container/ts/crc32.go:71-77 | one table step equals eight bitwise steps, for every register and byte |
| Crc32.SectionChecks | container/ts/crc32.go:71-77 | a section followed by four bytes leaves residue 0 exactly when they are its CRC, most significant first |
| TsMuxer.PesHeaderBuffer.Packet | container/ts/muxer.go:292-342 | the PES header for any pair of times: stream id, flags, lengths, pts and, for video with another dts, dts |
| TsMuxer.PesHeaderBuffer.WriteTs | container/ts/muxer.go:345-364 | five bytes of a time stamp with marker bits; at 2^33 and above 2^33 - 1 is subtracted |
| TsMuxer.Muxer.AdaptationBufInit | container/ts/muxer.go:258-268 | the adaptation field that pads the last packet |
| TsMuxer.Muxer.FillPacket | container/ts/muxer.go:55-152 | one turn of the byte-index loop: whatever is left in the reused buffer, the 188 bytes are header, stuffing and the next bytes of the PES packet |
| TsMuxer.Muxer.Mux | container/ts/muxer.go:34-159 | the call writes exactly the packets of the PES packet and advances one continuity counter |
| TsMuxer.Muxer.PAT | container/ts/muxer.go:162-197 | the program association packet, its CRC included, and the counter |
| TsMuxer.Muxer.PMT | container/ts/muxer.go:199-256 | the program map packet for the given streams, its CRC included, and the counter |
| TsFormat.PsiSectionsCheck | container/ts/muxer.go:162-256 | the section in every PAT or PMT packet checks to 0 with the bitwise CRC |
| TsDemux.TablesLeadToStreams | container/ts/muxer.go:162-256 | a receiver that starts at PID 0 finds program 1 with its map on 0x1001, and there the clock and the streams: 0x1B on 0x100 if there is video, 0x0F or 0x04 on 0x101 |
| TsDemux.MuxInversion | container/ts/muxer.go:34-159 | after any mix of audio and video calls a reference demuxer recovers on PID 0x100 every video packet and on 0x101 every other: stream id 0xE0 or 0xC0, data, and the milliseconds and composition time times 90 in 33 bits, one too many where they do not fit |
| TsDemux.RunRecoveredExactly | container/ts/muxer.go:34-159 | the recovered dts is 90 times the milliseconds and the pts that of their sum with the composition time of video, for all packets exactly when all of them are in 0..2^33-1 |
| TsDemux.FieldExact | container/ts/muxer.go:345-364 | a time stamp survives modulo 2^33 exactly if it is below 2^33 |
| TsDemux.PacketRoundTrip | container/ts/muxer.go:55-152 | a packet of 188 bytes parses back to pid, counter, start flag and payload, stuffed or not; the parser refuses error and scrambling bits, flags in the adaptation field and stuffing other than 0xFF |
| TsDemux.PesRoundTrip | container/ts/muxer.go:292-342 | a PES packet with any pair of times parses back to stream id, both time stamps and data, with the fixed bits and marker bits of the standard, its length field being right, or 0 where 16 bits are not enough |
| TsDemux.CountersStep | container/ts/muxer.go:55-75 | over any run each PID's continuity counters step by 1 modulo 16 |
| TsDemux.PacketCount | container/ts/muxer.go:55-158 | a call writes ceil(n / 184) packets |
| AnnexB.ParseNalusN | media/h264/parser.go:270-327 | the scanning loop computes the specified split, for any bytes between length and capacity of the slice, slices beyond the capacity included |
| AnnexB.SplitInvertsJoin | media/h264/parser.go:270-327 | for any units free of start codes, any mix of 3- and 4-byte codes, every limit n and any spare capacity: the first n - 1 units and the unsplit rest, or all units; it fails exactly when a last unit under four bytes has to be scanned and the bytes behind it are too few or make up a start code with it |
| AnnexB.RoundTripExactly | media/h264/parser.go:270-327 | all units come back exactly when none ends in a zero before a short start code; otherwise each such unit loses that zero |
| AnnexB.UnitsFit | media/h264/parser.go:270-327 | for every input the pieces are not empty, at most n, and together not longer than the data |
| FlvTags.MuxerTagData | container/flv/tag.go:672-700 | the header of a video tag, with any composition time, of an audio tag, or of a script tag, in the buffer of five bytes |
| FlvTags.PackAudioData | container/flv/tag.go:609-639 | format 10 only: the flags byte in numbers, the byte 1 for raw data, and the data; every other format is refused |
| FlvTags.VideoRoundTrip | container/flv/tag.go:242-269 | the header of a video tag is read back if and only if frame type and codec have four bits, the composition time 24 bits and no sign, and only AVC has a packet type and a composition time |
| FlvTags.AudioRoundTrip | container/flv/tag.go:222-239 | that of an audio tag, if and only if every field has its bits and only AAC has a packet type |
| Flv.PackVideoData | container/flv/tag.go:450-543 | the buffer filled through the moving index: tag header and length-prefixed units, or the error |
| Flv.Player.HandleVideo | client.go:200-279 | what the application is handed for one video message, in order, and how the loop ends |
| Framing.UnpackInverts | client.go:251-272 | the reading loop ends with no residue exactly on the length-prefixed form of what it delivered |
| Framing.UnpackStops | client.go:251-272 | behind units and a tail that is no unit the loop delivers the units and stops: with the residue if under four bytes are left, else with the error |
| Framing.ArrivesAsSplit | container/flv/tag.go:450-543 | whatever the data: the error cases, and otherwise the player gets the units as they were split, with frame type 1 if the first is of type 5, 7 or 8, else 2 |
| Framing.FirstByte | container/flv/tag.go:450-543 | the first byte is 0x17 if the first H.264 unit is of type 5, 7 or 8 and 0x27 otherwise, 0x11 for JPEG and 0x12 for H.263; then the packet type and three zeros for H.264; no other codec is packed |
| Framing.PublishToPlay | container/flv/tag.go:450-543 | an access unit of any length, with or without a leading start code and with any spare capacity, arrives unit by unit with no residue if and only if it does not open with a 3-byte start code and it starts with SPS or PPS and has three units, or two of which the last can be scanned, or one of at least four bytes, or it is a single other unit |
| Framing.ShortCodeGoesWhole | container/flv/tag.go:453-466 | data that open with a 3-byte start code are sent and played as one inter frame, start codes and all |
| Framing.OtherCodecs | container/flv/tag.go:483-543 | JPEG and H.263 frames arrive whole as key frames |
| Flv.AVCDecoderConfigurationRecord | media/h264/parser.go:330-385 | the record of an sps and a pps; an argument that is a bare start code counts as empty |
| Flv.NewAVCSequenceHeader | container/flv/tag.go:272-299 | tag header of a key frame and sequence header, then the record |
| Flv.ParseAVCSequenceHeader | container/flv/tag.go:302-372 | the reader-driven loops compute the specified sets, short reads padded with zeros |
| Framing.ConfigRoundTrip | container/flv/tag.go:302-372 | both sets come back exactly when neither is a bare start code, both fit 16 bits and the pps is not empty |
| Framing.SequenceHeaderPlays | client.go:228-248 | the message NewAVCSequenceHeader builds makes the player hand out the sps and then the pps |
| Framing.SequenceHeaderInBytes | container/flv/tag.go:272-299 | byte by byte: 0x17, packet type 0, no composition time, version 1, profile 66, level 40, 0xFF, 0xE1, and both sets with their 16-bit lengths |
| Framing.AnyRecordPlays | container/flv/tag.go:302-372 | from a record of any encoder, with any profile, up to 31 sps and 255 pps, all sets are read in order, and the player hands out the first of each kind |
| H264.Parser.ParseSpecificInfo | media/h264/parser.go:107-151 | the stored parameter sets grow by both sets behind start codes, or the error |
| H264.StoredExactly | media/h264/parser.go:107-151 | from the record the parser stores exactly both sets if and only if the sps has 1..65535 bytes, the length of the pps is not a multiple of 65536, and neither is a bare start code |
| H264.Parser.GetAnnexbH264 | media/h264/parser.go:175-247 | the output is the delimiter and the specified body, up to the fault if there is one, and pps holds the in-band sets |
| H264.SucceedsExactly | media/h264/parser.go:175-247 | success exactly on nonempty concatenations of nonempty length-prefixed units |
| H264.StopsAtFault | media/h264/parser.go:175-247 | behind units and a tail that is no unit: the units so far, with the error for a length that is missing or the one for a length that is 0 or too large |
| H264.BodySnoc | media/h264/parser.go:191-245 | one more unit adds the sets only before the first IDR unit, and itself only if it is a slice, an IDR or an SEI |
| H264.FirstIdrIsFirst | media/h264/parser.go:199-215 | the place of the sets is the first unit whose type, the low five bits of its first byte, is 5 |
| H264.Parser.Parse | media/h264/parser.go:249-262 | the dispatch: sequence header, Annex B data passed through, or conversion |
| H264.ConversionSplitsBack | media/h264/parser.go:175-327 | cutting the converted stream at its start codes gives the delimiter and the units of type 1, 5 and 6 in order, with those of type 7 and 8 met so far, or else the stored ones, once before the first of type 5; only a first unit of one byte is taken for Annex B already |
| Amf3RoundTrip.U29RoundTrip | protocol/amf/encoder_amf3.go:414-431 | decoding inverts encoding over 0..2^29-1 and reads exactly the bytes written |
| Amf3RoundTrip.U29IsGroups | protocol/amf/decoder_amf3.go:462-484 | the number is read from seven bits of up to three bytes and eight of a fourth, most significant first |
| Amf3RoundTrip.StartsWithMarker | protocol/amf/encoder_amf3.go:13-80 | every encoding starts with the marker of its type, 1 to 10 |
| AmfEncoder.Encoder.EncodeAmf3Uint29 | protocol/amf/encoder_amf3.go:414-431 | one to four bytes, or an error above 2^29-1 |
| AmfEncoder.Encoder.EncodeAmf3Utf8 | protocol/amf/encoder_amf3.go:394-412 | length and bytes of a string, with the 32-bit length arithmetic |
| AmfEncoder.Encoder.EncodeAmf3 | protocol/amf/encoder_amf3.go:13-80 | the bytes written step by step are the encoding of the tree with sorted properties, and the count is their number |
| AmfEncoder.Encoder.EncodeAmf3Array | protocol/amf/encoder_amf3.go:226-259 | header, empty key and elements |
| AmfEncoder.Encoder.EncodeAmf3Object | protocol/amf/encoder_amf3.go:263-360 | sealed traits with sorted properties, then the values in that order |
| KeyOrder.OrderIndependent | protocol/amf/encoder_amf3.go:278-282 | trees of the same value are written alike, in whatever order their maps were iterated |
| KeyOrder.SortIncreasing | protocol/amf/encoder_amf3.go:282 | the sorted keys are strictly increasing |
| AmfDecoder.Decoder.DecodeU29 | protocol/amf/decoder_amf3.go:462-484 | the loop over at most four bytes computes the value and consumes exactly its bytes |
| AmfDecoder.Decoder.DecodeReferenceInt | protocol/amf/decoder_amf3.go:486-496 | reference or inline value |
| AmfDecoder.Decoder.DecodeAmf3 | protocol/amf/decoder_amf3.go:10-46 | value, remaining bytes and reference tables as specified, or the fault |
| AmfDecoder.Decoder.DecodeAmf3String | protocol/amf/decoder_amf3.go:116-145 | a string by reference or inline, with the table growing for nonempty ones |
| AmfDecoder.Decoder.DecodeAmf3Date | protocol/amf/decoder_amf3.go:151-184 | a date by reference or inline |
| AmfDecoder.Decoder.DecodeAmf3Array | protocol/amf/decoder_amf3.go:190-234 | a dense array, appended to the table after its elements |
| AmfDecoder.Decoder.DecodeAmf3Object | protocol/amf/decoder_amf3.go:238-373 | traits, sealed values and dynamic entries, or one of the three built-in externalizable classes; the object table grows by a nil before the object is read |
| AmfDecoder.Decoder.DecodeBuiltIn | protocol/amf/decoder_amf3.go:297-328 | the three externalizable classes every decoder knows, the array collection stored a second time; another class needs a handler |
| AmfDecoder.Decoder.DecodeAsyncMessage | protocol/amf/decoder_amf3_external.go:10-37 | the fields of an abstract message, then those of an asynchronous one |
| AmfDecoder.Decoder.DecodeAcknowledgeMessage | protocol/amf/decoder_amf3_external.go:40-54 | an asynchronous message and one more set of flags |
| AmfDecoder.Decoder.ReadFlags | protocol/amf/decoder_amf3_external.go:113-127 | flag bytes up to and with the first without the high bit |
| AmfDecoder.Decoder.DecodeExternal | protocol/amf/decoder_amf3_external.go:66-111 | a value for every flag that is set, under the name of the field set or a made-up one, in order |
| AmfDecoder.Decoder.DecodeFlags | protocol/amf/decoder_amf3_external.go:76-108 | one byte of flags: the named fields and then the others up to bit 5 |
| AmfExternal.NoExtras | protocol/amf/decoder_amf3_external.go:93-94 | the guard in front of the second loop skips nothing |
| AmfExternal.FirstFields | protocol/amf/decoder_amf3_external.go:76-108 | which named field each bit of the first byte of flags stands for |
| AmfExternal.FurtherFields | protocol/amf/decoder_amf3_external.go:76-108 | the same for a byte with two names: bits 0 and 1, and made-up names for bits 2 to 5 |
| AmfDecoder.Decoder.DecodeAmf3Xml | protocol/amf/decoder_amf3.go:379-423 | XML by reference or inline |
| AmfDecoder.Decoder.DecodeAmf3ByteArray | protocol/amf/decoder_amf3.go:429-460 | a byte array by reference or inline |
| Amf3Format.Dec | protocol/amf/decoder_amf3.go:10-46 | every successful call consumes at least one byte; the decoders, built-in externalizable classes included, terminate on every byte string with the remaining bytes as measure |
| Amf3Format.DecElems | protocol/amf/decoder_amf3.go:223-229 | a successful array loop has read at least as many bytes as the count |
| Amf3RoundTrip.Amf3RoundTrip | protocol/amf/decoder_amf3.go:10-496 | from any tables and in front of any rest, decoding the encoding gives the expected value and exactly the rest; it is the value itself exactly when every integer is in 0..2^28-1, the dates survive the float conversions and there is no class name, and, for a bytes.Reader, not both the value ends in an empty string and the data end there |
| Amf3RoundTrip.CollectionIsTransparent | protocol/amf/decoder_amf3.go:309-316 | an array collection decodes to what is inside it, or fails as that fails, whatever that is, with its class name, traits and place added to the tables |
| Amf3RoundTrip.CollectionRoundTrip | protocol/amf/decoder_amf3_external.go:57-63 | an encoded value inside an array collection is decoded as if it stood alone |
| Amf3Sender.Arrives | protocol/amf/decoder_amf3.go:10-496 | what a second writer sends, with the tables of sections 1.3.2 and 3 of AMF 3, is decoded in front of any rest to the value, the rest and the same tables: strings already sent, and traits, as references to their places, dynamic members overriding sealed ones, XML, dates and byte arrays |
| Amf3Sender.TextArrives | protocol/amf/decoder_amf3.go:116-145 | a string by reference is the one at that place among the nonempty ones sent in line so far |
| Amf3Sender.RefersTo | protocol/amf/decoder_amf3.go:151-460 | a date, XML or byte array by reference is the entry of the object table at that place, of that kind, or a fault |
| Amf3Sender.RefersToHalf | protocol/amf/decoder_amf3.go:190-252 | an array or object by reference is looked up at half its place; it is the right one exactly when the same is there |
| Amf3Sender.AsyncArrives | protocol/amf/decoder_amf3_external.go:10-37 | an asynchronous message sent as flags and values is decoded to the object of its fields, those of the abstract part first |
| Amf3Sender.AcknowledgeArrives | protocol/amf/decoder_amf3_external.go:40-54 | an acknowledging message likewise, with its own flags behind those |
| AmfExpected.SeenIsPlain | protocol/amf/decoder_amf3.go:79-95 | the condition under which a value is kept, both ways |
| AmfDates.DatesInRange | protocol/amf/encoder_amf3.go:200-222 | where float64 arithmetic is exact, a date of up to 9007199254740 seconds on either side of 1970 comes back |
| AmfDates.KeptInRange | protocol/amf/decoder_amf3.go:79-95 | so a value comes back when its integers are in 0..2^28-1, its dates in that range, and there is no class name |
| AmfDates.WholeRoundTrip | protocol/amf/encoder_amf3.go:205-216 | the eight bytes of a whole number below 2^53 give that number |
| AmfEncoder.Encoder.EncodeAmf0 | protocol/amf/encoder_amf0.go:10-56 | the bytes written are the encoding of the tree, long strings switched at 65535 bytes, and the count is their number |
| AmfEncoder.Encoder.EncodeAmf0String | protocol/amf/encoder_amf0.go:108-131 | marker, 16-bit length and bytes |
| AmfEncoder.Encoder.EncodeAmf0Object | protocol/amf/encoder_amf0.go:137-173 | keys and values in iteration order, then the end marker |
| AmfEncoder.Encoder.EncodeAmf0StrictArray | protocol/amf/encoder_amf0.go:236-261 | count and elements |
| AmfEncoder.Encoder.EncodeAmf0EcmaArray | protocol/amf/encoder_amf0.go:207-230 | count and the object form |
| AmfDecoder.Decoder.DecodeAmf0 | protocol/amf/decoder_amf0.go:9-53 | value, remaining bytes and tables as specified, or the fault, AMF3 values behind marker 0x11 included |
| AmfDecoder.Decoder.DecodeAmf0String | protocol/amf/decoder_amf0.go:95-116 | a string with a 16-bit length |
| AmfDecoder.Decoder.DecodeAmf0LongString | protocol/amf/decoder_amf0.go:271-288 | a string with a 32-bit length |
| AmfDecoder.Decoder.DecodeAmf0Object | protocol/amf/decoder_amf0.go:122-154 | entries up to the empty key and the end marker, later keys overriding |
| AmfDecoder.Decoder.DecodeAmf0EcmaArray | protocol/amf/decoder_amf0.go:202-216 | the unused count and the object form |
| AmfDecoder.Decoder.DecodeAmf0StrictArray | protocol/amf/decoder_amf0.go:222-244 | as many values as the count says |
| AmfDecoder.Decoder.DecodeAmf0TypedObject | protocol/amf/decoder_amf0.go:318-339 | class name and object |
| AmfDecoder.Decoder.DecodeAmf0Date | protocol/amf/decoder_amf0.go:251-265 | eight bytes and two that are dropped |
| Amf0Format.Dec | protocol/amf/decoder_amf0.go:9-53 | every successful call consumes at least one byte, through AMF3 too |
| Amf0Format.DecElems | protocol/amf/decoder_amf0.go:235-241 | a successful array loop has read at least as many bytes as the count |
| Amf0RoundTrip.Amf0RoundTrip | protocol/amf/decoder_amf0.go:9-288 | in front of any rest, decoding the encoding of any iteration order gives the same value and exactly the rest; it is the value itself exactly when it holds no integer, which comes back as a float |
| Amf0RoundTrip.EcmaRoundTrip | protocol/amf/decoder_amf0.go:202-216 | the associative form decodes to the same object as the plain one, whatever its count |
| Amf0RoundTrip.KeysExactly | protocol/amf/decoder_amf0.go:130-150 | an object comes back exactly when each of its keys has 1..65535 bytes |
| Amf0Sender.Arrives | protocol/amf/decoder_amf0.go:9-339 | what a second writer sends is decoded in front of any rest to the value and the rest: numbers, strings of both lengths, XML, dates with a zone, plain, associative and typed objects with their class name, lists, and AMF3 values behind marker 17 |
| Amf0Sender.EncoderSends | protocol/amf/encoder_amf0.go:10-173 | whenever the encoder succeeds on something the format can carry, it writes exactly the bytes of that second writer |
| Amf0Sender.NothingElse | protocol/amf/decoder_amf0.go:9-53 | every other marker, and a truth value above one, is an error |
| AmfEncoder.Encoder.EncodeBatch | protocol/amf/amf.go:32-39 | the encodings one after the other, up to the first error |
| AmfDecoder.Decoder.DecodeBatch | protocol/amf/amf.go:9-19 | the values up to the first error, and that error |
| AmfEncoder.Encoder.Encode | protocol/amf/amf.go:41-50 | the version dispatch |
| AmfDecoder.Decoder.Decode | protocol/amf/amf.go:21-30 | the version dispatch |
| AmfBatch.Batch | protocol/amf/amf.go:9-19 | the loop ends after at most as many values as there are bytes |
| AmfBatch.BatchRoundTrip | protocol/amf/amf.go:9-39 | a batch comes back value by value and ends with io.EOF; with AMF3 and a bytes.Reader a last value that ends in an empty string is lost with another error |
| Metadata.MetaDataReform | protocol/amf/metadata.go:30-70 | the payload with or without the prefix, or the error |
| Metadata.AddsThePrefix | protocol/amf/metadata.go:36-50 | adding puts the bytes 2, 0, 13 and the letters of @setDataFrame in front of any payload that starts with another string |
| Metadata.WrappingLaws | protocol/amf/metadata.go:30-70 | adding is idempotent, deleting after adding is deleting, and it gives the payload back where the prefix was not there, for every payload |
| Metadata.DeletesExactly | protocol/amf/metadata.go:52-63 | deleting removes exactly the first value if and only if it is a short string or an AMF3 string with a one-byte length |
| Metadata.CollectionCounts | protocol/amf/metadata.go:52-63 | an array collection around the string counts as the string: adding leaves the payload alone, and deleting cuts into it |
| Metadata.FrameIsThere | protocol/amf/metadata.go:60-62 | cutting 16 bytes off never leaves the slice |
| StreamWriters.StreamWriter.Write | protocol/stream_rw.go:119-149 | the whole new state of a call: gate, bounded queue, drop, refusal |
| StreamWriters.StreamWriter.SendPacket | protocol/stream_rw.go:152-186 | one round of the sending goroutine: rebased timestamp, record, and what an error or a closed queue does |
| StreamWriters.StreamWriter.CalcBaseTimestamp | av/rwbase.go:28-34 | the base becomes the larger of the last timestamps sent |
| StreamWriters.StreamWriter.RecTimeStamp | av/rwbase.go:36-42 | the last timestamp of its track |
| StreamWriters.StreamWriter.Close | protocol/stream_rw.go:203-209 | closed for good |
| StreamWriters.GateOverRuns | protocol/stream_rw.go:119-149 | in every run and for every pattern of full-queue drops, Write takes a packet exactly when the writer is open, the queue has room and, for a non-key video packet, the latest key frame offered before was taken too |
| Delivery.Delivers | protocol/stream_rw.go:119-186 | over any run of a writer, what has been sent followed by the queue is everything Write reported as taken and the cache put in, in order and each once, until the writer ends; the i-th sent has the kind of the i-th taken and its time plus the base then in force modulo 2^32 |
| Delivery.Reported | protocol/stream_rw.go:119-149 | a call reports its packet, whether the writer was open, and whether fewer than 1024 were waiting |
| Delivery.ClosedExactly | protocol/stream_rw.go:152-209 | a writer is closed after a run exactly if some event closed it or an error of the connection ended it |
| Delivery.BaseOverRuns | av/rwbase.go:28-42 | over any run a hand-over makes the larger of the last times sent on the two tracks the base, and nothing else changes it |
| StreamWriters.NeverDecreasing | protocol/stream_rw.go:152-186 | per track the sent timestamps never decrease across any number of hand-overs, if what the publishers and the cache send is nondecreasing, sums do not wrap and nothing with a positive timestamp is left in the queue at a hand-over |
| StreamWriters.LeftOverGoesDown | protocol/stream.go:182-185 | if an open writer has anything with a positive timestamp in its queue at a hand-over, the events of a publisher that starts at zero make its timestamps go down |
| StreamWriters.GuardExactly | protocol/stream.go:182-185 | at a hand-over of an open writer the queue holds nothing with a positive timestamp if and only if the timestamps stay in order whatever legal events follow |
| Caches.Cache.Write | protocol/cache/cache.go:33-57 | the slot of the packet is filled: metadata, a key frame that is an H.264 sequence header, an AAC sequence header |
| Caches.Cache.Send | protocol/cache/cache.go:60-86 | the cached packets go into the queue up to the first that finds it full |
| Caches.HoldsExactly | protocol/cache/cache.go:33-57 | the cache holds something exactly when there has been something for it; it is never emptied |
| Caches.SendsTheLatest | protocol/cache/cache.go:60-86 | what is sent is the latest packet of each kind and nothing else |
| Caches.SendsInOrder | protocol/cache/cache.go:60-86 | metadata go before video and video before audio, at most one packet of each |
| RtmpStreams.RtmpStream.OnPacket | protocol/stream.go:128-150 | the loop over the writers and the compaction in place: each gets the packet once, those with an error are closed and leave the list, the order stays |
| RtmpStreams.RtmpStream.Compact | protocol/stream.go:140-147 | the nil places go, the others stay in order |
| RtmpStreams.RtmpStream.OnWriter | protocol/stream.go:151-166 | a writer joins with what the cache sends first; if that does not fit, it is closed and the loop exits; if its player has closed it, the process dies |
| RtmpStreams.RtmpStream.OnReader | protocol/stream.go:167-171 | the first publisher starts at once, a later one waits for the closed one to end |
| RtmpStreams.RtmpStream.FinishHandOver | protocol/stream.go:173-188 | the channel is drained, every writer rebased, the next publisher started |
| RtmpStreams.RtmpStream.OnTick | protocol/stream.go:190-215 | exit without a live publisher, else the writers that are not alive are closed and removed in place |
| RtmpStreams.RtmpStream.CloseStream | protocol/stream.go:220-243 | publisher, waiting publishers and writers, and every writer of the list are closed |
| RtmpStreams.RtmpStream.PushPacket | protocol/stream.go:105-108 | the packet enters the channel if there is room, else it is dropped |
| RtmpStreams.RtmpStream.ReadPacket | protocol/stream.go:97-104 | one packet read by the publisher's goroutine and put into the cache, which holds what the packets so far leave in it |
| RelayInvariant.InvStep | protocol/stream.go:93-243 | every step keeps: what is on its way comes from the current publisher, in order and behind everything offered; writers are accounted for; the gate holds |
| RelayRuns.InvAlways | protocol/stream.go:93-243 | in every state of every run, for any interleaving of publishers, players and the loop: packets on their way come from the current publisher, in order and behind everything offered; writers are accounted for; the gate holds |
| RelayRuns.OfferedInTurn | protocol/stream.go:128-150 | in every run the packets offered to a writer are a subsequence of those read, grouped by publisher |
| RelayRuns.OfferedByCurrent | protocol/stream.go:167-189 | in every run the packet offered next was read from the publisher that is then the current one |
| RelayRuns.Accountability | protocol/stream.go:113-243 | in every run each writer handed over is live, closed or not taken up yet; once the loop has exited it is closed, unless it was never taken up |
| RelayRuns.StaysOpen | protocol/stream.go:85-90 | a writer not taken up when the loop exits stays open over every run from there, until its own player closes it |
| RelayRuns.TooLate | protocol/stream.go:85-90 | a writer handed over in any state after the loop has exited is open and not taken up; such states are reached |
| RelayRuns.AlwaysFits | protocol/cache/cache.go:60-86 | in every reachable state the cache fits the queue of a writer that joins |
| RelayFailures.CrashExactly | protocol/stream.go:151-166 | the process dies over a run, from any state, if and only if at some place of it the loop takes up a writer whose player has closed it by then and the cache holds something or has been given something |
| RelayFailures.ProcessDies | protocol/stream.go:151-166 | the same for runs from the start, in terms of the actions alone |
| RelayFailures.EarlyLeaver | protocol/stream.go:160 | from every reachable state of the loop a player who leaves at once brings it down, if and only if anything is cached |
| RelayFailures.StaleHeader | protocol/cache/cache.go:60-86 | from every such state with nothing on its way, a player who joins is sent the cache first, and with the next key frame its timestamps are in order if and only if that is not behind the cached header |
| RelayFailures.HandOverKeepsHeader | protocol/stream.go:167-189 | a run with two publishers after which the cache holds the header of the first |
| RelayRuns.WriterRuns | protocol/stream.go:124-217 | in any run of the relay a writer goes through exactly the calls it gets and what the cache sends it, and nothing else changes it |
| RelayDelivery.PlayerIsSent | protocol/stream.go:124-217 | in any run of the relay every player has been sent, and has in its queue, exactly what its writer reported as taken and what the cache sent it, once and in order, each with the base then in force |
| RelayDelivery.LogIsWhatWasRead | protocol/stream.go:97-104 | the log of the stream is what the publishers sent, packet by packet |
| RelayDelivery.ChannelIsFifo | protocol/stream.go:104-181 | in any run the channel is first in, first out; what finds 16 waiting is lost, and a hand-over empties it |
| RelayDelivery.PublishersInTurn | protocol/stream.go:167-189 | session k reads from the k-th publisher taken up; one taken up later waits, and all before are closed |
| RelayDelivery.NoPublisherIsLost | protocol/stream.go:76-82 | every publisher handed over is waiting to be taken up, was taken up, or is closed |
| RelayDelivery.ExitsExactly | protocol/stream.go:190-202 | the loop exits over a run exactly at a tick without a live publisher |
| RelayDelivery.ListedStep | protocol/stream.go:128-215 | the writers after a step are those before and the one taken up, less those a packet finds closed and those a tick finds dead |
| RelayRuns.RelayTimestamps | protocol/stream.go:182-185 | the timestamp result for every writer of every run of the relay, any number of publishers |

## Left out

- Transfer.EndToEnd: a SetChunkSize message that changes the size has to fit one chunk of the old and of the new size, and a WindowAckSize message has to have four bytes; shorter ones and sizes under four are `Transfer.ShortWindowAck` and `Transfer.ShortChunkSize`, bodies longer than a chunk are not characterised; `Length` is taken to be the number of data bytes.
- ChunkStreams.ChunkStream.WriteChunk: a `Length` that differs from the number of data bytes is not modelled.
- RtmpConns.RtmpConn.Write: the same.
- ChunkStreams.ChunkStream.ReadChunk1: a stream whose sticky read error is already set, where every read fails, is not modelled.
- RtmpConns.RtmpConn.Read: what a failed call leaves in the connection, and the acks it wrote before, are not stated.
- ReadWriters.ReadWriter.WriteUintBE: the sticky write error is not modelled; every write to the connection succeeds.
- ReadWriters.ReadWriter.WriteUintLE: the same.
- StreamWriters.GuardExactly: the sums of the queue with the new base are taken not to wrap.
- AmfDecoder.Decoder.DecodeAmf3Object: externalizable classes other than the three built-in ones end in a fault of their own; handlers that a program registers are not modelled.
- AmfDecoder.Decoder.DecodeBatch: what a failed call leaves in the reference tables is not modelled.
- Errors of the underlying connection on writing, deadlines, TLS, the handshake, URL parsing and logging.
- Returned message data alias the buffer of their stream, which the next message on it overwrites; equality is stated at the time of return.
- Floating point: the conversions between integers, dates and floats are parameters of the AMF codecs, and a float is its eight bytes; whole numbers below 2^53 are in `AmfDates`, rounding is not modelled.
- Structures as arguments of the AMF encoders; the entry points that check or write a marker themselves; `EncodeAmf3ByteArray`.
- Whether an empty Go list is nil, and the AMF0 reference cache, which is written and never read.
- AAC sequence headers.
- Reading a packet and putting it into the cache are one step; the data race between that and the loop's `Send` is not modelled.
- Starting the publisher's goroutine and registering it with the wait group are one step; writers that are handed over twice are not modelled.
- Wall-clock behaviour: which writers are alive at a tick is a parameter; bandwidth statistics are left out.
- HLS, HTTP-FLV, the FLV file muxer and the group-of-pictures cache, which are commented out or never filled.
