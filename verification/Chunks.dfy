/**
 The RTMP chunk format (Adobe RTMP 1.0, section 5.3.1) and what one chunk does to the partial message of its
 chunk stream, as functions on values. The classes of ChunkStream.dfy and RtmpConn.dfy are proved against them.
 */
module Chunks {
  import opened Bytes

  const EXTENDED: U32 := 0xFFFFFF
  const MAX_LENGTH: U32 := 0xFFFFFF
  const FIRST_CSID: U32 := 2
  const LAST_CSID: U32 := 65599

  const TAG_AUDIO: Byte := 8
  const TAG_VIDEO: Byte := 9
  const TAG_SCRIPT_AMF0: Byte := 18
  const TAG_SCRIPT_AMF3: Byte := 15

  const ID_SET_CHUNK_SIZE: Byte := 1
  const ID_ACK: Byte := 3
  const ID_WINDOW_ACK_SIZE: Byte := 5

  /** The values of the fields of a ChunkStream: the message its csid is assembling. */
  datatype ChunkState = ChunkState(
    format: U32, csid: U32, timestamp: U32, length: U32, typeID: U32, streamID: U32, data: seq<Byte>,
    pts: U32, timeDelta: U32, exted: bool, index: U32, remain: U32, complete: bool)

  function NewChunkState(csid: U32): ChunkState {
    ChunkState(0, csid, 0, 0, 0, 0, [], 0, 0, false, 0, 0, false)
  }

  /** A message as it is handed to Write or comes out of Read; its Length is |data|. */
  datatype Message = Message(format: U32, csid: U32, timestamp: U32, typeID: U32, streamID: U32, data: seq<Byte>)

  /** One chunk: basic header, raw message header, extended timestamp (0 or 4 bytes) and chunk data. */
  datatype Chunk = Chunk(fmt: nat, csid: U32, header: seq<Byte>, ext: seq<Byte>, payload: seq<Byte>)

  // ---------- basic header ----------

  function EncodeBasic(fmt: nat, csid: U32): seq<Byte>
    requires fmt < 4
  {
    if csid < 64 then [fmt * 64 + csid]
    else if csid - 64 < 256 then [fmt * 64] + LE(csid - 64, 1)
    else if csid - 64 < 65536 then [fmt * 64 + 1] + LE(csid - 64, 2)
    else []
  }

  datatype Basic = Basic(fmt: nat, csid: U32, rest: seq<Byte>)

  function ParseBasic(input: seq<Byte>): (r: Option<Basic>)
    ensures r.Some? ==> r.value.fmt < 4 && |r.value.rest| < |input|
  {
    if input == [] then None
    else
      var fmt, low := input[0] / 64, input[0] % 64;
      if low == 0 then
        if |input| < 2 then None else Some(Basic(fmt, input[1] as int + 64, input[2..]))
      else if low == 1 then
        if |input| < 3 then None else Some(Basic(fmt, FromLE2(input[1..]) + 64, input[3..]))
      else Some(Basic(fmt, low, input[1..]))
  }

  function FromLE2(b: seq<Byte>): (v: U32)
    requires |b| >= 2
    ensures v < 0x1_0000
  {
    b[0] as int + 256 * b[1] as int
  }

  lemma BasicRoundTrip(fmt: nat, csid: U32, rest: seq<Byte>)
    requires fmt < 4 && FIRST_CSID <= csid <= LAST_CSID
    ensures ParseBasic(EncodeBasic(fmt, csid) + rest) == Some(Basic(fmt, csid, rest))
  {
    var s := EncodeBasic(fmt, csid) + rest;
    if csid < 64 {
      assert s[1..] == rest;
    } else if csid - 64 < 256 {
      assert s[2..] == rest && s[1] == csid - 64;
    } else {
      assert LE(csid - 64, 2) == [(csid - 64) % 256, (csid - 64) / 256 % 256];
      assert s[3..] == rest && s[1] == (csid - 64) % 256 && s[2] == (csid - 64) / 256;
    }
  }

  // ---------- what the reader does with one chunk ----------

  function HeaderLen(fmt: nat): nat
    requires fmt < 4
  {
    match fmt case 0 => 11 case 1 => 7 case 2 => 3 case _ => 0
  }

  /** The fields a message header of the given type overwrites. */
  function WithHeader(cs: ChunkState, fmt: nat, h: seq<Byte>): ChunkState
    requires fmt < 4 && |h| == HeaderLen(fmt)
  {
    match fmt
    case 0 => cs.(format := 0, timestamp := U24BE(h), length := U24BE(h[3..]), typeID := h[6],
                  streamID := U32LE(h[7..]))
    case 1 => cs.(format := 1, timeDelta := U24BE(h), length := U24BE(h[3..]), typeID := h[6])
    case 2 => cs.(format := 2, timeDelta := U24BE(h))
    case _ => cs
  }

  /** Whether readChunk expects an extended timestamp; for a type-3 chunk it looks at the last delta. */
  predicate Extended(cs: ChunkState, fmt: nat) {
    if fmt == 0 then cs.timestamp == EXTENDED else cs.timeDelta == EXTENDED
  }

  function Alloc(cs: ChunkState): ChunkState {
    cs.(complete := false, index := 0, remain := cs.length,
        data := if |cs.data| < cs.length then seq(cs.length, _ => 0) else cs.data)
  }

  /** A chunk that finds nothing left to read opens a new message. */
  function Begin(cs: ChunkState, fmt: nat, ext: seq<Byte>): ChunkState
    requires |ext| == if Extended(cs, fmt) then 4 else 0
  {
    if cs.remain != 0 then cs
    else if fmt == 0 then Alloc(cs).(pts := if ext != [] then U32BE(ext) else cs.timestamp)
    else Alloc(cs).(pts := Add32(cs.pts, if ext != [] then U32BE(ext) else cs.timeDelta))
  }

  function Fill(cs: ChunkState, payload: seq<Byte>): ChunkState
    requires |payload| <= cs.remain && Fits(cs)
  {
    var n := |payload|;
    cs.(data := cs.data[..cs.index] + payload + cs.data[cs.index + n..],
        index := cs.index + n, remain := cs.remain - n,
        complete := cs.complete || cs.remain == n)
  }

  /** The bytes still expected have room in the buffer. */
  predicate Fits(cs: ChunkState) {
    cs.index + cs.remain <= |cs.data| && cs.index + cs.remain <= MAX_LENGTH && cs.length <= MAX_LENGTH
  }

  lemma BeginFits(cs: ChunkState, fmt: nat, h: seq<Byte>, ext: seq<Byte>)
    requires fmt < 4 && |h| == HeaderLen(fmt) && Fits(cs)
    requires |ext| == if Extended(WithHeader(cs, fmt, h), fmt) then 4 else 0
    ensures Fits(Begin(WithHeader(cs, fmt, h), fmt, ext))
  {}

  /** readChunk on the bytes after the basic header: the new state and the bytes left, or None when input runs out. */
  function ReadChunk(cs: ChunkState, fmt: nat, size: U32, input: seq<Byte>): (r: Option<(ChunkState, seq<Byte>)>)
    requires fmt < 4 && Fits(cs)
    ensures r.Some? ==> Fits(r.value.0) && r.value.0.csid == cs.csid && |r.value.1| <= |input|
  {
    var h := HeaderLen(fmt);
    if |input| < h then None else
    var cs1 := WithHeader(cs, fmt, input[..h]);
    var e := if Extended(cs1, fmt) then 4 else 0;
    if |input| < h + e then None else
    var cs2 := Begin(cs1, fmt, input[h..h + e]);
    BeginFits(cs, fmt, input[..h], input[h..h + e]);
    var n := Min(cs2.remain, size);
    if |input| < h + e + n then None else
    Some((Fill(cs2, input[h + e..h + e + n]), input[h + e + n..]))
  }

  /** The header and extension are as long as readChunk expects in state cs. */
  predicate Headed(cs: ChunkState, c: Chunk) {
    && c.fmt < 4 && |c.header| == HeaderLen(c.fmt)
    && |c.ext| == (if Extended(WithHeader(cs, c.fmt, c.header), c.fmt) then 4 else 0)
  }

  /** The bytes of the message still to come when the payload of the chunk starts. */
  function Outstanding(cs: ChunkState, c: Chunk): nat
    requires Headed(cs, c)
  {
    Begin(WithHeader(cs, c.fmt, c.header), c.fmt, c.ext).remain
  }

  /** A chunk has the shape readChunk expects of it in state cs. */
  predicate WellShaped(cs: ChunkState, c: Chunk) {
    Headed(cs, c) && |c.payload| <= Outstanding(cs, c)
  }

  /** The effect of a chunk on its chunk stream; it does not depend on the chunk size. */
  function Apply(cs: ChunkState, c: Chunk): (r: ChunkState)
    requires Fits(cs) && WellShaped(cs, c)
    ensures Fits(r) && r.csid == cs.csid
  {
    BeginFits(cs, c.fmt, c.header, c.ext);
    Fill(Begin(WithHeader(cs, c.fmt, c.header), c.fmt, c.ext), c.payload)
  }

  /** The payload is as long as the chunk size allows. */
  predicate Sized(cs: ChunkState, size: U32, c: Chunk)
    requires WellShaped(cs, c)
  {
    |c.payload| == Min(Outstanding(cs, c), size)
  }

  /** readChunk takes exactly one chunk off the wire. */
  lemma ReadChunkApplies(cs: ChunkState, size: U32, c: Chunk, rest: seq<Byte>)
    requires Fits(cs) && WellShaped(cs, c) && Sized(cs, size, c)
    ensures ReadChunk(cs, c.fmt, size, c.header + c.ext + c.payload + rest) == Some((Apply(cs, c), rest))
  {
    var input := c.header + c.ext + c.payload + rest;
    var h, e, n := |c.header|, |c.ext|, |c.payload|;
    assert input[..h] == c.header;
    assert input[h..h + e] == c.ext;
    assert input[h + e..h + e + n] == c.payload;
    assert input[h + e + n..] == rest;
  }

  // ---------- what the writer emits for one message ----------

  function EncodeChunk(c: Chunk): seq<Byte>
    requires c.fmt < 4
  {
    EncodeBasic(c.fmt, c.csid) + c.header + c.ext + c.payload
  }

  function EncodeChunks(cs: seq<Chunk>): seq<Byte>
    requires forall c | c in cs :: c.fmt < 4
  {
    if cs == [] then [] else EncodeChunk(cs[0]) + EncodeChunks(cs[1..])
  }

  /** writeChunk sends audio on chunk stream 4, video and script data on 6. */
  function Routed(m: Message): Message {
    if m.typeID == TAG_AUDIO then m.(csid := 4)
    else if m.typeID == TAG_VIDEO || m.typeID == TAG_SCRIPT_AMF0 || m.typeID == TAG_SCRIPT_AMF3 then m.(csid := 6)
    else m
  }

  /** The chunk carrying bytes off..off+n of the message: type 0 for the first, type 3 for the others. */
  function Piece(m: Message, off: nat, n: nat): (c: Chunk)
    requires off + n <= |m.data| <= MAX_LENGTH
    ensures c.fmt == (if off == 0 then 0 else 3) && c.csid == m.csid
       && |c.header| == HeaderLen(c.fmt) && |c.payload| == n
  {
    var fmt := if off == 0 then 0 else 3;
    Chunk(fmt, m.csid, MessageHeader(m, fmt, |m.data|), Extension(m), m.data[off..off + n])
  }

  /** The message header of the given type, for a message said to be length bytes long. */
  function MessageHeader(m: Message, fmt: nat, length: U32): (h: seq<Byte>)
    requires fmt < 4
    ensures |h| == HeaderLen(fmt)
  {
    if fmt == 3 then []
    else
      var stamp := BE(Min(m.timestamp, EXTENDED), 3);
      if fmt == 2 then stamp
      else if fmt == 1 then stamp + BE(length, 3) + BE(m.typeID, 1)
      else stamp + BE(length, 3) + BE(m.typeID, 1) + LE(m.streamID, 4)
  }

  /** The extended timestamp, which writeHeader repeats on type-3 chunks. */
  function Extension(m: Message): seq<Byte> {
    if m.timestamp >= EXTENDED then BE(m.timestamp, 4) else []
  }

  /** The chunks writeChunk cuts the message into from byte off on. */
  function Split(m: Message, size: U32, off: nat): (r: seq<Chunk>)
    requires size >= 1 && off <= |m.data| <= MAX_LENGTH
    ensures forall c | c in r :: c.fmt < 4 && c.csid == m.csid
    decreases |m.data| - off
  {
    if off == |m.data| then []
    else
      var n := Min(size, |m.data| - off);
      [Piece(m, off, n)] + Split(m, size, off + n)
  }

  /** The bytes writeChunk puts on the wire. */
  function Wire(m: Message, size: U32): seq<Byte>
    requires size >= 1 && |m.data| <= MAX_LENGTH
  {
    EncodeChunks(Split(Routed(m), size, 0))
  }

  lemma HeaderFields(m: Message)
    requires |m.data| <= MAX_LENGTH && m.typeID < 256
    ensures var h := MessageHeader(m, 0, |m.data|);
            && U24BE(h) == Min(m.timestamp, EXTENDED) && U24BE(h[3..]) == |m.data|
            && h[6] == m.typeID && U32LE(h[7..]) == m.streamID
  {
    var h := MessageHeader(m, 0, |m.data|);
    BE3(Min(m.timestamp, EXTENDED), h[3..]);
    assert h == BE(Min(m.timestamp, EXTENDED), 3) + h[3..];
    BE3(|m.data|, h[6..]);
    assert h[3..] == BE(|m.data|, 3) + h[6..];
    assert BE(m.typeID, 1) == [m.typeID % 256];
    LE4(m.streamID, []);
    assert h[7..] == LE(m.streamID, 4) + [];
  }

  // ---------- reassembly ----------

  /** The chunks carry the message from byte off to its end, cut anywhere. */
  predicate IsSplit(m: Message, off: nat, chunks: seq<Chunk>)
    requires off <= |m.data| <= MAX_LENGTH
    decreases |m.data| - off
  {
    if off == |m.data| then chunks == []
    else
      && chunks != [] && 0 < |chunks[0].payload| <= |m.data| - off
      && chunks[0] == Piece(m, off, |chunks[0].payload|)
      && IsSplit(m, off + |chunks[0].payload|, chunks[1..])
  }

  lemma {:induction false} SplitIsSplit(m: Message, size: U32, off: nat)
    requires size >= 1 && off <= |m.data| <= MAX_LENGTH
    ensures IsSplit(m, off, Split(m, size, off))
    decreases |m.data| - off
  {
    if off < |m.data| {
      var n := Min(size, |m.data| - off);
      assert Piece(m, off, n).payload == m.data[off..off + n];
      SplitIsSplit(m, size, off + n);
    }
  }

  /** off bytes of m have arrived on the chunk stream and the rest is still expected. */
  predicate Midway(cs: ChunkState, m: Message, off: nat) {
    && cs.csid == m.csid && cs.length == |m.data| <= |cs.data|
    && cs.timestamp == m.timestamp && cs.typeID == m.typeID && cs.streamID == m.streamID && cs.format == 0
    && 0 < off == cs.index <= |m.data| <= MAX_LENGTH && cs.remain == |m.data| - off
    && cs.data[..off] == m.data[..off]
    && (cs.complete <==> cs.remain == 0)
  }

  /** Messages the chunk format can carry and the live reader can give back. */
  predicate Carriable(m: Message) {
    |m.data| <= MAX_LENGTH && m.typeID < 256 && FIRST_CSID <= m.csid <= LAST_CSID
  }

  /** The message as far as its first chunk tells: 24 bits of the timestamp. */
  function Seen(m: Message): Message { m.(timestamp := Min(m.timestamp, EXTENDED)) }

  /** The first chunk opens the message, whatever the stream carried before. */
  lemma OpensMessage(cs: ChunkState, m: Message, n: nat)
    requires Fits(cs) && cs.csid == m.csid && cs.remain == 0 && Carriable(m)
    requires 0 < n <= |m.data|
    ensures var c := Piece(m, 0, n); WellShaped(cs, c) && Midway(Apply(cs, c), Seen(m), n)
    ensures Outstanding(cs, Piece(m, 0, n)) == |m.data| && Apply(cs, Piece(m, 0, n)).timeDelta == cs.timeDelta
  {
    HeaderFields(m);
    var c := Piece(m, 0, n);
    var cs' := Apply(cs, c);
    assert cs'.data[..n] == m.data[..n];
  }

  /** A later chunk extends the prefix. */
  lemma ContinuesMessage(cs: ChunkState, m: Message, off: nat, n: nat)
    requires Fits(cs) && Midway(cs, m, off) && m.timestamp < EXTENDED && cs.timeDelta != EXTENDED
    requires 0 < n && off + n <= |m.data| <= MAX_LENGTH
    ensures var c := Piece(m, off, n); WellShaped(cs, c) && Midway(Apply(cs, c), m, off + n)
    ensures Outstanding(cs, Piece(m, off, n)) == |m.data| - off && Apply(cs, Piece(m, off, n)).timeDelta == cs.timeDelta
  {
    var c := Piece(m, off, n);
    var cs' := Apply(cs, c);
    assert cs'.data[..off + n] == cs.data[..off] + c.payload;
    assert m.data[..off + n] == m.data[..off] + c.payload;
  }
}
