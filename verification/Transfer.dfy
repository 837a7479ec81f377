/**
 What one peer writes is what the other reads: the chunk layer end to end, with chunk sizes changing in mid-stream.
 */
module Transfer {
  import opened Bytes
  import opened Chunks
  import opened Connection

  /** At a message boundary: no message is half read, and no type-3 chunk expects an extended timestamp. */
  predicate Idle(c: Conn) {
    Healthy(c) && forall k | k in c.chunks :: Quiet(c.chunks[k])
  }

  predicate Quiet(cs: ChunkState) { cs.remain == 0 && cs.timeDelta != EXTENDED }

  /** The live reader gives back 24 bits of the timestamp and skips an extension on the first chunk only. */
  predicate TimestampFits(m: Message, size: U32) {
    m.timestamp < EXTENDED || (m.timestamp == EXTENDED && |m.data| <= size)
  }

  /** What the sender has to respect: size is the chunk size in force before the message. */
  predicate Sendable(size: U32, m: Message)
    requires size >= 1
  {
    && Writable(m)
    && (m.data != [] ==>
          && m.typeID < 256 && FIRST_CSID <= CsidOf(m) <= LAST_CSID && TimestampFits(m, SizeAfter(size, m))
          && (m.typeID == ID_SET_CHUNK_SIZE ==>
                SizeAfter(size, m) == size || (|m.data| <= size && |m.data| <= SizeAfter(size, m)))
          && (m.typeID == ID_WINDOW_ACK_SIZE ==> |m.data| >= 4))
  }

  predicate AllSendable(size: U32, ms: seq<Message>)
    requires size >= 1
    ensures AllSendable(size, ms) ==> forall m | m in ms :: Writable(m)
    decreases |ms|
  {
    ms == [] || (Sendable(size, ms[0]) && AllSendable(SizeAfter(size, ms[0]), ms[1..]))
  }

  /** The chunk stream of a message: audio on 4, video and script data (AMF0, AMF3) on 6, others on their own. */
  function CsidOf(m: Message): U32 {
    if m.typeID == 8 then 4 else if m.typeID in {9, 18, 15} then 6 else m.csid
  }

  lemma RoutedIs(m: Message)
    ensures Routed(m) == m.(csid := CsidOf(m))
  {
  }

  /** The protocol control messages, which Read keeps to itself. */
  predicate Internal(typeID: U32) { typeID in {1, 2, 3, 4, 5, 6} }

  /** How the peer sees a message. */
  function Arrived(m: Message): Message { m.(csid := CsidOf(m), format := 0) }

  /** What Read returns of a sequence of messages: control messages and empty ones are not handed out. */
  function Returned(ms: seq<Message>): seq<Message> {
    if ms == [] then []
    else (if ms[0].data == [] || Internal(ms[0].typeID) then [] else [Arrived(ms[0])]) + Returned(ms[1..])
  }

  // ---------- one message ----------

  /** A fully read message is handed out, or takes effect, as it was sent. */
  lemma Delivers(c: Conn, cs: ChunkState, m: Message)
    requires Midway(cs, m, |m.data|)
    requires m.typeID == ID_SET_CHUNK_SIZE || m.typeID == ID_WINDOW_ACK_SIZE ==> |m.data| >= 4
    ensures var o := Deliver(c, cs);
            && o.Done? && o.msg == (if Internal(m.typeID) then None else Some(m.(format := 0)))
            && o.conn.chunks == c.chunks && o.conn.chunkSize == c.chunkSize
            && o.conn.remoteChunkSize == if m.typeID == ID_SET_CHUNK_SIZE then U32BE(m.data) else c.remoteChunkSize
  {
    assert cs.data[..cs.length] == m.data;
    if |m.data| >= 4 {
      assert forall i | 0 <= i < 4 :: cs.data[i] == cs.data[..cs.length][i];
      assert U32BE(cs.data) == U32BE(m.data);
    }
  }

  /** A chunk inside a message changes its stream and nothing else. */
  lemma Continues(c: Conn, ch: Chunk, rest: seq<Byte>)
    requires Healthy(c) && Acceptable(c, ch)
    requires !Apply(Lookup(c, ch.csid), ch).complete
    ensures var c' := Store(c, Apply(Lookup(c, ch.csid), ch));
            && Healthy(c') && Drain(c, EncodeChunk(ch) + rest) == Drain(c', rest)
            && Read(c, EncodeChunk(ch) + rest) == Read(c', rest)
  {
    hide Apply, EncodeChunk, WellShaped, Sized, Step;
    StepTakes(c, ch, rest);
    var d := Drain(Store(c, Apply(Lookup(c, ch.csid), ch)), rest);
    assert Before([], [], d) == d;
    AfterAfter([], [], Read(Store(c, Apply(Lookup(c, ch.csid), ch)), rest));
  }

  /** The chunk that completes a message. */
  lemma Completes(c: Conn, ch: Chunk, rest: seq<Byte>, o: Outcome)
    requires Healthy(c) && Acceptable(c, ch)
    requires var cs := Apply(Lookup(c, ch.csid), ch); o == Deliver(Store(c, cs), cs) && o.Done?
    ensures Healthy(o.conn)
    ensures Drain(c, EncodeChunk(ch) + rest) == Before(Optional(o.msg), Optional(o.ack), Drain(o.conn, rest))
    ensures o.msg.Some? ==> Read(c, EncodeChunk(ch) + rest) == Got(o.conn, o.msg.value, Optional(o.ack), rest)
  {
    StepTakes(c, ch, rest);
  }

  /** The chunk that completes a message which Read cannot handle. */
  lemma Stops(c: Conn, ch: Chunk, rest: seq<Byte>)
    requires Healthy(c) && Acceptable(c, ch)
    requires var cs := Apply(Lookup(c, ch.csid), ch); Deliver(Store(c, cs), cs).Fault?
    ensures Drain(c, EncodeChunk(ch) + rest).msgs == [] && Read(c, EncodeChunk(ch) + rest) == Failed
  {
    StepTakes(c, ch, rest);
  }

  lemma SplitBytes(m: Message, size: U32, off: nat, rest: seq<Byte>)
    requires size >= 1 && off < |m.data| <= MAX_LENGTH
    ensures var n := Min(size, |m.data| - off);
            EncodeChunks(Split(m, size, off)) + rest ==
            EncodeChunk(Piece(m, off, n)) + (EncodeChunks(Split(m, size, off + n)) + rest)
  {
    var n := Min(size, |m.data| - off);
    var p, tail := Piece(m, off, n), Split(m, size, off + n);
    assert Split(m, size, off) == [p] + tail;
    assert ([p] + tail)[1..] == tail;
  }

  lemma SplitEnds(m: Message, size: U32, rest: seq<Byte>)
    requires size >= 1 && |m.data| <= MAX_LENGTH
    ensures EncodeChunks(Split(m, size, |m.data|)) + rest == rest
  {}

  /** A chunk that brings a message to byte off + n. */
  lemma {:induction false} ReadsRest(c: Conn, m: Message, size: U32, off: nat, ch: Chunk, rest: seq<Byte>)
      returns (o: Outcome, cs: ChunkState)
    requires Healthy(c) && Carriable(m) && Acceptable(c, ch) && ch.csid == m.csid
    requires 0 < off <= |m.data| && Midway(Apply(Lookup(c, m.csid), ch), m, off)
    requires Apply(Lookup(c, m.csid), ch).timeDelta != EXTENDED
    requires off < |m.data| ==> m.timestamp < EXTENDED && c.remoteChunkSize == size
    requires size >= 1
    ensures Midway(cs, m, |m.data|) && Fits(cs) && cs.timeDelta == Apply(Lookup(c, m.csid), ch).timeDelta
    ensures |cs.data| == |Apply(Lookup(c, m.csid), ch).data|
    ensures o == Deliver(Store(c, cs), cs) && (o.Done? ==> Healthy(o.conn))
    ensures var input := EncodeChunk(ch) + (EncodeChunks(Split(m, size, off)) + rest);
            if o.Done? then
              && Drain(c, input) == Before(Optional(o.msg), Optional(o.ack), Drain(o.conn, rest))
              && (o.msg.Some? ==> Read(c, input) == Got(o.conn, o.msg.value, Optional(o.ack), rest))
            else Drain(c, input).msgs == [] && Read(c, input) == Failed
    decreases |m.data| - off
  {
    hide Apply, EncodeChunk, WellShaped, Outstanding, Deliver, Piece, Drain, Read, Split;
    cs := Apply(Lookup(c, m.csid), ch);
    if off == |m.data| {
      o := Deliver(Store(c, cs), cs);
      SplitEnds(m, size, rest);
      if o.Done? { Completes(c, ch, rest, o); } else { Stops(c, ch, rest); }
    } else {
      var n := Min(size, |m.data| - off);
      var c' := Store(c, cs);
      Continues(c, ch, EncodeChunks(Split(m, size, off)) + rest);
      ContinuesMessage(cs, m, off, n);
      KeepsBuffer(cs, m, off, n);
      SplitBytes(m, size, off, rest);
      o, cs := ReadsRest(c', m, size, off + n, Piece(m, off, n), rest);
      assert Store(c', cs) == Store(c, cs);
    }
  }

  lemma KeepsBuffer(cs: ChunkState, m: Message, off: nat, n: nat)
    requires Fits(cs) && Midway(cs, m, off) && 0 < n && off + n <= |m.data| <= MAX_LENGTH
    requires WellShaped(cs, Piece(m, off, n))
    ensures |Apply(cs, Piece(m, off, n)).data| == |cs.data|
  {
  }

  /** One message, written at size and read at c.remoteChunkSize. */
  lemma ReadsMessage(c: Conn, m: Message, size: U32, rest: seq<Byte>) returns (o: Outcome)
    requires Idle(c) && Carriable(m) && m.data != [] && size >= 1
    requires size == c.remoteChunkSize || (|m.data| <= size && |m.data| <= c.remoteChunkSize)
    requires m.timestamp <= EXTENDED && TimestampFits(m, size)
    requires m.typeID == ID_SET_CHUNK_SIZE || m.typeID == ID_WINDOW_ACK_SIZE ==> |m.data| >= 4
    ensures o.Done? && Idle(o.conn) && o.conn.chunkSize == c.chunkSize
    ensures o.msg == if Internal(m.typeID) then None else Some(m.(format := 0))
    ensures o.conn.remoteChunkSize == if m.typeID == ID_SET_CHUNK_SIZE then U32BE(m.data) else c.remoteChunkSize
    ensures Drain(c, EncodeChunks(Split(m, size, 0)) + rest) ==
            Before(Optional(o.msg), Optional(o.ack), Drain(o.conn, rest))
    ensures o.msg.Some? ==> Read(c, EncodeChunks(Split(m, size, 0)) + rest) ==
                            Got(o.conn, o.msg.value, Optional(o.ack), rest)
  {
    hide Apply, EncodeChunk, WellShaped, Outstanding, Deliver, Piece, Drain, Read, Split;
    var n := Min(size, |m.data|);
    var cs := Lookup(c, m.csid);
    OpensMessage(cs, m, n);
    SplitBytes(m, size, 0, rest);
    var done;
    o, done := ReadsRest(c, m, size, n, Piece(m, 0, n), rest);
    Delivers(Store(c, done), done, m);
  }

  // ---------- any number of messages ----------

  /**
   Whatever list of messages goes through Write, SetChunkSize messages among them, the peer's Read returns exactly
   the messages meant for it, in order, and then stands where it agrees with the writer on the chunk size.
   */
  lemma {:induction false} EndToEnd(c: Conn, ms: seq<Message>, rest: seq<Byte>) returns (c': Conn, acks: seq<U32>)
    requires Idle(c) && c.remoteChunkSize >= 1 && AllSendable(c.remoteChunkSize, ms)
    ensures Idle(c') && c'.remoteChunkSize == FinalSize(c.remoteChunkSize, ms) && c'.chunkSize == c.chunkSize
    ensures Drain(c, Sent(c.remoteChunkSize, ms) + rest) == Before(Returned(ms), acks, Drain(c', rest))
    decreases |ms|
  {
    hide Split, EncodeChunks, Drain, Routed;
    if ms == [] {
      c', acks := c, [];
      assert Sent(c.remoteChunkSize, ms) + rest == rest;
      assert Before([], [], Drain(c, rest)) == Drain(c, rest);
    } else {
      var size := SizeAfter(c.remoteChunkSize, ms[0]);
      var wire, more := Wire(ms[0], size), Sent(size, ms[1..]);
      assert Sent(c.remoteChunkSize, ms) + rest == wire + (more + rest);
      RoutedIs(ms[0]);
      if ms[0].data == [] {
        SplitEnds(Routed(ms[0]), size, more + rest);
        c', acks := EndToEnd(c, ms[1..], rest);
        assert Returned(ms) == Returned(ms[1..]);
      } else {
        var o := ReadsMessage(c, Routed(ms[0]), size, more + rest);
        c', acks := EndToEnd(o.conn, ms[1..], rest);
        BeforeBefore(Optional(o.msg), Optional(o.ack), Returned(ms[1..]), acks, Drain(c', rest));
        acks := Optional(o.ack) + acks;
      }
    }
  }

  /**
   * A WindowAckSize message of less than four bytes goes out all the same. It stops the peer's Read for good
   * exactly when no message before has left a buffer of four bytes on that stream.
   */
  lemma ShortWindowAck(c: Conn, m: Message, size: U32, rest: seq<Byte>) returns (o: Outcome)
    requires Idle(c) && c.remoteChunkSize == size >= 1
    requires 0 < |m.data| < 4 && m.typeID == ID_WINDOW_ACK_SIZE && Carriable(m)
    requires m.timestamp < EXTENDED || |m.data| <= size
    ensures Writable(m) && (o.Fault? <==> |Lookup(c, m.csid).data| < 4)
    ensures var input := Wire(m, size) + rest;
            if o.Done? then
              o.msg == None && Healthy(o.conn) && Drain(c, input) == Before([], Optional(o.ack), Drain(o.conn, rest))
            else Drain(c, input).msgs == [] && Read(c, input) == Failed
  {
    hide EncodeChunk, WellShaped, Outstanding, Piece, Split, Apply, Deliver, Drain, Read;
    var r, n := Routed(m), Min(size, |m.data|);
    var ch, cs := Piece(r, 0, n), Lookup(c, r.csid);
    OpensMessage(cs, r, n);
    OpensInBuffer(cs, r, n);
    SplitBytes(r, size, 0, rest);
    SameRest(r, size, n);
    var done;
    o, done := ReadsRest(c, Seen(r), size, n, ch, rest);
    DeliversWindow(Store(c, done), done);
  }

  lemma SameRest(m: Message, size: U32, off: nat)
    requires size >= 1 && off <= |m.data| <= MAX_LENGTH && (m.timestamp < EXTENDED || off == |m.data|)
    ensures Split(Seen(m), size, off) == Split(m, size, off)
  {
  }

  lemma DeliversWindow(c: Conn, cs: ChunkState)
    requires cs.complete && cs.length <= |cs.data| && cs.typeID == ID_WINDOW_ACK_SIZE
    ensures var o := Deliver(c, cs); (o == Fault <==> |cs.data| < 4) && (o.Done? ==> o.msg == None)
  {
    hide Acknowledge;
  }

  /** The buffer stays, if it is long enough. */
  lemma OpensInBuffer(cs: ChunkState, m: Message, n: nat)
    requires Fits(cs) && cs.csid == m.csid && cs.remain == 0 && Carriable(m) && 0 < n <= |m.data|
    requires WellShaped(cs, Piece(m, 0, n))
    ensures |Apply(cs, Piece(m, 0, n)).data| == if |cs.data| < |m.data| then |m.data| else |cs.data|
  {
    HeaderFields(m);
  }

  /**
   * A SetChunkSize message that names 1 to 3 is already cut into chunks of that size. A peer with larger
   * chunks takes the next basic header for part of the number, and the two sides disagree.
   */
  lemma ShortChunkSize(c: Conn, m: Message, rest: seq<Byte>)
    requires Idle(c) && Carriable(m) && m.typeID == ID_SET_CHUNK_SIZE && 4 <= |m.data| <= c.remoteChunkSize
    requires 1 <= U32BE(m.data) <= 3
    ensures Writable(m) && Routed(m) == m
    ensures var r := Step(c, Wire(m, U32BE(m.data)) + rest);
            r.Next? && r.msg == None && r.conn.remoteChunkSize >= 192
  {
    hide EncodeChunk, EncodeChunks, WellShaped, Outstanding, Piece, Split, Apply, Deliver, Step;
    var n, cs := U32BE(m.data), Lookup(c, m.csid);
    var tail := EncodeChunks(Split(m, n, n)) + rest;
    SplitBytes(m, n, 0, rest);
    LongEnough(m, n, n, rest);
    var forged, left := Stretched(cs, m, n, tail);
    StepTakes(c, forged, left);
    DeliversSize(Store(c, Apply(cs, forged)), Apply(cs, forged), n);
  }

  /** The chunks behind the first have at least the bytes that are missing, and begin with a basic header. */
  lemma {:induction false} LongEnough(m: Message, size: U32, off: nat, rest: seq<Byte>)
    requires size >= 1 && 0 < off <= |m.data| && Carriable(m)
    ensures var tail := EncodeChunks(Split(m, size, off)) + rest;
            |tail| >= |m.data| - off && (off < |m.data| ==> tail[0] >= 192)
    decreases |m.data| - off
  {
    if off < |m.data| {
      var n := Min(size, |m.data| - off);
      SplitBytes(m, size, off, rest);
      LongEnough(m, size, off + n, rest);
    }
  }

  /** The first chunk as a peer with larger chunks takes it. */
  lemma Stretched(cs: ChunkState, m: Message, n: nat, tail: seq<Byte>) returns (forged: Chunk, left: seq<Byte>)
    requires Fits(cs) && cs.csid == m.csid && cs.remain == 0 && Carriable(m) && 0 < n < 4 <= |m.data|
    requires |tail| >= |m.data| - n && tail[0] >= 192
    ensures forged.fmt == 0 && forged.csid == m.csid && |forged.payload| == |m.data|
    ensures EncodeChunk(Piece(m, 0, n)) + tail == EncodeChunk(forged) + left
    ensures WellShaped(cs, forged) && Outstanding(cs, forged) == |m.data|
    ensures var r := Apply(cs, forged);
            r.complete && r.length == |m.data| <= |r.data| && r.typeID == m.typeID && r.data[n] >= 192
  {
    HeaderFields(m);
    var p := Piece(m, 0, n);
    var body := p.payload + tail;
    forged, left := p.(payload := body[..|m.data|]), body[|m.data|..];
    assert body == forged.payload + left;
    var front := EncodeBasic(0, m.csid) + p.header + p.ext;
    assert EncodeChunk(p) + tail == front + body;
    assert EncodeChunk(forged) + left == front + (forged.payload + left);
    assert forged.payload[n] == tail[0];
  }

  lemma DeliversSize(c: Conn, cs: ChunkState, n: nat)
    requires cs.complete && 4 <= cs.length <= |cs.data| && cs.typeID == ID_SET_CHUNK_SIZE
    requires n < 4 && cs.data[n] >= 192
    ensures var o := Deliver(c, cs); o.Done? && o.msg == None && o.conn.remoteChunkSize >= 192
  {
  }

  // ---------- the first bytes of a message ----------

  /**
   * What goes out first of any message that is not empty: a basic header of type 0 with the chunk stream, then
   * 24 bits of timestamp, 24 bits of length, the type, and the stream id, which alone is little-endian.
   */
  lemma WriteOpens(m: Message, size: U32)
    requires size >= 1 && m.data != [] && Carriable(Arrived(m))
    ensures var b := ParseBasic(Wire(m, size));
      && b.Some? && b.value.fmt == 0 && |b.value.rest| >= 11
      && b.value.csid == (if m.typeID == 8 then 4 else if m.typeID in {9, 18, 15} then 6 else m.csid)
      && var h := b.value.rest;
      && h[0] as int * 0x1_0000 + h[1] as int * 0x100 + h[2]
         == (if m.timestamp < 0xFF_FFFF then m.timestamp else 0xFF_FFFF)
      && h[3] as int * 0x1_0000 + h[4] as int * 0x100 + h[5] == |m.data|
      && h[6] == m.typeID
      && h[7] as int + h[8] as int * 0x100 + h[9] as int * 0x1_0000 + h[10] as int * 0x100_0000 == m.streamID
  {
    hide EncodeChunks, EncodeBasic, ParseBasic, Split;
    RoutedIs(m);
    var r, n := Routed(m), Min(size, |m.data|);
    SplitBytes(r, size, 0, []);
    var p := Piece(r, 0, n);
    var more := EncodeChunks(Split(r, size, n)) + [];
    var body := p.header + (p.ext + p.payload + more);
    assert Wire(m, size) + [] == Wire(m, size);
    assert EncodeChunk(p) + more == EncodeBasic(0, r.csid) + body;
    BasicRoundTrip(0, r.csid, body);
    HeaderInNumbers(r);
    assert p.header == MessageHeader(r, 0, |r.data|);
    hide MessageHeader;
    assert forall i :: 0 <= i < 11 ==> body[i] == p.header[i];
  }

  lemma HeaderInNumbers(m: Message)
    requires |m.data| <= MAX_LENGTH && m.typeID < 256
    ensures var h := MessageHeader(m, 0, |m.data|);
      && h[0] as int * 0x1_0000 + h[1] as int * 0x100 + h[2] == Min(m.timestamp, 0xFF_FFFF)
      && h[3] as int * 0x1_0000 + h[4] as int * 0x100 + h[5] == |m.data|
      && h[6] == m.typeID
      && h[7] as int + h[8] as int * 0x100 + h[9] as int * 0x1_0000 + h[10] as int * 0x100_0000 == m.streamID
  {
    HeaderFields(m);
  }
}
