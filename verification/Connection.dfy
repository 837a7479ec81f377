/**
 A connection as a function on values: what Read does with the bytes of the peer, one chunk at a time, and the
 bytes Write sends. The class of RtmpConn.dfy is proved against it.
 */
module Connection {
  import opened Bytes
  import opened Chunks

  /** The fields of an RtmpConn the two directions use. */
  datatype Conn = Conn(chunkSize: U32, remoteChunkSize: U32, remoteWindow: U32, received: U32, ackReceived: U32,
                       chunks: map<U32, ChunkState>)

  function Lookup(c: Conn, csid: U32): ChunkState {
    if csid in c.chunks then c.chunks[csid] else NewChunkState(csid)
  }

  predicate Healthy(c: Conn) {
    c.chunkSize >= 1 && forall k | k in c.chunks :: c.chunks[k].csid == k && Fits(c.chunks[k])
  }

  /** Fault stands for Go's index-out-of-range panics. */
  datatype Outcome = Fault | Done(conn: Conn, msg: Option<Message>, ack: Option<U32>)

  predicate IsControl(typeID: U32) { 1 <= typeID <= 6 }

  function MessageOf(cs: ChunkState): Message
    requires cs.length <= |cs.data|
  {
    Message(cs.format, cs.csid, cs.timestamp, cs.typeID, cs.streamID, cs.data[..cs.length])
  }

  /** handleControlMsg: chunk size and window messages take effect, and read the first four bytes to do so. */
  function HandleControl(c: Conn, cs: ChunkState): Option<Conn> {
    if cs.typeID == ID_SET_CHUNK_SIZE then
      if |cs.data| < 4 then None else Some(c.(remoteChunkSize := U32BE(cs.data)))
    else if cs.typeID == ID_WINDOW_ACK_SIZE then
      if |cs.data| < 4 then None else Some(c.(remoteWindow := U32BE(cs.data)))
    else Some(c)
  }

  /** ack: count the bytes and, at the window, report them and start again. */
  function Acknowledge(c: Conn, size: U32): (Conn, Option<U32>) {
    var received := Add32(c.received, size);
    var ackReceived := Add32(c.ackReceived, size);
    var c1 := c.(received := if received >= 0xF000_0000 then 0 else received, ackReceived := ackReceived);
    if ackReceived >= c.remoteWindow then (c1.(ackReceived := 0), Some(ackReceived)) else (c1, None)
  }

  /** The part of Read after readChunk, for the chunk stream just read into. */
  function Deliver(c: Conn, cs: ChunkState): (o: Outcome)
    ensures o.Done? && Healthy(c) ==> Healthy(o.conn)
  {
    if !cs.complete then Done(c, None, None)
    else if cs.length > |cs.data| then Fault
    else
      match HandleControl(c, cs)
      case None => Fault
      case Some(c1) =>
        var (c2, ack) := Acknowledge(c1, cs.length);
        Done(c2, if IsControl(cs.typeID) then None else Some(MessageOf(cs)), ack)
  }

  function Store(c: Conn, cs: ChunkState): Conn {
    c.(chunks := c.chunks[cs.csid := cs])
  }

  datatype StepResult = Stop | Next(conn: Conn, msg: Option<Message>, ack: Option<U32>, rest: seq<Byte>)

  /** One turn of the loop in Read. Stop: the input ran out inside the chunk, or a panic. */
  function Step(c: Conn, input: seq<Byte>): (r: StepResult)
    requires Healthy(c)
    ensures r.Next? ==> Healthy(r.conn) && |r.rest| < |input|
  {
    match ParseBasic(input)
    case None => Stop
    case Some(b) => StepOn(c, b.csid, b.fmt, b.rest)
  }

  /** The turn after the basic header. */
  function StepOn(c: Conn, csid: U32, fmt: nat, input: seq<Byte>): (r: StepResult)
    requires Healthy(c) && fmt < 4
    ensures r.Next? ==> Healthy(r.conn) && |r.rest| <= |input|
  {
    match ReadChunk(Lookup(c, csid), fmt, c.remoteChunkSize, input)
    case None => Stop
    case Some(p) =>
      match Deliver(Store(c, p.0), p.0)
      case Fault => Stop
      case Done(c', msg, ack) => Next(c', msg, ack, p.1)
  }

  // The results of parsing as predicates, for the contracts of the methods that do it in place.

  predicate ParseOk(input: seq<Byte>, fmt: nat, csid: U32, rest: seq<Byte>) {
    ParseBasic(input) == Some(Basic(fmt, csid, rest))
  }

  predicate Took(r: StepResult, c: Conn, msg: Option<Message>, rest: seq<Byte>) {
    r.Next? && r.conn == c && r.msg == msg && r.rest == rest
  }

  datatype ReadResult = Failed | Got(conn: Conn, msg: Message, acks: seq<U32>, rest: seq<Byte>)

  function Optional<T>(o: Option<T>): seq<T> {
    if o.Some? then [o.value] else []
  }

  /** Read: turns of the loop until one completes a message that is not a control message. */
  function Read(c: Conn, input: seq<Byte>): (r: ReadResult)
    requires Healthy(c)
    ensures r.Got? ==> Healthy(r.conn) && |r.rest| < |input|
    decreases |input|
  {
    match Step(c, input)
    case Stop => Failed
    case Next(c', msg, ack, rest) =>
      if msg.Some? then Got(c', msg.value, Optional(ack), rest)
      else AfterAcks(Optional(ack), Read(c', rest))
  }

  /** The result when acknowledgements have gone out before. */
  function AfterAcks(acks: seq<U32>, r: ReadResult): ReadResult {
    match r case Failed => Failed case Got(c, m, more, rest) => Got(c, m, acks + more, rest)
  }

  lemma AfterAfter(a: seq<U32>, b: seq<U32>, r: ReadResult)
    ensures AfterAcks(a, AfterAcks(b, r)) == AfterAcks(a + b, r) && AfterAcks([], r) == r
  {
    if r.Got? {
      assert a + (b + r.acks) == a + b + r.acks && [] + r.acks == r.acks;
    }
  }

  /** Everything the loop does with the input: messages returned, acks sent, where it stops. */
  datatype Drained = Drained(msgs: seq<Message>, acks: seq<U32>, conn: Conn, rest: seq<Byte>)

  function Drain(c: Conn, input: seq<Byte>): (d: Drained)
    requires Healthy(c)
    ensures Healthy(d.conn)
    decreases |input|
  {
    match Step(c, input)
    case Stop => Drained([], [], c, input)
    case Next(c', msg, ack, rest) => Before(Optional(msg), Optional(ack), Drain(c', rest))
  }

  function Before(msgs: seq<Message>, acks: seq<U32>, d: Drained): Drained {
    d.(msgs := msgs + d.msgs, acks := acks + d.acks)
  }

  /** Draining is calling Read until it fails. */
  lemma {:induction false} DrainIsRepeatedRead(c: Conn, input: seq<Byte>)
    requires Healthy(c)
    ensures match Read(c, input)
            case Failed => Drain(c, input).msgs == []
            case Got(c', m, acks, rest) => Drain(c, input) == Before([m], acks, Drain(c', rest))
    decreases |input|
  {
    match Step(c, input) {
      case Stop =>
      case Next(c', msg, ack, rest) =>
        if msg.None? {
          DrainIsRepeatedRead(c', rest);
          if Read(c', rest).Got? {
            var g := Read(c', rest);
            BeforeBefore([], Optional(ack), [g.msg], g.acks, Drain(g.conn, g.rest));
          }
        }
    }
  }

  lemma BeforeBefore(m1: seq<Message>, a1: seq<U32>, m2: seq<Message>, a2: seq<U32>, d: Drained)
    ensures Before(m1, a1, Before(m2, a2, d)) == Before(m1 + m2, a1 + a2, d)
  {
    assert m1 + (m2 + d.msgs) == (m1 + m2) + d.msgs;
    assert a1 + (a2 + d.acks) == (a1 + a2) + d.acks;
  }

  // ---------- one chunk, and lists of chunks ----------

  /** The chunk can be next on the wire: encodable and cut the way the reader will cut it. */
  predicate Acceptable(c: Conn, ch: Chunk) {
    && FIRST_CSID <= ch.csid <= LAST_CSID
    && WellShaped(Lookup(c, ch.csid), ch) && Sized(Lookup(c, ch.csid), c.remoteChunkSize, ch)
  }

  /** What a chunk does to a connection. */
  function Take(c: Conn, ch: Chunk): (o: Outcome)
    requires Healthy(c) && WellShaped(Lookup(c, ch.csid), ch)
    ensures o.Done? ==> Healthy(o.conn)
  {
    var cs := Apply(Lookup(c, ch.csid), ch);
    Deliver(Store(c, cs), cs)
  }

  lemma StepTakes(c: Conn, ch: Chunk, rest: seq<Byte>)
    requires Healthy(c) && Acceptable(c, ch)
    ensures Step(c, EncodeChunk(ch) + rest) ==
            match Take(c, ch) case Fault => Stop case Done(c', msg, ack) => Next(c', msg, ack, rest)
  {
    var body := ch.header + ch.ext + ch.payload + rest;
    assert EncodeChunk(ch) + rest == EncodeBasic(ch.fmt, ch.csid) + body;
    BasicRoundTrip(ch.fmt, ch.csid, body);
    ReadChunkApplies(Lookup(c, ch.csid), c.remoteChunkSize, ch, rest);
  }

  // ---------- sending ----------

  /** The acknowledgement ack() writes. */
  function AckMessage(v: U32): Message {
    Message(0, 2, 0, ID_ACK, 0, BE(v, 4))
  }

  function AckWire(size: U32, acks: seq<U32>): seq<Byte>
    requires size >= 1
  {
    FlatMap(AckBytes(size), acks)
  }

  function AckBytes(size: U32): U32 -> seq<Byte>
    requires size >= 1
  {
    v => Wire(AckMessage(v), size)
  }

  lemma AckWireAppend(size: U32, a: seq<U32>, b: seq<U32>)
    requires size >= 1
    ensures AckWire(size, a + b) == AckWire(size, a) + AckWire(size, b)
  {
    FlatMapAppend(AckBytes(size), a, b);
  }

  lemma AckWireNone(size: U32)
    requires size >= 1
    ensures AckWire(size, []) == []
  {}

  lemma AckWireShort(size: U32, v: U32)
    requires size >= 1
    ensures AckWire(size, []) == [] && AckWire(size, [v]) == Wire(AckMessage(v), size)
  {
    hide Wire, AckMessage;
    var f := AckBytes(size);
    assert [v][1..] == [] && FlatMap(f, [v]) == f(v) + FlatMap(f, []);
  }

  function FlatMap<T>(f: T -> seq<Byte>, xs: seq<T>): seq<Byte> {
    if xs == [] then [] else f(xs[0]) + FlatMap(f, xs[1..])
  }

  lemma {:induction false} FlatMapAppend<T>(f: T -> seq<Byte>, a: seq<T>, b: seq<T>)
    ensures FlatMap(f, a + b) == FlatMap(f, a) + FlatMap(f, b)
  {
    if a == [] {
      assert a + b == b;
    } else {
      FlatMapAppend(f, a[1..], b);
      assert (a + b)[0] == a[0] && (a + b)[1..] == a[1..] + b;
      var x, y, z := f(a[0]), FlatMap(f, a[1..]), FlatMap(f, b);
      assert x + (y + z) == (x + y) + z;
    }
  }

  /** What Write demands to succeed: a length the header has room for; a SetChunkSize message names a chunk size. */
  predicate Writable(m: Message) {
    |m.data| <= MAX_LENGTH && (m.typeID == ID_SET_CHUNK_SIZE ==> |m.data| >= 4 && U32BE(m.data) >= 1)
  }

  /** The chunk size in force once Write has seen the message, which it already uses for that message. */
  function SizeAfter(size: U32, m: Message): (s: U32)
    requires Writable(m) && size >= 1
    ensures s >= 1
  {
    if m.typeID == ID_SET_CHUNK_SIZE then U32BE(m.data) else size
  }

  function FinalSize(size: U32, ms: seq<Message>): (s: U32)
    requires size >= 1 && forall m | m in ms :: Writable(m)
    ensures s >= 1
    decreases |ms|
  {
    if ms == [] then size else FinalSize(SizeAfter(size, ms[0]), ms[1..])
  }

  /** The bytes a sequence of Writes sends. */
  function Sent(size: U32, ms: seq<Message>): seq<Byte>
    requires size >= 1 && forall m | m in ms :: Writable(m)
    decreases |ms|
  {
    if ms == [] then []
    else
      var size' := SizeAfter(size, ms[0]);
      Wire(ms[0], size') + Sent(size', ms[1..])
  }
}
