/** What each turn of Read does, from the messages that completed before: what it hands out, and when it reports. */
module Turns {
  import opened Bytes
  import opened Chunks
  import opened Connection
  import opened Transfer

  /** The chunk stream as it is when its message is complete, what Read hands out, and the ack it sends. */
  datatype Turn = Turn(done: Option<ChunkState>, msg: Option<Message>, ack: Option<U32>)

  /** The stream on which the chunk at the head of the input completes a message. */
  function Completing(c: Conn, input: seq<Byte>): (cs: Option<ChunkState>)
    requires Healthy(c)
  {
    match ParseBasic(input)
    case None => None
    case Some(b) =>
      match ReadChunk(Lookup(c, b.csid), b.fmt, c.remoteChunkSize, b.rest)
      case None => None
      case Some(p) => if p.0.complete then Some(p.0) else None
  }

  /** All turns of the loop, as long as the input lasts. */
  function TurnsOf(c: Conn, input: seq<Byte>): seq<Turn>
    requires Healthy(c)
    decreases |input|
  {
    match Step(c, input)
    case Stop => []
    case Next(c', msg, ack, rest) => [Turn(Completing(c, input), msg, ack)] + TurnsOf(c', rest)
  }

  // ---------- what the turns before amount to ----------

  function Length(t: Turn): nat {
    if t.done.Some? then t.done.value.length else 0
  }

  /** The bytes completed since the last ack; n of them before the first turn. */
  function Since(ts: seq<Turn>, n: nat): nat {
    if ts == [] then n
    else
      var last := ts[|ts| - 1];
      if last.ack.Some? then 0 else Since(ts[..|ts| - 1], n) + Length(last)
  }

  /** The number a message of the given type carried last, big-endian in the first four bytes, or v. */
  function Named(ts: seq<Turn>, typeID: U32, v: U32): U32 {
    if ts == [] then v
    else
      var last := ts[|ts| - 1].done;
      if last.Some? && last.value.typeID == typeID && |last.value.data| >= 4 then Number(last.value.data)
      else Named(ts[..|ts| - 1], typeID, v)
  }

  function Number(b: seq<Byte>): U32
    requires |b| >= 4
  {
    b[0] as int * 0x100_0000 + b[1] as int * 0x1_0000 + b[2] as int * 0x100 + b[3]
  }

  /** The bytes completed in all, from 0 again whenever they reach 0xF0000000. */
  function Total(ts: seq<Turn>, n: nat): nat {
    if ts == [] then n
    else
      var t := Total(ts[..|ts| - 1], n) + Length(ts[|ts| - 1]);
      if t >= 0xF000_0000 then 0 else t
  }

  // ---------- the rule of a turn ----------

  /** An ack goes out exactly when the bytes since the last one reach the window, and names their number. */
  predicate Reports(ts: seq<Turn>, i: nat, n: nat, window: U32)
    requires i < |ts|
  {
    var count: U32 := (Since(ts[..i], n) + Length(ts[i])) % 0x1_0000_0000;
    ts[i].ack == if ts[i].done.Some? && count >= Named(ts[..i + 1], 5, window) then Some(count) else None
  }

  /** A message is handed out exactly when it is complete and none of the six control types. */
  predicate HandsOut(t: Turn) {
    t.msg == if t.done.None? || t.done.value.typeID in {1, 2, 3, 4, 5, 6} then None
             else
               var cs := t.done.value;
               if cs.length > |cs.data| then None
               else Some(Message(cs.format, cs.csid, cs.timestamp, cs.typeID, cs.streamID, cs.data[..cs.length]))
  }

  lemma {:induction false} SinceCons(t: Turn, ts: seq<Turn>, n: nat)
    ensures Since([t] + ts, n) == Since(ts, Since([t], n))
    ensures Total([t] + ts, n) == Total(ts, Total([t], n))
    decreases |ts|
  {
    if ts == [] {
      assert [t] + ts == [t];
    } else {
      assert ([t] + ts)[..|ts|] == [t] + ts[..|ts| - 1];
      SinceCons(t, ts[..|ts| - 1], n);
    }
  }

  lemma {:induction false} NamedCons(t: Turn, ts: seq<Turn>, typeID: U32, v: U32)
    ensures Named([t] + ts, typeID, v) == Named(ts, typeID, Named([t], typeID, v))
    decreases |ts|
  {
    if ts == [] {
      assert [t] + ts == [t];
    } else {
      assert ([t] + ts)[..|ts|] == [t] + ts[..|ts| - 1];
      NamedCons(t, ts[..|ts| - 1], typeID, v);
    }
  }

  lemma NumberIs(b: seq<Byte>)
    requires |b| >= 4
    ensures Number(b) == U32BE(b)
  {
  }

  /** One turn: what it sends and hands out, and the four numbers of the connection after it. */
  lemma OneTurn(c: Conn, input: seq<Byte>)
    requires Healthy(c)
    ensures var s := Step(c, input);
      s.Next? ==>
        var t := Turn(Completing(c, input), s.msg, s.ack);
        var count: U32 := (c.ackReceived + Length(t)) % 0x1_0000_0000;
        var window := Named([t], 5, c.remoteWindow);
        && t.ack == (if t.done.Some? && count >= window then Some(count) else None)
        && HandsOut(t)
        && s.conn.remoteWindow == window && s.conn.remoteChunkSize == Named([t], 1, c.remoteChunkSize)
        && s.conn.ackReceived == Since([t], c.ackReceived) % 0x1_0000_0000
        && (c.received < 0xF000_0000 ==> s.conn.received == Total([t], c.received) < 0xF000_0000)
  {
    hide ReadChunk, Deliver, Since, Total, Named, HandsOut;
    var b := ParseBasic(input);
    if b.Some? {
      var p := ReadChunk(Lookup(c, b.value.csid), b.value.fmt, c.remoteChunkSize, b.value.rest);
      if p.Some? {
        OneDelivery(Store(c, p.value.0), p.value.0);
      }
    }
  }

  lemma OneDelivery(c: Conn, cs: ChunkState)
    ensures var o := Deliver(c, cs);
      o.Done? ==>
        var t := Turn(if cs.complete then Some(cs) else None, o.msg, o.ack);
        var count: U32 := (c.ackReceived + Length(t)) % 0x1_0000_0000;
        var window := Named([t], 5, c.remoteWindow);
        && t.ack == (if t.done.Some? && count >= window then Some(count) else None)
        && HandsOut(t)
        && o.conn.remoteWindow == window && o.conn.remoteChunkSize == Named([t], 1, c.remoteChunkSize)
        && o.conn.ackReceived == Since([t], c.ackReceived) % 0x1_0000_0000
        && (cs.length <= MAX_LENGTH && c.received < 0xF000_0000 ==>
              o.conn.received == Total([t], c.received) < 0xF000_0000)
  {
    hide U32BE, Number;
    if |cs.data| >= 4 { NumberIs(cs.data); }
    NoTurns(c);
  }

  lemma NoTurns(c: Conn)
    ensures Since([], c.ackReceived) == c.ackReceived && Total([], c.received) == c.received
    ensures Named([], 5, c.remoteWindow) == c.remoteWindow && Named([], 1, c.remoteChunkSize) == c.remoteChunkSize
  {
  }

  // ---------- whole runs ----------

  function Acks(ts: seq<Turn>): seq<U32> {
    if ts == [] then [] else Optional(ts[0].ack) + Acks(ts[1..])
  }

  function Messages(ts: seq<Turn>): seq<Message> {
    if ts == [] then [] else Optional(ts[0].msg) + Messages(ts[1..])
  }

  lemma Shifted(t: Turn, ts: seq<Turn>, i: nat, n: nat, window: U32)
    requires i < |ts|
    ensures Reports([t] + ts, i + 1, n, window) <==> Reports(ts, i, Since([t], n), Named([t], 5, window))
  {
    var all := [t] + ts;
    assert all[..i + 1] == [t] + ts[..i] && all[..i + 2] == [t] + ts[..i + 1] && all[i + 1] == ts[i];
    SinceCons(t, ts[..i], n);
    NamedCons(t, ts[..i + 1], 5, window);
    hide Since, Named;
  }

  /** What was counted before the run matters modulo 2^32 only. */
  lemma {:induction false} SinceModulo(ts: seq<Turn>, n: nat, m: nat)
    requires n % 0x1_0000_0000 == m % 0x1_0000_0000
    ensures Since(ts, n) % 0x1_0000_0000 == Since(ts, m) % 0x1_0000_0000
    decreases |ts|
  {
    if ts != [] {
      var front, l := ts[..|ts| - 1], Length(ts[|ts| - 1]);
      SinceModulo(front, n, m);
      AddSame(Since(front, n), Since(front, m), l);
    }
  }

  lemma AddSame(a: nat, b: nat, l: nat)
    requires a % 0x1_0000_0000 == b % 0x1_0000_0000
    ensures (a + l) % 0x1_0000_0000 == (b + l) % 0x1_0000_0000
  {
  }

  lemma ReportsModulo(ts: seq<Turn>, i: nat, n: nat, m: nat, window: U32)
    requires i < |ts| && n % 0x1_0000_0000 == m % 0x1_0000_0000
    ensures Reports(ts, i, n, window) <==> Reports(ts, i, m, window)
  {
    SinceModulo(ts[..i], n, m);
    AddSame(Since(ts[..i], n), Since(ts[..i], m), Length(ts[i]));
    hide Since, Named;
  }

  lemma TurnsStep(c: Conn, input: seq<Byte>)
    requires Healthy(c)
    ensures var s := Step(c, input);
      if s.Stop? then TurnsOf(c, input) == [] && Drain(c, input) == Drained([], [], c, input)
      else
        && TurnsOf(c, input) == [Turn(Completing(c, input), s.msg, s.ack)] + TurnsOf(s.conn, s.rest)
        && Drain(c, input) == Before(Optional(s.msg), Optional(s.ack), Drain(s.conn, s.rest))
  {
    hide Step, Completing;
  }

  /**
   * Over any run of Read, from any state: each turn sends an ack if and only if it completes a message and the bytes
   * completed since the last ack reach the window, which is the number in the last window message; the ack
   * names those bytes. A message is handed out if and only if its type is none of 1 to 6.
   */
  lemma {:induction false} EveryTurn(c: Conn, input: seq<Byte>)
    requires Healthy(c)
    ensures var ts := TurnsOf(c, input);
      forall i :: 0 <= i < |ts| ==> Reports(ts, i, c.ackReceived, c.remoteWindow) && HandsOut(ts[i])
    decreases |input|
  {
    hide Step, TurnsOf, Completing, HandsOut, Since, Named, Reports;
    TurnsStep(c, input);
    var s := Step(c, input);
    if s.Next? {
      OneTurn(c, input);
      EveryTurn(s.conn, s.rest);
      var t, rest := Turn(Completing(c, input), s.msg, s.ack), TurnsOf(s.conn, s.rest);
      var ts := TurnsOf(c, input);
      forall i | 0 <= i < |ts| ensures Reports(ts, i, c.ackReceived, c.remoteWindow) && HandsOut(ts[i]) {
        if i == 0 {
          FirstReports(t, rest, c.ackReceived, c.remoteWindow);
        } else {
          ReportsModulo(rest, i - 1, s.conn.ackReceived, Since([t], c.ackReceived), s.conn.remoteWindow);
          Shifted(t, rest, i - 1, c.ackReceived, c.remoteWindow);
        }
      }
    }
  }

  lemma FirstReports(t: Turn, rest: seq<Turn>, n: nat, window: U32)
    requires var count: U32 := (n + Length(t)) % 0x1_0000_0000;
      t.ack == if t.done.Some? && count >= Named([t], 5, window) then Some(count) else None
    ensures Reports([t] + rest, 0, n, window)
  {
    var ts := [t] + rest;
    assert ts[..0] == [] && ts[..1] == [t];
  }

  /** The connection after the run, and what Read has handed out and sent over it. */
  lemma {:induction false} AfterRun(c: Conn, input: seq<Byte>)
    requires Healthy(c)
    ensures var d, ts := Drain(c, input), TurnsOf(c, input);
      && d.msgs == Messages(ts) && d.acks == Acks(ts)
      && d.conn.remoteWindow == Named(ts, 5, c.remoteWindow)
      && d.conn.remoteChunkSize == Named(ts, 1, c.remoteChunkSize)
      && d.conn.ackReceived == Since(ts, c.ackReceived) % 0x1_0000_0000
      && (c.received < 0xF000_0000 ==> d.conn.received == Total(ts, c.received))
    decreases |input|
  {
    hide Step, TurnsOf, Drain, Completing, HandsOut, Since, Named, Total;
    TurnsStep(c, input);
    var s := Step(c, input);
    if s.Next? {
      OneTurn(c, input);
      AfterRun(s.conn, s.rest);
      var t, rest := Turn(Completing(c, input), s.msg, s.ack), TurnsOf(s.conn, s.rest);
      assert ([t] + rest)[1..] == rest;
      SinceCons(t, rest, c.ackReceived);
      SinceCons(t, rest, c.received);
      NamedCons(t, rest, 5, c.remoteWindow);
      NamedCons(t, rest, 1, c.remoteChunkSize);
      SinceModulo(rest, s.conn.ackReceived, Since([t], c.ackReceived));
    } else {
      NoTurns(c);
    }
  }

  /** On a new connection, whose window is 2500000 until the peer names another. */
  lemma NewConnection(input: seq<Byte>)
    ensures var c := Conn(128, 128, 2_500_000, 0, 0, map[]);
      Healthy(c) && var ts := TurnsOf(c, input);
      forall i :: 0 <= i < |ts| ==> Reports(ts, i, 0, 2_500_000) && HandsOut(ts[i])
  {
    EveryTurn(Conn(128, 128, 2_500_000, 0, 0, map[]), input);
  }

  // ---------- the acknowledgement on the wire ----------

  /** In one chunk: type 3 on chunk stream 2, four bytes, the number most significant byte first. */
  lemma AckBytesAre(size: U32, v: U32)
    requires size >= 4
    ensures AckWire(size, [v]) == [2, 0, 0, 0, 0, 0, 4, 3, 0, 0, 0, 0,
                                   v / 0x100_0000, v / 0x1_0000 % 0x100, v / 0x100 % 0x100, v % 0x100]
  {
    hide AckWire, EncodeChunks, EncodeChunk, Split;
    var m := AckMessage(v);
    AckWireShort(size, v);
    OnePiece(m, size);
    AckChunk(v);
  }

  lemma OnePiece(m: Message, size: U32)
    requires 0 < |m.data| <= size && |m.data| <= MAX_LENGTH
    ensures EncodeChunks(Split(m, size, 0)) == EncodeChunk(Piece(m, 0, |m.data|))
  {
    hide EncodeChunk, Piece;
    SplitBytes(m, size, 0, []);
    SplitEnds(m, size, []);
    var all, one := EncodeChunks(Split(m, size, 0)), EncodeChunk(Piece(m, 0, |m.data|));
    assert all + [] == all && one + ([] + []) == one;
    assert EncodeChunks(Split(m, size, |m.data|)) + [] == [];
  }

  lemma AckChunk(v: U32)
    ensures EncodeChunk(Piece(AckMessage(v), 0, 4))
         == [2, 0, 0, 0, 0, 0, 4, 3, 0, 0, 0, 0,
             v / 0x100_0000, v / 0x1_0000 % 0x100, v / 0x100 % 0x100, v % 0x100]
  {
    hide BE, LE, EncodeBasic, MessageHeader, Extension;
    AckParts(AckMessage(v), v);
    Digits(v);
  }

  lemma Digits(v: U32)
    ensures BE(v, 4) == [v / 0x100_0000, v / 0x1_0000 % 0x100, v / 0x100 % 0x100, v % 0x100]
  {
    BE4Bytes(v);
    hide BE;
    assert v / 256 / 256 == v / 0x1_0000 && v / 256 / 256 / 256 == v / 0x100_0000;
  }

  lemma AckParts(m: Message, v: U32)
    requires m == AckMessage(v)
    ensures m.csid == 2 && m.data == BE(v, 4) && m.data[0..4] == m.data && Extension(m) == []
    ensures EncodeBasic(0, 2) == [2] && MessageHeader(m, 0, 4) == [0, 0, 0, 0, 0, 4, 3, 0, 0, 0, 0]
  {
    hide BE, LE;
    SmallNumbers();
    assert Min(m.timestamp, EXTENDED) == 0 && m.typeID == 3 && m.streamID == 0;
  }

  lemma SmallNumbers()
    ensures BE(0, 3) == [0, 0, 0] && BE(4, 3) == [0, 0, 4] && BE(3, 1) == [3] && LE(0, 4) == [0, 0, 0, 0]
  {
    assert BE(0, 1) == [0] && BE(0, 2) == [0, 0];
    assert LE(0, 1) == [0] && LE(0, 2) == [0, 0] && LE(0, 3) == [0, 0, 0];
  }

  /** The chunk streams that complete a message, in order. */
  function Arrivals(ts: seq<Turn>): seq<ChunkState> {
    if ts == [] then [] else Optional(ts[0].done) + Arrivals(ts[1..])
  }

  lemma TurnTakes(c: Conn, ch: Chunk, rest: seq<Byte>)
    requires Healthy(c) && Acceptable(c, ch)
    ensures var cs := Apply(Lookup(c, ch.csid), ch);
      Take(c, ch).Done? ==>
        Arrivals(TurnsOf(c, EncodeChunk(ch) + rest))
        == (if cs.complete then [cs] else []) + Arrivals(TurnsOf(Take(c, ch).conn, rest))
  {
    assert ch.fmt < 4;
    hide Apply, WellShaped, Sized, Take, ReadChunk, EncodeChunk, TurnsOf, Step, Completing;
    StepTakes(c, ch, rest);
    CompletesAt(c, ch, rest);
    TurnsStep(c, EncodeChunk(ch) + rest);
    var o := Take(c, ch);
    if o.Done? {
      var ts := TurnsOf(c, EncodeChunk(ch) + rest);
      assert ts[1..] == TurnsOf(o.conn, rest);
    }
  }

  lemma CompletesAt(c: Conn, ch: Chunk, rest: seq<Byte>)
    requires Healthy(c) && Acceptable(c, ch)
    ensures var cs := Apply(Lookup(c, ch.csid), ch);
      Completing(c, EncodeChunk(ch) + rest) == if cs.complete then Some(cs) else None
  {
    assert ch.fmt < 4;
    hide ReadChunk, Apply, EncodeBasic, ParseBasic;
    var body := ch.header + ch.ext + ch.payload + rest;
    assert EncodeChunk(ch) + rest == EncodeBasic(ch.fmt, ch.csid) + body;
    BasicRoundTrip(ch.fmt, ch.csid, body);
    ReadChunkApplies(Lookup(c, ch.csid), c.remoteChunkSize, ch, rest);
  }

  /** The rest of a message is the next one to complete. */
  lemma {:induction false} ArrivesRest(c: Conn, m: Message, off: nat, ch: Chunk, rest: seq<Byte>)
      returns (cs: ChunkState, c': Conn)
    requires Healthy(c) && Carriable(m) && Acceptable(c, ch) && ch.csid == m.csid && m.timestamp < EXTENDED
    requires 0 < off <= |m.data| && Midway(Apply(Lookup(c, m.csid), ch), m, off)
    requires Apply(Lookup(c, m.csid), ch).timeDelta != EXTENDED && c.remoteChunkSize >= 1
    requires m.typeID != 1 && m.typeID != 5
    ensures Midway(cs, m, |m.data|) && Healthy(c')
    ensures Arrivals(TurnsOf(c, EncodeChunk(ch) + (EncodeChunks(Split(m, c.remoteChunkSize, off)) + rest)))
         == [cs] + Arrivals(TurnsOf(c', rest))
    decreases |m.data| - off
  {
    hide Apply, EncodeChunk, WellShaped, Outstanding, Deliver, Piece, TurnsOf, Split, Arrivals;
    var size := c.remoteChunkSize;
    cs := Apply(Lookup(c, m.csid), ch);
    var left := EncodeChunks(Split(m, size, off)) + rest;
    TurnTakes(c, ch, left);
    TakenAs(Store(c, cs), cs, m, off);
    var o := Take(c, ch);
    if off == |m.data| {
      SplitEnds(m, size, rest);
      c' := o.conn;
    } else {
      var n := Min(size, |m.data| - off);
      ContinuesMessage(cs, m, off, n);
      SplitBytes(m, size, off, rest);
      var done := cs;
      cs, c' := ArrivesRest(o.conn, m, off + n, Piece(m, off, n), rest);
      assert [] + Arrivals(TurnsOf(o.conn, left)) == Arrivals(TurnsOf(o.conn, left));
    }
  }

  lemma TakenAs(c: Conn, cs: ChunkState, m: Message, off: nat)
    requires Midway(cs, m, off) && m.typeID != 1 && m.typeID != 5
    ensures Deliver(c, cs).Done? && (off < |m.data| ==> !cs.complete && Deliver(c, cs).conn == c)
    ensures off == |m.data| ==> cs.complete
  {
  }

  /** At any chunk size the peer takes an ack for what it is: type 3 on chunk stream 2, with the number sent. */
  lemma AckArrives(c: Conn, v: U32, rest: seq<Byte>) returns (cs: ChunkState, c': Conn)
    requires Idle(c) && c.remoteChunkSize >= 1
    ensures Healthy(c')
    ensures Arrivals(TurnsOf(c, AckWire(c.remoteChunkSize, [v]) + rest)) == [cs] + Arrivals(TurnsOf(c', rest))
    ensures cs.csid == 2 && cs.typeID == 3 && cs.streamID == 0 && cs.timestamp == 0
    ensures cs.length == 4 <= |cs.data| && Number(cs.data) == v
  {
    hide Apply, EncodeChunk, WellShaped, Outstanding, Deliver, Piece, TurnsOf, Split, Arrivals, AckWire;
    var size, m := c.remoteChunkSize, AckMessage(v);
    var n := Min(size, 4);
    AckWireShort(size, v);
    OpensMessage(Lookup(c, 2), m, n);
    SplitBytes(m, size, 0, rest);
    cs, c' := ArrivesRest(c, m, n, Piece(m, 0, n), rest);
    ReadsBack(cs.data, v);
  }

  lemma ReadsBack(b: seq<Byte>, v: U32)
    requires |b| >= 4 && b[..4] == BE(v, 4)
    ensures Number(b) == v
  {
    BE4Bytes(v);
    assert b[0] == b[..4][0] && b[1] == b[..4][1] && b[2] == b[..4][2] && b[3] == b[..4][3];
  }
}
