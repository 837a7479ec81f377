/**
 * A peer that compresses its message headers (Adobe RTMP 1.0, section 5.3.1.2): what Read makes of types 1, 2 and 3.
 * Data, type and stream come back; the time of a message comes back only if its header is whole.
 */
module Compression {
  import opened Bytes
  import opened Chunks
  import opened Connection
  import opened Transfer
  import opened Interleaving

  // ---------- the sender ----------

  /**
   * What both sides keep of a chunk stream: the last message, the type of the last header that was not 3 and the time
   * in the last whole one, and how far the last header moved the clock.
   */
  datatype Past = Past(last: Message, kind: U32, whole: U32, step: U32)

  /** A message, the type of its first header, and the chunks it is cut into. */
  datatype Sending = Sending(m: Message, fmt: nat, chunks: seq<Chunk>)

  function Since(past: Past, m: Message): U32 {
    (m.timestamp - past.last.timestamp) % 0x1_0000_0000
  }

  /** Each type of header leaves out what has not changed. */
  predicate Allowed(past: Option<Past>, s: Sending) {
    && s.fmt < 4 && (s.fmt == 0 ==> s.m.timestamp < 0xFF_FFFF)
    && (s.fmt >= 1 ==> past.Some? && s.m.streamID == past.value.last.streamID && Since(past.value, s.m) < 0xFF_FFFF)
    && (s.fmt >= 2 ==> s.m.typeID == past.value.last.typeID && |s.m.data| == |past.value.last.data|)
    && (s.fmt == 3 ==> Since(past.value, s.m) == past.value.step)
  }

  function Three(v: nat): (b: seq<Byte>)
    requires v < 0x100_0000
    ensures |b| == 3
  {
    [v / 0x1_0000, v / 0x100 % 0x100, v % 0x100]
  }

  function FirstHeader(past: Option<Past>, s: Sending): (h: seq<Byte>)
    requires Allowed(past, s) && |s.m.data| < 0x100_0000 && s.m.typeID < 256
  {
    var id := s.m.streamID;
    match s.fmt
    case 0 => Three(s.m.timestamp) + Three(|s.m.data|)
              + [s.m.typeID, id % 0x100, id / 0x100 % 0x100, id / 0x1_0000 % 0x100, id / 0x100_0000]
    case 1 => Three(Since(past.value, s.m)) + Three(|s.m.data|) + [s.m.typeID]
    case 2 => Three(Since(past.value, s.m))
    case _ => []
  }

  /** Chunks without a header carry the message on from byte off. */
  predicate Carries(m: Message, off: nat, chunks: seq<Chunk>)
    requires off <= |m.data|
    decreases |m.data| - off
  {
    if off == |m.data| then chunks == []
    else
      && chunks != [] && 0 < |chunks[0].payload| <= |m.data| - off
      && chunks[0] == Chunk(3, m.csid, [], [], m.data[off..off + |chunks[0].payload|])
      && Carries(m, off + |chunks[0].payload|, chunks[1..])
  }

  predicate Fine(past: Option<Past>, s: Sending) {
    && Allowed(past, s) && 0 < |s.m.data| < 0x100_0000 && s.m.typeID < 256
    && s.chunks != [] && 0 < |s.chunks[0].payload| <= |s.m.data|
    && s.chunks[0] == Chunk(s.fmt, s.m.csid, FirstHeader(past, s), [], s.m.data[..|s.chunks[0].payload|])
    && Carries(s.m, |s.chunks[0].payload|, s.chunks[1..])
  }

  function After(past: Option<Past>, s: Sending): Option<Past>
    requires Allowed(past, s)
  {
    if s.fmt == 0 then Some(Past(s.m, 0, s.m.timestamp, 0))
    else Some(Past(s.m, if s.fmt == 3 then past.value.kind else s.fmt, past.value.whole, Since(past.value, s.m)))
  }

  /** A run of messages on one chunk stream. */
  predicate AllFine(past: Option<Past>, ss: seq<Sending>)
    decreases |ss|
  {
    ss == [] || (Fine(past, ss[0]) && AllFine(After(past, ss[0]), ss[1..]))
  }

  function Chunked(ss: seq<Sending>): seq<Chunk> {
    if ss == [] then [] else ss[0].chunks + Chunked(ss[1..])
  }

  // ---------- what comes out ----------

  /** The message as Read has it: with the time and the type of the headers it looked at. */
  function AsRead(past: Option<Past>, s: Sending): Message
    requires Allowed(past, s)
  {
    s.m.(timestamp := After(past, s).value.whole, format := After(past, s).value.kind)
  }

  /** Protocol control messages stay inside. */
  function Emitted(e: Message): seq<Message> {
    if Internal(e.typeID) then [] else [e]
  }

  function AllRead(past: Option<Past>, ss: seq<Sending>): seq<Message>
    requires AllFine(past, ss)
    decreases |ss|
  {
    if ss == [] then []
    else
      Emitted(AsRead(past, ss[0])) + AllRead(After(past, ss[0]), ss[1..])
  }

  // ---------- one message ----------

  /** The chunk stream is between messages and remembers the last one. */
  predicate Remembers(cs: ChunkState, past: Option<Past>) {
    && Fits(cs) && Quiet(cs)
    && (past.Some? ==>
          && cs.timestamp == past.value.whole && cs.format == past.value.kind && cs.length == |past.value.last.data|
          && cs.typeID == past.value.last.typeID && cs.streamID == past.value.last.streamID)
  }

  /** off bytes of e have arrived. */
  predicate Under(cs: ChunkState, e: Message, off: nat) {
    && Fits(cs) && cs.timeDelta != EXTENDED
    && cs.csid == e.csid && cs.length == |e.data| <= |cs.data| && cs.format == e.format
    && cs.timestamp == e.timestamp && cs.typeID == e.typeID && cs.streamID == e.streamID
    && off == cs.index <= |e.data| && cs.remain == |e.data| - off && cs.data[..off] == e.data[..off]
    && (cs.complete <==> cs.remain == 0)
  }

  lemma ThreeBack(v: nat, more: seq<Byte>)
    requires v < 0x100_0000
    ensures U24BE(Three(v) + more) == v
  {
  }

  lemma FourBack(id: U32)
    ensures U32LE([id % 0x100, id / 0x100 % 0x100, id / 0x1_0000 % 0x100, id / 0x100_0000]) == id
  {
  }

  /** What the reader takes from the first header. */
  lemma HeaderTaken(cs: ChunkState, past: Option<Past>, s: Sending)
    requires Remembers(cs, past) && Fine(past, s)
    ensures var h := FirstHeader(past, s);
      && |h| == HeaderLen(s.fmt)
      && var c := WithHeader(cs, s.fmt, h);
         var e := AsRead(past, s);
         && c.timestamp == e.timestamp && c.format == e.format && c.length == |e.data| && c.typeID == e.typeID
         && c.streamID == e.streamID && c.timeDelta != EXTENDED && !Extended(c, s.fmt)
         && c == cs.(timestamp := c.timestamp, format := c.format, length := c.length, typeID := c.typeID,
                     streamID := c.streamID, timeDelta := c.timeDelta)
  {
    hide Three, U24BE, U32LE;
    var h, n := FirstHeader(past, s), |s.m.data|;
    var id := s.m.streamID;
    var four: seq<Byte> := [id % 0x100, id / 0x100 % 0x100, id / 0x1_0000 % 0x100, id / 0x100_0000];
    if s.fmt == 0 {
      ThreeBack(s.m.timestamp, Three(n) + ([s.m.typeID] + four));
      assert h == Three(s.m.timestamp) + (Three(n) + ([s.m.typeID] + four));
      ThreeBack(n, [s.m.typeID] + four);
      assert h[3..] == Three(n) + ([s.m.typeID] + four);
      FourBack(id);
      assert h[7..] == four;
    } else if s.fmt == 1 {
      ThreeBack(Since(past.value, s.m), Three(n) + [s.m.typeID]);
      assert h == Three(Since(past.value, s.m)) + (Three(n) + [s.m.typeID]);
      ThreeBack(n, [s.m.typeID]);
      assert h[3..] == Three(n) + [s.m.typeID];
    } else if s.fmt == 2 {
      ThreeBack(Since(past.value, s.m), []);
      assert h == Three(Since(past.value, s.m)) + [];
    }
  }

  lemma Opens(cs: ChunkState, past: Option<Past>, s: Sending)
    requires Remembers(cs, past) && Fine(past, s) && cs.csid == s.m.csid
    ensures WellShaped(cs, s.chunks[0])
    ensures Under(Apply(cs, s.chunks[0]), AsRead(past, s), |s.chunks[0].payload|)
  {
    HeaderTaken(cs, past, s);
    var c := s.chunks[0];
    hide WithHeader, FirstHeader, Extended;
    Begun(WithHeader(cs, s.fmt, c.header), AsRead(past, s), s.fmt, c.payload);
  }

  lemma Begun(cs: ChunkState, e: Message, fmt: nat, payload: seq<Byte>)
    requires Fits(cs) && cs.remain == 0 && !Extended(cs, fmt) && cs.timeDelta != EXTENDED && cs.csid == e.csid
    requires cs.timestamp == e.timestamp && cs.format == e.format && cs.length == |e.data| && cs.typeID == e.typeID
    requires cs.streamID == e.streamID && 0 < |payload| <= |e.data| <= MAX_LENGTH && payload == e.data[..|payload|]
    ensures Begin(cs, fmt, []).remain == |e.data| && Fits(Begin(cs, fmt, []))
    ensures Under(Fill(Begin(cs, fmt, []), payload), e, |payload|)
  {
  }

  lemma GoesOn(cs: ChunkState, e: Message, off: nat, payload: seq<Byte>)
    requires Under(cs, e, off) && 0 < |payload| && off + |payload| <= |e.data|
    requires payload == e.data[off..off + |payload|]
    ensures var c := Chunk(3, e.csid, [], [], payload);
      WellShaped(cs, c) && Under(Apply(cs, c), e, off + |payload|)
  {
    var c := Chunk(3, e.csid, [], [], payload);
    assert Apply(cs, c).data[..off + |payload|] == cs.data[..off] + payload;
    assert e.data[..off + |payload|] == e.data[..off] + payload;
  }

  lemma EmitsWhole(cs: ChunkState, e: Message, off: nat)
    requires Under(cs, e, off)
    ensures cs.complete ==> cs.length <= |cs.data|
    ensures Emits(cs) == if off == |e.data| then Emitted(e) else []
  {
    if off == |e.data| { assert cs.data[..cs.length] == e.data; }
  }

  /** The chunks after the first complete the message. */
  lemma {:induction false} Completed(cs: ChunkState, e: Message, off: nat, chunks: seq<Chunk>, tail: seq<Chunk>)
      returns (cs': ChunkState)
    requires Under(cs, e, off) && Carries(e, off, chunks)
    ensures Under(cs', e, |e.data|) && Fits(cs')
    ensures Shaped(cs', tail) ==>
              Shaped(cs, chunks + tail)
              && Solo(cs, chunks + tail)
                 == ((if chunks == [] then [] else Emitted(e)) + Solo(cs', tail).0, Solo(cs', tail).1)
    decreases |chunks|
  {
    assert Fits(cs);
    hide Apply, WellShaped, Under;
    if chunks == [] {
      cs' := cs;
      assert off == |e.data| && [] + tail == tail;
      if Shaped(cs', tail) { assert [] + Solo(cs', tail).0 == Solo(cs', tail).0; }
    } else {
      var n := |chunks[0].payload|;
      GoesOn(cs, e, off, chunks[0].payload);
      var next := Apply(cs, chunks[0]);
      cs' := Completed(next, e, off + n, chunks[1..], tail);
      EmitsWhole(next, e, off + n);
      assert (chunks + tail)[0] == chunks[0] && (chunks + tail)[1..] == chunks[1..] + tail;
      assert (chunks[1..] == []) <==> (off + n == |e.data|);
      if Shaped(cs', tail) {
        var last := Solo(cs', tail).0;
        assert [] + last == last && [] + (Emitted(e) + last) == Emitted(e) + last;
      }
    }
  }

  lemma {:induction false} CarriesSame(m: Message, e: Message, off: nat, chunks: seq<Chunk>)
    requires off <= |m.data| && e.data == m.data && e.csid == m.csid && Carries(m, off, chunks)
    ensures Carries(e, off, chunks)
    decreases |m.data| - off
  {
    if off < |m.data| {
      CarriesSame(m, e, off + |chunks[0].payload|, chunks[1..]);
    }
  }

  lemma OneSending(cs: ChunkState, past: Option<Past>, s: Sending, tail: seq<Chunk>) returns (cs': ChunkState)
    requires Remembers(cs, past) && Fine(past, s) && cs.csid == s.m.csid
    ensures Remembers(cs', After(past, s)) && cs'.csid == cs.csid
    ensures Shaped(cs', tail) ==>
              Shaped(cs, s.chunks + tail)
              && Solo(cs, s.chunks + tail) == (Emitted(AsRead(past, s)) + Solo(cs', tail).0, Solo(cs', tail).1)
  {
    var e, n := AsRead(past, s), |s.chunks[0].payload|;
    var chunks := s.chunks;
    Opens(cs, past, s);
    CarriesSame(s.m, e, n, chunks[1..]);
    hide Apply, WellShaped, FirstHeader;
    var first := Apply(cs, chunks[0]);
    cs' := Completed(first, e, n, chunks[1..], tail);
    EmitsWhole(first, e, n);
    assert (chunks + tail)[0] == chunks[0] && (chunks + tail)[1..] == chunks[1..] + tail;
    assert (chunks[1..] == []) <==> (n == |e.data|);
    if Shaped(cs', tail) {
      var last := Solo(cs', tail).0;
      assert [] + last == last && [] + (Emitted(e) + last) == Emitted(e) + last;
    }
  }

  // ---------- whole runs ----------

  /** One stream alone. */
  lemma {:induction false} StreamAlone(cs: ChunkState, past: Option<Past>, ss: seq<Sending>)
    requires Remembers(cs, past) && AllFine(past, ss) && forall s | s in ss :: s.m.csid == cs.csid
    ensures Shaped(cs, Chunked(ss)) && Solo(cs, Chunked(ss)).0 == AllRead(past, ss)
    decreases |ss|
  {
    if ss != [] {
      hide Shaped, Solo, Remembers, Fine, Fits, Allowed;
      assert ss[0] in ss;
      assert Fine(past, ss[0]);
      assert Allowed(past, ss[0]) by { FineIsAllowed(past, ss[0]); }
      var cs' := OneSending(cs, past, ss[0], Chunked(ss[1..]));
      StreamAlone(cs', After(past, ss[0]), ss[1..]);
    }
  }

  lemma FineIsAllowed(past: Option<Past>, s: Sending)
    requires Fine(past, s)
    ensures Allowed(past, s)
  {
  }

  /**
   * However its chunks are cut and mixed with those of other streams, Read hands out every message of a peer that
   * compresses its headers, in order, with its data, type and stream; the time is that of the last whole header.
   */
  lemma CompressedArrive(c: Conn, chunks: seq<Chunk>, csid: U32, past: Option<Past>, ss: seq<Sending>)
    requires Healthy(c) && Fitting(c, chunks) && Remembers(Lookup(c, csid), past)
    requires Select(chunks, csid) == Chunked(ss) && AllFine(past, ss) && forall s | s in ss :: s.m.csid == csid
    ensures OfStream(Drain(c, EncodeChunks(chunks)).msgs, csid) == AllRead(past, ss)
  {
    hide EncodeChunks, Shaped, Fitting, Take, AllRead, AllFine;
    Projection(c, chunks, csid);
    StreamAlone(Lookup(c, csid), past, ss);
    DrainRuns(c, chunks, []);
    assert EncodeChunks(chunks) + [] == EncodeChunks(chunks);
    var r := Run(c, chunks);
    assert Drain(r.conn, []).msgs == [] && r.msgs + [] == r.msgs;
  }

  /** Time moves on from message to message, and has moved since the last whole header. */
  predicate MovesOn(past: Option<Past>, ss: seq<Sending>) {
    && (past.Some? ==> past.value.whole <= past.value.last.timestamp)
    && (past.Some? && ss != [] ==> past.value.last.timestamp < ss[0].m.timestamp)
    && forall i :: 0 < i < |ss| ==> ss[i - 1].m.timestamp < ss[i].m.timestamp
  }

  /** Where time moves on, all messages are handed out with their own times exactly if every header is whole. */
  lemma {:induction false} TimesExactly(past: Option<Past>, ss: seq<Sending>)
    requires AllFine(past, ss) && MovesOn(past, ss)
    requires forall i :: 0 <= i < |ss| ==> !Internal(ss[i].m.typeID)
    ensures var ms := AllRead(past, ss);
      && |ms| == |ss|
      && (forall i :: 0 <= i < |ss| ==>
            ms[i].data == ss[i].m.data && ms[i].typeID == ss[i].m.typeID && ms[i].streamID == ss[i].m.streamID)
      && ((forall i :: 0 <= i < |ss| ==> ms[i].timestamp == ss[i].m.timestamp)
          <==> forall i :: 0 <= i < |ss| ==> ss[i].fmt == 0)
    decreases |ss|
  {
    if ss != [] {
      FineIsAllowed(past, ss[0]);
      var next, rest := After(past, ss[0]), ss[1..];
      StillMovesOn(past, ss);
      assert AllFine(next, rest);
      hide MovesOn;
      TimesExactly(next, rest);
      var ms, more := AllRead(past, ss), AllRead(next, rest);
      assert ms == [AsRead(past, ss[0])] + more;
      hide AllFine, AllRead, Fine, Allowed;
      FirstAndRest(ss, ms);
    }
  }

  lemma StillMovesOn(past: Option<Past>, ss: seq<Sending>)
    requires ss != [] && Allowed(past, ss[0]) && MovesOn(past, ss)
    ensures MovesOn(After(past, ss[0]), ss[1..])
    ensures ss[0].fmt == 0 <==> AsRead(past, ss[0]).timestamp == ss[0].m.timestamp
  {
    var rest := ss[1..];
    forall i | 0 < i < |rest| ensures rest[i - 1].m.timestamp < rest[i].m.timestamp {
      assert ss[i].m.timestamp < ss[i + 1].m.timestamp;
    }
    if rest != [] { assert ss[0].m.timestamp < ss[1].m.timestamp; }
  }

  lemma FirstAndRest(ss: seq<Sending>, ms: seq<Message>)
    requires |ss| == |ms| > 0
    ensures (forall i :: 0 <= i < |ss| ==> ms[i].timestamp == ss[i].m.timestamp)
       <==> ms[0].timestamp == ss[0].m.timestamp
            && forall i :: 0 <= i < |ss[1..]| ==> ms[1..][i].timestamp == ss[1..][i].m.timestamp
    ensures (forall i :: 0 <= i < |ss| ==> ss[i].fmt == 0)
       <==> ss[0].fmt == 0 && forall i :: 0 <= i < |ss[1..]| ==> ss[1..][i].fmt == 0
  {
    if forall i :: 0 <= i < |ss[1..]| ==> ms[1..][i].timestamp == ss[1..][i].m.timestamp {
      assert forall i :: 0 < i < |ss| ==> ms[i] == ms[1..][i - 1] && ss[i] == ss[1..][i - 1];
    }
    if forall i :: 0 <= i < |ss[1..]| ==> ss[1..][i].fmt == 0 {
      assert forall i :: 0 < i < |ss| ==> ss[i] == ss[1..][i - 1];
    }
  }

  // ---------- an example ----------

  function Frame(time: U32): Message {
    Message(0, 6, time, 9, 1, [0x27])
  }

  const FIRST: Sending := Sending(Frame(100), 0, [Chunk(0, 6, [0, 0, 100, 0, 0, 1, 9, 1, 0, 0, 0], [], [0x27])])
  const SECOND: Sending := Sending(Frame(120), 2, [Chunk(2, 6, [0, 0, 20], [], [0x27])])
  const THIRD: Sending := Sending(Frame(140), 3, [Chunk(3, 6, [], [], [0x27])])

  lemma FirstIsFine()
    ensures Fine(None, FIRST) && After(None, FIRST) == Some(Past(Frame(100), 0, 100, 0))
  {
  }

  lemma SecondIsFine()
    ensures var past := Some(Past(Frame(100), 0, 100, 0));
      Fine(past, SECOND) && After(past, SECOND) == Some(Past(Frame(120), 2, 100, 20))
  {
  }

  lemma ThirdIsFine()
    ensures var past := Some(Past(Frame(120), 2, 100, 20));
      Fine(past, THIRD) && After(past, THIRD) == Some(Past(Frame(140), 2, 100, 20))
  {
  }

  lemma AddOne(past: Option<Past>, s: Sending, ss: seq<Sending>)
    requires Fine(past, s) && AllFine(After(past, s), ss)
    ensures AllFine(past, [s] + ss)
    ensures AllRead(past, [s] + ss) == Emitted(AsRead(past, s)) + AllRead(After(past, s), ss)
  {
    hide Fine, Allowed;
    assert ([s] + ss)[1..] == ss;
  }

  /** That of the format: a whole header at 100, a step of 20, and the same step again are meant as 100, 120 and 140. */
  lemma ThreeFrames()
    ensures var ss := [FIRST, SECOND, THIRD];
      && AllFine(None, ss)
      && AllRead(None, ss) == [Frame(100), Frame(100).(format := 2), Frame(100).(format := 2)]
  {
    FirstIsFine();
    SecondIsFine();
    ThirdIsFine();
    var one, two := Some(Past(Frame(100), 0, 100, 0)), Some(Past(Frame(120), 2, 100, 20));
    hide Fine;
    AddOne(two, THIRD, []);
    AddOne(one, SECOND, [THIRD]);
    AddOne(None, FIRST, [SECOND, THIRD]);
  }
}
