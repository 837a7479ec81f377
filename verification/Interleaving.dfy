/** Chunks of different streams may be interleaved at will: each stream is reassembled as if it were alone. */
module Interleaving {
  import opened Bytes
  import opened Chunks
  import opened Connection
  import opened Transfer

  // ---------- runs over a list of chunks ----------

  /** Each chunk is acceptable when its turn comes, and no panic occurs. */
  predicate Fitting(c: Conn, chunks: seq<Chunk>)
    requires Healthy(c)
    ensures Fitting(c, chunks) ==> forall ch | ch in chunks :: ch.fmt < 4
    decreases |chunks|
  {
    chunks == [] ||
    (Acceptable(c, chunks[0]) && Take(c, chunks[0]).Done? && Fitting(Take(c, chunks[0]).conn, chunks[1..]))
  }

  datatype Ran = Ran(msgs: seq<Message>, acks: seq<U32>, conn: Conn)

  /** What the reader makes of the chunks, in order. */
  function Run(c: Conn, chunks: seq<Chunk>): (r: Ran)
    requires Healthy(c) && Fitting(c, chunks)
    ensures Healthy(r.conn)
    decreases |chunks|
  {
    if chunks == [] then Ran([], [], c)
    else
      var o := Take(c, chunks[0]);
      var r := Run(o.conn, chunks[1..]);
      Ran(Optional(o.msg) + r.msgs, Optional(o.ack) + r.acks, r.conn)
  }

  /** Reading the bytes of the chunks is running over the chunks. */
  lemma {:induction false} DrainRuns(c: Conn, chunks: seq<Chunk>, rest: seq<Byte>)
    requires Healthy(c) && Fitting(c, chunks)
    ensures var r := Run(c, chunks);
       Drain(c, EncodeChunks(chunks) + rest) == Before(r.msgs, r.acks, Drain(r.conn, rest))
    decreases |chunks|
  {
    hide EncodeChunk, Take, WellShaped, Sized, Step;
    if chunks == [] {
      assert EncodeChunks(chunks) + rest == rest;
      var d := Drain(c, rest);
      assert Before([], [], d) == d;
    } else {
      var o, tail := Take(c, chunks[0]), EncodeChunks(chunks[1..]);
      assert EncodeChunks(chunks) + rest == EncodeChunk(chunks[0]) + (tail + rest);
      StepTakes(c, chunks[0], tail + rest);
      DrainRuns(o.conn, chunks[1..], rest);
      var r := Run(o.conn, chunks[1..]);
      BeforeBefore(Optional(o.msg), Optional(o.ack), r.msgs, r.acks, Drain(r.conn, rest));
    }
  }

  // ---------- one stream alone ----------

  function Select(chunks: seq<Chunk>, csid: U32): seq<Chunk> {
    if chunks == [] then []
    else (if chunks[0].csid == csid then [chunks[0]] else []) + Select(chunks[1..], csid)
  }

  function OfStream(msgs: seq<Message>, csid: U32): seq<Message> {
    if msgs == [] then []
    else (if msgs[0].csid == csid then [msgs[0]] else []) + OfStream(msgs[1..], csid)
  }

  /** The chunks of one stream have the shape the stream expects. */
  predicate Shaped(cs: ChunkState, chunks: seq<Chunk>)
    requires Fits(cs)
    decreases |chunks|
  {
    chunks == [] ||
    (WellShaped(cs, chunks[0]) && (var cs' := Apply(cs, chunks[0]);
                                   (cs'.complete ==> cs'.length <= |cs'.data|) && Shaped(cs', chunks[1..])))
  }

  /** The messages a stream reassembles by itself, and the state it ends in. */
  function Solo(cs: ChunkState, chunks: seq<Chunk>): (r: (seq<Message>, ChunkState))
    requires Fits(cs) && Shaped(cs, chunks)
    ensures Fits(r.1)
    decreases |chunks|
  {
    if chunks == [] then ([], cs)
    else
      var cs' := Apply(cs, chunks[0]);
      var r := Solo(cs', chunks[1..]);
      (Emits(cs') + r.0, r.1)
  }

  function Emits(cs: ChunkState): seq<Message>
    requires cs.complete ==> cs.length <= |cs.data|
  {
    if cs.complete && !IsControl(cs.typeID) then [MessageOf(cs)] else []
  }

  /** What taking a chunk does, seen from the streams. */
  lemma TakeOnStreams(c: Conn, ch: Chunk)
    requires Healthy(c) && WellShaped(Lookup(c, ch.csid), ch) && Take(c, ch).Done?
    ensures var cs := Apply(Lookup(c, ch.csid), ch);
            && (cs.complete ==> cs.length <= |cs.data|) && Optional(Take(c, ch).msg) == Emits(cs)
            && Take(c, ch).conn.chunks == c.chunks[ch.csid := cs]
            && cs.csid == ch.csid
  {
    hide Apply;
    var cs := Apply(Lookup(c, ch.csid), ch);
  }

  /** Every stream sees only its own chunks, and its messages come out in the order it completes them. */
  lemma {:induction false} Projection(c: Conn, chunks: seq<Chunk>, csid: U32)
    requires Healthy(c) && Fitting(c, chunks)
    ensures Shaped(Lookup(c, csid), Select(chunks, csid))
    ensures var r := Run(c, chunks);
            Solo(Lookup(c, csid), Select(chunks, csid)) == (OfStream(r.msgs, csid), Lookup(r.conn, csid))
    decreases |chunks|
  {
    hide Apply, Take, WellShaped, Sized;
    if chunks != [] {
      var o := Take(c, chunks[0]);
      TakeOnStreams(c, chunks[0]);
      Projection(o.conn, chunks[1..], csid);
      var cs := Apply(Lookup(c, chunks[0].csid), chunks[0]);
      var more := Run(o.conn, chunks[1..]).msgs;
      OfStreamAppend(Emits(cs), more, csid);
      var rest := Select(chunks[1..], csid);
      if chunks[0].csid == csid {
        var all := [chunks[0]] + rest;
        assert all[0] == chunks[0] && all[1..] == rest;
      } else {
        assert [] + rest == rest && [] + OfStream(more, csid) == OfStream(more, csid);
      }
    }
  }

  lemma OfStreamAppend(few: seq<Message>, more: seq<Message>, csid: U32)
    requires |few| <= 1
    ensures OfStream(few + more, csid) == OfStream(few, csid) + OfStream(more, csid)
  {
    if few == [] {
      assert few + more == more;
    } else {
      assert (few + more)[1..] == more && few[1..] == [];
    }
  }

  // ---------- what a stream holds ----------

  /** got is what has arrived of the message under way (or just completed), and the counters say so. */
  predicate Assembling(cs: ChunkState, got: seq<Byte>) {
    && |got| == cs.index && cs.index + cs.remain == cs.length <= |cs.data|
    && cs.data[..cs.index] == got && (cs.complete <==> cs.remain == 0)
  }

  /** A chunk inside a message does not change its length. */
  predicate Disciplined(cs: ChunkState, ch: Chunk)
    requires Headed(cs, ch)
  {
    cs.remain == 0 || WithHeader(cs, ch.fmt, ch.header).length == cs.length
  }

  /** What has arrived after one more chunk. */
  function Gathered(cs: ChunkState, got: seq<Byte>, ch: Chunk): seq<Byte> {
    (if cs.remain == 0 then [] else got) + ch.payload
  }

  /** The counters and the prefix stay right exactly when the chunk is disciplined. */
  lemma KeepsAssembling(cs: ChunkState, got: seq<Byte>, ch: Chunk)
    requires Fits(cs) && WellShaped(cs, ch) && (cs.remain == 0 || Assembling(cs, got))
    ensures Assembling(Apply(cs, ch), Gathered(cs, got, ch)) <==> Disciplined(cs, ch)
  {
    var cs' := Apply(cs, ch);
    if cs.remain == 0 {
      assert cs'.data[..cs'.index] == ch.payload;
    } else {
      assert cs'.data[..cs'.index] == cs.data[..cs.index] + ch.payload;
    }
  }

  predicate AllAssembling(c: Conn) {
    forall k | k in c.chunks :: c.chunks[k].index <= |c.chunks[k].data|
                                && Assembling(c.chunks[k], c.chunks[k].data[..c.chunks[k].index])
  }

  predicate AllDisciplined(c: Conn, chunks: seq<Chunk>)
    requires Healthy(c) && Fitting(c, chunks)
    decreases |chunks|
  {
    chunks != [] ==> Disciplined(Lookup(c, chunks[0].csid), chunks[0])
                     && AllDisciplined(Take(c, chunks[0]).conn, chunks[1..])
  }

  /** In every state a connection reaches by disciplined chunks, each stream's counters and prefix are right. */
  lemma {:induction false} ReachableAssembling(c: Conn, chunks: seq<Chunk>)
    requires Healthy(c) && AllAssembling(c) && Fitting(c, chunks) && AllDisciplined(c, chunks)
    ensures AllAssembling(Run(c, chunks).conn)
    decreases |chunks|
  {
    hide Apply, Take, WellShaped, Sized, Disciplined;
    if chunks != [] {
      var ch := chunks[0];
      TakeOnStreams(c, ch);
      var cs := Lookup(c, ch.csid);
      KeepsAssembling(cs, cs.data[..cs.index], ch);
      ReachableAssembling(Take(c, ch).conn, chunks[1..]);
    }
  }

  function Payloads(chunks: seq<Chunk>): seq<Byte> {
    if chunks == [] then [] else chunks[0].payload + Payloads(chunks[1..])
  }

  /** The chunks belong to one message: nothing completes before the last. */
  predicate OneMessage(cs: ChunkState, chunks: seq<Chunk>)
    requires Fits(cs) && Shaped(cs, chunks)
    decreases |chunks|
  {
    chunks != [] ==>
      Disciplined(cs, chunks[0])
      && (|chunks| > 1 ==> Apply(cs, chunks[0]).remain > 0 && OneMessage(Apply(cs, chunks[0]), chunks[1..]))
  }

  /** Whatever the header types, the data of a message is the concatenation of the payloads of its chunks. */
  lemma {:induction false} MessageIsItsPayloads(cs: ChunkState, got: seq<Byte>, chunks: seq<Chunk>)
    requires Fits(cs) && Shaped(cs, chunks) && OneMessage(cs, chunks) && chunks != []
    requires if cs.remain == 0 then got == [] else Assembling(cs, got)
    ensures Assembling(Solo(cs, chunks).1, got + Payloads(chunks))
    decreases |chunks|
  {
    hide Apply, WellShaped, Disciplined;
    var cs' := Apply(cs, chunks[0]);
    KeepsAssembling(cs, got, chunks[0]);
    if |chunks| == 1 {
      assert chunks[1..] == [] && Payloads(chunks) == chunks[0].payload;
    } else {
      MessageIsItsPayloads(cs', got + chunks[0].payload, chunks[1..]);
      assert got + chunks[0].payload + Payloads(chunks[1..]) == got + Payloads(chunks);
    }
  }

  // ---------- messages cut into chunks ----------

  /** A message and the chunks that carry it. */
  datatype Part = Part(m: Message, chunks: seq<Chunk>)

  predicate GoodPart(p: Part) {
    && Carriable(p.m) && p.m.data != [] && IsSplit(p.m, 0, p.chunks)
    && (p.m.timestamp < EXTENDED || (p.m.timestamp == EXTENDED && |p.chunks| == 1))
  }

  function Flatten(parts: seq<Part>): seq<Chunk> {
    if parts == [] then [] else parts[0].chunks + Flatten(parts[1..])
  }

  /** What the reader hands out of them. */
  function HandedOut(parts: seq<Part>): seq<Message> {
    if parts == [] then [] else Handed(parts[0].m) + HandedOut(parts[1..])
  }

  function Handed(m: Message): seq<Message> {
    if Internal(m.typeID) then [] else [m.(format := 0)]
  }

  lemma EmitsMessage(cs: ChunkState, m: Message, off: nat)
    requires Midway(cs, m, off)
    ensures (cs.complete ==> cs.length <= |cs.data|) && Emits(cs) == if off == |m.data| then Handed(m) else []
  {
    if off == |m.data| { assert cs.data[..cs.length] == m.data; }
  }

  /** The chunks after the first complete the message. */
  lemma {:induction false} SoloSplit(cs: ChunkState, m: Message, off: nat, chunks: seq<Chunk>, tail: seq<Chunk>)
      returns (cs': ChunkState)
    requires Fits(cs) && Midway(cs, m, off) && cs.timeDelta != EXTENDED && IsSplit(m, off, chunks)
    requires (chunks != [] ==> m.timestamp < EXTENDED) && |m.data| <= MAX_LENGTH
    ensures Fits(cs') && Midway(cs', m, |m.data|) && cs'.timeDelta == cs.timeDelta
    ensures Shaped(cs', tail) ==>
              Shaped(cs, chunks + tail)
              && Solo(cs, chunks + tail) == ((if chunks == [] then [] else Handed(m)) + Solo(cs', tail).0,
                 Solo(cs', tail).1)
    decreases |chunks|
  {
    hide Apply, WellShaped, Piece, Midway;
    if chunks == [] {
      cs' := cs;
      assert off == |m.data| && [] + tail == tail;
      if Shaped(cs', tail) { assert [] + Solo(cs', tail).0 == Solo(cs', tail).0; }
    } else {
      var n := |chunks[0].payload|;
      ContinuesMessage(cs, m, off, n);
      var next := Apply(cs, chunks[0]);
      cs' := SoloSplit(next, m, off + n, chunks[1..], tail);
      EmitsMessage(next, m, off + n);
      assert (chunks + tail)[0] == chunks[0] && (chunks + tail)[1..] == chunks[1..] + tail;
      assert (chunks[1..] == []) <==> (off + n == |m.data|);
      if Shaped(cs', tail) {
        var last := Solo(cs', tail).0;
        assert [] + last == last && [] + (Handed(m) + last) == Handed(m) + last;
      }
    }
  }

  /** One message that was cut up, in front of anything else. */
  lemma SoloPart(cs: ChunkState, p: Part, tail: seq<Chunk>) returns (cs': ChunkState)
    requires Fits(cs) && Quiet(cs) && GoodPart(p) && p.m.csid == cs.csid
    ensures Fits(cs') && Quiet(cs') && cs'.csid == cs.csid
    ensures Shaped(cs', tail) ==>
              Shaped(cs, p.chunks + tail)
              && Solo(cs, p.chunks + tail) == (Handed(p.m) + Solo(cs', tail).0, Solo(cs', tail).1)
  {
    hide Apply, WellShaped, Piece, Outstanding;
    var m, chunks := p.m, p.chunks;
    var n := |chunks[0].payload|;
    OpensMessage(cs, m, n);
    assert Seen(m) == m;
    var first := Apply(cs, chunks[0]);
    cs' := SoloSplit(first, m, n, chunks[1..], tail);
    EmitsMessage(first, m, n);
    assert (chunks + tail)[0] == chunks[0] && (chunks + tail)[1..] == chunks[1..] + tail;
    if Shaped(cs', tail) {
      var last := Solo(cs', tail).0;
      assert [] + last == last && [] + (Handed(m) + last) == Handed(m) + last;
    }
  }

  /** A stream alone hands out the messages that were cut up for it. */
  lemma {:induction false} SoloReassembles(cs: ChunkState, parts: seq<Part>)
    requires Fits(cs) && Quiet(cs) && forall p | p in parts :: GoodPart(p) && p.m.csid == cs.csid
    ensures Shaped(cs, Flatten(parts)) && Solo(cs, Flatten(parts)).0 == HandedOut(parts)
    ensures Quiet(Solo(cs, Flatten(parts)).1)
    decreases |parts|
  {
    if parts != [] {
      hide Shaped, Solo, Fits, Quiet, GoodPart;
      assert parts[0] in parts;
      var cs' := SoloPart(cs, parts[0], Flatten(parts[1..]));
      SoloReassembles(cs', parts[1..]);
    }
  }

  /**
   * However the chunks of several streams are interleaved on the wire, and whatever the chunk size does meanwhile,
   * the messages Read hands out on a stream are the ones cut up for that stream, in order.
   */
  lemma Interleaved(c: Conn, chunks: seq<Chunk>, csid: U32, parts: seq<Part>)
    requires Healthy(c) && Fitting(c, chunks) && Quiet(Lookup(c, csid))
    requires Select(chunks, csid) == Flatten(parts) && forall p | p in parts :: GoodPart(p) && p.m.csid == csid
    ensures OfStream(Drain(c, EncodeChunks(chunks)).msgs, csid) == HandedOut(parts)
    ensures Quiet(Lookup(Run(c, chunks).conn, csid))
  {
    hide EncodeChunks, Shaped, Fitting, Take;
    Projection(c, chunks, csid);
    SoloReassembles(Lookup(c, csid), parts);
    DrainRuns(c, chunks, []);
    assert EncodeChunks(chunks) + [] == EncodeChunks(chunks);
    var r := Run(c, chunks);
    assert Drain(r.conn, []).msgs == [] && r.msgs + [] == r.msgs;
  }

  /** The chunks writeChunk produces are such a cut, at any chunk size. */
  lemma SplitIsPart(m: Message, size: U32)
    requires size >= 1 && Carriable(m) && m.data != [] && TimestampFits(m, size)
    ensures GoodPart(Part(m, Split(m, size, 0)))
  {
    SplitIsSplit(m, size, 0);
    if |m.data| <= size { assert Split(m, size, |m.data|) == []; }
  }
}
