/** The RtmpConn class: it demultiplexes the chunks of the peer and writes messages and acknowledgements. */
module RtmpConns {
  import opened Bytes
  import opened ReadWriters
  import opened ChunkStreams
  import C = Chunks
  import N = Connection

  class RtmpConn {
    var chunkSize: U32
    var remoteChunkSize: U32
    var windowAckSize: U32
    var remoteWindowAckSize: U32
    var received: U32
    var ackReceived: U32
    const rw: ReadWriter
    var chunks: map<U32, ChunkStream>

    ghost var owned: set<object>               // the chunk streams and their buffers
    ghost var streams: map<U32, C.ChunkState>  // the states of the chunk streams

    ghost function Repr(): set<object>
      reads this`owned
    {
      owned + {this, rw}
    }

    static ghost predicate Holds(cs: ChunkStream, csid: U32, state: C.ChunkState, owned: set<object>)
      reads cs, cs.data
    {
      cs in owned && cs.data in owned && cs.csid == csid && cs.State() == state && C.Fits(state)
    }

    ghost predicate StreamsValid()
      reads this`chunks, this`owned, this`streams, owned
    {
      && this !in owned && rw !in owned && streams.Keys == chunks.Keys
      && (forall k | k in chunks :: chunks[k] in owned && chunks[k].data in owned)
      && (forall k | k in chunks :: Holds(chunks[k], k, streams[k], owned))
      && (forall k, l | k in chunks && l in chunks && k != l :: chunks[k].data != chunks[l].data)
    }

    ghost predicate Valid()
      reads this, owned
      ensures Valid() ==> N.Healthy(State())
    {
      chunkSize >= 1 && StreamsValid()
    }

    ghost function State(): N.Conn
      reads this
    {
      N.Conn(chunkSize, remoteChunkSize, remoteWindowAckSize, received, ackReceived, streams)
    }

    constructor (rw: ReadWriter)
      ensures Valid() && this.rw == rw && fresh(Repr() - {rw})
      ensures State() == N.Conn(128, 128, 2500000, 0, 0, map[])
    {
      chunkSize, remoteChunkSize := 128, 128;
      windowAckSize, remoteWindowAckSize := 2500000, 2500000;
      received, ackReceived := 0, 0;
      this.rw, chunks := rw, map[];
      owned, streams := {}, map[];
    }

    /** The basic header. */
    method ReadBasicHeader() returns (ok: bool, fmt: nat, csid: U32)
      modifies rw`input, rw`readError
      ensures old(rw.readError) ==> rw.readError
      ensures ok && !rw.readError ==> N.ParseOk(old(rw.input), fmt, csid, rw.input)
      ensures !ok && !old(rw.readError) ==> C.ParseBasic(old(rw.input)).None?
      ensures ok && !old(rw.readError) ==> !rw.readError
      ensures fmt < 4
    {
      fmt, csid := 0, 0;
      ghost var input := rw.input;
      var rb;
      ok, rb := rw.ReadByte();
      if !ok { return; }
      fmt, csid := rb / 64, rb % 64;
      if csid == 0 {
        ok, rb := rw.ReadByte();
        if !ok { return; }
        csid := rb as int + 64;
        assert rw.input == input[2..];
      } else if csid == 1 {
        ok, csid := rw.ReadUintLE(2);
        if !ok { return; }
        FixedLE(input[1..]);
        csid := csid + 64;
        assert rw.input == input[3..];
      } else {
        assert rw.input == input[1..];
      }
    }

    /** The stream a chunk belongs to, made on first use. */
    method Find(csid: U32)
      requires Valid()
      modifies this`chunks, this`owned, this`streams
      ensures Valid() && csid in chunks && fresh(owned - old(owned))
      ensures streams[csid] == N.Lookup(old(State()), csid)
      ensures streams == old(streams)[csid := streams[csid]]
    {
      hide ChunkStream.State;
      if csid !in chunks {
        var cs := new ChunkStream(csid);
        chunks, streams := chunks[csid := cs], streams[csid := cs.State()];
        owned := owned + {cs, cs.data};
      }
    }

    /** handleControlMsg; ok is false where Go panics. */
    method HandleControlMsg(cs: ChunkStream) returns (ok: bool, handled: bool)
      modifies this`remoteChunkSize, this`remoteWindowAckSize
      ensures handled == N.IsControl(cs.typeID)
      ensures match N.HandleControl(old(State()), old(cs.State()))
              case Some(c) => ok && State() == c
              case None => !ok && State() == old(State())
    {
      ok, handled := true, 1 <= cs.typeID <= 6;
      if cs.typeID == 1 || cs.typeID == 5 {
        if cs.data.Length < 4 { return false, handled; }
        var v := U32BE(cs.data[..]);
        if cs.typeID == 1 {
          remoteChunkSize := v;
        } else {
          remoteWindowAckSize := v;
        }
      }
    }

    method Ack(size: U32)
      requires chunkSize >= 1
      modifies this`received, this`ackReceived, rw`output
      ensures var (c, ack) := N.Acknowledge(old(State()), size);
              State() == c && rw.output == old(rw.output) + N.AckWire(chunkSize, N.Optional(ack))
    {
      hide N.AckWire, C.Wire;
      N.AckWireShort(chunkSize, Add32(ackReceived, size));
      received := Add32(received, size);
      ackReceived := Add32(ackReceived, size);
      if received >= 0xf0000000 {
        received := 0;
      }
      if ackReceived >= remoteWindowAckSize {
        SendAck(ackReceived);
        ackReceived := 0;
      }
    }

    method SendAck(v: U32)
      requires chunkSize >= 1
      modifies rw`output
      ensures rw.output == old(rw.output) + N.AckWire(chunkSize, [v])
    {
      hide N.AckWire, C.Wire, BE;
      N.AckWireShort(chunkSize, v);
      var cs := new ChunkStream.OfMessage(N.AckMessage(v));
      var _ := cs.WriteChunk(rw, chunkSize);
    }

    /** ok is false, too, where Go panics: no four bytes to read a chunk size from, or a division by the size 0. */
    method Write(c: ChunkStream) returns (ok: bool)
      requires Valid() && c !in Repr() && c.length == c.data.Length
      modifies this`chunkSize, rw`output, c`csid, c`format
      ensures Valid() && ok == N.Writable(old(c.Content()))
      ensures ok ==> State() == old(State()).(chunkSize := N.SizeAfter(old(chunkSize), old(c.Content())))
                     && rw.output == old(rw.output) + C.Wire(old(c.Content()), chunkSize)
    {
      hide C.Wire;
      if c.typeID == C.ID_SET_CHUNK_SIZE {
        if c.data.Length < 4 || U32BE(c.data[..]) == 0 { return false; }
        chunkSize := U32BE(c.data[..]);
      }
      ok := c.WriteChunk(rw, chunkSize);
    }

    /** readChunk on a stream of this connection. */
    method ReadInto(csid: U32, fmt: nat) returns (ok: bool)
      requires Valid() && csid in chunks && fmt < 4
      modifies Repr()
      ensures Valid() && fresh(owned - old(owned)) && chunks == old(chunks)
      ensures streams == old(streams)[csid := streams[csid]] && State() == old(State()).(chunks := streams)
      ensures var r := C.ReadChunk(old(streams[csid]), fmt, remoteChunkSize, old(rw.input));
              && ok == (!old(rw.readError) && r.Some?)
              && (ok ==> r == Some((streams[csid], rw.input)) && !rw.readError && rw.output == old(rw.output))
    {
      hide C.ReadChunk, C.Fits, ChunkStream.State;
      var cs := chunks[csid];
      ok := cs.ReadChunk(rw, fmt, remoteChunkSize);
      forall k | k in chunks && k != csid
        ensures Holds(chunks[k], k, streams[k], owned) && chunks[k].data != cs.data
      {
        assert chunks[k].data == old(chunks[k].data);
      }
      hide StreamsValid;
      Track(csid);
    }

    /** Brings the ghost state up to date with a stream that has been read into. */
    ghost method Track(csid: U32)
      requires csid in chunks && streams.Keys == chunks.Keys && this !in owned && rw !in owned
      requires chunks[csid] in owned && chunks[csid].csid == csid && C.Fits(chunks[csid].State())
      requires forall k | k in chunks && k != csid ::
                 Holds(chunks[k], k, streams[k], owned) && chunks[k].data != chunks[csid].data
      requires forall k, l | k in chunks && l in chunks && k != l && k != csid && l != csid ::
                 chunks[k].data != chunks[l].data
      modifies this`owned, this`streams
      ensures StreamsValid() && owned == old(owned) + {chunks[csid].data}
      ensures streams == old(streams)[csid := chunks[csid].State()]
    {
      hide C.Fits, ChunkStream.State;
      streams, owned := streams[csid := chunks[csid].State()], owned + {chunks[csid].data};
    }

    /** What follows readChunk: hand out a completed message, or act on it, and count it. */
    method Finish(cs: ChunkStream) returns (ok: bool, msg: Option<C.Message>)
      requires Valid() && cs in owned
      modifies this`remoteChunkSize, this`remoteWindowAckSize, this`received, this`ackReceived, rw`output
      ensures Valid()
      ensures match N.Deliver(old(State()), old(cs.State()))
              case Fault => !ok
              case Done(c, m, ack) =>
                ok && State() == c && msg == m && rw.output == old(rw.output) + N.AckWire(chunkSize, N.Optional(ack))
    {
      hide N.AckWire, N.Acknowledge, N.HandleControl;
      N.AckWireNone(chunkSize);
      ok, msg := true, None;
      if !cs.complete { return; }
      if cs.length > cs.data.Length { return false, None; }
      var c := C.Message(cs.format, cs.csid, cs.timestamp, cs.typeID, cs.streamID, cs.data[..cs.length]);
      var handled;
      ok, handled := HandleControlMsg(cs);
      if !ok { return; }
      Ack(cs.length);
      if !handled {
        msg := Some(c);
      }
    }

    /** The turn after the basic header. */
    method TakeChunk(csid: U32, fmt: nat) returns (ok: bool, msg: Option<C.Message>)
      requires Valid() && csid in chunks && fmt < 4
      modifies Repr()
      ensures Valid() && fresh(owned - old(owned))
      ensures var r := N.StepOn(old(State()), csid, fmt, old(rw.input));
              && ok == (!old(rw.readError) && r.Next?)
              && (ok ==> N.Took(r, State(), msg, rw.input) && !rw.readError && chunkSize == old(chunkSize)
                         && rw.output == old(rw.output) + N.AckWire(chunkSize, N.Optional(r.ack)))
    {
      hide C.ReadChunk, C.Fits, N.Deliver, N.AckWire, N.StepOn, N.Lookup, StreamsValid, Holds, ChunkStream.State;
      TurnIs(State(), csid, fmt, rw.input);
      msg := None;
      KnowsItsStreams(csid);
      ok := ReadInto(csid, fmt);
      if !ok { return; }
      assert State() == N.Store(old(State()), streams[csid]);
      KnowsItsStreams(csid);
      ok, msg := Finish(chunks[csid]);
    }

    lemma KnowsItsStreams(csid: U32)
      requires Valid() && csid in chunks
      ensures csid in streams && chunks[csid] in owned && chunks[csid].State() == streams[csid]
      ensures N.Lookup(State(), csid) == streams[csid]
    {
    }

    /** The turn as what readChunk leaves behind, and then what is done with it. */
    static lemma TurnIs(c: N.Conn, csid: U32, fmt: nat, input: seq<Byte>)
      requires N.Healthy(c) && fmt < 4
      ensures var p := C.ReadChunk(N.Lookup(c, csid), fmt, c.remoteChunkSize, input);
              var r := N.StepOn(c, csid, fmt, input);
              if p.None? then r == N.Stop
              else match N.Deliver(N.Store(c, p.value.0), p.value.0)
                   case Fault => r == N.Stop
                   case Done(c', msg, ack) => r == N.Next(c', msg, ack, p.value.1)
    {
      hide C.ReadChunk, N.Deliver;
    }

    /** One turn of the loop in Read: one chunk. */
    method ReadTurn() returns (ok: bool, msg: Option<C.Message>)
      requires Valid()
      modifies Repr()
      ensures Valid() && fresh(owned - old(owned))
      ensures var r := N.Step(old(State()), old(rw.input));
              && ok == (!old(rw.readError) && r.Next?)
              && (ok ==> N.Took(r, State(), msg, rw.input) && !rw.readError && chunkSize == old(chunkSize)
                         && rw.output == old(rw.output) + N.AckWire(chunkSize, N.Optional(r.ack)))
    {
      hide C.ParseBasic, N.StepOn, N.AckWire, C.Fits;
      msg := None;
      var fmt, csid;
      ok, fmt, csid := ReadBasicHeader();
      if !ok { return; }
      ghost var c, rest := old(State()), rw.input;
      Find(csid);
      FindIsHarmless(c, csid, fmt, rest);
      ok, msg := TakeChunk(csid, fmt);
    }

    /** Making the stream early changes nothing. */
    static lemma FindIsHarmless(c: N.Conn, csid: U32, fmt: nat, rest: seq<Byte>)
      requires N.Healthy(c) && fmt < 4
      ensures N.Healthy(N.Store(c, N.Lookup(c, csid)))
      ensures N.StepOn(N.Store(c, N.Lookup(c, csid)), csid, fmt, rest) == N.StepOn(c, csid, fmt, rest)
    {
      var c1 := N.Store(c, N.Lookup(c, csid));
      assert forall cs: C.ChunkState | cs.csid == csid :: N.Store(c1, cs) == N.Store(c, cs);
    }

    /** What Read still has to do, when it has already sent some acknowledgements. */
    ghost function Outlook(acks: seq<U32>): N.ReadResult
      requires N.Healthy(State())
      reads this, rw
    {
      N.AfterAcks(acks, N.Read(State(), rw.input))
    }

    /** A turn brings Read closer to its result. */
    method ReadOn(ghost acks: seq<U32>) returns (ok: bool, msg: Option<C.Message>, ghost acks': seq<U32>)
      requires Valid()
      modifies Repr()
      ensures Valid() && fresh(owned - old(owned))
      ensures !ok ==> old(rw.readError) || old(Outlook(acks)).Failed?
      ensures ok ==> !old(rw.readError) && !rw.readError && chunkSize == old(chunkSize) && |rw.input| < |old(rw.input)|
      ensures ok ==> exists more :: acks' == acks + more && rw.output == old(rw.output) + N.AckWire(chunkSize, more)
      ensures ok && msg.Some? ==> old(Outlook(acks)) == N.Got(State(), msg.value, acks', rw.input)
      ensures ok && msg.None? ==> old(Outlook(acks)) == Outlook(acks')
    {
      hide N.Step, N.AckWire, C.Fits;
      ghost var step, c, input := N.Step(State(), rw.input), State(), rw.input;
      acks' := acks;
      ok, msg := ReadTurn();
      if !ok { return; }
      acks' := acks + N.Optional(step.ack);
      if msg.None? {
        N.AfterAfter(acks, N.Optional(step.ack), N.Read(State(), rw.input));
      }
    }

    /** Chunks are read until one completes a message that is not a control message. */
    method Read() returns (ok: bool, msg: C.Message)
      requires Valid()
      modifies Repr()
      ensures Valid() && fresh(owned - old(owned))
      ensures match N.Read(old(State()), old(rw.input))
              case Failed => !ok
              case Got(c, m, acks, rest) =>
                if old(rw.readError) then !ok
                else ok && State() == c && msg == m && rw.input == rest
                     && rw.output == old(rw.output) + N.AckWire(chunkSize, acks)
    {
      hide N.Read, N.AckWire;
      msg := C.Message(0, 0, 0, 0, 0, []);
      ghost var acks: seq<U32>, all := [], N.Read(State(), rw.input);
      N.AckWireNone(chunkSize);
      N.AfterAfter([], [], all);
      while true
        invariant Valid() && fresh(owned - old(owned)) && chunkSize == old(chunkSize)
        invariant rw.readError == old(rw.readError)
        invariant all == Outlook(acks)
        invariant rw.output == old(rw.output) + N.AckWire(chunkSize, acks)
        decreases |rw.input|
      {
        var m;
        ghost var acks', before := acks, rw.output;
        ok, m, acks' := ReadOn(acks);
        if !ok { return; }
        ghost var more :| acks' == acks + more && rw.output == before + N.AckWire(chunkSize, more);
        N.AckWireAppend(chunkSize, acks, more);
        acks := acks';
        if m.Some? { return true, m.value; }
      }
    }
  }
}
