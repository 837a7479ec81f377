/** The ChunkStream class: one chunk stream's partial message, read and written in place. */
module ChunkStreams {
  import opened Bytes
  import opened ReadWriters
  import C = Chunks
  import L = OlderChunks

  class ChunkStream {
    var format: U32
    var csid: U32
    var timestamp: U32
    var length: U32
    var typeID: U32
    var streamID: U32
    var data: array<Byte>
    var pts: U32
    var timeDelta: U32
    var exted: bool
    var index: U32
    var remain: U32
    var complete: bool

    /** The stream Read makes for a csid it has not seen. */
    constructor (csid: U32)
      ensures State() == C.NewChunkState(csid) && fresh(data)
    {
      format, this.csid, timestamp, length, typeID, streamID := 0, csid, 0, 0, 0, 0;
      data := new Byte[0];
      pts, timeDelta, exted, index, remain, complete := 0, 0, false, 0, 0, false;
    }

    /** A message to be written. */
    constructor OfMessage(m: C.Message)
      requires |m.data| <= C.MAX_LENGTH
      ensures Content() == m && length == |m.data| && fresh(data)
    {
      format, csid, timestamp, typeID, streamID := m.format, m.csid, m.timestamp, m.typeID, m.streamID;
      length := |m.data|;
      data := new Byte[|m.data|](i requires 0 <= i < |m.data| => m.data[i]);
      pts, timeDelta, exted, index, remain, complete := 0, 0, false, 0, 0, false;
      new;
      assert data[..] == m.data;
    }

    ghost function State(): (s: C.ChunkState)
      reads this, data
      ensures s.csid == csid
    {
      C.ChunkState(format, csid, timestamp, length, typeID, streamID, data[..],
                   pts, timeDelta, exted, index, remain, complete)
    }

    /** The message a stream about to be written holds. */
    ghost function Content(): C.Message
      reads this, data
    {
      C.Message(format, csid, timestamp, typeID, streamID, data[..])
    }

    method Alloc()
      modifies this
      ensures State() == C.Alloc(old(State())) && csid == old(csid)
      ensures old(length) <= C.MAX_LENGTH ==> C.Fits(State())
      ensures data == old(data) || fresh(data)
    {
      complete, index, remain := false, 0, length;
      if data.Length < length {
        data := new Byte[length](_ => 0);
      }
    }

    method WriteBasicHeader(w: ReadWriter)
      requires format < 4
      modifies w`output
      ensures w.output == old(w.output) + C.EncodeBasic(format, csid)
    {
      var h := format * 64;
      if csid < 64 {
        w.WriteUintBE(h + csid, 1);
        assert BE(h + csid, 1) == [h + csid];
      } else if csid - 64 < 256 {
        w.WriteUintBE(h, 1);
        assert BE(h, 1) == [h];
        w.WriteUintLE(csid - 64, 1);
      } else if csid - 64 < 65536 {
        w.WriteUintBE(h + 1, 1);
        assert BE(h + 1, 1) == [h + 1];
        w.WriteUintLE(csid - 64, 2);
      }
    }

    /** The message header; ts is the time field it carries. */
    method WriteMessageHeader(w: ReadWriter) returns (ok: bool, ts: U32)
      requires format < 4
      modifies w`output
      ensures ok == (format >= 2 || length <= C.MAX_LENGTH)
      ensures ok ==> w.output == old(w.output) + C.MessageHeader(Content(), format, length)
      ensures ts >= 0xFFFFFF <==> timestamp >= 0xFFFFFF
    {
      hide BE, LE;
      ok, ts := true, timestamp;
      if format == 3 { return; }
      if timestamp > 0xFFFFFF {
        ts := 0xFFFFFF;
      }
      w.WriteUintBE(ts, 3);
      if format == 2 { return; }
      if length > 0xFFFFFF { return false, ts; }
      w.WriteUintBE(length, 3);
      w.WriteUintBE(typeID, 1);
      if format == 1 { return; }
      w.WriteUintLE(streamID, 4);
    }

    method WriteHeader(w: ReadWriter) returns (ok: bool)
      requires format < 4
      modifies w`output
      ensures ok == (format >= 2 || length <= C.MAX_LENGTH)
      ensures ok ==> w.output == old(w.output) + C.EncodeBasic(format, csid) +
                                 C.MessageHeader(Content(), format, length) + C.Extension(Content())
    {
      WriteBasicHeader(w);
      var ts;
      ok, ts := WriteMessageHeader(w);
      if !ok { return; }
      if ts >= 0xFFFFFF {
        w.WriteUintBE(timestamp, 4);
      }
    }

    /** What is still to be written of m from byte off on, if it can be written at all. */
    static ghost function Remaining(m: C.Message, size: U32, off: nat): seq<Byte>
      requires size >= 1 && off <= |m.data|
    {
      if |m.data| <= C.MAX_LENGTH then C.EncodeChunks(C.Split(m, size, off)) else []
    }

    /** One chunk: the header, then the bytes from start on. */
    method WritePiece(w: ReadWriter, start: nat, chunkSize: U32, ghost m: C.Message) returns (ok: bool, inc: nat)
      requires chunkSize >= 1 && length == data.Length && start < length
      requires Content().(format := m.format) == m && format == if start == 0 then 0 else 3
      modifies w`output
      ensures inc == Min(length - start, chunkSize)
      ensures ok == (start > 0 || length <= C.MAX_LENGTH)
      ensures length <= C.MAX_LENGTH ==>
                w.output + Remaining(m, chunkSize, start + inc) == old(w.output) + Remaining(m, chunkSize, start)
    {
      hide C.Split, C.MessageHeader, C.EncodeBasic, BE;
      inc := if length - start <= chunkSize then length - start else chunkSize;
      ok := WriteHeader(w);
      if !ok { return; }
      w.Write(data[start..start + inc]);
      if length <= C.MAX_LENGTH {
        PieceBytes(m, Content(), start, inc, old(w.output));
        SplitStep(m, chunkSize, start, old(w.output));
      }
    }

    static lemma RemainingEnds(m: C.Message, size: U32)
      requires size >= 1
      ensures Remaining(m, size, |m.data|) == []
    {}

    method WriteChunk(w: ReadWriter, chunkSize: U32) returns (ok: bool)
      requires chunkSize >= 1 && length == data.Length
      modifies w`output, this`csid, this`format
      ensures ok == (length <= C.MAX_LENGTH)
      ensures ok ==> w.output == old(w.output) + C.Wire(old(Content()), chunkSize)
    {
      hide C.Split, C.EncodeChunks, Start, Count;
      NextStart(0, chunkSize);
      Route();
      ghost var m := Content();
      var totalLen: nat := 0;
      var numChunks := Count(length, chunkSize);
      var i := 0;
      while i <= numChunks
        invariant i <= numChunks + 1 && totalLen == Min(Start(i, chunkSize), length)
        invariant Content().(format := m.format) == m
        invariant i > 0 && length > 0 ==> length <= C.MAX_LENGTH
        invariant length <= C.MAX_LENGTH ==>
                    w.output + Remaining(m, chunkSize, totalLen) == old(w.output) + Remaining(m, chunkSize, 0)
      {
        if totalLen == length { break; }
        format := if i == 0 then 0 else 3;
        var start := Start(i, chunkSize);
        NextStart(i, chunkSize);
        var inc;
        ok, inc := WritePiece(w, start, chunkSize, m);
        if !ok { return; }
        totalLen := totalLen + inc;
        i := i + 1;
      }
      AllCovered(i, chunkSize, length);
      RemainingEnds(m, chunkSize);
      ok := true;
    }

    /** Where chunk i starts. */
    static function Start(i: nat, size: U32): nat { i * size }

    static lemma NextStart(i: nat, size: U32)
      requires size >= 1
      ensures Start(0, size) == 0 && Start(i + 1, size) == Start(i, size) + size
      ensures i > 0 ==> Start(i, size) > 0
    {
      if i > 0 {
        assert i * size == (i - 1) * size + size && (i - 1) * size >= 0;
      }
    }

    static function Count(length: U32, size: U32): nat
      requires size >= 1
    {
      length / size
    }

    static lemma AllCovered(i: nat, size: U32, length: U32)
      requires size >= 1
      ensures i == Count(length, size) + 1 ==> Start(i, size) > length
    {
      var q := length / size;
      assert length < q * size + size;
      NextStart(q, size);
    }

    method Route()
      modifies this`csid
      ensures Content() == C.Routed(old(Content()))
    {
      if typeID == C.TAG_AUDIO {
        csid := 4;
      } else if typeID == C.TAG_VIDEO || typeID == C.TAG_SCRIPT_AMF0 || typeID == C.TAG_SCRIPT_AMF3 {
        csid := 6;
      }
    }

    /** One turn of the loop writes the next chunk of the split. */
    static lemma SplitStep(m: C.Message, size: U32, off: nat, before: seq<Byte>)
      requires size >= 1 && off < |m.data| <= C.MAX_LENGTH
      ensures var n := Min(size, |m.data| - off);
              before + C.EncodeChunk(C.Piece(m, off, n)) + C.EncodeChunks(C.Split(m, size, off + n)) ==
              before + C.EncodeChunks(C.Split(m, size, off))
    {
      var n := Min(size, |m.data| - off);
      var c, tail := C.Piece(m, off, n), C.Split(m, size, off + n);
      EncodeCons(c, tail);
      Regroup(before, C.EncodeChunk(c), C.EncodeChunks(tail));
    }

    static lemma EncodeCons(c: C.Chunk, tail: seq<C.Chunk>)
      requires c.fmt < 4 && forall d | d in tail :: d.fmt < 4
      ensures C.EncodeChunks([c] + tail) == C.EncodeChunk(c) + C.EncodeChunks(tail)
    {
      assert ([c] + tail)[1..] == tail;
    }

    static lemma PieceBytes(m: C.Message, sent: C.Message, off: nat, n: nat, before: seq<Byte>)
      requires off + n <= |m.data| <= C.MAX_LENGTH
      requires sent.(format := m.format) == m && sent.format == if off == 0 then 0 else 3
      ensures before + C.EncodeBasic(sent.format, sent.csid) + C.MessageHeader(sent, sent.format, |m.data|)
              + C.Extension(sent) + m.data[off..off + n] == before + C.EncodeChunk(C.Piece(m, off, n))
    {
      assert C.MessageHeader(sent, sent.format, |m.data|) == C.MessageHeader(m, sent.format, |m.data|);
    }

    /** The message header, into the first bytes of h. */
    method ReadHeader(r: ReadWriter, fmt: nat, h: array<Byte>) returns (ok: bool, timeExtend: bool)
      requires fmt < 4 && h.Length == 11 && h != data
      modifies this, h, r`input, r`readError
      ensures data == old(data)
      ensures ok == (fmt == 3 || (!old(r.readError) && C.HeaderLen(fmt) <= |old(r.input)|))
      ensures ok ==> State() == C.WithHeader(old(State()), fmt, old(r.input)[..C.HeaderLen(fmt)])
      ensures ok ==> r.input == old(r.input)[C.HeaderLen(fmt)..] && timeExtend == C.Extended(State(), fmt)
      ensures r.readError == (old(r.readError) || !ok)
      ensures !ok ==> State() == old(State())
    {
      hide U24BE, U32LE;
      timeExtend := false;
      var n := C.HeaderLen(fmt);
      if fmt != 3 {
        ok := r.ReadInto(h, 0, n);
        if !ok { return; }
      }
      var b := h[..n];
      assert fmt != 3 ==> b == old(r.input)[..n];
      if fmt == 0 {
        format, timestamp, length, typeID, streamID := 0, U24BE(b), U24BE(b[3..]), b[6], U32LE(b[7..]);
        timeExtend := timestamp == 0xFFFFFF;
      } else if fmt == 1 {
        format, timeDelta, length, typeID := 1, U24BE(b), U24BE(b[3..]), b[6];
        timeExtend := timeDelta == 0xFFFFFF;
      } else if fmt == 2 {
        format, timeDelta := 2, U24BE(b);
        timeExtend := timeDelta == 0xFFFFFF;
      } else {
        timeExtend := timeDelta == 0xFFFFFF;
      }
      ok := true;
    }

    /** A chunk that finds no message under way opens one. */
    method Open(fmt: nat, ext: seq<Byte>)
      requires fmt < 4 && C.Fits(State())
      requires |ext| == if C.Extended(State(), fmt) then 4 else 0
      modifies this
      ensures State() == C.Begin(old(State()), fmt, ext) && C.Fits(State()) && csid == old(csid)
      ensures data == old(data) || fresh(data)
    {
      if remain == 0 {
        Alloc();
        if fmt == 0 {
          pts := if ext != [] then U32BE(ext) else timestamp;
        } else {
          pts := Add32(pts, if ext != [] then U32BE(ext) else timeDelta);
        }
      }
    }

    /** What the chunk holds of the message, into the buffer. */
    method ReadPayload(r: ReadWriter, chunkSize: U32) returns (ok: bool)
      requires C.Fits(State())
      modifies this, data, r`input, r`readError
      ensures var n := Min(old(remain), chunkSize);
              && ok == (!old(r.readError) && n <= |old(r.input)|)
              && (ok ==> State() == C.Fill(old(State()), old(r.input)[..n]) && r.input == old(r.input)[n..])
      ensures C.Fits(State()) && csid == old(csid) && r.readError == !ok && data == old(data)
    {
      var size := if remain > chunkSize then chunkSize else remain;
      assert size == Min(remain, chunkSize);
      hide Min;
      ok := r.ReadInto(data, index, index + size);
      if !ok { return; }
      index, remain := index + size, remain - size;
      if remain == 0 {
        complete := true;
      }
    }

    method ReadChunk(r: ReadWriter, fmt: nat, chunkSize: U32) returns (ok: bool)
      requires fmt < 4 && C.Fits(State())
      modifies this, data, r`input, r`readError
      ensures ok == (!old(r.readError) && C.ReadChunk(old(State()), fmt, chunkSize, old(r.input)).Some?)
      ensures ok ==> C.ReadChunk(old(State()), fmt, chunkSize, old(r.input)) == Some((State(), r.input))
      ensures C.Fits(State()) && csid == old(csid) && r.readError == !ok
      ensures data == old(data) || fresh(data)
    {
      hide C.Begin, C.Fill, U32BE, U24BE;
      var h := new Byte[11];
      ghost var cs, input, n := State(), r.input, C.HeaderLen(fmt);
      var timeExtend;
      ok, timeExtend := ReadHeader(r, fmt, h);
      if !ok { return; }
      var ext := [];
      if timeExtend {
        ok := r.ReadInto(h, 0, 4);
        if !ok { return; }
        ext := h[..4];
      }
      assert ext == input[n..n + |ext|] && r.input == input[n + |ext|..];
      Open(fmt, ext);
      ok := ReadPayload(r, chunkSize);
      ReadChunkParts(cs, fmt, chunkSize, input, ext);
    }

    static lemma ReadChunkParts(cs: C.ChunkState, fmt: nat, size: U32, input: seq<Byte>, ext: seq<Byte>)
      requires fmt < 4 && C.Fits(cs) && C.HeaderLen(fmt) <= |input|
      requires var n := C.HeaderLen(fmt);
               var cs1 := C.WithHeader(cs, fmt, input[..n]);
               && |ext| == (if C.Extended(cs1, fmt) then 4 else 0) && n + |ext| <= |input|
               && ext == input[n..n + |ext|] && C.Fits(C.Begin(cs1, fmt, ext))
      ensures var n := C.HeaderLen(fmt) + |ext|;
              var cs2 := C.Begin(C.WithHeader(cs, fmt, input[..C.HeaderLen(fmt)]), fmt, ext);
              var k := Min(cs2.remain, size);
              C.ReadChunk(cs, fmt, size, input) ==
              if k <= |input[n..]| then Some((C.Fill(cs2, input[n..][..k]), input[n..][k..])) else None
    {
      var n := C.HeaderLen(fmt) + |ext|;
      var cs2 := C.Begin(C.WithHeader(cs, fmt, input[..C.HeaderLen(fmt)]), fmt, ext);
      var k := Min(cs2.remain, size);
      if k <= |input[n..]| {
        assert input[n..][..k] == input[n..n + k] && input[n..][k..] == input[n + k..];
      }
    }

    // ---------- the older reader ----------

    /** Reading on past the end of the input only leaves readError set; the values read are then 0. */
    static predicate Good(r: ReadWriter, input: seq<Byte>, n: nat)
      reads r
    {
      if n <= |input| then !r.readError && r.input == input[n..] else r.readError
    }

    method ReadLengthAndType(r: ReadWriter, ghost input: seq<Byte>)
      requires Good(r, input, 3)
      modifies `length, `typeID, r`input, r`readError
      ensures Good(r, input, 7) && length <= C.MAX_LENGTH
      ensures |input| >= 7 ==> length == U24BE(input[3..]) && typeID == input[6]
    {
      hide FromBE, U24BE;
      var _, l := r.ReadUintBE(3);
      var _, t := r.ReadUintBE(1);
      length, typeID := l, t;
      if |input| >= 6 { FixedBE(input[3..]); }
      if |input| >= 7 { FixedBE(input[6..]); }
    }

    /** The extension of a 24-bit time field, if it has one. */
    method ReadExtension(r: ReadWriter, field: U32, ghost input: seq<Byte>, ghost h: nat) returns (t: U32)
      requires Good(r, input, h) && h >= 3 && (|input| >= h ==> field == U24BE(input))
      modifies `exted, r`input, r`readError
      ensures match L.TimeField(input, h)
              case Some(x) => !r.readError && r.input == input[x.2..] && t == x.0 && exted == x.1
              case None => r.readError
    {
      if field == 0xffffff {
        var _, v := r.ReadUintBE(4);
        t, exted := v, true;
        if |input| >= h + 4 { FixedBE(input[h..]); }
      } else {
        t, exted := field, false;
      }
    }

    method ReadFull(r: ReadWriter)
      requires !r.readError
      modifies `timestamp, `length, `typeID, `streamID, `exted, r`input, r`readError
      ensures length <= C.MAX_LENGTH
      ensures match L.TimeField(old(r.input), 11)
              case Some(t) =>
                && !r.readError && r.input == old(r.input)[t.2..] && timestamp == t.0 && exted == t.1
                && length == U24BE(old(r.input)[3..]) && typeID == old(r.input)[6]
                && streamID == U32LE(old(r.input)[7..])
              case None => r.readError
    {
      hide U24BE, U32LE, FromBE, FromLE;
      ghost var input := r.input;
      var _, ts := r.ReadUintBE(3);
      ReadLengthAndType(r, input);
      var _, id := r.ReadUintLE(4);
      streamID := id;
      FixedBE(input);
      if |input| >= 11 { FixedLE(input[7..]); }
      timestamp := ReadExtension(r, ts, input, 11);
    }

    method ReadDelta(r: ReadWriter, fmt: nat)
      requires (fmt == 1 || fmt == 2) && !r.readError && length <= C.MAX_LENGTH
      modifies `timestamp, `timeDelta, `length, `typeID, `exted, r`input, r`readError
      ensures length <= C.MAX_LENGTH
      ensures fmt == 2 ==> length == old(length) && typeID == old(typeID)
      ensures match L.TimeField(old(r.input), C.HeaderLen(fmt))
              case Some(t) =>
                && !r.readError && r.input == old(r.input)[t.2..] && timeDelta == t.0 && exted == t.1
                && timestamp == Add32(old(timestamp), t.0)
                && (fmt == 1 ==> length == U24BE(old(r.input)[3..]) && typeID == old(r.input)[6])
              case None => r.readError
    {
      hide U24BE, FromBE, FromLE;
      ghost var input := r.input;
      var _, ts := r.ReadUintBE(3);
      if fmt == 1 {
        ReadLengthAndType(r, input);
      }
      FixedBE(input);
      var t := ReadExtension(r, ts, input, C.HeaderLen(fmt));
      timeDelta, timestamp := t, Add32(timestamp, t);
    }

    /** A type-3 chunk inside a message skips the timestamp the writer repeats, if it recognizes it. */
    method SkipRepeated(r: ReadWriter) returns (ok: bool)
      requires remain != 0 && C.Fits(State())
      modifies r`input
      ensures match L.Header1(old(State()), 3, old(r.input))
              case Some(p) => ok && State() == p.0 && r.input == old(r.input)[p.1..]
              case None => !ok
    {
      ok := true;
      if exted {
        var b;
        ok, b := r.Peek(4);
        if !ok { return; }
        if U32BE(b) == timestamp {
          r.Discard(4);
        }
      }
    }

    /** A type-3 chunk that opens a message repeats the last header of the stream. */
    method RepeatTime(r: ReadWriter)
      requires remain == 0 && C.Fits(State()) && !r.readError
      modifies this`timestamp, r`input, r`readError
      ensures match L.Header1(old(State()), 3, old(r.input))
              case Some(p) => !r.readError && C.Alloc(State()) == p.0 && r.input == old(r.input)[p.1..]
              case None => r.readError
    {
      hide U32BE, FromBE;
      if |r.input| >= 4 { FixedBE(r.input); }
      if format == 0 {
        if exted {
          var _, t := r.ReadUintBE(4);
          timestamp := t;
        }
      } else if format == 1 || format == 2 {
        var t := timeDelta;
        if exted {
          var _, e := r.ReadUintBE(4);
          t := e;
        }
        timestamp := Add32(timestamp, t);
      }
    }

    method ReadHeader1(r: ReadWriter, fmt: nat) returns (ok: bool)
      requires fmt < 4 && C.Fits(State()) && !r.readError
      modifies this, r`input, r`readError
      ensures C.Fits(State()) && csid == old(csid)
      ensures data == old(data) || fresh(data)
      ensures match L.Header1(old(State()), fmt, old(r.input))
              case Some(p) => ok && !r.readError && State() == p.0 && r.input == old(r.input)[p.1..]
              case None => !ok || r.readError
    {
      hide U24BE, U32BE, U32LE, C.Alloc;
      ok := true;
      if remain != 0 {
        if fmt != 3 { return false; }
        ok := SkipRepeated(r);
        return;
      }
      match fmt {
        case 0 =>
          format := 0;
          ReadFull(r);
        case 1 =>
          format := 1;
          ReadDelta(r, 1);
        case 2 =>
          format := 2;
          ReadDelta(r, 2);
        case _ =>
          RepeatTime(r);
      }
      Alloc();
    }

    method ReadChunk1(r: ReadWriter, fmt: nat, chunkSize: U32) returns (ok: bool)
      requires fmt < 4 && C.Fits(State()) && !r.readError
      modifies this, data, r`input, r`readError
      ensures ok == L.ReadChunk1(old(State()), fmt, chunkSize, old(r.input)).Some?
      ensures ok ==> L.ReadChunk1(old(State()), fmt, chunkSize, old(r.input)) == Some((State(), r.input))
      ensures C.Fits(State()) && csid == old(csid)
      ensures data == old(data) || fresh(data)
    {
      hide L.Header1, C.Fill;
      ghost var cs, input := State(), r.input;
      ok := ReadHeader1(r, fmt);
      if !ok { return; }
      ghost var rest := r.input;
      ok := ReadPayload(r, chunkSize);
      var p := L.Header1(cs, fmt, input);
      if p.Some? {
        var n := Min(p.value.0.remain, chunkSize);
        if n <= |rest| {
          assert rest[..n] == input[p.value.1..p.value.1 + n] && rest[n..] == input[p.value.1 + n..];
        }
      }
    }
  }
}
