/** The limit of 24-bit timestamps: exactly which ones the live reader can give back. */
module TimestampLimit {
  import opened Bytes
  import opened Chunks
  import opened Connection
  import opened Transfer

  /** Read returns the message as it was sent and leaves what follows it. */
  predicate GivesBack(c: Conn, m: Message, size: U32, rest: seq<Byte>)
    requires Healthy(c) && size >= 1 && |m.data| <= MAX_LENGTH
  {
    var r := Read(c, Wire(m, size) + rest);
    r.Got? && r.msg == Arrived(m) && r.rest == rest
  }

  /** Messages of this length and timestamp always get through at this chunk size. */
  ghost predicate Survives(m: Message, size: U32)
    requires size >= 1 && |m.data| <= MAX_LENGTH
  {
    forall c: Conn, d: seq<Byte>, rest: seq<Byte> | Idle(c) && c.remoteChunkSize == size && |d| == |m.data| ::
      GivesBack(c, m.(data := d), size, rest)
  }

  /** The timestamps the live reader can give back, exactly, at any chunk size. */
  lemma TimestampExact(m: Message, size: U32)
    requires size >= 1 && m.data != [] && Carriable(Arrived(m)) && !Internal(m.typeID)
    ensures Survives(m, size) <==> TimestampFits(m, size)
  {
    if TimestampFits(m, size) {
      forall c: Conn, d: seq<Byte>, rest: seq<Byte> | Idle(c) && c.remoteChunkSize == size && |d| == |m.data|
        ensures GivesBack(c, m.(data := d), size, rest)
      {
        var o := ReadsMessage(c, Routed(m.(data := d)), size, rest);
      }
    } else {
      var c := Conn(128, size, 2500000, 0, 0, map[]);
      var x := Missing([0] + BE(m.timestamp, 4) + EncodeBasic(3, CsidOf(m)), 256);
      var d := seq(|m.data|, _ => x);
      assert m.(data := d).data == d;
      if |m.data| <= size {
        LosesHighBits(c, m.(data := d), size);
      } else {
        Misreads(c, m.(data := d), size, x);
      }
      assert !GivesBack(c, m.(data := d), size, []);
    }
  }

  /** A single chunk arrives with the timestamp field of its header. */
  lemma LosesHighBits(c: Conn, m: Message, size: U32)
    requires Idle(c) && c.remoteChunkSize == size >= 1 && 0 < |m.data| <= size
    requires Carriable(Arrived(m)) && !Internal(m.typeID) && m.timestamp > EXTENDED
    ensures !GivesBack(c, m, size, [])
  {
    hide Apply, WellShaped, Outstanding, EncodeChunk, EncodeChunks, Split, Read, Drain, Piece;
    var r, n := Routed(m), |m.data|;
    OpensMessage(Lookup(c, r.csid), r, n);
    SplitBytes(r, size, 0, []);
    SplitEnds(r, size, []);
    SplitEnds(Seen(r), size, []);
    var o, cs := ReadsRest(c, Seen(r), size, n, Piece(r, 0, n), []);
    Delivers(Store(c, cs), cs, Seen(r));
    assert Wire(m, size) + [] == EncodeChunk(Piece(r, 0, n)) + (EncodeChunks(Split(Seen(r), size, n)) + []);
  }

  // ---------- a message of more than one chunk ----------

  lemma {:induction false} Missing(s: seq<Byte>, n: nat) returns (x: Byte)
    requires |s| < n <= 256
    ensures x < n && x !in s
  {
    x := n - 1;
    if x in s {
      var i :| 0 <= i < |s| && s[i] == x;
      var y := Missing(s[..i] + s[i + 1..], n - 1);
      assert s == s[..i] + [x] + s[i + 1..];
      x := y;
    }
  }

  /** How often x occurs. */
  function Count(x: Byte, s: seq<Byte>): nat { multiset(s)[x] }

  lemma CountJoin(x: Byte, a: seq<Byte>, b: seq<Byte>)
    ensures Count(x, a + b) == Count(x, a) + Count(x, b)
  {
  }

  lemma CountNone(x: Byte, s: seq<Byte>)
    requires x !in s
    ensures Count(x, s) == 0
  {
  }

  lemma CountCut(x: Byte, s: seq<Byte>, i: nat)
    requires i <= |s|
    ensures Count(x, s) == Count(x, s[..i]) + Count(x, s[i..])
  {
    assert s == s[..i] + s[i..];
  }

  predicate AllAre(x: Byte, s: seq<Byte>) {
    forall i | 0 <= i < |s| :: s[i] == x
  }

  lemma {:induction false} CountAll(x: Byte, s: seq<Byte>)
    requires AllAre(x, s)
    ensures Count(x, s) == |s|
  {
    if s != [] {
      CountAll(x, s[1..]);
      assert s == [x] + s[1..];
    }
  }

  /**
   * The stream can never hand out len bytes of x: not enough of them are left between its buffer and the input,
   * or all of them are needed but the byte at place s is another one and cannot be replaced without losing one.
   */
  predicate Short(cs: ChunkState, input: seq<Byte>, x: Byte, len: nat, s: nat) {
    var n := Count(x, cs.data) + Count(x, input);
    n < len
    || (n == len && 0 < s < |cs.data| && cs.data[0] == x && cs.data[s] != x
        && (cs.index == 0 || cs.index > s || cs.remain == 0))
  }

  lemma FillShort(cs: ChunkState, payload: seq<Byte>, rest: seq<Byte>, x: Byte, len: nat, s: nat)
    requires Fits(cs) && |payload| <= cs.remain && Short(cs, payload + rest, x, len, s)
    ensures Short(Fill(cs, payload), rest, x, len, s)
  {
    hide Count, Fill;
    CountJoin(x, payload, rest);
    FillCounts(cs, payload, x);
    if cs.index > s { FillsBehind(cs, payload, s); }
  }

  lemma FillCounts(cs: ChunkState, payload: seq<Byte>, x: Byte)
    requires Fits(cs) && |payload| <= cs.remain
    ensures var r := Fill(cs, payload);
      && |r.data| == |cs.data| && r.index == cs.index + |payload| && (payload == [] ==> r.data == cs.data)
      && Count(x, r.data) <= Count(x, cs.data) + Count(x, payload)
      && (payload != [] && cs.index == 0 && cs.data[0] == x ==>
            Count(x, r.data) < Count(x, cs.data) + Count(x, payload))
      && r.remain == cs.remain - |payload|
  {
    hide Count;
    Replaced(cs.data, cs.index, payload, x);
    var gone := cs.data[cs.index..cs.index + |payload|];
    if payload != [] && cs.index == 0 && cs.data[0] == x { CountSome(x, gone); }
  }

  lemma FillsBehind(cs: ChunkState, payload: seq<Byte>, s: nat)
    requires Fits(cs) && |payload| <= cs.remain && s < cs.index
    ensures Fill(cs, payload).data[0] == cs.data[0] && Fill(cs, payload).data[s] == cs.data[s]
  {
  }

  lemma CountSome(x: Byte, s: seq<Byte>)
    requires s != [] && s[0] == x
    ensures Count(x, s) >= 1
  {
    assert s == [x] + s[1..];
  }

  lemma Replaced(data: seq<Byte>, i: nat, payload: seq<Byte>, x: Byte)
    requires i + |payload| <= |data|
    ensures var gone := data[i..i + |payload|];
      Count(x, data[..i] + payload + data[i + |payload|..]) + Count(x, gone) == Count(x, data) + Count(x, payload)
  {
    var before, gone, after := data[..i], data[i..i + |payload|], data[i + |payload|..];
    assert data == before + gone + after;
    hide Count;
    CountJoin(x, before + gone, after);
    CountJoin(x, before, gone);
    CountJoin(x, before + payload, after);
    CountJoin(x, before, payload);
  }

  lemma BeginShort(cs: ChunkState, fmt: nat, ext: seq<Byte>, input: seq<Byte>, x: Byte, len: nat, s: nat)
    requires |ext| == (if Extended(cs, fmt) then 4 else 0) && x != 0 && Short(cs, input, x, len, s)
    ensures Short(Begin(cs, fmt, ext), input, x, len, s)
  {
    if cs.remain == 0 && |cs.data| < cs.length {
      assert Count(x, seq(cs.length, _ => 0 as Byte)) == 0;
      if cs.data != [] {
        CountCut(x, cs.data, 1);
        assert cs.data[..1] == [cs.data[0]];
      }
    }
  }

  lemma FewerLeft(cs: ChunkState, input: seq<Byte>, i: nat, x: Byte, len: nat, s: nat)
    requires i <= |input| && Short(cs, input, x, len, s)
    ensures Short(cs, input[i..], x, len, s)
  {
    CountCut(x, input, i);
  }

  /** One chunk, whatever it is taken for. */
  lemma ReadShort(cs: ChunkState, fmt: nat, size: U32, input: seq<Byte>, x: Byte, len: nat, s: nat)
    requires Fits(cs) && fmt < 4 && x != 0 && Short(cs, input, x, len, s)
    ensures match ReadChunk(cs, fmt, size, input)
            case None => true
            case Some(p) => Short(p.0, p.1, x, len, s)
  {
    if ReadChunk(cs, fmt, size, input).Some? {
      var cs1, ext, i, n := Parts(cs, fmt, size, input);
      hide Short, Begin, Fill, ReadChunk;
      KeepsShort(cs, cs1, input, x, len, s);
      FewerLeft(cs1, input, i, x, len, s);
      BeginShort(cs1, fmt, ext, input[i..], x, len, s);
      BodyIs(input, i, n);
      FillShort(Begin(cs1, fmt, ext), input[i..i + n], input[i + n..], x, len, s);
    }
  }

  /** The state behind the message header, the extended timestamp, and where the payload is. */
  lemma Parts(cs: ChunkState, fmt: nat, size: U32, input: seq<Byte>)
      returns (cs1: ChunkState, ext: seq<Byte>, i: nat, n: nat)
    requires Fits(cs) && fmt < 4 && ReadChunk(cs, fmt, size, input).Some?
    ensures cs1.data == cs.data && cs1.index == cs.index && cs1.remain == cs.remain
    ensures |ext| == (if Extended(cs1, fmt) then 4 else 0) && i + n <= |input|
    ensures var cs2 := Begin(cs1, fmt, ext);
      && Fits(cs2) && n <= cs2.remain
      && ReadChunk(cs, fmt, size, input) == Some((Fill(cs2, input[i..i + n]), input[i + n..]))
  {
    var h := HeaderLen(fmt);
    cs1 := WithHeader(cs, fmt, input[..h]);
    i := h + if Extended(cs1, fmt) then 4 else 0;
    ext := input[h..i];
    hide Fill;
    BeginFits(cs, fmt, input[..h], ext);
    n := Min(Begin(cs1, fmt, ext).remain, size);
  }

  lemma KeepsShort(cs: ChunkState, cs1: ChunkState, input: seq<Byte>, x: Byte, len: nat, s: nat)
    requires Short(cs, input, x, len, s) && cs1.data == cs.data && cs1.index == cs.index && cs1.remain == cs.remain
    ensures Short(cs1, input, x, len, s)
  {
  }

  lemma BodyIs(input: seq<Byte>, i: nat, n: nat)
    requires i + n <= |input|
    ensures input[i..] == input[i..i + n] + input[i + n..]
  {
  }

  function Copies(x: Byte, n: nat): seq<Byte> { seq(n, _ => x) }

  lemma NotWhole(cs: ChunkState, rest: seq<Byte>, length: nat, x: Byte, len: nat, s: nat)
    requires Short(cs, rest, x, len, s) && s < len && length <= |cs.data|
    ensures cs.data[..length] != Copies(x, len)
  {
    assert s < length ==> cs.data[s] == cs.data[..length][s];
    if cs.data[..length] == Copies(x, len) {
      CountCut(x, cs.data, length);
      CountAll(x, cs.data[..length]);
    }
  }

  /** What readChunk leaves is the end of what it was given. */
  lemma Tail(cs: ChunkState, fmt: nat, size: U32, input: seq<Byte>)
    requires Fits(cs) && fmt < 4
    ensures var r := ReadChunk(cs, fmt, size, input); r.Some? ==> r.value.1 == input[|input| - |r.value.1|..]
  {
  }

  lemma BasicTail(input: seq<Byte>)
    ensures var r := ParseBasic(input); r.Some? ==> r.value.rest == input[|input| - |r.value.rest|..]
  {
  }

  lemma DeliverKeeps(c: Conn, cs: ChunkState)
    ensures match Deliver(c, cs)
            case Fault => true
            case Done(c', msg, _) =>
              c'.chunks == c.chunks
              && (msg.Some? ==> cs.length <= |cs.data|
                                && msg.value.csid == cs.csid && msg.value.data == cs.data[..cs.length])
  {
  }

  lemma StepShort(c: Conn, input: seq<Byte>, csid: U32, x: Byte, len: nat, s: nat)
    requires Healthy(c) && x != 0 && s < len && Short(Lookup(c, csid), input, x, len, s)
    ensures match Step(c, input)
            case Stop => true
            case Next(c', msg, _, rest) =>
              Short(Lookup(c', csid), rest, x, len, s)
              && (msg.Some? && msg.value.csid == csid ==> msg.value.data != Copies(x, len))
  {
    hide Short, ReadChunk, Deliver, Copies, ParseBasic;
    var b := ParseBasic(input);
    if b.Some? {
      BasicTail(input);
      FewerLeft(Lookup(c, csid), input, |input| - |b.value.rest|, x, len, s);
      TurnShort(c, b.value.csid, b.value.fmt, b.value.rest, csid, x, len, s);
    }
  }

  lemma TurnShort(c: Conn, taken: U32, fmt: nat, input: seq<Byte>, csid: U32, x: Byte, len: nat, s: nat)
    requires Healthy(c) && fmt < 4 && x != 0 && s < len && Short(Lookup(c, csid), input, x, len, s)
    ensures match StepOn(c, taken, fmt, input)
            case Stop => true
            case Next(c', msg, _, rest) =>
              Short(Lookup(c', csid), rest, x, len, s)
              && (msg.Some? && msg.value.csid == csid ==> msg.value.data != Copies(x, len))
  {
    hide Short, ReadChunk, Deliver, Copies;
    var p := ReadChunk(Lookup(c, taken), fmt, c.remoteChunkSize, input);
    if p.Some? {
      var (cs, rest) := p.value;
      DeliverKeeps(Store(c, cs), cs);
      if taken == csid {
        ReadShort(Lookup(c, csid), fmt, c.remoteChunkSize, input, x, len, s);
        if cs.length <= |cs.data| { NotWhole(cs, rest, cs.length, x, len, s); }
      } else {
        Tail(Lookup(c, taken), fmt, c.remoteChunkSize, input);
        FewerLeft(Lookup(c, csid), input, |input| - |rest|, x, len, s);
      }
    }
  }

  /** So Read never hands them out, however long it goes on. */
  lemma {:induction false} NeverReads(c: Conn, input: seq<Byte>, csid: U32, x: Byte, len: nat, s: nat)
    requires Healthy(c) && x != 0 && s < len && Short(Lookup(c, csid), input, x, len, s)
    ensures var r := Read(c, input); r.Got? && r.msg.csid == csid ==> r.msg.data != Copies(x, len)
    decreases |input|
  {
    hide Step, Short, Copies, Lookup;
    StepShort(c, input, csid, x, len, s);
    var n := Step(c, input);
    if n.Next? && n.msg.None? {
      NeverReads(n.conn, n.rest, csid, x, len, s);
    }
  }

  /** Everything behind the first chunk has the bytes of the message and no other x. */
  lemma {:induction false} WireCount(m: Message, size: U32, off: nat, x: Byte)
    requires size >= 1 && 0 < off <= |m.data| <= MAX_LENGTH && AllAre(x, m.data)
    requires x !in Extension(m) && x !in EncodeBasic(3, m.csid)
    ensures Count(x, EncodeChunks(Split(m, size, off))) == |m.data| - off
    decreases |m.data| - off
  {
    hide EncodeChunk, EncodeChunks, Split, Count, Piece, EncodeBasic, Extension, AllAre;
    if off < |m.data| {
      var n := Min(size, |m.data| - off);
      PieceCount(m, off, n, x);
      WireCount(m, size, off + n, x);
      OnePiece(m, size, off);
      CountJoin(x, EncodeChunk(Piece(m, off, n)), EncodeChunks(Split(m, size, off + n)));
    } else {
      NoPieces(m, size, x);
    }
  }

  lemma NoPieces(m: Message, size: U32, x: Byte)
    requires size >= 1 && |m.data| <= MAX_LENGTH
    ensures Count(x, EncodeChunks(Split(m, size, |m.data|))) == 0
  {
  }

  lemma OnePiece(m: Message, size: U32, off: nat)
    requires size >= 1 && off < |m.data| <= MAX_LENGTH
    ensures var n := Min(size, |m.data| - off);
      EncodeChunks(Split(m, size, off)) == EncodeChunk(Piece(m, off, n)) + EncodeChunks(Split(m, size, off + n))
  {
    hide EncodeChunk;
    SplitBytes(m, size, off, []);
    var n := Min(size, |m.data| - off);
    var tail := EncodeChunks(Split(m, size, off + n));
    assert tail + [] == tail && EncodeChunks(Split(m, size, off)) + [] == EncodeChunks(Split(m, size, off));
  }

  lemma PieceCount(m: Message, off: nat, n: nat, x: Byte)
    requires 0 < off && off + n <= |m.data| <= MAX_LENGTH && AllAre(x, m.data)
    requires x !in Extension(m) && x !in EncodeBasic(3, m.csid)
    ensures Count(x, EncodeChunk(Piece(m, off, n))) == n
  {
    hide Count, EncodeBasic, Extension;
    var p := Piece(m, off, n);
    var basic, ext := EncodeBasic(3, m.csid), Extension(m);
    assert EncodeChunk(p) == basic + ext + p.payload;
    CountJoin(x, basic + ext, p.payload);
    CountJoin(x, basic, ext);
    CountNone(x, basic);
    CountNone(x, ext);
    CountAll(x, p.payload);
  }

  /** With more than one chunk, the repeated timestamp is taken for data, and its first byte stays in the message. */
  lemma Misreads(c: Conn, m: Message, size: U32, x: Byte)
    requires c == Conn(128, size, 2500000, 0, 0, map[]) && 1 <= size < |m.data|
    requires Carriable(Arrived(m)) && m.timestamp >= EXTENDED && !Internal(m.typeID)
    requires x !in [0] + BE(m.timestamp, 4) + EncodeBasic(3, CsidOf(m))
    requires AllAre(x, m.data)
    ensures !GivesBack(c, m, size, [])
  {
    hide Apply, WellShaped, Outstanding, EncodeChunk, EncodeChunks, Split, Read, Drain, Piece, Short, Count;
    var r, n := Routed(m), Min(size, |m.data| - size);
    var first, second := Piece(r, 0, size), Piece(r, size, n);
    var more := EncodeChunks(Split(r, size, size + n)) + [];
    OpensMessage(Lookup(c, r.csid), r, size);
    SplitBytes(r, size, 0, []);
    SplitBytes(r, size, size, []);
    Continues(c, first, EncodeChunk(second) + more);
    var c1 := Store(c, Apply(Lookup(c, r.csid), first));
    var forged, left := Forge(r, size, n, more);
    assert Read(c, Wire(m, size) + []) == Read(c1, EncodeChunk(forged) + left);
    FirstBuffer(r, size);
    WireCount(r, size, size + n, x);
    assert more == EncodeChunks(Split(r, size, size + n));
    TakesForged(c1, r, size, forged, left, more, x);
    assert r.data == Copies(x, |r.data|);
  }

  /** The second chunk as the reader takes it: the four bytes of the timestamp push four bytes of data out. */
  lemma Forge(m: Message, off: nat, n: nat, more: seq<Byte>) returns (forged: Chunk, left: seq<Byte>)
    requires 0 < off && 0 < n && off + n <= |m.data| <= MAX_LENGTH && m.timestamp >= EXTENDED
    ensures forged == Chunk(3, m.csid, [], [], forged.payload) && |forged.payload| == n
    ensures EncodeChunk(Piece(m, off, n)) + more == EncodeChunk(forged) + left
    ensures forged.payload + left == BE(m.timestamp, 4) + m.data[off..off + n] + more
  {
    var p := Piece(m, off, n);
    var body := p.ext + p.payload;
    forged, left := Chunk(3, m.csid, [], [], body[..n]), body[n..] + more;
    assert body == body[..n] + body[n..];
    var basic := EncodeBasic(3, m.csid);
    assert EncodeChunk(p) == basic + body;
    assert EncodeChunk(forged) == basic + body[..n];
  }

  /** The buffer of a new stream after its first chunk. */
  lemma FirstBuffer(m: Message, n: nat)
    requires Carriable(m) && 0 < n <= |m.data| && WellShaped(NewChunkState(m.csid), Piece(m, 0, n))
    ensures var cs := Apply(NewChunkState(m.csid), Piece(m, 0, n));
            cs.data == m.data[..n] + seq(|m.data| - n, _ => 0)
  {
    HeaderFields(m);
  }

  lemma TakesForged(c: Conn, m: Message, size: U32, forged: Chunk, left: seq<Byte>, more: seq<Byte>, x: Byte)
    requires Healthy(c) && c.remoteChunkSize == size && 1 <= size < |m.data| && m.csid in c.chunks && Carriable(m)
    requires var cs := c.chunks[m.csid];
             Midway(cs, Seen(m), size) && cs.timeDelta == 0 && cs.data == m.data[..size] + seq(|m.data| - size, _ => 0)
    requires var n := Min(size, |m.data| - size);
             && forged == Chunk(3, m.csid, [], [], forged.payload) && |forged.payload| == n
             && forged.payload + left == BE(m.timestamp, 4) + m.data[size..size + n] + more
             && Count(x, more) == |m.data| - size - n
    requires x != 0 && x !in BE(m.timestamp, 4) && AllAre(x, m.data)
    ensures var r := Read(c, EncodeChunk(forged) + left);
            r.Got? && r.msg.csid == m.csid ==> r.msg.data != Copies(x, |m.data|)
  {
    var cs := c.chunks[m.csid];
    var cs' := Fill(cs, forged.payload);
    assert Outstanding(cs, forged) == |m.data| - size && Apply(cs, forged) == cs';
    LacksOne(cs, m, size, forged.payload, left, more, x);
    hide EncodeChunk, Short, Deliver, Copies, Step, Apply, Fill;
    StepTakes(c, forged, left);
    DeliverKeeps(Store(c, cs'), cs');
    if cs'.length <= |cs'.data| { NotWhole(cs', left, cs'.length, x, |m.data|, size); }
    var n := Step(c, EncodeChunk(forged) + left);
    if n.Next? && n.msg.None? {
      NeverReads(n.conn, left, m.csid, x, |m.data|, size);
    }
  }

  lemma LacksOne(cs: ChunkState, m: Message, size: nat, payload: seq<Byte>, left: seq<Byte>, more: seq<Byte>, x: Byte)
    requires Fits(cs) && 0 < size < |m.data| && cs.index == size && cs.remain == |m.data| - size
    requires cs.data == m.data[..size] + seq(|m.data| - size, _ => 0)
    requires var n := Min(size, |m.data| - size);
             && |payload| == n && Count(x, more) == |m.data| - size - n
             && payload + left == BE(m.timestamp, 4) + m.data[size..size + n] + more
    requires x != 0 && x !in BE(m.timestamp, 4) && AllAre(x, m.data)
    ensures Short(Fill(cs, payload), left, x, |m.data|, size)
  {
    hide Count, Fill, BE, AllAre;
    PushedBuffer(cs, m, size, payload, x);
    CountPushed(m, size, payload, left, more, x);
    FirstIsWrong(m, size, payload, left, more, x);
  }

  lemma PushedBuffer(cs: ChunkState, m: Message, size: nat, payload: seq<Byte>, x: Byte)
    requires Fits(cs) && 0 < size < |m.data| && cs.index == size && cs.remain == |m.data| - size
    requires cs.data == m.data[..size] + seq(|m.data| - size, _ => 0) && payload != [] && |payload| <= cs.remain
    requires x != 0 && AllAre(x, m.data)
    ensures var r := Fill(cs, payload);
      && |r.data| == |m.data| && r.index == size + |payload| && r.data[0] == x && r.data[size] == payload[0]
      && Count(x, r.data) == size + Count(x, payload)
  {
    var zeros := seq(|m.data| - size - |payload|, _ => 0 as Byte);
    assert Fill(cs, payload).data == m.data[..size] + payload + zeros;
    hide Count, Fill;
    CountAll(x, m.data[..size]);
    CountNone(x, zeros);
    CountJoin(x, m.data[..size] + payload, zeros);
    CountJoin(x, m.data[..size], payload);
  }

  lemma CountPushed(m: Message, size: nat, payload: seq<Byte>, left: seq<Byte>, more: seq<Byte>, x: Byte)
    requires size + |payload| <= |m.data| && AllAre(x, m.data) && x !in BE(m.timestamp, 4)
    requires payload + left == BE(m.timestamp, 4) + m.data[size..size + |payload|] + more
    ensures Count(x, payload) + Count(x, left) == |payload| + Count(x, more)
  {
    hide Count, BE;
    var ext, sent := BE(m.timestamp, 4), m.data[size..size + |payload|];
    CountNone(x, ext);
    CountAll(x, sent);
    CountJoin(x, payload, left);
    CountJoin(x, ext + sent, more);
    CountJoin(x, ext, sent);
  }

  lemma FirstIsWrong(m: Message, size: nat, payload: seq<Byte>, left: seq<Byte>, more: seq<Byte>, x: Byte)
    requires payload != [] && size + |payload| <= |m.data| && x !in BE(m.timestamp, 4)
    requires payload + left == BE(m.timestamp, 4) + m.data[size..size + |payload|] + more
    ensures payload[0] != x
  {
    assert payload[0] == (payload + left)[0] == BE(m.timestamp, 4)[0];
    assert BE(m.timestamp, 4)[0] in BE(m.timestamp, 4);
  }
}
