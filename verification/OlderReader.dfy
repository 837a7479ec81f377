/** readChunk1 recovers full 32-bit timestamps, and agrees with readChunk where no timestamp is extended. */
module OlderReader {
  import opened Bytes
  import opened Chunks
  import Transfer
  import opened OlderChunks

  // ---------- extended timestamps ----------

  /** Chunks read with readChunk1 until the message is complete. */
  function ReadMessage1(cs: ChunkState, size: U32, input: seq<Byte>): Option<(ChunkState, seq<Byte>)>
    requires Fits(cs)
    decreases |input|
  {
    match ParseBasic(input)
    case None => None
    case Some(b) =>
      match ReadChunk1(cs.(csid := b.csid), b.fmt, size, b.rest)
      case None => None
      case Some(p) =>
        if p.0.remain == 0 then Some(p) else ReadMessage1(p.0, size, p.1)
  }

  /** off bytes of m have arrived, with the whole timestamp. */
  predicate Midway1(cs: ChunkState, m: Message, off: nat) {
    Midway(cs, m, off) && cs.exted == (m.timestamp >= EXTENDED)
  }

  lemma {:induction false} TimeFieldOf(m: Message, rest: seq<Byte>)
    requires |m.data| <= MAX_LENGTH && m.typeID < 256
    ensures var input := MessageHeader(m, 0, |m.data|) + Extension(m) + rest;
            TimeField(input, 11) == Some((m.timestamp, m.timestamp >= EXTENDED, 11 + |Extension(m)|))
  {
    hide BE, LE;
    HeaderFields(m);
    var h := MessageHeader(m, 0, |m.data|);
    var input := h + Extension(m) + rest;
    assert U24BE(input) == U24BE(h);
    if m.timestamp >= EXTENDED {
      BE4(m.timestamp, rest);
      assert input[11..] == BE(m.timestamp, 4) + rest;
    }
  }

  lemma Opens1(cs: ChunkState, m: Message, size: U32, rest: seq<Byte>) returns (cs': ChunkState)
    requires Fits(cs) && cs.csid == m.csid && cs.remain == 0 && Carriable(m) && m.data != [] && size >= 1
    ensures var n := Min(size, |m.data|); var c := Piece(m, 0, n);
            && ReadChunk1(cs, 0, size, c.header + c.ext + c.payload + rest) == Some((cs', rest))
            && Fits(cs') && Midway1(cs', m, n)
  {
    hide TimeField, MessageHeader, Extension;
    var n := Min(size, |m.data|);
    var c := Piece(m, 0, n);
    var input := c.header + c.ext + c.payload + rest;
    TimeFieldOf(m, c.payload + rest);
    HeaderFields(m);
    assert input == c.header + c.ext + (c.payload + rest);
    assert input[3..] == c.header[3..] + (c.ext + c.payload + rest);
    assert input[7..] == c.header[7..] + (c.ext + c.payload + rest);
    assert input[6] == c.header[6];
    var cs1 := Header1(cs, 0, input).value.0;
    var p := 11 + |c.ext|;
    assert input[p..p + n] == c.payload && input[p + n..] == rest;
    cs' := Fill(cs1, c.payload);
    assert cs'.data[..n] == m.data[..n];
  }

  lemma Continues1(cs: ChunkState, m: Message, size: U32, off: nat, rest: seq<Byte>) returns (cs': ChunkState)
    requires Fits(cs) && Midway1(cs, m, off) && off < |m.data| && size >= 1
    ensures var n := Min(size, |m.data| - off); var c := Piece(m, off, n);
            && ReadChunk1(cs, 3, size, c.header + c.ext + c.payload + rest) == Some((cs', rest))
            && Fits(cs') && Midway1(cs', m, off + n)
  {
    var n := Min(size, |m.data| - off);
    var c := Piece(m, off, n);
    var input := c.header + c.ext + c.payload + rest;
    assert c.header == [] && c.payload == m.data[off..off + n];
    assert c.ext == Extension(m);
    hide Piece, Extension;
    Behind(c.ext, c.payload, rest);
    assert input == c.ext + (c.payload + rest);
    Repeats1(cs, m, off, c.payload + rest);
    cs' := Fill(cs, c.payload);
    FilledFurther(cs, m, off, n);
    hide Header1, Fill;
    assert ReadChunk1(cs, 3, size, input) == Some((cs', rest));
  }

  lemma FilledFurther(cs: ChunkState, m: Message, off: nat, n: nat)
    requires Fits(cs) && Midway1(cs, m, off) && off + n <= |m.data|
    ensures var cs' := Fill(cs, m.data[off..off + n]); Fits(cs') && Midway1(cs', m, off + n)
  {
    var cs' := Fill(cs, m.data[off..off + n]);
    assert cs'.data[..off + n] == cs.data[..off] + m.data[off..off + n];
    assert m.data[..off + n] == m.data[..off] + m.data[off..off + n];
  }

  lemma Behind(ext: seq<Byte>, payload: seq<Byte>, rest: seq<Byte>)
    ensures var s := ext + (payload + rest);
      s[|ext|..|ext| + |payload|] == payload && s[|ext| + |payload|..] == rest && [] + ext + payload + rest == s
  {
  }

  /** The extended timestamp is there again in front of every further chunk. */
  lemma Repeats1(cs: ChunkState, m: Message, off: nat, tail: seq<Byte>)
    requires Fits(cs) && Midway1(cs, m, off) && off < |m.data|
    ensures Header1(cs, 3, Extension(m) + tail) == Some((cs, |Extension(m)|))
  {
    hide BE, U32BE;
    if cs.exted {
      BE4(m.timestamp, tail);
    }
  }

  lemma ChunkBytes(m: Message, size: U32, off: nat, rest: seq<Byte>)
    requires size >= 1 && off < |m.data| <= MAX_LENGTH && FIRST_CSID <= m.csid <= LAST_CSID
    ensures var c := Piece(m, off, Min(size, |m.data| - off));
            var more := EncodeChunks(Split(m, size, off + |c.payload|)) + rest;
            ParseBasic(EncodeChunks(Split(m, size, off)) + rest) ==
            Some(Basic(c.fmt, m.csid, c.header + c.ext + c.payload + more))
  {
    hide EncodeBasic, Piece;
    var c := Piece(m, off, Min(size, |m.data| - off));
    var tail := Split(m, size, off + |c.payload|);
    assert Split(m, size, off) == [c] + tail && ([c] + tail)[1..] == tail;
    var body := c.header + c.ext + c.payload + (EncodeChunks(tail) + rest);
    assert EncodeChunks(Split(m, size, off)) + rest == EncodeBasic(c.fmt, c.csid) + body;
    BasicRoundTrip(c.fmt, c.csid, body);
  }

  lemma {:induction false} ReadsOn1(cs: ChunkState, m: Message, size: U32, off: nat, rest: seq<Byte>)
      returns (cs': ChunkState)
    requires Fits(cs) && Midway1(cs, m, off) && off < |m.data| && size >= 1 && Carriable(m)
    ensures ReadMessage1(cs, size, EncodeChunks(Split(m, size, off)) + rest) == Some((cs', rest))
    ensures Midway1(cs', m, |m.data|)
    decreases |m.data| - off
  {
    hide ReadChunk1, Piece, EncodeChunks, ParseBasic, Split;
    var n := Min(size, |m.data| - off);
    ChunkBytes(m, size, off, rest);
    var more := EncodeChunks(Split(m, size, off + n)) + rest;
    cs' := Continues1(cs, m, size, off, more);
    assert cs.(csid := m.csid) == cs;
    if off + n < |m.data| {
      cs' := ReadsOn1(cs', m, size, off + n, rest);
    } else {
      NoneLeft(m, size, rest);
    }
  }

  lemma NoneLeft(m: Message, size: U32, rest: seq<Byte>)
    requires size >= 1 && |m.data| <= MAX_LENGTH
    ensures EncodeChunks(Split(m, size, |m.data|)) + rest == rest
  {}

  /** For every 32-bit timestamp, payload and chunk size, readChunk1 undoes writeChunk, and leaves what follows. */
  lemma ExtendedTimeRoundTrip(cs: ChunkState, m: Message, size: U32, rest: seq<Byte>) returns (cs': ChunkState)
    requires Fits(cs) && cs.remain == 0 && size >= 1 && Carriable(Transfer.Arrived(m)) && m.data != []
    ensures ReadMessage1(cs, size, Wire(m, size) + rest) == Some((cs', rest)) && cs'.complete
    ensures cs'.timestamp == m.timestamp && cs'.typeID == m.typeID && cs'.streamID == m.streamID
    ensures cs'.csid == Transfer.CsidOf(m) && cs'.length == |m.data| <= |cs'.data| && cs'.data[..cs'.length] == m.data
  {
    hide ReadChunk1, Piece, EncodeChunks, ParseBasic, Split;
    Transfer.RoutedIs(m);
    var r := Routed(m);
    var n := Min(size, |m.data|);
    ChunkBytes(r, size, 0, rest);
    cs' := Opens1(cs.(csid := r.csid), r, size, EncodeChunks(Split(r, size, n)) + rest);
    if n < |m.data| {
      cs' := ReadsOn1(cs', r, size, n, rest);
    } else {
      NoneLeft(r, size, rest);
    }
  }

  // ---------- the two readers ----------

  /** The older reader keeps its running time where the live one keeps its presentation time. */
  predicate Agree(live: ChunkState, older: ChunkState) {
    older == live.(timestamp := live.pts, pts := older.pts, exted := false)
  }

  /** The time field of the chunk, or the delta a type-3 chunk repeats, is not the escape value. */
  predicate Unextended(live: ChunkState, fmt: nat, input: seq<Byte>) {
    if fmt == 3 then live.timeDelta != EXTENDED else |input| >= 3 ==> U24BE(input) != EXTENDED
  }

  /** A message is opened by a header, or by a type-3 chunk that repeats a delta. */
  predicate RepeatsDelta(live: ChunkState, fmt: nat) {
    fmt == 3 && live.remain == 0 && live.format == 0 ==> live.timeDelta == 0
  }

  /**
   On a chunk without extended timestamp, inside a message only of type 3, the readers consume the same bytes and
   make the same of them; their times agree exactly when a type-3 chunk does not open a message after a type-0 one
   with a delta left over from before.
   */
  lemma ReadersAgree(live: ChunkState, older: ChunkState, fmt: nat, size: U32, input: seq<Byte>)
    requires fmt < 4 && Fits(live) && Agree(live, older) && live.format <= 2
    requires (live.remain != 0 ==> fmt == 3) && Unextended(live, fmt, input)
    ensures Fits(older)
    ensures match (ReadChunk(live, fmt, size, input), ReadChunk1(older, fmt, size, input))
            case (None, None) => true
            case (Some(l), Some(o)) =>
              && l.1 == o.1 && Agree(l.0, o.0.(timestamp := l.0.pts)) && l.0.format <= 2
              && (Agree(l.0, o.0) <==> RepeatsDelta(live, fmt))
            case _ => false
  {
    hide U24BE, U32LE, WithHeader, Begin, Header1, Extended, Agree, RepeatsDelta;
    var h := HeaderLen(fmt);
    if |input| >= h {
      HeadersAgree(live, older, fmt, input);
      var l, o := Begin(WithHeader(live, fmt, input[..h]), fmt, []), Header1(older, fmt, input).value.0;
      var n := Min(l.remain, size);
      assert input[h..h + 0] == [];
      FillsAgree(l, o, if |input| >= h + n then input[h..h + n] else []);
    } else {
      TooShort(live, older, fmt, input);
    }
  }

  lemma TooShort(live: ChunkState, older: ChunkState, fmt: nat, input: seq<Byte>)
    requires fmt < 4 && Fits(live) && Agree(live, older) && (live.remain != 0 ==> fmt == 3)
    requires |input| < HeaderLen(fmt)
    ensures Fits(older) && Header1(older, fmt, input).None?
  {}

  lemma FillsAgree(l: ChunkState, o: ChunkState, payload: seq<Byte>)
    requires Fits(l) && |payload| <= l.remain && Agree(l, o.(timestamp := l.pts))
    ensures Fits(o) && o.remain == l.remain
    ensures Agree(Fill(l, payload), Fill(o, payload).(timestamp := Fill(l, payload).pts))
    ensures Agree(Fill(l, payload), Fill(o, payload)) <==> Agree(l, o)
  {}

  lemma HeadersAgree(live: ChunkState, older: ChunkState, fmt: nat, input: seq<Byte>)
    requires fmt < 4 && Fits(live) && Agree(live, older) && live.format <= 2
    requires (live.remain != 0 ==> fmt == 3) && Unextended(live, fmt, input) && HeaderLen(fmt) <= |input|
    ensures Fits(older) && var h := HeaderLen(fmt); var l1 := WithHeader(live, fmt, input[..h]);
            && !Extended(l1, fmt) && Header1(older, fmt, input).Some? && Header1(older, fmt, input).value.1 == h
            && (var l, o := Begin(l1, fmt, []), Header1(older, fmt, input).value.0;
                && Agree(l, o.(timestamp := l.pts)) && l.format <= 2 && Fits(l)
                && (Agree(l, o) <==> RepeatsDelta(live, fmt)))
  {
    hide U24BE, U32LE;
    SameHeader(input, HeaderLen(fmt));
    if fmt == 3 && live.remain == 0 && live.format == 0 {
      AddsNothing(live.pts, live.timeDelta);
    }
  }

  lemma AddsNothing(t: U32, d: U32)
    ensures Add32(t, d) == t <==> d == 0
  {}

  lemma SameHeader(input: seq<Byte>, h: nat)
    requires h <= |input|
    ensures h >= 3 ==> U24BE(input[..h]) == U24BE(input)
    ensures h >= 7 ==> U24BE(input[..h][3..]) == U24BE(input[3..])
    ensures h >= 11 ==> U32LE(input[..h][7..]) == U32LE(input[7..])
    ensures input[h..h] == []
  {}

  // ---------- runs of the two readers ----------

  /** One chunk off the wire with either reader; the basic header gives its type. */
  function Next(cs: ChunkState, size: U32, input: seq<Byte>, older: bool): (r: Option<(ChunkState, seq<Byte>)>)
    requires Fits(cs)
    ensures r.Some? ==> Fits(r.value.0) && |r.value.1| < |input|
  {
    match ParseBasic(input)
    case None => None
    case Some(b) => if older then ReadChunk1(cs, b.fmt, size, b.rest) else ReadChunk(cs, b.fmt, size, b.rest)
  }

  /** As many chunks as the input holds. */
  function ReadAll(cs: ChunkState, size: U32, input: seq<Byte>, older: bool): (ChunkState, seq<Byte>)
    requires Fits(cs)
    decreases |input|
  {
    match Next(cs, size, input, older)
    case None => (cs, input)
    case Some(p) => ReadAll(p.0, size, p.1, older)
  }

  /** Every chunk the live reader meets is of the kind on which the readers agree. */
  predicate WellFormed(cs: ChunkState, size: U32, input: seq<Byte>)
    requires Fits(cs)
    decreases |input|
  {
    match ParseBasic(input)
    case None => true
    case Some(b) =>
      && (cs.remain != 0 ==> b.fmt == 3) && Unextended(cs, b.fmt, b.rest) && RepeatsDelta(cs, b.fmt)
      && match Next(cs, size, input, false)
         case None => true
         case Some(p) => WellFormed(p.0, size, p.1)
  }

  /** On such input the readers stay in step to the end. */
  lemma {:induction false} RunsAgree(live: ChunkState, older: ChunkState, size: U32, input: seq<Byte>)
    requires Fits(live) && live.format <= 2 && Agree(live, older) && WellFormed(live, size, input)
    ensures Fits(older)
    ensures var l, o := ReadAll(live, size, input, false), ReadAll(older, size, input, true);
            Agree(l.0, o.0) && l.1 == o.1
    decreases |input|
  {
    hide ReadChunk, ReadChunk1, Unextended, RepeatsDelta, Agree, ParseBasic;
    var b := ParseBasic(input);
    assert Fits(older) by { AgreeFits(live, older); }
    if b.Some? {
      ReadersAgree(live, older, b.value.fmt, size, b.value.rest);
      var l := Next(live, size, input, false);
      if l.Some? {
        RunsAgree(l.value.0, Next(older, size, input, true).value.0, size, l.value.1);
      }
    }
  }

  lemma AgreeFits(live: ChunkState, older: ChunkState)
    requires Fits(live) && Agree(live, older)
    ensures Fits(older)
  {}

  /** The time on an unbounded clock: set by a type-0 header, moved on by each delta once, when it opens a message. */
  function Clock(cs: ChunkState, now: int, size: U32, input: seq<Byte>): int
    requires Fits(cs)
    decreases |input|
  {
    match Next(cs, size, input, false)
    case None => now
    case Some(p) =>
      var b := ParseBasic(input).value;
      var next :=
        if cs.remain != 0 then now
        else if b.fmt == 0 then U24BE(b.rest)
        else if b.fmt == 3 then now + cs.timeDelta
        else now + U24BE(b.rest);
      Clock(p.0, next, size, p.1)
  }

  /** Pts is that clock modulo 2^32. */
  lemma {:induction false} PtsIsRunningSum(cs: ChunkState, now: int, size: U32, input: seq<Byte>)
    requires Fits(cs) && WellFormed(cs, size, input) && cs.pts == now % 0x1_0000_0000
    ensures ReadAll(cs, size, input, false).0.pts == Clock(cs, now, size, input) % 0x1_0000_0000
    decreases |input|
  {
    hide ReadChunk, ReadChunk1, ParseBasic, Add32;
    var p := Next(cs, size, input, false);
    if p.Some? {
      var b := ParseBasic(input).value;
      PtsAfter(cs, b.fmt, size, b.rest);
      var next := if cs.remain != 0 then now else if b.fmt == 0 then U24BE(b.rest)
                  else if b.fmt == 3 then now + cs.timeDelta else now + U24BE(b.rest);
      AddModulo(now, if b.fmt == 3 then cs.timeDelta else U24BE(b.rest));
      PtsIsRunningSum(p.value.0, next, size, p.value.1);
    }
  }

  lemma AddModulo(now: int, d: U32)
    ensures Add32(now % 0x1_0000_0000, d) == (now + d) % 0x1_0000_0000
  {
  }

  lemma PtsAfter(cs: ChunkState, fmt: nat, size: U32, input: seq<Byte>)
    requires fmt < 4 && Fits(cs) && ReadChunk(cs, fmt, size, input).Some? && Unextended(cs, fmt, input)
    ensures fmt != 3 ==> |input| >= 3
    ensures ReadChunk(cs, fmt, size, input).value.0.pts ==
            if cs.remain != 0 then cs.pts else if fmt == 0 then U24BE(input)
            else Add32(cs.pts, if fmt == 3 then cs.timeDelta else U24BE(input))
  {
    hide U24BE, U32LE;
    SameHeader(input, HeaderLen(fmt));
  }
}
