/** readChunk1, the older reader of a chunk: it keeps the full 32-bit timestamp and repeats it on type-3 chunks. */
module OlderChunks {
  import opened Bytes
  import opened Chunks

  /** A 24-bit time field followed, after h header bytes in all, by its extension: value, extended, bytes used. */
  function TimeField(input: seq<Byte>, h: nat): (r: Option<(U32, bool, nat)>)
    requires h >= 3
    ensures r.Some? ==> h <= r.value.2 <= |input|
  {
    if |input| < h then None
    else if U24BE(input) != EXTENDED then Some((U24BE(input), false, h))
    else if |input| < h + 4 then None
    else Some((U32BE(input[h..]), true, h + 4))
  }

  /** The fields after the message header, and the number of bytes it took with its extended timestamp. */
  function Header1(cs: ChunkState, fmt: nat, input: seq<Byte>): (r: Option<(ChunkState, nat)>)
    requires fmt < 4 && Fits(cs)
    ensures r.Some? ==> r.value.1 <= |input| && Fits(r.value.0)
  {
    if cs.remain != 0 then
      if fmt != 3 then None
      else if !cs.exted then Some((cs, 0))
      else if |input| < 4 then None
      else Some((cs, if U32BE(input) == cs.timestamp then 4 else 0))
    else match fmt
      case 0 =>
        (match TimeField(input, 11)
         case None => None
         case Some(t) => Some((Alloc(cs.(format := 0, timestamp := t.0, exted := t.1, length := U24BE(input[3..]),
                                         typeID := input[6], streamID := U32LE(input[7..]))), t.2)))
      case 1 =>
        (match TimeField(input, 7)
         case None => None
         case Some(t) => Some((Alloc(cs.(format := 1, timeDelta := t.0, timestamp := Add32(cs.timestamp, t.0),
                                         exted := t.1, length := U24BE(input[3..]), typeID := input[6])), t.2)))
      case 2 =>
        (match TimeField(input, 3)
         case None => None
         case Some(t) => Some((Alloc(cs.(format := 2, timeDelta := t.0, timestamp := Add32(cs.timestamp, t.0),
                                         exted := t.1)), t.2)))
      case _ =>
        if cs.exted && cs.format <= 2 then
          if |input| < 4 then None
          else Some((Alloc(cs.(timestamp := if cs.format == 0 then U32BE(input)
                                            else Add32(cs.timestamp, U32BE(input)))), 4))
        else
          Some((Alloc(cs.(timestamp := if cs.format == 1 || cs.format == 2 then Add32(cs.timestamp, cs.timeDelta)
                                       else cs.timestamp)), 0))
  }

  function ReadChunk1(cs: ChunkState, fmt: nat, size: U32, input: seq<Byte>): (r: Option<(ChunkState, seq<Byte>)>)
    requires fmt < 4 && Fits(cs)
    ensures r.Some? ==> Fits(r.value.0) && |r.value.1| <= |input|
  {
    match Header1(cs, fmt, input)
    case None => None
    case Some(p) =>
      var n := Min(p.0.remain, size);
      if |input| < p.1 + n then None
      else Some((Fill(p.0, input[p.1..p.1 + n]), input[p.1 + n..]))
  }
}
