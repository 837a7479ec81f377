/** FLV video tags: what PackVideoData and NewAVCSequenceHeader write, and what Demux and the player read. */
module Flv {
  import opened Bytes
  import opened Buffers
  import opened AnnexB
  import opened FlvTags

  const FRAME_KEY: Byte := 1
  const FRAME_INTER: Byte := 2
  const VIDEO_JPEG: Byte := 1
  const VIDEO_H263: Byte := 2
  const VIDEO_H264: Byte := 7
  const AVC_SEQHDR: Byte := 0

  datatype VideoHeader = VideoHeader(frameType: Byte, codec: Byte, avcPacketType: Byte, compositionTime: nat)
  datatype Packet = Packet(header: VideoHeader, data: seq<Byte>)
  datatype Packed = Payload(bytes: seq<Byte>) | InvalidData | UnsupportedCodec | Panic

  // ---------- writing ----------

  predicate ParameterSet(src: seq<Byte>)
    requires src != []
  {
    src[0] % 32 == 7 || src[0] % 32 == 8
  }

  function FrameType(src: seq<Byte>): Byte
    requires src != []
  {
    if ParameterSet(src) || src[0] % 32 == 5 then FRAME_KEY else FRAME_INTER
  }

  /** The header of a video tag, with the composition time 0 that the packing calls set. */
  function TagHeader(frameType: Byte, codec: Byte, avcPacketType: Byte): seq<Byte> {
    TagData(Video(frameType, codec, avcPacketType, 0))
  }

  /** Each unit behind its length in four bytes. */
  function Prefixed(us: seq<seq<Byte>>): seq<Byte> {
    if us == [] then [] else BE(|us[0]|, 4) + us[0] + Prefixed(us[1..])
  }

  function Stripped(src: seq<Byte>): seq<Byte> {
    if |src| >= 4 && src[..4] == START_CODE_4 then src[4..] else src
  }

  /** The units of one call, before they are prefixed. */
  function UnitsOf(src: seq<Byte>, spare: seq<Byte>): Split
    requires src != []
  {
    if ParameterSet(src) then ParseNalusSpec(src, spare, 3) else Nalus([src])
  }

  /** spare are the bytes between the length and the capacity of the data. */
  function PackVideo(codec: Byte, avcPacketType: Byte, data: seq<Byte>, spare: seq<Byte>): Packed {
    if codec == VIDEO_H264 then
      var src := Stripped(data);
      if src == [] then InvalidData
      else
        match UnitsOf(src, spare)
        case OutOfRange => Panic
        case Nalus(us) => Payload(TagHeader(FrameType(src), codec, avcPacketType) + Prefixed(us))
    else if codec == VIDEO_JPEG || codec == VIDEO_H263 then
      if data == [] then InvalidData
      else Payload(TagHeader(FRAME_KEY, codec, 0) + Prefixed([data]))
    else UnsupportedCodec
  }

  method PackVideoData(codec: Byte, avcPacketType: Byte, data: seq<Byte>, spare: seq<Byte>) returns (r: Packed)
    ensures r == PackVideo(codec, avcPacketType, data, spare)
  {
    hide TagData, ParseNalusSpec, BE;
    var src := data;
    var tag: seq<Byte>;
    if codec == VIDEO_H264 {
      if |src| >= 4 && src[0..4] == START_CODE_4 {
        src := src[4..];
      }
      if |src| == 0 { return InvalidData; }
      var frameType := FRAME_INTER;
      var naluType := src[0] % 32;
      if naluType == 7 || naluType == 8 || naluType == 5 {
        frameType := FRAME_KEY;
      }
      tag := MuxerTagData(Video(frameType, codec, avcPacketType, 0));
      if naluType == 7 || naluType == 8 {
        var nalus := ParseNalusN(src, spare, 3);
        if nalus.OutOfRange? { return Panic; }
        var bytes := FillUnits(tag, src, spare, nalus.units);
        return Payload(bytes);
      }
    } else if codec == VIDEO_JPEG || codec == VIDEO_H263 {
      tag := MuxerTagData(Video(FRAME_KEY, codec, 0, 0));
    } else {
      return UnsupportedCodec;
    }
    if |src| == 0 { return InvalidData; }
    var bytes := FillOne(tag, src);
    return Payload(bytes);
  }

  /** The end of PackVideoData: tag, length and data, through the moving index. */
  method FillOne(tag: seq<Byte>, src: seq<Byte>) returns (bytes: seq<Byte>)
    ensures bytes == tag + Prefixed([src])
  {
    hide BE;
    var buffer := new Byte[|tag| + 4 + |src|];
    var index := 0;
    Copy(buffer, index, tag);
    index := index + |tag|;
    Copy(buffer, index, BE(|src|, 4));
    index := index + 4;
    Copy(buffer, index, src);
    index := index + |src|;
    assert Prefixed([src]) == BE(|src|, 4) + src + Prefixed([]);
    assert buffer[..index] == tag + (BE(|src|, 4) + src);
    return buffer[..index];
  }

  /** The first unit behind its length, and what follows it. */
  lemma PrefixedStep(us: seq<seq<Byte>>, tail: seq<Byte>)
    requires us != [] && |us[0]| < 0x1_0000_0000
    ensures var n, data := |us[0]|, Prefixed(us) + tail;
      && |data| >= 4 + n && U32BE(data) == n
      && data[4..4 + n] == us[0] && data[4 + n..] == Prefixed(us[1..]) + tail
  {
    var more := Prefixed(us[1..]) + tail;
    BE4(|us[0]|, us[0] + more);
    assert Prefixed(us) + tail == BE(|us[0]|, 4) + us[0] + Prefixed(us[1..]) + tail;
    hide BE, U32BE, Prefixed;
    AfterFour(BE(|us[0]|, 4), us[0], more);
    Regrouped(BE(|us[0]|, 4), us[0], Prefixed(us[1..]), tail);
  }

  lemma AfterFour(h: seq<Byte>, u: seq<Byte>, more: seq<Byte>)
    requires |h| == 4
    ensures (h + (u + more))[4..4 + |u|] == u && (h + (u + more))[4 + |u|..] == more
  {
  }

  lemma Regrouped(a: seq<Byte>, b: seq<Byte>, c: seq<Byte>, d: seq<Byte>)
    ensures a + b + c + d == a + (b + (c + d))
  {
  }

  lemma {:induction false} PrefixedAppend(us: seq<seq<Byte>>, vs: seq<seq<Byte>>)
    ensures Prefixed(us + vs) == Prefixed(us) + Prefixed(vs)
    decreases |us|
  {
    hide BE;
    if us == [] {
      assert us + vs == vs;
    } else {
      assert (us + vs)[1..] == us[1..] + vs;
      PrefixedAppend(us[1..], vs);
    }
  }

  /** One round of the loop that writes the units. */
  lemma {:induction false} PrefixedSnoc(us: seq<seq<Byte>>, k: nat)
    requires k < |us|
    ensures Prefixed(us[..k + 1]) == Prefixed(us[..k]) + BE(|us[k]|, 4) + us[k]
    ensures |Prefixed(us[..k + 1])| <= |Prefixed(us)|
  {
    hide BE;
    PrefixedAppend(us[..k], [us[k]]);
    assert us[..k + 1] == us[..k] + [us[k]];
    assert Prefixed([us[k]]) == BE(|us[k]|, 4) + us[k] + Prefixed([]);
    PrefixedAppend(us[..k + 1], us[k + 1..]);
    assert us == us[..k + 1] + us[k + 1..];
  }

  lemma {:induction false} PrefixedLength(us: seq<seq<Byte>>)
    ensures |Prefixed(us)| == 4 * |us| + Total(us)
    decreases |us|
  {
    hide BE;
    if us != [] {
      var k := |us| - 1;
      PrefixedLength(us[..k]);
      PrefixedSnoc(us, k);
      assert us[..k + 1] == us;
    }
  }

  method PutUnit(buffer: array<Byte>, at: nat, nalu: seq<Byte>) returns (index: nat)
    requires at + 4 + |nalu| <= buffer.Length
    modifies buffer
    ensures index == at + 4 + |nalu| && buffer[..index] == old(buffer[..at]) + BE(|nalu|, 4) + nalu
  {
    hide BE;
    index := at;
    Copy(buffer, index, BE(|nalu|, 4));
    index := index + 4;
    Copy(buffer, index, nalu);
    index := index + |nalu|;
  }

  /** The loop that writes the split units; the buffer is sized for the source and four bytes a unit. */
  method FillUnits(tag: seq<Byte>, src: seq<Byte>, ghost spare: seq<Byte>, nalus: seq<seq<Byte>>)
      returns (bytes: seq<Byte>)
    requires ParseNalusSpec(src, spare, 3) == Nalus(nalus)
    ensures bytes == tag + Prefixed(nalus)
  {
    hide ParseNalusSpec, Prefixed;
    UnitsFit(src, spare, 3);
    PrefixedLength(nalus);
    var buffer := new Byte[|tag| + |src| + |nalus| * 4];
    var index := 0;
    Copy(buffer, index, tag);
    index := index + |tag|;
    index := PutUnits(buffer, index, nalus);
    return buffer[..index];
  }

  method PutUnits(buffer: array<Byte>, at: nat, nalus: seq<seq<Byte>>) returns (index: nat)
    requires NoneEmpty(nalus) && at + |Prefixed(nalus)| <= buffer.Length
    modifies buffer
    ensures index <= buffer.Length && buffer[..index] == old(buffer[..at]) + Prefixed(nalus)
  {
    index := at;
    assert nalus[..0] == [] && Prefixed([]) == [];
    hide BE, Prefixed;
    ghost var front := buffer[..at];
    for k := 0 to |nalus|
      invariant index == at + |Prefixed(nalus[..k])| <= buffer.Length
      invariant buffer[..index] == front + Prefixed(nalus[..k])
    {
      PrefixedSnoc(nalus, k);
      var nalu := nalus[k];
      assert nalu in nalus;
      if |nalu| > 0 {
        index := PutUnit(buffer, index, nalu);
        Regroup4(front, Prefixed(nalus[..k]), BE(|nalu|, 4), nalu);
      }
    }
    assert nalus[..|nalus|] == nalus;
  }

  // ---------- reading ----------

  datatype End = Drained(residue: nat) | BadLength | DemuxFailed | BadSequenceHeader

  function VideoHeaderOf(b: seq<Byte>): VideoHeader
    requires |b| >= 5
  {
    var t := ParseVideoHeader(b).tag;
    VideoHeader(t.frameType, t.codecID, t.avcPacketType, t.compositionTime)
  }

  function HeaderLength(b: seq<Byte>): nat
    requires |b| >= 5
  {
    ParseVideoHeader(b).n
  }

  /** The units in front of the first bad length, and how the reading ended. */
  function Unpack(data: seq<Byte>): (r: (seq<seq<Byte>>, End)) {
    if |data| < 4 then ([], Drained(|data|))
    else if U32BE(data) > (|data| - 4) % 0x1_0000_0000 then ([], BadLength)
    else
      var n := 4 + U32BE(data);
      var r := Unpack(data[n..]);
      ([data[4..n]] + r.0, r.1)
  }

  function Tagged(header: VideoHeader, us: seq<seq<Byte>>): seq<Packet> {
    seq(|us|, k requires 0 <= k < |us| => Packet(header, us[k]))
  }

  // ---------- the sequence header ----------

  datatype Config = Config(spss: seq<seq<Byte>>, ppss: seq<seq<Byte>>) | BadConfig

  function SameAsCode(s: seq<Byte>): seq<Byte> {
    if s == START_CODE_4 then [] else s
  }

  function ConfigRecord(sps: seq<Byte>, pps: seq<Byte>): seq<Byte> {
    var s, p := SameAsCode(sps), SameAsCode(pps);
    [1, 66, 0, 40, 0xff, 0xe1] + BE(|s|, 2) + s + [1] + BE(|p|, 2) + p
  }

  /** n length-prefixed sets from a bytes.Reader; short reads are padded with zeros, only an empty one fails. */
  function ReadSets(data: seq<Byte>, n: nat): Option<(seq<seq<Byte>>, seq<Byte>)> {
    if n == 0 then Some(([], data))
    else if data == [] then None
    else
      var length := U16BE(Padded(data, 2));
      var body := Rest(data, 2);
      if body == [] then None
      else
        match ReadSets(Rest(body, length), n - 1)
        case None => None
        case Some(r) => Some(([Padded(body, length)] + r.0, r.1))
  }

  function After(found: seq<seq<Byte>>, r: Option<(seq<seq<Byte>>, seq<Byte>)>): Option<(seq<seq<Byte>>, seq<Byte>)> {
    match r
    case None => None
    case Some((sets, rest)) => Some((found + sets, rest))
  }

  function ParseConfig(data: seq<Byte>): Config {
    if data == [] || data[0] != 1 || |data| == 1 then BadConfig
    else
      var d := Rest(Rest(data[1..], 3), 1);
      if d == [] then BadConfig
      else
        match ReadSets(d[1..], d[0] % 32)
        case None => BadConfig
        case Some((spss, e)) =>
          if e == [] then BadConfig
          else
            match ReadSets(e[1..], e[0])
            case None => BadConfig
            case Some((ppss, _)) => Config(spss, ppss)
  }

  method AVCDecoderConfigurationRecord(sps: seq<Byte>, pps: seq<Byte>) returns (record: seq<Byte>)
    ensures record == ConfigRecord(sps, pps)
  {
    hide BE;
    var s, p := sps, pps;
    if s == START_CODE_4 { s := s[4..]; }
    if p == START_CODE_4 { p := p[4..]; }
    var index := 6;
    var buffer := new Byte[11 + |s| + |p|];
    buffer[0], buffer[1], buffer[2], buffer[3] := 1, 66, 0, 40;
    buffer[4] := 0x3f * 4 + 3;
    buffer[5] := 0x07 * 32 + 1;
    assert buffer[..6] == [1, 66, 0, 40, 0xff, 0xe1];
    index := CopySet(buffer, index, s);
    Put(buffer, index, 1);
    index := index + 1;
    index := CopySet(buffer, index, p);
    assert buffer[..] == buffer[..index];
    return buffer[..];
  }

  /** The length of a parameter set in two bytes, and the set. */
  method CopySet(buffer: array<Byte>, start: nat, unit: seq<Byte>) returns (index: nat)
    requires start + 2 + |unit| <= buffer.Length
    modifies buffer
    ensures index == start + 2 + |unit|
    ensures buffer[..index] == old(buffer[..start]) + BE(|unit|, 2) + unit
  {
    hide BE;
    index := start;
    Copy(buffer, index, BE(|unit|, 2));
    index := index + 2;
    Copy(buffer, index, unit);
    index := index + |unit|;
  }

  method NewAVCSequenceHeader(sps: seq<Byte>, pps: seq<Byte>) returns (bytes: seq<Byte>)
    ensures bytes == TagHeader(FRAME_KEY, VIDEO_H264, AVC_SEQHDR) + ConfigRecord(sps, pps)
  {
    hide TagData, ConfigRecord;
    var record := AVCDecoderConfigurationRecord(sps, pps);
    var index := 0;
    var tag := MuxerTagData(Video(FRAME_KEY, VIDEO_H264, AVC_SEQHDR, 0));
    var buffer := new Byte[|tag| + 4 + |record|];
    Copy(buffer, 0, tag);
    index := index + |tag|;
    assert buffer[..index] == tag;
    Copy(buffer, index, record);
    index := index + |record|;
    return buffer[..index];
  }

  method ParseSets(reader: Reader, n: nat) returns (sets: Option<seq<seq<Byte>>>)
    requires reader.strict
    modifies reader
    ensures match ReadSets(old(reader.rest), n)
            case None => sets == None
            case Some(r) => sets == Some(r.0) && reader.rest == r.1
  {
    hide U16BE;
    var found := [];
    ghost var all := ReadSets(reader.rest, n);
    assert all.Some? ==> [] + all.value.0 == all.value.0;
    for i := 0 to n
      invariant ReadSets(old(reader.rest), n) == After(found, ReadSets(reader.rest, n - i))
    {
      var lengthBytes := reader.Read(2);
      if lengthBytes == None { return None; }
      var length := U16BE(lengthBytes.value);
      var body := reader.Read(length);
      if body == None { return None; }
      ghost var more := ReadSets(reader.rest, n - i - 1);
      assert more.Some? ==> found + ([body.value] + more.value.0) == found + [body.value] + more.value.0;
      found := found + [body.value];
    }
    assert found + [] == found;
    return Some(found);
  }

  method ParseAVCSequenceHeader(data: seq<Byte>) returns (r: Config)
    ensures r == ParseConfig(data)
  {
    hide ReadSets;
    var reader := new Reader(data, true);
    var rb := reader.ReadByte();
    if rb == None || rb.value != 0x01 { return BadConfig; }
    var apa := reader.Read(3);
    if apa == None { return BadConfig; }
    reader.Skip();
    rb := reader.ReadByte();
    if rb == None { return BadConfig; }
    var spss := ParseSets(reader, rb.value % 32);
    if spss == None { return BadConfig; }
    rb := reader.ReadByte();
    if rb == None { return BadConfig; }
    var ppss := ParseSets(reader, rb.value);
    if ppss == None { return BadConfig; }
    return Config(spss.value, ppss.value);
  }

  // ---------- the player ----------

  /** What handleVideoAudio hands to the application for one video message. */
  function Played(payload: seq<Byte>): (seq<Packet>, End) {
    if |payload| < 5 then ([], DemuxFailed)
    else
      var header, data := VideoHeaderOf(payload), payload[HeaderLength(payload)..];
      if header.codec == VIDEO_H264 && header.frameType == FRAME_KEY && header.avcPacketType == AVC_SEQHDR then
        match ParseConfig(data)
        case BadConfig => ([], BadSequenceHeader)
        case Config(spss, ppss) =>
          (Tagged(header, (if spss == [] then [] else [spss[0]]) + (if ppss == [] then [] else [ppss[0]])), Drained(0))
      else (Tagged(header, Unpack(data).0), Unpack(data).1)
  }

  lemma Untagged(header: VideoHeader)
    ensures Tagged(header, []) == []
  {
  }

  lemma TaggedSnoc(header: VideoHeader, us: seq<seq<Byte>>, u: seq<Byte>)
    ensures Tagged(header, us + [u]) == Tagged(header, us) + [Packet(header, u)]
  {
  }

  class Player {
    var received: seq<Packet>

    method OnPacketReceive(p: Packet)
      modifies this
      ensures received == old(received) + [p]
    {
      received := received + [p];
    }

    method HandleVideo(payload: seq<Byte>) returns (end: End)
      modifies this
      ensures received == old(received) + Played(payload).0 && end == Played(payload).1
    {
      hide ParseConfig, U32BE;
      if |payload| < 5 { return DemuxFailed; }
      var header := VideoHeaderOf(payload);
      var naluData := payload[HeaderLength(payload)..];
      if header.codec == VIDEO_H264 && header.frameType == FRAME_KEY && header.avcPacketType == AVC_SEQHDR {
        var config := ParseAVCSequenceHeader(naluData);
        if config.BadConfig? { return BadSequenceHeader; }
        if |config.spss| > 0 {
          OnPacketReceive(Packet(header, config.spss[0]));
        }
        if |config.ppss| > 0 {
          OnPacketReceive(Packet(header, config.ppss[0]));
        }
        return Drained(0);
      }
      end := HandleUnits(header, naluData);
    }

    method HandleUnits(header: VideoHeader, naluData: seq<Byte>) returns (end: End)
      modifies this
      ensures received == old(received) + Tagged(header, Unpack(naluData).0) && end == Unpack(naluData).1
    {
      hide U32BE, Tagged;
      Untagged(header);
      var index := 0;
      ghost var done := [];
      assert naluData[0..] == naluData && [] + Unpack(naluData).0 == Unpack(naluData).0;
      while true
        invariant index <= |naluData|
        invariant received == old(received) + Tagged(header, done)
        invariant Unpack(naluData) == (done + Unpack(naluData[index..]).0, Unpack(naluData[index..]).1)
        decreases |naluData| - index
      {
        var remain := |naluData[index..]|;
        if remain < 4 {
          assert done + [] == done;
          return Drained(remain);
        }
        var length := U32BE(naluData[index..]);
        if length > (remain - 4) % 0x1_0000_0000 {
          assert done + [] == done;
          return BadLength;
        }
        ghost var data := naluData[index..];
        index := index + 4;
        var unit := naluData[index..index + length];
        index := index + length;
        assert unit == data[4..4 + length] && naluData[index..] == data[4 + length..];
        assert done + ([unit] + Unpack(naluData[index..]).0) == done + [unit] + Unpack(naluData[index..]).0;
        OnPacketReceive(Packet(header, unit));
        TaggedSnoc(header, done, unit);
        done := done + [unit];
      }
    }
  }
}
