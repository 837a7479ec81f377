/** The header in front of the media data of an FLV tag (Adobe FLV 10.1, sections E.4.2 and E.4.3), and audio tags. */
module FlvTags {
  import opened Bytes
  import opened Buffers

  const CODEC_AVC: Byte := 7
  const SOUND_AAC: Byte := 10
  const AAC_RAW: Byte := 1

  datatype Tag =
    | Video(frameType: Byte, codecID: Byte, avcPacketType: Byte, compositionTime: int)
    | Audio(soundFormat: Byte, soundRate: Byte, soundSize: Byte, soundType: Byte, aacPacketType: Byte)
    | Script

  // ---------- writing ----------

  /** The low 24 bits of an int32. */
  function Low24(t: int): (v: nat)
    ensures v <= 0xFF_FFFF
  {
    t % 0x100_0000
  }

  function SoundFlags(t: Tag): Byte
    requires t.Audio?
  {
    t.soundFormat % 16 * 16 + t.soundRate % 4 * 4 + t.soundSize % 2 * 2 + t.soundType % 2
  }

  function TagData(t: Tag): (b: seq<Byte>)
    ensures |b| <= 5
  {
    match t
    case Video(frameType, codecID, avcPacketType, compositionTime) =>
      var flags: Byte := frameType % 16 * 16 + codecID % 16;
      if codecID == CODEC_AVC then [flags, avcPacketType] + BE(Low24(compositionTime), 3) else [flags]
    case Audio(soundFormat, _, _, _, aacPacketType) =>
      [SoundFlags(t)] + if soundFormat == SOUND_AAC then [aacPacketType] else []
    case Script => []
  }

  method MuxerTagData(t: Tag) returns (header: seq<Byte>)
    ensures header == TagData(t)
  {
    hide TagData;
    var buffer := new Byte[5](_ => 0);
    var n;
    match t {
      case Video(_, _, _, _) => n := PutVideo(buffer, t);
      case Audio(_, _, _, _, _) => n := PutAudio(buffer, t);
      case Script => n := 0; NoHeader();
    }
    return buffer[..n];
  }

  lemma NoHeader()
    ensures TagData(Script) == []
  {
  }

  method PutVideo(buffer: array<Byte>, t: Tag) returns (n: nat)
    requires buffer.Length == 5 && t.Video?
    modifies buffer
    ensures n <= 5 && buffer[..n] == TagData(t)
  {
    hide BE;
    n := 0;
    var flags: Byte := t.frameType * 16 % 256 + t.codecID % 16;
    Put(buffer, n, flags);
    n := n + 1;
    if t.codecID == CODEC_AVC {
      Put(buffer, n, t.avcPacketType);
      n := n + 1;
      Copy(buffer, n, BE(Low24(t.compositionTime), 3));
      n := n + 3;
    }
  }

  method PutAudio(buffer: array<Byte>, t: Tag) returns (n: nat)
    requires buffer.Length == 5 && t.Audio?
    modifies buffer
    ensures n <= 5 && buffer[..n] == TagData(t)
  {
    n := 0;
    Shifted(t.soundFormat, t.soundRate, t.soundSize);
    var flags: Byte := t.soundFormat * 16 % 256 + t.soundRate * 4 % 16 + t.soundSize * 2 % 4 + t.soundType % 2;
    Put(buffer, n, flags);
    n := n + 1;
    if t.soundFormat == SOUND_AAC {
      Put(buffer, n, t.aacPacketType);
      n := n + 1;
    }
  }

  lemma Shifted(format: Byte, rate: Byte, size: Byte)
    ensures format * 16 % 256 == format % 16 * 16 && rate * 4 % 16 == rate % 4 * 4 && size * 2 % 4 == size % 2 * 2
  {
  }

  lemma RawHeader(rate: Byte, size: Byte, kind: Byte)
    ensures TagData(Audio(SOUND_AAC, rate, size, kind, AAC_RAW)) == [160 + rate % 4 * 4 + size % 2 * 2 + kind % 2, 1]
  {
  }

  /** PackAudioData: AAC only, always as raw data. */
  method PackAudioData(soundFormat: Byte, soundRate: Byte, soundSize: Byte, soundType: Byte, src: seq<Byte>)
      returns (r: Option<seq<Byte>>)
    ensures r == if soundFormat != 10 then None
                 else Some([160 + soundRate % 4 * 4 + soundSize % 2 * 2 + soundType % 2, 1] + src)
  {
    RawHeader(soundRate, soundSize, soundType);
    hide TagData;
    if soundFormat != SOUND_AAC { return None; }
    var tagBuffer := MuxerTagData(Audio(soundFormat, soundRate, soundSize, soundType, AAC_RAW));
    var index := 0;
    var buffer := new Byte[|tagBuffer| + |src|];
    Copy(buffer, index, tagBuffer);
    index := index + |tagBuffer|;
    assert buffer[..index] == tagBuffer;
    Copy(buffer, index, src);
    index := index + |src|;
    return Some(buffer[..index]);
  }

  // ---------- reading ----------

  /** A tag and the length of its header. TooShort is the error, PastTheEnd an index out of range. */
  datatype Parsed = Header(tag: Tag, n: nat) | TooShort | PastTheEnd

  function ParseVideoHeader(b: seq<Byte>): Parsed {
    if |b| < 5 then TooShort
    else
      var frameType, codecID := b[0] / 16, b[0] % 16;
      if codecID == CODEC_AVC then Header(Video(frameType, codecID, b[1], U24BE(b[2..])), 5)
      else Header(Video(frameType, codecID, 0, 0), 1)
  }

  function ParseAudioHeader(b: seq<Byte>): Parsed {
    if b == [] then TooShort
    else
      var format, rate, size, kind := b[0] / 16, b[0] / 4 % 4, b[0] / 2 % 2, b[0] % 2;
      if format != SOUND_AAC then Header(Audio(format, rate, size, kind, 0), 1)
      else if |b| < 2 then PastTheEnd
      else Header(Audio(format, rate, size, kind, b[1]), 2)
  }

  // ---------- round trips ----------

  /**
   * The header of a video tag is read back exactly when frame type and codec have four bits, the composition
   * time 24 bits and no sign, and only AVC has a packet type and a composition time.
   */
  lemma VideoRoundTrip(t: Tag, data: seq<Byte>)
    requires t.Video? && |TagData(t) + data| >= 5
    ensures ParseVideoHeader(TagData(t) + data) == Header(t, |TagData(t)|)
       <==> && t.frameType < 16 && t.codecID < 16
            && if t.codecID == CODEC_AVC then 0 <= t.compositionTime <= 0xFF_FFFF
               else t.avcPacketType == 0 && t.compositionTime == 0
  {
    hide BE, U24BE;
    var b := TagData(t) + data;
    Nibbles(t.frameType % 16, t.codecID % 16);
    if t.codecID == CODEC_AVC {
      BE3(Low24(t.compositionTime), data);
      assert b[2..] == BE(Low24(t.compositionTime), 3) + data;
    }
  }

  lemma Nibbles(high: nat, low: nat)
    requires high < 16 && low < 16
    ensures (high * 16 + low) / 16 == high && (high * 16 + low) % 16 == low
  {
  }

  /** That of an audio tag, exactly when every field has its bits and only AAC has a packet type. */
  lemma AudioRoundTrip(t: Tag, data: seq<Byte>)
    requires t.Audio?
    ensures ParseAudioHeader(TagData(t) + data) == Header(t, |TagData(t)|)
       <==> && t.soundFormat < 16 && t.soundRate < 4 && t.soundSize < 2 && t.soundType < 2
            && (t.soundFormat != SOUND_AAC ==> t.aacPacketType == 0)
  {
    SoundFields(t.soundFormat % 16, t.soundRate % 4, t.soundSize % 2, t.soundType % 2);
  }

  lemma SoundFields(format: nat, rate: nat, size: nat, kind: nat)
    requires format < 16 && rate < 4 && size < 2 && kind < 2
    ensures var flags := format * 16 + rate * 4 + size * 2 + kind;
      flags / 16 == format && flags / 4 % 4 == rate && flags / 2 % 2 == size && flags % 2 == kind
  {
  }
}
