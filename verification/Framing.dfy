/** From PackVideoData to the player: which NAL units arrive, for every access unit. */
module Framing {
  import opened Bytes
  import opened Buffers
  import opened AnnexB
  import opened Flv
  import opened FlvTags

  // ---------- length prefixes ----------

  /** Bytes that do not start with a length and as much data. */
  predicate Broken(tail: seq<Byte>) {
    |tail| < 4 || U32BE(tail) > |tail| - 4
  }

  /** On a broken tail the reading loop stops with the units in front of it: under four bytes are left, or an error. */
  lemma {:induction false} UnpackStops(us: seq<seq<Byte>>, tail: seq<Byte>)
    requires Broken(tail) && |Prefixed(us) + tail| < 0x1_0000_0000
    ensures Unpack(Prefixed(us) + tail) == (us, if |tail| < 4 then Drained(|tail|) else BadLength)
    decreases |us|
  {
    hide U32BE;
    if us == [] {
      assert [] + tail == tail;
    } else {
      PrefixedStep(us, tail);
      hide Prefixed;
      UnpackStops(us[1..], tail);
      assert [us[0]] + us[1..] == us;
    }
  }

  lemma UnpackPrefixed(us: seq<seq<Byte>>)
    requires |Prefixed(us)| < 0x1_0000_0000
    ensures Unpack(Prefixed(us)) == (us, Drained(0))
  {
    hide Unpack, Prefixed;
    UnpackStops(us, []);
    assert Prefixed(us) + [] == Prefixed(us);
  }

  lemma {:induction false} DrainedIsPrefixed(data: seq<Byte>)
    requires Unpack(data).1 == Drained(0)
    ensures data == Prefixed(Unpack(data).0)
    decreases |data|
  {
    hide BE;
    if data != [] {
      var n := 4 + U32BE(data);
      var us := Unpack(data[n..]).0;
      DrainedIsPrefixed(data[n..]);
      BE4OfU32BE(data[..4]);
      assert U32BE(data[..4]) == U32BE(data);
      hide U32BE;
      assert ([data[4..n]] + us)[1..] == us;
      InThree(data, n);
    }
  }

  lemma InThree(data: seq<Byte>, n: nat)
    requires 4 <= n <= |data|
    ensures data == data[..4] + data[4..n] + data[n..]
  {
  }

  /** The reading loop ends with nothing left over exactly on the length-prefixed form of what it delivered. */
  lemma UnpackInverts(data: seq<Byte>, us: seq<seq<Byte>>)
    requires |data| < 0x1_0000_0000
    ensures Unpack(data) == (us, Drained(0)) <==> data == Prefixed(us)
  {
    if data == Prefixed(us) {
      UnpackPrefixed(us);
    }
    if Unpack(data) == (us, Drained(0)) {
      DrainedIsPrefixed(data);
    }
  }

  // ---------- one video message ----------

  lemma HeaderRoundTrip(frameType: Byte, codec: Byte, avcPacketType: Byte, data: seq<Byte>)
    requires frameType < 16 && codec < 16 && (codec == VIDEO_H264 || |data| >= 4)
    ensures var b := TagHeader(frameType, codec, avcPacketType) + data;
      && |b| >= 5 && b[HeaderLength(b)..] == data
      && VideoHeaderOf(b) == VideoHeader(frameType, codec, if codec == VIDEO_H264 then avcPacketType else 0, 0)
  {
    hide BE, U24BE;
    var b := TagHeader(frameType, codec, avcPacketType) + data;
    assert b[0] == frameType * 16 + codec;
    if codec == VIDEO_H264 {
      BE3(0, data);
      assert b[2..] == BE(0, 3) + data;
    }
  }

  /** Any message that is no sequence header arrives as the units behind its tag header. */
  lemma PlayedUnits(frameType: Byte, codec: Byte, avcPacketType: Byte, us: seq<seq<Byte>>)
    requires 0 < frameType < 16 && codec < 16 && (codec == VIDEO_H264 || us != [])
    requires codec == VIDEO_H264 && frameType == FRAME_KEY ==> avcPacketType != AVC_SEQHDR
    requires |Prefixed(us)| < 0x1_0000_0000
    ensures var header := VideoHeader(frameType, codec, if codec == VIDEO_H264 then avcPacketType else 0, 0);
      Played(TagHeader(frameType, codec, avcPacketType) + Prefixed(us)) == (Tagged(header, us), Drained(0))
  {
    HeaderRoundTrip(frameType, codec, avcPacketType, Prefixed(us));
    hide TagHeader, VideoHeaderOf, HeaderLength, Prefixed, Unpack, Tagged;
    UnpackPrefixed(us);
  }

  /** The data without a start code of four bytes in front. */
  function Bare(data: seq<Byte>): seq<Byte> {
    if |data| >= 4 && data[..4] == [0, 0, 0, 1] then data[4..] else data
  }

  /** Slices of an IDR picture and parameter sets make a key frame (1), everything else an inter frame (2). */
  function KeyOrInter(unit: seq<Byte>): Byte
    requires unit != []
  {
    if unit[0] % 32 in {5, 7, 8} then 1 else 2
  }

  /** A parameter set in front has the data split into three, anything else goes out whole. */
  function Cut(src: seq<Byte>, spare: seq<Byte>): Split
    requires src != []
  {
    if src[0] % 32 in {7, 8} then ParseNalusSpec(src, spare, 3) else Nalus([src])
  }

  lemma CutIs(data: seq<Byte>, spare: seq<Byte>)
    ensures Stripped(data) == Bare(data)
    ensures data != [] ==> FrameType(data) == KeyOrInter(data) && UnitsOf(data, spare) == Cut(data, spare)
  {
  }

  /** Whatever the data, an H.264 message that is no sequence header arrives as it was split. */
  lemma ArrivesAsSplit(avcPacketType: Byte, data: seq<Byte>, spare: seq<Byte>)
    requires avcPacketType != AVC_SEQHDR && |data| + 12 < 0x1_0000_0000
    ensures var src := Bare(data);
      match PackVideo(VIDEO_H264, avcPacketType, data, spare)
      case InvalidData => src == []
      case Panic => src != [] && Cut(src, spare).OutOfRange?
      case UnsupportedCodec => false
      case Payload(sent) =>
        src != [] && Cut(src, spare).Nalus?
        && Played(sent)
           == (Tagged(VideoHeader(KeyOrInter(src), VIDEO_H264, avcPacketType, 0), Cut(src, spare).units), Drained(0))
  {
    CutIs(data, spare);
    CutIs(Bare(data), spare);
    var src := Stripped(data);
    if src != [] && UnitsOf(src, spare).Nalus? {
      var us := UnitsOf(src, spare).units;
      UnitsFit(src, spare, 3);
      PrefixedLength(us);
      hide Prefixed, ParseNalusSpec, Played, Tagged, TagHeader;
      assert Total([src]) == |src|;
      PlayedUnits(FrameType(src), VIDEO_H264, avcPacketType, us);
    }
  }

  /** The first byte of every payload: frame type and codec. */
  lemma FirstByte(codec: Byte, avcPacketType: Byte, data: seq<Byte>, spare: seq<Byte>)
    ensures var sent := PackVideo(codec, avcPacketType, data, spare);
      sent.Payload? ==>
        && sent.bytes != []
        && (codec == 7 ==> Bare(data) != []
                           && sent.bytes[0] == (if Bare(data)[0] % 32 in {5, 7, 8} then 0x17 else 0x27)
                           && |sent.bytes| >= 5 && sent.bytes[1..5] == [avcPacketType, 0, 0, 0])
        && (codec == 1 ==> sent.bytes[0] == 0x11) && (codec == 2 ==> sent.bytes[0] == 0x12)
        && codec in {1, 2, 7}
  {
    hide Prefixed, ParseNalusSpec;
    CutIs(data, spare);
    CutIs(Bare(data), spare);
    NoTime();
    var sent := PackVideo(codec, avcPacketType, data, spare);
    if sent.Payload? && codec == 7 {
      assert sent.bytes[1..5] == [avcPacketType] + BE(0, 3);
    }
  }

  /**
   * The message a publisher opens a stream with: a key frame of H.264 that is no picture, then a record of version 1
   * for the baseline profile at level 4.0 with four-byte lengths, one sps and one pps. A bare start code counts as
   * an empty set.
   */
  lemma SequenceHeaderInBytes(sps: seq<Byte>, pps: seq<Byte>)
    ensures var s, p := if sps == [0, 0, 0, 1] then [] else sps, if pps == [0, 0, 0, 1] then [] else pps;
      TagHeader(FRAME_KEY, VIDEO_H264, AVC_SEQHDR) + ConfigRecord(sps, pps)
      == [0x17, 0, 0, 0, 0, 1, 66, 0, 40, 0xFF, 0xE1] + (BE(|s|, 2) + s + [1] + BE(|p|, 2) + p)
  {
    NoTime();
    hide BE;
    assert TagHeader(FRAME_KEY, VIDEO_H264, AVC_SEQHDR) == [0x17, 0, 0, 0, 0];
    hide TagHeader;
    var s, p := SameAsCode(sps), SameAsCode(pps);
    RecordPieces(BE(|s|, 2), s, BE(|p|, 2), p);
  }

  lemma RecordPieces(m: seq<Byte>, s: seq<Byte>, n: seq<Byte>, p: seq<Byte>)
    ensures [0x17, 0, 0, 0, 0] + ([1, 66, 0, 40, 0xff, 0xe1] + m + s + [1] + n + p)
         == [0x17, 0, 0, 0, 0, 1, 66, 0, 40, 0xFF, 0xE1] + (m + s + [1] + n + p)
  {
    var fixed: seq<Byte> := [1, 66, 0, 40, 0xff, 0xe1];
    assert fixed + m + s + [1] + n + p == fixed + (m + s + [1] + n + p);
  }

  lemma NoTime()
    ensures BE(Low24(0), 3) == [0, 0, 0]
  {
    assert BE(0, 1) == [0] && BE(0, 2) == [0, 0];
  }

  /** JPEG and H.263 frames arrive whole, as key frames. */
  lemma OtherCodecs(codec: Byte, data: seq<Byte>, spare: seq<Byte>)
    requires (codec == VIDEO_JPEG || codec == VIDEO_H263) && 0 < |data| && |data| + 4 < 0x1_0000_0000
    ensures var sent := PackVideo(codec, 0, data, spare);
      && sent.Payload?
      && Played(sent.bytes) == (Tagged(VideoHeader(FRAME_KEY, codec, 0, 0), [data]), Drained(0))
  {
    PrefixedLength([data]);
    assert Total([data]) == |data|;
    PlayedUnits(FRAME_KEY, codec, 0, [data]);
  }

  /**
   * What the caller of PackVideoData can look at to know whether its units will arrive one by one. spare are
   * the bytes between the length and the capacity of its slice; without any, a last unit that has to be
   * scanned needs four bytes.
   */
  predicate Arrives(us: seq<seq<Byte>>, spare: seq<Byte>)
    requires |us| > 0 && us[0] != []
  {
    if us[0][0] % 32 !in {7, 8} then |us| == 1
    else
      var last := us[|us| - 1];
      |us| == 3 || (|us| < 3 && |last| >= 4) || (|us| == 2 && Covered(last, spare))
  }

  /**
   * An access unit of any length, with a start code of either kind in front or none: the player gets
   * exactly its units, in order, with no residue, if and only if the guard above holds and the code in
   * front, if there is one, has four bytes.
   */
  lemma PublishToPlay(us: seq<seq<Byte>>, codes: seq<bool>, lead: bool, avcPacketType: Byte, spare: seq<Byte>)
    requires |codes| == |us| > 0 && Separable(us, codes)
    requires avcPacketType != AVC_SEQHDR && |Headless(us, codes)| + 16 < 0x1_0000_0000
    ensures var data := if lead then Join(us, codes) else Headless(us, codes);
      var sent := PackVideo(VIDEO_H264, avcPacketType, data, spare);
      Clean(us[0])
      && (sent.Payload?
          && Played(sent.bytes)
             == (Tagged(VideoHeader(KeyOrInter(us[0]), VIDEO_H264, avcPacketType, 0), us), Drained(0))
          <==> Arrives(us, spare) && (lead ==> codes[0]))
  {
    FirstIsClean(us, codes);
    if lead && !codes[0] {
      ShortCodeGoesWhole(us, codes, avcPacketType, spare);
      NotOneUnit(us, codes);
      TaggedDiffer(us, Join(us, codes), VideoHeader(KeyOrInter(us[0]), VIDEO_H264, avcPacketType, 0),
                   VideoHeader(FRAME_INTER, VIDEO_H264, avcPacketType, 0));
    } else {
      hide PackVideo, Played, Tagged;
      var src := Headless(us, codes);
      StrippedJoin(us, codes, lead);
      ArrivesAsSplit(avcPacketType, if lead then Join(us, codes) else src, spare);
      UnitsOfHeadless(us, codes, spare);
      if Cut(src, spare).Nalus? && Cut(src, spare).units != us {
        TaggedInjective(VideoHeader(KeyOrInter(src), VIDEO_H264, avcPacketType, 0), Cut(src, spare).units, us);
      }
    }
  }

  /** Behind a start code of three bytes the whole access unit goes out as one inter frame, start codes and all. */
  lemma ShortCodeGoesWhole(us: seq<seq<Byte>>, codes: seq<bool>, avcPacketType: Byte, spare: seq<Byte>)
    requires |codes| == |us| > 0 && !codes[0]
    requires avcPacketType != AVC_SEQHDR && |Join(us, codes)| + 12 < 0x1_0000_0000
    ensures var sent := PackVideo(VIDEO_H264, avcPacketType, Join(us, codes), spare);
      sent.Payload?
      && Played(sent.bytes)
         == (Tagged(VideoHeader(FRAME_INTER, VIDEO_H264, avcPacketType, 0), [Join(us, codes)]), Drained(0))
  {
    hide PackVideo, Played, Tagged, Headless;
    var data := Join(us, codes);
    assert data == START_CODE_3 + Headless(us, codes);
    assert data[0] == 0 && data[2] == 1;
    ArrivesAsSplit(avcPacketType, data, spare);
  }

  lemma FirstIsClean(us: seq<seq<Byte>>, codes: seq<bool>)
    requires |codes| == |us| > 0 && Separable(us, codes)
    ensures Clean(us[0]) && us[0] != []
  {
    assert Clean(us[0]);
  }

  lemma NotOneUnit(us: seq<seq<Byte>>, codes: seq<bool>)
    requires |codes| == |us| > 0
    ensures |Join(us, codes)| > |us[0]|
  {
  }

  lemma TaggedDiffer(us: seq<seq<Byte>>, data: seq<Byte>, h: VideoHeader, g: VideoHeader)
    requires us != [] && |data| > |us[0]|
    ensures Tagged(h, us) != Tagged(g, [data])
  {
    assert Tagged(h, us)[0].data == us[0] && Tagged(g, [data])[0].data == data;
  }

  lemma TaggedInjective(header: VideoHeader, us: seq<seq<Byte>>, vs: seq<seq<Byte>>)
    ensures Tagged(header, us) == Tagged(header, vs) ==> us == vs
  {
    if Tagged(header, us) == Tagged(header, vs) {
      forall k | 0 <= k < |us| ensures us[k] == vs[k] {
        assert Tagged(header, us)[k] == Tagged(header, vs)[k];
      }
    }
  }

  /** The leading code goes, and nothing else does: a clean unit does not start with one. */
  lemma StrippedJoin(us: seq<seq<Byte>>, codes: seq<bool>, lead: bool)
    requires |codes| == |us| > 0 && Separable(us, codes) && (lead ==> codes[0])
    ensures Clean(us[0])
    ensures Bare(if lead then Join(us, codes) else Headless(us, codes)) == Headless(us, codes)
    ensures Headless(us, codes) != [] && Headless(us, codes)[0] == us[0][0]
  {
    var src := Headless(us, codes);
    assert Clean(us[0]);
    if !lead && |src| >= 4 {
      assert src[0..] == src;
      if |us| == 1 {
        LastPiece(us, codes, 2);
        NoCodeInside(src, us[0], true, [], 0);
      } else {
        SplitStep(us, codes);
        NoCodeInside(src, us[0], codes[1], Headless(us[1..], codes[1..]), 0);
      }
    }
  }

  lemma UnitsOfHeadless(us: seq<seq<Byte>>, codes: seq<bool>, spare: seq<Byte>)
    requires |codes| == |us| > 0 && Separable(us, codes)
    requires Headless(us, codes) != [] && us[0] != [] && Headless(us, codes)[0] == us[0][0]
    ensures var src := Headless(us, codes);
      Cut(src, spare) == Nalus(us) <==> Arrives(us, spare)
  {
    hide ParseNalusSpec, Separable, Join;
    var src := Headless(us, codes);
    if |us| == 1 {
      LastPiece(us, codes, 3);
    }
    if us[0][0] % 32 in {7, 8} {
      if |src| >= 4 {
        SplitInvertsJoin(us, codes, false, spare, 3);
        if |us| <= 3 {
          AllPieces(us, codes);
        }
      } else {
        ShortSource(us, codes, spare);
      }
    }
  }

  lemma AllPieces(us: seq<seq<Byte>>, codes: seq<bool>)
    requires |codes| == |us| && 0 < |us| <= 3
    ensures Pieces(us, codes, 3) == us
  {
    if |us| == 3 {
      var last := us[2..];
      assert last == [us[2]] && last[1..] == [];
      assert Headless(last, codes[2..]) == us[2] + Join(last[1..], codes[2..][1..]);
      assert Headless(last, codes[2..]) == us[2];
      assert Pieces(us, codes, 3) == us[..2] + [us[2]] == us;
    }
  }

  /** Under four bytes in all there is room for one unit only, and ParseNalusN returns none. */
  lemma ShortSource(us: seq<seq<Byte>>, codes: seq<bool>, spare: seq<Byte>)
    requires |codes| == |us| > 0 && Separable(us, codes) && |Headless(us, codes)| < 4
    ensures |us| == 1 && Headless(us, codes) == us[0] && ParseNalusSpec(Headless(us, codes), spare, 3) == Nalus([])
  {
    assert Clean(us[0]);
    if |us| == 1 {
      LastPiece(us, codes, 3);
    } else {
      SplitStep(us, codes);
    }
  }

  // ---------- the sequence header ----------

  predicate Describable(sps: seq<Byte>, pps: seq<Byte>) {
    sps != START_CODE_4 && pps != START_CODE_4 && |sps| < 0x1_0000 && 0 < |pps| < 0x1_0000
  }

  /**
   * ParseAVCSequenceHeader recovers the two sets from the record exactly when both fit a 16-bit
   * length, neither is a bare start code, and the pps is not empty (an empty sps is fine).
   */
  lemma ConfigRoundTrip(sps: seq<Byte>, pps: seq<Byte>)
    ensures ParseConfig(ConfigRecord(sps, pps)) == Config([sps], [pps]) <==> Describable(sps, pps)
  {
    hide ReadSets, ParseConfig, BE, Padded, Rest, FromRecord;
    var s, p := SameAsCode(sps), SameAsCode(pps);
    var e := BE(|p|, 2) + p;
    assert ConfigRecord(sps, pps) == [1, 66, 0, 40, 0xff, 0xe1] + (BE(|s|, 2) + (s + ([1] + e)));
    RecordBody(BE(|s|, 2) + (s + ([1] + e)));
    FromBody(s, p);
  }

  /** The message NewAVCSequenceHeader builds makes the player hand out the sps and then the pps. */
  lemma SequenceHeaderPlays(sps: seq<Byte>, pps: seq<Byte>)
    requires Describable(sps, pps)
    ensures Played(TagHeader(FRAME_KEY, VIDEO_H264, AVC_SEQHDR) + ConfigRecord(sps, pps))
         == (Tagged(VideoHeader(FRAME_KEY, VIDEO_H264, AVC_SEQHDR, 0), [sps, pps]), Drained(0))
  {
    hide ConfigRecord, TagHeader, ParseConfig, VideoHeaderOf, HeaderLength;
    ConfigRoundTrip(sps, pps);
    HeaderRoundTrip(FRAME_KEY, VIDEO_H264, AVC_SEQHDR, ConfigRecord(sps, pps));
    assert [sps] + [pps] == [sps, pps];
  }

  predicate HaveLengths(sets: seq<seq<Byte>>) {
    forall i :: 0 <= i < |sets| ==> 0 < |sets[i]| < 0x1_0000
  }

  /** Sets behind their lengths, as a record has them (ISO/IEC 14496-15, section 5.2.4.1). */
  function SetBytes(sets: seq<seq<Byte>>): seq<Byte>
    requires HaveLengths(sets)
  {
    if sets == [] then [] else [|sets[0]| / 256, |sets[0]| % 256] + (sets[0] + SetBytes(sets[1..]))
  }

  lemma {:induction false} SetsRead(sets: seq<seq<Byte>>, rest: seq<Byte>)
    requires HaveLengths(sets)
    ensures ReadSets(SetBytes(sets) + rest, |sets|) == Some((sets, rest))
    decreases |sets|
  {
    hide Padded, Rest;
    if sets == [] {
      assert [] + rest == rest;
    } else {
      var s, more := sets[0], SetBytes(sets[1..]);
      var head: seq<Byte> := [|s| / 256, |s| % 256];
      SetsRead(sets[1..], rest);
      Regroup4(head, s, more, rest);
      Taken(head, s + (more + rest));
      Taken(s, more + rest);
      assert U16BE(head) == |s|;
      assert [s] + sets[1..] == sets;
    }
  }

  lemma Regroup4(a: seq<Byte>, b: seq<Byte>, c: seq<Byte>, d: seq<Byte>)
    ensures a + (b + c) + d == a + (b + (c + d))
  {
  }

  lemma Taken(a: seq<Byte>, b: seq<Byte>)
    requires a != []
    ensures Padded(a + b, |a|) == a && Rest(a + b, |a|) == b && a + b != []
  {
  }

  /** A record of any encoder: any profile and level, up to 31 sps and up to 255 pps, and anything behind them. */
  function AnyRecord(three: seq<Byte>, lengths: Byte, count: Byte, spss: seq<seq<Byte>>, ppss: seq<seq<Byte>>,
                     rest: seq<Byte>): seq<Byte>
    requires |three| == 3 && HaveLengths(spss) && HaveLengths(ppss) && |ppss| < 256
  {
    [1] + (three + ([lengths] + ([count] + (SetBytes(spss) + ([|ppss|] + (SetBytes(ppss) + rest))))))
  }

  /** All its sets are read in order, and the player hands out the first of each kind. */
  lemma AnyRecordPlays(three: seq<Byte>, lengths: Byte, count: Byte, spss: seq<seq<Byte>>, ppss: seq<seq<Byte>>,
                       rest: seq<Byte>)
    requires |three| == 3 && HaveLengths(spss) && HaveLengths(ppss) && |ppss| < 256 && count % 32 == |spss|
    ensures var data := AnyRecord(three, lengths, count, spss, ppss, rest);
      && ParseConfig(data) == Config(spss, ppss)
      && Played([0x17, 0, 0, 0, 0] + data)
         == (Tagged(VideoHeader(1, 7, 0, 0),
                    (if spss == [] then [] else [spss[0]]) + (if ppss == [] then [] else [ppss[0]])), Drained(0))
  {
    hide ReadSets, Padded, Rest, SetBytes;
    var e := [|ppss| as Byte] + (SetBytes(ppss) + rest);
    SetsRead(spss, e);
    SetsRead(ppss, rest);
    var d := [count] + (SetBytes(spss) + e);
    Taken(three, [lengths] + d);
    Taken([lengths], d);
    assert d[1..] == SetBytes(spss) + e && e[1..] == SetBytes(ppss) + rest;
    var data := AnyRecord(three, lengths, count, spss, ppss, rest);
    assert data[1..] == three + ([lengths] + d);
    HeaderRoundTrip(FRAME_KEY, VIDEO_H264, AVC_SEQHDR, data);
    NoTime();
    assert TagHeader(FRAME_KEY, VIDEO_H264, AVC_SEQHDR) == [0x17, 0, 0, 0, 0];
  }

  /** Past the six fixed bytes. */
  function FromRecord(body: seq<Byte>): Config {
    match ReadSets(body, 1)
    case None => BadConfig
    case Some((spss, e)) =>
      if e == [] then BadConfig
      else
        match ReadSets(e[1..], e[0])
        case None => BadConfig
        case Some((ppss, _)) => Config(spss, ppss)
  }

  lemma RecordBody(body: seq<Byte>)
    requires body != []
    ensures ParseConfig([1, 66, 0, 40, 0xff, 0xe1] + body) == FromRecord(body)
  {
    hide ReadSets;
    var data := [1, 66, 0, 40, 0xff, 0xe1] + body;
    assert Rest(data[1..], 3) == [0xff, 0xe1] + body;
    var d := Rest(Rest(data[1..], 3), 1);
    assert d == [0xe1] + body && d[1..] == body;
  }

  lemma FromBody(s: seq<Byte>, p: seq<Byte>)
    ensures var r := FromRecord(BE(|s|, 2) + (s + ([1] + (BE(|p|, 2) + p))));
      if |s| < 0x1_0000 && 0 < |p| < 0x1_0000 then r == Config([s], [p])
      else if |s| < 0x1_0000 then r.Config? ==> |r.ppss| == 1 && |r.ppss[0]| < |p|
      else r.Config? ==> |r.spss| == 1 && |r.spss[0]| < |s|
  {
    hide ReadSets, BE, Padded, Rest;
    var e := [1] + (BE(|p|, 2) + p);
    ReadOneSet(s, e);
    if |s| < 0x1_0000 {
      assert e[1..] == BE(|p|, 2) + (p + []);
      ReadOneSet(p, []);
    }
  }

  /** One set is read back if its length fits, and anything longer comes back shorter. */
  lemma ReadOneSet(s: seq<Byte>, rest: seq<Byte>)
    ensures var r := ReadSets(BE(|s|, 2) + (s + rest), 1);
      if |s| >= 0x1_0000 then r.Some? ==> |r.value.0| == 1 && |r.value.0[0]| < |s|
      else if s == [] && rest == [] then r == None
      else r == Some(([s], rest))
  {
    var data := BE(|s|, 2) + (s + rest);
    assert Padded(data, 2) == BE(|s|, 2) && Rest(data, 2) == s + rest;
    if |s| < 0x1_0000 {
      BE2(|s|, []);
      assert BE(|s|, 2) + [] == BE(|s|, 2);
      var body := s + rest;
      if body != [] {
        assert Padded(body, |s|) == s && Rest(body, |s|) == rest;
        assert [s] + [] == [s];
        assert ReadSets(rest, 0) == Some(([], rest));
      }
    }
  }
}
