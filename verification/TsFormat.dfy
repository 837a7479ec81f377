/** MPEG-TS packets and PES packets as the muxer lays them out (ISO/IEC 13818-1, sections 2.4.3.2 to 2.4.3.7). */
module TsFormat {
  import opened Bytes
  import opened Crc32

  const PACKET_LEN: nat := 188
  const DATA_LEN: nat := 184
  const VIDEO_PID: nat := 0x100
  const AUDIO_PID: nat := 0x101
  const VIDEO_SID: Byte := 0xE0
  const AUDIO_SID: Byte := 0xC0
  const PACKET_TYPE_VIDEO: U32 := 1

  /** What Mux takes of an av.Packet. */
  datatype Frame = Frame(packetType: U32, timeStamp: U32, compositionTime: int, data: seq<Byte>)

  predicate IsVideo(p: Frame) { p.packetType == PACKET_TYPE_VIDEO }

  function Pid(p: Frame): nat { if IsVideo(p) then VIDEO_PID else AUDIO_PID }

  function Sid(p: Frame): Byte { if IsVideo(p) then VIDEO_SID else AUDIO_SID }

  function Dts(p: Frame): int { p.timeStamp * 90 }

  function Pts(p: Frame): int { if IsVideo(p) then Dts(p) + p.compositionTime * 90 else Dts(p) }

  // ---------- PES header ----------

  /** The 33 bits of a time stamp that reach the wire. */
  function Field(ts: int): (f: nat)
    ensures f < 0x2_0000_0000
  {
    (if ts > 0x1_FFFF_FFFF then ts - 0x1_FFFF_FFFF else ts) % 0x2_0000_0000
  }

  /** Five bytes: four prefix bits and the 33 bits in groups of 3, 15 and 15, each followed by a marker bit. */
  function TsBytes(prefix: nat, f: nat): (b: seq<Byte>)
    requires prefix < 16 && f < 0x2_0000_0000
    ensures |b| == 5
  {
    var mid, low := f / 0x8000 % 0x8000 * 2 + 1, f % 0x8000 * 2 + 1;
    [prefix * 16 + f / 0x4000_0000 * 2 + 1, mid / 256, mid % 256, low / 256, low % 256]
  }

  /** Start code, stream id, length, flags and the length of what follows. */
  function FixedHeader(p: Frame, both: bool): (h: seq<Byte>)
    ensures |h| == 9
  {
    var headerSize := if both then 10 else 5;
    var whole := |p.data| + headerSize + 3;
    var size := if whole > 0xFFFF then 0 else whole;
    [0, 0, 1, Sid(p), size / 256, size % 256, 0x80, if both then 0xC0 else 0x80, headerSize]
  }

  /** The header for any pair of times; a DTS is written for a video frame whose times differ. */
  function PesHeaderOf(p: Frame, pts: int, dts: int): (h: seq<Byte>)
    ensures |h| == if IsVideo(p) && pts != dts then 19 else 14
  {
    var both := IsVideo(p) && pts != dts;
    FixedHeader(p, both) + TsBytes(if both then 3 else 2, Field(pts))
    + (if both then TsBytes(1, Field(dts)) else [])
  }

  function PesHeader(p: Frame): (h: seq<Byte>)
    ensures |h| == 14 || |h| == 19
  {
    PesHeaderOf(p, Pts(p), Dts(p))
  }

  function PesPacket(p: Frame): seq<Byte> { PesHeader(p) + p.data }

  // ---------- TS packets ----------

  function NextCc(cc: Byte): (c: Byte)
    ensures c <= 15
  {
    if (cc + 1) % 256 > 15 then 0 else (cc + 1) % 256
  }

  /** The adaptation field that fills n bytes. */
  function Stuffing(n: nat): (s: seq<Byte>)
    requires n <= DATA_LEN
    ensures |s| == n
  {
    if n == 0 then [] else if n == 1 then [0] else [n - 1, 0] + seq(n - 2, _ => 0xFF)
  }

  function TsPacket(pid: nat, cc: Byte, first: bool, payload: seq<Byte>): (b: seq<Byte>)
    requires pid < 0x2000 && cc <= 15 && |payload| <= DATA_LEN
    ensures |b| == PACKET_LEN
  {
    [0x47, (if first then 0x40 else 0) + pid / 256, pid % 256, (if |payload| < DATA_LEN then 0x30 else 0x10) + cc]
    + Stuffing(DATA_LEN - |payload|) + payload
  }

  /** The packets that carry the bytes; cc is the counter before the first of them. */
  function Packets(pid: nat, cc: Byte, first: bool, bytes: seq<Byte>): (r: seq<seq<Byte>>)
    requires pid < 0x2000
    ensures forall b | b in r :: |b| == PACKET_LEN
    decreases |bytes|
  {
    if bytes == [] then []
    else
      var n := Min(DATA_LEN, |bytes|);
      [TsPacket(pid, NextCc(cc), first, bytes[..n])] + Packets(pid, NextCc(cc), false, bytes[n..])
  }

  function CcAfter(cc: Byte, bytes: seq<Byte>): Byte
    decreases |bytes|
  {
    if bytes == [] then cc else CcAfter(NextCc(cc), bytes[Min(DATA_LEN, |bytes|)..])
  }

  function Concat(parts: seq<seq<Byte>>): seq<Byte> {
    if parts == [] then [] else parts[0] + Concat(parts[1..])
  }

  // ---------- program specific information ----------

  function Bits(s: seq<Byte>): (b: seq<bv8>)
    ensures |b| == |s|
  {
    seq(|s|, i requires 0 <= i < |s| => s[i] as bv8)
  }

  /** The CRC of a section as the four bytes that follow it. */
  function CrcBytes(section: seq<Byte>): seq<Byte> {
    Octets(BitwiseCrc(Bits(section)))
  }

  function Octets(w: bv32): seq<Byte> {
    [ByteAt(w, 0) as int, ByteAt(w, 1) as int, ByteAt(w, 2) as int, ByteAt(w, 3) as int]
  }

  /** A packet that holds one section from its start: the counter is cc, the pointer field 0. */
  function PsiPacket(pid: nat, cc: Byte, section: seq<Byte>): seq<Byte>
    requires pid < 0x2000 && cc <= 15 && |section| <= 179
  {
    [0x47, 0x40 + pid / 256, pid % 256, 0x10 + cc, 0x00] + section + CrcBytes(section) + seq(179 - |section|, _ => 0xFF)
  }

  const PAT_PID: nat := 0
  const PMT_PID: nat := 0x1001

  /** One program, number 1, whose map is on PMT_PID. */
  const PAT_SECTION: seq<Byte> := [0x00, 0xB0, 0x0D, 0x00, 0x01, 0xC1, 0x00, 0x00, 0x00, 0x01, 0xF0, 0x01]

  /** The streams of the program: H.264 if there is video, and AAC (0x0F) or MPEG audio (0x04). */
  function ProgramInfo(soundFormat: Byte, hasVideo: bool): seq<Byte> {
    (if hasVideo then [0x1B, 0xE1, 0x00, 0xF0, 0x00] else [])
    + [if soundFormat == 2 || soundFormat == 14 then 0x04 else 0x0F, 0xE1, 0x01, 0xF0, 0x00]
  }

  function PmtSection(soundFormat: Byte, hasVideo: bool): seq<Byte> {
    var info := ProgramInfo(soundFormat, hasVideo);
    [0x02, 0xB0, |info| + 9 + 4, 0x00, 0x01, 0xC1, 0x00, 0x00, 0xE1, if hasVideo then 0x00 else 0x01, 0xF0, 0x00] + info
  }

  lemma OctetsAreBytes(w: bv32)
    ensures Bits(Octets(w)) == WordBytes(w)
  {
    hide ByteAt;
  }

  /** A section and the bytes that follow it check to zero exactly when those bytes are its CRC. */
  lemma PsiChecks(section: seq<Byte>, w: bv32)
    ensures BitwiseCrc(Bits(section + Octets(w))) == 0 <==> Octets(w) == CrcBytes(section)
  {
    hide ByteAt, Remainder;
    assert Bits(section + Octets(w)) == Bits(section) + Bits(Octets(w));
    OctetsAreBytes(w);
    OctetsAreBytes(BitwiseCrc(Bits(section)));
    SectionChecks(Bits(section), w);
    SectionChecks(Bits(section), BitwiseCrc(Bits(section)));
  }

  /** The sections of PAT and PMT, taken out of their packets by their own length field, check to zero. */
  lemma PsiSectionsCheck(pid: nat, cc: Byte, section: seq<Byte>)
    requires pid < 0x2000 && cc <= 15
    requires section == PAT_SECTION || exists f: Byte, v :: section == PmtSection(f, v)
    ensures |section| <= 179
    ensures var b := PsiPacket(pid, cc, section);
            && |b| == PACKET_LEN && b[4] == 0 && SectionEnd(b) <= PACKET_LEN
            && b[5..SectionEnd(b)] == section + CrcBytes(section)
            && BitwiseCrc(Bits(b[5..SectionEnd(b)])) == 0
  {
    hide CrcBytes, BitwiseCrc;
    var b := PsiPacket(pid, cc, section);
    CrcIsOctets(section);
    assert section == b[5..5 + |section|];
    SectionLength(pid, cc, section);
    assert b[5..SectionEnd(b)] == section + CrcBytes(section);
  }

  lemma SectionLength(pid: nat, cc: Byte, section: seq<Byte>)
    requires pid < 0x2000 && cc <= 15
    requires section == PAT_SECTION || exists f: Byte, v :: section == PmtSection(f, v)
    ensures |section| <= 179 && SectionEnd(PsiPacket(pid, cc, section)) == 5 + |section| + 4
  {
    hide CrcBytes;
  }

  /** Where the section ends by its own length field, CRC included. */
  function SectionEnd(b: seq<Byte>): (end: nat)
    requires |b| >= 8
    ensures end >= 8
  {
    8 + b[6] as int % 16 * 256 + b[7]
  }

  lemma CrcIsOctets(section: seq<Byte>)
    ensures |CrcBytes(section)| == 4 && BitwiseCrc(Bits(section + CrcBytes(section))) == 0
  {
    PsiChecks(section, BitwiseCrc(Bits(section)));
  }
}
