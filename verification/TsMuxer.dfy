/** The Muxer class: it cuts PES packets into TS packets through a reused 188-byte buffer. */
module TsMuxer {
  import opened Bytes
  import opened Writers
  import opened TsFormat
  import Crc32

  class PesHeaderBuffer {
    var len: Byte
    var data: array<Byte>

    constructor ()
      ensures data.Length == PACKET_LEN && fresh(data)
    {
      len := 0;
      data := new Byte[188](_ => 0);
    }

    /** writeTs: fb is the prefix, ts the 64-bit time stamp. */
    method WriteTs(i: nat, fb: nat, ts: int)
      requires fb < 16 && i + 5 <= data.Length
      modifies data
      ensures data[..] == old(data[..i]) + TsBytes(fb, Field(ts)) + old(data[i + 5..])
    {
      var t := ts;
      if t > 0x1_FFFF_FFFF {
        t := t - 0x1_FFFF_FFFF;
      }
      var val := fb * 16 + t / 0x4000_0000 % 8 * 2 + 1;
      data[i] := val;
      val := t / 0x8000 % 0x8000 * 2 + 1;
      data[i + 1], data[i + 2] := val / 256, val % 256;
      val := t % 0x8000 * 2 + 1;
      data[i + 3], data[i + 4] := val / 256, val % 256;
      FieldBits(t);
      assert data[i..i + 5] == TsBytes(fb, Field(ts));
      assert data[..] == data[..i] + data[i..i + 5] + data[i + 5..];
    }

    /** The shifts and masks of writeTs pick the same bits from the time stamp as from its low 33 bits. */
    static lemma FieldBits(t: int)
      ensures var f := t % 0x2_0000_0000;
              t / 0x4000_0000 % 8 == f / 0x4000_0000 && t / 0x8000 % 0x8000 == f / 0x8000 % 0x8000
              && t % 0x8000 == f % 0x8000
    {
      var q, f := t / 0x2_0000_0000, t % 0x2_0000_0000;
      assert t == q * 0x2_0000_0000 + f;
      assert t / 0x4000_0000 == q * 8 + f / 0x4000_0000;
      assert t / 0x8000 == q * 0x4_0000 + f / 0x8000;
    }

    method Packet(p: Frame, pts: int, dts: int)
      requires data.Length == PACKET_LEN
      modifies this`len, data
      ensures len == |PesHeaderOf(p, pts, dts)| && data[..len] == PesHeaderOf(p, pts, dts)
    {
      hide TsBytes, Field;
      var sid: Byte := 0xC0;
      if p.packetType == 1 {
        sid := 0xE0;
      }
      var flag, headerSize := 0x80, 5;
      if p.packetType == 1 && pts != dts {
        flag, headerSize := 0xC0, 10;
      }
      var size := |p.data| + headerSize + 3;
      if size > 0xFFFF {
        size := 0;
      }
      data[0], data[1], data[2], data[3] := 0x00, 0x00, 0x01, sid;
      data[4], data[5] := size / 256, size % 256;
      data[6], data[7], data[8] := 0x80, flag, headerSize;
      ghost var fixed := data[..9];
      assert fixed == FixedHeader(p, p.packetType == 1 && pts != dts);
      hide FixedHeader;
      WriteTs(9, flag / 64, pts);
      assert data[..14] == fixed + TsBytes(flag / 64, Field(pts));
      var i := 14;
      if p.packetType == 1 && pts != dts {
        ghost var before := data[..14];
        WriteTs(14, 1, dts);
        assert data[..19] == before + TsBytes(1, Field(dts));
        i := 19;
      }
      len := i;
    }
  }

  class Muxer {
    var videoCc: Byte
    var audioCc: Byte
    var patCc: Byte
    var pmtCc: Byte
    var pat: array<Byte>
    var pmt: array<Byte>
    var tsPacket: array<Byte>

    constructor ()
      ensures Valid() && videoCc == audioCc == patCc == pmtCc == 0 && fresh(tsPacket) && fresh(pat) && fresh(pmt)
    {
      videoCc, audioCc, patCc, pmtCc := 0, 0, 0, 0;
      pat := new Byte[188](_ => 0);
      pmt := new Byte[188](_ => 0);
      tsPacket := new Byte[188](_ => 0);
    }

    predicate Valid()
      reads this
    {
      tsPacket.Length == pat.Length == pmt.Length == PACKET_LEN
    }

    function Cc(p: Frame): Byte
      reads this
    {
      if IsVideo(p) then videoCc else audioCc
    }

    /** adaptationBufInit on tsPacket[i..]. */
    method AdaptationBufInit(i: nat, remainBytes: Byte)
      requires Valid() && 1 <= remainBytes <= DATA_LEN && i + remainBytes <= PACKET_LEN
      modifies tsPacket
      ensures tsPacket[..i + remainBytes] == old(tsPacket[..i]) + Stuffing(remainBytes)
    {
      ghost var before := tsPacket[..];
      tsPacket[i] := remainBytes - 1;
      if remainBytes != 1 {
        tsPacket[i + 1] := 0x00;
        for k := i + 2 to tsPacket.Length
          invariant forall j | 0 <= j < i :: tsPacket[j] == before[j]
          invariant tsPacket[i] == remainBytes - 1 && tsPacket[i + 1] == 0
          invariant forall j | i + 2 <= j < k :: tsPacket[j] == 0xFF
        {
          tsPacket[k] := 0xFF;
        }
      }
      Stuffed(tsPacket[..i + remainBytes], before[..i], remainBytes);
    }

    static lemma Stuffed(b: seq<Byte>, before: seq<Byte>, n: nat)
      requires 1 <= n <= DATA_LEN && |b| == |before| + n && b[..|before|] == before
      requires b[|before|] == n - 1 && (n > 1 ==> b[|before| + 1] == 0)
      requires forall j | |before| + 2 <= j < |b| :: b[j] == 0xFF
      ensures b == before + Stuffing(n)
    {
      assert b == before + b[|before|..];
      assert b[|before|..] == Stuffing(n);
    }

    method CountUp(p: Frame)
      modifies this`videoCc, this`audioCc
      ensures Cc(p) == NextCc(old(Cc(p)))
      ensures if IsVideo(p) then audioCc == old(audioCc) else videoCc == old(videoCc)
    {
      if p.packetType == 1 {
        videoCc := (videoCc + 1) % 256;
        if videoCc > 0xF {
          videoCc := 0;
        }
      } else {
        audioCc := (audioCc + 1) % 256;
        if audioCc > 0xF {
          audioCc := 0;
        }
      }
    }

    /** copy(tsPacket[i..], src). */
    method Copy(i: nat, src: seq<Byte>)
      requires Valid() && i + |src| <= PACKET_LEN
      modifies tsPacket
      ensures tsPacket[..i + |src|] == old(tsPacket[..i]) + src
    {
      forall k | 0 <= k < |src| { tsPacket[i + k] := src[k]; }
    }

    method PacketHeader(p: Frame, pid: nat, first: bool)
      requires Valid() && pid < 0x2000 && Cc(p) <= 15
      modifies tsPacket
      ensures tsPacket[..4] == [0x47, (if first then 0x40 else 0) + pid / 256, pid % 256, 0x10 + Cc(p)]
    {
      tsPacket[0] := 0x47;
      tsPacket[1] := pid / 256;
      if first {
        tsPacket[1] := tsPacket[1] + 0x40;
      }
      tsPacket[2] := pid % 256;
      if p.packetType == 1 {
        tsPacket[3] := 0x10 + videoCc % 16;
      } else {
        tsPacket[3] := 0x10 + audioCc % 16;
      }
    }

    /** The start of a packet: header and, if the data does not fill the packet, adaptation field. */
    method StartPacket(p: Frame, pid: nat, first: bool, packetBytesLen: nat) returns (i: Byte, dataLen: Byte)
      requires Valid() && pid < 0x2000 && packetBytesLen > 0
      modifies this`videoCc, this`audioCc, tsPacket
      ensures Cc(p) == NextCc(old(Cc(p)))
      ensures if IsVideo(p) then audioCc == old(audioCc) else videoCc == old(videoCc)
      ensures dataLen == Min(DATA_LEN, packetBytesLen) && i == PACKET_LEN - dataLen
      ensures tsPacket[..i] == Lead(pid, Cc(p), first, dataLen)
    {
      CountUp(p);
      PacketHeader(p, pid, first);
      i := 4;
      if packetBytesLen >= 184 {
        dataLen := 184;
        if first {
          dataLen := dataLen - (i - 4);
        }
      } else {
        tsPacket[3] := tsPacket[3] + 0x20;
        dataLen := packetBytesLen;
        var remainBytes: Byte := if first then 184 - dataLen - (i - 4) else 184 - dataLen;
        ghost var head := tsPacket[..4];
        AdaptationBufInit(i, remainBytes);
        i := i + remainBytes;
      }
    }

    /** What is left of the PES header goes in front of the data. */
    method FillHeader(first: bool, pes: seq<Byte>, pesIndex: nat, i: nat, dataLen: nat) returns (copied: nat)
      requires Valid() && pesIndex <= |pes| <= 19 && i + dataLen == PACKET_LEN && dataLen > 0
      requires |pes| - pesIndex <= dataLen && (first || pesIndex == |pes|)
      modifies tsPacket
      ensures copied == |pes| - pesIndex
      ensures tsPacket[..i + copied] == old(tsPacket[..i]) + pes[pesIndex..]
    {
      var pesHeaderLen: Byte := |pes| - pesIndex;
      copied := 0;
      if first && i < 188 && pesHeaderLen > 0 {
        var tmpLen: Byte := 188 - i;
        if pesHeaderLen <= tmpLen {
          tmpLen := pesHeaderLen;
        }
        assert pes[pesIndex..pesIndex + tmpLen] == pes[pesIndex..];
        Copy(i, pes[pesIndex..pesIndex + tmpLen]);
        copied := tmpLen;
      } else {
        assert pes[pesIndex..] == [] && tsPacket[..i] + [] == tsPacket[..i];
      }
    }

    /** One turn of the loop in Mux, up to the write. */
    method FillPacket(p: Frame, pid: nat, first: bool, pes: seq<Byte>, pesIndex: nat, wBytes: nat, packetBytesLen: nat)
      returns (pesIndex': nat, wBytes': nat, packetBytesLen': nat)
      requires Valid() && pid < 0x2000 && pesIndex <= |pes| <= 19 && wBytes <= |p.data|
      requires packetBytesLen == |pes| - pesIndex + |p.data| - wBytes > 0 && (first || pesIndex == |pes|)
      modifies this`videoCc, this`audioCc, tsPacket
      ensures Cc(p) == NextCc(old(Cc(p)))
      ensures if IsVideo(p) then audioCc == old(audioCc) else videoCc == old(videoCc)
      ensures wBytes <= wBytes' <= |p.data| && pesIndex' == |pes|
      ensures packetBytesLen' == |p.data| - wBytes'
      ensures var n := Min(DATA_LEN, packetBytesLen);
              var bytes := pes[pesIndex..] + p.data[wBytes..];
              tsPacket[..] == TsPacket(pid, Cc(p), first, bytes[..n]) && bytes[n..] == p.data[wBytes'..]
    {
      hide Lead, Stuffing, TsPacket, NextCc;
      var i, dataLen := StartPacket(p, pid, first, packetBytesLen);
      ghost var lead, n := tsPacket[..i], dataLen;
      var copied := FillHeader(first, pes, pesIndex, i, dataLen);
      i := i + copied;
      dataLen := dataLen - copied;
      pesIndex', wBytes', packetBytesLen' := pesIndex + copied, wBytes, packetBytesLen - copied;
      assert tsPacket[..i] == lead + pes[pesIndex..];
      if i < 188 {
        var tmpLen: Byte := 188 - i;
        if tmpLen <= dataLen {
          dataLen := tmpLen;
        }
        Copy(i, p.data[wBytes..wBytes + dataLen]);
        wBytes' := wBytes + dataLen;
        packetBytesLen' := packetBytesLen' - dataLen;
      }
      assert tsPacket[..] == tsPacket[..188];
      LeadThenData(pid, Cc(p), first, pes[pesIndex..], p.data[wBytes..], n, wBytes' - wBytes);
      assert p.data[wBytes..][..wBytes' - wBytes] == p.data[wBytes..wBytes'];
      assert p.data[wBytes..][wBytes' - wBytes..] == p.data[wBytes'..];
    }

    /** Whatever is left in the buffer from before, the packets written are those of the PES packet. */
    method Mux(p: Frame, w: Writer?)
      requires Valid()
      modifies this`videoCc, this`audioCc, tsPacket, w
      ensures Cc(p) == CcAfter(old(Cc(p)), PesPacket(p))
      ensures if IsVideo(p) then audioCc == old(audioCc) else videoCc == old(videoCc)
      ensures w != null ==> w.output == old(w.output) + Concat(Packets(Pid(p), old(Cc(p)), true, PesPacket(p)))
    {
      hide TsPacket, PesHeaderOf, Packets, CcAfter, Concat, NextCc;
      var pid := 0x101;
      var dts := p.timeStamp * 90;
      var pts := dts;
      if p.packetType == 1 {
        pid := 0x100;
        pts := dts + p.compositionTime * 90;
      }
      var pes := new PesHeaderBuffer();
      pes.Packet(p, pts, dts);
      var header := pes.data[..pes.len];
      var first := true;
      var wBytes: nat, pesIndex: nat := 0, 0;
      var packetBytesLen := |p.data| + pes.len as int;
      ghost var left := header + p.data;
      ghost var cc0 := Cc(p);
      while packetBytesLen > 0
        invariant Valid() && pesIndex <= |header| <= 19 && wBytes <= |p.data| && header == PesHeader(p)
        invariant left == header[pesIndex..] + p.data[wBytes..] && packetBytesLen == |left|
        invariant first || pesIndex == |header|
        invariant if IsVideo(p) then audioCc == old(audioCc) else videoCc == old(videoCc)
        invariant CcAfter(Cc(p), left) == CcAfter(cc0, PesPacket(p))
        invariant w != null ==> w.output + Concat(Packets(pid, Cc(p), first, left)) ==
                                old(w.output) + Concat(Packets(pid, cc0, true, PesPacket(p)))
      {
        ghost var cc := Cc(p);
        PacketsStep(pid, cc, first, left, if w != null then w.output else []);
        pesIndex, wBytes, packetBytesLen := FillPacket(p, pid, first, header, pesIndex, wBytes, packetBytesLen);
        if w != null {
          w.Write(tsPacket[..]);
        }
        left := left[Min(DATA_LEN, |left|)..];
        first := false;
      }
      NothingLeft(pid, Cc(p), first);
    }

    static lemma NothingLeft(pid: nat, cc: Byte, first: bool)
      requires pid < 0x2000
      ensures Concat(Packets(pid, cc, first, [])) == [] && CcAfter(cc, []) == cc
    {}

    static lemma PacketsStep(pid: nat, cc: Byte, first: bool, left: seq<Byte>, out: seq<Byte>)
      requires pid < 0x2000 && left != []
      ensures var n := Min(DATA_LEN, |left|);
              && CcAfter(cc, left) == CcAfter(NextCc(cc), left[n..])
              && out + TsPacket(pid, NextCc(cc), first, left[..n])
                 + Concat(Packets(pid, NextCc(cc), false, left[n..])) ==
                 out + Concat(Packets(pid, cc, first, left))
    {
      hide TsPacket;
      var n := Min(DATA_LEN, |left|);
      var b, tail := TsPacket(pid, NextCc(cc), first, left[..n]), Packets(pid, NextCc(cc), false, left[n..]);
      assert ([b] + tail)[1..] == tail;
    }

    /** The program association table; its counter runs from 0 to 15. */
    method PAT() returns (b: seq<Byte>)
      requires Valid()
      modifies this`patCc, pat
      ensures var cc := if old(patCc) > 15 then 0 else old(patCc);
              b == PsiPacket(PAT_PID, cc, PAT_SECTION) && patCc == cc + 1
      ensures b == pat[..]
    {
      hide CrcBytes;
      if patCc > 0xF {
        patCc := 0;
      }
      var tsHeader: seq<Byte> := [0x47, 0x40, 0x00, 0x10 + patCc % 16, 0x00];
      patCc := patCc + 1;
      FillPsi(pat, tsHeader, PAT_SECTION);
      b := pat[..];
    }

    /** The section of the program map table, but for its CRC. */
    static method BuildPmt(soundFormat: Byte, hasVideo: bool) returns (pmtHeader: seq<Byte>, progInfo: seq<Byte>)
      ensures pmtHeader + progInfo == PmtSection(soundFormat, hasVideo)
    {
      pmtHeader := [0x02, 0xB0, 0xFF, 0x00, 0x01, 0xC1, 0x00, 0x00, 0xE1, 0x00, 0xF0, 0x00];
      if !hasVideo {
        pmtHeader := pmtHeader[9 := 0x01];
        progInfo := [0x0F, 0xE1, 0x01, 0xF0, 0x00];
      } else {
        progInfo := [0x1B, 0xE1, 0x00, 0xF0, 0x00, 0x0F, 0xE1, 0x01, 0xF0, 0x00];
      }
      pmtHeader := pmtHeader[2 := |progInfo| + 9 + 4];
      if soundFormat == 2 || soundFormat == 14 {
        if hasVideo {
          progInfo := progInfo[5 := 0x4];
        } else {
          progInfo := progInfo[0 := 0x4];
        }
      }
    }

    /** The program map table. */
    method PMT(soundFormat: Byte, hasVideo: bool) returns (b: seq<Byte>)
      requires Valid()
      modifies this`pmtCc, pmt
      ensures var cc := if old(pmtCc) > 15 then 0 else old(pmtCc);
              b == PsiPacket(PMT_PID, cc, PmtSection(soundFormat, hasVideo)) && pmtCc == cc + 1
      ensures b == pmt[..]
    {
      hide CrcBytes;
      var pmtHeader, progInfo := BuildPmt(soundFormat, hasVideo);
      if pmtCc > 0xF {
        pmtCc := 0;
      }
      var tsHeader: seq<Byte> := [0x47, 0x50, 0x01, 0x10 + pmtCc % 16, 0x00];
      pmtCc := pmtCc + 1;
      FillPsi(pmt, tsHeader, pmtHeader + progInfo);
      b := pmt[..];
    }

    /** Header, section, its CRC, and 0xFF to the end. */
    static method FillPsi(buf: array<Byte>, tsHeader: seq<Byte>, section: seq<Byte>)
      requires buf.Length == PACKET_LEN && |tsHeader| == 5 && |section| <= 179
      modifies buf
      ensures buf[..] == tsHeader + section + CrcBytes(section) + seq(179 - |section|, _ => 0xFF)
    {
      hide Crc32.ByteAt, Crc32.BitwiseCrc;
      var i := 5 + |section|;
      var crc32Value := Crc32.GenCrc32(Bits(section));
      forall k | 0 <= k < 5 { buf[k] := tsHeader[k]; }
      forall k | 0 <= k < |section| { buf[5 + k] := section[k]; }
      var crc := Octets(crc32Value);
      forall k | 0 <= k < 4 { buf[i + k] := crc[k]; }
      i := i + 4;
      ghost var done := buf[..i];
      assert done == tsHeader + section + crc;
      var remainByte := 188 - i;
      for j := 0 to remainByte
        invariant buf[..i] == done && forall k | i <= k < i + j :: buf[k] == 0xFF
      {
        buf[i + j] := 0xFF;
      }
      assert buf[..] == buf[..i] + buf[i..];
      assert buf[i..] == seq(179 - |section|, _ => 0xFF);
    }

    /** The first bytes of a packet that carries n bytes of data. */
    static function Lead(pid: nat, cc: Byte, first: bool, n: nat): (b: seq<Byte>)
      requires pid < 0x2000 && cc <= 15 && n <= DATA_LEN
      ensures |b| == PACKET_LEN - n
    {
      [0x47, (if first then 0x40 else 0) + pid / 256, pid % 256, (if n < DATA_LEN then 0x30 else 0x10) + cc]
      + Stuffing(DATA_LEN - n)
    }

    static lemma LeadThenData(pid: nat, cc: Byte, first: bool, a: seq<Byte>, b: seq<Byte>, n: nat, k: nat)
      requires pid < 0x2000 && cc <= 15 && n <= DATA_LEN && k <= |b| && n == |a| + k
      ensures Lead(pid, cc, first, n) + a + b[..k] == TsPacket(pid, cc, first, (a + b)[..n])
      ensures (a + b)[n..] == b[k..]
    {
      assert (a + b)[..n] == a + b[..k];
    }
  }
}
