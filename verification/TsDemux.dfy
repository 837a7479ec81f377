/** A demultiplexer written from the standard, and the proof that it undoes the muxer over whole runs. */
module TsDemux {
  import opened Bytes
  import opened Crc32
  import opened TsFormat

  // ---------- the demultiplexer ----------

  datatype Packet = Packet(pid: nat, start: bool, cc: nat, payload: seq<Byte>)

  /** An adaptation field up to byte from that only fills up: no flags, and stuffing bytes. */
  predicate Stuffed(b: seq<Byte>, from: nat)
    requires 4 <= from <= |b|
  {
    from > 5 ==> b[5] == 0 && forall i :: 6 <= i < from ==> b[i] == 0xFF
  }

  /**
   * A transport packet: sync byte, no error, no scrambling, PID, counter, and the payload after the adaptation field
   * if there is one.
   */
  function ParsePacket(b: seq<Byte>): Option<Packet> {
    if |b| != 188 || b[0] != 0x47 || b[1] >= 0x80 || b[3] / 64 != 0 || b[3] / 16 % 2 == 0 then None
    else
      var from := if b[3] / 32 % 2 == 1 then 5 + b[4] as int else 4;
      if from > 188 || !Stuffed(b, from) then None
      else Some(Packet(b[1] as int % 32 * 256 + b[2], b[1] / 64 % 2 == 1, b[3] % 16, b[from..]))
  }

  function ParseAll(packets: seq<seq<Byte>>): Option<seq<Packet>> {
    if packets == [] then Some([])
    else
      match (ParsePacket(packets[0]), ParseAll(packets[1..]))
      case (Some(p), Some(ps)) => Some([p] + ps)
      case _ => None
  }

  /** A byte stream cut into packets. */
  function Cut(bytes: seq<Byte>): seq<seq<Byte>> {
    if |bytes| < PACKET_LEN then [] else [bytes[..PACKET_LEN]] + Cut(bytes[PACKET_LEN..])
  }

  function OnPid(packets: seq<Packet>, pid: nat): seq<Packet> {
    if packets == [] then []
    else (if packets[0].pid == pid then [packets[0]] else []) + OnPid(packets[1..], pid)
  }

  /** The units of one PID: each starts where the start indicator is set. Payloads before the first are dropped. */
  function Units(packets: seq<Packet>): seq<seq<Byte>>
    decreases |packets|
  {
    if packets == [] then []
    else
      var (tail, rest) := Continuation(packets[1..]);
      if packets[0].start then [packets[0].payload + tail] + Units(rest) else Units(packets[1..])
  }

  function Continuation(packets: seq<Packet>): (r: (seq<Byte>, seq<Packet>))
    ensures |r.1| <= |packets|
  {
    if packets == [] || packets[0].start then ([], packets)
    else
      var r := Continuation(packets[1..]);
      (packets[0].payload + r.0, r.1)
  }

  datatype Pes = Pes(sid: Byte, pts: nat, dts: nat, data: seq<Byte>)

  /** 33 bits out of five bytes. */
  function ParseTs(b: seq<Byte>): nat
    requires |b| >= 5
  {
    b[0] / 2 % 8 * 0x4000_0000 + (b[1] as int * 256 + b[2]) / 2 * 0x8000 + (b[3] as int * 256 + b[4]) / 2
  }

  /** The four bits in front of a time stamp, and a one behind each group of its bits. */
  predicate Marked(b: seq<Byte>, prefix: nat)
    requires |b| >= 5
  {
    b[0] / 16 == prefix && b[0] % 2 == 1 && b[2] % 2 == 1 && b[4] % 2 == 1
  }

  /** PES_packet_length: the bytes after the field, or 0 if their number does not fit. */
  predicate LengthIs(b: seq<Byte>)
    requires |b| >= 6
  {
    b[4] as int * 256 + b[5] == if |b| - 6 > 0xFFFF then 0 else |b| - 6
  }

  /** A PES packet with a PTS, and a DTS if its flag is set. */
  function ParsePes(b: seq<Byte>): Option<Pes> {
    if |b| < 9 || b[..3] != [0, 0, 1] || |b| < 9 + b[8] as int || b[8] < 5 || b[7] / 128 == 0 || !LengthIs(b)
       || b[6] / 64 != 2 || !Marked(b[9..], if b[7] / 64 == 3 then 3 else 2) then None
    else
      var pts := ParseTs(b[9..]);
      if b[7] / 64 % 2 == 0 then Some(Pes(b[3], pts, pts, b[9 + b[8] as int..]))
      else if b[8] < 10 || !Marked(b[14..], 1) then None
      else Some(Pes(b[3], pts, ParseTs(b[14..]), b[9 + b[8] as int..]))
  }

  function ParsePesAll(units: seq<seq<Byte>>): Option<seq<Pes>> {
    if units == [] then Some([])
    else
      match (ParsePes(units[0]), ParsePesAll(units[1..]))
      case (Some(p), Some(ps)) => Some([p] + ps)
      case _ => None
  }

  /** What a receiver makes of the byte stream on one PID. */
  function Demux(bytes: seq<Byte>, pid: nat): Option<seq<Pes>> {
    match ParseAll(Cut(bytes))
    case None => None
    case Some(ps) => ParsePesAll(Units(OnPid(ps, pid)))
  }

  // ---------- program specific information ----------

  /**
   * The section that starts in a packet, without the four bytes of CRC, which have to be right. It is current, the
   * only one of its table, and followed by stuffing.
   */
  function SectionIn(b: seq<Byte>): Option<seq<Byte>> {
    var p := ParsePacket(b);
    if p.None? || !p.value.start || |p.value.payload| < 1 || |p.value.payload| < 4 + p.value.payload[0] as int then None
    else
      var s := p.value.payload[1 + p.value.payload[0] as int..];
      var end := 3 + s[1] as int % 16 * 256 + s[2];
      if |s| < end || end < 12 || BitwiseCrc(Bits(s[..end])) != 0 then None
      else if s[1] / 128 != 1 || s[5] % 2 != 1 || s[6] != 0 || s[7] != 0 then None
      else if exists i :: end <= i < |s| && s[i] != 0xFF then None
      else Some(s[..end - 4])
  }

  /** The programs a PAT section names, each with the PID of its map. */
  function Programs(entries: seq<Byte>): seq<(nat, nat)> {
    if |entries| < 4 then []
    else [(entries[0] as int * 256 + entries[1], entries[2] as int % 32 * 256 + entries[3])] + Programs(entries[4..])
  }

  /** The streams a PMT section names: type and PID; descriptors are skipped. */
  function Streams(entries: seq<Byte>): seq<(Byte, nat)> {
    if |entries| < 5 then []
    else
      var next := 5 + entries[3] as int % 16 * 256 + entries[4];
      [(entries[0], entries[1] as int % 32 * 256 + entries[2])]
      + if next > |entries| then [] else Streams(entries[next..])
  }

  // ---------- layer by layer ----------

  lemma PacketRoundTrip(pid: nat, cc: Byte, first: bool, payload: seq<Byte>)
    requires pid < 0x2000 && cc <= 15 && 0 < |payload| <= DATA_LEN
    ensures ParsePacket(TsPacket(pid, cc, first, payload)) == Some(Packet(pid, first, cc, payload))
  {
    var b := TsPacket(pid, cc, first, payload);
    var n := DATA_LEN - |payload|;
    assert b[4 + n..] == payload;
    if n > 0 {
      assert b[4] == Stuffing(n)[0];
    }
  }

  lemma TsRoundTrip(prefix: nat, f: nat, rest: seq<Byte>)
    requires prefix < 16 && f < 0x2_0000_0000
    ensures ParseTs(TsBytes(prefix, f) + rest) == f && Marked(TsBytes(prefix, f) + rest, prefix)
  {
    var b := TsBytes(prefix, f) + rest;
    var high, mid, low := f / 0x4000_0000, f / 0x8000 % 0x8000, f % 0x8000;
    assert b[0] == prefix * 16 + high * 2 + 1;
    assert b[0] / 2 % 8 == high;
    TwoBytes(mid);
    TwoBytes(low);
    ThreeFields(f);
  }

  lemma TwoBytes(x: nat)
    requires x < 0x8000
    ensures var v := x * 2 + 1; (v / 256 * 256 + v % 256) / 2 == x
  {}

  lemma ThreeFields(f: nat)
    ensures f == f / 0x4000_0000 * 0x4000_0000 + f / 0x8000 % 0x8000 * 0x8000 + f % 0x8000
  {
    var q := f / 0x8000;
    assert q / 0x8000 == f / 0x4000_0000;
    assert q == q / 0x8000 * 0x8000 + q % 0x8000;
  }

  /** What is left of a time stamp in 33 bits: one too many if it did not fit them. */
  function In33Bits(ts: int): nat {
    if ts < 0x2_0000_0000 then ts % 0x2_0000_0000 else (ts + 1) % 0x2_0000_0000
  }

  /** Milliseconds on the 90 kHz clock. */
  function DecodedAt(p: Frame): int {
    90 * p.timeStamp
  }

  /** Video is shown at its composition time after it is decoded. */
  function ShownAt(p: Frame): int {
    90 * (p.timeStamp + if p.packetType == 1 then p.compositionTime else 0)
  }

  /** What a receiver recovers of a frame. */
  function Recovered(p: Frame): Pes {
    Pes(if p.packetType == 1 then 0xE0 else 0xC0, In33Bits(ShownAt(p)), In33Bits(DecodedAt(p)), p.data)
  }

  lemma FieldIs33Bits(ts: int)
    ensures Field(ts) == In33Bits(ts)
  {
  }

  lemma ClockTimes(p: Frame)
    ensures Pts(p) == ShownAt(p) && Dts(p) == DecodedAt(p)
  {
  }

  /** Any pair of times comes back, as far as its 33 bits go; without a DTS the PTS stands for both. */
  lemma PesRoundTrip(p: Frame, pts: int, dts: int)
    ensures ParsePes(PesHeaderOf(p, pts, dts) + p.data)
         == Some(Pes(Sid(p), Field(pts), Field(if IsVideo(p) then dts else pts), p.data))
  {
    hide TsBytes, ParseTs, Field, Marked;
    var b := PesHeaderOf(p, pts, dts) + p.data;
    var both := IsVideo(p) && pts != dts;
    var first := TsBytes(if both then 3 else 2, Field(pts));
    assert b[..3] == [0, 0, 1];
    assert LengthIs(b);
    if both {
      var second := TsBytes(1, Field(dts));
      assert b[9..] == first + (second + p.data) && b[14..] == second + p.data && b[19..] == p.data;
      TsRoundTrip(3, Field(pts), second + p.data);
      TsRoundTrip(1, Field(dts), p.data);
    } else {
      assert b[9..] == first + p.data && b[14..] == p.data;
      TsRoundTrip(2, Field(pts), p.data);
    }
  }

  /** A time stamp gets through modulo 2^33 exactly if it is below 2^33. */
  lemma FieldExact(ts: int)
    ensures Field(ts) == In33Bits(ts)
    ensures Field(ts) == ts % 0x2_0000_0000 <==> ts < 0x2_0000_0000
    ensures Field(ts) == ts <==> 0 <= ts < 0x2_0000_0000
  {
    FieldIs33Bits(ts);
    if ts >= 0x2_0000_0000 {
      var q, r := ts / 0x2_0000_0000, ts % 0x2_0000_0000;
      assert ts == q * 0x2_0000_0000 + r;
      assert In33Bits(ts) == (r + 1) % 0x2_0000_0000;
    }
  }

  // ---------- whole runs ----------

  /** The packets a run of Mux calls writes; v and a are the counters of video and audio. */
  function MuxAll(frames: seq<Frame>, v: Byte, a: Byte): (r: seq<seq<Byte>>)
    ensures forall b | b in r :: |b| == PACKET_LEN
  {
    if frames == [] then []
    else
      var p := frames[0];
      var cc := if IsVideo(p) then v else a;
      var cc' := CcAfter(cc, PesPacket(p));
      Packets(Pid(p), cc, true, PesPacket(p))
      + MuxAll(frames[1..], if IsVideo(p) then cc' else v, if IsVideo(p) then a else cc')
  }

  /** The same packets, parsed. */
  function Carried(pid: nat, cc: Byte, first: bool, bytes: seq<Byte>): seq<Packet>
    decreases |bytes|
  {
    if bytes == [] then []
    else
      var n := Min(DATA_LEN, |bytes|);
      [Packet(pid, first, NextCc(cc), bytes[..n])] + Carried(pid, NextCc(cc), false, bytes[n..])
  }

  function CarriedAll(frames: seq<Frame>, v: Byte, a: Byte): seq<Packet> {
    if frames == [] then []
    else
      var p := frames[0];
      var cc := if IsVideo(p) then v else a;
      var cc' := CcAfter(cc, PesPacket(p));
      Carried(Pid(p), cc, true, PesPacket(p))
      + CarriedAll(frames[1..], if IsVideo(p) then cc' else v, if IsVideo(p) then a else cc')
  }

  lemma ParsesOne(b: seq<Byte>, more: seq<seq<Byte>>)
    requires ParsePacket(b).Some? && ParseAll(more).Some?
    ensures ParseAll([b] + more) == Some([ParsePacket(b).value] + ParseAll(more).value)
  {
    hide ParsePacket;
    assert ([b] + more)[1..] == more;
  }

  lemma {:induction false} ParsesPackets(pid: nat, cc: Byte, first: bool, bytes: seq<Byte>, tail: seq<seq<Byte>>)
    requires pid < 0x2000 && ParseAll(tail).Some?
    ensures ParseAll(Packets(pid, cc, first, bytes) + tail)
         == Some(Carried(pid, cc, first, bytes) + ParseAll(tail).value)
    decreases |bytes|
  {
    hide ParsePacket, ParseAll, TsPacket, NextCc;
    if bytes == [] {
      assert Packets(pid, cc, first, bytes) + tail == tail;
      assert [] + ParseAll(tail).value == ParseAll(tail).value;
    } else {
      var n := Min(DATA_LEN, |bytes|);
      var b, more := TsPacket(pid, NextCc(cc), first, bytes[..n]), Packets(pid, NextCc(cc), false, bytes[n..]);
      PacketRoundTrip(pid, NextCc(cc), first, bytes[..n]);
      ParsesPackets(pid, NextCc(cc), false, bytes[n..], tail);
      ParsesOne(b, more + tail);
      Regroup([b], more, tail);
      Regroup([Packet(pid, first, NextCc(cc), bytes[..n])],
             Carried(pid, NextCc(cc), false, bytes[n..]), ParseAll(tail).value);
    }
  }

  lemma {:induction false} ParsesAll(frames: seq<Frame>, v: Byte, a: Byte)
    ensures ParseAll(MuxAll(frames, v, a)) == Some(CarriedAll(frames, v, a))
  {
    hide Packets, Carried, PesPacket, CcAfter;
    if frames != [] {
      var p := frames[0];
      var cc := if IsVideo(p) then v else a;
      var cc' := CcAfter(cc, PesPacket(p));
      var v', a' := if IsVideo(p) then cc' else v, if IsVideo(p) then a else cc';
      ParsesAll(frames[1..], v', a');
      ParsesPackets(Pid(p), cc, true, PesPacket(p), MuxAll(frames[1..], v', a'));
    }
  }

  lemma {:induction false} CutsBack(packets: seq<seq<Byte>>)
    requires forall b | b in packets :: |b| == PACKET_LEN
    ensures Cut(Concat(packets)) == packets
  {
    if packets != [] {
      CutsBack(packets[1..]);
      var bytes := Concat(packets);
      assert bytes[..PACKET_LEN] == packets[0] && bytes[PACKET_LEN..] == Concat(packets[1..]);
    }
  }

  /** Video goes on the one PID, everything else on the other. */
  predicate IsOn(p: Frame, pid: nat) {
    pid == if p.packetType == 1 then 0x100 else 0x101
  }

  function FramesOn(frames: seq<Frame>, pid: nat): seq<Frame> {
    if frames == [] then []
    else (if IsOn(frames[0], pid) then [frames[0]] else []) + FramesOn(frames[1..], pid)
  }

  /** The packets of the frames of one PID, one after the other. */
  function Train(frames: seq<Frame>, pid: nat, cc: Byte): seq<Packet> {
    if frames == [] then []
    else
      Carried(pid, cc, true, PesPacket(frames[0])) + Train(frames[1..], pid, CcAfter(cc, PesPacket(frames[0])))
  }

  lemma {:induction false} OnPidAppend(s: seq<Packet>, t: seq<Packet>, pid: nat)
    ensures OnPid(s + t, pid) == OnPid(s, pid) + OnPid(t, pid)
  {
    if s == [] {
      assert s + t == t && [] + OnPid(t, pid) == OnPid(t, pid);
    } else {
      OnPidAppend(s[1..], t, pid);
      assert (s + t)[0] == s[0] && (s + t)[1..] == s[1..] + t;
      var x, y, z := if s[0].pid == pid then [s[0]] else [], OnPid(s[1..], pid), OnPid(t, pid);
      assert x + (y + z) == x + y + z;
    }
  }

  lemma {:induction false} CarriedOnPid(pid: nat, cc: Byte, first: bool, bytes: seq<Byte>, q: nat)
    ensures OnPid(Carried(pid, cc, first, bytes), q) == if q == pid then Carried(pid, cc, first, bytes) else []
    decreases |bytes|
  {
    if bytes != [] {
      var n := Min(DATA_LEN, |bytes|);
      CarriedOnPid(pid, NextCc(cc), false, bytes[n..], q);
      var x, y := [Packet(pid, first, NextCc(cc), bytes[..n])], Carried(pid, NextCc(cc), false, bytes[n..]);
      assert (x + y)[0] == x[0] && (x + y)[1..] == y;
    }
  }

  /** Frames on the other PID leave no trace. */
  lemma {:induction false} TrainOnPid(frames: seq<Frame>, v: Byte, a: Byte, pid: nat)
    requires pid == 0x100 || pid == 0x101
    ensures OnPid(CarriedAll(frames, v, a), pid) == Train(FramesOn(frames, pid), pid, if pid == 0x100 then v else a)
  {
    hide Carried, PesPacket, CcAfter;
    if frames != [] {
      var p := frames[0];
      var cc := if IsVideo(p) then v else a;
      var cc' := CcAfter(cc, PesPacket(p));
      var v', a' := if IsVideo(p) then cc' else v, if IsVideo(p) then a else cc';
      TrainOnPid(frames[1..], v', a', pid);
      OnPidAppend(Carried(Pid(p), cc, true, PesPacket(p)), CarriedAll(frames[1..], v', a'), pid);
      CarriedOnPid(Pid(p), cc, true, PesPacket(p), pid);
      var rest := FramesOn(frames[1..], pid);
      if Pid(p) == pid {
        assert ([p] + rest)[0] == p && ([p] + rest)[1..] == rest;
      } else {
        assert [] + rest == rest;
        var t := Train(rest, pid, if pid == 0x100 then v' else a');
        assert [] + t == t;
      }
    }
  }

  lemma {:induction false} ContinuationOfRest(pid: nat, cc: Byte, bytes: seq<Byte>, tail: seq<Packet>)
    requires tail == [] || tail[0].start
    ensures Continuation(Carried(pid, cc, false, bytes) + tail) == (bytes, tail)
    decreases |bytes|
  {
    if bytes == [] {
      assert [] + tail == tail;
    } else {
      var n := Min(DATA_LEN, |bytes|);
      ContinuationOfRest(pid, NextCc(cc), bytes[n..], tail);
      var x, y := Packet(pid, false, NextCc(cc), bytes[..n]), Carried(pid, NextCc(cc), false, bytes[n..]);
      assert ([x] + y + tail)[0] == x && ([x] + y + tail)[1..] == y + tail;
      assert bytes[..n] + bytes[n..] == bytes;
    }
  }

  lemma UnitIsReassembled(pid: nat, cc: Byte, bytes: seq<Byte>, tail: seq<Packet>)
    requires bytes != [] && (tail == [] || tail[0].start)
    ensures Units(Carried(pid, cc, true, bytes) + tail) == [bytes] + Units(tail)
  {
    hide NextCc;
    var n := Min(DATA_LEN, |bytes|);
    var x, y := Packet(pid, true, NextCc(cc), bytes[..n]), Carried(pid, NextCc(cc), false, bytes[n..]);
    assert Carried(pid, cc, true, bytes) == [x] + y;
    ContinuationOfRest(pid, NextCc(cc), bytes[n..], tail);
    hide Carried;
    assert [x] + y + tail == [x] + (y + tail);
    UnitStarts(x, y + tail);
    assert bytes[..n] + bytes[n..] == bytes;
  }

  lemma UnitStarts(x: Packet, more: seq<Packet>)
    requires x.start
    ensures Units([x] + more) == [x.payload + Continuation(more).0] + Units(Continuation(more).1)
  {
    assert ([x] + more)[1..] == more;
  }

  function RecoveredAll(frames: seq<Frame>): seq<Pes> {
    if frames == [] then [] else [Recovered(frames[0])] + RecoveredAll(frames[1..])
  }

  lemma {:induction false} TrainUnits(frames: seq<Frame>, pid: nat, cc: Byte)
    ensures ParsePesAll(Units(Train(frames, pid, cc))) == Some(RecoveredAll(frames))
    ensures frames != [] ==> Train(frames, pid, cc) != [] && Train(frames, pid, cc)[0].start
  {
    if frames != [] {
      var cc' := CcAfter(cc, PesPacket(frames[0]));
      TrainUnits(frames[1..], pid, cc');
      UnitIsReassembled(pid, cc, PesPacket(frames[0]), Train(frames[1..], pid, cc'));
      PesRoundTrip(frames[0], Pts(frames[0]), Dts(frames[0]));
      ClockTimes(frames[0]);
      FieldIs33Bits(Pts(frames[0]));
      FieldIs33Bits(Dts(frames[0]));
      var x, y := PesPacket(frames[0]), Units(Train(frames[1..], pid, cc'));
      assert ([x] + y)[0] == x && ([x] + y)[1..] == y;
    }
  }

  /**
   After any mix of audio and video calls, a receiver recovers on each PID every packet given to Mux for it, in
   order: stream id, data, and the 33 bits of both time stamps that reach the wire.
   */
  lemma MuxInversion(frames: seq<Frame>, v: Byte, a: Byte, pid: nat)
    requires pid == 0x100 || pid == 0x101
    ensures Demux(Concat(MuxAll(frames, v, a)), pid) == Some(RecoveredAll(FramesOn(frames, pid)))
  {
    hide ParseAll, Cut, Concat, MuxAll, OnPid, Units, CarriedAll, Train;
    CutsBack(MuxAll(frames, v, a));
    ParsesAll(frames, v, a);
    TrainOnPid(frames, v, a, pid);
    TrainUnits(FramesOn(frames, pid), pid, if pid == 0x100 then v else a);
  }

  /** Both time stamps of the frame fit 33 bits. */
  predicate TimesFit(p: Frame) {
    0 <= ShownAt(p) < 0x2_0000_0000 && 0 <= DecodedAt(p) < 0x2_0000_0000
  }

  lemma {:induction false} RecoveredAt(frames: seq<Frame>, i: nat)
    requires i < |frames|
    ensures |RecoveredAll(frames)| == |frames| && RecoveredAll(frames)[i] == Recovered(frames[i])
  {
    if |frames| > 1 {
      RecoveredAt(frames[1..], if i > 0 then i - 1 else 0);
    }
  }

  /**
   * Over a whole run the receiver has every frame's stream id and data, and it has all the time stamps on the 90 kHz
   * clock exactly if each of them fits 33 bits.
   */
  lemma RunRecoveredExactly(frames: seq<Frame>, v: Byte, a: Byte, pid: nat)
    requires pid == 0x100 || pid == 0x101
    ensures var fs := FramesOn(frames, pid);
      var got := Demux(Concat(MuxAll(frames, v, a)), pid);
      && got.Some? && |got.value| == |fs|
      && (forall i :: 0 <= i < |fs| ==>
            got.value[i].sid == (if pid == 0x100 then 0xE0 else 0xC0) && got.value[i].data == fs[i].data)
      && ((forall i :: 0 <= i < |fs| ==> got.value[i].pts == ShownAt(fs[i]) && got.value[i].dts == DecodedAt(fs[i]))
          <==> forall i :: 0 <= i < |fs| ==> TimesFit(fs[i]))
  {
    hide Demux, MuxAll, Concat, FramesOn, RecoveredAll, Field, ShownAt, DecodedAt, In33Bits;
    MuxInversion(frames, v, a, pid);
    var fs := FramesOn(frames, pid);
    RecoveredLength(fs);
    forall i | 0 <= i < |fs|
      ensures RecoveredAll(fs)[i] == Recovered(fs[i]) && IsOn(fs[i], pid)
      ensures In33Bits(ShownAt(fs[i])) == ShownAt(fs[i]) && In33Bits(DecodedAt(fs[i])) == DecodedAt(fs[i])
         <==> TimesFit(fs[i])
    {
      RecoveredAt(fs, i);
      FramesOnIsOn(frames, pid, i);
      FieldExact(ShownAt(fs[i]));
      FieldExact(DecodedAt(fs[i]));
    }
  }

  lemma {:induction false} FramesOnIsOn(frames: seq<Frame>, pid: nat, i: nat)
    requires i < |FramesOn(frames, pid)|
    ensures IsOn(FramesOn(frames, pid)[i], pid)
  {
    if IsOn(frames[0], pid) {
      if i > 0 {
        FramesOnIsOn(frames[1..], pid, i - 1);
      }
    } else {
      FramesOnIsOn(frames[1..], pid, i);
    }
  }

  lemma RecoveredLength(frames: seq<Frame>)
    ensures |RecoveredAll(frames)| == |frames|
  {
    if frames != [] {
      RecoveredAt(frames, 0);
    }
  }

  // ---------- the way to the streams ----------

  predicate IsTable(section: seq<Byte>) {
    section == PAT_SECTION || exists f: Byte, v :: section == PmtSection(f, v)
  }

  lemma SectionComesBack(pid: nat, cc: Byte, section: seq<Byte>)
    requires pid < 0x2000 && cc <= 15 && IsTable(section)
    ensures var b := PsiPacket(pid, cc, section);
      && ParsePacket(b).Some? && ParsePacket(b).value.pid == pid && ParsePacket(b).value.cc == cc
      && SectionIn(b) == Some(section)
  {
    hide CrcBytes, BitwiseCrc, PsiPacket, ParsePacket, SectionIn;
    var b := PsiPacket(pid, cc, section);
    TableFields(section);
    PsiSectionsCheck(pid, cc, section);
    PsiFields(pid, cc, section);
    SectionLength(pid, cc, section);
    hide IsTable;
    CrcIsOctets(section);
    Shifted(b, section, CrcBytes(section));
    SectionReads(b, b[4..], section, CrcBytes(section));
  }

  lemma Shifted(b: seq<Byte>, section: seq<Byte>, crc: seq<Byte>)
    requires |b| == 188 && |section| <= 179 && |crc| == 4 && b[5..9 + |section|] == section + crc
    ensures b[4..][1..][..|section| + 4] == section + crc
  {
    assert b[4..][1..] == b[5..];
  }

  lemma SectionReads(b: seq<Byte>, payload: seq<Byte>, section: seq<Byte>, crc: seq<Byte>)
    requires ParsePacket(b).Some? && ParsePacket(b).value.start && ParsePacket(b).value.payload == payload
    requires |payload| == 184 && payload[0] == 0 && 12 <= |section| <= 22 && |crc| == 4
    requires payload[1..][..|section| + 4] == section + crc && BitwiseCrc(Bits(section + crc)) == 0
    requires section[1] / 128 == 1 && section[5] % 2 == 1 && section[6] == section[7] == 0
    requires section[1] as int % 16 * 256 + section[2] == |section| + 1
    requires forall i :: |section| + 5 <= i < 184 ==> payload[i] == 0xFF
    ensures SectionIn(b) == Some(section)
  {
    hide ParsePacket, BitwiseCrc, Bits;
    var s, end := payload[1..], |section| + 4;
    assert s[..end][..|section|] == section && s[..end - 4] == s[..end][..end - 4];
    assert forall i :: 0 <= i < |section| ==> s[i] == section[i];
    assert forall i :: end <= i < |s| ==> s[i] == payload[i + 1];
  }

  lemma TableFields(section: seq<Byte>)
    requires IsTable(section)
    ensures 12 <= |section| <= 22 && section[1] / 128 == 1 && section[5] % 2 == 1 && section[6] == section[7] == 0
    ensures section[1] as int % 16 * 256 + section[2] == |section| + 1
  {
  }

  lemma PsiFields(pid: nat, cc: Byte, section: seq<Byte>)
    requires pid < 0x2000 && cc <= 15 && |section| <= 179
    ensures var b := PsiPacket(pid, cc, section);
      && |b| == 188 && b[4] == 0 && ParsePacket(b) == Some(Packet(pid, true, cc, b[4..]))
      && forall i :: 5 + |section| <= i < 184 ==> b[4..][i] == 0xFF
  {
    hide CrcBytes, BitwiseCrc, Bits;
    CrcIsOctets(section);
  }

  /**
   * A receiver finds its way from PID 0: the PAT names program 1 and the PID of its map, and the map names the PIDs
   * the frames are on, with the clock on the video if there is one, H.264 (0x1B) for video, and AAC (0x0F) or MPEG
   * audio (0x04) for sound.
   */
  lemma TablesLeadToStreams(patCc: Byte, pmtCc: Byte, soundFormat: Byte, hasVideo: bool)
    requires patCc <= 15 && pmtCc <= 15
    ensures var pat := PsiPacket(PAT_PID, patCc, PAT_SECTION);
      && ParsePacket(pat).Some? && ParsePacket(pat).value.pid == 0
      && SectionIn(pat).Some? && |SectionIn(pat).value| >= 8 && SectionIn(pat).value[0] == 0
      && Programs(SectionIn(pat).value[8..]) == [(1, 0x1001)]
    ensures var pmt := PsiPacket(PMT_PID, pmtCc, PmtSection(soundFormat, hasVideo));
      && ParsePacket(pmt).Some? && ParsePacket(pmt).value.pid == 0x1001
      && SectionIn(pmt).Some? && |SectionIn(pmt).value| >= 12 && SectionIn(pmt).value[0] == 2
      && SectionIn(pmt).value[3..5] == [0, 1]
      && SectionIn(pmt).value[8] as int % 32 * 256 + SectionIn(pmt).value[9] == (if hasVideo then 0x100 else 0x101)
      && Streams(SectionIn(pmt).value[12..])
         == (if hasVideo then [(0x1B as Byte, 0x100)] else [])
            + [(if soundFormat == 2 || soundFormat == 14 then 0x04 else 0x0F, 0x101)]
  {
    hide PsiPacket, ParsePacket, SectionIn;
    SectionComesBack(PAT_PID, patCc, PAT_SECTION);
    var pmt := PmtSection(soundFormat, hasVideo);
    SectionComesBack(PMT_PID, pmtCc, pmt);
    ProgramsOfPat();
    StreamsOfPmt(soundFormat, hasVideo);
  }

  lemma ProgramsOfPat()
    ensures Programs(PAT_SECTION[8..]) == [(1, 0x1001)]
  {
    var entries := PAT_SECTION[8..];
    assert entries == [0x00, 0x01, 0xF0, 0x01] && entries[4..] == [];
  }

  lemma StreamsOfPmt(soundFormat: Byte, hasVideo: bool)
    ensures Streams(PmtSection(soundFormat, hasVideo)[12..])
         == (if hasVideo then [(0x1B as Byte, 0x100)] else [])
            + [(if soundFormat == 2 || soundFormat == 14 then 0x04 else 0x0F, 0x101)]
  {
    var entries := PmtSection(soundFormat, hasVideo)[12..];
    assert entries == ProgramInfo(soundFormat, hasVideo);
    var sound: Byte := if soundFormat == 2 || soundFormat == 14 then 0x04 else 0x0F;
    var last: seq<Byte> := [sound, 0xE1, 0x01, 0xF0, 0x00];
    assert last[5..] == [];
    assert Streams(last) == [(sound, 0x101)];
    if hasVideo {
      assert entries == [0x1B, 0xE1, 0x00, 0xF0, 0x00] + last && entries[5..] == last;
    }
  }

  // ---------- counters and counts ----------

  /** Each counter is its predecessor's plus one modulo 16. */
  predicate Continuous(cc: nat, packets: seq<Packet>)
    decreases |packets|
  {
    packets == [] || (packets[0].cc == (cc + 1) % 16 && Continuous(packets[0].cc, packets[1..]))
  }

  lemma {:induction false} CarriedContinuous(pid: nat, cc: Byte, first: bool, bytes: seq<Byte>, tail: seq<Packet>)
    requires cc <= 15 && Continuous(CcAfter(cc, bytes), tail)
    ensures Continuous(cc, Carried(pid, cc, first, bytes) + tail) && CcAfter(cc, bytes) <= 15
    decreases |bytes|
  {
    if bytes == [] {
      assert [] + tail == tail;
    } else {
      var n := Min(DATA_LEN, |bytes|);
      CarriedContinuous(pid, NextCc(cc), false, bytes[n..], tail);
      var x, y := Packet(pid, first, NextCc(cc), bytes[..n]), Carried(pid, NextCc(cc), false, bytes[n..]);
      assert ([x] + y + tail)[0] == x && ([x] + y + tail)[1..] == y + tail;
    }
  }

  lemma {:induction false} TrainContinuous(frames: seq<Frame>, pid: nat, cc: Byte)
    requires cc <= 15
    ensures Continuous(cc, Train(frames, pid, cc))
  {
    hide PesPacket;
    if frames != [] {
      CarriedContinuous(pid, cc, true, PesPacket(frames[0]), []);
      var cc' := CcAfter(cc, PesPacket(frames[0]));
      TrainContinuous(frames[1..], pid, cc');
      CarriedContinuous(pid, cc, true, PesPacket(frames[0]), Train(frames[1..], pid, cc'));
    }
  }

  /** Over any run the counters of a PID step by one modulo 16. */
  lemma CountersStep(frames: seq<Frame>, v: Byte, a: Byte, pid: nat)
    requires (pid == 0x100 || pid == 0x101) && v <= 15 && a <= 15
    ensures ParseAll(MuxAll(frames, v, a)).Some?
    ensures Continuous(if pid == 0x100 then v else a, OnPid(ParseAll(MuxAll(frames, v, a)).value, pid))
  {
    ParsesAll(frames, v, a);
    TrainOnPid(frames, v, a, pid);
    TrainContinuous(FramesOn(frames, pid), pid, if pid == 0x100 then v else a);
  }

  /** A call writes as many packets as its PES packet needs, all but the last full. */
  lemma {:induction false} PacketCount(pid: nat, cc: Byte, first: bool, bytes: seq<Byte>)
    requires pid < 0x2000
    ensures |Packets(pid, cc, first, bytes)| == (|bytes| + DATA_LEN - 1) / DATA_LEN
    decreases |bytes|
  {
    if bytes != [] {
      PacketCount(pid, NextCc(cc), false, bytes[Min(DATA_LEN, |bytes|)..]);
    }
  }
}
