/** The H.264 parser: parameter sets out of the sequence header, and length-prefixed units back to Annex B. */
module H264 {
  import opened Bytes
  import opened AnnexB
  import opened Writers
  import Flv

  const NALU_AUD: seq<Byte> := [0, 0, 0, 1, 0x09, 0xf0]

  datatype Error = Ok | DecDataNil | SpsDataError | PpsHeaderError | PpsDataError
                 | VideoDataInvalid | DataSizeNotMatch | NaluBodyLenError

  // ---------- length-prefixed units ----------

  /** The units up to the first fault; Ok means there was none. */
  function Framed(src: seq<Byte>): (r: (seq<seq<Byte>>, Error))
    ensures forall u :: u in r.0 ==> u != []
  {
    if src == [] then ([], Ok)
    else if |src| < 4 then ([], DataSizeNotMatch)
    else
      var n := U32BE(src);
      if n == 0 || n > |src| - 4 then ([], NaluBodyLenError)
      else
        var r := Framed(src[4 + n..]);
        ([src[4..4 + n]] + r.0, r.1)
  }

  predicate Prefixable(us: seq<seq<Byte>>) {
    forall u :: u in us ==> 0 < |u| < 0x1_0000_0000
  }

  lemma {:induction false} FramedPrefixed(us: seq<seq<Byte>>)
    requires Prefixable(us)
    ensures Framed(Flv.Prefixed(us)) == (us, Ok)
    decreases |us|
  {
    if us != [] {
      var u, rest := us[0], Flv.Prefixed(us[1..]);
      var data := Flv.Prefixed(us);
      assert u in us;
      assert data == BE(|u|, 4) + (u + rest);
      BE4(|u|, u + rest);
      assert data[4..4 + |u|] == u && data[4 + |u|..] == rest;
      FramedPrefixed(us[1..]);
      assert [u] + us[1..] == us;
    }
  }

  lemma {:induction false} FramedIsPrefixed(src: seq<Byte>)
    requires Framed(src).1 == Ok
    ensures src == Flv.Prefixed(Framed(src).0) && Prefixable(Framed(src).0)
    decreases |src|
  {
    hide BE;
    if src != [] {
      var n := 4 + U32BE(src);
      var us := Framed(src[n..]).0;
      FramedIsPrefixed(src[n..]);
      BE4OfU32BE(src[..4]);
      assert U32BE(src[..4]) == U32BE(src);
      hide U32BE;
      assert ([src[4..n]] + us)[1..] == us;
      assert src == src[..4] + src[4..n] + src[n..];
    }
  }

  // ---------- the Annex B form ----------

  function NalType(u: seq<Byte>): nat
    requires u != []
  {
    u[0] % 32
  }

  /** Slices, IDR pictures and SEI messages. */
  predicate Shown(u: seq<Byte>) {
    u != [] && (NalType(u) == 1 || NalType(u) == 5 || NalType(u) == 6)
  }

  predicate IsParameterSet(u: seq<Byte>) {
    u != [] && (NalType(u) == 7 || NalType(u) == 8)
  }

  predicate IsIdr(u: seq<Byte>) {
    u != [] && NalType(u) == 5
  }

  /** The units that satisfy keep, each behind a four-byte start code, in order. */
  function Coded(us: seq<seq<Byte>>, keep: seq<Byte> -> bool): seq<Byte> {
    if us == [] then []
    else Coded(us[..|us| - 1], keep) + if keep(us[|us| - 1]) then START_CODE_4 + us[|us| - 1] else []
  }

  /** Index of the first IDR unit, or how many units there are. */
  function FirstIdr(us: seq<seq<Byte>>): (k: nat)
    ensures k <= |us|
    decreases |us|
  {
    if us == [] || IsIdr(us[0]) then 0 else 1 + FirstIdr(us[1..])
  }

  /** The parameter sets a decoder gets in front of an IDR unit: the in-band ones so far, else the stored ones. */
  function SetsFor(us: seq<seq<Byte>>, info: seq<Byte>): seq<Byte> {
    if Coded(us, IsParameterSet) == [] then info else Coded(us, IsParameterSet)
  }

  /** What the units become: the shown ones, with parameter sets once, just before the first IDR. */
  function Body(us: seq<seq<Byte>>, info: seq<Byte>): seq<Byte> {
    var k := FirstIdr(us);
    Coded(us[..k], Shown) + (if k < |us| then SetsFor(us[..k], info) else []) + Coded(us[k..], Shown)
  }

  lemma {:induction false} FirstIdrIsFirst(us: seq<seq<Byte>>)
    ensures var k := FirstIdr(us);
      && (forall j :: 0 <= j < k && us[j] != [] ==> us[j][0] % 32 != 5)
      && (k < |us| ==> us[k] != [] && us[k][0] % 32 == 5)
    decreases |us|
  {
    if us != [] && !IsIdr(us[0]) {
      FirstIdrIsFirst(us[1..]);
    }
  }

  lemma {:induction false} FirstIdrSnoc(us: seq<seq<Byte>>, u: seq<Byte>)
    ensures FirstIdr(us + [u]) == if FirstIdr(us) < |us| || IsIdr(u) then FirstIdr(us) else |us| + 1
    decreases |us|
  {
    if us == [] {
      assert (us + [u])[1..] == [];
    } else {
      assert (us + [u])[1..] == us[1..] + [u];
      FirstIdrSnoc(us[1..], u);
    }
  }

  /** The unit behind the length at index, and the rest behind the unit. */
  lemma OneUnit(src: seq<Byte>, index: nat, n: nat, done: seq<seq<Byte>>)
    requires index + 4 + n <= |src|
    ensures src[index..][4..4 + n] == src[index + 4..index + 4 + n] && src[index..][4 + n..] == src[index + 4 + n..]
    ensures var r := Framed(src[index + 4 + n..]).0;
      done + ([src[index + 4..index + 4 + n]] + r) == done + [src[index + 4..index + 4 + n]] + r
  {
  }

  lemma Slices(us: seq<seq<Byte>>, u: seq<Byte>, k: nat)
    requires k <= |us|
    ensures (us + [u])[..k] == us[..k] && (us + [u])[k..] == us[k..] + [u]
  {
  }

  /** One more unit: what the loop body adds to the output. */
  lemma BodySnoc(us: seq<seq<Byte>>, u: seq<Byte>, info: seq<Byte>)
    ensures FirstIdr(us + [u]) == if FirstIdr(us) < |us| || IsIdr(u) then FirstIdr(us) else |us| + 1
    ensures Body(us + [u], info) == Body(us, info) + SetsBefore(us, u, info) + Coded([u], Shown)
  {
    hide Body, Coded, FirstIdr, Shown, IsIdr, SetsFor;
    if FirstIdr(us) < |us| {
      AfterIdr(us, u, info);
      assert Body(us, info) + SetsBefore(us, u, info) == Body(us, info);
    } else {
      UpToIdr(us, u, info);
    }
  }

  lemma AfterIdr(us: seq<seq<Byte>>, u: seq<Byte>, info: seq<Byte>)
    requires FirstIdr(us) < |us|
    ensures FirstIdr(us + [u]) == FirstIdr(us)
    ensures Body(us + [u], info) == Body(us, info) + Coded([u], Shown)
  {
    hide Coded, SetsFor, IsIdr, Shown, Body, FirstIdr;
    var k := FirstIdr(us);
    FirstIdrSnoc(us, u);
    BodyAt(us, k, info);
    BodyAt(us + [u], k, info);
    Slices(us, u, k);
    CodedAppend(us[k..], [u], Shown);
    Regroup(Coded(us[..k], Shown) + SetsFor(us[..k], info), Coded(us[k..], Shown), Coded([u], Shown));
  }

  lemma UpToIdr(us: seq<seq<Byte>>, u: seq<Byte>, info: seq<Byte>)
    requires FirstIdr(us) == |us|
    ensures FirstIdr(us + [u]) == if IsIdr(u) then |us| else |us| + 1
    ensures Body(us + [u], info) == Body(us, info) + SetsBefore(us, u, info) + Coded([u], Shown)
  {
    hide Coded, SetsFor, IsIdr, Shown, Body;
    var k, all := |us|, us + [u];
    FirstIdrSnoc(us, u);
    hide FirstIdr;
    Whole(us, info);
    if IsIdr(u) {
      Slices(us, u, k);
      assert us[..k] == us && us[k..] + [u] == [u];
      BodyAt(all, k, info);
    } else {
      Whole(all, info);
      CodedAppend(us, [u], Shown);
    }
  }

  lemma BodyAt(us: seq<seq<Byte>>, k: nat, info: seq<Byte>)
    requires FirstIdr(us) == k < |us|
    ensures Body(us, info) == Coded(us[..k], Shown) + SetsFor(us[..k], info) + Coded(us[k..], Shown)
  {
  }

  lemma Whole(us: seq<seq<Byte>>, info: seq<Byte>)
    requires FirstIdr(us) == |us|
    ensures Body(us, info) == Coded(us, Shown)
  {
    hide FirstIdr;
    assert us[..|us|] == us && us[|us|..] == [];
    CodedNone(Shown);
  }

  /** The parameter sets that go in front of u, when it comes after us. */
  function SetsBefore(us: seq<seq<Byte>>, u: seq<Byte>, info: seq<Byte>): seq<Byte> {
    if IsIdr(u) && FirstIdr(us) == |us| then SetsFor(us, info) else []
  }

  lemma {:induction false} CodedAppend(us: seq<seq<Byte>>, vs: seq<seq<Byte>>, keep: seq<Byte> -> bool)
    ensures Coded(us + vs, keep) == Coded(us, keep) + Coded(vs, keep)
    decreases |vs|
  {
    if vs == [] {
      assert us + vs == us;
    } else {
      var k := |vs| - 1;
      assert us + vs == (us + vs[..k]) + [vs[k]] && (us + vs)[..|us + vs| - 1] == us + vs[..k];
      CodedAppend(us, vs[..k], keep);
    }
  }

  lemma CodedOne(u: seq<Byte>, keep: seq<Byte> -> bool)
    ensures Coded([u], keep) == if keep(u) then START_CODE_4 + u else []
  {
    assert [u][..0] == [];
  }

  lemma CodedNone(keep: seq<Byte> -> bool)
    ensures Coded([], keep) == []
  {
  }

  function SpecificInfoOf(src: seq<Byte>): (Error, seq<Byte>) {
    if |src| < 9 then (DecDataNil, [])
    else
      var spsLen := U16BE(src[6..]);
      if |src| - 8 < spsLen || spsLen == 0 then (SpsDataError, [])
      else
        var tmpBuf := src[8 + spsLen..];
        if |tmpBuf| < 4 then (PpsHeaderError, [])
        else
          var ppsLen := U16BE(tmpBuf[1..]);
          if |tmpBuf| - 3 < ppsLen || ppsLen == 0 then (PpsDataError, [])
          else (Ok, START_CODE_4 + src[8..8 + spsLen] + (START_CODE_4 + tmpBuf[3..]))
  }

  // ---------- the parser ----------

  class Parser {
    var specificInfo: seq<Byte>
    var pps: seq<Byte>

    constructor ()
      ensures specificInfo == []
    {
      specificInfo, pps := [], seq(2 * 1024, _ => 0);
    }

    method ParseSpecificInfo(src: seq<Byte>) returns (err: Error)
      modifies `specificInfo
      ensures err == SpecificInfoOf(src).0 && specificInfo == old(specificInfo) + SpecificInfoOf(src).1
    {
      if |src| < 9 { return DecDataNil; }
      var sps, pps := [], [];
      var spsLen := src[6] as int * 256 + src[7] as int;
      if |src[8..]| < spsLen || spsLen <= 0 { return SpsDataError; }
      sps := sps + START_CODE_4;
      sps := sps + src[8..8 + spsLen];
      var tmpBuf := src[8 + spsLen..];
      if |tmpBuf| < 4 { return PpsHeaderError; }
      var ppsLen := tmpBuf[1] as int * 256 + tmpBuf[2] as int;
      if |tmpBuf[3..]| < ppsLen || ppsLen <= 0 { return PpsDataError; }
      pps := pps + START_CODE_4;
      pps := pps + tmpBuf[3..];
      specificInfo := specificInfo + sps;
      specificInfo := specificInfo + pps;
      return Ok;
    }

    method NaluSize(src: seq<Byte>) returns (size: Option<nat>)
      ensures size == if |src| < 4 then None else Some(U32BE(src))
    {
      if |src| < 4 { return None; }
      var n := 0;
      var buf := src[..4];
      for i := 0 to |buf|
        invariant n == FromBE(buf[..i])
      {
        n := n * 256 + buf[i] as int;
        assert buf[..i + 1][..i] == buf[..i];
      }
      assert buf[..4] == buf && buf[..4][..3][..2][..1][..0] == [];
      assert FromBE(buf) == FromBE(buf[..3]) * 256 + buf[3] as int;
      assert FromBE(buf[..3]) == FromBE(buf[..2]) * 256 + buf[2] as int by { assert buf[..3][..2] == buf[..2]; }
      assert FromBE(buf[..2]) == FromBE(buf[..1]) * 256 + buf[1] as int by { assert buf[..2][..1] == buf[..1]; }
      assert FromBE(buf[..1]) == buf[0] by { assert buf[..1][..0] == []; }
      return Some(n);
    }

    method GetAnnexbH264(src: seq<Byte>, w: Writer) returns (err: Error)
      modifies `pps, w
      ensures |src| < 4 ==> err == VideoDataInvalid && w.output == old(w.output) && pps == old(pps)
      ensures |src| >= 4 ==> var r := Framed(src);
        && err == r.1 && w.output == old(w.output) + NALU_AUD + Body(r.0, specificInfo)
        && pps == Coded(r.0, IsParameterSet)
    {
      hide Coded, Body, U32BE, FirstIdr, Shown;
      var dataSize := |src|;
      if dataSize < 4 { return VideoDataInvalid; }
      pps := [];
      w.Write(NALU_AUD);
      var index, nalLen := 0, 0;
      var hasSpsPps, hasWriteSpsPps := false, false;
      ghost var done: seq<seq<Byte>> := [];
      Start(specificInfo);
      assert src[0..] == src && [] + Framed(src).0 == Framed(src).0;
      assert w.output == old(w.output) + NALU_AUD + [];
      while dataSize > 0
        invariant 0 <= index <= |src| && dataSize == |src| - index
        invariant Framed(src) == (done + Framed(src[index..]).0, Framed(src[index..]).1)
        invariant w.output == old(w.output) + NALU_AUD + Body(done, specificInfo)
        invariant pps == Coded(done, IsParameterSet)
        invariant hasSpsPps <==> pps != []
        invariant hasWriteSpsPps <==> FirstIdr(done) < |done|
        decreases dataSize
      {
        ghost var rest := src[index..];
        var size := NaluSize(src[index..]);
        if size == None {
          assert done + [] == done;
          return DataSizeNotMatch;
        }
        nalLen := size.value;
        index := index + 4;
        dataSize := dataSize - 4;
        if dataSize >= nalLen && |src[index..]| >= nalLen && nalLen > 0 {
          var nalu := src[index..index + nalLen];
          OneUnit(src, index - 4, nalLen, done);
          BodySnoc(done, nalu, specificInfo);
          CodedAppend(done, [nalu], IsParameterSet);
          Regroup4(old(w.output) + NALU_AUD, Body(done, specificInfo),
                   SetsBefore(done, nalu, specificInfo), Coded([nalu], Shown));
          assert [] + Coded([nalu], Shown) == Coded([nalu], Shown);
          assert pps == (if hasSpsPps then Coded(done, IsParameterSet) else []);
          WriteUnit(nalu, hasSpsPps, hasWriteSpsPps, w);
          var nalType := nalu[0] % 32;
          hasWriteSpsPps := hasWriteSpsPps || nalType == 5;
          hasSpsPps := hasSpsPps || nalType == 7 || nalType == 8;
          index := index + nalLen;
          dataSize := dataSize - nalLen;
          done := done + [nalu];
        } else {
          assert done + [] == done;
          return NaluBodyLenError;
        }
      }
      assert done + [] == done;
      return Ok;
    }

    lemma Start(info: seq<Byte>)
      ensures Body([], info) == [] && Coded([], IsParameterSet) == [] && FirstIdr([]) == 0
    {
    }

    /** The switch on the unit's type. */
    method WriteUnit(nalu: seq<Byte>, hasSpsPps: bool, hasWriteSpsPps: bool, w: Writer)
      requires nalu != []
      modifies `pps, w
      ensures pps == old(pps) + Coded([nalu], IsParameterSet)
      ensures |pps| > |old(pps)| <==> IsParameterSet(nalu)
      ensures w.output == old(w.output)
        + (if IsIdr(nalu) && !hasWriteSpsPps then (if hasSpsPps then old(pps) else specificInfo) else [])
        + Coded([nalu], Shown)
    {
      CodedOne(nalu, Shown);
      CodedOne(nalu, IsParameterSet);
      hide Coded;
      var nalType := nalu[0] % 32;
      if nalType == 5 && !hasWriteSpsPps {
        if !hasSpsPps {
          w.Write(specificInfo);
        } else {
          w.Write(pps);
        }
      }
      if nalType == 5 || nalType == 1 || nalType == 6 {
        w.Write(START_CODE_4);
        w.Write(nalu);
      } else if nalType == 7 || nalType == 8 {
        pps := pps + START_CODE_4;
        pps := pps + nalu;
      }
    }

    method Parse(b: seq<Byte>, isSeq: bool, w: Writer) returns (err: Error)
      modifies this, w
      ensures isSeq ==>
        err == SpecificInfoOf(b).0 && specificInfo == old(specificInfo) + SpecificInfoOf(b).1
        && w.output == old(w.output)
      ensures !isSeq ==>
        specificInfo == old(specificInfo)
        && match ParsedAs(b, old(specificInfo)) case (e, out) => err == e && w.output == old(w.output) + out
    {
      hide Framed, Body, SpecificInfoOf;
      if isSeq {
        err := ParseSpecificInfo(b);
      } else if |b| >= 4 && b[0] == 0 && b[1] == 0 && b[2] == 0 && b[3] == 1 {
        assert b[..4] == START_CODE_4;
        w.Write(b);
        err := Ok;
      } else {
        err := GetAnnexbH264(b, w);
        assert old(w.output) + NALU_AUD + Body(Framed(b).0, specificInfo)
            == old(w.output) + (NALU_AUD + Body(Framed(b).0, specificInfo));
      }
    }
  }

  /** What a frame is turned into: data that is already in Annex B form passes through. */
  function ParsedAs(b: seq<Byte>, info: seq<Byte>): (Error, seq<Byte>) {
    if |b| >= 4 && b[..4] == START_CODE_4 then (Ok, b)
    else if |b| < 4 then (VideoDataInvalid, [])
    else (Framed(b).1, NALU_AUD + Body(Framed(b).0, info))
  }

  // ---------- the properties ----------

  /** Conversion succeeds exactly on nonempty concatenations of nonempty length-prefixed units. */
  lemma SucceedsExactly(src: seq<Byte>, us: seq<seq<Byte>>)
    ensures |src| >= 4 && Framed(src) == (us, Ok) <==> us != [] && Prefixable(us) && src == Flv.Prefixed(us)
  {
    if |src| >= 4 && Framed(src).1 == Ok {
      FramedIsPrefixed(src);
    }
    if us != [] && Prefixable(us) && src == Flv.Prefixed(us) {
      FramedPrefixed(us);
      assert us[0] in us;
    }
  }

  /** Bytes that do not start with the length of a nonempty unit and the unit. */
  predicate Broken(tail: seq<Byte>) {
    tail != [] && (|tail| < 4 || U32BE(tail) == 0 || U32BE(tail) > |tail| - 4)
  }

  /** On a broken tail it stops behind the units in front of it, with the error for a missing or for a bad length. */
  lemma {:induction false} StopsAtFault(us: seq<seq<Byte>>, tail: seq<Byte>)
    requires Prefixable(us) && Broken(tail)
    ensures Framed(Flv.Prefixed(us) + tail) == (us, if |tail| < 4 then DataSizeNotMatch else NaluBodyLenError)
    decreases |us|
  {
    hide U32BE;
    if us == [] {
      assert [] + tail == tail;
    } else {
      assert us[0] in us;
      Flv.PrefixedStep(us, tail);
      hide Flv.Prefixed;
      StopsAtFault(us[1..], tail);
      assert [us[0]] + us[1..] == us;
    }
  }

  predicate Storable(sps: seq<Byte>, pps: seq<Byte>) {
    sps != START_CODE_4 && pps != START_CODE_4 && 0 < |sps| < 0x1_0000 && |pps| % 0x1_0000 != 0
  }

  /**
   * The parser takes both sets out of the record exactly when the sps has a 16-bit length; a pps that
   * is longer survives, because everything behind its length is kept, unless that length reads zero.
   */
  lemma StoredExactly(sps: seq<Byte>, pps: seq<Byte>)
    ensures SpecificInfoOf(Flv.ConfigRecord(sps, pps)) == (Ok, START_CODE_4 + sps + (START_CODE_4 + pps))
      <==> Storable(sps, pps)
  {
    hide SpecificInfoOf;
    var s, p := Flv.SameAsCode(sps), Flv.SameAsCode(pps);
    if |s| < 0x1_0000 {
      TakenFromRecord(s, p);
    } else {
      LongSpsIsLost(s, p);
    }
  }

  lemma TakenFromRecord(s: seq<Byte>, p: seq<Byte>)
    requires |s| < 0x1_0000
    ensures var r := SpecificInfoOf(RecordOf(s, p));
      if s != [] && |p| % 0x1_0000 != 0 then r == (Ok, START_CODE_4 + s + (START_CODE_4 + p)) else r.0 != Ok
  {
    hide BE, RecordOf;
    var src, e := RecordOf(s, p), [1] + (BE(|p|, 2) + p);
    RecordShape(s, p);
    assert src[8..8 + |s|] == src[8..][..|s|] == s && src[8 + |s|..] == src[8..][|s|..] == e;
    LowTwo(|p|);
    BE2(|p| % 0x1_0000, p);
    assert e[1..] == BE(|p|, 2) + p && e[3..] == p;
  }

  /** With a longer sps the second length is read from the middle of it. */
  lemma LongSpsIsLost(s: seq<Byte>, p: seq<Byte>)
    requires |s| >= 0x1_0000
    ensures forall pps :: SpecificInfoOf(RecordOf(s, p)) != (Ok, START_CODE_4 + s + (START_CODE_4 + pps))
  {
    hide BE, RecordOf;
    var src, l := RecordOf(s, p), |s| % 0x1_0000;
    RecordShape(s, p);
    var tmpBuf := src[8 + l..];
    assert tmpBuf == src[8..][l..] == s[l..] + ([1] + (BE(|p|, 2) + p));
    assert U16BE(tmpBuf[1..]) == s[l + 1] as int * 256 + s[l + 2] as int;
    forall pps ensures SpecificInfoOf(src) != (Ok, START_CODE_4 + s + (START_CODE_4 + pps)) {
      CodeInside(src[8..8 + l], tmpBuf[3..], s, pps);
    }
  }

  /** If the same bytes come about with a shorter first part, its successor's start code lies inside the longer one. */
  lemma CodeInside(x: seq<Byte>, y: seq<Byte>, s: seq<Byte>, t: seq<Byte>)
    requires |x| + 4 <= |s|
    ensures START_CODE_4 + x + (START_CODE_4 + y) == START_CODE_4 + s + (START_CODE_4 + t) ==>
              s[|x| + 1] == 0 && s[|x| + 2] == 0
  {
    var a, b, k := START_CODE_4 + x + (START_CODE_4 + y), START_CODE_4 + s + (START_CODE_4 + t), 4 + |x|;
    assert a[k + 1] == START_CODE_4[1] && a[k + 2] == START_CODE_4[2];
    assert b[k + 1] == s[|x| + 1] && b[k + 2] == s[|x| + 2];
  }

  /** Everything behind the six fixed bytes and the sps length, as the parser sees it. */
  function Behind(s: seq<Byte>, p: seq<Byte>): seq<Byte> {
    s + ([1] + (BE(|p|, 2) + p))
  }

  function RecordOf(s: seq<Byte>, p: seq<Byte>): seq<Byte> {
    [1, 66, 0, 40, 0xff, 0xe1] + BE(|s|, 2) + s + [1] + BE(|p|, 2) + p
  }

  lemma RecordShape(s: seq<Byte>, p: seq<Byte>)
    ensures var src := RecordOf(s, p);
      |src| == 11 + |s| + |p| && U16BE(src[6..]) == |s| % 0x1_0000 && src[8..] == Behind(s, p)
  {
    var src := RecordOf(s, p);
    LowTwo(|s|);
    BE2(|s| % 0x1_0000, Behind(s, p));
    assert src[6..] == BE(|s|, 2) + Behind(s, p);
  }

  lemma LowTwo(v: nat)
    ensures BE(v, 2) == BE(v % 0x1_0000, 2)
  {
    var w := v % 0x1_0000;
    assert v == v / 0x1_0000 * 0x1_0000 + w;
    assert v / 256 == v / 0x1_0000 * 256 + w / 256;
    TwoBytes(v);
    TwoBytes(w);
  }

  lemma TwoBytes(v: nat)
    ensures BE(v, 2) == [v / 256 % 256, v % 256]
  {
    assert BE(v / 256, 1) == BE(v / 256 / 256, 0) + [v / 256 % 256] == [v / 256 % 256];
  }

  // ---------- the converted stream, split again ----------

  const AUD_UNIT: seq<Byte> := [0x09, 0xf0]

  function Longs(n: nat): (r: seq<bool>)
    ensures |r| == n
  {
    seq(n, _ => true)
  }

  /** The units behind four-byte start codes. */
  function Chain(us: seq<seq<Byte>>): seq<Byte> {
    Join(us, Longs(|us|))
  }

  /** The low five bits of the first byte are the type (ITU-T H.264, section 7.3.1). */
  predicate OfType(u: seq<Byte>, types: set<nat>) {
    u != [] && u[0] % 32 in types
  }

  function OfTypes(us: seq<seq<Byte>>, types: set<nat>): seq<seq<Byte>> {
    if us == [] then []
    else OfTypes(us[..|us| - 1], types) + if OfType(us[|us| - 1], types) then [us[|us| - 1]] else []
  }

  /** Slices, IDR pictures and supplemental information. */
  const SHOWN: set<nat> := {1, 5, 6}

  /** Sequence and picture parameter sets. */
  const SETS: set<nat> := {7, 8}

  /**
   * The units of the converted stream, given those of the parameter sets the parser has stored: sets go in front of
   * the first IDR picture, the ones met before it or else the stored ones.
   */
  function Listed(us: seq<seq<Byte>>, stored: seq<seq<Byte>>): seq<seq<Byte>> {
    var k := FirstIdr(us);
    var sets := OfTypes(us[..k], SETS);
    OfTypes(us[..k], SHOWN) + (if k == |us| then [] else if sets == [] then stored else sets) + OfTypes(us[k..], SHOWN)
  }

  lemma {:induction false} ChainAppend(us: seq<seq<Byte>>, vs: seq<seq<Byte>>)
    ensures Chain(us + vs) == Chain(us) + Chain(vs)
    decreases |us|
  {
    if us == [] {
      assert us + vs == vs;
    } else {
      ChainStep(us);
      ChainStep(us + vs);
      assert (us + vs)[1..] == us[1..] + vs;
      ChainAppend(us[1..], vs);
      hide Chain;
      Regroup(START_CODE_4 + us[0], Chain(us[1..]), Chain(vs));
    }
  }

  lemma ChainStep(us: seq<seq<Byte>>)
    requires us != []
    ensures Chain(us) == START_CODE_4 + us[0] + Chain(us[1..])
  {
    var ls := Longs(|us|);
    assert ls[1..] == Longs(|us[1..]|);
    assert Join(us, ls) == Code(ls[0]) + Headless(us, ls);
    assert Headless(us, ls) == us[0] + Chain(us[1..]);
    assert START_CODE_4 + (us[0] + Chain(us[1..])) == START_CODE_4 + us[0] + Chain(us[1..]);
  }

  lemma {:induction false} CodedIsChain(us: seq<seq<Byte>>, keep: seq<Byte> -> bool, types: set<nat>)
    requires forall u :: keep(u) <==> OfType(u, types)
    ensures Coded(us, keep) == Chain(OfTypes(us, types))
    decreases |us|
  {
    if us != [] {
      var u, front := us[|us| - 1], us[..|us| - 1];
      CodedIsChain(front, keep, types);
      ChainAppend(OfTypes(front, types), [u]);
      ChainStep([u]);
      Single(u);
      assert START_CODE_4 + u + [] == START_CODE_4 + u;
      hide Join, Longs, Chain, OfType;
      assert OfTypes(us, types) == OfTypes(front, types) + if keep(u) then [u] else [];
      assert Chain(OfTypes(front, types)) + [] == Chain(OfTypes(front, types))
        && OfTypes(front, types) + [] == OfTypes(front, types);
    }
  }

  lemma Single(u: seq<Byte>)
    ensures [u][1..] == [] && Chain([]) == []
  {
  }

  lemma BodyIsChain(us: seq<seq<Byte>>, stored: seq<seq<Byte>>)
    ensures Body(us, Chain(stored)) == Chain(Listed(us, stored))
  {
    hide Coded, OfTypes, Chain, FirstIdr;
    var k := FirstIdr(us);
    CodedIsChain(us[..k], Shown, SHOWN);
    CodedIsChain(us[k..], Shown, SHOWN);
    CodedIsChain(us[..k], IsParameterSet, SETS);
    hide Shown, IsParameterSet, OfType;
    var a, sets, c := OfTypes(us[..k], SHOWN), OfTypes(us[..k], SETS), OfTypes(us[k..], SHOWN);
    var b := if k == |us| then [] else if sets == [] then stored else sets;
    EmptyChain(sets);
    EmptyChain([]);
    ChainAppend(a + b, c);
    ChainAppend(a, b);
  }

  lemma EmptyChain(us: seq<seq<Byte>>)
    ensures Chain(us) == [] <==> us == []
  {
    if us != [] {
      ChainStep(us);
    }
  }

  lemma {:induction false} OfTypesAreThere(us: seq<seq<Byte>>, types: set<nat>)
    ensures forall u :: u in OfTypes(us, types) ==> u in us && OfType(u, types)
    decreases |us|
  {
    if us != [] {
      OfTypesAreThere(us[..|us| - 1], types);
    }
  }

  /**
   * What the parser wrote can be cut at its start codes again: the delimiter, then exactly the shown
   * units in order, with the parameter sets once, in front of the first IDR unit. Only a frame whose
   * first unit is a single byte is taken for Annex B already and passes through.
   */
  lemma ConversionSplitsBack(us: seq<seq<Byte>>, stored: seq<seq<Byte>>, spare: seq<Byte>)
    requires us != [] && Prefixable(us)
    requires (forall u :: u in us ==> Clean(u)) && forall u :: u in stored ==> Clean(u)
    requires Listed(us, stored) != [] && |Listed(us, stored)[|Listed(us, stored)| - 1]| >= 4
    ensures |us[0]| != 1 ==>
      var (err, out) := ParsedAs(Flv.Prefixed(us), Chain(stored));
      err == Ok && ParseNalusSpec(out, spare, -1) == Nalus([AUD_UNIT] + Listed(us, stored))
    ensures |us[0]| == 1 ==> ParsedAs(Flv.Prefixed(us), Chain(stored)) == (Ok, Flv.Prefixed(us))
  {
    hide Listed, Body, Framed, Chain, Prefixable, Clean, Separable, ParseNalusSpec, Flv.Prefixed;
    FirstLength(us);
    SucceedsExactly(Flv.Prefixed(us), us);
    Output(us, stored);
    ListedIsClean(us, stored);
    var all := [AUD_UNIT] + Listed(us, stored);
    assert all[|all| - 1] == Listed(us, stored)[|Listed(us, stored)| - 1];
    ChainSplits(all, spare);
  }

  lemma Output(us: seq<seq<Byte>>, stored: seq<seq<Byte>>)
    ensures NALU_AUD + Body(us, Chain(stored)) == Chain([AUD_UNIT] + Listed(us, stored))
  {
    hide Listed, Body;
    BodyIsChain(us, stored);
    ChainAppend([AUD_UNIT], Listed(us, stored));
    ChainStep([AUD_UNIT]);
    Single(AUD_UNIT);
    assert START_CODE_4 + AUD_UNIT + [] == NALU_AUD;
  }

  lemma ChainSplits(all: seq<seq<Byte>>, spare: seq<Byte>)
    requires all != [] && |all[|all| - 1]| >= 4 && Separable(all, Longs(|all|))
    ensures ParseNalusSpec(Chain(all), spare, -1) == Nalus(all)
  {
    hide Separable, Headless, ParseNalusSpec;
    SplitInvertsJoin(all, Longs(|all|), true, spare, -1);
  }

  /** A first unit of one byte has the start code for its length. */
  lemma FirstLength(us: seq<seq<Byte>>)
    requires us != [] && Prefixable(us)
    ensures |Flv.Prefixed(us)| >= 4 && (Flv.Prefixed(us)[..4] == START_CODE_4 <==> |us[0]| == 1)
  {
    var n := |us[0]|;
    assert us[0] in us;
    var all := Flv.Prefixed(us);
    assert all == BE(n, 4) + us[0] + Flv.Prefixed(us[1..]) && all[..4] == BE(n, 4);
    BE4(n, []);
    BE4(1, []);
    assert BE(n, 4) + [] == BE(n, 4) && BE(1, 4) + [] == BE(1, 4) == START_CODE_4 by { BE4Bytes(1); }
  }

  lemma ListedIsClean(us: seq<seq<Byte>>, stored: seq<seq<Byte>>)
    requires (forall u :: u in us ==> Clean(u)) && forall u :: u in stored ==> Clean(u)
    ensures var all := [AUD_UNIT] + Listed(us, stored);
      Separable(all, Longs(|all|))
  {
    var k := FirstIdr(us);
    OfTypesAreThere(us[..k], SHOWN);
    OfTypesAreThere(us[..k], SETS);
    OfTypesAreThere(us[k..], SHOWN);
    hide FirstIdr, OfTypes, OfType, Clean;
    assert Clean(AUD_UNIT) by { TwoBytesAreClean(AUD_UNIT); }
    var l := Listed(us, stored);
    forall u | u in l ensures Clean(u) {}
    var all := [AUD_UNIT] + l;
    forall i | 0 <= i < |all| ensures Clean(all[i]) {
      if i > 0 {
        assert all[i] == l[i - 1];
      }
    }
  }

  lemma TwoBytesAreClean(u: seq<Byte>)
    requires |u| == 2
    ensures Clean(u)
  {
  }
}
