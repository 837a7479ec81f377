/** MetaDataReform: putting "@setDataFrame" in front of a metadata message and taking it away. */
module Metadata {
  import opened Bytes
  import opened Buffers
  import opened AmfValues
  import opened AmfExpected
  import opened AmfDecoder
  import Amf0Format
  import Amf3Format
  import Amf0RoundTrip
  import AmfExternal
  import opened Amf3RoundTrip

  const ADD: Byte := 0
  const DEL: Byte := 3

  /** "@setDataFrame" */
  const SET_DATA_FRAME: Str := [64, 115, 101, 116, 68, 97, 116, 97, 70, 114, 97, 109, 101]

  /** The 16 bytes of the encoded string. */
  const FRAME: seq<Byte> := [2, 0, 13] + SET_DATA_FRAME

  const FRESH: Tables := Tables([], [], [])

  datatype Reformed = Payload(bytes: seq<Byte>) | Error

  function First(fp: FloatOps, p: seq<Byte>): Decoded<Value> {
    Amf0Format.Dec(true, fp, p, FRESH)
  }

  function Reform(fp: FloatOps, p: seq<Byte>, flag: Byte): Reformed {
    match First(fp, p)
    case Fail(_) => Error
    case Ok(v, _, _) =>
      if !v.Text? then Error
      else if flag == ADD then Payload(if v.s != SET_DATA_FRAME then FRAME + p else p)
      else if flag == DEL then
        if v.s != SET_DATA_FRAME then Payload(p)
        else if |p| < |FRAME| then Error
        else Payload(p[|FRAME|..])
      else Error
  }

  method MetaDataReform(fp: FloatOps, data: seq<Byte>, flag: Byte) returns (r: Reformed)
    ensures r == Reform(fp, data, flag)
  {
    hide Amf0Format.Dec;
    var p := data;
    var reader := new Reader(p, true);
    var decoder := new Decoder(fp);
    if flag == ADD || flag == DEL {
      var v := decoder.Decode(reader, 0);
      if v.Err? || !v.value.Text? {
        return Error;
      }
      if flag == ADD {
        if v.value.s != SET_DATA_FRAME {
          var b := new Byte[|FRAME| + |p|];
          Copy(b, 0, FRAME);
          Copy(b, |FRAME|, p);
          assert b[..] == b[..|FRAME| + |p|];
          p := b[..];
        }
      } else if v.value.s == SET_DATA_FRAME {
        FrameIsThere(fp, p);
        p := p[|FRAME|..];
      }
      return Payload(p);
    }
    return Error;
  }

  /** No encoding of the string takes fewer than 16 bytes, so cutting them off never leaves the slice. */
  lemma FrameIsThere(fp: FloatOps, p: seq<Byte>)
    requires First(fp, p).Ok? && First(fp, p).value == Text(SET_DATA_FRAME)
    ensures |p| >= |FRAME|
    ensures p[0] == 2 || p[0] == 12 || p[0] == 15 || p[0] == 17
    ensures p[0] == 2 ==> First(fp, p).rest == p[|FRAME|..]
    ensures p[0] == 12 || p[0] == 15 ==> |First(fp, p).rest| == |p| - |FRAME| - 2
    ensures p[0] == 17 ==>
      if p[2] == 27 then First(fp, p).rest == p[|FRAME|..] else |First(fp, p).rest| < |p| - |FRAME|
  {
    var t := p[1..];
    TextMarkers(fp, p);
    if p[0] == 17 {
      ThroughAmf3(fp, t);
      if t[1] == 27 {
        assert t[15..] == p[16..];
      }
    } else if p[0] == 2 {
      assert t[2 + 13..] == p[16..];
    } else {
      hide U32BE;
      assert Amf0Format.DecLong(true, t, FRESH).value == t[4..4 + U32BE(t)];
    }
  }

  lemma ShortIsPadded(body: seq<Byte>, n: nat)
    requires n > 0
    ensures |body| < n ==> Padded(body, n)[n - 1] == 0
  {
  }

  /** Only four markers lead to a string. */
  lemma TextMarkers(fp: FloatOps, p: seq<Byte>)
    requires First(fp, p).Ok? && First(fp, p).value.Text?
    ensures p[0] == 2 || p[0] == 12 || p[0] == 15 || p[0] == 17
  {
    hide Amf0Format.DecEcma, Amf0Format.DecList, Amf0Format.DecTyped, U32BE;
  }

  /**
   * The same inside an AMF3 value: the string and XML markers lead to it, and an array collection around one that
   * does.
   */
  lemma ThroughAmf3(fp: FloatOps, t: seq<Byte>)
    requires var r := Amf3Format.Dec(true, fp, t, FRESH); r.Ok? && r.value == Text(SET_DATA_FRAME)
    ensures |t| >= 15
    ensures var rest := Amf3Format.Dec(true, fp, t, FRESH).rest;
      if t[1] == 27 then rest == t[15..] else |rest| < |t| - 15
  {
    hide U32BE, Amf3Format.DecObject, Amf3Format.DecList;
    var s := t[1..];
    NoTextInList(fp, s);
    if t[0] == 10 {
      ThroughCollection(fp, s);
    } else {
      assert t[0] == 6 || t[0] == 7 || t[0] == 11;
      assert Amf3Format.ReadRef(s).InLine?;
      var len, n := Amf3Format.ReadRef(s).val, Amf3Format.ReadRef(s).at;
      var body := s[n..];
      assert Padded(body, len) == SET_DATA_FRAME && len == 13;
      ShortIsPadded(body, 13);
      assert Rest(body, 13) == t[1 + n + 13..];
    }
  }

  lemma NoTextInList(fp: FloatOps, s: seq<Byte>)
    ensures var r := Amf3Format.DecList(true, fp, s, FRESH); r.Ok? ==> r.value.List?
  {
    hide Amf3Format.DecElems, Amf3Format.DecText, Amf3Format.ReadRef;
  }

  /** With fresh tables the class name has to be there in full, so such a value is longer than any string. */
  lemma ThroughCollection(fp: FloatOps, s: seq<Byte>)
    ensures var r := Amf3Format.DecObject(true, fp, s, FRESH);
      r.Ok? && r.value.Text? ==> |r.rest| + 33 < |s| && s[0] != 27
  {
    hide Amf3Format.DecBuiltIn, Amf3Format.DecTrait, Amf3Format.DecValues, Amf3Format.DecDynamic, Amf3Format.DecU29;
    var r := Amf3Format.DecObject(true, fp, s, FRESH);
    if r.Ok? && r.value.Text? {
      var ref := Amf3Format.ReadRef(s);
      assert ref.InLine?;
      var cls := Amf3Format.DecTrait(true, s[ref.at..], ref.val, FRESH);
      assert cls.Ok? && cls.value.externalizable;
      OnlyCollections(fp, cls.value.name, cls.rest, cls.refs);
      NameIsThere(s[ref.at..], ref.val);
      HeaderIsNot27(s);
    }
  }

  lemma HeaderIsNot27(s: seq<Byte>)
    requires Amf3Format.ReadRef(s).InLine? && Amf3Format.ReadRef(s).val / 2 % 2 == 1
    ensures s[0] != 27
  {
  }

  lemma OnlyCollections(fp: FloatOps, name: Str, s: seq<Byte>, refs: Tables)
    requires var r := Amf3Format.DecBuiltIn(true, fp, name, s, refs); r.Ok? && r.value.Text?
    ensures name == AmfExternal.ARRAY_COLLECTION
  {
    hide Amf3Format.Dec, Amf3Format.DecAsync, Amf3Format.DecExternal;
  }

  lemma NameIsThere(s: seq<Byte>, val: nat)
    requires var r := Amf3Format.DecTrait(true, s, val, FRESH);
      r.Ok? && r.value.name == AmfExternal.ARRAY_COLLECTION && r.value.externalizable
    ensures |Amf3Format.DecTrait(true, s, val, FRESH).rest| + 33 < |s| && val / 2 % 2 == 1
  {
    hide Amf3Format.DecTexts, Amf3Format.DecU29;
    AmfExternal.CollectionName();
    var name := Amf3Format.DecText(true, s, FRESH);
    assert name.Ok? && name.value == AmfExternal.ARRAY_COLLECTION;
    var ref := Amf3Format.ReadRef(s);
    assert ref.InLine?;
    var body := s[ref.at..];
    assert Padded(body, ref.val) == AmfExternal.ARRAY_COLLECTION && ref.val == 33;
    NotPadded(body);
  }

  lemma NotPadded(body: seq<Byte>)
    requires Padded(body, 33) == AmfExternal.ARRAY_COLLECTION
    ensures |body| >= 33
  {
    AmfExternal.CollectionName();
    ShortIsPadded(body, 33);
  }

  /** An array collection around the string counts as the string, and deleting cuts into its class name. */
  lemma CollectionCounts(fp: FloatOps, rest: seq<Byte>)
    ensures var p := [17 as Byte] + Collection([6, 27] + SET_DATA_FRAME + rest);
      && First(fp, p).Ok? && First(fp, p).value == Text(SET_DATA_FRAME) && First(fp, p).rest == rest
      && Reform(fp, p, ADD) == Payload(p)
      && |p| >= 16 && Reform(fp, p, DEL) == Payload(p[16..]) && p[16..] != rest
  {
    hide Amf3Format.Dec, Collection;
    var body := [6, 27] + SET_DATA_FRAME + rest;
    var p := [17 as Byte] + Collection(body);
    var refs := Inside(AmfExternal.ARRAY_COLLECTION, FRESH);
    CollectionIsTransparent(true, fp, body, FRESH);
    StringRead(fp, rest, refs);
    assert p[1..] == Collection(body);
    assert |Collection(body)| >= 33 + |rest| by { CollectionLength(body); }
    assert Amf0Format.Dec(true, fp, p, FRESH) == Amf3Format.Dec(true, fp, Collection(body), FRESH) by {
      hide Amf0Format.DecEntries, Amf0Format.DecElems;
      assert p[0] == 17;
    }
  }

  lemma CollectionLength(body: seq<Byte>)
    ensures |Collection(body)| >= 35 + |body|
  {
    AmfExternal.CollectionName();
    ClassNames();
  }

  lemma StringRead(fp: FloatOps, rest: seq<Byte>, refs: Tables)
    ensures var r := Amf3Format.Dec(true, fp, [6, 27] + SET_DATA_FRAME + rest, refs);
      r.Ok? && r.value == Text(SET_DATA_FRAME) && r.rest == rest
  {
    var s := [27 as Byte] + (SET_DATA_FRAME + rest);
    assert ([6, 27] + SET_DATA_FRAME + rest)[1..] == s && s[1..] == SET_DATA_FRAME + rest;
    assert Amf3Format.ReadRef(s) == Amf3Format.InLine(13, 1);
    assert Padded(SET_DATA_FRAME + rest, 13) == SET_DATA_FRAME && Rest(SET_DATA_FRAME + rest, 13) == rest;
  }

  lemma FramedFirst(fp: FloatOps, p: seq<Byte>)
    ensures First(fp, FRAME + p) == Ok(Text(SET_DATA_FRAME), p, FRESH)
  {
    Amf0RoundTrip.RoundTrip(true, fp, TText(SET_DATA_FRAME), p, FRESH);
    assert BE(13, 2) == [0, 13];
    assert Amf0Format.Enc(fp, TText(SET_DATA_FRAME)).bytes == [2] + ([0, 13] + SET_DATA_FRAME) == FRAME;
  }

  /** In bytes: a short string of 13 letters goes in front of any payload that starts with another string. */
  lemma AddsThePrefix(fp: FloatOps, p: seq<Byte>)
    requires First(fp, p).Ok? && First(fp, p).value.Text?
    ensures var name := AmfExternal.Ascii("@setDataFrame");
      Reform(fp, p, 0) == Payload(if First(fp, p).value == Text(name) then p else [2, 0, 13] + name + p)
  {
    assert SET_DATA_FRAME == AmfExternal.Ascii("@setDataFrame");
  }

  // ---------- the laws ----------

  function Bind(fp: FloatOps, r: Reformed, flag: Byte): Reformed {
    match r case Error => Error case Payload(p) => Reform(fp, p, flag)
  }

  /**
   * For every payload, whatever its first value: adding is idempotent, and deleting after adding is
   * deleting. Where the prefix was not there, deleting after adding gives the payload back.
   */
  lemma WrappingLaws(fp: FloatOps, p: seq<Byte>)
    ensures Bind(fp, Reform(fp, p, ADD), ADD) == Reform(fp, p, ADD)
    ensures Bind(fp, Reform(fp, p, ADD), DEL) == Reform(fp, p, DEL)
    ensures Reform(fp, p, ADD).Payload? && First(fp, p).value != Text(SET_DATA_FRAME) ==>
              Bind(fp, Reform(fp, p, ADD), DEL) == Payload(p)
    ensures Reform(fp, p, ADD).Payload? <==> Reform(fp, p, DEL).Payload?
  {
    hide First;
    var first := First(fp, p);
    FramedFirst(fp, p);
    assert (FRAME + p)[|FRAME|..] == p;
    if first.Ok? && first.value == Text(SET_DATA_FRAME) {
      FrameIsThere(fp, p);
    }
  }

  /**
   * Deleting takes away exactly the first value when that is a short string, or an AMF3 string whose
   * length is written in one byte; a long string or an XML document loses two bytes too few, an array
   * collection around the string part of its class name.
   */
  lemma DeletesExactly(fp: FloatOps, p: seq<Byte>)
    requires First(fp, p).Ok? && First(fp, p).value == Text(SET_DATA_FRAME)
    ensures |p| >= 16
    ensures Reform(fp, p, DEL) == Payload(First(fp, p).rest) <==> p[0] == 2 || (p[0] == 17 && p[2] == 27)
  {
    hide First;
    FrameIsThere(fp, p);
  }
}
