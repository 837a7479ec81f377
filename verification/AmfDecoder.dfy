/** The Decoder: it consumes a reader and lets its reference tables grow. */
module AmfDecoder {
  import opened Bytes
  import opened Buffers
  import opened AmfValues
  import opened AmfExpected
  import Amf0Format
  import Amf3Format
  import X = AmfExternal
  import AmfBatch

  datatype Outcome<+T> = Got(value: T) | Err(fault: Fault)

  class Decoder {
    const fp: FloatOps
    var stringRefs: seq<Str>
    var objectRefs: seq<Value>
    var traitRefs: seq<Trait>

    constructor (fp: FloatOps)
      ensures this.fp == fp && Refs() == Tables([], [], [])
    {
      this.fp := fp;
      stringRefs, objectRefs, traitRefs := [], [], [];
    }

    function Refs(): Tables
      reads this
    {
      Tables(stringRefs, objectRefs, traitRefs)
    }

    /** The decoder did what the function says; nothing is said about the tables and the reader after an error. */
    ghost predicate Did<T>(spec: Decoded<T>, got: Outcome<T>, r: Reader)
      reads this, r
    {
      match spec
      case Ok(v, rest, refs) => got == Got(v) && r.rest == rest && Refs() == refs
      case Fail(f) => got == Err(f)
    }

    // ---------- AMF3 ----------

    method DecodeU29(r: Reader) returns (v: Outcome<nat>)
      modifies r
      ensures match Amf3Format.DecU29(old(r.rest))
              case None => v == Err(Eof)
              case Some((u, n)) => v == Got(u) && r.rest == old(r.rest)[n..]
    {
      var u: nat := 0;
      ghost var s := r.rest;
      for i := 0 to 3
        invariant i <= |s| && r.rest == s[i..] && Go(s, i, u)
      {
        var b := r.ReadByte();
        if b == None {
          return Err(Eof);
        }
        u := u * 0x80 + b.value % 0x80;
        if b.value < 0x80 {
          return Got(u);
        }
      }
      var b := r.ReadByte();
      if b == None {
        return Err(Eof);
      }
      return Got(u * 0x100 + b.value);
    }

    /** After i bytes with the continuation bit, u holds their low seven bits. */
    static ghost predicate Go(s: seq<Byte>, i: nat, u: nat)
      requires i <= |s|
    {
      && (forall j :: 0 <= j < i ==> s[j] >= 0x80)
      && (i == 0 ==> u == 0)
      && (i == 1 ==> u == Amf3Format.Low7(s[0]))
      && (i == 2 ==> u == Amf3Format.Low7(s[0]) * 0x80 + Amf3Format.Low7(s[1]))
      && (i == 3 ==> u == Amf3Format.Low7(s[0]) * 0x4000 + Amf3Format.Low7(s[1]) * 0x80 + Amf3Format.Low7(s[2]))
    }

    method DecodeReferenceInt(r: Reader) returns (v: Outcome<(bool, nat)>)
      modifies r
      ensures match Amf3Format.ReadRef(old(r.rest))
              case NoInt => v == Err(Malformed)
              case Ref(i, n) => v == Got((true, i)) && r.rest == old(r.rest)[n..]
              case InLine(i, n) => v == Got((false, i)) && r.rest == old(r.rest)[n..]
    {
      hide Amf3Format.DecU29;
      var u29 := DecodeU29(r);
      if u29.Err? {
        return Err(Malformed);
      }
      return Got((u29.value % 2 == 0, u29.value / 2));
    }

    method ReadDouble(r: Reader) returns (v: Outcome<Float>)
      modifies r
      ensures match ReadFloat(old(r.rest), Refs())
              case Ok(d, rest, _) => v == Got(d) && r.rest == rest
              case Fail(f) => v == Err(f)
    {
      if |r.rest| < 8 {
        return Err(Malformed);
      }
      var b := r.Read(8);
      return Got(b.value);
    }

    method DecodeAmf3String(r: Reader) returns (v: Outcome<Str>)
      modifies this, r
      ensures Did(Amf3Format.DecText(r.strict, old(r.rest), old(Refs())), v, r)
    {
      hide Amf3Format.ReadRef;
      var ref := DecodeReferenceInt(r);
      if ref.Err? {
        return Err(Malformed);
      }
      var (isRef, refVal) := ref.value;
      if isRef {
        if refVal >= |stringRefs| {
          return Err(Panic);
        }
        return Got(stringRefs[refVal]);
      }
      var buf := r.Read(refVal);
      if buf == None {
        return Err(Malformed);
      }
      if buf.value != [] {
        stringRefs := stringRefs + [buf.value];
      }
      return Got(buf.value);
    }

    method DecodeAmf3Date(r: Reader) returns (v: Outcome<Value>)
      modifies this, r
      ensures Did(Amf3Format.DecDate(fp, old(r.rest), old(Refs())), v, r)
    {
      hide Amf3Format.ReadRef;
      var ref := DecodeReferenceInt(r);
      if ref.Err? {
        return Err(Malformed);
      }
      var (isRef, refVal) := ref.value;
      if isRef {
        if refVal >= |objectRefs| {
          return Err(Panic);
        }
        if !objectRefs[refVal].Date? {
          return Err(Malformed);
        }
        return Got(objectRefs[refVal]);
      }
      var d := ReadDouble(r);
      if d.Err? {
        return Err(d.fault);
      }
      var date := Date(fp.dateIn(d.value));
      objectRefs := objectRefs + [date];
      return Got(date);
    }

    method DecodeAmf3Xml(r: Reader) returns (v: Outcome<Value>)
      modifies this, r
      ensures Did(Amf3Format.DecXml(r.strict, old(r.rest), old(Refs())), v, r)
    {
      hide Amf3Format.ReadRef;
      var ref := DecodeReferenceInt(r);
      if ref.Err? {
        return Err(Malformed);
      }
      var (isRef, refVal) := ref.value;
      if isRef {
        if refVal >= |objectRefs| {
          return Err(Panic);
        }
        if !objectRefs[refVal].Text? {
          return Err(Malformed);
        }
        return Got(objectRefs[refVal]);
      }
      var buf := r.Read(refVal);
      if buf == None {
        return Err(Malformed);
      }
      if buf.value != [] {
        objectRefs := objectRefs + [Text(buf.value)];
      }
      return Got(Text(buf.value));
    }

    method DecodeAmf3ByteArray(r: Reader) returns (v: Outcome<Value>)
      modifies this, r
      ensures Did(Amf3Format.DecBlob(r.strict, old(r.rest), old(Refs())), v, r)
    {
      hide Amf3Format.ReadRef;
      var ref := DecodeReferenceInt(r);
      if ref.Err? {
        return Err(Malformed);
      }
      var (isRef, refVal) := ref.value;
      if isRef {
        if refVal >= |objectRefs| {
          return Err(Panic);
        }
        if !objectRefs[refVal].Blob? {
          return Err(Malformed);
        }
        return Got(objectRefs[refVal]);
      }
      var buf := r.Read(refVal);
      if buf == None {
        return Err(Malformed);
      }
      objectRefs := objectRefs + [Blob(buf.value)];
      return Got(Blob(buf.value));
    }

    method DecodeAmf3Integer(r: Reader) returns (v: Outcome<Value>)
      modifies r
      ensures Did(Amf3Format.DecInt(old(r.rest), Refs()), v, r)
    {
      hide Amf3Format.DecU29;
      var u29 := DecodeU29(r);
      if u29.Err? {
        return Err(u29.fault);
      }
      var result: int := u29.value;
      if result > 0xFFF_FFFF {
        result := result - 0x2000_0000;
      }
      return Got(Int(result));
    }

    method DecodeAmf3(r: Reader) returns (v: Outcome<Value>)
      modifies this, r
      ensures Did(Amf3Format.Dec(r.strict, fp, old(r.rest), old(Refs())), v, r)
      decreases |r.rest|, 0
    {
      hide Amf3Format.DecInt, Amf3Format.DecText, Amf3Format.DecXml, Amf3Format.DecDate, Amf3Format.DecBlob,
        Amf3Format.DecList, Amf3Format.DecObject;
      var marker := r.ReadByte();
      if marker == None {
        return Err(Eof);
      }
      match marker.value
      case 0 => return Got(Nil);
      case 1 => return Got(Nil);
      case 2 => return Got(Bool(false));
      case 3 => return Got(Bool(true));
      case 4 =>
        v := DecodeAmf3Integer(r);
      case 5 =>
        var d := ReadDouble(r);
        return if d.Err? then Err(d.fault) else Got(Double(d.value));
      case 6 =>
        var s := DecodeAmf3String(r);
        return if s.Err? then Err(s.fault) else Got(Text(s.value));
      case 7 =>
        v := DecodeAmf3Xml(r);
      case 8 =>
        v := DecodeAmf3Date(r);
      case 9 =>
        v := DecodeAmf3Array(r);
      case 10 =>
        v := DecodeAmf3Object(r);
      case 11 =>
        v := DecodeAmf3Xml(r);
      case 12 =>
        v := DecodeAmf3ByteArray(r);
      case _ => return Err(Malformed);
    }

    method DecodeAmf3Array(r: Reader) returns (v: Outcome<Value>)
      modifies this, r
      ensures Did(Amf3Format.DecList(r.strict, fp, old(r.rest), old(Refs())), v, r)
      decreases |r.rest|, 2
    {
      hide Amf3Format.ReadRef, Amf3Format.DecText, Amf3Format.Dec, Amf3Format.DecElems;
      var ref := DecodeReferenceInt(r);
      if ref.Err? {
        return Err(Malformed);
      }
      var (isRef, refVal) := ref.value;
      if isRef {
        if refVal / 2 >= |objectRefs| {
          return Err(Panic);
        }
        if !objectRefs[refVal / 2].List? {
          return Err(Malformed);
        }
        return Got(objectRefs[refVal / 2]);
      }
      var key := DecodeAmf3String(r);
      if key.Err? {
        return Err(Wrap(key.fault));
      }
      if key.value != [] {
        return Err(Malformed);
      }
      var vs := DecodeElems3(r, refVal);
      if vs.Err? {
        return Err(vs.fault);
      }
      objectRefs := objectRefs + [List(vs.value)];
      return Got(List(vs.value));
    }

    method DecodeElems3(r: Reader, n: nat) returns (vs: Outcome<seq<Value>>)
      modifies this, r
      ensures Did(Amf3Format.DecElems(r.strict, fp, n, old(r.rest), old(Refs())), vs, r)
      decreases |r.rest|, 1
    {
      hide Amf3Format.Dec;
      var result := [];
      ghost var all := Amf3Format.DecElems(r.strict, fp, n, r.rest, Refs());
      assert all.Ok? ==> [] + all.value == all.value;
      for i := 0 to n
        invariant |r.rest| <= |old(r.rest)|
        invariant Prepend(result, Amf3Format.DecElems(r.strict, fp, n - i, r.rest, Refs())) == all
      {
        ghost var one := Amf3Format.Dec(r.strict, fp, r.rest, Refs());
        var tmp := DecodeAmf3(r);
        if tmp.Err? {
          return Err(Wrap(tmp.fault));
        }
        PrependStep(result, tmp.value, Amf3Format.DecElems(r.strict, fp, n - i - 1, r.rest, Refs()));
        result := result + [tmp.value];
      }
      assert result + [] == result;
      return Got(result);
    }

    static function Prepend(done: seq<Value>, r: Decoded<seq<Value>>): Decoded<seq<Value>> {
      match r
      case Ok(vs, rest, refs) => Ok(done + vs, rest, refs)
      case Fail(f) => Fail(f)
    }

    static lemma PrependStep(done: seq<Value>, v: Value, r: Decoded<seq<Value>>)
      ensures Prepend(done, Prepend([v], r)) == Prepend(done + [v], r)
    {
      if r.Ok? {
        assert done + ([v] + r.value) == done + [v] + r.value;
      }
    }

    method DecodeTraits(r: Reader, refVal: nat) returns (v: Outcome<Trait>)
      modifies this, r
      ensures Did(Amf3Format.DecTrait(r.strict, old(r.rest), refVal, old(Refs())), v, r)
    {
      hide Amf3Format.DecText, Amf3Format.DecTexts;
      if refVal % 2 == 0 {
        if refVal / 2 >= |traitRefs| {
          return Err(Panic);
        }
        v := Got(traitRefs[refVal / 2]);
      } else {
        var name := DecodeAmf3String(r);
        if name.Err? {
          return Err(Wrap(name.fault));
        }
        var properties := DecodeNames(r, refVal / 8);
        if properties.Err? {
          return Err(properties.fault);
        }
        var t := Trait(name.value, refVal / 2 % 2 != 0, refVal / 4 % 2 != 0, properties.value);
        traitRefs := traitRefs + [t];
        v := Got(t);
      }
      objectRefs := objectRefs + [Nil];
    }

    method DecodeNames(r: Reader, n: nat) returns (v: Outcome<seq<Str>>)
      modifies this, r
      ensures Did(Amf3Format.DecTexts(r.strict, n, old(r.rest), old(Refs())), v, r)
    {
      hide Amf3Format.DecText;
      var names := [];
      ghost var all := Amf3Format.DecTexts(r.strict, n, r.rest, Refs());
      assert all.Ok? ==> [] + all.value == all.value;
      for i := 0 to n
        invariant match Amf3Format.DecTexts(r.strict, n - i, r.rest, Refs())
                  case Fail(f) => all == Fail(f)
                  case Ok(ts, rest, refs) => all == Ok(names + ts, rest, refs)
      {
        ghost var more := Amf3Format.DecTexts(r.strict, n - i, r.rest, Refs());
        var tmp := DecodeAmf3String(r);
        if tmp.Err? {
          return Err(Wrap(tmp.fault));
        }
        ghost var after := Amf3Format.DecTexts(r.strict, n - i - 1, r.rest, Refs());
        assert after.Ok? ==> names + ([tmp.value] + after.value) == names + [tmp.value] + after.value;
        names := names + [tmp.value];
      }
      assert names + [] == names;
      return Got(names);
    }

    method DecodeAmf3Object(r: Reader) returns (v: Outcome<Value>)
      modifies this, r
      ensures Did(Amf3Format.DecObject(r.strict, fp, old(r.rest), old(Refs())), v, r)
      decreases |r.rest|, 2
    {
      hide Amf3Format.ReadRef, Amf3Format.DecTrait, Amf3Format.Dec, Amf3Format.DecValues, Amf3Format.DecDynamic,
        Amf3Format.DecBuiltIn;
      var ref := DecodeReferenceInt(r);
      if ref.Err? {
        return Err(Malformed);
      }
      var (isRef, refVal) := ref.value;
      if isRef {
        if refVal / 2 >= |objectRefs| {
          return Err(Panic);
        }
        return Got(objectRefs[refVal / 2]);
      }
      var t := DecodeTraits(r, refVal);
      if t.Err? {
        return Err(t.fault);
      }
      if t.value.externalizable {
        v := DecodeBuiltIn(r, t.value.name);
        return;
      }
      var obj := DecodeValues(r, t.value.properties);
      if obj.Err? {
        return Err(obj.fault);
      }
      if t.value.dynamic {
        obj := DecodeDynamic(r, obj.value);
        if obj.Err? {
          return Err(obj.fault);
        }
      }
      return Got(Object(obj.value));
    }

    method DecodeValues(r: Reader, properties: seq<Str>) returns (v: Outcome<map<Str, Value>>)
      modifies this, r
      ensures Did(Amf3Format.DecValues(r.strict, fp, properties, old(r.rest), old(Refs()), map[]), v, r)
      decreases |r.rest|, 1
    {
      hide Amf3Format.Dec;
      var obj: map<Str, Value> := map[];
      assert properties[0..] == properties;
      for i := 0 to |properties|
        invariant |r.rest| <= |old(r.rest)|
        invariant Amf3Format.DecValues(r.strict, fp, properties[i..], r.rest, Refs(), obj)
               == Amf3Format.DecValues(r.strict, fp, properties, old(r.rest), old(Refs()), map[])
      {
        assert properties[i..][1..] == properties[i + 1..];
        var val := DecodeAmf3(r);
        if val.Err? {
          return Err(Wrap(val.fault));
        }
        obj := obj[properties[i] := val.value];
      }
      return Got(obj);
    }

    method DecodeDynamic(r: Reader, sealed: map<Str, Value>) returns (v: Outcome<map<Str, Value>>)
      modifies this, r
      ensures Did(Amf3Format.DecDynamic(r.strict, fp, old(r.rest), old(Refs()), sealed), v, r)
      decreases |r.rest|, 1
    {
      hide Amf3Format.Dec, Amf3Format.DecText;
      var obj := sealed;
      while true
        invariant |r.rest| <= |old(r.rest)|
        invariant Amf3Format.DecDynamic(r.strict, fp, r.rest, Refs(), obj)
               == Amf3Format.DecDynamic(r.strict, fp, old(r.rest), old(Refs()), sealed)
        decreases |r.rest|
      {
        ghost var first := Amf3Format.DecText(r.strict, r.rest, Refs());
        var key := DecodeAmf3String(r);
        if key.Err? {
          return Err(Wrap(key.fault));
        }
        if key.value == [] {
          return Got(obj);
        }
        ghost var second := Amf3Format.Dec(r.strict, fp, r.rest, Refs());
        var val := DecodeAmf3(r);
        if val.Err? {
          return Err(Wrap(val.fault));
        }
        obj := obj[key.value := val.value];
      }
    }

    // ---------- externalizable classes ----------

    /** The switch on the class name. */
    method DecodeBuiltIn(r: Reader, name: Str) returns (v: Outcome<Value>)
      modifies this, r
      ensures Did(Amf3Format.DecBuiltIn(r.strict, fp, name, old(r.rest), old(Refs())), v, r)
      decreases |r.rest|, 5
    {
      hide Amf3Format.Dec, Amf3Format.DecAsync, Amf3Format.DecExternal;
      if name == X.ASYNC_MESSAGE {
        var obj := DecodeAsyncMessage(r);
        return if obj.Err? then Err(Wrap(obj.fault)) else Got(Object(obj.value));
      } else if name == X.ACKNOWLEDGE_MESSAGE {
        var obj := DecodeAcknowledgeMessage(r);
        return if obj.Err? then Err(obj.fault) else Got(Object(obj.value));
      } else if name == X.ARRAY_COLLECTION {
        var child := DecodeAmf3(r);
        if child.Err? {
          return Err(Wrap(child.fault));
        }
        objectRefs := objectRefs + [child.value];
        return child;
      }
      return Err(External);
    }

    method DecodeAcknowledgeMessage(r: Reader) returns (v: Outcome<map<Str, Value>>)
      modifies this, r
      ensures match Amf3Format.DecBuiltIn(r.strict, fp, X.ACKNOWLEDGE_MESSAGE, old(r.rest), old(Refs()))
              case Ok(o, rest, refs) => o.Object? && v == Got(o.fields) && r.rest == rest && Refs() == refs
              case Fail(f) => v == Err(f)
      decreases |r.rest|, 4
    {
      hide Amf3Format.Dec, Amf3Format.DecAsync, Amf3Format.DecExternal;
      Names();
      var obj := DecodeAsyncMessage(r);
      if obj.Err? {
        return Err(Wrap(obj.fault));
      }
      obj := DecodeExternal(r, obj.value, []);
      return if obj.Err? then Err(Wrap(obj.fault)) else obj;
    }

    static lemma Names()
      ensures X.ASYNC_MESSAGE != X.ACKNOWLEDGE_MESSAGE
    {
      assert X.ASYNC_MESSAGE[2] == 'A' as int && X.ACKNOWLEDGE_MESSAGE[2] == 'K' as int;
    }

    method DecodeAsyncMessage(r: Reader) returns (v: Outcome<map<Str, Value>>)
      modifies this, r
      ensures Did(Amf3Format.DecAsync(r.strict, fp, old(r.rest), old(Refs())), v, r)
      decreases |r.rest|, 3
    {
      hide Amf3Format.DecExternal;
      var obj := DecodeExternal(r, map[], X.ABSTRACT_FIELDS);
      if obj.Err? {
        return Err(Wrap(obj.fault));
      }
      v := DecodeExternal(r, obj.value, X.ASYNC_FIELDS);
    }

    method ReadFlags(r: Reader) returns (flagSet: Outcome<seq<Byte>>)
      modifies r
      ensures match X.FlagCount(old(r.rest))
              case None => flagSet == Err(Malformed)
              case Some(n) => flagSet == Got(old(r.rest)[..n]) && r.rest == old(r.rest)[n..]
    {
      var result := [];
      ghost var s := r.rest;
      while true
        invariant |result| <= |s| && result == s[..|result|] && r.rest == s[|result|..]
        invariant match (X.FlagCount(s), X.FlagCount(r.rest))
                  case (None, None) => true
                  case (Some(n), Some(m)) => n == |result| + m
                  case _ => false
        decreases |r.rest|
      {
        var flag := r.ReadByte();
        if flag == None {
          return Err(Malformed);
        }
        assert s[..|result| + 1] == s[..|result|] + [s[|result|]];
        result := result + [flag.value];
        if flag.value < 0x80 {
          return Got(result);
        }
      }
    }

    /** obj is filled in place: a value for every flag, under the name the field sets give it or a made-up one. */
    method DecodeExternal(r: Reader, obj: map<Str, Value>, fieldSets: seq<seq<Str>>)
        returns (v: Outcome<map<Str, Value>>)
      modifies this, r
      ensures Did(Amf3Format.DecExternal(r.strict, fp, fieldSets, old(r.rest), old(Refs()), obj), v, r)
      decreases |r.rest|, 2
    {
      hide Amf3Format.Dec, X.FlagCount, Amf3Format.DecValues, X.FieldsOf;
      var flagSet := ReadFlags(r);
      if flagSet.Err? {
        return Err(Malformed);
      }
      var all := obj;
      ghost var s, refs := r.rest, Refs();
      assert flagSet.value[0..] == flagSet.value;
      for i := 0 to |flagSet.value|
        invariant |r.rest| <= |s|
        invariant Amf3Format.DecValues(r.strict, fp, X.ExternalFields(i, flagSet.value[i..], fieldSets),
                                       r.rest, Refs(), all)
               == Amf3Format.DecValues(r.strict, fp, X.ExternalFields(0, flagSet.value, fieldSets), s, refs, obj)
      {
        var flags := flagSet.value[i];
        var fieldNames := if i < |fieldSets| then fieldSets[i] else [];
        assert flagSet.value[i..][1..] == flagSet.value[i + 1..];
        Amf3Format.DecValuesAppend(r.strict, fp, X.FieldsOf(i, flags, fieldNames),
                                   X.ExternalFields(i + 1, flagSet.value[i + 1..], fieldSets), r.rest, Refs(), all);
        var next := DecodeFlags(r, i, flags, fieldNames, all);
        if next.Err? {
          return Err(next.fault);
        }
        all := next.value;
      }
      NothingToDecode(r.strict, fp, r.rest, Refs(), all);
      return Got(all);
    }

    static lemma NothingToDecode(strict: bool, fp: FloatOps, s: seq<Byte>, refs: Tables, obj: map<Str, Value>)
      ensures Amf3Format.DecValues(strict, fp, [], s, refs, obj) == Ok(obj, s, refs)
    {
    }

    /** One byte of flags: the named fields, then the others up to bit 5. */
    method DecodeFlags(r: Reader, i: nat, flags: Byte, fieldNames: seq<Str>, obj: map<Str, Value>)
      returns (v: Outcome<map<Str, Value>>)
      modifies this, r
      ensures Did(Amf3Format.DecValues(r.strict, fp, X.FieldsOf(i, flags, fieldNames),
                                       old(r.rest), old(Refs()), obj), v, r)
      decreases |r.rest|, 1, 1
    {
      hide Amf3Format.Dec, Amf3Format.DecValues, X.Names, X.Extras;
      Amf3Format.DecValuesAppend(r.strict, fp, X.Names(flags, fieldNames, 0), X.Extras(i, flags, |fieldNames|),
                                 r.rest, Refs(), obj);
      v := DecodeNamed(r, flags, fieldNames, obj);
      if v.Err? {
        return;
      }
      if flags / X.Pow2(|fieldNames|) == 0 {
        X.NoExtras(i, flags, |fieldNames|, |fieldNames|);
        NothingToDecode(r.strict, fp, r.rest, Refs(), v.value);
        return;
      }
      v := DecodeExtras(r, i, flags, |fieldNames|, v.value);
    }

    method DecodeNamed(r: Reader, flags: Byte, fieldNames: seq<Str>, obj: map<Str, Value>)
      returns (v: Outcome<map<Str, Value>>)
      modifies this, r
      ensures Did(Amf3Format.DecValues(r.strict, fp, X.Names(flags, fieldNames, 0),
                                       old(r.rest), old(Refs()), obj), v, r)
      decreases |r.rest|, 1, 0
    {
      hide Amf3Format.Dec, X.Bit;
      var all := obj;
      ghost var s, refs := r.rest, Refs();
      for p := 0 to |fieldNames|
        invariant |r.rest| <= |s|
        invariant Amf3Format.DecValues(r.strict, fp, X.Names(flags, fieldNames, p), r.rest, Refs(), all)
               == Amf3Format.DecValues(r.strict, fp, X.Names(flags, fieldNames, 0), s, refs, obj)
      {
        if X.Bit(flags, p) {
          ghost var more := X.Names(flags, fieldNames, p + 1);
          assert X.Names(flags, fieldNames, p) == [fieldNames[p]] + more && ([fieldNames[p]] + more)[1..] == more;
          var tmp := DecodeAmf3(r);
          if tmp.Err? {
            return Err(Wrap(tmp.fault));
          }
          all := all[fieldNames[p] := tmp.value];
        } else {
          assert [] + X.Names(flags, fieldNames, p + 1) == X.Names(flags, fieldNames, p + 1);
        }
      }
      return Got(all);
    }

    method DecodeExtras(r: Reader, i: nat, flags: Byte, first: nat, obj: map<Str, Value>)
      returns (v: Outcome<map<Str, Value>>)
      modifies this, r
      ensures Did(Amf3Format.DecValues(r.strict, fp, X.Extras(i, flags, first), old(r.rest), old(Refs()), obj), v, r)
      decreases |r.rest|, 1, 0
    {
      hide Amf3Format.Dec, X.Bit, X.Extra;
      var all, j := obj, first;
      ghost var s, refs := r.rest, Refs();
      while j < 6
        invariant |r.rest| <= |s|
        invariant Amf3Format.DecValues(r.strict, fp, X.Extras(i, flags, j), r.rest, Refs(), all)
               == Amf3Format.DecValues(r.strict, fp, X.Extras(i, flags, first), s, refs, obj)
      {
        if X.Bit(flags, j) {
          ghost var more := X.Extras(i, flags, j + 1);
          assert X.Extras(i, flags, j) == [X.Extra(i, j)] + more && ([X.Extra(i, j)] + more)[1..] == more;
          var tmp := DecodeAmf3(r);
          if tmp.Err? {
            return Err(Wrap(tmp.fault));
          }
          all := all[X.Extra(i, j) := tmp.value];
        } else {
          assert [] + X.Extras(i, flags, j + 1) == X.Extras(i, flags, j + 1);
        }
        j := j + 1;
      }
      return Got(all);
    }

    // ---------- AMF0 ----------

    /** binary.Read of a big-endian integer of n bytes. */
    method ReadFixed(r: Reader, n: nat) returns (b: Outcome<seq<Byte>>)
      requires n > 0
      modifies r
      ensures if |old(r.rest)| < n then b == Err(Malformed)
              else b == Got(old(r.rest)[..n]) && r.rest == old(r.rest)[n..]
    {
      if |r.rest| < n {
        return Err(Malformed);
      }
      var s := r.Read(n);
      return Got(s.value);
    }

    method DecodeAmf0String(r: Reader) returns (v: Outcome<Str>)
      modifies r
      ensures Did(Amf0Format.DecShort(old(r.rest), Refs()), v, r)
    {
      hide U16BE;
      var length := ReadFixed(r, 2);
      if length.Err? {
        return Err(Malformed);
      }
      SameU16(old(r.rest));
      var n := U16BE(length.value);
      if n == 0 {
        assert old(r.rest)[2..2] == [];
        return Got([]);
      }
      assert |r.rest| >= n ==> r.rest[..n] == old(r.rest)[2..2 + n] && r.rest[n..] == old(r.rest)[2 + n..];
      v := ReadFixed(r, n);
    }

    static lemma SameU16(s: seq<Byte>)
      ensures |s| >= 2 ==> U16BE(s[..2]) == U16BE(s)
      ensures |s| >= 4 ==> U32BE(s[..4]) == U32BE(s)
    {
    }

    method DecodeAmf0LongString(r: Reader) returns (v: Outcome<Str>)
      modifies r
      ensures Did(Amf0Format.DecLong(r.strict, old(r.rest), Refs()), v, r)
    {
      hide U32BE;
      var length := ReadFixed(r, 4);
      if length.Err? {
        return Err(Malformed);
      }
      SameU16(old(r.rest));
      var n := U32BE(length.value);
      if |r.rest| < n {
        return Err(Malformed);
      }
      assert r.rest[..n] == old(r.rest)[4..4 + n] && r.rest[n..] == old(r.rest)[4 + n..];
      var bytes := r.Read(n);
      if bytes == None {
        return Err(Malformed);
      }
      return Got(bytes.value);
    }

    method DecodeAmf0(r: Reader) returns (v: Outcome<Value>)
      modifies this, r
      ensures Did(Amf0Format.Dec(r.strict, fp, old(r.rest), old(Refs())), v, r)
      decreases |r.rest|, 0
    {
      hide Amf0Format.DecShort, Amf0Format.DecLong, Amf0Format.DecEntries, Amf0Format.DecElems, Amf3Format.Dec, U32BE,
        Amf0Format.DecTyped, Amf0Format.DecEcma;
      var marker := r.ReadByte();
      if marker == None {
        return Err(Eof);
      }
      match marker.value
      case 0 =>
        var d := ReadDouble(r);
        return if d.Err? then Err(d.fault) else Got(Double(d.value));
      case 1 =>
        var b := r.ReadByte();
        if b == None {
          return Err(Eof);
        }
        if b.value == 0 {
          return Got(Bool(false));
        } else if b.value == 1 {
          return Got(Bool(true));
        }
        return Err(Malformed);
      case 2 =>
        var s := DecodeAmf0String(r);
        return if s.Err? then Err(s.fault) else Got(Text(s.value));
      case 3 =>
        var obj := DecodeAmf0Object(r);
        return if obj.Err? then Err(obj.fault) else Got(Object(obj.value));
      case 5 => return Got(Nil);
      case 6 => return Got(Nil);
      case 8 =>
        v := DecodeAmf0EcmaArray(r);
      case 10 =>
        v := DecodeAmf0StrictArray(r);
      case 11 =>
        v := DecodeAmf0Date(r);
      case 12 =>
        var s := DecodeAmf0LongString(r);
        return if s.Err? then Err(s.fault) else Got(Text(s.value));
      case 13 => return Got(Nil);
      case 15 =>
        var s := DecodeAmf0LongString(r);
        return if s.Err? then Err(s.fault) else Got(Text(s.value));
      case 16 =>
        v := DecodeAmf0TypedObject(r);
      case 17 =>
        v := DecodeAmf3(r);
      case _ => return Err(Malformed);
    }

    method DecodeAmf0Date(r: Reader) returns (v: Outcome<Value>)
      modifies r
      ensures if |old(r.rest)| < 10 then v == Err(Malformed)
              else v == Got(Double(old(r.rest)[..8])) && r.rest == old(r.rest)[10..]
    {
      var d := ReadDouble(r);
      if d.Err? {
        return Err(Malformed);
      }
      var trail := ReadFixed(r, 2);
      if trail.Err? {
        return Err(Malformed);
      }
      return Got(Double(d.value));
    }

    /** The error of reading the count is overwritten by that of reading the object, which cannot succeed then. */
    method DecodeAmf0EcmaArray(r: Reader) returns (v: Outcome<Value>)
      modifies this, r
      ensures Did(if |old(r.rest)| < 4 then Fail(Malformed)
                  else Amf0Format.DecEcma(r.strict, fp, old(r.rest)[4..], old(Refs())), v, r)
      decreases |r.rest|, 3
    {
      hide Amf0Format.DecEntries;
      var length := ReadFixed(r, 4);
      if length.Err? {
        return Err(Malformed);
      }
      var obj := DecodeAmf0Object(r);
      return if obj.Err? then Err(Wrap(obj.fault)) else Got(Object(obj.value));
    }

    method DecodeAmf0StrictArray(r: Reader) returns (v: Outcome<Value>)
      modifies this, r
      ensures Did(if |old(r.rest)| < 4 then Fail(Malformed)
                  else Amf0Format.DecList(r.strict, fp, U32BE(old(r.rest)), old(r.rest)[4..], old(Refs())), v, r)
      decreases |r.rest|, 3
    {
      hide Amf0Format.Dec, U32BE;
      var length := ReadFixed(r, 4);
      if length.Err? {
        return Err(Malformed);
      }
      SameU16(old(r.rest));
      var n := U32BE(length.value);
      var result := [];
      ghost var all := Amf0Format.DecElems(r.strict, fp, n, r.rest, Refs());
      assert all.Ok? ==> [] + all.value == all.value;
      for i := 0 to n
        invariant |r.rest| < |old(r.rest)|
        invariant Prepend(result, Amf0Format.DecElems(r.strict, fp, n - i, r.rest, Refs())) == all
      {
        ghost var one := Amf0Format.Dec(r.strict, fp, r.rest, Refs());
        var tmp := DecodeAmf0(r);
        if tmp.Err? {
          return Err(Wrap(tmp.fault));
        }
        PrependStep(result, tmp.value, Amf0Format.DecElems(r.strict, fp, n - i - 1, r.rest, Refs()));
        result := result + [tmp.value];
      }
      assert result + [] == result;
      return Got(List(result));
    }

    method DecodeAmf0TypedObject(r: Reader) returns (v: Outcome<Value>)
      modifies this, r
      ensures Did(Amf0Format.DecTyped(r.strict, fp, old(r.rest), old(Refs())), v, r)
      decreases |r.rest|, 3
    {
      hide Amf0Format.DecEntries, Amf0Format.DecShort;
      var name := DecodeAmf0String(r);
      if name.Err? {
        return Err(name.fault);
      }
      var obj := DecodeAmf0Object(r);
      return if obj.Err? then Err(Wrap(obj.fault)) else Got(Typed(name.value, obj.value));
    }

    method DecodeAmf0Object(r: Reader) returns (v: Outcome<map<Str, Value>>)
      modifies this, r
      ensures Did(Amf0Format.DecEntries(r.strict, fp, old(r.rest), old(Refs()), map[]), v, r)
      decreases |r.rest|, 1
    {
      hide Amf0Format.Dec, Amf0Format.DecShort;
      var result: map<Str, Value> := map[];
      while true
        invariant |r.rest| <= |old(r.rest)|
        invariant Amf0Format.DecEntries(r.strict, fp, r.rest, Refs(), result)
               == Amf0Format.DecEntries(r.strict, fp, old(r.rest), old(Refs()), map[])
        decreases |r.rest|
      {
        ghost var first := Amf0Format.DecShort(r.rest, Refs());
        var key := DecodeAmf0String(r);
        if key.Err? {
          return Err(key.fault);
        }
        if key.value == [] {
          var end := r.ReadByte();
          if end == None || end.value != 9 {
            return Err(Malformed);
          }
          return Got(result);
        }
        ghost var second := Amf0Format.Dec(r.strict, fp, r.rest, Refs());
        var value := DecodeAmf0(r);
        if value.Err? {
          return Err(Wrap(value.fault));
        }
        result := result[key.value := value.value];
      }
    }

    // ---------- both ----------

    /** Versions other than 0 and 3 are refused. */
    method Decode(r: Reader, ver: Byte) returns (v: Outcome<Value>)
      modifies this, r
      ensures if ver == 0 || ver == 3 then
                Did(AmfBatch.Decode(if ver == 0 then Amf0 else Amf3, r.strict, fp, old(r.rest), old(Refs())), v, r)
              else v == Err(Malformed)
    {
      hide Amf0Format.Dec, Amf3Format.Dec;
      if ver == 0 {
        v := DecodeAmf0(r);
      } else if ver == 3 {
        v := DecodeAmf3(r);
      } else {
        return Err(Malformed);
      }
    }

    method DecodeBatch(r: Reader, version: Version) returns (ret: seq<Value>, err: Fault)
      modifies this, r
      ensures (ret, err) == AmfBatch.Batch(version, r.strict, fp, old(r.rest), old(Refs()))
    {
      hide AmfBatch.Decode, AmfBatch.Behind;
      ret := [];
      ghost var all := AmfBatch.Batch(version, r.strict, fp, r.rest, Refs());
      AmfBatch.BehindNone(all);
      while true
        invariant AmfBatch.Behind(ret, AmfBatch.Batch(version, r.strict, fp, r.rest, Refs())) == all
        decreases |r.rest|
      {
        ghost var one := AmfBatch.Decode(version, r.strict, fp, r.rest, Refs());
        var v := Decode(r, if version == Amf0 then 0 else 3);
        if v.Err? {
          AmfBatch.NothingBehind(ret, v.fault);
          err := v.fault;
          return;
        }
        AmfBatch.BehindOne(ret, v.value, AmfBatch.Batch(version, r.strict, fp, r.rest, Refs()));
        ret := ret + [v.value];
      }
    }
  }
}
