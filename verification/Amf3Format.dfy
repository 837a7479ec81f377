/** The AMF3 encoding of a tree, and the decoder as a function of the unread bytes and the reference tables. */
module Amf3Format {
  import opened Bytes
  import opened Buffers
  import opened AmfValues
  import AmfExternal

  // ---------- U29 ----------

  const U29_MAX: nat := 0x1FFF_FFFF

  function EncU29(v: nat): seq<Byte>
    requires v <= U29_MAX
  {
    if v <= 0x7F then [v]
    else if v <= 0x3FFF then [v / 0x80 + 0x80, v % 0x80]
    else if v <= 0x1F_FFFF then [v / 0x4000 + 0x80, v / 0x80 % 0x80 + 0x80, v % 0x80]
    else [v / 0x40_0000 + 0x80, v / 0x8000 % 0x80 + 0x80, v / 0x100 % 0x80 + 0x80, v % 0x100]
  }

  function U29(v: nat): Written {
    if v > U29_MAX then Written([], false) else Done(EncU29(v))
  }

  /** The value and how many bytes it took; None when the bytes ran out. */
  function DecU29(s: seq<Byte>): (r: Option<(nat, nat)>)
    ensures r.Some? ==> r.value.0 <= U29_MAX && 1 <= r.value.1 <= 4 && r.value.1 <= |s|
  {
    if |s| < 1 then None
    else if s[0] < 0x80 then Some((s[0], 1))
    else if |s| < 2 then None
    else if s[1] < 0x80 then Some((Low7(s[0]) * 0x80 + s[1], 2))
    else if |s| < 3 then None
    else if s[2] < 0x80 then Some((Low7(s[0]) * 0x4000 + Low7(s[1]) * 0x80 + s[2], 3))
    else if |s| < 4 then None
    else Some((Low7(s[0]) * 0x40_0000 + Low7(s[1]) * 0x8000 + Low7(s[2]) * 0x100 + s[3], 4))
  }

  function Low7(b: Byte): (n: nat)
    ensures n < 0x80
  {
    b % 0x80
  }

  /** A length in a U29 whose low bit says that it is no reference, in uint32 arithmetic. */
  function LengthHeader(n: nat): nat { n * 2 % 0x1_0000_0000 + 1 }

  /** A sealed class of n properties, given in line. */
  function TraitHeader(n: nat): nat { n * 16 % 0x1_0000_0000 + 3 }

  // ---------- encoding ----------

  function Utf8(s: Str): Written {
    Then(U29(LengthHeader(|s|)), Done(s))
  }

  function Names(es: seq<Entry>): Written {
    if es == [] then Done([]) else Then(Utf8(es[0].key), Names(es[1..]))
  }

  /** The entries in the order they are listed in. */
  function Raw(fp: FloatOps, o: Tree): Written
    decreases o
  {
    match o
    case TNil => Done([1])
    case TBool(b) => Done([if b then 3 else 2])
    case TInt(n) => if 0 <= n <= U29_MAX then Then(Done([4]), U29(n)) else Done([5] + fp.ofInt(n))
    case TWide(n) => Done([5] + fp.ofInt(n))
    case TDouble(d) => Done([5] + d)
    case TText(s) => Then(Done([6]), Utf8(s))
    case TDate(secs) => Done([8, 1] + fp.dateOut(secs))
    case TList(elems) => Then(ListHeader(|elems|), RawElems(fp, elems))
    case TObject(es) => Then(ObjectHeader([], es), RawValues(fp, es))
    case TTyped(name, es) => Then(ObjectHeader(name, es), RawValues(fp, es))
  }

  function ListHeader(n: nat): Written {
    Then(Then(Done([9]), U29(LengthHeader(n))), Utf8([]))
  }

  function ObjectHeader(name: Str, es: seq<Entry>): Written {
    Then(Then(Then(Done([10]), U29(TraitHeader(|es|))), Utf8(name)), Names(es))
  }

  function RawElems(fp: FloatOps, elems: seq<Tree>): Written
    decreases elems, |elems|
  {
    if elems == [] then Done([]) else Then(Raw(fp, elems[0]), RawElems(fp, elems[1..]))
  }

  function RawValues(fp: FloatOps, es: seq<Entry>): Written
    decreases es, |es|
  {
    if es == [] then Done([]) else Then(Raw(fp, es[0].val), RawValues(fp, es[1..]))
  }

  // ---------- decoding ----------

  datatype RefInt = NoInt | Ref(index: nat, at: nat) | InLine(val: nat, at: nat)

  /** decodeReferenceInt: at is how many bytes it read. */
  function ReadRef(s: seq<Byte>): (r: RefInt)
    ensures r.Ref? ==> 1 <= r.at <= |s|
    ensures r.InLine? ==> 1 <= r.at <= |s|
  {
    match DecU29(s)
    case None => NoInt
    case Some((u29, n)) => if u29 % 2 == 0 then Ref(u29 / 2, n) else InLine(u29 / 2, n)
  }

  function DecText(strict: bool, s: seq<Byte>, refs: Tables): (r: Decoded<Str>)
    ensures r.Ok? ==> |r.rest| < |s|
  {
    match ReadRef(s)
    case NoInt => Fail(Malformed)
    case Ref(i, n) => if i < |refs.strings| then Ok(refs.strings[i], s[n..], refs) else Fail(Panic)
    case InLine(len, n) =>
      match ReadLoose(strict, s[n..], len, refs)
      case Fail(f) => Fail(f)
      case Ok(b, rest, _) => Ok(b, rest, if b == [] then refs else refs.(strings := refs.strings + [b]))
  }

  function DecTexts(strict: bool, n: nat, s: seq<Byte>, refs: Tables): (r: Decoded<seq<Str>>)
    ensures r.Ok? ==> |r.rest| + n <= |s|
  {
    if n == 0 then Ok([], s, refs)
    else
      match DecText(strict, s, refs)
      case Fail(f) => Fail(Wrap(f))
      case Ok(t, rest, refs1) =>
        match DecTexts(strict, n - 1, rest, refs1)
        case Fail(f) => Fail(f)
        case Ok(ts, rest2, refs2) => Ok([t] + ts, rest2, refs2)
  }

  function DecInt(s: seq<Byte>, refs: Tables): (r: Decoded<Value>)
    ensures r.Ok? ==> |r.rest| < |s|
  {
    match DecU29(s)
    case None => Fail(Eof)
    case Some((v, n)) => Ok(Int(if v > 0xFFF_FFFF then v - 0x2000_0000 else v), s[n..], refs)
  }

  function DecDate(fp: FloatOps, s: seq<Byte>, refs: Tables): (r: Decoded<Value>)
    ensures r.Ok? ==> |r.rest| < |s|
  {
    match ReadRef(s)
    case NoInt => Fail(Malformed)
    case Ref(i, n) =>
      if i >= |refs.objects| then Fail(Panic)
      else if refs.objects[i].Date? then Ok(refs.objects[i], s[n..], refs)
      else Fail(Malformed)
    case InLine(_, n) =>
      match ReadFloat(s[n..], refs)
      case Fail(f) => Fail(f)
      case Ok(d, rest, _) =>
        var v := Date(fp.dateIn(d));
        Ok(v, rest, refs.(objects := refs.objects + [v]))
  }

  function DecXml(strict: bool, s: seq<Byte>, refs: Tables): (r: Decoded<Value>)
    ensures r.Ok? ==> |r.rest| < |s|
  {
    match ReadRef(s)
    case NoInt => Fail(Malformed)
    case Ref(i, n) =>
      if i >= |refs.objects| then Fail(Panic)
      else if refs.objects[i].Text? then Ok(refs.objects[i], s[n..], refs)
      else Fail(Malformed)
    case InLine(len, n) =>
      match ReadLoose(strict, s[n..], len, refs)
      case Fail(f) => Fail(f)
      case Ok(b, rest, _) => Ok(Text(b), rest, if b == [] then refs else refs.(objects := refs.objects + [Text(b)]))
  }

  function DecBlob(strict: bool, s: seq<Byte>, refs: Tables): (r: Decoded<Value>)
    ensures r.Ok? ==> |r.rest| < |s|
  {
    match ReadRef(s)
    case NoInt => Fail(Malformed)
    case Ref(i, n) =>
      if i >= |refs.objects| then Fail(Panic)
      else if refs.objects[i].Blob? then Ok(refs.objects[i], s[n..], refs)
      else Fail(Malformed)
    case InLine(len, n) =>
      match ReadLoose(strict, s[n..], len, refs)
      case Fail(f) => Fail(f)
      case Ok(b, rest, _) => Ok(Blob(b), rest, refs.(objects := refs.objects + [Blob(b)]))
  }

  /** DecodeAmf3: a successful call consumes at least one byte. */
  function Dec(strict: bool, fp: FloatOps, s: seq<Byte>, refs: Tables): (r: Decoded<Value>)
    ensures r.Ok? ==> |r.rest| < |s|
    decreases |s|, 0
  {
    if s == [] then Fail(Eof)
    else
      var t := s[1..];
      match s[0]
      case 0 => Ok(Nil, t, refs)
      case 1 => Ok(Nil, t, refs)
      case 2 => Ok(Bool(false), t, refs)
      case 3 => Ok(Bool(true), t, refs)
      case 4 => DecInt(t, refs)
      case 5 => (match ReadFloat(t, refs) case Fail(f) => Fail(f) case Ok(d, rest, _) => Ok(Double(d), rest, refs))
      case 6 => (match DecText(strict, t, refs) case Fail(f) => Fail(f)
               case Ok(b, rest, refs1) => Ok(Text(b), rest, refs1))
      case 7 => DecXml(strict, t, refs)
      case 8 => DecDate(fp, t, refs)
      case 9 => DecList(strict, fp, t, refs)
      case 10 => DecObject(strict, fp, t, refs)
      case 11 => DecXml(strict, t, refs)
      case 12 => DecBlob(strict, t, refs)
      case _ => Fail(Malformed)
  }

  function DecList(strict: bool, fp: FloatOps, s: seq<Byte>, refs: Tables): (r: Decoded<Value>)
    ensures r.Ok? ==> |r.rest| < |s|
    decreases |s|, 2
  {
    match ReadRef(s)
    case NoInt => Fail(Malformed)
    case Ref(i, n) =>
      if i / 2 >= |refs.objects| then Fail(Panic)
      else if refs.objects[i / 2].List? then Ok(refs.objects[i / 2], s[n..], refs)
      else Fail(Malformed)
    case InLine(len, n) =>
      match DecText(strict, s[n..], refs)
      case Fail(f) => Fail(Wrap(f))
      case Ok(key, rest, refs1) =>
        if key != [] then Fail(Malformed)
        else
          match DecElems(strict, fp, len, rest, refs1)
          case Fail(f) => Fail(f)
          case Ok(vs, rest2, refs2) => Ok(List(vs), rest2, refs2.(objects := refs2.objects + [List(vs)]))
  }

  /** The loop over a 32-bit count: it runs at most as often as bytes remain. */
  function DecElems(strict: bool, fp: FloatOps, n: nat, s: seq<Byte>, refs: Tables): (r: Decoded<seq<Value>>)
    ensures r.Ok? ==> |r.rest| + n <= |s| && |r.value| == n
    decreases |s|, 1
  {
    if n == 0 then Ok([], s, refs)
    else
      match Dec(strict, fp, s, refs)
      case Fail(f) => Fail(Wrap(f))
      case Ok(v, rest, refs1) =>
        match DecElems(strict, fp, n - 1, rest, refs1)
        case Fail(f) => Fail(f)
        case Ok(vs, rest2, refs2) => Ok([v] + vs, rest2, refs2)
  }

  /** The traits of an object, in line or by reference; the object table grows by a nil before the object is read. */
  function DecTrait(strict: bool, s: seq<Byte>, val: nat, refs: Tables): (r: Decoded<Trait>)
    ensures r.Ok? ==> |r.rest| <= |s|
  {
    if val % 2 == 0 then
      if val / 2 >= |refs.traits| then Fail(Panic)
      else Ok(refs.traits[val / 2], s, refs.(objects := refs.objects + [Nil]))
    else
      match DecText(strict, s, refs)
      case Fail(f) => Fail(Wrap(f))
      case Ok(name, rest, refs1) =>
        match DecTexts(strict, val / 8, rest, refs1)
        case Fail(f) => Fail(f)
        case Ok(properties, rest2, refs2) =>
          var cls := Trait(name, val / 2 % 2 == 1, val / 4 % 2 == 1, properties);
          Ok(cls, rest2, refs2.(traits := refs2.traits + [cls], objects := refs2.objects + [Nil]))
  }

  function DecObject(strict: bool, fp: FloatOps, s: seq<Byte>, refs: Tables): (r: Decoded<Value>)
    ensures r.Ok? ==> |r.rest| < |s|
    decreases |s|, 2
  {
    match ReadRef(s)
    case NoInt => Fail(Malformed)
    case Ref(i, n) => if i / 2 < |refs.objects| then Ok(refs.objects[i / 2], s[n..], refs) else Fail(Panic)
    case InLine(val, n) =>
      match DecTrait(strict, s[n..], val, refs)
      case Fail(f) => Fail(f)
      case Ok(cls, rest, refs1) =>
        if cls.externalizable then DecBuiltIn(strict, fp, cls.name, rest, refs1)
        else
          match DecValues(strict, fp, cls.properties, rest, refs1, map[])
          case Fail(f) => Fail(f)
          case Ok(obj, rest2, refs2) =>
            if !cls.dynamic then Ok(Object(obj), rest2, refs2)
            else
              match DecDynamic(strict, fp, rest2, refs2, obj)
              case Fail(f) => Fail(f)
              case Ok(all, rest3, refs3) => Ok(Object(all), rest3, refs3)
  }

  function DecValues(strict: bool, fp: FloatOps, ks: seq<Str>, s: seq<Byte>, refs: Tables, obj: map<Str, Value>):
      (r: Decoded<map<Str, Value>>)
    ensures r.Ok? ==> |r.rest| + |ks| <= |s|
    decreases |s|, 1
  {
    if ks == [] then Ok(obj, s, refs)
    else
      match Dec(strict, fp, s, refs)
      case Fail(f) => Fail(Wrap(f))
      case Ok(v, rest, refs1) => DecValues(strict, fp, ks[1..], rest, refs1, obj[ks[0] := v])
  }

  function DecDynamic(strict: bool, fp: FloatOps, s: seq<Byte>, refs: Tables, obj: map<Str, Value>):
      (r: Decoded<map<Str, Value>>)
    ensures r.Ok? ==> |r.rest| < |s|
    decreases |s|, 1
  {
    match DecText(strict, s, refs)
    case Fail(f) => Fail(Wrap(f))
    case Ok(key, rest, refs1) =>
      if key == [] then Ok(obj, rest, refs1)
      else
        match Dec(strict, fp, rest, refs1)
        case Fail(f) => Fail(Wrap(f))
        case Ok(v, rest2, refs2) => DecDynamic(strict, fp, rest2, refs2, obj[key := v])
  }

  /** The classes that are built in; any other one is left to a handler. */
  function DecBuiltIn(strict: bool, fp: FloatOps, name: Str, s: seq<Byte>, refs: Tables): (r: Decoded<Value>)
    ensures r.Ok? ==> |r.rest| < |s|
    decreases |s|, 4
  {
    if name == AmfExternal.ASYNC_MESSAGE then
      match DecAsync(strict, fp, s, refs)
      case Fail(f) => Fail(Wrap(f))
      case Ok(obj, rest, refs1) => Ok(Object(obj), rest, refs1)
    else if name == AmfExternal.ACKNOWLEDGE_MESSAGE then
      match DecAsync(strict, fp, s, refs)
      case Fail(f) => Fail(Wrap(f))
      case Ok(obj, rest, refs1) =>
        match DecExternal(strict, fp, [], rest, refs1, obj)
        case Fail(f) => Fail(Wrap(f))
        case Ok(all, rest2, refs2) => Ok(Object(all), rest2, refs2)
    else if name == AmfExternal.ARRAY_COLLECTION then
      match Dec(strict, fp, s, refs)
      case Fail(f) => Fail(Wrap(f))
      case Ok(v, rest, refs1) => Ok(v, rest, refs1.(objects := refs1.objects + [v]))
    else Fail(External)
  }

  /** The fields of an abstract message, then those of an asynchronous one. */
  function DecAsync(strict: bool, fp: FloatOps, s: seq<Byte>, refs: Tables): (r: Decoded<map<Str, Value>>)
    ensures r.Ok? ==> |r.rest| < |s|
    decreases |s|, 3
  {
    match DecExternal(strict, fp, AmfExternal.ABSTRACT_FIELDS, s, refs, map[])
    case Fail(f) => Fail(Wrap(f))
    case Ok(obj, rest, refs1) => DecExternal(strict, fp, AmfExternal.ASYNC_FIELDS, rest, refs1, obj)
  }

  /** Flags, then a value for every flag that is set. */
  function DecExternal(strict: bool, fp: FloatOps, sets: seq<seq<Str>>,
                       s: seq<Byte>, refs: Tables, obj: map<Str, Value>):
      (r: Decoded<map<Str, Value>>)
    ensures r.Ok? ==> |r.rest| < |s|
    decreases |s|, 2
  {
    match AmfExternal.FlagCount(s)
    case None => Fail(Malformed)
    case Some(n) => DecValues(strict, fp, AmfExternal.ExternalFields(0, s[..n], sets), s[n..], refs, obj)
  }

  /** Decoding more fields is decoding some and then the others. */
  lemma {:induction false} DecValuesAppend(strict: bool, fp: FloatOps, a: seq<Str>, b: seq<Str>,
                                           s: seq<Byte>, refs: Tables,
                                           obj: map<Str, Value>)
    ensures DecValues(strict, fp, a + b, s, refs, obj)
         == match DecValues(strict, fp, a, s, refs, obj)
            case Fail(f) => Fail(f)
            case Ok(m, rest, refs1) => DecValues(strict, fp, b, rest, refs1, m)
    decreases |a|
  {
    hide Dec;
    if a == [] {
      assert a + b == b;
    } else {
      assert (a + b)[1..] == a[1..] + b;
      var v := Dec(strict, fp, s, refs);
      if v.Ok? {
        DecValuesAppend(strict, fp, a[1..], b, v.rest, v.refs, obj[a[0] := v.value]);
      }
    }
  }
}
