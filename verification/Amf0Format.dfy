/** The AMF0 encoding of a tree, and the decoder as a function of the unread bytes. */
module Amf0Format {
  import opened Bytes
  import opened Buffers
  import opened AmfValues
  import Amf3Format

  const STRING_MAX: nat := 65535
  const OBJECT_END: seq<Byte> := [0, 0, 9]

  // ---------- encoding ----------

  /** A string with a 16-bit length: longer ones would be written whole behind a truncated length. */
  function ShortText(s: Str): seq<Byte> { BE(|s|, 2) + s }

  function LongText(s: Str): seq<Byte> { BE(|s|, 4) + s }

  function Enc(fp: FloatOps, o: Tree): Written
    decreases o
  {
    match o
    case TNil => Done([5])
    case TBool(b) => Done([1, if b then 1 else 0])
    case TInt(n) => Done([0] + fp.ofInt(n))
    case TWide(n) => Done([0] + fp.ofInt(n))
    case TDouble(d) => Done([0] + d)
    case TText(s) => Done(if |s| <= STRING_MAX then [2] + ShortText(s) else [12] + LongText(s))
    case TDate(_) => Written([], false)
    case TList(elems) => Then(Done([10] + BE(|elems|, 4)), EncElems(fp, elems))
    case TObject(es) => Then(Then(Done([3]), EncEntries(fp, es)), Done(OBJECT_END))
    case TTyped(_, _) => Written([], false)
  }

  function EncElems(fp: FloatOps, elems: seq<Tree>): Written
    decreases elems, |elems|
  {
    if elems == [] then Done([]) else Then(Enc(fp, elems[0]), EncElems(fp, elems[1..]))
  }

  function EncEntries(fp: FloatOps, es: seq<Entry>): Written
    decreases es, |es|
  {
    if es == [] then Done([])
    else Then(Done(ShortText(es[0].key)), Then(Enc(fp, es[0].val), EncEntries(fp, es[1..])))
  }

  /** EncodeAmf0EcmaArray; the count in front is not used by the decoder. */
  function EncEcma(fp: FloatOps, es: seq<Entry>): Written {
    Then(Then(Done([8] + BE(|es|, 4)), EncEntries(fp, es)), Done(OBJECT_END))
  }

  // ---------- decoding ----------

  function DecShort(s: seq<Byte>, refs: Tables): (r: Decoded<Str>)
    ensures r.Ok? ==> |r.rest| + 2 <= |s|
  {
    if |s| < 2 then Fail(Malformed)
    else
      var len := U16BE(s);
      if |s| - 2 < len then Fail(Malformed) else Ok(s[2..2 + len], s[2 + len..], refs)
  }

  function DecLong(strict: bool, s: seq<Byte>, refs: Tables): (r: Decoded<Str>)
    ensures r.Ok? ==> |r.rest| < |s|
  {
    if |s| < 4 then Fail(Malformed)
    else
      var len := U32BE(s);
      if |s| - 4 < len || TryRead(strict, s[4..], len) == None then Fail(Malformed)
      else Ok(s[4..4 + len], s[4 + len..], refs)
  }

  function AsText(r: Decoded<Str>): Decoded<Value> {
    match r case Ok(t, rest, refs) => Ok(Text(t), rest, refs) case Fail(f) => Fail(f)
  }

  function AsObject(r: Decoded<map<Str, Value>>): Decoded<Value> {
    match r case Ok(m, rest, refs) => Ok(Object(m), rest, refs) case Fail(f) => Fail(f)
  }

  /** DecodeAmf0: a successful call consumes at least one byte, through AMF3 too. */
  function Dec(strict: bool, fp: FloatOps, s: seq<Byte>, refs: Tables): (r: Decoded<Value>)
    ensures r.Ok? ==> |r.rest| < |s|
    decreases |s|, 0
  {
    if s == [] then Fail(Eof)
    else
      var t := s[1..];
      match s[0]
      case 0 => (match ReadFloat(t, refs) case Fail(f) => Fail(f) case Ok(d, rest, _) => Ok(Double(d), rest, refs))
      case 1 =>
        if t == [] then Fail(Eof)
        else if t[0] > 1 then Fail(Malformed)
        else Ok(Bool(t[0] == 1), t[1..], refs)
      case 2 => AsText(DecShort(t, refs))
      case 3 => AsObject(DecEntries(strict, fp, t, refs, map[]))
      case 5 => Ok(Nil, t, refs)
      case 6 => Ok(Nil, t, refs)
      case 8 => if |t| < 4 then Fail(Malformed) else DecEcma(strict, fp, t[4..], refs)
      case 10 => if |t| < 4 then Fail(Malformed) else DecList(strict, fp, U32BE(t), t[4..], refs)
      case 11 =>
        if |t| < 10 then Fail(Malformed)
        else (match ReadFloat(t, refs) case Fail(f) => Fail(f) case Ok(d, _, _) => Ok(Double(d), t[10..], refs))
      case 12 => AsText(DecLong(strict, t, refs))
      case 13 => Ok(Nil, t, refs)
      case 15 => AsText(DecLong(strict, t, refs))
      case 16 => DecTyped(strict, fp, t, refs)
      case 17 => Amf3Format.Dec(strict, fp, t, refs)
      case _ => Fail(Malformed)
  }

  function DecEcma(strict: bool, fp: FloatOps, s: seq<Byte>, refs: Tables): (r: Decoded<Value>)
    ensures r.Ok? ==> |r.rest| < |s| && r.value.Object?
    decreases |s|, 2
  {
    match DecEntries(strict, fp, s, refs, map[])
    case Fail(f) => Fail(Wrap(f))
    case Ok(m, rest, refs1) => Ok(Object(m), rest, refs1)
  }

  function DecTyped(strict: bool, fp: FloatOps, s: seq<Byte>, refs: Tables): (r: Decoded<Value>)
    ensures r.Ok? ==> |r.rest| < |s| && r.value.Typed?
    decreases |s|, 2
  {
    match DecShort(s, refs)
    case Fail(f) => Fail(f)
    case Ok(name, rest, _) =>
      match DecEntries(strict, fp, rest, refs, map[])
      case Fail(f) => Fail(Wrap(f))
      case Ok(m, rest2, refs2) => Ok(Typed(name, m), rest2, refs2)
  }

  function DecList(strict: bool, fp: FloatOps, n: nat, s: seq<Byte>, refs: Tables): (r: Decoded<Value>)
    ensures r.Ok? ==> |r.rest| <= |s| && r.value.List?
    decreases |s|, 2
  {
    match DecElems(strict, fp, n, s, refs)
    case Fail(f) => Fail(f)
    case Ok(vs, rest, refs1) => Ok(List(vs), rest, refs1)
  }

  function DecElems(strict: bool, fp: FloatOps, n: nat, s: seq<Byte>, refs: Tables): (r: Decoded<seq<Value>>)
    ensures r.Ok? ==> |r.rest| + n <= |s| && |r.value| == n
    decreases |s|, 1
  {
    if n == 0 then Ok([], s, refs)
    else
      match Dec(strict, fp, s, refs)
      case Fail(f) => Fail(Wrap(f))
      case Ok(v, rest, refs1) =>
        match DecElems(strict, fp, n - 1, rest, refs1)
        case Fail(f) => Fail(f)
        case Ok(vs, rest2, refs2) => Ok([v] + vs, rest2, refs2)
  }

  /** The loop over keys and values, up to the empty key and the end marker. */
  function DecEntries(strict: bool, fp: FloatOps, s: seq<Byte>, refs: Tables, obj: map<Str, Value>):
      (r: Decoded<map<Str, Value>>)
    ensures r.Ok? ==> |r.rest| + 3 <= |s|
    decreases |s|, 1
  {
    match DecShort(s, refs)
    case Fail(f) => Fail(f)
    case Ok(key, rest, _) =>
      if key == [] then
        if rest != [] && rest[0] == 9 then Ok(obj, rest[1..], refs) else Fail(Malformed)
      else
        match Dec(strict, fp, rest, refs)
        case Fail(f) => Fail(Wrap(f))
        case Ok(v, rest2, refs2) => DecEntries(strict, fp, rest2, refs2, obj[key := v])
  }
}
