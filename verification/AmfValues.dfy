/** The values of the AMF formats, and what the codecs of both versions share. */
module AmfValues {
  import opened Bytes
  import opened Buffers

  type Str = seq<Byte>
  type Float = s: seq<Byte> | |s| == 8 witness [0, 0, 0, 0, 0, 0, 0, 0]

  /** What a decoder returns, but for Wide, a 64-bit integer: no decoder has it. */
  datatype Value =
    | Nil
    | Bool(b: bool)
    | Int(n: int)
    | Wide(n: int)
    | Double(d: Float)
    | Text(s: Str)
    | Date(secs: int)
    | List(elems: seq<Value>)
    | Object(fields: map<Str, Value>)
    | Typed(name: Str, fields: map<Str, Value>)
    | Blob(data: seq<Byte>)

  /**
   * What an encoder is given. Go iterates over a map in no fixed order: the order of one run is part
   * of the argument here. TInt stands for the integer kinds of up to 32 bits and for int and uint, TWide
   * for those of 64 bits; a byte slice is a list of its bytes, as for any other slice.
   */
  datatype Tree =
    | TNil
    | TBool(b: bool)
    | TInt(n: int)
    | TWide(n: int)
    | TDouble(d: Float)
    | TText(s: Str)
    | TDate(secs: int)
    | TList(elems: seq<Tree>)
    | TObject(entries: seq<Entry>)
    | TTyped(name: Str, entries: seq<Entry>)

  datatype Entry = Entry(key: Str, val: Tree)

  /** The floating-point conversions of the codecs: float64(n), float64(secs) * 1000.0 and int64(d / 1000). */
  datatype FloatOps = FloatOps(ofInt: int -> Float, dateOut: int -> Float, dateIn: Float -> int)

  /**
   * Eof is io.EOF itself, Malformed any other error, Panic an index out of range, External a class that only a
   * registered handler can decode.
   */
  datatype Fault = Eof | Malformed | Panic | External

  /** An error that a caller wraps is no longer io.EOF. */
  function Wrap(f: Fault): Fault {
    if f == Eof then Malformed else f
  }

  datatype Trait = Trait(name: Str, externalizable: bool, dynamic: bool, properties: seq<Str>)

  /** The AMF3 reference tables of a decoder. */
  datatype Tables = Tables(strings: seq<Str>, objects: seq<Value>, traits: seq<Trait>)

  datatype Decoded<+T> = Ok(value: T, rest: seq<Byte>, refs: Tables) | Fail(fault: Fault)

  // ---------- writing ----------

  /** What an encoder wrote before it returned, and whether it returned without an error. */
  datatype Written = Written(bytes: seq<Byte>, ok: bool)

  function Done(bytes: seq<Byte>): Written { Written(bytes, true) }

  function Then(a: Written, b: Written): Written {
    if a.ok then Written(a.bytes + b.bytes, b.ok) else a
  }

  lemma ThenAssociates(a: Written, b: Written, c: Written)
    ensures Then(Then(a, b), c) == Then(a, Then(b, c))
  {
    if a.ok && b.ok {
      assert a.bytes + b.bytes + c.bytes == a.bytes + (b.bytes + c.bytes);
    }
  }

  /** One turn of a loop that writes u in front of more. */
  lemma ThenStep(out: seq<Byte>, u: Written, more: Written)
    ensures Then(Done(out), Then(u, more))
         == if u.ok then Then(Done(out + u.bytes), more) else Written(out + u.bytes, false)
    ensures Then(Done(out), Done([])) == Done(out) && Then(Done([]), u) == u
  {
    ThenAssociates(Done(out), u, more);
    assert out + [] == out && [] + u.bytes == u.bytes;
  }

  // ---------- objects ----------

  function Keys(es: seq<Entry>): (ks: seq<Str>)
    ensures |ks| == |es|
  {
    seq(|es|, i requires 0 <= i < |es| => es[i].key)
  }

  ghost predicate Distinct(ks: seq<Str>) {
    forall i, j :: 0 <= i < j < |ks| ==> ks[i] != ks[j]
  }

  /** The entries of every object come from a Go map, so no key is there twice. */
  ghost predicate FromMaps(o: Tree)
    decreases o
  {
    match o
    case TList(elems) => forall i :: 0 <= i < |elems| ==> FromMaps(elems[i])
    case TObject(es) => Distinct(Keys(es)) && forall i :: 0 <= i < |es| ==> FromMaps(es[i].val)
    case TTyped(_, es) => Distinct(Keys(es)) && forall i :: 0 <= i < |es| ==> FromMaps(es[i].val)
    case _ => true
  }

  /** The value a tree stands for, whatever the order of its entries. */
  function Plain(o: Tree): Value
    decreases o
  {
    match o
    case TNil => Nil
    case TBool(b) => Bool(b)
    case TInt(n) => Int(n)
    case TWide(n) => Wide(n)
    case TDouble(d) => Double(d)
    case TText(s) => Text(s)
    case TDate(secs) => Date(secs)
    case TList(elems) => List(PlainElems(elems))
    case TObject(es) => Object(Fields(Keys(es), PlainValues(es), map[]))
    case TTyped(name, es) => Typed(name, Fields(Keys(es), PlainValues(es), map[]))
  }

  function PlainElems(elems: seq<Tree>): seq<Value>
    decreases elems, |elems|
  {
    if elems == [] then [] else [Plain(elems[0])] + PlainElems(elems[1..])
  }

  function PlainValues(es: seq<Entry>): (vs: seq<Value>)
    ensures |vs| == |es|
    decreases es, |es|
  {
    if es == [] then [] else [Plain(es[0].val)] + PlainValues(es[1..])
  }

  /** Assigning to the keys one after the other. */
  function Fields(ks: seq<Str>, vs: seq<Value>, obj: map<Str, Value>): map<Str, Value>
    requires |ks| == |vs|
  {
    if ks == [] then obj else Fields(ks[1..], vs[1..], obj[ks[0] := vs[0]])
  }

  lemma {:induction false} FieldsKeys(ks: seq<Str>, vs: seq<Value>, obj: map<Str, Value>)
    requires |ks| == |vs|
    ensures forall k :: k in Fields(ks, vs, obj) <==> k in ks || k in obj
    ensures forall k :: k in obj && k !in ks ==> Fields(ks, vs, obj)[k] == obj[k]
  {
    if ks != [] {
      FieldsKeys(ks[1..], vs[1..], obj[ks[0] := vs[0]]);
    }
  }

  lemma {:induction false} FieldsGet(ks: seq<Str>, vs: seq<Value>, obj: map<Str, Value>, i: nat)
    requires |ks| == |vs| && Distinct(ks) && i < |ks|
    ensures ks[i] in Fields(ks, vs, obj) && Fields(ks, vs, obj)[ks[i]] == vs[i]
  {
    if i == 0 {
      FieldsKeys(ks[1..], vs[1..], obj[ks[0] := vs[0]]);
    } else {
      FieldsGet(ks[1..], vs[1..], obj[ks[0] := vs[0]], i - 1);
    }
  }

  /** With distinct keys the order of assignment does not show in the map, and the map gives every value back. */
  lemma FieldsExactly(ks: seq<Str>, vs: seq<Value>, m: map<Str, Value>)
    requires |ks| == |vs| && Distinct(ks)
    ensures Fields(ks, vs, map[]) == m <==>
      (forall k :: k in m <==> k in ks) && forall i :: 0 <= i < |ks| ==> ks[i] in m && m[ks[i]] == vs[i]
  {
    var f := Fields(ks, vs, map[]);
    FieldsKeys(ks, vs, map[]);
    forall i | 0 <= i < |ks| ensures ks[i] in f && f[ks[i]] == vs[i] {
      FieldsGet(ks, vs, map[], i);
    }
    if (forall k :: k in m <==> k in ks) && forall i :: 0 <= i < |ks| ==> ks[i] in m && m[ks[i]] == vs[i] {
      assert f == m;
    }
  }

  // ---------- reading ----------

  /** Read of n bytes where a short read is no error: the missing bytes stay zero. */
  function ReadLoose(strict: bool, s: seq<Byte>, n: nat, refs: Tables): Decoded<seq<Byte>> {
    match TryRead(strict, s, n)
    case None => Fail(Malformed)
    case Some(b) => Ok(b, Rest(s, n), refs)
  }

  /** The bytes of a float64, read with binary.Read. */
  function ReadFloat(s: seq<Byte>, refs: Tables): Decoded<Float> {
    if |s| < 8 then Fail(Malformed) else (var d: Float := s[..8]; Ok(d, s[8..], refs))
  }
}
