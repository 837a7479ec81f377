/** Decoding what the AMF0 encoder wrote. */
module Amf0RoundTrip {
  import opened Bytes
  import opened Buffers
  import opened AmfValues
  import opened KeyOrder
  import opened AmfExpected
  import opened Amf0Format

  predicate KeyFits(k: Str) { 0 < |k| <= STRING_MAX }

  /** What AMF0 can carry: no dates and no class names, 32-bit lengths, and keys of 1..65535 bytes. */
  predicate Fits(o: Tree)
    decreases o
  {
    match o
    case TText(s) => |s| <= 0xFFFF_FFFF
    case TDate(_) => false
    case TList(elems) => |elems| <= 0xFFFF_FFFF && forall i :: 0 <= i < |elems| ==> Fits(elems[i])
    case TObject(es) => (forall i :: 0 <= i < |es| ==> KeyFits(es[i].key)) &&
      forall i :: 0 <= i < |es| ==> Fits(es[i].val)
    case TTyped(_, _) => false
    case _ => true
  }

  lemma ShortRoundTrip(s: Str, rest: seq<Byte>, refs: Tables)
    requires |s| <= STRING_MAX
    ensures DecShort(ShortText(s) + rest, refs) == Ok(s, rest, refs)
  {
    var data := ShortText(s) + rest;
    assert data == BE(|s|, 2) + (s + rest);
    BE2(|s|, s + rest);
    assert data[2..2 + |s|] == s && data[2 + |s|..] == rest;
  }

  lemma LongRoundTrip(strict: bool, s: Str, rest: seq<Byte>, refs: Tables)
    requires STRING_MAX < |s| <= 0xFFFF_FFFF
    ensures DecLong(strict, LongText(s) + rest, refs) == Ok(s, rest, refs)
  {
    var data := LongText(s) + rest;
    assert data == BE(|s|, 4) + (s + rest);
    BE4(|s|, s + rest);
    assert data[4..4 + |s|] == s && data[4 + |s|..] == rest;
  }

  lemma LeafRoundTrip(strict: bool, fp: FloatOps, o: Tree, rest: seq<Byte>, refs: Tables)
    requires Fits(o) && !o.TList? && !o.TObject?
    ensures Enc(fp, o).ok && Enc(fp, o).bytes != []
    ensures Dec(strict, fp, Enc(fp, o).bytes + rest, refs) == Ok(Seen(Amf0, fp, o), rest, refs)
  {
    hide DecShort, DecLong, ShortText, LongText;
    var data := Enc(fp, o).bytes + rest;
    match o
    case TNil =>
      assert data[1..] == rest;
    case TBool(b) =>
      assert data[1..][1..] == rest;
    case TInt(n) =>
      assert data[1..] == fp.ofInt(n) + rest;
    case TWide(n) =>
      assert data[1..] == fp.ofInt(n) + rest;
    case TDouble(d) =>
      assert data[1..] == d + rest;
    case TText(s) =>
      if |s| <= STRING_MAX {
        ShortRoundTrip(s, rest, refs);
        assert data[1..] == ShortText(s) + rest;
      } else {
        LongRoundTrip(strict, s, rest, refs);
        assert data[1..] == LongText(s) + rest;
      }
  }

  lemma {:induction false} RoundTrip(strict: bool, fp: FloatOps, o: Tree, rest: seq<Byte>, refs: Tables)
    requires Fits(o)
    ensures Enc(fp, o).ok && Enc(fp, o).bytes != []
    ensures Dec(strict, fp, Enc(fp, o).bytes + rest, refs) == Ok(Seen(Amf0, fp, o), rest, refs)
    decreases o
  {
    match o
    case TList(elems) =>
      ListRoundTrip(strict, fp, elems, rest, refs);
    case TObject(es) =>
      ObjectRoundTrip(strict, fp, es, rest, refs);
    case _ =>
      LeafRoundTrip(strict, fp, o, rest, refs);
  }

  lemma {:induction false} ListRoundTrip(strict: bool, fp: FloatOps, elems: seq<Tree>, rest: seq<Byte>, refs: Tables)
    requires Fits(TList(elems))
    ensures var o := TList(elems);
      && Enc(fp, o).ok && Enc(fp, o).bytes != []
      && Dec(strict, fp, Enc(fp, o).bytes + rest, refs) == Ok(Seen(Amf0, fp, o), rest, refs)
    decreases elems, |elems| + 1
  {
    hide BE, DecElems, EncElems;
    ElemsRoundTrip(strict, fp, elems, rest, refs);
    var w := EncElems(fp, elems).bytes + rest;
    var data := Enc(fp, TList(elems)).bytes + rest;
    assert data == [10] + (BE(|elems|, 4) + w) && data[1..] == BE(|elems|, 4) + w;
    assert data[1..][4..] == w;
    BE4(|elems|, w);
  }

  lemma {:induction false} ElemsRoundTrip(strict: bool, fp: FloatOps, elems: seq<Tree>, rest: seq<Byte>, refs: Tables)
    requires forall i :: 0 <= i < |elems| ==> Fits(elems[i])
    ensures EncElems(fp, elems).ok
    ensures DecElems(strict, fp, |elems|, EncElems(fp, elems).bytes + rest, refs)
         == Ok(SeenElems(Amf0, fp, elems), rest, refs)
    decreases elems, |elems|
  {
    hide Dec, Enc, Seen, Fits;
    if elems == [] {
      assert EncElems(fp, elems).bytes + rest == rest;
    } else {
      var more := elems[1..];
      ElemsRoundTrip(strict, fp, more, rest, refs);
      var first, w := Enc(fp, elems[0]).bytes, EncElems(fp, more).bytes + rest;
      RoundTrip(strict, fp, elems[0], w, refs);
      assert EncElems(fp, elems).bytes + rest == first + w;
    }
  }

  lemma {:induction false} ObjectRoundTrip(strict: bool, fp: FloatOps, es: seq<Entry>, rest: seq<Byte>, refs: Tables)
    requires Fits(TObject(es))
    ensures var o := TObject(es);
      && Enc(fp, o).ok && Enc(fp, o).bytes != []
      && Dec(strict, fp, Enc(fp, o).bytes + rest, refs) == Ok(Seen(Amf0, fp, o), rest, refs)
    decreases es, |es| + 1
  {
    hide DecEntries, EncEntries;
    EntriesRoundTrip(strict, fp, es, rest, refs, map[]);
    var data := Enc(fp, TObject(es)).bytes + rest;
    assert data[1..] == EncEntries(fp, es).bytes + (OBJECT_END + rest);
  }

  lemma {:induction false} EntriesRoundTrip(strict: bool, fp: FloatOps, es: seq<Entry>, rest: seq<Byte>, refs: Tables,
                                            obj: map<Str, Value>)
    requires forall i :: 0 <= i < |es| ==> KeyFits(es[i].key) && Fits(es[i].val)
    ensures EncEntries(fp, es).ok
    ensures DecEntries(strict, fp, EncEntries(fp, es).bytes + (OBJECT_END + rest), refs, obj)
         == Ok(Fields(Keys(es), SeenValues(Amf0, fp, es), obj), rest, refs)
    decreases es, |es|
  {
    hide Dec, Enc, Seen, Fits, Keys, ShortText, DecShort;
    if es == [] {
      EndRead(rest, refs);
      assert EncEntries(fp, es).bytes + (OBJECT_END + rest) == OBJECT_END + rest;
      assert Keys(es) == [];
    } else {
      var more, k := es[1..], ShortText(es[0].key);
      EntriesRoundTrip(strict, fp, more, rest, refs, obj[es[0].key := Seen(Amf0, fp, es[0].val)]);
      var first, w := Enc(fp, es[0].val).bytes, EncEntries(fp, more).bytes + (OBJECT_END + rest);
      assert KeyFits(es[0].key);
      ShortRoundTrip(es[0].key, first + w, refs);
      RoundTrip(strict, fp, es[0].val, w, refs);
      assert EncEntries(fp, es).bytes + (OBJECT_END + rest) == k + (first + w);
      KeysStep(es);
    }
  }

  lemma KeysStep(es: seq<Entry>)
    requires es != []
    ensures Keys(es)[0] == es[0].key && Keys(es)[1..] == Keys(es[1..])
  {
  }

  lemma EndRead(rest: seq<Byte>, refs: Tables)
    ensures DecShort(OBJECT_END + rest, refs) == Ok([], [9] + rest, refs) && ([9] + rest)[1..] == rest
  {
    var data := OBJECT_END + rest;
    assert data[2..2] == [] && data[2..] == [9] + rest;
  }

  /**
   * The AMF0 round trip: prefix-free, the same for every order of the entries, with the tables
   * untouched and the switch to long strings invisible. Only integers come back as something else.
   */
  lemma Amf0RoundTrip(strict: bool, fp: FloatOps, o: Tree, p: Tree, rest: seq<Byte>, refs: Tables)
    requires FromMaps(o) && FromMaps(p) && Plain(o) == Plain(p) && Fits(o)
    ensures Enc(fp, o).ok && Enc(fp, o).bytes != []
    ensures Dec(strict, fp, Enc(fp, o).bytes + rest, refs) == Ok(Seen(Amf0, fp, p), rest, refs)
    ensures Dec(strict, fp, Enc(fp, o).bytes + rest, refs) == Ok(Plain(p), rest, refs) <==> Kept(Amf0, fp, p)
  {
    hide Dec, Enc, Fits, Seen, Plain, Kept, FromMaps;
    RoundTrip(strict, fp, o, rest, refs);
    SeenOrderIndependent(Amf0, fp, o, p);
    SeenIsPlain(Amf0, fp, p);
  }

  /** The associative form decodes to the same object: its count is not looked at. */
  lemma EcmaRoundTrip(strict: bool, fp: FloatOps, es: seq<Entry>, rest: seq<Byte>, refs: Tables)
    requires Fits(TObject(es))
    ensures EncEcma(fp, es).ok
    ensures Dec(strict, fp, EncEcma(fp, es).bytes + rest, refs) == Ok(Seen(Amf0, fp, TObject(es)), rest, refs)
  {
    hide DecEntries, EncEntries, BE;
    EntriesRoundTrip(strict, fp, es, rest, refs, map[]);
    var tail := EncEntries(fp, es).bytes + (OBJECT_END + rest);
    var data := EncEcma(fp, es).bytes + rest;
    assert data == [8] + (BE(|es|, 4) + tail) && data[1..] == BE(|es|, 4) + tail;
    assert data[1..][4..] == tail;
  }

  // ---------- the keys of a root object ----------

  /** Every key the decoder puts into an object itself has 1..65535 bytes. */
  lemma {:induction false} DecodedKeys(strict: bool, fp: FloatOps, s: seq<Byte>, refs: Tables, obj: map<Str, Value>)
    ensures var r := DecEntries(strict, fp, s, refs, obj);
      r.Ok? ==> forall k :: k in r.value ==> k in obj || KeyFits(k)
    decreases |s|
  {
    hide Dec;
    var key := DecShort(s, refs);
    if key.Ok? && key.value != [] {
      var v := Dec(strict, fp, key.rest, refs);
      if v.Ok? {
        DecodedKeys(strict, fp, v.rest, v.refs, obj[key.value := v.value]);
      }
    }
  }

  /** An object whose values fit comes back exactly when each of its keys has 1..65535 bytes. */
  lemma KeysExactly(strict: bool, fp: FloatOps, es: seq<Entry>, rest: seq<Byte>, refs: Tables)
    requires Distinct(Keys(es)) && forall i :: 0 <= i < |es| ==> Fits(es[i].val)
    ensures var o := TObject(es);
      Dec(strict, fp, Enc(fp, o).bytes + rest, refs) == Ok(Seen(Amf0, fp, o), rest, refs)
      <==> forall i :: 0 <= i < |es| ==> KeyFits(es[i].key)
  {
    var o := TObject(es);
    if forall i :: 0 <= i < |es| ==> KeyFits(es[i].key) {
      RoundTrip(strict, fp, o, rest, refs);
    } else {
      hide DecEntries, EncEntries, SeenValues, Distinct;
      var i :| 0 <= i < |es| && !KeyFits(es[i].key);
      var t := (Enc(fp, o).bytes + rest)[1..];
      DecodedKeys(strict, fp, t, refs, map[]);
      FieldsKeys(Keys(es), SeenValues(Amf0, fp, es), map[]);
      assert Keys(es)[i] == es[i].key;
    }
  }
}
