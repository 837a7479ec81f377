/** What a decoder makes of the values an encoder was given. */
module AmfExpected {
  import opened AmfValues
  import opened KeyOrder

  datatype Version = Amf0 | Amf3

  const INTEGER_MAX: int := 0x1FFF_FFFF

  /**
   * AMF0 turns every integer into a float, and both do with those of 64 bits. With AMF3 integers from 2^28 come
   * back negative, larger or negative ones as floats, dates as the float conversions allow, and class names are
   * dropped.
   */
  function Seen(v: Version, fp: FloatOps, o: Tree): Value
    decreases o
  {
    match o
    case TNil => Nil
    case TBool(b) => Bool(b)
    case TInt(n) =>
      if v == Amf3 && 0 <= n <= INTEGER_MAX then Int(if n > 0xFFF_FFFF then n - 0x2000_0000 else n)
      else Double(fp.ofInt(n))
    case TWide(n) => Double(fp.ofInt(n))
    case TDouble(d) => Double(d)
    case TText(s) => Text(s)
    case TDate(secs) => Date(fp.dateIn(fp.dateOut(secs)))
    case TList(elems) => List(SeenElems(v, fp, elems))
    case TObject(es) => Object(Fields(Keys(es), SeenValues(v, fp, es), map[]))
    case TTyped(_, es) => Object(Fields(Keys(es), SeenValues(v, fp, es), map[]))
  }

  function SeenElems(v: Version, fp: FloatOps, elems: seq<Tree>): seq<Value>
    decreases elems, |elems|
  {
    if elems == [] then [] else [Seen(v, fp, elems[0])] + SeenElems(v, fp, elems[1..])
  }

  function SeenValues(v: Version, fp: FloatOps, es: seq<Entry>): (vs: seq<Value>)
    ensures |vs| == |es|
    decreases es, |es|
  {
    if es == [] then [] else [Seen(v, fp, es[0].val)] + SeenValues(v, fp, es[1..])
  }

  lemma {:induction false} SeenElemsAt(v: Version, fp: FloatOps, elems: seq<Tree>)
    ensures |SeenElems(v, fp, elems)| == |elems|
    ensures forall i :: 0 <= i < |elems| ==> SeenElems(v, fp, elems)[i] == Seen(v, fp, elems[i])
  {
    if elems != [] {
      SeenElemsAt(v, fp, elems[1..]);
    }
  }

  lemma {:induction false} SeenValuesAt(v: Version, fp: FloatOps, es: seq<Entry>, i: nat)
    requires i < |es|
    ensures SeenValues(v, fp, es)[i] == Seen(v, fp, es[i].val)
  {
    if i > 0 {
      SeenValuesAt(v, fp, es[1..], i - 1);
    }
  }

  /** Sorting the properties changes the bytes, never the decoded value. */
  lemma {:induction false} SeenCanon(v: Version, fp: FloatOps, o: Tree)
    requires FromMaps(o)
    ensures Seen(v, fp, Canon(o)) == Seen(v, fp, o)
    decreases o
  {
    match o
    case TList(elems) =>
      SeenElemsAt(v, fp, elems);
      SeenElemsAt(v, fp, CanonElems(elems));
      forall i | 0 <= i < |elems| ensures Seen(v, fp, Canon(elems[i])) == Seen(v, fp, elems[i]) {
        SeenCanon(v, fp, elems[i]);
      }
      assert SeenElems(v, fp, CanonElems(elems)) == SeenElems(v, fp, elems);
    case TObject(es) =>
      SeenArranged(v, fp, es);
    case TTyped(_, es) =>
      SeenArranged(v, fp, es);
    case _ =>
  }

  lemma {:induction false} SeenArranged(v: Version, fp: FloatOps, es: seq<Entry>)
    requires Distinct(Keys(es)) && forall i :: 0 <= i < |es| ==> FromMaps(es[i].val)
    ensures var r := Arrange(CanonValues(es));
      Fields(Keys(r), SeenValues(v, fp, r), map[]) == Fields(Keys(es), SeenValues(v, fp, es), map[])
    decreases es
  {
    hide Canon, CanonValues, Arrange, SortKeys, FromMaps, Seen, SeenValues, Fields, Keys, Distinct;
    var r, m := Arrange(CanonValues(es)), Fields(Keys(es), SeenValues(v, fp, es), map[]);
    KeysOf(es);
    KeysOf(CanonValues(es));
    SortIncreasing(Keys(es));
    IncreasingDistinct(SortKeys(Keys(es)));
    FieldsExactly(Keys(es), SeenValues(v, fp, es), m);
    forall i | 0 <= i < |r| ensures Keys(r)[i] in m && m[Keys(r)[i]] == SeenValues(v, fp, r)[i] {
      ArrangedAt(es, i);
      var k := SortKeys(Keys(es))[i];
      var j :| 0 <= j < |es| && es[j].key == k && Lookup(es, k) == es[j].val;
      SeenCanon(v, fp, es[j].val);
      SeenValuesAt(v, fp, r, i);
      SeenValuesAt(v, fp, es, j);
      KeyAt(es, j);
    }
    FieldsExactly(Keys(r), SeenValues(v, fp, r), m);
  }

  /** What is decoded depends on the value alone, not on the order its maps were iterated in. */
  lemma SeenOrderIndependent(v: Version, fp: FloatOps, o: Tree, p: Tree)
    requires FromMaps(o) && FromMaps(p) && Plain(o) == Plain(p)
    ensures Seen(v, fp, o) == Seen(v, fp, p)
  {
    OrderIndependent(o, p);
    SeenCanon(v, fp, o);
    SeenCanon(v, fp, p);
  }

  /** What a caller can see in a tree to know that its value is kept. */
  ghost predicate Kept(v: Version, fp: FloatOps, o: Tree)
    decreases o
  {
    match o
    case TInt(n) => v == Amf3 && 0 <= n <= 0xFFF_FFFF
    case TWide(_) => false
    case TDate(secs) => fp.dateIn(fp.dateOut(secs)) == secs
    case TList(elems) => forall i :: 0 <= i < |elems| ==> Kept(v, fp, elems[i])
    case TObject(es) => forall i :: 0 <= i < |es| ==> Kept(v, fp, es[i].val)
    case TTyped(_, _) => false
    case _ => true
  }

  lemma {:induction false} SeenIsPlain(v: Version, fp: FloatOps, o: Tree)
    requires FromMaps(o)
    ensures Seen(v, fp, o) == Plain(o) <==> Kept(v, fp, o)
    decreases o
  {
    match o
    case TList(elems) =>
      SeenElemsAt(v, fp, elems);
      PlainElemsAt(elems);
      forall i | 0 <= i < |elems|
        ensures SeenElems(v, fp, elems)[i] == PlainElems(elems)[i] <==> Kept(v, fp, elems[i])
      {
        SeenIsPlain(v, fp, elems[i]);
      }
    case TObject(es) =>
      var ks, vs, ws := Keys(es), SeenValues(v, fp, es), PlainValues(es);
      FieldsExactly(ks, vs, Fields(ks, ws, map[]));
      FieldsExactly(ks, ws, Fields(ks, ws, map[]));
      forall i | 0 <= i < |es| ensures vs[i] == ws[i] <==> Kept(v, fp, es[i].val) {
        SeenIsPlain(v, fp, es[i].val);
        SeenValuesAt(v, fp, es, i);
        PlainValuesAt(es, i);
      }
    case _ =>
  }
}
