/**
 * A second AMF3 writer, from the format's own description (Adobe AMF 3, sections 1.3.2, 2.2 and 3): it keeps the
 * tables of strings and traits, refers back to what it has sent, and writes dynamic members. The encoder of the
 * repository does none of this; its decoder has to.
 */
module Amf3Sender {
  import opened Bytes
  import opened Buffers
  import opened AmfValues
  import opened Amf3Format
  import opened Amf3RoundTrip
  import AmfExternal

  datatype Item =
    | SUndefined
    | SNull
    | SBool(b: bool)
    | SInt(n: nat)
    | SDouble(d: Float)
    | SText(s: Str)
    | SXml(document: bool, s: Str)
    | SDate(d: Float)
    | SBytes(s: seq<Byte>)
    | SList(elems: seq<Item>)
    | SObject(name: Str, sealed: seq<Member>, open: bool, members: seq<Member>)

  datatype Member = Member(key: Str, val: Item)

  /** bare: the last thing written is a string of no bytes. */
  datatype Sent = Sent(bytes: seq<Byte>, refs: Tables, bare: bool)

  predicate Short(s: seq<Byte>) { |s| <= 0xFFF_FFFF }

  /** What the format can carry: lengths fit their U29, and a dynamic member has a name. */
  predicate Good(o: Item)
    decreases o
  {
    match o
    case SInt(n) => n <= 0x1FFF_FFFF
    case SText(s) => Short(s)
    case SXml(_, s) => Short(s)
    case SBytes(s) => Short(s)
    case SList(elems) => |elems| <= 0xFFF_FFFF && forall i :: 0 <= i < |elems| ==> Good(elems[i])
    case SObject(name, sealed, open, members) =>
      && Short(name) && |sealed| <= 0x1FF_FFFF
      && (forall i :: 0 <= i < |sealed| ==> Short(sealed[i].key) && Good(sealed[i].val))
      && (open || members == [])
      && forall i :: 0 <= i < |members| ==> members[i].key != [] && Short(members[i].key) && Good(members[i].val)
    case _ => true
  }

  // ---------- what is meant ----------

  function Worth(fp: FloatOps, o: Item): Value
    decreases o
  {
    match o
    case SUndefined => Nil
    case SNull => Nil
    case SBool(b) => Bool(b)
    case SInt(n) => Int(if n >= 0x1000_0000 then n - 0x2000_0000 else n)
    case SDouble(d) => Double(d)
    case SText(s) => Text(s)
    case SXml(_, s) => Text(s)
    case SDate(d) => Date(fp.dateIn(d))
    case SBytes(s) => Blob(s)
    case SList(elems) => List(Worths(fp, elems))
    case SObject(_, sealed, _, members) => Object(Fill(fp, members, Fill(fp, sealed, map[])))
  }

  function Worths(fp: FloatOps, elems: seq<Item>): seq<Value>
    decreases elems
  {
    if elems == [] then [] else [Worth(fp, elems[0])] + Worths(fp, elems[1..])
  }

  /** A later member of the same name takes the place of an earlier one. */
  function Fill(fp: FloatOps, ms: seq<Member>, obj: map<Str, Value>): map<Str, Value>
    decreases ms
  {
    if ms == [] then obj else Fill(fp, ms[1..], obj[ms[0].key := Worth(fp, ms[0].val)])
  }

  // ---------- what is sent ----------

  function IndexOf<T(==)>(xs: seq<T>, x: T): (i: nat)
    requires x in xs
    ensures i < |xs| && xs[i] == x
  {
    if xs[0] == x then 0 else 1 + IndexOf(xs[1..], x)
  }

  /** A string sent before is sent as a reference, the empty string never. */
  function SendText(s: Str, t: Tables): Sent
    requires Short(s)
  {
    if s == [] then Sent([1], t, true)
    else if s in t.strings && IndexOf(t.strings, s) <= 0xFFF_FFFF then
      Sent(EncU29(IndexOf(t.strings, s) * 2), t, false)
    else Sent(EncU29(|s| * 2 + 1) + s, t.(strings := t.strings + [s]), false)
  }

  function Keys(ms: seq<Member>): (ks: seq<Str>)
    ensures |ks| == |ms|
  {
    seq(|ms|, i requires 0 <= i < |ms| => ms[i].key)
  }

  predicate AllShort(ks: seq<Str>) {
    forall i :: 0 <= i < |ks| ==> Short(ks[i])
  }

  function SendTexts(ks: seq<Str>, t: Tables): Sent
    requires AllShort(ks)
  {
    if ks == [] then Sent([], t, false)
    else
      var x := SendText(ks[0], t);
      var y := SendTexts(ks[1..], x.refs);
      Sent(x.bytes + y.bytes, y.refs, if |ks| == 1 then x.bare else y.bare)
  }

  /** The traits of a class sent before are sent as a reference. An object takes its place as soon as it begins. */
  function SendTraits(name: Str, ks: seq<Str>, open: bool, t: Tables): Sent
    requires Short(name) && |ks| <= 0x1FF_FFFF && AllShort(ks)
  {
    var cls := Trait(name, false, open, ks);
    if cls in t.traits && IndexOf(t.traits, cls) <= 0x7FF_FFFF then
      Sent(EncU29(IndexOf(t.traits, cls) * 4 + 1), t.(objects := t.objects + [Nil]), false)
    else
      var x := SendText(name, t);
      var y := SendTexts(ks, x.refs);
      Sent(EncU29(|ks| * 16 + (if open then 8 else 0) + 3) + x.bytes + y.bytes,
           y.refs.(traits := y.refs.traits + [cls], objects := y.refs.objects + [Nil]),
           if ks == [] then x.bare else y.bare)
  }

  function Send(fp: FloatOps, o: Item, t: Tables): Sent
    requires Good(o)
    decreases o, 1
  {
    match o
    case SUndefined => Sent([0], t, false)
    case SNull => Sent([1], t, false)
    case SBool(b) => Sent([if b then 3 else 2], t, false)
    case SInt(n) => Sent([4] + EncU29(n), t, false)
    case SDouble(d) => Sent([5] + d, t, false)
    case SText(s) => var x := SendText(s, t); Sent([6] + x.bytes, x.refs, x.bare)
    case SXml(document, s) =>
      Sent([if document then 7 else 11] + EncU29(|s| * 2 + 1) + s,
           if s == [] then t else t.(objects := t.objects + [Text(s)]), s == [])
    case SDate(d) => Sent([8, 1] + d, t.(objects := t.objects + [Date(fp.dateIn(d))]), false)
    case SBytes(s) => Sent([12] + EncU29(|s| * 2 + 1) + s, t.(objects := t.objects + [Blob(s)]), s == [])
    case SList(elems) =>
      var x := SendAll(fp, elems, t);
      Sent([9] + EncU29(|elems| * 2 + 1) + [1] + x.bytes,
           x.refs.(objects := x.refs.objects + [List(Worths(fp, elems))]), elems == [] || x.bare)
    case SObject(name, sealed, open, members) =>
      assert AllShort(Keys(sealed));
      var x := SendTraits(name, Keys(sealed), open, t);
      var y := SendValues(fp, sealed, x.refs);
      if !open then Sent([10] + x.bytes + y.bytes, y.refs, if sealed == [] then x.bare else y.bare)
      else
        var z := SendMembers(fp, members, y.refs);
        Sent([10] + x.bytes + y.bytes + z.bytes, z.refs, true)
  }

  function SendAll(fp: FloatOps, elems: seq<Item>, t: Tables): Sent
    requires forall i :: 0 <= i < |elems| ==> Good(elems[i])
    decreases elems, 0
  {
    if elems == [] then Sent([], t, false)
    else
      var x := Send(fp, elems[0], t);
      var y := SendAll(fp, elems[1..], x.refs);
      Sent(x.bytes + y.bytes, y.refs, if |elems| == 1 then x.bare else y.bare)
  }

  function SendValues(fp: FloatOps, ms: seq<Member>, t: Tables): Sent
    requires forall i :: 0 <= i < |ms| ==> Good(ms[i].val)
    decreases ms, 0
  {
    if ms == [] then Sent([], t, false)
    else
      var x := Send(fp, ms[0].val, t);
      var y := SendValues(fp, ms[1..], x.refs);
      Sent(x.bytes + y.bytes, y.refs, if |ms| == 1 then x.bare else y.bare)
  }

  /** Names and values, and an empty name at the end. */
  function SendMembers(fp: FloatOps, ms: seq<Member>, t: Tables): Sent
    requires forall i :: 0 <= i < |ms| ==> Short(ms[i].key) && Good(ms[i].val)
    decreases ms, 0
  {
    if ms == [] then Sent([1], t, true)
    else
      var k := SendText(ms[0].key, t);
      var x := Send(fp, ms[0].val, k.refs);
      var y := SendMembers(fp, ms[1..], x.refs);
      Sent(k.bytes + x.bytes + y.bytes, y.refs, true)
  }

  // ---------- reading it ----------

  /** The decoder has the value, the rest and the writer's tables. A bytes.Reader cannot read no bytes at the end. */
  predicate Gets<T(==)>(r: Decoded<T>, v: T, strict: bool, rest: seq<Byte>, x: Sent) {
    if strict && rest == [] && x.bare then r == Fail(Malformed) else r == Ok(v, rest, x.refs)
  }

  lemma RefRead(n: nat, rest: seq<Byte>)
    requires n <= 0x1FFF_FFFF
    ensures EncU29(n) != [] && (EncU29(n) + rest)[|EncU29(n)|..] == rest
    ensures ReadRef(EncU29(n) + rest)
         == if n % 2 == 0 then Ref(n / 2, |EncU29(n)|) else InLine(n / 2, |EncU29(n)|)
  {
    hide EncU29, DecU29;
    U29RoundTrip(n, rest);
  }

  lemma TextArrives(strict: bool, s: Str, rest: seq<Byte>, t: Tables)
    requires Short(s)
    ensures SendText(s, t).bytes != []
    ensures Gets(DecText(strict, SendText(s, t).bytes + rest, t), s, strict, rest, SendText(s, t))
  {
    hide EncU29, ReadRef;
    if s != [] && s in t.strings && IndexOf(t.strings, s) <= 0xFFF_FFFF {
      RefRead(IndexOf(t.strings, s) * 2, rest);
    } else {
      TextRoundTrip(strict, s, rest, t);
      InLineText(s);
    }
  }

  lemma InLineText(s: Str)
    requires Short(s)
    ensures Utf8(s).bytes == EncU29(|s| * 2 + 1) + s && (s == [] ==> Utf8(s).bytes == [1])
    ensures EncU29(|s| * 2 + 1) != []
  {
    assert LengthHeader(|s|) == |s| * 2 + 1;
  }

  lemma {:induction false} TextsArrive(strict: bool, ks: seq<Str>, rest: seq<Byte>, t: Tables)
    requires AllShort(ks)
    ensures ks != [] ==> SendTexts(ks, t).bytes != []
    ensures Gets(DecTexts(strict, |ks|, SendTexts(ks, t).bytes + rest, t), ks, strict, rest, SendTexts(ks, t))
    decreases |ks|
  {
    hide SendText, DecText;
    if ks == [] {
      assert [] + rest == rest;
    } else {
      var x := SendText(ks[0], t);
      var y := SendTexts(ks[1..], x.refs);
      TextsArrive(strict, ks[1..], rest, x.refs);
      TextArrives(strict, ks[0], y.bytes + rest, t);
      Regroup(x.bytes, y.bytes, rest);
      assert ks == [ks[0]] + ks[1..];
      assert ks[1..] == [] ==> y.bytes + rest == rest;
    }
  }

  /** The traits, in line or by reference, in front of w. */
  lemma TraitsArrive(strict: bool, name: Str, ks: seq<Str>, open: bool, w: seq<Byte>, t: Tables)
    requires Short(name) && |ks| <= 0x1FF_FFFF && AllShort(ks)
    ensures var x := SendTraits(name, ks, open, t); var ref := ReadRef(x.bytes + w);
      && x.bytes != [] && ref.InLine?
      && Gets(DecTrait(strict, (x.bytes + w)[ref.at..], ref.val, t), Trait(name, false, open, ks), strict, w, x)
  {
    hide EncU29, ReadRef, SendText, SendTexts, DecText, DecTexts, DecTrait;
    var cls := Trait(name, false, open, ks);
    if cls in t.traits && IndexOf(t.traits, cls) <= 0x7FF_FFFF {
      var i := IndexOf(t.traits, cls);
      RefRead(i * 4 + 1, w);
      assert (i * 4 + 1) / 2 == i * 2 && (i * 4 + 1) % 2 == 1;
      TraitByRef(strict, i, w, t);
    } else {
      var h := |ks| * 16 + (if open then 8 else 0) + 3;
      var x := SendText(name, t);
      var y := SendTexts(ks, x.refs);
      HeaderBits(|ks|, open);
      RefRead(h, x.bytes + (y.bytes + w));
      Regroup4(EncU29(h), x.bytes, y.bytes, w);
      Regroup(x.bytes, y.bytes, w);
      assert EncU29(h) + x.bytes + y.bytes + w == EncU29(h) + (x.bytes + (y.bytes + w));
      TraitInLine(strict, name, ks, open, h / 2, w, t);
    }
  }

  lemma TraitByRef(strict: bool, i: nat, w: seq<Byte>, t: Tables)
    requires i < |t.traits|
    ensures DecTrait(strict, w, i * 2, t) == Ok(t.traits[i], w, t.(objects := t.objects + [Nil]))
  {
    assert i * 2 % 2 == 0 && i * 2 / 2 == i;
  }

  lemma TraitInLine(strict: bool, name: Str, ks: seq<Str>, open: bool, val: nat, w: seq<Byte>, t: Tables)
    requires Short(name) && AllShort(ks)
    requires val % 2 == 1 && val / 2 % 2 == 0 && (val / 4 % 2 == 1 <==> open) && val / 8 == |ks|
    ensures var cls, x := Trait(name, false, open, ks), SendText(name, t);
      var y := SendTexts(ks, x.refs);
      DecTrait(strict, x.bytes + (y.bytes + w), val, t)
      == if strict && w == [] && (if ks == [] then x.bare else y.bare) then Fail(Malformed)
         else Ok(cls, w, y.refs.(traits := y.refs.traits + [cls], objects := y.refs.objects + [Nil]))
  {
    hide SendText, SendTexts, DecText, DecTexts;
    var x := SendText(name, t);
    var y := SendTexts(ks, x.refs);
    TextArrives(strict, name, y.bytes + w, t);
    TextsArrive(strict, ks, w, x.refs);
    if ks == [] {
      NoTexts(x.refs);
      assert [] + w == w;
    }
  }

  lemma NoTexts(t: Tables)
    ensures SendTexts([], t) == Sent([], t, false)
  {
  }

  lemma HeaderBits(n: nat, open: bool)
    ensures var h := n * 16 + (if open then 8 else 0) + 3; var val := h / 2;
      h % 2 == 1 && val % 2 == 1 && val / 2 % 2 == 0 && (val / 4 % 2 == 1 <==> open) && val / 8 == n
  {
  }

  function Fields(strict: bool, fp: FloatOps, ks: seq<Str>, open: bool, w: seq<Byte>, t: Tables): Decoded<Value> {
    match DecValues(strict, fp, ks, w, t, map[])
    case Fail(f) => Fail(f)
    case Ok(obj, rest, refs) =>
      if !open then Ok(Object(obj), rest, refs)
      else
        match DecDynamic(strict, fp, rest, refs, obj)
        case Fail(f) => Fail(f)
        case Ok(all, rest2, refs2) => Ok(Object(all), rest2, refs2)
  }

  /** What is left of an object behind its traits. */
  lemma ObjectArrives(strict: bool, fp: FloatOps, name: Str, ks: seq<Str>, open: bool, w: seq<Byte>, t: Tables)
    requires Short(name) && |ks| <= 0x1FF_FFFF && AllShort(ks)
    ensures var x := SendTraits(name, ks, open, t); var r := Dec(strict, fp, [10] + (x.bytes + w), t);
      r == if strict && w == [] && x.bare then Fail(Malformed) else Fields(strict, fp, ks, open, w, x.refs)
  {
    hide SendTraits, ReadRef, DecTrait, DecValues, DecDynamic, Dec, DecBuiltIn;
    TraitsArrive(strict, name, ks, open, w, t);
    ObjectMarker(strict, fp, SendTraits(name, ks, open, t).bytes + w, t);
  }

  lemma {:induction false} Arrives(strict: bool, fp: FloatOps, o: Item, rest: seq<Byte>, t: Tables)
    requires Good(o)
    ensures Send(fp, o, t).bytes != []
    ensures Gets(Dec(strict, fp, Send(fp, o, t).bytes + rest, t), Worth(fp, o), strict, rest, Send(fp, o, t))
    decreases o, 1
  {
    match o
    case SList(elems) => ListArrives(strict, fp, elems, rest, t);
    case SObject(name, sealed, open, members) => ObjectIsThere(strict, fp, o, rest, t);
    case _ => LeafArrives(strict, fp, o, rest, t);
  }

  lemma LeafArrives(strict: bool, fp: FloatOps, o: Item, rest: seq<Byte>, t: Tables)
    requires Good(o) && !o.SList? && !o.SObject?
    ensures Send(fp, o, t).bytes != []
    ensures Gets(Dec(strict, fp, Send(fp, o, t).bytes + rest, t), Worth(fp, o), strict, rest, Send(fp, o, t))
  {
    hide EncU29, DecU29, SendText, DecText, ReadRef, DecXml, DecBlob, DecDate;
    match o
    case SInt(n) =>
      U29RoundTrip(n, rest);
      Marked(4, EncU29(n), rest);
    case SDouble(d) => Marked(5, d, rest);
    case SText(s) =>
      TextArrives(strict, s, rest, t);
      Marked(6, SendText(s, t).bytes, rest);
    case SXml(document, s) =>
      XmlArrives(strict, s, rest, t);
      Framed(if document then 7 else 11, EncU29(|s| * 2 + 1), s, rest);
    case SBytes(s) =>
      BlobArrives(strict, s, rest, t);
      Framed(12, EncU29(|s| * 2 + 1), s, rest);
    case SDate(d) =>
      DateArrives(fp, d, rest, t);
      Framed(8, [1], d, rest);
      assert [8, 1] + d == [8] + [1] + d;
    case SUndefined => Marked(0, [], rest); assert [0] + [] == [0 as Byte];
    case SNull => Marked(1, [], rest); assert [1] + [] == [1 as Byte];
    case SBool(b) =>
      var marker: Byte := if b then 3 else 2;
      Marked(marker, [], rest);
      assert [marker] + [] == [marker];
  }

  lemma Marked(marker: Byte, s: seq<Byte>, rest: seq<Byte>)
    ensures ([marker] + s + rest)[0] == marker && ([marker] + s + rest)[1..] == s + rest && [] + rest == rest
  {
  }

  lemma Framed(marker: Byte, h: seq<Byte>, s: seq<Byte>, rest: seq<Byte>)
    ensures var data := [marker] + h + s + rest; data[0] == marker && data[1..] == h + (s + rest)
  {
  }

  lemma XmlArrives(strict: bool, s: Str, rest: seq<Byte>, t: Tables)
    requires Short(s)
    ensures DecXml(strict, EncU29(|s| * 2 + 1) + (s + rest), t)
         == if strict && rest == [] && s == [] then Fail(Malformed)
            else Ok(Text(s), rest, if s == [] then t else t.(objects := t.objects + [Text(s)]))
  {
    hide EncU29, ReadRef, ReadLoose;
    BytesArrive(strict, s, rest, t);
  }

  lemma BlobArrives(strict: bool, s: seq<Byte>, rest: seq<Byte>, t: Tables)
    requires Short(s)
    ensures DecBlob(strict, EncU29(|s| * 2 + 1) + (s + rest), t)
         == if strict && rest == [] && s == [] then Fail(Malformed)
            else Ok(Blob(s), rest, t.(objects := t.objects + [Blob(s)]))
  {
    hide EncU29, ReadRef, ReadLoose;
    BytesArrive(strict, s, rest, t);
  }

  lemma DateArrives(fp: FloatOps, d: Float, rest: seq<Byte>, t: Tables)
    ensures var v := Date(fp.dateIn(d));
      DecDate(fp, [1] + (d + rest), t) == Ok(v, rest, t.(objects := t.objects + [v]))
  {
    hide ReadRef;
    OneIsInLine(d + rest);
    assert ([1] + (d + rest))[1..] == d + rest;
  }

  lemma OneIsInLine(s: seq<Byte>)
    ensures ReadRef([1] + s) == InLine(0, 1)
  {
  }

  lemma BytesArrive(strict: bool, s: seq<Byte>, rest: seq<Byte>, t: Tables)
    requires Short(s)
    ensures var data := EncU29(|s| * 2 + 1) + (s + rest); var ref := ReadRef(data);
      && ref.InLine? && ref.val == |s|
      && ReadLoose(strict, data[ref.at..], |s|, t)
         == if strict && rest == [] && s == [] then Fail(Malformed) else Ok(s, rest, t)
  {
    hide EncU29, ReadRef;
    RefRead(|s| * 2 + 1, s + rest);
    TakesBack(s, rest);
  }

  lemma {:induction false} ListArrives(strict: bool, fp: FloatOps, elems: seq<Item>, rest: seq<Byte>, t: Tables)
    requires Good(SList(elems))
    ensures var o := SList(elems);
      && Send(fp, o, t).bytes != []
      && Gets(Dec(strict, fp, Send(fp, o, t).bytes + rest, t), Worth(fp, o), strict, rest, Send(fp, o, t))
    decreases elems, 1
  {
    hide Dec, DecElems, EncU29, SendAll, Good;
    GoodElems(elems);
    var x := SendAll(fp, elems, t);
    AllArrive(strict, fp, elems, rest, t);
    ListHead(strict, fp, |elems|, x.bytes + rest, t);
    Regroup5([9], EncU29(|elems| * 2 + 1), [1], x.bytes, rest);
    if elems == [] {
      NoItems(fp, t);
      assert [] + rest == rest;
    }
  }

  lemma GoodElems(elems: seq<Item>)
    requires Good(SList(elems))
    ensures |elems| <= 0xFFF_FFFF && forall i :: 0 <= i < |elems| ==> Good(elems[i])
  {
  }

  lemma NoItems(fp: FloatOps, t: Tables)
    ensures SendAll(fp, [], t) == Sent([], t, false) && SendValues(fp, [], t) == Sent([], t, false)
  {
  }

  lemma ListHead(strict: bool, fp: FloatOps, n: nat, w: seq<Byte>, t: Tables)
    requires n <= 0xFFF_FFFF
    ensures var r := Dec(strict, fp, [9] + (EncU29(n * 2 + 1) + ([1] + w)), t);
      if strict && w == [] then r == Fail(Malformed)
      else
        match DecElems(strict, fp, n, w, t)
        case Fail(f) => r == Fail(f)
        case Ok(vs, rest, refs) => r == Ok(List(vs), rest, refs.(objects := refs.objects + [List(vs)]))
  {
    hide Dec, DecElems, DecText, EncU29, ReadRef, SendText;
    ListMarker(strict, fp, EncU29(n * 2 + 1) + ([1] + w), t);
    RefRead(n * 2 + 1, [1] + w);
    EmptyText(t);
    TextArrives(strict, [], w, t);
  }

  lemma EmptyText(t: Tables)
    ensures SendText([], t) == Sent([1], t, true)
  {
  }

  lemma {:induction false} AllArrive(strict: bool, fp: FloatOps, elems: seq<Item>, rest: seq<Byte>, t: Tables)
    requires forall i :: 0 <= i < |elems| ==> Good(elems[i])
    ensures var x := SendAll(fp, elems, t);
      && (elems != [] ==> x.bytes != [])
      && Gets(DecElems(strict, fp, |elems|, x.bytes + rest, t), Worths(fp, elems), strict, rest, x)
    decreases elems, 0
  {
    hide Dec, Send, Worth, Good;
    if elems == [] {
      assert [] + rest == rest;
    } else {
      var x := Send(fp, elems[0], t);
      var y := SendAll(fp, elems[1..], x.refs);
      AllArrive(strict, fp, elems[1..], rest, x.refs);
      Arrives(strict, fp, elems[0], y.bytes + rest, t);
      Regroup(x.bytes, y.bytes, rest);
      if |elems| == 1 { NoItems(fp, x.refs); assert elems[1..] == [] && y.bytes + rest == rest; }
    }
  }

  lemma {:induction false} ValuesArrive(strict: bool, fp: FloatOps, ms: seq<Member>, rest: seq<Byte>, t: Tables,
                                        obj: map<Str, Value>)
    requires forall i :: 0 <= i < |ms| ==> Good(ms[i].val)
    ensures var x := SendValues(fp, ms, t);
      && (ms != [] ==> x.bytes != [])
      && Gets(DecValues(strict, fp, Keys(ms), x.bytes + rest, t, obj), Fill(fp, ms, obj), strict, rest, x)
    decreases ms, 0
  {
    hide Dec, Send, Worth, Good;
    if ms == [] {
      assert [] + rest == rest;
    } else {
      var x := Send(fp, ms[0].val, t);
      var y := SendValues(fp, ms[1..], x.refs);
      ValuesArrive(strict, fp, ms[1..], rest, x.refs, obj[ms[0].key := Worth(fp, ms[0].val)]);
      Arrives(strict, fp, ms[0].val, y.bytes + rest, t);
      Regroup(x.bytes, y.bytes, rest);
      assert Keys(ms)[1..] == Keys(ms[1..]);
      if |ms| == 1 { NoItems(fp, x.refs); assert ms[1..] == [] && y.bytes + rest == rest; }
    }
  }

  lemma {:induction false} MembersArrive(strict: bool, fp: FloatOps, ms: seq<Member>, rest: seq<Byte>, t: Tables,
                                         obj: map<Str, Value>)
    requires forall i :: 0 <= i < |ms| ==> ms[i].key != [] && Short(ms[i].key) && Good(ms[i].val)
    ensures var x := SendMembers(fp, ms, t);
      && x.bytes != [] && x.bare
      && Gets(DecDynamic(strict, fp, x.bytes + rest, t, obj), Fill(fp, ms, obj), strict, rest, x)
    decreases ms, 0
  {
    hide Dec, Send, Worth, Good, SendText, DecText;
    if ms == [] {
      EmptyText(t);
      TextArrives(strict, [], rest, t);
    } else {
      var k := SendText(ms[0].key, t);
      var x := Send(fp, ms[0].val, k.refs);
      var y := SendMembers(fp, ms[1..], x.refs);
      MembersArrive(strict, fp, ms[1..], rest, x.refs, obj[ms[0].key := Worth(fp, ms[0].val)]);
      Arrives(strict, fp, ms[0].val, y.bytes + rest, k.refs);
      TextArrives(strict, ms[0].key, x.bytes + (y.bytes + rest), t);
      Regroup4(k.bytes, x.bytes, y.bytes, rest);
      Regroup(x.bytes, y.bytes, rest);
      assert k.bytes + x.bytes + y.bytes + rest == k.bytes + (x.bytes + (y.bytes + rest));
    }
  }

  lemma {:induction false} ObjectIsThere(strict: bool, fp: FloatOps, o: Item, rest: seq<Byte>, t: Tables)
    requires o.SObject? && Good(o)
    ensures Send(fp, o, t).bytes != []
    ensures Gets(Dec(strict, fp, Send(fp, o, t).bytes + rest, t), Worth(fp, o), strict, rest, Send(fp, o, t))
    decreases o, 0
  {
    var ks := Keys(o.sealed);
    assert AllShort(ks);
    var x := SendTraits(o.name, ks, o.open, t);
    var y := SendValues(fp, o.sealed, x.refs);
    var z := if o.open then SendMembers(fp, o.members, y.refs) else Sent([], y.refs, false);
    var w := y.bytes + (z.bytes + rest);
    ObjectArrives(strict, fp, o.name, ks, o.open, w, t);
    ValuesArrive(strict, fp, o.sealed, z.bytes + rest, x.refs, map[]);
    if o.open { MembersArrive(strict, fp, o.members, rest, y.refs, Fill(fp, o.sealed, map[])); }
    if o.sealed == [] { NoItems(fp, x.refs); }
    hide Dec, DecValues, DecDynamic, SendTraits, SendValues, SendMembers, Fill;
    Pieces(x.bytes, y.bytes, z.bytes, rest);
  }

  lemma Pieces(x: seq<Byte>, y: seq<Byte>, z: seq<Byte>, rest: seq<Byte>)
    ensures [10] + x + y + z + rest == [10] + (x + (y + (z + rest)))
    ensures [10] + x + y + [] + rest == [10] + x + y + rest
    ensures z == [] ==> z + rest == rest
    ensures y == [] && z == [] ==> y + (z + rest) == rest
  {
  }

  // ---------- references to what is no string ----------

  /** What is at place k of the table, if it is of the kind asked for. */
  function Place(k: nat, kind: Value -> bool, rest: seq<Byte>, t: Tables): Decoded<Value> {
    if k >= |t.objects| then Fail(Panic)
    else if kind(t.objects[k]) then Ok(t.objects[k], rest, t)
    else Fail(Malformed)
  }

  /** A date, XML or a byte array referred to by its place in the table. */
  lemma RefersTo(strict: bool, fp: FloatOps, k: nat, rest: seq<Byte>, t: Tables)
    requires k <= 0xFFF_FFFF
    ensures var s := EncU29(k * 2) + rest;
      && Dec(strict, fp, [7] + s, t) == Place(k, (v: Value) => v.Text?, rest, t)
      && Dec(strict, fp, [8] + s, t) == Place(k, (v: Value) => v.Date?, rest, t)
      && Dec(strict, fp, [11] + s, t) == Place(k, (v: Value) => v.Text?, rest, t)
      && Dec(strict, fp, [12] + s, t) == Place(k, (v: Value) => v.Blob?, rest, t)
  {
    hide EncU29, ReadRef;
    var s := EncU29(k * 2) + rest;
    RefRead(k * 2, rest);
    assert k * 2 / 2 == k && k * 2 % 2 == 0;
    assert ([8] + s)[1..] == s && ([7] + s)[1..] == s && ([11] + s)[1..] == s && ([12] + s)[1..] == s;
  }

  /** Arrays and objects are looked for at half their place: the right one is found exactly when the same is there. */
  lemma RefersToHalf(strict: bool, fp: FloatOps, k: nat, rest: seq<Byte>, t: Tables)
    requires k < |t.objects| && k <= 0xFFF_FFFF
    ensures var s := EncU29(k * 2) + rest;
      && Dec(strict, fp, [10] + s, t) == Ok(t.objects[k / 2], rest, t)
      && Dec(strict, fp, [9] + s, t) == Place(k / 2, (v: Value) => v.List?, rest, t)
      && (Dec(strict, fp, [10] + s, t) == Ok(t.objects[k], rest, t) <==> t.objects[k / 2] == t.objects[k])
  {
    hide EncU29, ReadRef;
    var s := EncU29(k * 2) + rest;
    RefRead(k * 2, rest);
    assert k * 2 / 2 == k && k * 2 % 2 == 0;
    assert ([9] + s)[1..] == s && ([10] + s)[1..] == s;
  }

  // ---------- messages ----------

  /** One set of flags, with a value for each that is set. */
  datatype Group = Group(flags: seq<Byte>, fields: seq<Member>)

  /** Every byte of flags but the last has its high bit set, and the fields are the ones the flags stand for. */
  predicate Flagged(g: Group, sets: seq<seq<Str>>) {
    && g.flags != [] && (forall i :: 0 <= i < |g.flags| ==> (g.flags[i] >= 128 <==> i < |g.flags| - 1))
    && Keys(g.fields) == AmfExternal.ExternalFields(0, g.flags, sets)
    && forall i :: 0 <= i < |g.fields| ==> Good(g.fields[i].val)
  }

  function SendGroup(fp: FloatOps, g: Group, sets: seq<seq<Str>>, t: Tables): Sent
    requires Flagged(g, sets)
  {
    var x := SendValues(fp, g.fields, t);
    Sent(g.flags + x.bytes, x.refs, x.bare)
  }

  lemma {:induction false} FlagsRead(flags: seq<Byte>, rest: seq<Byte>)
    requires flags != [] && forall i :: 0 <= i < |flags| ==> (flags[i] >= 128 <==> i < |flags| - 1)
    ensures AmfExternal.FlagCount(flags + rest) == Some(|flags|)
    decreases |flags|
  {
    assert (flags + rest)[0] == flags[0];
    if |flags| > 1 {
      assert (flags + rest)[1..] == flags[1..] + rest;
      FlagsRead(flags[1..], rest);
    }
  }

  lemma GroupArrives(strict: bool, fp: FloatOps, g: Group, sets: seq<seq<Str>>, rest: seq<Byte>, t: Tables,
                     obj: map<Str, Value>)
    requires Flagged(g, sets)
    ensures var x := SendGroup(fp, g, sets, t);
      && x.bytes != []
      && Gets(DecExternal(strict, fp, sets, x.bytes + rest, t, obj), Fill(fp, g.fields, obj), strict, rest, x)
  {
    hide DecValues, SendValues, Fill, AmfExternal.ExternalFields;
    var x := SendValues(fp, g.fields, t);
    FlagsRead(g.flags, x.bytes + rest);
    ValuesArrive(strict, fp, g.fields, rest, t, obj);
    Regroup(g.flags, x.bytes, rest);
    Front(g.flags, x.bytes + rest);
  }

  lemma Front(a: seq<Byte>, b: seq<Byte>)
    ensures (a + b)[..|a|] == a && (a + b)[|a|..] == b
  {
  }

  const ABSTRACT: seq<seq<Str>> := AmfExternal.ABSTRACT_FIELDS
  const ASYNC: seq<seq<Str>> := AmfExternal.ASYNC_FIELDS

  /** An asynchronous message: the fields of an abstract one, then its own. */
  function SendAsync(fp: FloatOps, a: Group, b: Group, t: Tables): Sent
    requires Flagged(a, ABSTRACT) && Flagged(b, ASYNC)
  {
    var x := SendGroup(fp, a, ABSTRACT, t);
    var y := SendGroup(fp, b, ASYNC, x.refs);
    Sent(x.bytes + y.bytes, y.refs, y.bare)
  }

  lemma AsyncArrives(strict: bool, fp: FloatOps, a: Group, b: Group, rest: seq<Byte>, t: Tables)
    requires Flagged(a, ABSTRACT) && Flagged(b, ASYNC)
    ensures var x := SendAsync(fp, a, b, t); var obj := Fill(fp, b.fields, Fill(fp, a.fields, map[]));
      && x.bytes != []
      && Gets(DecAsync(strict, fp, x.bytes + rest, t), obj, strict, rest, x)
      && Gets(DecBuiltIn(strict, fp, AmfExternal.Ascii("DSA"), x.bytes + rest, t), Object(obj), strict, rest, x)
  {
    hide DecExternal, SendGroup, Fill, Flagged, Dec;
    var x := SendGroup(fp, a, ABSTRACT, t);
    var y := SendGroup(fp, b, ASYNC, x.refs);
    var obj := Fill(fp, a.fields, map[]);
    GroupArrives(strict, fp, a, ABSTRACT, y.bytes + rest, t, map[]);
    GroupArrives(strict, fp, b, ASYNC, rest, x.refs, obj);
    Regroup(x.bytes, y.bytes, rest);
  }

  /** An acknowledging message adds flags of its own, all of whose fields have made-up names. */
  lemma AcknowledgeArrives(strict: bool, fp: FloatOps, a: Group, b: Group, c: Group, rest: seq<Byte>, t: Tables)
    requires Flagged(a, ABSTRACT) && Flagged(b, ASYNC) && Flagged(c, [])
    ensures var x := SendAsync(fp, a, b, t); var y := SendGroup(fp, c, [], x.refs);
      var v := Object(Fill(fp, c.fields, Fill(fp, b.fields, Fill(fp, a.fields, map[]))));
      Gets(DecBuiltIn(strict, fp, AmfExternal.Ascii("DSK"), x.bytes + (y.bytes + rest), t), v, strict, rest, y)
  {
    hide DecExternal, SendGroup, SendAsync, Fill, Flagged, Dec, DecAsync;
    var x := SendAsync(fp, a, b, t);
    var y := SendGroup(fp, c, [], x.refs);
    AsyncArrives(strict, fp, a, b, y.bytes + rest, t);
    GroupArrives(strict, fp, c, [], rest, x.refs, Fill(fp, b.fields, Fill(fp, a.fields, map[])));
    assert AmfExternal.Ascii("DSK")[2] != AmfExternal.Ascii("DSA")[2];
  }
}
