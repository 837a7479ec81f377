/** A second AMF0 writer, from the format's own description (Adobe AMF 0, section 2): every type the decoder takes. */
module Amf0Sender {
  import opened Bytes
  import opened Buffers
  import opened AmfValues
  import opened Amf0Format
  import opened Amf0RoundTrip
  import A3 = Amf3Sender

  datatype Item =
    | ZNumber(d: Float)
    | ZBool(b: bool)
    | ZText(s: Str)
    | ZLong(s: Str)
    | ZXml(s: Str)
    | ZNull
    | ZUndefined
    | ZUnsupported
    | ZDate(d: Float, zone: int)
    | ZList(elems: seq<Item>)
    | ZObject(members: seq<Member>)
    | ZEcma(count: U32, members: seq<Member>)
    | ZTyped(name: Str, members: seq<Member>)
    | ZAmf3(o: A3.Item)

  datatype Member = Member(key: Str, val: Item)

  predicate Good(o: Item)
    decreases o
  {
    match o
    case ZText(s) => |s| <= 0xFFFF
    case ZLong(s) => |s| <= 0xFFFF_FFFF
    case ZXml(s) => |s| <= 0xFFFF_FFFF
    case ZDate(_, zone) => -0x8000 <= zone < 0x8000
    case ZList(elems) => |elems| <= 0xFFFF_FFFF && forall i :: 0 <= i < |elems| ==> Good(elems[i])
    case ZObject(ms) => forall i :: 0 <= i < |ms| ==> 0 < |ms[i].key| <= 0xFFFF && Good(ms[i].val)
    case ZEcma(_, ms) => forall i :: 0 <= i < |ms| ==> 0 < |ms[i].key| <= 0xFFFF && Good(ms[i].val)
    case ZTyped(name, ms) =>
      |name| <= 0xFFFF && forall i :: 0 <= i < |ms| ==> 0 < |ms[i].key| <= 0xFFFF && Good(ms[i].val)
    case ZAmf3(o) => A3.Good(o)
    case _ => true
  }

  function Worth(fp: FloatOps, o: Item): Value
    decreases o
  {
    match o
    case ZNumber(d) => Double(d)
    case ZBool(b) => Bool(b)
    case ZText(s) => Text(s)
    case ZLong(s) => Text(s)
    case ZXml(s) => Text(s)
    case ZNull => Nil
    case ZUndefined => Nil
    case ZUnsupported => Nil
    case ZDate(d, _) => Double(d)
    case ZList(elems) => List(Worths(fp, elems))
    case ZObject(ms) => Object(Gather(fp, ms, map[]))
    case ZEcma(_, ms) => Object(Gather(fp, ms, map[]))
    case ZTyped(name, ms) => Typed(name, Gather(fp, ms, map[]))
    case ZAmf3(o) => A3.Worth(fp, o)
  }

  function Worths(fp: FloatOps, elems: seq<Item>): seq<Value>
    decreases elems
  {
    if elems == [] then [] else [Worth(fp, elems[0])] + Worths(fp, elems[1..])
  }

  function Gather(fp: FloatOps, ms: seq<Member>, obj: map<Str, Value>): map<Str, Value>
    decreases ms
  {
    if ms == [] then obj else Gather(fp, ms[1..], obj[ms[0].key := Worth(fp, ms[0].val)])
  }

  // ---------- what is sent ----------

  function Send(fp: FloatOps, o: Item, t: Tables): A3.Sent
    requires Good(o)
    decreases o, 1
  {
    match o
    case ZNumber(d) => A3.Sent([0] + d, t, false)
    case ZBool(b) => A3.Sent([1, if b then 1 else 0], t, false)
    case ZText(s) => A3.Sent([2] + BE(|s|, 2) + s, t, false)
    case ZLong(s) => A3.Sent([12] + BE(|s|, 4) + s, t, s == [])
    case ZXml(s) => A3.Sent([15] + BE(|s|, 4) + s, t, s == [])
    case ZNull => A3.Sent([5], t, false)
    case ZUndefined => A3.Sent([6], t, false)
    case ZUnsupported => A3.Sent([13], t, false)
    case ZDate(d, zone) => A3.Sent([11] + d + BE(zone % 0x1_0000, 2), t, false)
    case ZList(elems) =>
      var x := SendAll(fp, elems, t);
      A3.Sent([10] + BE(|elems|, 4) + x.bytes, x.refs, x.bare)
    case ZObject(ms) =>
      var x := SendMembers(fp, ms, t);
      A3.Sent([3] + x.bytes, x.refs, false)
    case ZEcma(count, ms) =>
      var x := SendMembers(fp, ms, t);
      A3.Sent([8] + BE(count, 4) + x.bytes, x.refs, false)
    case ZTyped(name, ms) =>
      var x := SendMembers(fp, ms, t);
      A3.Sent([16] + (BE(|name|, 2) + name) + x.bytes, x.refs, false)
    case ZAmf3(o) =>
      var x := A3.Send(fp, o, t);
      A3.Sent([17] + x.bytes, x.refs, x.bare)
  }

  function SendAll(fp: FloatOps, elems: seq<Item>, t: Tables): A3.Sent
    requires forall i :: 0 <= i < |elems| ==> Good(elems[i])
    decreases elems, 0
  {
    if elems == [] then A3.Sent([], t, false)
    else
      var x := Send(fp, elems[0], t);
      var y := SendAll(fp, elems[1..], x.refs);
      A3.Sent(x.bytes + y.bytes, y.refs, if |elems| == 1 then x.bare else y.bare)
  }

  /** Names and values, then the empty name and the end marker. */
  function SendMembers(fp: FloatOps, ms: seq<Member>, t: Tables): A3.Sent
    requires forall i :: 0 <= i < |ms| ==> 0 < |ms[i].key| <= 0xFFFF && Good(ms[i].val)
    decreases ms, 0
  {
    if ms == [] then A3.Sent([0, 0, 9], t, false)
    else
      var x := Send(fp, ms[0].val, t);
      var y := SendMembers(fp, ms[1..], x.refs);
      A3.Sent((BE(|ms[0].key|, 2) + ms[0].key) + x.bytes + y.bytes, y.refs, false)
  }

  // ---------- reading it ----------

  lemma {:induction false} Arrives(strict: bool, fp: FloatOps, o: Item, rest: seq<Byte>, t: Tables)
    requires Good(o)
    ensures Send(fp, o, t).bytes != []
    ensures A3.Gets(Dec(strict, fp, Send(fp, o, t).bytes + rest, t), Worth(fp, o), strict, rest, Send(fp, o, t))
    decreases o, 1
  {
    match o
    case ZList(_) => ListArrives(strict, fp, o, rest, t);
    case ZObject(_) => ObjectArrives(strict, fp, o, rest, t);
    case ZEcma(_, _) => EcmaArrives(strict, fp, o, rest, t);
    case ZTyped(_, _) => TypedArrives(strict, fp, o, rest, t);
    case ZAmf3(_) => Amf3Arrives(strict, fp, o, rest, t);
    case _ => LeafArrives(strict, fp, o, rest, t);
  }

  lemma Amf3Arrives(strict: bool, fp: FloatOps, o: Item, rest: seq<Byte>, t: Tables)
    requires o.ZAmf3? && Good(o)
    ensures Send(fp, o, t).bytes != []
    ensures A3.Gets(Dec(strict, fp, Send(fp, o, t).bytes + rest, t), Worth(fp, o), strict, rest, Send(fp, o, t))
  {
    hide A3.Send, A3.Worth, DecEntries, DecElems;
    A3.Arrives(strict, fp, o.o, rest, t);
    A3.Marked(17, A3.Send(fp, o.o, t).bytes, rest);
  }

  lemma LongArrives(strict: bool, s: Str, rest: seq<Byte>, t: Tables)
    requires |s| <= 0xFFFF_FFFF
    ensures DecLong(strict, BE(|s|, 4) + (s + rest), t)
         == if strict && rest == [] && s == [] then Fail(Malformed) else Ok(s, rest, t)
  {
    hide BE, U32BE, Padded;
    BE4(|s|, s + rest);
    BehindFour(BE(|s|, 4), s, rest);
  }

  lemma BehindFour(h: seq<Byte>, s: seq<Byte>, rest: seq<Byte>)
    requires |h| == 4
    ensures var data := h + (s + rest);
      data[4..] == s + rest && data[4..4 + |s|] == s && data[4 + |s|..] == rest && |data| == 4 + |s| + |rest|
    ensures s + rest == [] <==> s == [] && rest == []
  {
  }

  lemma ShortArrives(s: Str, rest: seq<Byte>, t: Tables)
    requires |s| <= 0xFFFF
    ensures DecShort(BE(|s|, 2) + s + rest, t) == Ok(s, rest, t)
  {
    ShortRoundTrip(s, rest, t);
  }

  lemma LeafArrives(strict: bool, fp: FloatOps, o: Item, rest: seq<Byte>, t: Tables)
    requires Good(o) && !o.ZList? && !o.ZObject? && !o.ZEcma? && !o.ZTyped? && !o.ZAmf3?
    ensures Send(fp, o, t).bytes != []
    ensures A3.Gets(Dec(strict, fp, Send(fp, o, t).bytes + rest, t), Worth(fp, o), strict, rest, Send(fp, o, t))
  {
    hide DecShort, DecLong, DecEntries, DecElems, BE, U32BE;
    var data := Send(fp, o, t).bytes + rest;
    match o
    case ZNumber(d) => assert data[1..] == d + rest;
    case ZBool(b) => assert data[1..][1..] == rest;
    case ZText(s) =>
      ShortArrives(s, rest, t);
      assert data[1..] == BE(|s|, 2) + s + rest;
    case ZLong(s) =>
      LongArrives(strict, s, rest, t);
      A3.Framed(12, BE(|s|, 4), s, rest);
    case ZXml(s) =>
      LongArrives(strict, s, rest, t);
      A3.Framed(15, BE(|s|, 4), s, rest);
    case ZDate(d, zone) =>
      assert data[1..] == d + (BE(zone % 0x1_0000, 2) + rest);
      assert data[1..][10..] == rest;
    case ZNull => assert data[1..] == rest;
    case ZUndefined => assert data[1..] == rest;
    case ZUnsupported => assert data[1..] == rest;
  }

  lemma {:induction false} ListArrives(strict: bool, fp: FloatOps, o: Item, rest: seq<Byte>, t: Tables)
    requires o.ZList? && Good(o)
    ensures Send(fp, o, t).bytes != []
    ensures A3.Gets(Dec(strict, fp, Send(fp, o, t).bytes + rest, t), Worth(fp, o), strict, rest, Send(fp, o, t))
    decreases o, 0
  {
    hide BE, U32BE, DecElems, SendAll, DecEntries;
    var x := SendAll(fp, o.elems, t);
    AllArrive(strict, fp, o.elems, rest, t);
    A3.Framed(10, BE(|o.elems|, 4), x.bytes, rest);
    BE4(|o.elems|, x.bytes + rest);
    assert (BE(|o.elems|, 4) + (x.bytes + rest))[4..] == x.bytes + rest;
  }

  lemma {:induction false} AllArrive(strict: bool, fp: FloatOps, elems: seq<Item>, rest: seq<Byte>, t: Tables)
    requires forall i :: 0 <= i < |elems| ==> Good(elems[i])
    ensures var x := SendAll(fp, elems, t);
      && (elems != [] ==> x.bytes != [])
      && A3.Gets(DecElems(strict, fp, |elems|, x.bytes + rest, t), Worths(fp, elems), strict, rest, x)
    decreases elems, 0
  {
    hide Dec, Send, Worth, Good;
    if elems == [] {
      assert [] + rest == rest;
    } else {
      var x := Send(fp, elems[0], t);
      var y := SendAll(fp, elems[1..], x.refs);
      AllArrive(strict, fp, elems[1..], rest, x.refs);
      Arrives(strict, fp, elems[0], y.bytes + rest, t);
      Regroup(x.bytes, y.bytes, rest);
      if |elems| == 1 {
        assert elems[1..] == [] && y.bytes + rest == rest;
      }
    }
  }

  lemma {:induction false} MembersArrive(strict: bool, fp: FloatOps, ms: seq<Member>, rest: seq<Byte>, t: Tables,
                                         obj: map<Str, Value>)
    requires forall i :: 0 <= i < |ms| ==> 0 < |ms[i].key| <= 0xFFFF && Good(ms[i].val)
    ensures var x := SendMembers(fp, ms, t);
      && x.bytes != []
      && DecEntries(strict, fp, x.bytes + rest, t, obj) == Ok(Gather(fp, ms, obj), rest, x.refs)
    decreases ms, 0
  {
    hide Dec, Send, Worth, Good, DecShort, BE;
    if ms == [] {
      EndRead(rest, t);
    } else {
      var k := BE(|ms[0].key|, 2) + ms[0].key;
      var x := Send(fp, ms[0].val, t);
      var y := SendMembers(fp, ms[1..], x.refs);
      MembersArrive(strict, fp, ms[1..], rest, x.refs, obj[ms[0].key := Worth(fp, ms[0].val)]);
      Arrives(strict, fp, ms[0].val, y.bytes + rest, t);
      ShortArrives(ms[0].key, x.bytes + (y.bytes + rest), t);
      Regroup4(k, x.bytes, y.bytes, rest);
      Regroup(x.bytes, y.bytes, rest);
      assert k + x.bytes + y.bytes + rest == k + (x.bytes + (y.bytes + rest));
      assert y.bytes + rest != [];
    }
  }

  lemma {:induction false} ObjectArrives(strict: bool, fp: FloatOps, o: Item, rest: seq<Byte>, t: Tables)
    requires o.ZObject? && Good(o)
    ensures Send(fp, o, t).bytes != []
    ensures Dec(strict, fp, Send(fp, o, t).bytes + rest, t) == Ok(Worth(fp, o), rest, Send(fp, o, t).refs)
    decreases o, 0
  {
    hide DecEntries, SendMembers, DecElems;
    MembersArrive(strict, fp, o.members, rest, t, map[]);
    A3.Marked(3, SendMembers(fp, o.members, t).bytes, rest);
  }

  lemma {:induction false} EcmaArrives(strict: bool, fp: FloatOps, o: Item, rest: seq<Byte>, t: Tables)
    requires o.ZEcma? && Good(o)
    ensures Send(fp, o, t).bytes != []
    ensures Dec(strict, fp, Send(fp, o, t).bytes + rest, t) == Ok(Worth(fp, o), rest, Send(fp, o, t).refs)
    decreases o, 0
  {
    hide DecEntries, SendMembers, DecElems, BE;
    var x := SendMembers(fp, o.members, t);
    MembersArrive(strict, fp, o.members, rest, t, map[]);
    A3.Framed(8, BE(o.count, 4), x.bytes, rest);
    assert (BE(o.count, 4) + (x.bytes + rest))[4..] == x.bytes + rest;
  }

  lemma {:induction false} TypedArrives(strict: bool, fp: FloatOps, o: Item, rest: seq<Byte>, t: Tables)
    requires o.ZTyped? && Good(o)
    ensures Send(fp, o, t).bytes != []
    ensures Dec(strict, fp, Send(fp, o, t).bytes + rest, t) == Ok(Worth(fp, o), rest, Send(fp, o, t).refs)
    decreases o, 0
  {
    hide DecEntries, SendMembers, DecElems, BE, DecShort;
    var x := SendMembers(fp, o.members, t);
    MembersArrive(strict, fp, o.members, rest, t, map[]);
    A3.Framed(16, BE(|o.name|, 2) + o.name, x.bytes, rest);
    ShortArrives(o.name, x.bytes + rest, t);
  }

  // ---------- the encoder of the repository ----------

  /** What EncodeAmf0 means by a value: numbers are floats, a string is long when 16 bits cannot count it. */
  function Meant(fp: FloatOps, o: Tree): Item
    decreases o
  {
    match o
    case TNil => ZNull
    case TBool(b) => ZBool(b)
    case TInt(n) => ZNumber(fp.ofInt(n))
    case TWide(n) => ZNumber(fp.ofInt(n))
    case TDouble(d) => ZNumber(d)
    case TText(s) => if |s| > 65535 then ZLong(s) else ZText(s)
    case TDate(_) => ZUnsupported
    case TList(elems) => ZList(AllMeant(fp, elems))
    case TObject(es) => ZObject(MembersMeant(fp, es))
    case TTyped(_, _) => ZUnsupported
  }

  function AllMeant(fp: FloatOps, elems: seq<Tree>): (r: seq<Item>)
    ensures |r| == |elems|
    decreases elems
  {
    if elems == [] then [] else [Meant(fp, elems[0])] + AllMeant(fp, elems[1..])
  }

  function MembersMeant(fp: FloatOps, es: seq<Entry>): (r: seq<Member>)
    ensures |r| == |es|
    decreases es
  {
    if es == [] then [] else [Member(es[0].key, Meant(fp, es[0].val))] + MembersMeant(fp, es[1..])
  }

  /** Whenever it succeeds on something the format can carry, the encoder writes what this writer would. */
  lemma {:induction false} EncoderSends(fp: FloatOps, o: Tree, t: Tables)
    requires Enc(fp, o).ok && Good(Meant(fp, o))
    ensures Enc(fp, o).bytes == Send(fp, Meant(fp, o), t).bytes && Send(fp, Meant(fp, o), t).refs == t
    decreases o, 0
  {
    hide BE;
    match o
    case TList(elems) => EncoderSendsAll(fp, elems, t);
    case TObject(es) => EncoderSendsMembers(fp, es, t);
    case _ =>
  }

  lemma {:induction false} EncoderSendsAll(fp: FloatOps, elems: seq<Tree>, t: Tables)
    requires EncElems(fp, elems).ok && forall m :: m in AllMeant(fp, elems) ==> Good(m)
    ensures var x := SendAll(fp, AllMeant(fp, elems), t);
      EncElems(fp, elems).bytes == x.bytes && x.refs == t
    decreases elems, 0
  {
    hide Enc, Send, Meant, Good;
    if elems != [] {
      assert AllMeant(fp, elems)[1..] == AllMeant(fp, elems[1..]);
      EncoderSends(fp, elems[0], t);
      EncoderSendsAll(fp, elems[1..], t);
    }
  }

  lemma Pieces(k: seq<Byte>, v: seq<Byte>, more: seq<Byte>, end: seq<Byte>)
    ensures k + (v + more) + end == k + v + (more + end)
  {
  }

  lemma {:induction false} EncoderSendsMembers(fp: FloatOps, es: seq<Entry>, t: Tables)
    requires EncEntries(fp, es).ok
    requires forall m :: m in MembersMeant(fp, es) ==> 0 < |m.key| <= 0xFFFF && Good(m.val)
    ensures var x := SendMembers(fp, MembersMeant(fp, es), t);
      EncEntries(fp, es).bytes + OBJECT_END == x.bytes && x.refs == t
    decreases es, 0
  {
    hide Enc, Send, Meant, Good, BE;
    if es != [] {
      var ms := MembersMeant(fp, es);
      assert ms[1..] == MembersMeant(fp, es[1..]);
      EncoderSends(fp, es[0].val, t);
      EncoderSendsMembers(fp, es[1..], t);
      var k, v, more := ShortText(es[0].key), Enc(fp, es[0].val).bytes, EncEntries(fp, es[1..]).bytes;
      Pieces(k, v, more, OBJECT_END);
    }
  }

  /** No other marker is read: clips, references and record sets are refused, and so is a truth value above one. */
  lemma NothingElse(strict: bool, fp: FloatOps, s: seq<Byte>, t: Tables)
    ensures s != [] && s[0] !in {0, 1, 2, 3, 5, 6, 8, 10, 11, 12, 13, 15, 16, 17} ==>
              Dec(strict, fp, s, t) == Fail(Malformed)
    ensures |s| >= 2 && s[0] == 1 && s[1] > 1 ==> Dec(strict, fp, s, t) == Fail(Malformed)
    ensures |s| >= 2 && s[0] == 17 && s[1] > 12 ==> Dec(strict, fp, s, t) == Fail(Malformed)
  {
    hide DecEntries, DecEcma, DecList, DecTyped;
  }
}
