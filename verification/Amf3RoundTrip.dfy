/** Decoding what the AMF3 encoder wrote. */
module Amf3RoundTrip {
  import opened Bytes
  import opened Buffers
  import opened AmfValues
  import opened Amf3Format
  import opened KeyOrder
  import opened AmfExpected
  import AmfExternal

  // ---------- U29 ----------

  /** The digits that a U29 of two, three or four bytes is written with. */
  lemma TwoDigits(v: nat) returns (a: nat, b: nat)
    requires 0x7F < v <= 0x3FFF
    ensures a < 0x80 && b < 0x80 && v == a * 0x80 + b && EncU29(v) == [a + 0x80, b]
  {
    a, b := v / 0x80, v % 0x80;
  }

  lemma ThreeDigits(v: nat) returns (a: nat, b: nat, c: nat)
    requires v <= 0x1F_FFFF
    ensures a < 0x80 && b < 0x80 && c < 0x80 && v == a * 0x4000 + b * 0x80 + c
    ensures a == v / 0x4000 && b == v / 0x80 % 0x80 && c == v % 0x80
  {
    a, b, c := v / 0x4000, v / 0x80 % 0x80, v % 0x80;
    var x := v / 0x80;
    assert v / 0x4000 == x / 0x80 && x == x / 0x80 * 0x80 + x % 0x80;
  }

  lemma FourDigits(v: nat) returns (a: nat, b: nat, c: nat, d: nat)
    requires 0x1F_FFFF < v <= U29_MAX
    ensures a < 0x80 && b < 0x80 && c < 0x80 && d < 0x100
    ensures v == a * 0x40_0000 + b * 0x8000 + c * 0x100 + d && EncU29(v) == [a + 0x80, b + 0x80, c + 0x80, d]
  {
    var x := v / 0x100;
    a, b, c := ThreeDigits(x);
    d := v % 0x100;
    assert v / 0x8000 == x / 0x80 && v / 0x40_0000 == x / 0x4000;
  }

  lemma Low7Of(a: nat)
    requires a < 0x80
    ensures Low7(a + 0x80) == a
  {
  }

  lemma DecodeTwo(a: nat, b: nat, rest: seq<Byte>)
    requires a < 0x80 && b < 0x80
    ensures DecU29([a + 0x80, b] + rest) == Some((a * 0x80 + b, 2))
  {
    Low7Of(a);
  }

  lemma DecodeThree(a: nat, b: nat, c: nat, rest: seq<Byte>)
    requires a < 0x80 && b < 0x80 && c < 0x80
    ensures DecU29([a + 0x80, b + 0x80, c] + rest) == Some((a * 0x4000 + b * 0x80 + c, 3))
  {
    Low7Of(a);
    Low7Of(b);
  }

  lemma DecodeFour(a: nat, b: nat, c: nat, d: nat, rest: seq<Byte>)
    requires a < 0x80 && b < 0x80 && c < 0x80 && d < 0x100
    ensures DecU29([a + 0x80, b + 0x80, c + 0x80, d] + rest) == Some((a * 0x40_0000 + b * 0x8000 + c * 0x100 + d, 4))
  {
    Low7Of(a);
    Low7Of(b);
    Low7Of(c);
  }

  lemma OneByte(v: nat, rest: seq<Byte>)
    requires v <= 0x7F
    ensures EncU29(v) == [v] && DecU29([v] + rest) == Some((v, 1))
  {
  }

  lemma ThreeBytes(v: nat)
    requires 0x3FFF < v <= 0x1F_FFFF
    ensures EncU29(v) == [v / 0x4000 + 0x80, v / 0x80 % 0x80 + 0x80, v % 0x80]
  {
  }

  /** Decoding inverts encoding over the whole range, and reads exactly the bytes that were written. */
  lemma U29RoundTrip(v: nat, rest: seq<Byte>)
    requires v <= U29_MAX
    ensures EncU29(v) != [] && DecU29(EncU29(v) + rest) == Some((v, |EncU29(v)|))
  {
    hide DecU29, EncU29;
    if v <= 0x7F {
      OneByte(v, rest);
    } else if v <= 0x3FFF {
      var a, b := TwoDigits(v);
      DecodeTwo(a, b, rest);
    } else if v <= 0x1F_FFFF {
      var a, b, c := ThreeDigits(v);
      ThreeBytes(v);
      DecodeThree(a, b, c, rest);
    } else {
      var a, b, c, d := FourDigits(v);
      DecodeFour(a, b, c, d, rest);
    }
  }

  /** A U29 as the format has it (section 1.3.1): seven bits of a byte and a bit for more, or eight of the fourth. */
  function Groups(s: seq<Byte>, k: nat, high: nat): Option<(nat, nat)>
    requires k <= 3
    decreases 3 - k
  {
    if s == [] then None
    else if k == 3 then Some((high * 256 + s[0], 4))
    else if s[0] < 128 then Some((high * 128 + s[0], k + 1))
    else Groups(s[1..], k + 1, high * 128 + s[0] - 128)
  }

  lemma U29IsGroups(s: seq<Byte>)
    ensures DecU29(s) == Groups(s, 0, 0)
  {
    if |s| > 1 {
      var t := s[1..];
      assert t[0] == s[1];
      if |s| > 2 {
        var u := t[1..];
        assert u[0] == s[2];
        if |s| > 3 {
          assert u[1..][0] == s[3];
        }
      }
    }
  }

  // ---------- what fits, and what comes back ----------

  predicate TextFits(s: Str) { |s| <= 0xFFF_FFFF }

  predicate NamesFit(es: seq<Entry>) {
    |es| <= 0x1FF_FFFF && forall i :: 0 <= i < |es| ==> TextFits(es[i].key)
  }

  /** Every length fits its U29: 28 bits for strings and lists, 25 for the properties of an object. */
  predicate Fits(o: Tree)
    decreases o
  {
    match o
    case TText(s) => TextFits(s)
    case TList(elems) => |elems| <= 0xFFF_FFFF && forall i :: 0 <= i < |elems| ==> Fits(elems[i])
    case TObject(es) => NamesFit(es) && forall i :: 0 <= i < |es| ==> Fits(es[i].val)
    case TTyped(name, es) => TextFits(name) && NamesFit(es) && forall i :: 0 <= i < |es| ==> Fits(es[i].val)
    case _ => true
  }

  /** The last thing the decoder does is to read a string of no bytes. */
  predicate EndsInEmptyText(o: Tree)
    decreases o
  {
    match o
    case TText(s) => s == []
    case TList(elems) => elems == [] || EndsInEmptyText(elems[|elems| - 1])
    case TObject(es) => es == [] || EndsInEmptyText(es[|es| - 1].val)
    case TTyped(name, es) => if es == [] then name == [] else EndsInEmptyText(es[|es| - 1].val)
    case _ => false
  }

  // ---------- strings ----------

  predicate Reads<T(==)>(r: Decoded<T>, value: T, rest: seq<Byte>) {
    r.Ok? && r.value == value && r.rest == rest
  }

  lemma TextRoundTrip(strict: bool, s: Str, rest: seq<Byte>, refs: Tables)
    requires TextFits(s)
    ensures Utf8(s).ok && Utf8(s).bytes != []
    ensures var r := DecText(strict, Utf8(s).bytes + rest, refs);
      if strict && s == [] && rest == [] then r == Fail(Malformed)
      else Reads(r, s, rest) && r.refs == if s == [] then refs else refs.(strings := refs.strings + [s])
  {
    var h := LengthHeader(|s|);
    hide EncU29, DecU29;
    assert h == |s| * 2 + 1;
    U29RoundTrip(h, s + rest);
    hide Padded, Rest;
    Behind(EncU29(h), s, rest);
    TakesBack(s, rest);
  }

  lemma Behind(h: seq<Byte>, s: seq<Byte>, rest: seq<Byte>)
    ensures h + s + rest == h + (s + rest) && (h + s + rest)[|h|..] == s + rest
  {
  }

  lemma TakesBack(s: seq<Byte>, rest: seq<Byte>)
    ensures Padded(s + rest, |s|) == s && Rest(s + rest, |s|) == rest
    ensures s + rest == [] <==> s == [] && rest == []
  {
  }

  lemma {:induction false} NamesRoundTrip(strict: bool, es: seq<Entry>, rest: seq<Byte>, refs: Tables)
    requires NamesFit(es) && (es == [] || rest != [])
    ensures Names(es).ok
    ensures Reads(DecTexts(strict, |es|, Names(es).bytes + rest, refs), Keys(es), rest)
    decreases |es|
  {
    hide Utf8, DecText;
    if es == [] {
      assert Names(es).bytes + rest == rest;
    } else {
      var u, more := Utf8(es[0].key).bytes, es[1..];
      assert TextFits(es[0].key);
      var tail := Names(more).bytes + rest;
      NamesRoundTrip(strict, more, rest, refs);
      TextRoundTrip(strict, es[0].key, tail, refs);
      assert u + Names(more).bytes + rest == u + tail;
      NamesRoundTrip(strict, more, rest, DecText(strict, u + tail, refs).refs);
      assert Keys(es) == [es[0].key] + Keys(more);
    }
  }

  // ---------- headers ----------

  lemma HeaderRoundTrip(h: nat, tail: seq<Byte>)
    requires h <= U29_MAX && h % 2 == 1
    ensures U29(h).ok && U29(h).bytes != []
    ensures ReadRef(U29(h).bytes + tail) == InLine(h / 2, |U29(h).bytes|)
    ensures (U29(h).bytes + tail)[|U29(h).bytes|..] == tail
  {
    U29RoundTrip(h, tail);
  }

  /** A list header: w is what comes after it. */
  lemma ListOpens(strict: bool, fp: FloatOps, n: nat, w: seq<Byte>, refs: Tables) returns (refs1: Tables)
    requires n <= 0xFFF_FFFF
    ensures ListHeader(n).ok && ListHeader(n).bytes != []
    ensures var r := Dec(strict, fp, ListHeader(n).bytes + w, refs);
      if strict && w == [] then r == Fail(Malformed)
      else
        match DecElems(strict, fp, n, w, refs1)
        case Fail(f) => r == Fail(f)
        case Ok(vs, rest, _) => Reads(r, List(vs), rest)
  {
    hide Dec, DecElems, DecText, Utf8, U29, ReadRef;
    var h, u := LengthHeader(n), Utf8([]).bytes + w;
    assert h == n * 2 + 1;
    HeaderRoundTrip(h, u);
    TextRoundTrip(strict, [], w, refs);
    Regroup5([9], U29(h).bytes, Utf8([]).bytes, w, []);
    assert ListHeader(n).bytes + w + [] == ListHeader(n).bytes + w && w + [] == w;
    ListMarker(strict, fp, U29(h).bytes + u, refs);
    refs1 := if strict && w == [] then refs else DecText(strict, u, refs).refs;
  }

  lemma ListMarker(strict: bool, fp: FloatOps, s: seq<Byte>, refs: Tables)
    ensures Dec(strict, fp, [9] + s, refs) == DecList(strict, fp, s, refs)
  {
    hide DecObject, DecInt, DecText, DecXml, DecDate, DecBlob, DecList;
    assert ([9] + s)[1..] == s;
  }

  lemma TraitHeaderOf(n: nat)
    requires n <= 0x1FF_FFFF
    ensures var h := TraitHeader(n); h <= U29_MAX && h % 2 == 1 && h / 2 == 1 + n * 8
  {
    assert TraitHeader(n) == 2 * (n * 8 + 1) + 1;
  }

  /** An object header with a sealed class: w is what comes after it. */
  lemma ObjectOpens(strict: bool, fp: FloatOps, name: Str, es: seq<Entry>, w: seq<Byte>, refs: Tables)
      returns (refs1: Tables)
    requires TextFits(name) && NamesFit(es) && (es == [] || w != [])
    ensures ObjectHeader(name, es).ok && ObjectHeader(name, es).bytes != []
    ensures var r := Dec(strict, fp, ObjectHeader(name, es).bytes + w, refs);
      if strict && es == [] && name == [] && w == [] then r == Fail(Malformed)
      else
        match DecValues(strict, fp, Keys(es), w, refs1, map[])
        case Fail(f) => r == Fail(f)
        case Ok(obj, rest, _) => Reads(r, Object(obj), rest)
  {
    hide DecValues, DecText, Dec, ObjectHeader, Utf8, U29, ReadRef, Keys, Names, TraitHeader;
    var h := TraitHeader(|es|);
    TraitHeaderOf(|es|);
    var ns := Names(es).bytes + w;
    var u := Utf8(name).bytes + ns;
    ObjectBytes(strict, fp, name, es, w, refs);
    HeaderRoundTrip(h, u);
    NoNames(es);
    if strict && name == [] && ns == [] {
      TextRoundTrip(strict, name, ns, refs);
      refs1 := refs;
    } else {
      hide DecTrait;
      refs1 := TraitReads(strict, name, es, w, refs);
    }
  }

  lemma ObjectBytes(strict: bool, fp: FloatOps, name: Str, es: seq<Entry>, w: seq<Byte>, refs: Tables)
    requires TextFits(name) && NamesFit(es) && (es == [] || w != [])
    ensures ObjectHeader(name, es).ok && ObjectHeader(name, es).bytes != []
    ensures Dec(strict, fp, ObjectHeader(name, es).bytes + w, refs)
         == DecObject(strict, fp, U29(TraitHeader(|es|)).bytes + (Utf8(name).bytes + (Names(es).bytes + w)), refs)
  {
    hide Dec, DecObject, DecText, DecTexts, Utf8, U29, ReadRef, Names, Then, TraitHeader;
    var h := TraitHeader(|es|);
    TraitHeaderOf(|es|);
    var ns := Names(es).bytes + w;
    var u := Utf8(name).bytes + ns;
    HeaderRoundTrip(h, u);
    TextRoundTrip(strict, name, ns, refs);
    NamesRoundTrip(strict, es, w, refs);
    FourParts([10], U29(h), Utf8(name), Names(es));
    Regroup5([10], U29(h).bytes, Utf8(name).bytes, Names(es).bytes, w);
    ObjectMarker(strict, fp, U29(h).bytes + u, refs);
  }

  lemma FourParts(a: seq<Byte>, b: Written, c: Written, d: Written)
    requires b.ok && c.ok && d.ok
    ensures Then(Then(Then(Done(a), b), c), d) == Done(a + b.bytes + c.bytes + d.bytes)
  {
  }

  lemma ObjectMarker(strict: bool, fp: FloatOps, s: seq<Byte>, refs: Tables)
    ensures Dec(strict, fp, [10] + s, refs) == DecObject(strict, fp, s, refs)
  {
    hide DecObject, DecInt, DecText, DecXml, DecDate, DecBlob, DecList;
    assert ([10] + s)[1..] == s;
  }

  lemma NoNames(es: seq<Entry>)
    requires NamesFit(es)
    ensures es != [] <==> Names(es).bytes != []
  {
    if es != [] {
      assert TextFits(es[0].key);
      TextRoundTrip(false, es[0].key, [], Tables([], [], []));
      NamesRoundTrip(false, es[1..], [0], Tables([], [], []));
    }
  }

  lemma TraitReads(strict: bool, name: Str, es: seq<Entry>, w: seq<Byte>, refs: Tables) returns (refs1: Tables)
    requires TextFits(name) && NamesFit(es) && (es == [] || w != [])
    requires !(strict && name == [] && Names(es).bytes + w == [])
    ensures DecTrait(strict, Utf8(name).bytes + (Names(es).bytes + w), 1 + |es| * 8, refs)
         == Ok(Trait(name, false, false, Keys(es)), w, refs1)
  {
    hide DecText, DecTexts, Utf8, Keys, Names;
    var ns := Names(es).bytes + w;
    TextRoundTrip(strict, name, ns, refs);
    var named := DecText(strict, Utf8(name).bytes + ns, refs).refs;
    NamesRoundTrip(strict, es, w, named);
    refs1 := DecTrait(strict, Utf8(name).bytes + ns, 1 + |es| * 8, refs).refs;
  }

  // ---------- the round trip ----------

  lemma ThenBefore(a: Written, b: Written, rest: seq<Byte>)
    requires a.ok && b.ok
    ensures Then(a, b).ok && (a.bytes != [] ==> Then(a, b).bytes != [])
    ensures Then(a, b).bytes + rest == a.bytes + (b.bytes + rest)
    ensures a.bytes == [] ==> Then(a, b).bytes == b.bytes
    ensures b.bytes + rest == [] <==> b.bytes == [] && rest == []
  {
  }

  lemma {:induction false} RawRoundTrip(strict: bool, fp: FloatOps, o: Tree, rest: seq<Byte>, refs: Tables)
    requires Fits(o)
    ensures Raw(fp, o).ok && Raw(fp, o).bytes != []
    ensures var r := Dec(strict, fp, Raw(fp, o).bytes + rest, refs);
      if strict && rest == [] && EndsInEmptyText(o) then r == Fail(Malformed) else Reads(r, Seen(Amf3, fp, o), rest)
    decreases o
  {
    match o
    case TList(elems) =>
      ListRoundTrip(strict, fp, elems, rest, refs);
    case TObject(es) =>
      ObjectRoundTrip(strict, fp, [], es, rest, refs);
    case TTyped(name, es) =>
      ObjectRoundTrip(strict, fp, name, es, rest, refs);
    case _ =>
      LeafRoundTrip(strict, fp, o, rest, refs);
  }

  lemma LeafRoundTrip(strict: bool, fp: FloatOps, o: Tree, rest: seq<Byte>, refs: Tables)
    requires Fits(o) && !o.TList? && !o.TObject? && !o.TTyped?
    ensures Raw(fp, o).ok && Raw(fp, o).bytes != []
    ensures var r := Dec(strict, fp, Raw(fp, o).bytes + rest, refs);
      if strict && rest == [] && EndsInEmptyText(o) then r == Fail(Malformed) else Reads(r, Seen(Amf3, fp, o), rest)
  {
    hide DecText, Utf8, EncU29, DecU29;
    var data := Raw(fp, o).bytes + rest;
    match o
    case TInt(n) => IntRoundTrip(strict, fp, n, rest, refs);
    case TWide(n) =>
      assert data[1..] == fp.ofInt(n) + rest;
    case TDouble(d) =>
      assert data[1..] == d + rest;
    case TText(s) => StringRoundTrip(strict, fp, s, rest, refs);
    case TDate(secs) => DateRoundTrip(strict, fp, secs, rest, refs);
    case TNil =>
      assert data[1..] == rest;
    case TBool(_) =>
      assert data[1..] == rest;
    case _ =>
  }

  lemma IntRoundTrip(strict: bool, fp: FloatOps, n: int, rest: seq<Byte>, refs: Tables)
    ensures Raw(fp, TInt(n)).ok && Raw(fp, TInt(n)).bytes != []
    ensures Reads(Dec(strict, fp, Raw(fp, TInt(n)).bytes + rest, refs), Seen(Amf3, fp, TInt(n)), rest)
  {
    hide EncU29, DecU29;
    var data := Raw(fp, TInt(n)).bytes + rest;
    if 0 <= n <= U29_MAX {
      U29RoundTrip(n, rest);
      assert data == [4] + (EncU29(n) + rest) && data[1..] == EncU29(n) + rest;
    } else {
      assert data[1..] == fp.ofInt(n) + rest;
    }
  }

  lemma StringRoundTrip(strict: bool, fp: FloatOps, s: Str, rest: seq<Byte>, refs: Tables)
    requires TextFits(s)
    ensures Raw(fp, TText(s)).ok && Raw(fp, TText(s)).bytes != []
    ensures var r := Dec(strict, fp, Raw(fp, TText(s)).bytes + rest, refs);
      if strict && rest == [] && s == [] then r == Fail(Malformed) else Reads(r, Text(s), rest)
  {
    hide DecText, Utf8;
    TextRoundTrip(strict, s, rest, refs);
    var data := Raw(fp, TText(s)).bytes + rest;
    assert data == [6] + (Utf8(s).bytes + rest) && data[1..] == Utf8(s).bytes + rest;
  }

  lemma DateRoundTrip(strict: bool, fp: FloatOps, secs: int, rest: seq<Byte>, refs: Tables)
    ensures Reads(Dec(strict, fp, [8, 1] + fp.dateOut(secs) + rest, refs), Date(fp.dateIn(fp.dateOut(secs))), rest)
  {
    var d := fp.dateOut(secs);
    var data := [8, 1] + d + rest;
    assert data[1..] == [1] + (d + rest) && data[1..][1..] == d + rest;
    assert ReadRef(data[1..]) == InLine(0, 1);
    assert ReadFloat(d + rest, refs) == Ok(d, rest, refs);
  }

  lemma ListParts(fp: FloatOps, elems: seq<Tree>)
    requires Fits(TList(elems))
    ensures Raw(fp, TList(elems)) == Then(ListHeader(|elems|), RawElems(fp, elems))
    ensures Seen(Amf3, fp, TList(elems)) == List(SeenElems(Amf3, fp, elems))
    ensures EndsInEmptyText(TList(elems)) <==> elems == [] || EndsInEmptyText(elems[|elems| - 1])
    ensures |elems| <= 0xFFF_FFFF && forall i :: 0 <= i < |elems| ==> Fits(elems[i])
  {
    hide ListHeader, RawElems, SeenElems;
  }

  lemma {:induction false} ListRoundTrip(strict: bool, fp: FloatOps, elems: seq<Tree>, rest: seq<Byte>, refs: Tables)
    requires Fits(TList(elems))
    ensures var o := TList(elems);
      && Raw(fp, o).ok && Raw(fp, o).bytes != []
      && var r := Dec(strict, fp, Raw(fp, o).bytes + rest, refs);
      if strict && rest == [] && EndsInEmptyText(o) then r == Fail(Malformed) else Reads(r, Seen(Amf3, fp, o), rest)
    decreases elems, |elems| + 1
  {
    ListParts(fp, elems);
    hide Dec, DecElems, ListHeader, Raw, RawElems, Seen, SeenElems, EndsInEmptyText, Fits, Then;
    ElemsRoundTrip(strict, fp, elems, rest, refs);
    var w := RawElems(fp, elems).bytes + rest;
    var refs1 := ListOpens(strict, fp, |elems|, w, refs);
    ElemsRoundTrip(strict, fp, elems, rest, refs1);
    ThenBefore(ListHeader(|elems|), RawElems(fp, elems), rest);
  }

  lemma {:induction false} ElemsRoundTrip(strict: bool, fp: FloatOps, elems: seq<Tree>, rest: seq<Byte>, refs: Tables)
    requires forall i :: 0 <= i < |elems| ==> Fits(elems[i])
    ensures RawElems(fp, elems).ok && (elems != [] <==> RawElems(fp, elems).bytes != [])
    ensures var r := DecElems(strict, fp, |elems|, RawElems(fp, elems).bytes + rest, refs);
      if strict && rest == [] && elems != [] && EndsInEmptyText(elems[|elems| - 1]) then r == Fail(Malformed)
      else Reads(r, SeenElems(Amf3, fp, elems), rest)
    decreases elems, |elems|
  {
    hide Dec, Fits, EndsInEmptyText, Raw, Seen, Then;
    if elems == [] {
      assert RawElems(fp, elems).bytes + rest == rest;
    } else {
      var more := elems[1..];
      ElemsRoundTrip(strict, fp, more, rest, refs);
      var first, w := Raw(fp, elems[0]).bytes, RawElems(fp, more).bytes + rest;
      RawRoundTrip(strict, fp, elems[0], w, refs);
      ThenBefore(Raw(fp, elems[0]), RawElems(fp, more), rest);
      if !(strict && w == [] && EndsInEmptyText(elems[0])) {
        ElemsRoundTrip(strict, fp, more, rest, Dec(strict, fp, first + w, refs).refs);
      }
    }
  }

  lemma {:induction false} ObjectRoundTrip(strict: bool, fp: FloatOps, name: Str, es: seq<Entry>,
                                           rest: seq<Byte>, refs: Tables)
    requires Fits(TTyped(name, es))
    ensures var o := TTyped(name, es);
      && Raw(fp, o).ok && Raw(fp, o).bytes != []
      && var r := Dec(strict, fp, Raw(fp, o).bytes + rest, refs);
      if strict && rest == [] && EndsInEmptyText(o) then r == Fail(Malformed) else Reads(r, Seen(Amf3, fp, o), rest)
    decreases es, |es| + 1
  {
    hide Dec, DecValues, ObjectHeader, NamesFit, Then;
    ValuesRoundTrip(strict, fp, es, rest, refs, map[]);
    var w := RawValues(fp, es).bytes + rest;
    var refs1 := ObjectOpens(strict, fp, name, es, w, refs);
    ValuesRoundTrip(strict, fp, es, rest, refs1, map[]);
    ThenBefore(ObjectHeader(name, es), RawValues(fp, es), rest);
  }

  lemma KeysStep(es: seq<Entry>)
    requires es != []
    ensures Keys(es) == [es[0].key] + Keys(es[1..]) && Keys(es)[0] == es[0].key && Keys(es)[1..] == Keys(es[1..])
  {
  }

  lemma {:induction false} ValuesRoundTrip(strict: bool, fp: FloatOps, es: seq<Entry>, rest: seq<Byte>, refs: Tables,
                                           obj: map<Str, Value>)
    requires forall i :: 0 <= i < |es| ==> Fits(es[i].val)
    ensures RawValues(fp, es).ok && (es != [] <==> RawValues(fp, es).bytes != [])
    ensures var r := DecValues(strict, fp, Keys(es), RawValues(fp, es).bytes + rest, refs, obj);
      if strict && rest == [] && es != [] && EndsInEmptyText(es[|es| - 1].val) then r == Fail(Malformed)
      else Reads(r, Fields(Keys(es), SeenValues(Amf3, fp, es), obj), rest)
    decreases es, |es|
  {
    hide Dec, Fits, EndsInEmptyText, Raw, Seen, Keys, Then;
    if es == [] {
      assert Keys(es) == [];
      assert RawValues(fp, es).bytes + rest == rest;
    } else {
      var more := es[1..];
      ValuesRoundTrip(strict, fp, more, rest, refs, obj);
      var first, w := Raw(fp, es[0].val).bytes, RawValues(fp, more).bytes + rest;
      RawRoundTrip(strict, fp, es[0].val, w, refs);
      ThenBefore(Raw(fp, es[0].val), RawValues(fp, more), rest);
      KeysStep(es);
      if !(strict && w == [] && EndsInEmptyText(es[0].val)) {
        ValuesRoundTrip(strict, fp, more, rest, Dec(strict, fp, first + w, refs).refs,
                        obj[es[0].key := Seen(Amf3, fp, es[0].val)]);
      }
    }
  }

  // ---------- the encoder's order ----------

  lemma {:induction false} CanonFits(o: Tree)
    requires FromMaps(o) && Fits(o)
    ensures Fits(Canon(o))
    decreases o
  {
    match o
    case TList(elems) =>
      forall i | 0 <= i < |elems| ensures Fits(CanonElems(elems)[i]) {
        CanonFits(elems[i]);
      }
    case TObject(es) =>
      EntriesFit(es);
    case TTyped(_, es) =>
      EntriesFit(es);
    case _ =>
  }

  lemma {:induction false} EntriesFit(es: seq<Entry>)
    requires Distinct(Keys(es)) && NamesFit(es)
    requires forall i :: 0 <= i < |es| ==> FromMaps(es[i].val) && Fits(es[i].val)
    ensures var r := Arrange(CanonValues(es));
      NamesFit(r) && forall i :: 0 <= i < |r| ==> Fits(r[i].val)
    decreases es
  {
    hide Canon, CanonValues, Arrange, SortKeys, FromMaps, Fits;
    var r := Arrange(CanonValues(es));
    forall i | 0 <= i < |r| ensures TextFits(r[i].key) && Fits(r[i].val) {
      ArrangedAt(es, i);
      var k := r[i].key;
      var j :| 0 <= j < |es| && es[j].key == k && Lookup(es, k) == es[j].val;
      CanonFits(es[j].val);
    }
  }

  /** EncodeAmf3: what it writes for a tree, whatever the order its maps are iterated in. */
  function Encoded(fp: FloatOps, o: Tree): Written { Raw(fp, Canon(o)) }

  /**
   * The AMF3 round trip, from any reference tables and in front of any rest. The value itself comes
   * back exactly when every integer is in 0..2^28-1, the dates survive the float conversions and no
   * object has a class name; a bytes.Reader also needs something behind a trailing empty string.
   */
  lemma Amf3RoundTrip(strict: bool, fp: FloatOps, o: Tree, rest: seq<Byte>, refs: Tables)
    requires FromMaps(o) && Fits(o)
    ensures Encoded(fp, o).ok && Encoded(fp, o).bytes != []
    ensures var r := Dec(strict, fp, Encoded(fp, o).bytes + rest, refs);
      && (if strict && rest == [] && EndsInEmptyText(Canon(o)) then r == Fail(Malformed)
          else Reads(r, Seen(Amf3, fp, o), rest))
      && (Reads(r, Plain(o), rest) <==> Kept(Amf3, fp, o) && !(strict && rest == [] && EndsInEmptyText(Canon(o))))
  {
    hide Dec, Raw, Canon, Fits, FromMaps, Seen, Plain, Kept, EndsInEmptyText;
    CanonFits(o);
    SeenCanon(Amf3, fp, o);
    SeenIsPlain(Amf3, fp, o);
    RawRoundTrip(strict, fp, Canon(o), rest, refs);
  }

  /** The markers of section 3.1 of the format; an integer outside the 29 bits goes as a double. */
  function Marker(o: Tree): Byte {
    match o
    case TNil => 1
    case TBool(b) => if b then 3 else 2
    case TInt(n) => if 0 <= n < 0x2000_0000 then 4 else 5
    case TWide(_) => 5
    case TDouble(_) => 5
    case TText(_) => 6
    case TDate(_) => 8
    case TList(_) => 9
    case TObject(_) => 10
    case TTyped(_, _) => 10
  }

  /** Every encoding starts with its marker. */
  lemma StartsWithMarker(fp: FloatOps, o: Tree)
    requires Encoded(fp, o).ok
    ensures Encoded(fp, o).bytes != [] && Encoded(fp, o).bytes[0] == Marker(o)
  {
    hide Utf8, U29, RawElems, RawValues, Names;
  }

  // ---------- array collections ----------

  /** An externalizable object of the class ArrayCollection: header, class name, and the value it wraps. */
  function Collection(body: seq<Byte>): seq<Byte> {
    [10, 7] + Utf8(AmfExternal.ARRAY_COLLECTION).bytes + body
  }

  /** The tables inside an externalizable object: the name, a place for the object and its traits have been added. */
  function Inside(name: Str, refs: Tables): Tables {
    Tables(refs.strings + [name], refs.objects + [Nil], refs.traits + [Trait(name, true, false, [])])
  }

  /** Such an object is decoded to the value inside, whatever that is, and the object table has it once more. */
  lemma CollectionIsTransparent(strict: bool, fp: FloatOps, body: seq<Byte>, refs: Tables)
    ensures match Dec(strict, fp, body, Inside(AmfExternal.ARRAY_COLLECTION, refs))
            case Fail(f) => Dec(strict, fp, Collection(body), refs) == Fail(Wrap(f))
            case Ok(v, rest, refs2) =>
              Dec(strict, fp, Collection(body), refs) == Ok(v, rest, refs2.(objects := refs2.objects + [v]))
  {
    hide Dec, DecObject, DecBuiltIn, Utf8, Inside;
    ClassNames();
    ExternalOpens(strict, fp, AmfExternal.ARRAY_COLLECTION, body, refs);
    var t := Utf8(AmfExternal.ARRAY_COLLECTION).bytes + body;
    assert Collection(body) == [10] + ([7] + t);
    ObjectMarker(strict, fp, [7] + t, refs);
    OnlyTheChild(strict, fp, body, Inside(AmfExternal.ARRAY_COLLECTION, refs));
  }

  lemma OnlyTheChild(strict: bool, fp: FloatOps, body: seq<Byte>, refs: Tables)
    ensures DecBuiltIn(strict, fp, AmfExternal.ARRAY_COLLECTION, body, refs)
         == match Dec(strict, fp, body, refs)
            case Fail(f) => Fail(Wrap(f))
            case Ok(v, rest, refs2) => Ok(v, rest, refs2.(objects := refs2.objects + [v]))
  {
    hide Dec, DecAsync, DecExternal;
    ClassNames();
  }

  /** The header of an externalizable object whose class is given in line. */
  lemma ExternalOpens(strict: bool, fp: FloatOps, name: Str, body: seq<Byte>, refs: Tables)
    requires TextFits(name) && name != []
    ensures DecObject(strict, fp, [7] + (Utf8(name).bytes + body), refs)
         == DecBuiltIn(strict, fp, name, body, Inside(name, refs))
  {
    hide DecText, Utf8, DecBuiltIn;
    var t := Utf8(name).bytes + body;
    TextRoundTrip(strict, name, body, refs);
    assert ([7] + t)[1..] == t;
    assert ReadRef([7] + t) == InLine(3, 1);
    hide ReadRef;
    var named := DecText(strict, t, refs).refs;
    assert DecTexts(strict, 0, body, named) == Ok([], body, named);
    assert DecTrait(strict, t, 3, refs) == Ok(Trait(name, true, false, []), body, Inside(name, refs));
  }

  lemma ClassNames()
    ensures AmfExternal.ARRAY_COLLECTION != AmfExternal.ASYNC_MESSAGE
    ensures AmfExternal.ARRAY_COLLECTION != AmfExternal.ACKNOWLEDGE_MESSAGE
    ensures TextFits(AmfExternal.ARRAY_COLLECTION) && AmfExternal.ARRAY_COLLECTION != []
  {
    AmfExternal.CollectionName();
  }

  /** So a wrapped value makes the round trip exactly as it does on its own. */
  lemma CollectionRoundTrip(strict: bool, fp: FloatOps, o: Tree, rest: seq<Byte>, refs: Tables)
    requires FromMaps(o) && Fits(o)
    ensures Encoded(fp, o).ok
    ensures var r := Dec(strict, fp, Collection(Encoded(fp, o).bytes + rest), refs);
      if strict && rest == [] && EndsInEmptyText(Canon(o)) then r == Fail(Malformed)
      else Reads(r, Seen(Amf3, fp, o), rest)
  {
    hide Dec, Encoded, Fits, FromMaps, Seen, EndsInEmptyText, Canon, Collection;
    var body := Encoded(fp, o).bytes + rest;
    CollectionIsTransparent(strict, fp, body, refs);
    Amf3RoundTrip(strict, fp, o, rest, Inside(AmfExternal.ARRAY_COLLECTION, refs));
  }
}
