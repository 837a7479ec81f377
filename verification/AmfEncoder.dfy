/** The Encoder: it writes step by step and counts the bytes. */
module AmfEncoder {
  import opened Bytes
  import opened AmfValues
  import opened KeyOrder
  import opened AmfExpected
  import opened Writers
  import Amf0Format
  import Amf3Format
  import Amf3RoundTrip
  import AmfBatch

  class Encoder {
    const fp: FloatOps

    constructor (fp: FloatOps)
      ensures this.fp == fp
    {
      this.fp := fp;
    }

    // ---------- AMF3 ----------

    method EncodeAmf3Uint29(w: Writer, val: nat) returns (n: nat, ok: bool)
      modifies w
      ensures var u := Amf3Format.U29(val);
        w.output == old(w.output) + u.bytes && ok == u.ok && n == |u.bytes|
    {
      if val <= 0x7F {
        w.Write([val]);
        n := 1;
      } else if val <= 0x3FFF {
        w.Write([val / 0x80 + 0x80, val % 0x80]);
        n := 2;
      } else if val <= 0x1F_FFFF {
        w.Write([val / 0x4000 + 0x80, val / 0x80 % 0x80 + 0x80, val % 0x80]);
        n := 3;
      } else if val <= 0x1FFF_FFFF {
        w.Write([val / 0x40_0000 + 0x80, val / 0x8000 % 0x80 + 0x80, val / 0x100 % 0x80 + 0x80, val % 0x100]);
        n := 4;
      } else {
        return 0, false;
      }
      ok := true;
    }

    method EncodeAmf3Utf8(w: Writer, val: Str) returns (n: nat, ok: bool)
      modifies w
      ensures var u := Amf3Format.Utf8(val);
        w.output == old(w.output) + u.bytes && ok == u.ok && (ok ==> n == |u.bytes|)
    {
      hide Amf3Format.U29;
      var u29 := |val| * 2 % 0x1_0000_0000 + 1;
      var m, good := EncodeAmf3Uint29(w, u29);
      if !good { return 0, false; }
      n := m;
      w.Write(val);
      n := n + |val|;
      ok := true;
    }

    method EncodeAmf3(w: Writer, o: Tree) returns (n: nat, ok: bool)
      requires FromMaps(o)
      modifies w
      ensures var u := Amf3RoundTrip.Encoded(fp, o);
        w.output == old(w.output) + u.bytes && ok == u.ok && (ok ==> n == |u.bytes|)
      decreases o
    {
      hide Amf3Format.Utf8, Amf3Format.U29;
      match o
      case TNil =>
        w.Write([1]);
        return 1, true;
      case TBool(b) =>
        w.Write([if b then 3 else 2]);
        return 1, true;
      case TInt(i) =>
        if 0 <= i <= 536870911 {
          w.Write([4]);
          n, ok := EncodeAmf3Uint29(w, i);
          n := n + 1;
        } else {
          w.Write([5]);
          w.Write(fp.ofInt(i));
          return 9, true;
        }
      case TWide(i) =>
        w.Write([5]);
        w.Write(fp.ofInt(i));
        return 9, true;
      case TDouble(d) =>
        w.Write([5]);
        w.Write(d);
        return 9, true;
      case TText(s) =>
        w.Write([6]);
        n, ok := EncodeAmf3Utf8(w, s);
        n := n + 1;
      case TDate(secs) =>
        w.Write([8]);
        w.Write([1]);
        w.Write(fp.dateOut(secs));
        return 10, true;
      case TList(elems) =>
        n, ok := EncodeAmf3Array(w, elems);
      case TObject(es) =>
        n, ok := EncodeAmf3Object(w, [], es);
      case TTyped(name, es) =>
        n, ok := EncodeAmf3Object(w, name, es);
    }

    method EncodeAmf3Array(w: Writer, val: seq<Tree>) returns (n: nat, ok: bool)
      requires FromMaps(TList(val))
      modifies w
      ensures var u := Amf3RoundTrip.Encoded(fp, TList(val));
        w.output == old(w.output) + u.bytes && ok == u.ok && (ok ==> n == |u.bytes|)
      decreases val, |val| + 1
    {
      hide Amf3Format.Utf8, Amf3Format.U29, Amf3Format.RawElems, CanonElems;
      w.Write([9]);
      n := 1;
      var m, good := EncodeAmf3Uint29(w, |val| * 2 % 0x1_0000_0000 + 1);
      if !good { return n, false; }
      n := n + m;
      m, good := EncodeAmf3Utf8(w, []);
      if !good { return n, false; }
      n := n + m;
      assert w.output == old(w.output) + Amf3Format.ListHeader(|val|).bytes;
      m, ok := EncodeElems3(w, val);
      n := n + m;
    }

    method EncodeElems3(w: Writer, val: seq<Tree>) returns (n: nat, ok: bool)
      requires FromMaps(TList(val))
      modifies w
      ensures var u := Amf3Format.RawElems(fp, CanonElems(val));
        w.output == old(w.output) + u.bytes && ok == u.ok && (ok ==> n == |u.bytes|)
      decreases val, |val|
    {
      hide Amf3Format.Raw, Canon;
      n := 0;
      ghost var sorted := CanonElems(val);
      assert forall i :: 0 <= i < |val| ==> sorted[i] == Canon(val[i]);
      hide CanonElems, Then;
      ghost var all := Amf3Format.RawElems(fp, sorted);
      ghost var out := [];
      assert sorted[0..] == sorted;
      ThenStep(out, all, Done([]));
      for i := 0 to |val|
        invariant w.output == old(w.output) + out && n == |out|
        invariant Then(Done(out), Amf3Format.RawElems(fp, sorted[i..])) == all
      {
        ghost var u := Amf3RoundTrip.Encoded(fp, val[i]);
        assert sorted[i..][1..] == sorted[i + 1..];
        ThenStep(out, u, Amf3Format.RawElems(fp, sorted[i + 1..]));
        var m, good := EncodeAmf3(w, val[i]);
        out := out + u.bytes;
        if !good { return n, false; }
        n := n + m;
      }
      ThenStep(out, all, Done([]));
      return n, true;
    }

    method EncodeAmf3Object(w: Writer, name: Str, entries: seq<Entry>) returns (n: nat, ok: bool)
      requires FromMaps(TTyped(name, entries))
      modifies w
      ensures var u := Amf3RoundTrip.Encoded(fp, TTyped(name, entries));
        w.output == old(w.output) + u.bytes && ok == u.ok && (ok ==> n == |u.bytes|)
      decreases entries, |entries| + 1
    {
      hide Amf3Format.Utf8, Amf3Format.U29, Amf3Format.RawValues, Amf3Format.Names,
           CanonValues, Arrange, FromMaps, SortKeys, Keys;
      ghost var sorted := Arrange(CanonValues(entries));
      w.Write([10]);
      n := 1;
      var properties := [];
      for i := 0 to |entries|
        invariant properties == Keys(entries)[..i]
        invariant w.output == old(w.output) + [10]
      {
        KeyAt(entries, i);
        properties := properties + [entries[i].key];
      }
      assert properties == Keys(entries);
      properties := SortKeys(properties);
      assert properties == Keys(sorted) by {
        KeysOf(entries);
        KeysOf(CanonValues(entries));
      }
      Grow(old(w.output), Done([10]), Amf3Format.U29(Amf3Format.TraitHeader(|sorted|)));
      ghost var h := Then(Done([10]), Amf3Format.U29(Amf3Format.TraitHeader(|sorted|)));
      var m, good := EncodeAmf3Uint29(w, 3 + |properties| * 16 % 0x1_0000_0000);
      assert w.output == old(w.output) + h.bytes && good == h.ok;
      if !good { return n, false; }
      n := n + m;
      m, good := EncodeAmf3Utf8(w, name);
      Grow(old(w.output), h, Amf3Format.Utf8(name));
      h := Then(h, Amf3Format.Utf8(name));
      assert w.output == old(w.output) + h.bytes && good == h.ok;
      if !good { return n, false; }
      n := n + m;
      m, good := EncodeNames(w, properties, sorted);
      Grow(old(w.output), h, Amf3Format.Names(sorted));
      h := Then(h, Amf3Format.Names(sorted));
      assert h == Amf3Format.ObjectHeader(name, sorted);
      assert w.output == old(w.output) + h.bytes && good == h.ok;
      if !good { return n, false; }
      n := n + m;
      Grow(old(w.output), h, Amf3Format.RawValues(fp, sorted));
      m, ok := EncodeValues3(w, name, properties, entries);
      n := n + m;
    }

    lemma Grow(base: seq<Byte>, a: Written, b: Written)
      requires a.ok
      ensures base + a.bytes + b.bytes == base + Then(a, b).bytes && Then(a, b).ok == b.ok
    {
    }

    method EncodeNames(w: Writer, properties: seq<Str>, ghost sorted: seq<Entry>) returns (n: nat, ok: bool)
      requires properties == Keys(sorted)
      modifies w
      ensures var u := Amf3Format.Names(sorted);
        w.output == old(w.output) + u.bytes && ok == u.ok && (ok ==> n == |u.bytes|)
    {
      hide Amf3Format.Utf8, Then;
      n := 0;
      ghost var all := Amf3Format.Names(sorted);
      ghost var out := [];
      assert sorted[0..] == sorted;
      ThenStep(out, all, Done([]));
      for i := 0 to |properties|
        invariant w.output == old(w.output) + out && n == |out|
        invariant Then(Done(out), Amf3Format.Names(sorted[i..])) == all
      {
        ghost var u := Amf3Format.Utf8(sorted[i].key);
        assert sorted[i..][1..] == sorted[i + 1..];
        ThenStep(out, u, Amf3Format.Names(sorted[i + 1..]));
        var m, good := EncodeAmf3Utf8(w, properties[i]);
        out := out + u.bytes;
        if !good { return n, false; }
        n := n + m;
      }
      ThenStep(out, all, Done([]));
      return n, true;
    }

    method EncodeValues3(w: Writer, ghost name: Str, properties: seq<Str>, entries: seq<Entry>)
        returns (n: nat, ok: bool)
      requires FromMaps(TTyped(name, entries)) && properties == SortKeys(Keys(entries))
      modifies w
      ensures var u := Amf3Format.RawValues(fp, Arrange(CanonValues(entries)));
        w.output == old(w.output) + u.bytes && ok == u.ok && (ok ==> n == |u.bytes|)
      decreases entries, |entries|
    {
      hide Amf3Format.Raw, Canon, CanonValues, Arrange, SortKeys, Then;
      n := 0;
      ghost var sorted := Arrange(CanonValues(entries));
      ghost var all := Amf3Format.RawValues(fp, sorted);
      ghost var out := [];
      assert sorted[0..] == sorted;
      ThenStep(out, all, Done([]));
      for i := 0 to |properties|
        invariant w.output == old(w.output) + out && n == |out|
        invariant Then(Done(out), Amf3Format.RawValues(fp, sorted[i..])) == all
      {
        ArrangedAt(entries, i);
        var v := Lookup(entries, properties[i]);
        ghost var u := Amf3RoundTrip.Encoded(fp, v);
        assert sorted[i..][1..] == sorted[i + 1..];
        ThenStep(out, u, Amf3Format.RawValues(fp, sorted[i + 1..]));
        FromMapsAt(entries, properties[i]);
        var m, good := EncodeAmf3(w, v);
        out := out + u.bytes;
        if !good { return n, false; }
        n := n + m;
      }
      ThenStep(out, all, Done([]));
      return n, true;
    }

    // ---------- AMF0 ----------

    method EncodeAmf0String(w: Writer, val: Str, encodeMarker: bool) returns (n: nat)
      modifies w
      ensures w.output == old(w.output) + (if encodeMarker then [2] else []) + Amf0Format.ShortText(val)
      ensures n == |Amf0Format.ShortText(val)| + if encodeMarker then 1 else 0
    {
      n := 0;
      if encodeMarker {
        w.Write([2]);
        n := 1;
      }
      w.Write(BE(|val|, 2));
      n := n + 2;
      w.Write(val);
      n := n + |val|;
    }

    method EncodeAmf0(w: Writer, o: Tree) returns (n: nat, ok: bool)
      modifies w
      ensures var u := Amf0Format.Enc(fp, o);
        w.output == old(w.output) + u.bytes && ok == u.ok && (ok ==> n == |u.bytes|)
      decreases o
    {
      hide Amf0Format.ShortText, BE;
      match o
      case TNil =>
        w.Write([5]);
        return 1, true;
      case TBool(b) =>
        w.Write([1]);
        w.Write([if b then 1 else 0]);
        return 2, true;
      case TInt(i) =>
        w.Write([0]);
        w.Write(fp.ofInt(i));
        return 9, true;
      case TWide(i) =>
        w.Write([0]);
        w.Write(fp.ofInt(i));
        return 9, true;
      case TDouble(d) =>
        w.Write([0]);
        w.Write(d);
        return 9, true;
      case TText(s) =>
        if |s| <= 65535 {
          n := EncodeAmf0String(w, s, true);
          return n, true;
        }
        w.Write([12]);
        w.Write(BE(|s|, 4));
        w.Write(s);
        return 5 + |s|, true;
      case TDate(_) =>
        return 0, false;
      case TList(elems) =>
        n, ok := EncodeAmf0StrictArray(w, elems);
      case TObject(es) =>
        n, ok := EncodeAmf0Object(w, es, true);
      case TTyped(_, _) =>
        return 0, false;
    }

    method EncodeAmf0StrictArray(w: Writer, val: seq<Tree>) returns (n: nat, ok: bool)
      modifies w
      ensures var u := Amf0Format.Enc(fp, TList(val));
        w.output == old(w.output) + u.bytes && ok == u.ok && (ok ==> n == |u.bytes|)
      decreases val, |val| + 1
    {
      hide BE, Amf0Format.EncElems;
      w.Write([10]);
      w.Write(BE(|val|, 4));
      n := 5;
      Grow(old(w.output), Done([10] + BE(|val|, 4)), Amf0Format.EncElems(fp, val));
      var m, good := EncodeElems0(w, val);
      ok := good;
      n := n + m;
    }

    method EncodeElems0(w: Writer, val: seq<Tree>) returns (n: nat, ok: bool)
      modifies w
      ensures var u := Amf0Format.EncElems(fp, val);
        w.output == old(w.output) + u.bytes && ok == u.ok && (ok ==> n == |u.bytes|)
      decreases val, |val|
    {
      hide Amf0Format.Enc, Then;
      n := 0;
      ghost var all := Amf0Format.EncElems(fp, val);
      ghost var out := [];
      assert val[0..] == val;
      ThenStep(out, all, Done([]));
      for i := 0 to |val|
        invariant w.output == old(w.output) + out && n == |out|
        invariant Then(Done(out), Amf0Format.EncElems(fp, val[i..])) == all
      {
        ghost var u := Amf0Format.Enc(fp, val[i]);
        assert val[i..][1..] == val[i + 1..];
        ThenStep(out, u, Amf0Format.EncElems(fp, val[i + 1..]));
        var m, good := EncodeAmf0(w, val[i]);
        out := out + u.bytes;
        if !good { return n, false; }
        n := n + m;
      }
      ThenStep(out, all, Done([]));
      return n, true;
    }

    method EncodeAmf0Object(w: Writer, val: seq<Entry>, encodeMarker: bool) returns (n: nat, ok: bool)
      modifies w
      ensures var u := Then(Then(Done(if encodeMarker then [3] else []), Amf0Format.EncEntries(fp, val)),
                            Done(Amf0Format.OBJECT_END));
        w.output == old(w.output) + u.bytes && ok == u.ok && (ok ==> n == |u.bytes|)
      decreases val, |val| + 1
    {
      hide Amf0Format.ShortText, Amf0Format.EncEntries;
      n := 0;
      if encodeMarker {
        w.Write([3]);
        n := 1;
      }
      ghost var marker := if encodeMarker then [3] else [];
      Grow(old(w.output), Done(marker), Amf0Format.EncEntries(fp, val));
      assert w.output == old(w.output) + marker;
      var m, good := EncodeEntries(w, val);
      if !good { return n, false; }
      n := n + m;
      var m1 := EncodeAmf0String(w, [], false);
      EmptyShort();
      n := n + m1;
      w.Write([9]);
      n := n + 1;
      Grow(old(w.output), Then(Done(marker), Amf0Format.EncEntries(fp, val)), Done(Amf0Format.OBJECT_END));
      return n, true;
    }

    method EncodeEntries(w: Writer, val: seq<Entry>) returns (n: nat, ok: bool)
      modifies w
      ensures var u := Amf0Format.EncEntries(fp, val);
        w.output == old(w.output) + u.bytes && ok == u.ok && (ok ==> n == |u.bytes|)
      decreases val, |val|
    {
      hide Amf0Format.ShortText, Amf0Format.Enc, Then;
      n := 0;
      ghost var all := Amf0Format.EncEntries(fp, val);
      ghost var out := [];
      assert val[0..] == val;
      ThenStep(out, all, Done([]));
      for i := 0 to |val|
        invariant w.output == old(w.output) + out && n == |out|
        invariant Then(Done(out), Amf0Format.EncEntries(fp, val[i..])) == all
      {
        ghost var k, u := Done(Amf0Format.ShortText(val[i].key)), Amf0Format.Enc(fp, val[i].val);
        ghost var more := Amf0Format.EncEntries(fp, val[i + 1..]);
        assert val[i..][1..] == val[i + 1..];
        ThenStep(out, k, Then(u, more));
        ThenStep(out + k.bytes, u, more);
        var m := EncodeAmf0String(w, val[i].key, false);
        n := n + m;
        out := out + k.bytes;
        var m1, good := EncodeAmf0(w, val[i].val);
        out := out + u.bytes;
        if !good { return n, false; }
        n := n + m1;
      }
      ThenStep(out, all, Done([]));
      return n, true;
    }

    lemma EmptyShort()
      ensures Amf0Format.ShortText([]) == [0, 0] && [0, 0] + [9] == Amf0Format.OBJECT_END
    {
      assert BE(0, 2) == [0, 0];
    }

    method EncodeAmf0EcmaArray(w: Writer, val: seq<Entry>) returns (n: nat, ok: bool)
      modifies w
      ensures var u := Amf0Format.EncEcma(fp, val);
        w.output == old(w.output) + u.bytes && ok == u.ok && (ok ==> n == |u.bytes|)
    {
      hide BE, Amf0Format.EncEntries;
      w.Write([8]);
      w.Write(BE(|val|, 4));
      n := 5;
      var m, good := EncodeAmf0Object(w, val, false);
      ok := good;
      n := n + m;
    }

    // ---------- both ----------

    /** Versions other than 0 and 3 are refused. */
    method Encode(w: Writer, val: Tree, ver: Byte) returns (n: nat, ok: bool)
      requires FromMaps(val)
      modifies w
      ensures if ver == 0 || ver == 3 then
                var u := AmfBatch.Encode(if ver == 0 then Amf0 else Amf3, fp, val);
                w.output == old(w.output) + u.bytes && ok == u.ok && (ok ==> n == |u.bytes|)
              else !ok && w.output == old(w.output)
    {
      if ver == 0 {
        n, ok := EncodeAmf0(w, val);
      } else if ver == 3 {
        n, ok := EncodeAmf3(w, val);
      } else {
        return 0, false;
      }
    }

    method EncodeBatch(w: Writer, v: Version, vals: seq<Tree>) returns (ok: bool)
      requires forall i :: 0 <= i < |vals| ==> FromMaps(vals[i])
      modifies w
      ensures var u := AmfBatch.EncBatch(v, fp, vals);
        w.output == old(w.output) + u.bytes && ok == u.ok
    {
      hide AmfBatch.Encode, FromMaps, Then;
      ghost var all := AmfBatch.EncBatch(v, fp, vals);
      ghost var out := [];
      assert vals[0..] == vals;
      ThenStep(out, all, Done([]));
      for i := 0 to |vals|
        invariant w.output == old(w.output) + out
        invariant Then(Done(out), AmfBatch.EncBatch(v, fp, vals[i..])) == all
      {
        ghost var u := AmfBatch.Encode(v, fp, vals[i]);
        assert vals[i..][1..] == vals[i + 1..];
        ThenStep(out, u, AmfBatch.EncBatch(v, fp, vals[i + 1..]));
        var _, good := Encode(w, vals[i], if v == Amf0 then 0 else 3);
        out := out + u.bytes;
        if !good { return false; }
      }
      ThenStep(out, all, Done([]));
      return true;
    }
  }
}
