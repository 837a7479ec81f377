/** DecodeBatch and EncodeBatch as functions. */
module AmfBatch {
  import opened Bytes
  import opened AmfValues
  import opened KeyOrder
  import opened AmfExpected
  import Amf0Format
  import Amf3Format
  import Amf0RoundTrip
  import Amf3RoundTrip

  function Decode(v: Version, strict: bool, fp: FloatOps, s: seq<Byte>, refs: Tables): (r: Decoded<Value>)
    ensures r.Ok? ==> |r.rest| < |s|
  {
    match v
    case Amf0 => Amf0Format.Dec(strict, fp, s, refs)
    case Amf3 => Amf3Format.Dec(strict, fp, s, refs)
  }

  function Encode(v: Version, fp: FloatOps, o: Tree): Written {
    match v
    case Amf0 => Amf0Format.Enc(fp, o)
    case Amf3 => Amf3RoundTrip.Encoded(fp, o)
  }

  ghost predicate Fits(v: Version, o: Tree) {
    match v
    case Amf0 => Amf0RoundTrip.Fits(o)
    case Amf3 => Amf3RoundTrip.Fits(o)
  }

  /** The values up to the first error, and that error. */
  function Batch(v: Version, strict: bool, fp: FloatOps, s: seq<Byte>, refs: Tables): (r: (seq<Value>, Fault))
    ensures |r.0| <= |s|
    decreases |s|
  {
    match Decode(v, strict, fp, s, refs)
    case Fail(f) => ([], f)
    case Ok(x, rest, refs1) =>
      var r := Batch(v, strict, fp, rest, refs1);
      ([x] + r.0, r.1)
  }

  /** The same with values decoded before. */
  function Behind(done: seq<Value>, r: (seq<Value>, Fault)): (seq<Value>, Fault) { (done + r.0, r.1) }

  lemma BehindNone(r: (seq<Value>, Fault))
    ensures Behind([], r) == r
  {
    assert [] + r.0 == r.0;
  }

  lemma NothingBehind(done: seq<Value>, f: Fault)
    ensures Behind(done, ([], f)) == (done, f)
  {
    assert done + [] == done;
  }

  lemma BehindOne(done: seq<Value>, x: Value, r: (seq<Value>, Fault))
    ensures Behind(done, ([x] + r.0, r.1)) == Behind(done + [x], r)
  {
    assert done + ([x] + r.0) == done + [x] + r.0;
  }

  function EncBatch(v: Version, fp: FloatOps, os: seq<Tree>): Written {
    if os == [] then Done([]) else Then(Encode(v, fp, os[0]), EncBatch(v, fp, os[1..]))
  }

  /** The one value a bytes.Reader cannot finish: it ends in a string of no bytes, and so do the data. */
  predicate Unfinished(v: Version, strict: bool, os: seq<Tree>) {
    v == Amf3 && strict && os != [] && Amf3RoundTrip.EndsInEmptyText(Canon(os[|os| - 1]))
  }

  lemma OneRoundTrip(v: Version, strict: bool, fp: FloatOps, o: Tree, rest: seq<Byte>, refs: Tables)
    requires FromMaps(o) && Fits(v, o)
    ensures Encode(v, fp, o).ok
    ensures var r := Decode(v, strict, fp, Encode(v, fp, o).bytes + rest, refs);
      if rest == [] && Unfinished(v, strict, [o]) then r == Fail(Malformed)
      else r.Ok? && r.value == Seen(v, fp, o) && r.rest == rest
  {
    if v == Amf0 {
      Amf0RoundTrip.RoundTrip(strict, fp, o, rest, refs);
    } else {
      Amf3RoundTrip.Amf3RoundTrip(strict, fp, o, rest, refs);
    }
  }

  lemma {:induction false} Nonempty(v: Version, fp: FloatOps, os: seq<Tree>)
    requires forall i :: 0 <= i < |os| ==> FromMaps(os[i]) && Fits(v, os[i])
    ensures EncBatch(v, fp, os).ok && (EncBatch(v, fp, os).bytes == [] <==> os == [])
  {
    if os != [] {
      Nonempty(v, fp, os[1..]);
      if v == Amf0 {
        Amf0RoundTrip.RoundTrip(false, fp, os[0], [], Tables([], [], []));
      } else {
        Amf3RoundTrip.Amf3RoundTrip(false, fp, os[0], [], Tables([], [], []));
      }
    }
  }

  /**
   * A batch comes back value by value and ends with io.EOF, from any reference tables; with AMF3 and
   * a bytes.Reader a last value that ends in an empty string is lost, and the error is another one.
   */
  lemma {:induction false} BatchRoundTrip(v: Version, strict: bool, fp: FloatOps, os: seq<Tree>, refs: Tables)
    requires forall i :: 0 <= i < |os| ==> FromMaps(os[i]) && Fits(v, os[i])
    ensures EncBatch(v, fp, os).ok
    ensures Batch(v, strict, fp, EncBatch(v, fp, os).bytes, refs)
         == if Unfinished(v, strict, os) then (SeenElems(v, fp, os[..|os| - 1]), Malformed)
            else (SeenElems(v, fp, os), Eof)
    decreases |os|
  {
    hide Encode, Fits, Seen, Canon, FromMaps, Amf3RoundTrip.EndsInEmptyText;
    Nonempty(v, fp, os);
    if os == [] {
      NothingLeft(v, strict, fp, refs);
    } else {
      hide Decode;
      var more := os[1..];
      Nonempty(v, fp, more);
      var w := EncBatch(v, fp, more).bytes;
      OneRoundTrip(v, strict, fp, os[0], w, refs);
      if more != [] {
        BatchRoundTrip(v, strict, fp, more, Decode(v, strict, fp, Encode(v, fp, os[0]).bytes + w, refs).refs);
        assert os[..|os| - 1][1..] == more[..|more| - 1];
      } else if !Unfinished(v, strict, os) {
        BatchRoundTrip(v, strict, fp, more, Decode(v, strict, fp, Encode(v, fp, os[0]).bytes + w, refs).refs);
      }
    }
  }

  lemma NothingLeft(v: Version, strict: bool, fp: FloatOps, refs: Tables)
    ensures Decode(v, strict, fp, [], refs) == Fail(Eof)
  {
  }
}
