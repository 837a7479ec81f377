/** Which dates survive AMF: the whole numbers a float64 holds exactly (IEEE 754, binary64). */
module AmfDates {
  import opened Bytes
  import opened AmfValues
  import opened AmfExternal
  import opened KeyOrder
  import opened AmfExpected

  const FRACTION: int := 0x10_0000_0000_0000        // 2^52
  const SIGN: int := 0x8000_0000_0000_0000
  const BIAS: int := 1023

  /** 1000 times as much is below 2^53. */
  const LAST_SECOND: int := 9_007_199_254_740

  /** The place of the highest bit. */
  function Log2(v: nat): (e: nat)
    requires v > 0
    ensures Pow2(e) <= v < 2 * Pow2(e)
  {
    if v == 1 then 0
    else
      assert v == v / 2 * 2 + v % 2;
      Log2(v / 2) + 1
  }

  lemma {:induction false} LogBelow(v: nat)
    requires 0 < v < 2 * FRACTION
    ensures Log2(v) <= 52 && Pow2(Log2(v)) * Pow2(52 - Log2(v)) == FRACTION
  {
    var e := Log2(v);
    if e > 52 {
      Grows(53, e);
      Powers();
      assert false;
    }
    Split(e, 52 - e);
    Powers();
  }

  lemma Powers()
    ensures Pow2(52) == FRACTION && Pow2(53) == 2 * FRACTION
  {
    assert Pow2(13) == 0x2000;
    Split(13, 13);
    Split(26, 26);
  }

  lemma {:induction false} Split(a: nat, b: nat)
    ensures Pow2(a + b) == Pow2(a) * Pow2(b)
  {
    if a > 0 {
      Split(a - 1, b);
      assert 2 * Pow2(a - 1) * Pow2(b) == 2 * (Pow2(a - 1) * Pow2(b));
    }
  }

  /** What is left of v without its highest bit, moved to the left. */
  function Fraction(v: nat, p: nat, q: nat): (f: nat)
    requires p <= v
  {
    (v - p) * q
  }

  lemma FractionBelow(v: nat, p: nat, q: nat)
    requires p <= v < 2 * p && p * q == FRACTION && q >= 1
    ensures Fraction(v, p, q) < FRACTION && FRACTION + Fraction(v, p, q) == v * q
  {
    OneMore(v - p, p, q);
    assert (v - p) * q + p * q == v * q;
  }

  /** The bits of a whole number, without the sign. */
  function Magnitude(v: nat): nat
    requires v < 2 * FRACTION
  {
    if v == 0 then 0
    else
      var e := Log2(v);
      LogBelow(v);
      (BIAS + e) * FRACTION + Fraction(v, Pow2(e), Pow2(52 - e))
  }

  /** The bytes of a whole number. */
  function Whole(v: int): Float
    requires -2 * FRACTION < v < 2 * FRACTION
  {
    if v < 0 then BE(SIGN + Magnitude(-v), 8) else BE(Magnitude(v), 8)
  }

  /** The whole number a magnitude stands for, if it stands for one below 2^53. */
  function WholeIn(bits: nat): Option<nat> {
    var e, fraction := bits / FRACTION - BIAS, bits % FRACTION;
    if bits == 0 then Some(0)
    else if e < 0 || e > 52 || (FRACTION + fraction) % Pow2(52 - e) != 0 then None
    else Some((FRACTION + fraction) / Pow2(52 - e))
  }

  function ValueOf(f: Float): Option<int> {
    var bits := FromBE(f);
    if bits < SIGN then WholeIn(bits)
    else
      match WholeIn(bits - SIGN)
      case None => None
      case Some(v) => Some(0 - v as int)
  }

  lemma Divides(v: nat, q: nat)
    requires q >= 1
    ensures v * q % q == 0 && v * q / q == v
  {
    var n := v * q;
    var d, r := n / q, n % q;
    assert n == d * q + r;
    if v > d {
      OneMore(d, v, q);
    } else if v < d {
      OneMore(v, d, q);
    }
  }

  lemma OneMore(a: nat, b: nat, q: nat)
    requires a < b
    ensures a * q + q <= b * q
  {
    var c := b - a;
    assert b * q == a * q + c * q;
    assert c * q == q + (c - 1) * q;
  }

  lemma MagnitudeRoundTrip(v: nat)
    requires v < 2 * FRACTION
    ensures Magnitude(v) < SIGN && WholeIn(Magnitude(v)) == Some(v)
  {
    if v > 0 {
      var e := Log2(v);
      LogBelow(v);
      hide Log2, Pow2, Fraction;
      FractionBelow(v, Pow2(e), Pow2(52 - e));
      Divides(v, Pow2(52 - e));
    }
  }

  /** Writing a whole number below 2^53 as a float64 and reading it back. */
  lemma WholeRoundTrip(v: int)
    requires -2 * FRACTION < v < 2 * FRACTION
    ensures ValueOf(Whole(v)) == Some(v)
  {
    hide Magnitude, WholeIn, BE, FromBE;
    var m := if v < 0 then -v else v;
    MagnitudeRoundTrip(m);
    assert Pow256(8) == 2 * SIGN;
    FromBEOfBE(if v < 0 then SIGN + Magnitude(m) else Magnitude(m), 8);
  }

  // ---------- dates ----------

  /** float64(secs) * 1000.0 and int64(d / 1000), as far as all the numbers are whole and below 2^53. */
  ghost predicate Exact(fp: FloatOps) {
    && (forall n: int | -LAST_SECOND <= n <= LAST_SECOND :: fp.dateOut(n) == Whole(1000 * n))
    && (forall f: Float | ValueOf(f).Some? && ValueOf(f).value % 1000 == 0 :: fp.dateIn(f) == ValueOf(f).value / 1000)
  }

  /** A caller can tell from the number of seconds: these are 285 000 years on either side of 1970. */
  lemma DatesInRange(fp: FloatOps, secs: int)
    requires Exact(fp) && -LAST_SECOND <= secs <= LAST_SECOND
    ensures fp.dateIn(fp.dateOut(secs)) == secs
  {
    hide Whole, ValueOf;
    WholeRoundTrip(1000 * secs);
    assert 1000 * secs % 1000 == 0 && 1000 * secs / 1000 == secs;
  }

  /** Ranges alone: nothing about conversions. */
  predicate InRange(o: Tree)
    decreases o
  {
    match o
    case TInt(n) => 0 <= n <= 0xFFF_FFFF
    case TWide(_) => false
    case TDate(secs) => -LAST_SECOND <= secs <= LAST_SECOND
    case TList(elems) => forall i :: 0 <= i < |elems| ==> InRange(elems[i])
    case TObject(es) => forall i :: 0 <= i < |es| ==> InRange(es[i].val)
    case TTyped(_, _) => false
    case _ => true
  }

  lemma {:induction false} KeptInRange(fp: FloatOps, o: Tree)
    requires Exact(fp) && InRange(o)
    ensures Kept(Amf3, fp, o)
    decreases o
  {
    match o
    case TDate(secs) => DatesInRange(fp, secs);
    case TList(elems) =>
      forall i | 0 <= i < |elems| ensures Kept(Amf3, fp, elems[i]) { KeptInRange(fp, elems[i]); }
    case TObject(es) =>
      forall i | 0 <= i < |es| ensures Kept(Amf3, fp, es[i].val) { KeptInRange(fp, es[i].val); }
    case _ =>
  }

  /** Conversions with this property exist. */
  lemma SomeAreExact() returns (fp: FloatOps)
    ensures Exact(fp)
  {
    var zero: Float := Whole(0);
    fp := FloatOps(
      n => zero,
      n => if -LAST_SECOND <= n <= LAST_SECOND then Whole(1000 * n) else zero,
      (f: Float) => if ValueOf(f).Some? then ValueOf(f).value / 1000 else 0);
  }
}
