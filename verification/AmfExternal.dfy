/** The externalizable classes every AMF3 decoder knows: which fields follow their flags. */
module AmfExternal {
  import opened Bytes
  import opened AmfValues

  function Ascii(s: string): (r: Str)
    requires forall i :: 0 <= i < |s| ==> s[i] < 128 as char
    ensures |r| == |s|
  {
    seq(|s|, i requires 0 <= i < |s| => s[i] as int)
  }

  const ASYNC_MESSAGE: Str := Ascii("DSA")
  const ACKNOWLEDGE_MESSAGE: Str := Ascii("DSK")
  const ARRAY_COLLECTION: Str := Ascii("flex.messaging.io.ArrayCollection")

  const ABSTRACT_FIELDS: seq<seq<Str>> :=
    [[Ascii("body"), Ascii("clientId"), Ascii("destination"), Ascii("headers"), Ascii("messageId"),
      Ascii("timeStamp"), Ascii("timeToLive")],
     [Ascii("clientIdBytes"), Ascii("messageIdBytes")]]

  const ASYNC_FIELDS: seq<seq<Str>> := [[Ascii("correlationId"), Ascii("correlationIdBytes")]]

  /** readFlags: how many bytes it takes, up to and with the first one without the high bit. */
  function FlagCount(s: seq<Byte>): (n: Option<nat>)
    ensures n.Some? ==> 1 <= n.value <= |s|
  {
    if s == [] then None
    else if s[0] < 0x80 then Some(1)
    else match FlagCount(s[1..]) case None => None case Some(n) => Some(1 + n)
  }

  function Pow2(p: nat): (n: nat)
    ensures n >= 1
  {
    if p == 0 then 1 else 2 * Pow2(p - 1)
  }

  predicate Bit(flags: Byte, p: nat) {
    flags / Pow2(p) % 2 == 1
  }

  function Decimal(n: nat): Str {
    if n < 10 then [48 + n] else Decimal(n / 10) + [48 + n % 10]
  }

  /** fmt.Sprintf("extra_%d_%d", i, j) */
  function Extra(i: nat, j: nat): Str {
    Ascii("extra_") + Decimal(i) + Ascii("_") + Decimal(j)
  }

  function Names(flags: Byte, names: seq<Str>, p: nat): seq<Str>
    requires p <= |names|
    decreases |names| - p
  {
    if p == |names| then [] else (if Bit(flags, p) then [names[p]] else []) + Names(flags, names, p + 1)
  }

  /** Flags beyond the known names, up to bit 5. */
  function Extras(i: nat, flags: Byte, j: nat): seq<Str>
    decreases 6 - j
  {
    if j >= 6 then [] else (if Bit(flags, j) then [Extra(i, j)] else []) + Extras(i, flags, j + 1)
  }

  /** The fields that follow the i-th byte of flags. */
  function FieldsOf(i: nat, flags: Byte, names: seq<Str>): seq<Str> {
    Names(flags, names, 0) + Extras(i, flags, |names|)
  }

  function NamesAt(sets: seq<seq<Str>>, i: nat): seq<Str> {
    if i < |sets| then sets[i] else []
  }

  /** All fields, in the order they are decoded. */
  function ExternalFields(i: nat, flags: seq<Byte>, sets: seq<seq<Str>>): seq<Str>
    decreases |flags|
  {
    if flags == [] then [] else FieldsOf(i, flags[0], NamesAt(sets, i)) + ExternalFields(i + 1, flags[1..], sets)
  }

  function If(present: bool, name: Str): seq<Str> {
    if present then [name] else []
  }

  /** The fields of the first byte of flags of an abstract message, bit by bit. */
  lemma FirstFields(flags: Byte)
    ensures FieldsOf(0, flags, NamesAt(ABSTRACT_FIELDS, 0))
         == If(flags % 2 == 1, Ascii("body")) + If(flags / 2 % 2 == 1, Ascii("clientId"))
          + If(flags / 4 % 2 == 1, Ascii("destination")) + If(flags / 8 % 2 == 1, Ascii("headers"))
          + If(flags / 16 % 2 == 1, Ascii("messageId")) + If(flags / 32 % 2 == 1, Ascii("timeStamp"))
          + If(flags / 64 % 2 == 1, Ascii("timeToLive"))
  {
    Powers();
    var names := ABSTRACT_FIELDS[0];
    SevenNames(flags, names);
    assert Extras(0, flags, 7) == [];
  }

  lemma SevenNames(flags: Byte, n: seq<Str>)
    requires |n| == 7
    ensures Names(flags, n, 0)
         == If(flags % 2 == 1, n[0]) + If(flags / 2 % 2 == 1, n[1]) + If(flags / 4 % 2 == 1, n[2])
          + If(flags / 8 % 2 == 1, n[3]) + If(flags / 16 % 2 == 1, n[4]) + If(flags / 32 % 2 == 1, n[5])
          + If(flags / 64 % 2 == 1, n[6])
  {
    Powers();
    var a, b, c := If(flags % 2 == 1, n[0]), If(flags / 2 % 2 == 1, n[1]), If(flags / 4 % 2 == 1, n[2]);
    var d, e, f := If(flags / 8 % 2 == 1, n[3]), If(flags / 16 % 2 == 1, n[4]), If(flags / 32 % 2 == 1, n[5]);
    var g := If(flags / 64 % 2 == 1, n[6]);
    assert Names(flags, n, 6) == g;
    assert Names(flags, n, 4) == e + (f + g);
    assert Names(flags, n, 2) == c + (d + (e + (f + g)));
    assert Names(flags, n, 0) == a + (b + (c + (d + (e + (f + g)))));
    Regrouped(a, b, c, d, e, f, g);
  }

  lemma Regrouped(a: seq<Str>, b: seq<Str>, c: seq<Str>, d: seq<Str>, e: seq<Str>, f: seq<Str>, g: seq<Str>)
    ensures a + (b + (c + (d + (e + (f + g))))) == a + b + c + d + e + f + g
  {
  }

  lemma TwoNamesEach()
    ensures NamesAt(ABSTRACT_FIELDS, 1) == [Ascii("clientIdBytes"), Ascii("messageIdBytes")]
    ensures NamesAt(ASYNC_FIELDS, 0) == [Ascii("correlationId"), Ascii("correlationIdBytes")]
  {
  }

  /** Those of the second byte, and of the only byte of an asynchronous message: two names and made-up ones. */
  lemma FurtherFields(i: nat, flags: Byte, n: seq<Str>)
    requires |n| == 2
    ensures FieldsOf(i, flags, n)
         == If(flags % 2 == 1, n[0]) + If(flags / 2 % 2 == 1, n[1])
          + If(flags / 4 % 2 == 1, Extra(i, 2)) + If(flags / 8 % 2 == 1, Extra(i, 3))
          + If(flags / 16 % 2 == 1, Extra(i, 4)) + If(flags / 32 % 2 == 1, Extra(i, 5))
  {
    TwoNames(flags, n);
    FourExtras(i, flags);
    hide Extra, Names, Extras, If;
    var a, b, c := If(flags % 2 == 1, n[0]), If(flags / 2 % 2 == 1, n[1]), If(flags / 4 % 2 == 1, Extra(i, 2));
    var d, e := If(flags / 8 % 2 == 1, Extra(i, 3)), If(flags / 16 % 2 == 1, Extra(i, 4));
    var f := If(flags / 32 % 2 == 1, Extra(i, 5));
    assert FieldsOf(i, flags, n) == (a + b) + (c + (d + (e + f)));
    TwoAndFour(a, b, c, d, e, f);
  }

  lemma TwoAndFour(a: seq<Str>, b: seq<Str>, c: seq<Str>, d: seq<Str>, e: seq<Str>, f: seq<Str>)
    ensures (a + b) + (c + (d + (e + f))) == a + b + c + d + e + f
  {
  }

  lemma TwoNames(flags: Byte, n: seq<Str>)
    requires |n| == 2
    ensures Names(flags, n, 0) == If(flags % 2 == 1, n[0]) + If(flags / 2 % 2 == 1, n[1])
  {
    Powers();
    assert Names(flags, n, 2) == [];
    assert Names(flags, n, 1) == If(flags / 2 % 2 == 1, n[1]);
  }

  lemma FourExtras(i: nat, flags: Byte)
    ensures Extras(i, flags, 2)
         == If(flags / 4 % 2 == 1, Extra(i, 2)) + (If(flags / 8 % 2 == 1, Extra(i, 3))
          + (If(flags / 16 % 2 == 1, Extra(i, 4)) + If(flags / 32 % 2 == 1, Extra(i, 5))))
  {
    Powers();
    hide Extra;
    assert Extras(i, flags, 5) == If(flags / 32 % 2 == 1, Extra(i, 5));
    assert Extras(i, flags, 4) == If(flags / 16 % 2 == 1, Extra(i, 4)) + Extras(i, flags, 5);
  }

  lemma ExtraName(i: nat, j: nat)
    requires i < 10 && j < 10
    ensures Extra(i, j) == [101, 120, 116, 114, 97, 95, 48 + i, 95, 48 + j]
  {
  }

  lemma Powers()
    ensures Pow2(0) == 1 && Pow2(1) == 2 && Pow2(2) == 4 && Pow2(3) == 8
    ensures Pow2(4) == 16 && Pow2(5) == 32 && Pow2(6) == 64
  {
  }

  /** If the flags shifted down are zero no bit is set there, so the guard in front of the second loop skips nothing. */
  lemma {:induction false} NoExtras(i: nat, flags: Byte, j: nat, k: nat)
    requires flags / Pow2(k) == 0 && j >= k
    ensures Extras(i, flags, j) == []
    decreases 6 - j
  {
    if j < 6 {
      Smaller(flags, k, j);
      NoExtras(i, flags, j + 1, k);
    }
  }

  lemma {:induction false} Smaller(flags: Byte, k: nat, j: nat)
    requires flags / Pow2(k) == 0 && j >= k
    ensures flags / Pow2(j) == 0
  {
    Grows(k, j);
    Below(flags, Pow2(k));
    Zero(flags, Pow2(j));
  }

  lemma {:induction false} Grows(k: nat, j: nat)
    requires j >= k
    ensures Pow2(j) >= Pow2(k)
    decreases j
  {
    if j > k {
      Grows(k, j - 1);
    }
  }

  lemma Below(x: nat, p: nat)
    requires p >= 1 && x / p == 0
    ensures x < p
  {
    assert x == x / p * p + x % p;
  }

  lemma Zero(x: nat, p: nat)
    requires x < p
    ensures x / p == 0
  {
  }

  /** Class names hold no zero byte, so a name padded with zeros is none of them. */
  lemma CollectionName()
    ensures |ARRAY_COLLECTION| == 33 && ARRAY_COLLECTION[32] != 0
  {
  }
}
