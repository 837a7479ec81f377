/** Bytes, unsigned machine words and the integer codecs every wire format in the project is built on. */
module Bytes {

  type Byte = x: int | 0 <= x < 0x100
  type U32 = x: int | 0 <= x < 0x1_0000_0000

  datatype Option<+T> = None | Some(value: T)

  function Min(a: nat, b: nat): nat { if a <= b then a else b }

  /** Addition of Go's uint32. */
  function Add32(a: U32, b: U32): U32 { (a + b) % 0x1_0000_0000 }

  function Pow256(n: nat): (p: nat)
    ensures p >= 1
  {
    if n == 0 then 1 else 256 * Pow256(n - 1)
  }

  /** The low n bytes of v, most significant first. */
  function BE(v: nat, n: nat): (s: seq<Byte>)
    ensures |s| == n
  {
    if n == 0 then [] else BE(v / 256, n - 1) + [v % 256]
  }

  function FromBE(s: seq<Byte>): nat {
    if s == [] then 0 else FromBE(s[..|s| - 1]) * 256 + s[|s| - 1]
  }

  /** The low n bytes of v, least significant first. */
  function LE(v: nat, n: nat): (s: seq<Byte>)
    ensures |s| == n
  {
    if n == 0 then [] else [v % 256] + LE(v / 256, n - 1)
  }

  function FromLE(s: seq<Byte>): nat {
    if s == [] then 0 else s[0] + 256 * FromLE(s[1..])
  }

  lemma {:induction false} FromBEOfBE(v: nat, n: nat)
    requires v < Pow256(n)
    ensures FromBE(BE(v, n)) == v
  {
    if n > 0 {
      FromBEOfBE(v / 256, n - 1);
      assert BE(v, n)[..n - 1] == BE(v / 256, n - 1);
    }
  }

  lemma {:induction false} BEOfFromBE(s: seq<Byte>)
    ensures FromBE(s) < Pow256(|s|) && BE(FromBE(s), |s|) == s
  {
    if s != [] {
      BEOfFromBE(s[..|s| - 1]);
    }
  }

  lemma {:induction false} FromLEOfLE(v: nat, n: nat)
    requires v < Pow256(n)
    ensures FromLE(LE(v, n)) == v
  {
    if n > 0 {
      FromLEOfLE(v / 256, n - 1);
    }
  }

  // The fixed-width readers of the utils package, on the first bytes of b.

  function U16BE(b: seq<Byte>): (v: U32)
    requires |b| >= 2
    ensures v < 0x1_0000
  {
    b[0] as int * 0x100 + b[1]
  }

  function U24BE(b: seq<Byte>): (v: U32)
    requires |b| >= 3
    ensures v < 0x100_0000
  {
    b[0] as int * 0x1_0000 + b[1] as int * 0x100 + b[2]
  }

  function U32BE(b: seq<Byte>): U32
    requires |b| >= 4
  {
    b[0] as int * 0x100_0000 + b[1] as int * 0x1_0000 + b[2] as int * 0x100 + b[3]
  }

  function U32LE(b: seq<Byte>): U32
    requires |b| >= 4
  {
    b[3] as int * 0x100_0000 + b[2] as int * 0x1_0000 + b[1] as int * 0x100 + b[0]
  }

  lemma BE2(v: nat, rest: seq<Byte>)
    requires v < 0x1_0000
    ensures U16BE(BE(v, 2) + rest) == v
  {
    assert BE(v, 2) == [v / 256 % 256, v % 256];
  }

  lemma BE3(v: nat, rest: seq<Byte>)
    requires v < 0x100_0000
    ensures U24BE(BE(v, 3) + rest) == v
  {
    assert BE(v / 256, 2) == [v / 256 / 256 % 256, v / 256 % 256];
    assert BE(v, 3) == [v / 256 / 256 % 256, v / 256 % 256, v % 256];
  }

  lemma BE4Bytes(v: nat)
    ensures BE(v, 4) == [v / 256 / 256 / 256 % 256, v / 256 / 256 % 256, v / 256 % 256, v % 256]
  {
    assert BE(v / 256 / 256, 2) == [v / 256 / 256 / 256 % 256, v / 256 / 256 % 256];
  }

  lemma BE4(v: U32, rest: seq<Byte>)
    ensures U32BE(BE(v, 4) + rest) == v
  {
    BE4Bytes(v);
  }

  /** Reading back four bytes and writing them again is the identity. */
  lemma BE4OfU32BE(b: seq<Byte>)
    requires |b| == 4
    ensures BE(U32BE(b), 4) == b
  {
    var v: nat := U32BE(b);
    BE4Bytes(v);
    var v1, v2 := v / 256, v / 256 / 256;
    assert v1 == b[0] as int * 0x1_0000 + b[1] as int * 0x100 + b[2] as int && v % 256 == b[3];
    assert v2 == b[0] as int * 0x100 + b[1] as int && v1 % 256 == b[2];
    assert v2 / 256 == b[0] && v2 % 256 == b[1];
  }

  lemma LE4(v: U32, rest: seq<Byte>)
    ensures U32LE(LE(v, 4) + rest) == v
  {
    assert LE(v / 256 / 256, 2) == [v / 256 / 256 % 256, v / 256 / 256 / 256 % 256];
    assert LE(v, 4) == [v % 256, v / 256 % 256, v / 256 / 256 % 256, v / 256 / 256 / 256 % 256];
  }

  // ---------- brackets in sums of sequences ----------

  lemma Regroup<T>(a: seq<T>, b: seq<T>, c: seq<T>)
    ensures a + b + c == a + (b + c)
  {
  }

  lemma Regroup4<T>(a: seq<T>, b: seq<T>, c: seq<T>, d: seq<T>)
    ensures a + b + c + d == a + (b + c + d)
  {
  }

  lemma Regroup5<T>(a: seq<T>, b: seq<T>, c: seq<T>, d: seq<T>, e: seq<T>)
    ensures a + b + c + d + e == a + (b + (c + (d + e)))
  {
  }
}
