/**
 The buffered stream both ends of a connection read from and write to. The bytes the peer has sent are `input`,
 the bytes sent to the peer are `output`. A short read is remembered in `readError` and makes every later read fail.
 */
module ReadWriters {
  import opened Bytes

  /** Byte i of a big-endian number is the number shifted right by the bytes below it. */
  lemma {:induction false} BEAt(v: nat, n: nat, i: nat)
    requires i < n
    ensures BE(v, n)[i] == v / Pow256(n - 1 - i) % 256
  {
    if i < n - 1 {
      BEAt(v / 256, n - 1, i);
      DivDiv(v, Pow256(n - 2 - i));
    }
  }

  lemma DivDiv(v: nat, p: nat)
    requires p >= 1
    ensures v / 256 / p == v / (256 * p)
  {
    var q, r := v / (256 * p), v % (256 * p);
    assert v == 256 * p * q + r;
    assert v / 256 == p * q + r / 256 by {
      assert 256 * p * q == 256 * (p * q);
    }
    var k := r / 256;
    assert k < p;
    DivUnique(p * q + k, p, q, k);
  }

  lemma DivUnique(a: nat, p: nat, q: nat, k: nat)
    requires p >= 1 && k < p && a == p * q + k
    ensures a / p == q
  {
    var d, r := a / p, a % p;
    assert p * q + k == p * d + r;
    if q > d {
      MulGrows(p, d, q);
    } else if q < d {
      MulGrows(p, q, d);
    }
  }

  lemma MulGrows(p: nat, x: nat, y: nat)
    requires x < y
    ensures p * x + p <= p * y
  {
    assert p * y == p * x + p * (y - x);
    assert p * (y - x) == p + p * (y - x - 1);
  }

  lemma AddMod(x: nat, y: nat)
    ensures (x % 0x1_0000_0000 + y % 0x1_0000_0000) % 0x1_0000_0000 == (x + y) % 0x1_0000_0000
  {}

  lemma ShiftMod(x: nat, b: Byte)
    ensures (x % 0x1_0000_0000 * 256 + b) % 0x1_0000_0000 == (x * 256 + b) % 0x1_0000_0000
  {
    var q, r := x / 0x1_0000_0000, x % 0x1_0000_0000;
    assert x * 256 + b == 256 * q * 0x1_0000_0000 + (r * 256 + b);
    ModDrops(256 * q, r * 256 + b);
  }

  lemma ModDrops(k: nat, y: nat)
    ensures (k * 0x1_0000_0000 + y) % 0x1_0000_0000 == y % 0x1_0000_0000
  {
  }

  lemma NoBytes(s: seq<Byte>)
    ensures FromBE(s[..0]) == 0 && FromLE(s[..0]) == 0
  {}

  lemma {:induction false} FromLEAppend(s: seq<Byte>, b: Byte)
    ensures FromLE(s + [b]) == FromLE(s) + b * Pow256(|s|)
  {
    if s == [] {
      assert [b][1..] == [];
    } else {
      FromLEAppend(s[1..], b);
      assert (s + [b])[1..] == s[1..] + [b];
      var p := Pow256(|s[1..]|);
      assert 256 * (FromLE(s[1..]) + b * p) == 256 * FromLE(s[1..]) + b * (256 * p);
    }
  }

  // The integer loops agree with the fixed-width readers of the utils package.

  lemma FromBEPrefix(s: seq<Byte>, n: nat)
    requires n < |s|
    ensures FromBE(s[..n + 1]) == FromBE(s[..n]) * 256 + s[n]
  {
    assert s[..n + 1][..n] == s[..n];
  }

  lemma FixedBE(s: seq<Byte>)
    ensures |s| >= 1 ==> FromBE(s[..1]) == s[0]
    ensures |s| >= 3 ==> FromBE(s[..3]) == U24BE(s)
    ensures |s| >= 4 ==> FromBE(s[..4]) == U32BE(s)
  {
    assert s[..0] == [];
    if |s| >= 1 { FromBEPrefix(s, 0); }
    if |s| >= 3 { FromBEPrefix(s, 1); FromBEPrefix(s, 2); }
    if |s| >= 4 { FromBEPrefix(s, 3); }
  }

  lemma FromLEPrefix(s: seq<Byte>, n: nat)
    requires n < |s|
    ensures FromLE(s[..n + 1]) == FromLE(s[..n]) + s[n] * Pow256(n)
  {
    FromLEAppend(s[..n], s[n]);
    assert s[..n + 1] == s[..n] + [s[n]];
  }

  lemma FixedLE(s: seq<Byte>)
    ensures |s| >= 2 ==> FromLE(s[..2]) == s[0] as int + 256 * s[1] as int
    ensures |s| >= 4 ==> FromLE(s[..4]) == U32LE(s)
  {
    assert s[..0] == [];
    assert Pow256(0) == 1 && Pow256(1) == 256 && Pow256(2) == 0x1_0000 && Pow256(3) == 0x100_0000;
    if |s| >= 2 { FromLEPrefix(s, 0); FromLEPrefix(s, 1); }
    if |s| >= 4 { FromLEPrefix(s, 2); FromLEPrefix(s, 3); }
  }

  class ReadWriter {
    var input: seq<Byte>
    var output: seq<Byte>
    var readError: bool

    constructor (input: seq<Byte>)
      ensures this.input == input && output == [] && !readError
    {
      this.input, output, readError := input, [], false;
    }

    /** The embedded bufio method: neither looks at nor sets readError. */
    method ReadByte() returns (ok: bool, b: Byte)
      modifies `input
      ensures ok == (old(input) != [])
      ensures ok ==> old(input) == [b] + input
      ensures !ok ==> input == []
    {
      ok, b := input != [], 0;
      if ok {
        b, input := input[0], input[1..];
      }
    }

    /** Fills buf[lo..hi], all of it or none that counts. */
    method ReadInto(buf: array<Byte>, lo: nat, hi: nat) returns (ok: bool)
      requires lo <= hi <= buf.Length
      modifies `input, `readError, buf
      ensures ok == (!old(readError) && hi - lo <= |old(input)|)
      ensures readError == !ok
      ensures ok ==> input == old(input)[hi - lo..]
      ensures !ok ==> input == if old(readError) then old(input) else []
      ensures ok ==> buf[..] == old(buf[..lo]) + old(input)[..hi - lo] + old(buf[hi..])
    {
      if readError { return false; }
      if |input| < hi - lo {
        input, readError := [], true;
        return false;
      }
      forall k | lo <= k < hi { buf[k] := input[k - lo]; }
      input := input[hi - lo..];
      ok := true;
    }

    method ReadUintBE(n: nat) returns (ok: bool, v: U32)
      modifies `input, `readError
      ensures ok == (!old(readError) && n <= |old(input)|)
      ensures readError == !ok
      ensures ok ==> input == old(input)[n..] && v == FromBE(old(input)[..n]) % 0x1_0000_0000
      ensures !ok ==> v == 0 && input == if old(readError) then old(input) else []
    {
      if readError { return false, 0; }
      var ret: U32 := 0;
      NoBytes(input);
      hide FromBE;
      for i := 0 to n
        invariant i <= |old(input)| && input == old(input)[i..]
        invariant ret == FromBE(old(input)[..i]) % 0x1_0000_0000
        invariant !readError
      {
        var more, b := ReadByte();
        if !more {
          readError := true;
          return false, 0;
        }
        FromBEPrefix(old(input), i);
        ShiftMod(FromBE(old(input)[..i]), b);
        ret := (ret * 256 + b) % 0x1_0000_0000;
      }
      return true, ret;
    }

    method ReadUintLE(n: nat) returns (ok: bool, v: U32)
      modifies `input, `readError
      ensures ok == (!old(readError) && n <= |old(input)|)
      ensures readError == !ok
      ensures ok ==> input == old(input)[n..] && v == FromLE(old(input)[..n]) % 0x1_0000_0000
      ensures !ok ==> v == 0 && input == if old(readError) then old(input) else []
    {
      if readError { return false, 0; }
      var ret: U32 := 0;
      NoBytes(input);
      hide FromLE, Pow256;
      for i := 0 to n
        invariant i <= |old(input)| && input == old(input)[i..]
        invariant ret == FromLE(old(input)[..i]) % 0x1_0000_0000
        invariant !readError
      {
        var more, b := ReadByte();
        if !more {
          readError := true;
          return false, 0;
        }
        FromLEPrefix(old(input), i);
        var shifted := b * Pow256(i) % 0x1_0000_0000;
        AddMod(FromLE(old(input)[..i]), b * Pow256(i));
        ret := (ret + shifted) % 0x1_0000_0000;
      }
      return true, ret;
    }

    /** Peek and Discard are bufio's too. */
    method Peek(n: nat) returns (ok: bool, b: seq<Byte>)
      ensures ok == (n <= |input|) && (ok ==> b == input[..n])
    {
      ok := n <= |input|;
      b := if ok then input[..n] else [];
    }

    method Discard(n: nat)
      requires n <= |input|
      modifies `input
      ensures input == old(input)[n..]
    {
      input := input[n..];
    }

    method Write(p: seq<Byte>)
      modifies `output
      ensures output == old(output) + p
    {
      output := output + p;
    }

    method WriteUintBE(v: U32, n: nat)
      modifies `output
      ensures output == old(output) + BE(v, n)
    {
      for i := 0 to n
        invariant output == old(output) + BE(v, n)[..i]
      {
        BEAt(v, n, i);
        output := output + [v / Pow256(n - i - 1) % 256];
      }
    }

    method WriteUintLE(v: U32, n: nat)
      modifies `output
      ensures output == old(output) + LE(v, n)
    {
      var left := v;
      for i := 0 to n
        invariant output + LE(left, n - i) == old(output) + LE(v, n)
      {
        output := output + [left % 256];
        left := left / 256;
      }
    }
  }
}
