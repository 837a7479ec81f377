/** Filling a preallocated byte buffer, and reading a byte slice from the front. */
module Buffers {
  import opened Bytes

  /** copy(buffer[index:], p), where p fits. */
  method Copy(buffer: array<Byte>, index: nat, p: seq<Byte>)
    requires index + |p| <= buffer.Length
    modifies buffer
    ensures buffer[..] == old(buffer[..index]) + p + old(buffer[index + |p|..])
    ensures buffer[..index + |p|] == old(buffer[..index]) + p
  {
    for i := 0 to |p|
      invariant buffer[..index] == old(buffer[..index])
      invariant buffer[index..index + i] == p[..i]
      invariant buffer[index + i..] == old(buffer[index + i..])
    {
      buffer[index + i] := p[i];
    }
    assert buffer[..] == buffer[..index] + buffer[index..index + |p|] + buffer[index + |p|..];
    assert buffer[..index + |p|] == buffer[..index] + buffer[index..index + |p|];
  }

  /** buffer[index] = b, behind what has been filled in. */
  method Put(buffer: array<Byte>, index: nat, b: Byte)
    requires index < buffer.Length
    modifies buffer
    ensures buffer[..index + 1] == old(buffer[..index]) + [b]
  {
    buffer[index] := b;
  }

  /** What make([]byte, n) holds after a Read that found only the bytes of s: the rest stays zero. */
  function Padded(s: seq<Byte>, n: nat): (r: seq<Byte>)
    ensures |r| == n
    ensures |s| >= n ==> r == s[..n]
  {
    if |s| >= n then s[..n] else s + seq(n - |s|, _ => 0)
  }

  function Rest(s: seq<Byte>, n: nat): seq<Byte> {
    s[Min(n, |s|)..]
  }

  /** A reader of the bytes package: rest is what has not been read yet. */
  class Reader {
    var rest: seq<Byte>
    /** bytes.Reader reports the end of the data even to a read of no bytes; bytes.Buffer does not. */
    const strict: bool

    constructor (data: seq<Byte>, strict: bool)
      ensures rest == data && this.strict == strict
    {
      rest := data;
      this.strict := strict;
    }

    method ReadByte() returns (b: Option<Byte>)
      modifies this
      ensures if old(rest) == [] then b == None && rest == [] else b == Some(old(rest)[0]) && rest == old(rest)[1..]
    {
      if |rest| == 0 {
        return None;
      }
      b := Some(rest[0]);
      rest := rest[1..];
    }

    /** Read into a zeroed buffer of n bytes; None is io.EOF, and a short read is no error. */
    method Read(n: nat) returns (b: Option<seq<Byte>>)
      modifies this
      ensures b == TryRead(strict, old(rest), n) && rest == Rest(old(rest), n)
    {
      if |rest| == 0 && (strict || n > 0) {
        return None;
      }
      b := Some(Padded(rest, n));
      rest := rest[Min(n, |rest|)..];
    }

    /** Seek(1, io.SeekCurrent) may leave the end behind; nothing is left to read there either. */
    method Skip()
      modifies this
      ensures rest == Rest(old(rest), 1)
    {
      rest := rest[Min(1, |rest|)..];
    }
  }

  function TryRead(strict: bool, s: seq<Byte>, n: nat): Option<seq<Byte>> {
    if s == [] && (strict || n > 0) then None else Some(Padded(s, n))
  }
}
