/** Acknowledgement accounting over whole runs of Read (Adobe RTMP 1.0, sections 5.4.3 and 5.4.4). */
module Acks {
  import opened Bytes
  import opened Chunks
  import opened Connection

  const SAFE_WINDOW: U32 := 0x1_0000_0000 - 0x100_0000
  const RECEIVED_LIMIT: U32 := 0xF000_0000

  function Sum(xs: seq<U32>): nat {
    if xs == [] then 0 else xs[0] + Sum(xs[1..])
  }

  lemma {:induction false} SumAppend(a: seq<U32>, b: seq<U32>)
    ensures Sum(a + b) == Sum(a) + Sum(b)
  {
    if a == [] {
      assert a + b == b;
    } else {
      SumAppend(a[1..], b);
      assert (a + b)[1..] == a[1..] + b;
    }
  }

  /** The Length of the message the chunk at the head of the input completes, or 0. */
  function CompletedBy(c: Conn, input: seq<Byte>): (n: U32)
    requires Healthy(c)
    ensures n <= MAX_LENGTH
  {
    match ParseBasic(input)
    case None => 0
    case Some(b) =>
      match ReadChunk(Lookup(c, b.csid), b.fmt, c.remoteChunkSize, b.rest)
      case None => 0
      case Some(p) => if p.0.complete then p.0.length else 0
  }

  /** The total Length of the messages, control messages too, that a run of Read completes. */
  function Completed(c: Conn, input: seq<Byte>): nat
    requires Healthy(c)
    decreases |input|
  {
    match Step(c, input)
    case Stop => 0
    case Next(c', _, _, rest) => CompletedBy(c, input) + Completed(c', rest)
  }

  /** How often, over a run of Read, adding a Length to the count wraps round. */
  function Wraps(c: Conn, input: seq<Byte>): nat
    requires Healthy(c)
    decreases |input|
  {
    match Step(c, input)
    case Stop => 0
    case Next(c', _, _, rest) =>
      (if c.ackReceived + CompletedBy(c, input) < 0x1_0000_0000 then 0 else 1) + Wraps(c', rest)
  }

  /** The peer never asks for a window so large that the count could wrap before reaching it. */
  predicate SafeWindows(c: Conn, input: seq<Byte>)
    requires Healthy(c)
    decreases |input|
  {
    c.remoteWindow <= SAFE_WINDOW &&
    match Step(c, input)
    case Stop => true
    case Next(c', _, _, rest) => SafeWindows(c', rest)
  }

  /** Nothing is due: what is counted is 0 or below the window. */
  predicate Settled(c: Conn) { c.ackReceived == 0 || c.ackReceived < c.remoteWindow }

  /**
   * One ack reports or keeps every byte, except for the 2^32 lost exactly when the sum wraps; nothing is due
   * after it.
   */
  lemma AckAccount(c: Conn, size: U32)
    ensures var (c', ack) := Acknowledge(c, size);
            && Sum(Optional(ack)) + c'.ackReceived
               == c.ackReceived + size - (if c.ackReceived + size < 0x1_0000_0000 then 0 else 0x1_0000_0000)
            && Settled(c') && c'.remoteWindow == c.remoteWindow
  {
    var (c', ack) := Acknowledge(c, size);
    if ack.Some? { assert [ack.value][1..] == []; }
  }

  /** The same for a turn of Read. */
  lemma StepAccount(c: Conn, input: seq<Byte>)
    requires Healthy(c)
    ensures match Step(c, input)
            case Stop => true
            case Next(c', msg, ack, rest) =>
              && (Settled(c) ==> Settled(c'))
              && var sum := c.ackReceived + CompletedBy(c, input);
              Sum(Optional(ack)) + c'.ackReceived == sum - if sum < 0x1_0000_0000 then 0 else 0x1_0000_0000
  {
    hide ReadChunk, Acknowledge, Sum;
    var b := ParseBasic(input);
    if b.Some? {
      var p := ReadChunk(Lookup(c, b.value.csid), b.value.fmt, c.remoteChunkSize, b.value.rest);
      if p.Some? {
        var cs := p.value.0;
        var c1 := HandleControl(Store(c, cs), cs);
        if c1.Some? { AckAccount(c1.value, cs.length); }
        assert Sum([]) == 0 by { NothingSums(); }
      }
    }
  }

  lemma NothingSums()
    ensures Sum([]) == 0
  {}

  /**
   * Over any run, acknowledged plus counted equals received, less 2^32 for each wrap: exact if and only if
   * no addition of the run wraps. And nothing is ever left due.
   */
  lemma {:induction false} AckAccounting(c: Conn, input: seq<Byte>)
    requires Healthy(c)
    ensures var d := Drain(c, input);
            && (Settled(c) ==> Settled(d.conn))
            && Sum(d.acks) + d.conn.ackReceived + 0x1_0000_0000 * Wraps(c, input) == c.ackReceived + Completed(c, input)
            && (Sum(d.acks) + d.conn.ackReceived == c.ackReceived + Completed(c, input) <==> Wraps(c, input) == 0)
    decreases |input|
  {
    hide Step, CompletedBy, Settled;
    StepAccount(c, input);
    var s := Step(c, input);
    if s.Next? {
      AckAccounting(s.conn, s.rest);
      SumAppend(Optional(s.ack), Drain(s.conn, s.rest).acks);
    } else {
      NothingSums();
    }
  }

  /** Nothing wraps while the peer keeps to windows that leave room for one more message. */
  lemma {:induction false} SafeWindowsDoNotWrap(c: Conn, input: seq<Byte>)
    requires Healthy(c) && Settled(c) && SafeWindows(c, input)
    ensures Wraps(c, input) == 0
    decreases |input|
  {
    assert c.ackReceived + CompletedBy(c, input) < 0x1_0000_0000;
    hide Step, CompletedBy, Settled;
    StepAccount(c, input);
    var s := Step(c, input);
    if s.Next? {
      SafeWindowsDoNotWrap(s.conn, s.rest);
    }
  }

  lemma StepReceived(c: Conn, input: seq<Byte>)
    requires Healthy(c) && c.received < RECEIVED_LIMIT
    ensures Add32(c.received, CompletedBy(c, input)) == c.received + CompletedBy(c, input)
    ensures Step(c, input).Next? ==> Step(c, input).conn.received < RECEIVED_LIMIT
  {
    hide ReadChunk;
  }

  /** The total is reset in time: over any run it stays below the limit, so adding a length to it never wraps. */
  lemma {:induction false} ReceivedBounded(c: Conn, input: seq<Byte>)
    requires Healthy(c) && c.received < RECEIVED_LIMIT
    ensures Drain(c, input).conn.received < RECEIVED_LIMIT
    ensures Add32(c.received, CompletedBy(c, input)) == c.received + CompletedBy(c, input)
    decreases |input|
  {
    hide Step, CompletedBy, Add32;
    StepReceived(c, input);
    var s := Step(c, input);
    if s.Next? {
      ReceivedBounded(s.conn, s.rest);
    }
  }
}
