/** What a player is sent: everything its writer reports as taken and everything from the cache, once and in order. */
module Delivery {
  import opened Bytes
  import opened StreamWriters

  // ---------- what goes in ----------

  /** What one event puts into the queue, by the report of Write or from the cache. */
  function Entering(w: Writer, e: Event): seq<Packet> {
    match e
    case Write(p) =>
      var offers := Step(w, e).offers;
      if offers != [] && offers[|offers| - 1].accepted then [p] else []
    case Cached(ps) => ps
    case _ => []
  }

  function Taken(w: Writer, es: seq<Event>): seq<Packet>
    decreases |es|
  {
    if es == [] then [] else Entering(w, es[0]) + Taken(Step(w, es[0]), es[1..])
  }

  // ---------- what goes out ----------

  /** A round of the sending goroutine that has something to send. */
  predicate Sends(w: Writer, e: Event) {
    e.Send? && !w.ended && w.queue != []
  }

  /** The bases in force when packets were sent. */
  function Bases(w: Writer, es: seq<Event>): seq<U32>
    decreases |es|
  {
    if es == [] then [] else (if Sends(w, es[0]) then [w.base] else []) + Bases(Step(w, es[0]), es[1..])
  }

  function Rebase(p: Packet, base: U32): Sent {
    Sent(p.kind, (p.time + base) % 0x1_0000_0000)
  }

  predicate DeliveredAs(w: Writer, e: Writer, all: seq<Packet>, bases: seq<U32>) {
    && |bases| <= |all| && e.queue == all[|bases|..]
    && |e.sent| == |w.sent| + |bases|
    && (forall i :: 0 <= i < |w.sent| ==> e.sent[i] == w.sent[i])
    && forall i :: 0 <= i < |bases| ==> e.sent[|w.sent| + i] == Rebase(all[i], bases[i])
  }

  lemma OneEvent(w: Writer, e: Event)
    ensures var v := Step(w, e);
      if Sends(w, e) then
        && v.queue == w.queue[1..] && v.sent == w.sent + [Rebase(w.queue[0], w.base)] && Entering(w, e) == []
      else v.queue == w.queue + Entering(w, e) && v.sent == w.sent
  {
    hide Record;
    if e.Send? { RecordKeeps(w); }
    assert w.queue + [] == w.queue;
  }

  lemma RecordKeeps(w: Writer)
    ensures forall kind, time :: var r := Record(w, kind, time);
      r.queue == w.queue && r.sent == w.sent && r.offers == w.offers && r.base == w.base && r.closed == w.closed
  {
  }

  lemma Longer(w: Writer, v: Writer, e: Writer, all: seq<Packet>, bases: seq<U32>, first: Packet)
    requires v.sent == w.sent + [Rebase(first, w.base)] && DeliveredAs(v, e, all, bases)
    ensures DeliveredAs(w, e, [first] + all, [w.base] + bases)
  {
    var n := |w.sent|;
    forall i | 0 <= i <= |bases| ensures e.sent[n + i] == Rebase(([first] + all)[i], ([w.base] + bases)[i]) {
      if i == 0 {
        assert e.sent[n] == v.sent[n];
      } else {
        assert e.sent[|v.sent| + (i - 1)] == Rebase(all[i - 1], bases[i - 1]);
      }
    }
    forall i | 0 <= i < n ensures e.sent[i] == w.sent[i] {
      assert e.sent[i] == v.sent[i];
    }
  }

  /**
   * Over any run: what has been sent and what is still in the queue together are what was in the queue, then what
   * was taken, in order and each once. Each packet is sent with the base then in force, modulo 2^32.
   */
  lemma {:induction false} Delivers(w: Writer, es: seq<Event>)
    ensures DeliveredAs(w, Run(w, es), w.queue + Taken(w, es), Bases(w, es))
    decreases |es|
  {
    if es == [] {
      assert w.queue + [] == w.queue;
    } else {
      hide Step, Sends, Entering, DeliveredAs;
      var v, more := Step(w, es[0]), Taken(Step(w, es[0]), es[1..]);
      OneEvent(w, es[0]);
      Delivers(v, es[1..]);
      var bases := Bases(v, es[1..]);
      if Sends(w, es[0]) {
        SomethingToSend(w, es[0]);
        Longer(w, v, Run(w, es), v.queue + more, bases, w.queue[0]);
        assert w.queue + ([] + more) == [w.queue[0]] + (w.queue[1..] + more);
      } else {
        Regroup(w.queue, Entering(w, es[0]), more);
        SameSent(w, v, Run(w, es), v.queue + more, bases);
        assert [] + bases == bases;
      }
    }
  }

  lemma SomethingToSend(w: Writer, e: Event)
    requires Sends(w, e)
    ensures w.queue != []
  {
  }

  lemma SameSent(w: Writer, v: Writer, e: Writer, all: seq<Packet>, bases: seq<U32>)
    requires v.sent == w.sent && DeliveredAs(v, e, all, bases)
    ensures DeliveredAs(w, e, all, bases)
  {
  }

  // ---------- the report of Write ----------

  /** Write reports the packet, whether the writer was open, and whether fewer than 1024 packets were waiting. */
  lemma Reported(w: Writer, p: Packet)
    ensures var v := Step(w, Write(p));
      && |v.offers| == |w.offers| + 1 && v.offers[..|w.offers|] == w.offers
      && var o := v.offers[|w.offers|];
      o.packet == p && o.open == !w.closed && o.room == (|w.queue| < 1024)
  {
  }

  // ---------- closing and ending ----------

  /** The event that closes an open writer: its Close, or an error of the connection. */
  predicate Shuts(w: Writer, e: Event) {
    e == Close || (e == Send(false) && Sends(w, e))
  }

  lemma {:induction false} ClosedExactly(w: Writer, es: seq<Event>)
    ensures Run(w, es).closed <==> w.closed || exists k :: 0 <= k < |es| && Shuts(Run(w, es[..k]), es[k])
    decreases |es|
  {
    if es != [] {
      var v := Step(w, es[0]);
      ClosedExactly(v, es[1..]);
      assert v.closed <==> w.closed || Shuts(w, es[0]) by { ClosesAt(w, es[0]); }
      hide Step, Shuts;
      assert Run(w, es[..0]) == w;
      forall k | 0 <= k < |es| - 1 ensures Run(w, es[..k + 1]) == Run(v, es[1..][..k]) && es[k + 1] == es[1..][k] {
        assert es[..k + 1][0] == es[0] && es[..k + 1][1..] == es[1..][..k];
      }
      if Shuts(w, es[0]) {
        assert Shuts(Run(w, es[..0]), es[0]);
      }
      if k :| 0 <= k < |es| - 1 && Shuts(Run(v, es[1..][..k]), es[1..][k]) {
        assert Shuts(Run(w, es[..k + 1]), es[k + 1]);
      }
      if k :| 0 <= k < |es| && Shuts(Run(w, es[..k]), es[k]) {
        if k > 0 {
          assert Run(w, es[..k - 1 + 1]) == Run(v, es[1..][..k - 1]) && es[k] == es[1..][k - 1];
        }
      }
    }
  }

  lemma ClosesAt(w: Writer, e: Event)
    ensures Step(w, e).closed <==> w.closed || Shuts(w, e)
  {
  }

  /** A writer ends with the first error, or when it is closed and has nothing left to send. */
  lemma EndsAt(w: Writer, e: Event)
    ensures Step(w, e).ended <==> w.ended || (e.Send? && if w.queue == [] then w.closed else !e.connOk)
  {
  }

  // ---------- the base ----------

  /** The time of the last packet sent on a track, or 0. */
  function LastOn(sent: seq<Sent>, video: bool): U32 {
    if sent == [] then 0
    else
      var last := sent[|sent| - 1];
      if OnTrack(last.kind, video) then last.time else LastOn(sent[..|sent| - 1], video)
  }

  predicate Recorded(w: Writer) {
    w.lastVideo == LastOn(w.sent, true) && w.lastAudio == LastOn(w.sent, false)
  }

  lemma RecordedStep(w: Writer, e: Event)
    requires Recorded(w)
    ensures Recorded(Step(w, e))
    ensures Step(w, e).base == if e.HandOver? then Larger(LastOn(w.sent, true), LastOn(w.sent, false)) else w.base
  {
    if Sends(w, e) {
      var s := Sent(w.queue[0].kind, Add32(w.queue[0].time, w.base));
      assert (w.sent + [s])[..|w.sent|] == w.sent;
    }
  }

  function Larger(a: U32, b: U32): U32 { if a < b then b else a }

  /** A hand-over in any run makes the larger of the last times sent on the two tracks the base; nothing else does. */
  lemma {:induction false} BaseOverRuns(w: Writer, es: seq<Event>)
    requires Recorded(w)
    ensures Recorded(FRESH) && Recorded(Run(w, es))
    ensures var e := Run(w, es);
      && Step(e, HandOver).base == Larger(LastOn(e.sent, true), LastOn(e.sent, false))
      && ((forall k :: 0 <= k < |es| ==> !es[k].HandOver?) ==> e.base == w.base)
    decreases |es|
  {
    if es == [] {
      RecordedStep(w, HandOver);
    } else {
      RecordedStep(w, es[0]);
      hide Step, Recorded;
      BaseOverRuns(Step(w, es[0]), es[1..]);
      StartsRecorded();
    }
  }

  lemma StartsRecorded()
    ensures Recorded(FRESH)
  {
  }
}
