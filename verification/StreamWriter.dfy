/** One player's connection: the key-frame gate in front of a bounded queue, and timestamps rebased at hand-overs. */
module StreamWriters {
  import opened Bytes

  const MAX_QUEUE_NUM: nat := 1024

  datatype Kind = Video(key: bool) | Audio | Metadata

  /**
   * header marks a sequence header of AAC or H.264; at is the place among all packets the stream has read,
   * session the publisher it came from.
   */
  datatype Packet = Packet(kind: Kind, header: bool, time: U32, at: nat, session: nat)

  /** One call of Write: was the writer open, had the queue room, was the packet taken. */
  datatype Offer = Offer(packet: Packet, open: bool, room: bool, accepted: bool)

  datatype Sent = Sent(kind: Kind, time: U32)

  datatype Writer = Writer(closed: bool, keyframeNeed: bool, queue: seq<Packet>, ended: bool,
                           base: U32, lastVideo: U32, lastAudio: U32, offers: seq<Offer>, sent: seq<Sent>)

  const FRESH: Writer := Writer(false, true, [], false, 0, 0, 0, [], [])

  // ---------- one step ----------

  function Gated(w: Writer, p: Packet): bool {
    p.kind == Video(false) && w.keyframeNeed
  }

  /** Write; the flag is false for the error of a closed writer. */
  function Offered(w: Writer, p: Packet): (Writer, bool) {
    var room := |w.queue| < MAX_QUEUE_NUM;
    var accepted := !w.closed && room && !Gated(w, p);
    var offers := w.offers + [Offer(p, !w.closed, room, accepted)];
    if w.closed then (w.(offers := offers), false)
    else if Gated(w, p) then (w.(offers := offers), true)
    else if room then
      (w.(offers := offers, queue := w.queue + [p], keyframeNeed := w.keyframeNeed && !p.kind.Video?), true)
    else
      (w.(offers := offers, keyframeNeed := (w.keyframeNeed && !p.kind.Video?) || p.kind == Video(true)), true)
  }

  function Record(w: Writer, kind: Kind, time: U32): Writer {
    match kind
    case Video(_) => w.(lastVideo := time)
    case Audio => w.(lastAudio := time)
    case Metadata => w
  }

  /** One round of the sending goroutine; connOk is what the connection's Write returns. */
  function SentOne(w: Writer, connOk: bool): Writer {
    if w.ended then w
    else if w.queue == [] then w.(ended := w.closed)
    else
      var p := w.queue[0];
      var time := Add32(p.time, w.base);
      var r := Record(w, p.kind, time).(queue := w.queue[1..], sent := w.sent + [Sent(p.kind, time)]);
      if connOk then r else r.(closed := true, ended := true)
  }

  /** What the stream's cache puts straight into the queue, past the gate. */
  function Fed(w: Writer, ps: seq<Packet>): Writer { w.(queue := w.queue + ps) }

  function Closed(w: Writer): Writer { w.(closed := true) }

  function MaxOf(a: U32, b: U32): U32 { if a > b then a else b }

  /** CalcBaseTimestamp */
  function Rebased(w: Writer): Writer { w.(base := MaxOf(w.lastAudio, w.lastVideo)) }

  // ---------- the object ----------

  class StreamWriter {
    var closed: bool
    var keyframeNeed: bool
    var packetQueue: seq<Packet>
    var ended: bool
    var baseTimestamp: U32
    var lastVideoTimestamp: U32
    var lastAudioTimestamp: U32
    ghost var offers: seq<Offer>
    ghost var sent: seq<Sent>

    ghost function State(): Writer
      reads this
    {
      Writer(closed, keyframeNeed, packetQueue, ended, baseTimestamp, lastVideoTimestamp, lastAudioTimestamp,
             offers, sent)
    }

    constructor ()
      ensures State() == FRESH
    {
      closed, keyframeNeed, packetQueue, ended := false, true, [], false;
      baseTimestamp, lastVideoTimestamp, lastAudioTimestamp := 0, 0, 0;
      offers, sent := [], [];
    }

    method Write(p: Packet) returns (ok: bool)
      modifies this
      ensures (State(), ok) == Offered(old(State()), p)
    {
      ghost var room := |packetQueue| < MAX_QUEUE_NUM;
      if closed {
        offers := offers + [Offer(p, false, room, false)];
        return false;
      }
      if p.kind.Video? && keyframeNeed {
        if !p.kind.key {
          offers := offers + [Offer(p, true, room, false)];
          return true;
        }
        keyframeNeed := false;
      }
      if |packetQueue| < MAX_QUEUE_NUM {
        packetQueue := packetQueue + [p];
      } else if p.kind.Video? && p.kind.key {
        keyframeNeed := true;
      }
      offers := offers + [Offer(p, true, room, room)];
      return true;
    }

    method SendPacket(connOk: bool)
      modifies this
      ensures State() == SentOne(old(State()), connOk)
    {
      if ended { return; }
      if |packetQueue| == 0 {
        ended := closed;
        return;
      }
      var p := packetQueue[0];
      packetQueue := packetQueue[1..];
      var timestamp := Add32(p.time, baseTimestamp);
      RecTimeStamp(timestamp, p.kind);
      sent := sent + [Sent(p.kind, timestamp)];
      if !connOk {
        closed, ended := true, true;
      }
    }

    method RecTimeStamp(timestamp: U32, kind: Kind)
      modifies this`lastVideoTimestamp, this`lastAudioTimestamp
      ensures State() == Record(old(State()), kind, timestamp)
    {
      if kind.Video? {
        lastVideoTimestamp := timestamp;
      } else if kind == Audio {
        lastAudioTimestamp := timestamp;
      }
    }

    method CalcBaseTimestamp()
      modifies this`baseTimestamp
      ensures State() == Rebased(old(State()))
    {
      if lastAudioTimestamp > lastVideoTimestamp {
        baseTimestamp := lastAudioTimestamp;
      } else {
        baseTimestamp := lastVideoTimestamp;
      }
    }

    method Close()
      modifies this`closed
      ensures State() == Closed(old(State()))
    {
      closed := true;
    }
  }

  // ---------- runs ----------

  datatype Event = Write(p: Packet) | Cached(ps: seq<Packet>) | Send(connOk: bool) | HandOver | Close

  function Step(w: Writer, e: Event): Writer {
    match e
    case Write(p) => Offered(w, p).0
    case Cached(ps) => Fed(w, ps)
    case Send(connOk) => SentOne(w, connOk)
    case HandOver => Rebased(w)
    case Close => Closed(w)
  }

  function Run(w: Writer, es: seq<Event>): Writer
    decreases |es|
  {
    if es == [] then w else Run(Step(w, es[0]), es[1..])
  }

  // ---------- the gate ----------

  /** Among the offers the last key frame was taken; false when there was none. */
  predicate LatestKeyAccepted(offers: seq<Offer>) {
    if offers == [] then false
    else
      var last := offers[|offers| - 1];
      if last.packet.kind == Video(true) then last.accepted else LatestKeyAccepted(offers[..|offers| - 1])
  }

  /** Exactly the offers that a viewer can decode are taken: what the gate is for. */
  predicate GateHolds(offers: seq<Offer>) {
    forall i :: 0 <= i < |offers| ==>
      (offers[i].accepted <==>
        offers[i].open && offers[i].room && (offers[i].packet.kind == Video(false) ==> LatestKeyAccepted(offers[..i])))
  }

  predicate GateInv(w: Writer) {
    GateHolds(w.offers) && (!w.closed ==> (w.keyframeNeed <==> !LatestKeyAccepted(w.offers)))
  }

  lemma GateStep(w: Writer, e: Event)
    requires GateInv(w)
    ensures GateInv(Step(w, e))
  {
    if e.Write? {
      var w1 := Offered(w, e.p).0;
      var n := |w.offers|;
      assert w1.offers[..n] == w.offers;
      forall i | 0 <= i < |w1.offers|
        ensures w1.offers[i].accepted <==>
          w1.offers[i].open && w1.offers[i].room
          && (w1.offers[i].packet.kind == Video(false) ==> LatestKeyAccepted(w1.offers[..i]))
      {
        if i < n {
          assert w1.offers[i] == w.offers[i] && w1.offers[..i] == w.offers[..i];
        }
      }
    }
  }

  /**
   * In every run of a new writer, with any pattern of full-queue drops: Write takes a packet exactly
   * when the writer is open, the queue has room and, for a non-key video packet, the latest key frame
   * offered before it was taken too.
   */
  lemma {:induction false} GateOverRuns(w: Writer, es: seq<Event>)
    requires GateInv(w)
    ensures GateInv(FRESH) && GateInv(Run(w, es))
    decreases |es|
  {
    if es != [] {
      GateStep(w, es[0]);
      GateOverRuns(Step(w, es[0]), es[1..]);
    }
  }

  // ---------- timestamps ----------

  predicate OnTrack(kind: Kind, video: bool) {
    if video then kind.Video? else kind == Audio
  }

  predicate MonotoneOn(sent: seq<Sent>, video: bool) {
    forall i, j :: 0 <= i < j < |sent| && OnTrack(sent[i].kind, video) && OnTrack(sent[j].kind, video) ==>
      sent[i].time <= sent[j].time
  }

  /** On the video track and on the audio track. */
  predicate Monotone(sent: seq<Sent>) {
    MonotoneOn(sent, true) && MonotoneOn(sent, false)
  }

  /** The highest timestamp the current publisher has offered on each track. */
  datatype Floors = Floors(video: U32, audio: U32)

  predicate Allows(f: Floors, p: Packet) {
    match p.kind
    case Video(_) => f.video <= p.time
    case Audio => f.audio <= p.time
    case Metadata => true
  }

  function Raise(f: Floors, p: Packet): Floors {
    match p.kind
    case Video(_) => f.(video := p.time)
    case Audio => f.(audio := p.time)
    case Metadata => f
  }

  predicate AllowsAll(f: Floors, ps: seq<Packet>)
    decreases |ps|
  {
    ps == [] || (Allows(f, ps[0]) && AllowsAll(Raise(f, ps[0]), ps[1..]))
  }

  function RaiseAll(f: Floors, ps: seq<Packet>): Floors
    decreases |ps|
  {
    if ps == [] then f else RaiseAll(Raise(f, ps[0]), ps[1..])
  }

  /** At a hand-over nothing with a positive timestamp waits to be sent under the new base. */
  predicate Cleared(queue: seq<Packet>) {
    forall q :: q in queue && !q.kind.Metadata? ==> q.time == 0
  }

  /**
   * What comes from the publishers and from the cache is nondecreasing, sums do not wrap, and the queue is
   * cleared at each hand-over.
   */
  ghost predicate Legal(w: Writer, f: Floors, es: seq<Event>)
    decreases |es|
  {
    es == [] ||
    match es[0]
    case Write(p) => Allows(f, p) && Legal(Step(w, es[0]), Raise(f, p), es[1..])
    case Cached(ps) => AllowsAll(f, ps) && Legal(Step(w, es[0]), RaiseAll(f, ps), es[1..])
    case Send(_) => (w.queue != [] ==> w.queue[0].time + w.base < 0x1_0000_0000) && Legal(Step(w, es[0]), f, es[1..])
    case HandOver => Cleared(w.queue) && Legal(Step(w, es[0]), Floors(0, 0), es[1..])
    case Close => Legal(Step(w, es[0]), f, es[1..])
  }

  /** What each step keeps on one track: last is what was sent last, floor what was offered last. */
  predicate TrackInv(video: bool, sent: seq<Sent>, queue: seq<Packet>, base: nat, last: nat, floor: nat) {
    && MonotoneOn(sent, video)
    && (forall i :: 0 <= i < |sent| && OnTrack(sent[i].kind, video) ==> sent[i].time <= last)
    && (forall i :: 0 <= i < |queue| && OnTrack(queue[i].kind, video) ==>
          last <= queue[i].time + base && queue[i].time <= floor)
    && (forall i, j :: 0 <= i < j < |queue| && OnTrack(queue[i].kind, video) && OnTrack(queue[j].kind, video) ==>
          queue[i].time <= queue[j].time)
    && last <= floor + base
  }

  predicate TimeInv(w: Writer, f: Floors) {
    && TrackInv(true, w.sent, w.queue, w.base, w.lastVideo, f.video)
    && TrackInv(false, w.sent, w.queue, w.base, w.lastAudio, f.audio)
  }

  lemma Queued(video: bool, sent: seq<Sent>, queue: seq<Packet>, base: nat, last: nat, floor: nat, p: Packet)
    requires TrackInv(video, sent, queue, base, last, floor)
    requires OnTrack(p.kind, video) ==> floor <= p.time
    ensures TrackInv(video, sent, queue + [p], base, last, if OnTrack(p.kind, video) then p.time else floor)
    ensures TrackInv(video, sent, queue, base, last, if OnTrack(p.kind, video) then p.time else floor)
  {
  }

  lemma WriteKeepsTime(w: Writer, f: Floors, p: Packet)
    requires TimeInv(w, f) && Allows(f, p)
    ensures TimeInv(Offered(w, p).0, Raise(f, p))
  {
    hide TrackInv;
    Queued(true, w.sent, w.queue, w.base, w.lastVideo, f.video, p);
    Queued(false, w.sent, w.queue, w.base, w.lastAudio, f.audio, p);
  }

  lemma {:induction false} CachedKeepsTime(w: Writer, f: Floors, ps: seq<Packet>)
    requires TimeInv(w, f) && AllowsAll(f, ps)
    ensures TimeInv(Fed(w, ps), RaiseAll(f, ps))
    decreases |ps|
  {
    if ps == [] {
      assert w.queue + ps == w.queue;
    } else {
      hide TrackInv;
      var p := ps[0];
      Queued(true, w.sent, w.queue, w.base, w.lastVideo, f.video, p);
      Queued(false, w.sent, w.queue, w.base, w.lastAudio, f.audio, p);
      assert w.queue + ps == (w.queue + [p]) + ps[1..];
      CachedKeepsTime(Fed(w, [p]), Raise(f, p), ps[1..]);
    }
  }

  lemma Dequeued(video: bool, sent: seq<Sent>, queue: seq<Packet>, base: nat, last: nat, floor: nat)
    requires TrackInv(video, sent, queue, base, last, floor)
    requires queue != [] && queue[0].time + base < 0x1_0000_0000
    ensures var p := queue[0];
      TrackInv(video, sent + [Sent(p.kind, p.time + base)], queue[1..], base,
               if OnTrack(p.kind, video) then p.time + base else last, floor)
  {
    var p := queue[0];
    var s := sent + [Sent(p.kind, p.time + base)];
    forall i, j | 0 <= i < j < |s| && OnTrack(s[i].kind, video) && OnTrack(s[j].kind, video)
      ensures s[i].time <= s[j].time {
      assert s[i] == sent[i];
      assert j == |sent| || s[j] == sent[j];
    }
  }

  lemma NoWrap(a: U32, b: U32)
    requires a + b < 0x1_0000_0000
    ensures Add32(a, b) == a + b
  {
  }

  lemma SendKeepsTime(w: Writer, f: Floors, connOk: bool)
    requires TimeInv(w, f) && (w.queue != [] ==> w.queue[0].time + w.base < 0x1_0000_0000)
    ensures TimeInv(SentOne(w, connOk), f)
  {
    if !w.ended && w.queue != [] {
      hide TrackInv, Add32;
      assert Add32(w.queue[0].time, w.base) == w.queue[0].time + w.base by { NoWrap(w.queue[0].time, w.base); }
      Dequeued(true, w.sent, w.queue, w.base, w.lastVideo, f.video);
      Dequeued(false, w.sent, w.queue, w.base, w.lastAudio, f.audio);
    }
  }

  lemma HandOverKeepsTime(w: Writer, f: Floors)
    requires TimeInv(w, f) && Cleared(w.queue)
    ensures TimeInv(Rebased(w), Floors(0, 0))
  {
    forall i | 0 <= i < |w.queue| && !w.queue[i].kind.Metadata? ensures w.queue[i].time == 0 {
      assert w.queue[i] in w.queue;
    }
  }

  /**
   * Timestamps over whole runs: on each track they never decrease, across any number of hand-overs,
   * if at each of them nothing with a positive timestamp is left in the queue.
   */
  lemma {:induction false} NeverDecreasing(w: Writer, f: Floors, es: seq<Event>)
    requires TimeInv(w, f) && Legal(w, f, es)
    ensures TimeInv(FRESH, Floors(0, 0)) && Monotone(Run(w, es).sent)
    decreases |es|
  {
    if es != [] {
      hide TimeInv, Monotone, Cleared, Allows;
      var w1 := Step(w, es[0]);
      match es[0]
      case Write(p) =>
        WriteKeepsTime(w, f, p);
        NeverDecreasing(w1, Raise(f, p), es[1..]);
      case Cached(ps) =>
        CachedKeepsTime(w, f, ps);
        NeverDecreasing(w1, RaiseAll(f, ps), es[1..]);
      case Send(connOk) =>
        SendKeepsTime(w, f, connOk);
        NeverDecreasing(w1, f, es[1..]);
      case HandOver =>
        HandOverKeepsTime(w, f);
        NeverDecreasing(w1, Floors(0, 0), es[1..]);
      case Close =>
        CloseKeepsTime(w, f);
        NeverDecreasing(w1, f, es[1..]);
    } else {
      StartsInOrder(w, f);
    }
  }

  lemma CloseKeepsTime(w: Writer, f: Floors)
    requires TimeInv(w, f)
    ensures TimeInv(Closed(w), f) && TimeInv(FRESH, Floors(0, 0))
  {
  }

  lemma StartsInOrder(w: Writer, f: Floors)
    requires TimeInv(w, f)
    ensures Monotone(w.sent) && TimeInv(FRESH, Floors(0, 0))
  {
  }

  // ---------- when the queue is not cleared ----------

  function Sends(n: nat): (es: seq<Event>)
    ensures |es| == n
  {
    if n == 0 then [] else [Send(true)] + Sends(n - 1)
  }

  /** A new publisher starts at zero on the track of the packet that was left over. */
  function Restart(n: nat, kind: Kind): seq<Event> {
    Sends(n) + [Write(Packet(if kind.Video? then Video(true) else kind, false, 0, 0, 0)), Send(true)]
  }

  lemma {:induction false} RunAppend(w: Writer, es: seq<Event>, fs: seq<Event>)
    ensures Run(w, es + fs) == Run(Run(w, es), fs)
    decreases |es|
  {
    if es == [] {
      assert es + fs == fs;
    } else {
      assert (es + fs)[1..] == es[1..] + fs;
      RunAppend(Step(w, es[0]), es[1..], fs);
    }
  }

  /** Sending the whole queue. */
  lemma {:induction false} Emptied(w: Writer)
    requires !w.closed && !w.ended && forall q :: q in w.queue ==> q.time + w.base < 0x1_0000_0000
    ensures var w1 := Run(w, Sends(|w.queue|));
      && w1.queue == [] && !w1.closed && !w1.ended && w1.base == w.base
      && |w1.sent| == |w.sent| + |w.queue|
      && (forall i :: 0 <= i < |w.sent| ==> w1.sent[i] == w.sent[i])
      && forall i :: 0 <= i < |w.queue| ==> w1.sent[|w.sent| + i] == Sent(w.queue[i].kind, w.queue[i].time + w.base)
    decreases |w.queue|
  {
    if w.queue != [] {
      var next := SentOne(w, true);
      assert w.queue[0] in w.queue;
      assert next.queue == w.queue[1..];
      Emptied(next);
      var w1 := Run(w, Sends(|w.queue|));
      assert Sends(|w.queue|)[1..] == Sends(|next.queue|);
      assert w1 == Run(next, Sends(|next.queue|));
      forall i | 0 <= i < |w.queue| ensures w1.sent[|w.sent| + i] == Sent(w.queue[i].kind, w.queue[i].time + w.base) {
        if i > 0 {
          assert w.queue[i] == next.queue[i - 1];
          assert w1.sent[|next.sent| + (i - 1)] == Sent(next.queue[i - 1].kind, next.queue[i - 1].time + next.base);
        } else {
          assert next.sent[|w.sent|] == Sent(w.queue[0].kind, w.queue[0].time + w.base);
        }
      }
    }
  }

  /**
   * The guard is needed: if an open writer has anything with a positive timestamp left over at a
   * hand-over, a new publisher that starts at zero makes the sent timestamps go down.
   */
  lemma LeftOverGoesDown(w: Writer, p: Packet)
    requires !w.closed && !w.ended && p in w.queue && !p.kind.Metadata? && p.time > 0
    requires forall q :: q in w.queue ==> q.time + MaxOf(w.lastAudio, w.lastVideo) < 0x1_0000_0000
    ensures !Monotone(Run(w, [HandOver] + Restart(|w.queue|, p.kind)).sent)
  {
    var b, n := Rebased(w), |w.queue|;
    assert Run(w, [HandOver] + Restart(n, p.kind)) == Run(b, Restart(n, p.kind)) by {
      assert ([HandOver] + Restart(n, p.kind))[1..] == Restart(n, p.kind);
    }
    hide Run, Restart, Monotone;
    var i :| 0 <= i < n && w.queue[i] == p;
    DownFrom(b, i);
  }

  lemma DownFrom(b: Writer, i: nat)
    requires !b.closed && !b.ended && forall q :: q in b.queue ==> q.time + b.base < 0x1_0000_0000
    requires i < |b.queue| && !b.queue[i].kind.Metadata? && b.queue[i].time > 0
    ensures !Monotone(Run(b, Restart(|b.queue|, b.queue[i].kind)).sent)
  {
    hide Run, Restart, Monotone;
    var n, p := |b.queue|, b.queue[i];
    Restarted(b, p.kind);
    var sent := Run(b, Restart(n, p.kind)).sent;
    assert sent[|b.sent| + i] == Sent(p.kind, p.time + b.base);
    GoesDown(sent, |b.sent| + i, |b.sent| + n, p.kind.Video?);
  }

  /** The whole queue and then one packet at time zero. */
  lemma Restarted(b: Writer, kind: Kind)
    requires !b.closed && !b.ended && forall q :: q in b.queue ==> q.time + b.base < 0x1_0000_0000
    ensures var n, sent := |b.queue|, Run(b, Restart(|b.queue|, kind)).sent;
      && |sent| == |b.sent| + n + 1
      && (forall i :: 0 <= i < n ==> sent[|b.sent| + i] == Sent(b.queue[i].kind, b.queue[i].time + b.base))
      && sent[|b.sent| + n] == Sent(if kind.Video? then Video(true) else kind, b.base)
  {
    hide Run, Sends, SentOne, Offered, Add32;
    var n := |b.queue|;
    var k := Packet(if kind.Video? then Video(true) else kind, false, 0, 0, 0);
    RunAppend(b, Sends(n), [Write(k), Send(true)]);
    Emptied(b);
    LastTwo(Run(b, Sends(n)), k);
  }

  lemma GoesDown(sent: seq<Sent>, i: nat, j: nat, video: bool)
    requires i < j < |sent| && sent[i].time > sent[j].time
    requires OnTrack(sent[i].kind, video) && OnTrack(sent[j].kind, video)
    ensures !Monotone(sent)
  {
  }

  lemma LastTwo(e: Writer, k: Packet)
    requires e.queue == [] && !e.closed && !e.ended && k.time == 0 && k.kind != Video(false)
    ensures Run(e, [Write(k), Send(true)]).sent == e.sent + [Sent(k.kind, e.base)]
  {
    var e1 := Offered(e, k).0;
    assert [Write(k), Send(true)][1..] == [Send(true)] && [Send(true)][1..] == [];
    assert e1.queue == [k];
    assert Run(e, [Write(k), Send(true)]) == Run(e1, [Send(true)]) == Run(SentOne(e1, true), []);
  }

  // ---------- the guard, exactly ----------

  /** A packet at time zero may follow what is in the queue. */
  lemma {:induction false} SendsAreLegal(w: Writer, f: Floors, tail: seq<Event>)
    requires !w.closed && !w.ended && forall q :: q in w.queue ==> q.time + w.base < 0x1_0000_0000
    requires Legal(Run(w, Sends(|w.queue|)), f, tail)
    ensures Legal(w, f, Sends(|w.queue|) + tail)
    decreases |w.queue|
  {
    var n := |w.queue|;
    if n == 0 {
      assert Sends(0) + tail == tail;
    } else {
      var next := SentOne(w, true);
      assert w.queue[0] in w.queue && next.queue == w.queue[1..];
      assert Sends(n) == [Send(true)] + Sends(n - 1) && (Sends(n) + tail)[1..] == Sends(n - 1) + tail;
      SendsAreLegal(next, f, tail);
    }
  }

  lemma LastTwoAreLegal(e: Writer, k: Packet)
    requires e.queue == [] && !e.closed && !e.ended && k.time == 0
    ensures Legal(e, Floors(0, 0), [Write(k), Send(true)])
  {
    var es := [Write(k), Send(true)];
    var e1, f1 := Offered(e, k).0, Raise(Floors(0, 0), k);
    assert es[1..] == [Send(true)] && [Send(true)][1..] == [];
    assert Legal(SentOne(e1, true), f1, []);
    assert Legal(e1, f1, [Send(true)]);
  }

  lemma RestartIsLegal(b: Writer, kind: Kind)
    requires !b.closed && !b.ended && forall q :: q in b.queue ==> q.time + b.base < 0x1_0000_0000
    ensures Legal(b, Floors(0, 0), Restart(|b.queue|, kind))
  {
    hide Legal, Run, Sends;
    Emptied(b);
    LastTwoAreLegal(Run(b, Sends(|b.queue|)), Packet(if kind.Video? then Video(true) else kind, false, 0, 0, 0));
    SendsAreLegal(b, Floors(0, 0),
                  [Write(Packet(if kind.Video? then Video(true) else kind, false, 0, 0, 0)), Send(true)]);
  }

  /**
   * At a hand-over of an open writer whose queue the new base does not make wrap: the queue is cleared if
   * and only if the timestamps stay in order whatever legal events follow.
   */
  lemma GuardExactly(w: Writer, f: Floors)
    requires TimeInv(w, f) && !w.closed && !w.ended
    requires forall q :: q in w.queue ==> q.time + MaxOf(w.lastAudio, w.lastVideo) < 0x1_0000_0000
    ensures Cleared(w.queue)
       <==> forall es | Legal(Rebased(w), Floors(0, 0), es) :: Monotone(Run(Rebased(w), es).sent)
  {
    hide Legal, Monotone, Run, TimeInv;
    var b := Rebased(w);
    if Cleared(w.queue) {
      HandOverKeepsTime(w, f);
      forall es | Legal(b, Floors(0, 0), es) ensures Monotone(Run(b, es).sent) {
        NeverDecreasing(b, Floors(0, 0), es);
      }
    } else {
      var q :| q in w.queue && !q.kind.Metadata? && q.time != 0;
      var i :| 0 <= i < |w.queue| && w.queue[i] == q;
      DownFrom(b, i);
      RestartIsLegal(b, q.kind);
    }
  }
}
