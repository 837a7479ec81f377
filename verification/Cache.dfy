/** The stream's cache: the last metadata and the last sequence headers, which a joining player is sent first. */
module Caches {
  import opened Bytes
  import opened StreamWriters

  datatype Contents = Contents(metadata: Option<Packet>, videoSeq: Option<Packet>, audioSeq: Option<Packet>)

  const NOTHING: Contents := Contents(None, None, None)

  /** Metadata, and the sequence headers of AAC and, as key frames, of H.264. */
  predicate Cacheable(kind: Kind, header: bool) {
    kind.Metadata? || (header && kind != Video(false))
  }

  function Keep(c: Contents, p: Packet): Contents {
    if !Cacheable(p.kind, p.header) then c
    else
      match p.kind
      case Metadata => c.(metadata := Some(p))
      case Video(_) => c.(videoSeq := Some(p))
      case Audio => c.(audioSeq := Some(p))
  }

  /** What the cache holds after the packets of a log. */
  function CacheOf(log: seq<Packet>): Contents {
    if log == [] then NOTHING else Keep(CacheOf(log[..|log| - 1]), log[|log| - 1])
  }

  function One(o: Option<Packet>): (ps: seq<Packet>)
    ensures |ps| <= 1
  {
    if o.Some? then [o.value] else []
  }

  function ToSend(c: Contents): (ps: seq<Packet>)
    ensures |ps| <= 3
    ensures ps == [] <==> c == NOTHING
  {
    One(c.metadata) + One(c.videoSeq) + One(c.audioSeq)
  }

  // ---------- the object ----------

  class Cache {
    var metadata: Option<Packet>
    var videoSeq: Option<Packet>
    var audioSeq: Option<Packet>

    function State(): Contents
      reads this
    {
      Contents(metadata, videoSeq, audioSeq)
    }

    constructor ()
      ensures State() == NOTHING
    {
      metadata, videoSeq, audioSeq := None, None, None;
    }

    method Write(p: Packet)
      modifies this
      ensures State() == Keep(old(State()), p)
    {
      match p.kind {
        case Audio =>
          if p.header {
            audioSeq := Some(p);
          }
        case Video(key) =>
          if key && p.header {
            videoSeq := Some(p);
          }
        case Metadata =>
          metadata := Some(p);
      }
    }

    /** Fails on the first packet that finds the queue full. */
    method Send(before: seq<Packet>) returns (queue: seq<Packet>, sent: bool)
      ensures var cached := ToSend(State());
        && (sent <==> cached == [] || |before| + |cached| <= MAX_QUEUE_NUM)
        && queue == before + if sent then cached
                             else if |before| >= MAX_QUEUE_NUM then []
                             else cached[..MAX_QUEUE_NUM - |before|]
    {
      var cachePkts := [];
      if metadata.Some? {
        cachePkts := cachePkts + [metadata.value];
      }
      if videoSeq.Some? {
        cachePkts := cachePkts + [videoSeq.value];
      }
      if audioSeq.Some? {
        cachePkts := cachePkts + [audioSeq.value];
      }
      assert cachePkts == ToSend(State());
      queue, sent := Feed(before, cachePkts);
    }
  }

  /** The loop of Send: one packet after the other, as long as the queue takes them. */
  method Feed(before: seq<Packet>, cachePkts: seq<Packet>) returns (queue: seq<Packet>, sent: bool)
    ensures sent <==> cachePkts == [] || |before| + |cachePkts| <= MAX_QUEUE_NUM
    ensures queue == before + if sent then cachePkts
                              else if |before| >= MAX_QUEUE_NUM then []
                              else cachePkts[..MAX_QUEUE_NUM - |before|]
  {
    queue := before;
    for i := 0 to |cachePkts|
      invariant queue == before + cachePkts[..i] && (i > 0 ==> |queue| <= MAX_QUEUE_NUM)
    {
      if |queue| >= MAX_QUEUE_NUM { return queue, false; }
      queue := queue + [cachePkts[i]];
    }
    return queue, true;
  }

  // ---------- what it holds ----------

  lemma KeepLast(log: seq<Packet>, p: Packet)
    ensures CacheOf(log + [p]) == Keep(CacheOf(log), p)
  {
    assert (log + [p])[..|log|] == log;
  }

  /** The cache holds something exactly when there has been something for it, and it is never emptied. */
  lemma {:induction false} HoldsExactly(log: seq<Packet>)
    ensures CacheOf(log) != NOTHING <==> exists i :: 0 <= i < |log| && Cacheable(log[i].kind, log[i].header)
  {
    if log != [] {
      var n := |log| - 1;
      HoldsExactly(log[..n]);
      if i :| 0 <= i < n && Cacheable(log[..n][i].kind, log[..n][i].header) {
        assert log[i] == log[..n][i];
      }
    }
  }

  predicate SameSlot(a: Kind, b: Kind) {
    a.Video? == b.Video? && a.Audio? == b.Audio?
  }

  /** p is for the cache, and takes the place of q. */
  predicate Replaces(p: Packet, q: Packet) {
    Cacheable(p.kind, p.header) && SameSlot(p.kind, q.kind)
  }

  /** The packet at i is for the cache, and none behind it takes its place. */
  ghost predicate Latest(log: seq<Packet>, i: nat) {
    i < |log| && Cacheable(log[i].kind, log[i].header) && forall j :: i < j < |log| ==> !Replaces(log[j], log[i])
  }

  /** What is sent is the latest of each kind, and nothing else. */
  lemma {:induction false} SendsTheLatest(log: seq<Packet>, p: Packet)
    ensures p in ToSend(CacheOf(log)) <==> exists i: nat :: Latest(log, i) && log[i] == p
  {
    if log != [] {
      var n := |log| - 1;
      var front, last := log[..n], log[n];
      SendsTheLatest(front, p);
      SlotsOf(front);
      KeepSends(CacheOf(front), last, p);
      forall i: nat | i < n ensures Latest(log, i) <==> Latest(front, i) && !Replaces(last, log[i]) {
        LatestBefore(log, i);
      }
      hide Latest, Keep, ToSend, Replaces;
      assert Latest(log, n) <==> Cacheable(last.kind, last.header) by { LatestLast(log); }
      if i: nat :| Latest(front, i) && front[i] == p && !Replaces(last, p) {
        LatestIn(front, i);
        assert log[i] == p && Latest(log, i);
      }
      if i: nat :| Latest(log, i) && log[i] == p {
        LatestIn(log, i);
        if i < n {
          assert Latest(front, i) && front[i] == p;
        }
      }
    }
  }

  lemma LatestIn(log: seq<Packet>, i: nat)
    requires Latest(log, i)
    ensures i < |log|
  {
  }

  lemma LatestLast(log: seq<Packet>)
    requires log != []
    ensures Latest(log, |log| - 1) <==> Cacheable(log[|log| - 1].kind, log[|log| - 1].header)
  {
  }

  lemma LatestBefore(log: seq<Packet>, i: nat)
    requires i + 1 < |log|
    ensures Latest(log, i) <==> Latest(log[..|log| - 1], i) && !Replaces(log[|log| - 1], log[i])
  {
    var front := log[..|log| - 1];
    assert forall j :: 0 <= j < |front| ==> front[j] == log[j];
  }

  /** Metadata come first, then video, then audio. */
  function Place(kind: Kind): nat {
    if kind.Metadata? then 0 else if kind.Video? then 1 else 2
  }

  /** A joining player is sent at most one packet of each kind, in this order. */
  lemma SendsInOrder(log: seq<Packet>)
    ensures var ps := ToSend(CacheOf(log));
      forall i, j :: 0 <= i < j < |ps| ==> Place(ps[i].kind) < Place(ps[j].kind)
  {
    SlotsOf(log);
    hide CacheOf;
  }

  /** Each slot holds packets of its own kind. */
  predicate InSlots(c: Contents) {
    && (c.metadata.Some? ==> c.metadata.value.kind.Metadata?)
    && (c.videoSeq.Some? ==> c.videoSeq.value.kind == Video(true))
    && (c.audioSeq.Some? ==> c.audioSeq.value.kind == Audio)
  }

  lemma {:induction false} SlotsOf(log: seq<Packet>)
    ensures InSlots(CacheOf(log))
  {
    if log != [] {
      SlotsOf(log[..|log| - 1]);
    }
  }

  lemma KeepSends(c: Contents, p: Packet, q: Packet)
    requires InSlots(c)
    ensures q in ToSend(Keep(c, p))
       <==> (q == p && Cacheable(p.kind, p.header)) || (q in ToSend(c) && !Replaces(p, q))
  {
  }
}
