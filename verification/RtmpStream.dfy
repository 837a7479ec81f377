/** The RtmpStream object: what its loop does for each case of the select, in place. */
module RtmpStreams {
  import opened Bytes
  import opened StreamWriters
  import opened Caches
  import opened Relay
  import opened RelayInvariant

  /** The writers of a list in which closed ones have been set to nil. */
  function Listed(slots: seq<Option<nat>>): (r: seq<nat>)
    ensures forall w :: w in r <==> Some(w) in slots
    ensures |r| <= |slots|
    decreases |slots|
  {
    if slots == [] then []
    else (if slots[0].Some? then [slots[0].value] else []) + Listed(slots[1..])
  }

  function Slots(list: seq<nat>): (r: seq<Option<nat>>)
    ensures |r| == |list|
  {
    seq(|list|, i requires 0 <= i < |list| => Some(list[i]))
  }

  lemma {:induction false} ListedSlots(list: seq<nat>)
    ensures Listed(Slots(list)) == list
    decreases |list|
  {
    if list != [] {
      assert Slots(list)[1..] == Slots(list[1..]);
      ListedSlots(list[1..]);
    }
  }

  lemma {:induction false} ListedAppend(a: seq<Option<nat>>, b: seq<Option<nat>>)
    ensures Listed(a + b) == Listed(a) + Listed(b)
    decreases |a|
  {
    if a == [] {
      assert a + b == b;
    } else {
      assert (a + b)[1..] == a[1..] + b;
      ListedAppend(a[1..], b);
    }
  }

  lemma {:induction false} StillOpenSnoc(ws: map<nat, Writer>, list: seq<nat>, w: nat)
    requires w in ws && forall x :: x in list ==> x in ws
    ensures StillOpen(ws, list + [w]) == StillOpen(ws, list) + if ws[w].closed then [] else [w]
    decreases |list|
  {
    if list == [] {
      assert [] + [w] == [w] && [w][1..] == [];
    } else {
      assert (list + [w])[1..] == list[1..] + [w];
      StillOpenSnoc(ws, list[1..], w);
      Regroup(if ws[list[0]].closed then [] else [list[0]], StillOpen(ws, list[1..]), if ws[w].closed then [] else [w]);
    }
  }

  lemma {:induction false} StillOpenSame(ws: map<nat, Writer>, vs: map<nat, Writer>, list: seq<nat>)
    requires forall x :: x in list ==> x in ws && x in vs && ws[x].closed == vs[x].closed
    ensures StillOpen(ws, list) == StillOpen(vs, list)
    decreases |list|
  {
    if list != [] {
      StillOpenSame(ws, vs, list[1..]);
    }
  }

  lemma OneSlot(x: Option<nat>)
    ensures Listed([x]) == if x.Some? then [x.value] else []
  {
    assert [x][1..] == [];
  }

  // ---------- the two loops that change the list ----------

  /** Writing to the first i writers of the list is done; ws0 is where it started. */
  ghost predicate Written(ws0: map<nat, Writer>, ws: map<nat, Writer>, list: seq<nat>,
                          slots: seq<Option<nat>>, i: nat, pkt: Packet)
    requires forall w :: w in list ==> w in ws0
  {
    && ws.Keys == ws0.Keys && i <= |list| == |slots|
    && (forall k :: i <= k < |list| ==> slots[k] == Some(list[k]))
    && Broadcast(ws, list[i..], pkt) == Broadcast(ws0, list, pkt)
    && Listed(slots[..i]) == StillOpen(ws, list[..i])
  }

  lemma WrittenNone(ws: map<nat, Writer>, list: seq<nat>, pkt: Packet)
    requires forall w :: w in list ==> w in ws
    ensures Written(ws, ws, list, Slots(list), 0, pkt)
  {
    assert list[0..] == list;
  }

  lemma WrittenAll(ws0: map<nat, Writer>, ws: map<nat, Writer>, list: seq<nat>, slots: seq<Option<nat>>, pkt: Packet)
    requires (forall w :: w in list ==> w in ws0) && Written(ws0, ws, list, slots, |list|, pkt)
    ensures ws == Broadcast(ws0, list, pkt) && Listed(slots) == StillOpen(ws, list)
  {
    assert slots[..|list|] == slots && list[..|list|] == list && list[|list|..] == [];
  }

  lemma CutAt<T>(s: seq<T>, i: nat)
    requires i < |s|
    ensures s[i..] == [s[i]] + s[i + 1..] && s[i..][1..] == s[i + 1..] && s[..i + 1] == s[..i] + [s[i]]
  {
  }

  lemma NotBefore(list: seq<nat>, i: nat)
    requires NoRepeats(list) && i < |list|
    ensures list[i] !in list[..i] && list[i] !in list[i + 1..]
  {
  }

  lemma WrittenStep(ws0: map<nat, Writer>, ws: map<nat, Writer>, list: seq<nat>,
                    slots: seq<Option<nat>>, i: nat, pkt: Packet)
    requires (forall w :: w in list ==> w in ws0) && NoRepeats(list)
    requires Written(ws0, ws, list, slots, i, pkt) && i < |list|
    ensures slots[i] == Some(list[i]) && list[i] in ws
    ensures var (w1, ok) := Offered(ws[list[i]], pkt);
      Written(ws0, ws[list[i] := if ok then w1 else Closed(w1)], list,
              if ok then slots else slots[i := None], i + 1, pkt)
  {
    var w := list[i];
    assert w in list;
    hide Offered, NoRepeats, Slots;
    var (w1, ok) := Offered(ws[w], pkt);
    var vs, ts := ws[w := if ok then w1 else Closed(w1)], if ok then slots else slots[i := None];
    OpenStays(ws[w], pkt);
    NotBefore(list, i);
    CutAt(list, i);
    CutAt(ts, i);
    assert ts[..i] == slots[..i];
    StillOpenSame(ws, vs, list[..i]);
    StillOpenSnoc(vs, list[..i], w);
    ListedAppend(slots[..i], [ts[i]]);
    OneSlot(ts[i]);
  }

  /** The first i places are present, and no number has been lost. */
  ghost predicate Compacted(start: seq<Option<nat>>, slots: seq<Option<nat>>, i: nat)
    requires i <= |slots|
  {
    slots[..i] == Slots(Listed(slots[..i])) && Listed(slots[..i]) + Listed(slots[i..]) == Listed(start)
  }

  lemma CompactStart(slots: seq<Option<nat>>)
    ensures Compacted(slots, slots, 0)
  {
    assert slots[0..] == slots && slots[..0] == [];
    assert [] + Listed(slots) == Listed(slots);
  }

  lemma CompactEnd(start: seq<Option<nat>>, slots: seq<Option<nat>>)
    requires Compacted(start, slots, |slots|)
    ensures slots == Slots(Listed(start))
  {
    assert slots[..|slots|] == slots && slots[|slots|..] == [];
    assert Listed(slots) + [] == Listed(slots);
  }

  lemma CompactStep(start: seq<Option<nat>>, slots: seq<Option<nat>>, i: nat)
    requires i < |slots| && Compacted(start, slots, i)
    ensures if slots[i] == None then Compacted(start, slots[..i] + slots[i + 1..], i)
        else Compacted(start, slots, i + 1)
  {
    CutAt(slots, i);
    ListedAppend([slots[i]], slots[i + 1..]);
    OneSlot(slots[i]);
    hide Listed, Slots;
    var a, b := Listed(slots[..i]), Listed(slots[i + 1..]);
    if slots[i] == None {
      CutParts(slots, i);
      assert [] + b == b;
    } else {
      var x := slots[i].value;
      CutAt(slots, i);
      ListedAppend(slots[..i], [slots[i]]);
      Around(a, x, b);
    }
  }

  lemma CutParts<T>(slots: seq<T>, i: nat)
    requires i < |slots|
    ensures var ts := slots[..i] + slots[i + 1..]; ts[..i] == slots[..i] && ts[i..] == slots[i + 1..]
  {
  }

  lemma Around(a: seq<nat>, x: nat, b: seq<nat>)
    ensures a + ([x] + b) == (a + [x]) + b && Slots(a + [x]) == Slots(a) + [Some(x)]
  {
    assert a + ([x] + b) == (a + [x]) + b;
  }

  /** The list without its place i. */
  function CutOut(slots: seq<Option<nat>>, i: nat): (r: seq<Option<nat>>)
    requires i < |slots|
    ensures |r| == |slots| - 1
  {
    slots[..i] + slots[i + 1..]
  }

  /** Removing the dead among the first done writers is over; the list now has i places in front of the rest. */
  ghost predicate Removed(ws0: map<nat, Writer>, ws: map<nat, Writer>, list: seq<nat>, slots: seq<Option<nat>>,
                          i: nat, done: nat, dead: set<nat>)
  {
    && NoRepeats(list) && (forall w :: w in list ==> w in ws0) && (forall w :: w in dead ==> w in list)
    && i <= |slots| && done <= |list| && slots[i..] == Slots(list[done..])
    && slots[..i] == Slots(Without(list[..done], dead))
    && ws.Keys == ws0.Keys
    && forall w :: w in ws0 ==> ws[w] == if w in list[..done] && w in dead then Closed(ws0[w]) else ws0[w]
  }

  lemma {:induction false} WithoutSnoc(list: seq<nat>, dead: set<nat>, w: nat)
    ensures Without(list + [w], dead) == Without(list, dead) + if w in dead then [] else [w]
    decreases |list|
  {
    if list != [] {
      assert (list + [w])[1..] == list[1..] + [w];
      WithoutSnoc(list[1..], dead, w);
    }
  }

  lemma RemovedStep(ws0: map<nat, Writer>, ws: map<nat, Writer>, list: seq<nat>, slots: seq<Option<nat>>,
                    i: nat, done: nat, dead: set<nat>)
    requires Removed(ws0, ws, list, slots, i, done, dead) && i < |slots|
    ensures done < |list| && slots[i] == Some(list[done]) && list[done] in ws
    ensures var w := list[done];
      if w in dead then Removed(ws0, ws[w := Closed(ws[w])], list, CutOut(slots, i), i, done + 1, dead)
      else Removed(ws0, ws, list, slots, i + 1, done + 1, dead)
  {
    hide Closed, Without;
    assert |slots[i..]| == |list[done..]|;
    var w := list[done];
    assert slots[i..][0] == slots[i] && list[done..][0] == w && w in list;
    assert list[..done + 1] == list[..done] + [w];
    WithoutSnoc(list[..done], dead, w);
    assert slots[i..][1..] == slots[i + 1..] && list[done..][1..] == list[done + 1..];
    NotBefore(list, done);
    if w in dead {
      var ts := slots[..i] + slots[i + 1..];
      assert ts[..i] == slots[..i] && ts[i..] == slots[i + 1..];
      assert Without(list[..done], dead) + [] == Without(list[..done], dead);
    } else {
      assert slots[..i + 1] == slots[..i] + [Some(w)];
    }
  }

  lemma RemovedNone(ws: map<nat, Writer>, list: seq<nat>, dead: set<nat>)
    requires NoRepeats(list) && (forall w :: w in list ==> w in ws) && forall w :: w in dead ==> w in list
    ensures Removed(ws, ws, list, Slots(list), 0, 0, dead)
  {
    assert list[0..] == list && Slots(list)[0..] == Slots(list) && Slots(list)[..0] == Slots([]) && list[..0] == [];
  }

  lemma RemovedAll(ws0: map<nat, Writer>, ws: map<nat, Writer>, list: seq<nat>, slots: seq<Option<nat>>,
                   done: nat, dead: set<nat>)
    requires Removed(ws0, ws, list, slots, |slots|, done, dead)
    ensures slots == Slots(Without(list, dead)) && ws == CloseAll(ws0, dead)
  {
    assert slots[|slots|..] == [] && slots[..|slots|] == slots;
    assert |list[done..]| == 0 && list[..done] == list;
  }

  lemma JoinedNoRepeats(list: seq<nat>, w: nat)
    requires NoRepeats(list) && w !in list
    ensures NoRepeats(list + [w]) && Slots(list + [w]) == Slots(list) + [Some(w)]
  {
  }

  class RtmpStream {
    var phase: Phase
    var reader: Option<nat>
    var session: nat
    var running: bool
    var held: Option<Packet>
    var pktChan: seq<Packet>
    var writers: seq<Option<nat>>
    var ws: map<nat, Writer>
    var writerChan: set<nat>
    var readerChan: set<nat>
    ghost var accepted: set<nat>
    var log: seq<Packet>
    var closedReaders: set<nat>
    ghost var list: seq<nat>
    const cache: Cache

    ghost function State(): Relay.State
      reads this
    {
      Relay.State(phase, reader, session, running, held, pktChan, list, ws, accepted, log,
                  writerChan, readerChan, closedReaders)
    }

    ghost predicate Valid()
      reads this, cache
    {
      && Known(State()) && NoRepeats(list) && writers == Slots(list)
      && cache.State() == CacheOf(log) && forall w :: w in list ==> w !in writerChan
    }

    constructor ()
      ensures State() == START && Valid() && fresh(cache)
    {
      cache := new Cache();
      phase, reader, session, running, held, pktChan := Looping, None, 0, false, None, [];
      writers, ws, writerChan, readerChan, closedReaders := [], map[], {}, {}, {};
      accepted, log, list := {}, [], [];
    }

    /** case pkt := <-s.pktChan */
    method OnPacket()
      requires Valid() && Enabled(State(), Deliver)
      modifies this
      ensures State() == Next(old(State()), Deliver) && Valid()
    {
      hide Broadcast, StillOpen, NoRepeats, Slots;
      var pkt := pktChan[0];
      pktChan := pktChan[1..];
      WriteAll(pkt);
      FilteredNoRepeats(ws, list, {});
      list := StillOpen(ws, list);
    }

    /** The loop over the writers: one that gives an error is closed, set to nil, and taken out afterwards. */
    method WriteAll(pkt: Packet)
      requires Valid()
      modifies `writers, `ws
      ensures ws == Broadcast(old(ws), list, pkt) && writers == Slots(StillOpen(ws, list))
    {
      hide Offered, Written, Slots, Listed, Broadcast, StillOpen, NoRepeats;
      assert |writers| == |list|;
      ghost var ws0 := ws;
      var bRemove := false;
      WrittenNone(ws, list, pkt);
      for i := 0 to |writers|
        invariant |writers| == |list| && Written(ws0, ws, list, writers, i, pkt)
        invariant !bRemove ==> writers == Slots(list)
      {
        WrittenStep(ws0, ws, list, writers, i, pkt);
        var w := writers[i].value;
        var (w1, ok) := Offered(ws[w], pkt);
        if !ok {
          w1 := Closed(w1);
          writers := writers[i := None];
          bRemove := true;
        }
        ws := ws[w := w1];
      }
      WrittenAll(ws0, ws, list, writers, pkt);
      ListedSlots(list);
      if bRemove {
        Compact();
      }
    }

    /** Taking the nil places out of the list, keeping the order. */
    method Compact()
      modifies `writers
      ensures writers == Slots(Listed(old(writers)))
    {
      hide Listed;
      var i := 0;
      ghost var slots := writers;
      CompactStart(slots);
      while i < |writers|
        invariant 0 <= i <= |writers| && Compacted(slots, writers, i)
        decreases |writers| - i
      {
        CompactStep(slots, writers, i);
        if writers[i] == None {
          writers := writers[..i] + writers[i + 1..];
        } else {
          i := i + 1;
        }
      }
      CompactEnd(slots, writers);
    }

    /**
     * case w := <-s.writerChan: first what the cache sends. Sending on the channel of a player who has
     * already closed it is the end of the process.
     */
    method OnWriter(w: nat, lateWriters: set<nat>, lateReaders: set<nat>)
      requires Valid() && Enabled(State(), Join(w, lateWriters, lateReaders))
      modifies this
      ensures State() == Next(old(State()), Join(w, lateWriters, lateReaders)) && Valid()
    {
      hide NoRepeats, Relay.CloseStream, ToSend, CacheOf;
      writerChan := writerChan - {w};
      if cache.State() != NOTHING && ws[w].closed {
        phase := Crashed;
        return;
      }
      var queue, sent := cache.Send(ws[w].queue);
      if sent {
        Accept(w, queue);
      } else {
        assert queue == ws[w].queue + ToSend(CacheOf(log))[..Room(ws[w], ToSend(CacheOf(log)))];
        Refuse(w, queue, lateWriters, lateReaders);
      }
    }

    method Accept(w: nat, queue: seq<Packet>)
      requires Valid() && w in ws && w !in list && w !in writerChan
      modifies `writers, `list, `accepted, `ws
      ensures var s := old(State());
        State() == s.(ws := s.ws[w := s.ws[w].(queue := queue)], writers := s.writers + [w],
                  accepted := s.accepted + {w})
      ensures Valid()
    {
      hide NoRepeats;
      JoinedNoRepeats(list, w);
      ws := ws[w := ws[w].(queue := queue)];
      writers := writers + [Some(w)];
      list := list + [w];
      accepted := accepted + {w};
    }

    method Refuse(w: nat, queue: seq<Packet>, lateWriters: set<nat>, lateReaders: set<nat>)
      requires Valid() && w in ws
      modifies this
      ensures var s := old(State());
        State() == Relay.CloseStream(s.(ws := s.ws[w := Closed(s.ws[w].(queue := queue))]), lateWriters, lateReaders)
      ensures Valid()
    {
      hide NoRepeats, Slots, Relay.CloseStream;
      ghost var s := State();
      ws := ws[w := ws[w].(queue := queue)];
      ws := ws[w := Closed(ws[w])];
      assert ws == s.ws[w := Closed(s.ws[w].(queue := queue))];
      CloseStream(lateWriters, lateReaders);
    }

    /** case r := <-s.readerChan, up to the wait for the old publisher's goroutine. */
    method OnReader(r: nat)
      requires Valid() && Enabled(State(), Take(r))
      modifies this
      ensures State() == Next(old(State()), Take(r)) && Valid()
    {
      readerChan := readerChan - {r};
      if reader.Some? {
        closedReaders := closedReaders + {reader.value};
        phase := Waiting(r);
      } else {
        reader := Some(r);
        running := true;
      }
    }

    /** The rest of the hand-over: drain the channel, rebase every writer, start the new publisher. */
    method FinishHandOver()
      requires Valid() && Enabled(State(), Finish)
      modifies this
      ensures State() == Next(old(State()), Finish) && Valid()
    {
      hide NoRepeats, RebaseAll, Slots;
      DrainChannel();
      RebaseEach();
      StartNext(phase.next);
    }

    method StartNext(r: nat)
      requires Valid()
      modifies `phase, `reader, `session, `running
      ensures State() == old(State()).(phase := Looping, reader := Some(r),
                             session := old(session) + 1, running := true)
      ensures Valid()
    {
      hide NoRepeats, Slots;
      reader := Some(r);
      phase := Looping;
      session := session + 1;
      running := true;
    }

    method DrainChannel()
      modifies `pktChan
      ensures pktChan == []
    {
      while |pktChan| > 0
        decreases |pktChan|
      {
        pktChan := pktChan[1..];
      }
    }

    method RebaseEach()
      requires Valid()
      modifies `ws
      ensures ws == RebaseAll(old(ws), list)
    {
      hide Rebased, NoRepeats;
      ghost var ws0 := ws;
      assert list[0..] == list;
      for i := 0 to |writers|
        invariant ws.Keys == ws0.Keys && Slots(list) == writers
        invariant RebaseAll(ws, list[i..]) == RebaseAll(ws0, list)
      {
        var w := writers[i].value;
        assert w == list[i] && w in list && list[i..][1..] == list[i + 1..];
        ws := ws[w := Rebased(ws[w])];
      }
    }

    /** case <-checkTicker.C: dead are the writers that are no longer alive. */
    method OnTick(alive: bool, dead: set<nat>, lateWriters: set<nat>, lateReaders: set<nat>)
      requires Valid() && Enabled(State(), Tick(alive, dead, lateWriters, lateReaders))
      modifies this
      ensures State() == Next(old(State()), Tick(alive, dead, lateWriters, lateReaders)) && Valid()
    {
      if reader == None || !alive {
        CloseStream(lateWriters, lateReaders);
      } else {
        hide NoRepeats, Slots, Without, CloseAll;
        RemoveDead(dead);
        FilteredNoRepeats(ws, list, dead);
        list := Without(list, dead);
      }
    }

    method RemoveDead(dead: set<nat>)
      requires Valid() && forall w :: w in dead ==> w in list
      modifies `writers, `ws
      ensures writers == Slots(Without(list, dead)) && ws == CloseAll(old(ws), dead)
    {
      RemovedNone(ws, list, dead);
      hide Known, Removed, Slots, NoRepeats, Without, CloseAll;
      ghost var done := RemoveEach(dead);
      RemovedAll(old(ws), ws, list, writers, done, dead);
    }

    method RemoveEach(dead: set<nat>) returns (ghost done: nat)
      requires Removed(ws, ws, list, writers, 0, 0, dead)
      modifies `writers, `ws
      ensures Removed(old(ws), ws, list, writers, |writers|, done, dead)
    {
      hide Removed, Slots, Without, Closed, CutOut;
      var i := 0;
      done := 0;
      while i < |writers|
        invariant 0 <= i <= |writers| && Removed(old(ws), ws, list, writers, i, done, dead)
        decreases |writers| - i
      {
        RemovedStep(old(ws), ws, list, writers, i, done, dead);
        if writers[i].value in dead {
          TakeOut(i);
        } else {
          i := i + 1;
        }
        done := done + 1;
      }
    }

    /** Takes the writer out of the list and closes it. */
    method TakeOut(i: nat)
      requires i < |writers| && writers[i].Some? && writers[i].value in ws
      modifies `writers, `ws
      ensures writers == CutOut(old(writers), i)
      ensures var w := old(writers[i].value); ws == old(ws)[w := Closed(old(ws)[w])]
    {
      var w := writers[i].value;
      writers := writers[..i] + writers[i + 1..];
      ws := ws[w := Closed(ws[w])];
    }

    /** The deferred close: late are the writers and publishers found waiting in the channels. */
    method CloseStream(lateWriters: set<nat>, lateReaders: set<nat>)
      requires Valid()
      modifies this
      ensures State() == Relay.CloseStream(old(State()), lateWriters, lateReaders) && Valid()
    {
      hide NoRepeats, Slots, CloseAll, CacheOf;
      CloseReaders(lateWriters, lateReaders);
      CloseListed(lateWriters);
    }

    /** The publisher, and what is still waiting in the two channels. */
    method CloseReaders(lateWriters: set<nat>, lateReaders: set<nat>)
      requires Valid()
      modifies `phase, `closedReaders, `readerChan, `writerChan
      ensures Valid()
      ensures var s := old(State());
        State() == s.(phase := Exited, pendingWriters := s.pendingWriters - lateWriters,
                      pendingReaders := s.pendingReaders - lateReaders,
                      closedReaders := s.closedReaders + (if s.reader.Some? then {s.reader.value} else {})
                                       + lateReaders)
    {
      hide NoRepeats, Slots, CacheOf;
      if reader.Some? {
        closedReaders := closedReaders + {reader.value};
      } else {
        assert closedReaders + {} == closedReaders;
      }
      closedReaders := closedReaders + lateReaders;
      readerChan := readerChan - lateReaders;
      writerChan := writerChan - lateWriters;
      phase := Exited;
    }

    method CloseListed(lateWriters: set<nat>)
      requires Valid()
      modifies `ws
      ensures ws == CloseAll(old(ws), lateWriters + set w | w in list) && Valid()
    {
      hide NoRepeats, Slots, CloseAll, CacheOf;
      ghost var ws0 := ws;
      CloseEach(lateWriters);
      CloseWriters();
      CloseBoth(ws0, lateWriters, set w | w in list);
    }

    lemma CloseBoth(ws0: map<nat, Writer>, a: set<nat>, b: set<nat>)
      ensures CloseAll(CloseAll(ws0, a), b) == CloseAll(ws0, a + b)
    {
    }

    method CloseWriters()
      requires Valid()
      modifies `ws
      ensures ws == CloseAll(old(ws), set w | w in list)
    {
      hide NoRepeats;
      for i := 0 to |writers|
        invariant writers == Slots(list) && ws.Keys == old(ws).Keys
        invariant forall w :: w in ws ==> ws[w] == if w in list[..i] then Closed(old(ws)[w]) else old(ws)[w]
      {
        var w := writers[i].value;
        assert w == list[i] && w in list && list[..i + 1] == list[..i] + [w];
        ws := ws[w := Closed(ws[w])];
      }
      assert list[..|writers|] == list;
    }

    method CloseEach(which: set<nat>)
      modifies `ws
      ensures ws == CloseAll(old(ws), which)
    {
      var rest := which;
      while rest != {}
        invariant rest <= which && ws == CloseAll(old(ws), which - rest)
        decreases |rest|
      {
        var w :| w in rest;
        if w in ws {
          ws := ws[w := Closed(ws[w])];
        }
        rest := rest - {w};
      }
    }

    // ---------- the publisher's goroutine ----------

    /** One turn of startRead, up to the cache. */
    method ReadPacket(kind: Kind, header: bool, time: U32)
      requires Valid() && Enabled(State(), Read(kind, header, time))
      modifies this, cache
      ensures State() == Next(old(State()), Read(kind, header, time)) && Valid()
    {
      hide NoRepeats, Slots, Keep;
      var pkt := Packet(kind, header, time, |log|, session);
      cache.Write(pkt);
      KeepLast(log, pkt);
      held := Some(pkt);
      log := log + [pkt];
    }

    /** select { case s.pktChan <- pkt: default: } */
    method PushPacket()
      requires Valid() && Enabled(State(), Push)
      modifies this
      ensures State() == Next(old(State()), Push) && Valid()
    {
      if |pktChan| < CHANNEL {
        pktChan := pktChan + [held.value];
      }
      held := None;
    }
  }
}
