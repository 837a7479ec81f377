/** What every step of the relay keeps. */
module RelayInvariant {
  import opened Bytes
  import opened StreamWriters
  import opened Relay

  predicate Increasing(ps: seq<Packet>) {
    forall i, j :: 0 <= i < j < |ps| ==> ps[i].at < ps[j].at
  }

  /** Packets of the log, each at its own place. */
  predicate FromLog(log: seq<Packet>, ps: seq<Packet>) {
    forall i :: 0 <= i < |ps| ==> ps[i].at < |log| && log[ps[i].at] == ps[i]
  }

  function Packets(offers: seq<Offer>): (ps: seq<Packet>)
    ensures |ps| == |offers|
  {
    seq(|offers|, i requires 0 <= i < |offers| => offers[i].packet)
  }

  /** What is on its way to the writers: the channel, and behind it the packet the goroutine holds. */
  function Coming(s: State): seq<Packet> {
    s.chan + if s.held.Some? then [s.held.value] else []
  }

  predicate Grouped(log: seq<Packet>) {
    forall i, j :: 0 <= i < j < |log| ==> log[i].session <= log[j].session
  }

  /** Everything on its way comes from the current publisher, and nothing newer has been offered yet. */
  predicate InOrder(s: State) {
    && FromLog(s.log, s.log) && Grouped(s.log)
    && (forall i :: 0 <= i < |s.log| ==> s.log[i].session <= s.session)
    && Increasing(Coming(s)) && FromLog(s.log, Coming(s))
    && (forall i :: 0 <= i < |Coming(s)| ==> Coming(s)[i].session == s.session)
    && (s.held.Some? ==> s.running)
  }

  predicate OfferedInOrder(s: State, w: Writer) {
    && Increasing(Packets(w.offers)) && FromLog(s.log, Packets(w.offers))
    && forall i, j :: 0 <= i < |w.offers| && 0 <= j < |Coming(s)| ==> w.offers[i].packet.at < Coming(s)[j].at
  }

  predicate NoRepeats(list: seq<nat>) {
    forall i, j :: 0 <= i < j < |list| ==> list[i] != list[j]
  }

  predicate Accounted(s: State) {
    && NoRepeats(s.writers) && Known(s)
    && (forall w :: w in s.writers ==> w in s.accepted)
    && (forall w :: w in s.accepted ==> w in s.ws && w !in s.pendingWriters)
    && (forall w :: w in s.pendingWriters ==> w in s.ws && s.ws[w].queue == [])
    && (forall w :: w in s.ws ==> w in s.writers || s.ws[w].closed || w in s.pendingWriters)
    && (forall w :: w in s.accepted ==> w in s.writers || s.ws[w].closed)
    && (s.phase == Exited ==> forall w :: w in s.accepted ==> s.ws[w].closed)
    && (s.phase == Exited ==> s.reader.Some? ==> s.reader.value in s.closedReaders)
    && (s.phase.Waiting? ==> s.reader.Some?)
  }

  predicate Inv(s: State) {
    && Accounted(s) && InOrder(s)
    && forall w :: w in s.ws ==> OfferedInOrder(s, s.ws[w]) && GateInv(s.ws[w])
  }

  // ---------- the loop over the writers ----------

  lemma {:induction false} BroadcastAt(ws: map<nat, Writer>, list: seq<nat>, p: Packet, w: nat)
    requires NoRepeats(list) && w in ws && forall x :: x in list ==> x in ws
    ensures Broadcast(ws, list, p)[w]
         == if w in list then (var (w1, ok) := Offered(ws[w], p); if ok then w1 else Closed(w1)) else ws[w]
    decreases |list|
  {
    if list != [] {
      hide Offered;
      var (w1, ok) := Offered(ws[list[0]], p);
      assert list[0] !in list[1..];
      BroadcastAt(ws[list[0] := if ok then w1 else Closed(w1)], list[1..], p, w);
    }
  }

  lemma {:induction false} RebaseAt(ws: map<nat, Writer>, list: seq<nat>, w: nat)
    requires NoRepeats(list) && w in ws && forall x :: x in list ==> x in ws
    ensures RebaseAll(ws, list)[w] == if w in list then Rebased(ws[w]) else ws[w]
    decreases |list|
  {
    if list != [] {
      hide Rebased;
      assert list[0] !in list[1..];
      RebaseAt(ws[list[0] := Rebased(ws[list[0]])], list[1..], w);
    }
  }

  lemma {:induction false} FilteredNoRepeats(ws: map<nat, Writer>, list: seq<nat>, dead: set<nat>)
    requires NoRepeats(list) && forall x :: x in list ==> x in ws
    ensures NoRepeats(StillOpen(ws, list)) && NoRepeats(Without(list, dead))
    decreases |list|
  {
    if list != [] {
      assert list[0] !in list[1..];
      FilteredNoRepeats(ws, list[1..], dead);
      assert list[0] !in StillOpen(ws, list[1..]) && list[0] !in Without(list[1..], dead);
    }
  }

  // ---------- steps on the way of the packets ----------

  lemma SameOffers(s: State, t: State, w: Writer, v: Writer)
    requires OfferedInOrder(s, w) && v.offers == w.offers
    requires |s.log| <= |t.log| && forall i :: 0 <= i < |s.log| ==> t.log[i] == s.log[i]
    requires forall p :: p in Coming(t) ==> p in Coming(s) || p.at >= |s.log|
    ensures OfferedInOrder(t, v)
  {
    forall i, j | 0 <= i < |w.offers| && 0 <= j < |Coming(t)| ensures w.offers[i].packet.at < Coming(t)[j].at {
      var p := Coming(t)[j];
      assert Packets(w.offers)[i].at < |s.log|;
      if p in Coming(s) {
        var k :| 0 <= k < |Coming(s)| && Coming(s)[k] == p;
      }
    }
  }

  /** Something leaves the way of the packets at either end, or nothing happens there. */
  lemma Shrinks(s: State, t: State, lo: nat, hi: nat)
    requires InOrder(s) && t.log == s.log && t.session == s.session && (t.held.Some? ==> t.running)
    requires lo <= hi <= |Coming(s)| && Coming(t) == Coming(s)[lo..hi]
    ensures InOrder(t) && forall p :: p in Coming(t) ==> p in Coming(s)
  {
    hide Coming;
    var c, d := Coming(s), Coming(t);
    forall i | 0 <= i < |d| ensures d[i] == c[lo + i] && d[i] in c {}
  }

  lemma Grows(s: State, t: State, p: Packet)
    requires InOrder(s) && t.log == s.log + [p] && t.session == s.session && t.running
    requires Coming(t) == Coming(s) + [p] && p.at == |s.log| && p.session == s.session
    ensures InOrder(t) && forall q :: q in Coming(t) ==> q in Coming(s) || q.at >= |s.log|
  {
    hide Coming;
    assert forall i :: 0 <= i < |s.log| ==> t.log[i] == s.log[i];
    assert forall i :: 0 <= i < |Coming(s)| ==> Coming(t)[i] == Coming(s)[i];
  }

  lemma Empties(s: State, t: State)
    requires InOrder(s) && t.log == s.log && t.session >= s.session && Coming(t) == [] && (t.held.Some? ==> t.running)
    ensures InOrder(t)
  {
    hide Coming;
  }

  lemma OrderStep(s: State, a: Action)
    requires Inv(s) && Enabled(s, a)
    ensures InOrder(Next(s, a))
    ensures |s.log| <= |Next(s, a).log| && forall i :: 0 <= i < |s.log| ==> Next(s, a).log[i] == s.log[i]
    ensures forall p :: p in Coming(Next(s, a)) ==> p in Coming(s) || p.at >= |s.log|
    ensures a == Deliver ==> Coming(Next(s, a)) == Coming(s)[1..] && Next(s, a).log == s.log
  {
    var t, c := Next(s, a), Coming(s);
    if a.Read? || a.Push? || a.Deliver? || a.Finish? {
      MovingStep(s, a);
    } else {
      QuietStep(s, a);
      hide Next, InOrder, Accounted;
      assert Coming(t) == c == c[0..|c|];
      Shrinks(s, t, 0, |c|);
    }
  }

  /** All other steps leave the way of the packets alone. */
  lemma QuietStep(s: State, a: Action)
    requires Inv(s) && Enabled(s, a) && !a.Read? && !a.Push? && !a.Deliver? && !a.Finish?
    ensures var t := Next(s, a);
      t.chan == s.chan && t.held == s.held && t.log == s.log && t.session == s.session && (t.held.Some? ==> t.running)
  {
    assert s.held.Some? ==> s.running;
    hide InOrder, Accounted, OfferedInOrder, GateInv, CloseAll, Without;
  }

  lemma MovingStep(s: State, a: Action)
    requires Inv(s) && Enabled(s, a) && (a.Read? || a.Push? || a.Deliver? || a.Finish?)
    ensures InOrder(Next(s, a))
    ensures |s.log| <= |Next(s, a).log| && forall i :: 0 <= i < |s.log| ==> Next(s, a).log[i] == s.log[i]
    ensures forall p :: p in Coming(Next(s, a)) ==> p in Coming(s) || p.at >= |s.log|
    ensures a == Deliver ==> Coming(Next(s, a)) == Coming(s)[1..] && Next(s, a).log == s.log
  {
    var t, c := Next(s, a), Coming(s);
    assert s.held.Some? ==> s.running;
    hide Broadcast, StillOpen, RebaseAll, OfferedInOrder, GateInv, InOrder, Accounted;
    match a
    case Read(kind, header, time) =>
      var p := Packet(kind, header, time, |s.log|, s.session);
      assert Coming(t) == c + [p];
      Grows(s, t, p);
    case Push =>
      var n := if |s.chan| < CHANNEL then |c| else |c| - 1;
      assert Coming(t) == c[0..n];
      Shrinks(s, t, 0, n);
    case Deliver =>
      assert Coming(t) == c[1..|c|];
      Shrinks(s, t, 1, |c|);
    case Finish =>
      Empties(s, t);
  }

  lemma AccountedStep(s: State, a: Action)
    requires Inv(s) && Enabled(s, a)
    ensures Accounted(Next(s, a))
  {
    assert Accounted(s);
    hide Accounted, Inv, Next, Enabled;
    match a
    case Deliver => DeliverAccounted(s);
    case Finish => FinishAccounted(s);
    case Tick(_, _, _, _) => TickAccounted(s, a);
    case Join(_, _, _) => JoinAccounted(s, a);
    case _ => OtherAccounted(s, a);
  }

  lemma TickAccounted(s: State, a: Action)
    requires Accounted(s) && a.Tick? && Enabled(s, a)
    ensures Accounted(Next(s, a))
  {
    hide NoRepeats;
    if s.reader == None || !a.alive {
      ExitAccounted(s, a.lateWriters, a.lateReaders);
    } else {
      FilteredNoRepeats(s.ws, s.writers, a.dead);
    }
  }

  lemma OtherAccounted(s: State, a: Action)
    requires Accounted(s) && Enabled(s, a) && !a.Deliver? && !a.Finish? && !a.Tick? && !a.Join?
    ensures Accounted(Next(s, a))
  {
    hide NoRepeats;
  }

  lemma DeliverAccounted(s: State)
    requires Accounted(s) && Enabled(s, Deliver)
    ensures Accounted(Next(s, Deliver))
  {
    hide NoRepeats, Offered, Broadcast;
    var t := Next(s, Deliver);
    FilteredNoRepeats(t.ws, s.writers, {});
    forall w | w in s.ws
      ensures w in t.writers || t.ws[w].closed || w in t.pendingWriters
      ensures w !in s.writers ==> t.ws[w] == s.ws[w]
    {
      BroadcastAt(s.ws, s.writers, s.chan[0], w);
    }
  }

  lemma FinishAccounted(s: State)
    requires Accounted(s) && Enabled(s, Finish)
    ensures Accounted(Next(s, Finish))
  {
    hide NoRepeats, RebaseAll;
    var t := Next(s, Finish);
    forall w | w in s.ws ensures t.ws[w].closed == s.ws[w].closed && t.ws[w].queue == s.ws[w].queue {
      RebaseAt(s.ws, s.writers, w);
    }
  }

  lemma ExitAccounted(s: State, lateWriters: set<nat>, lateReaders: set<nat>)
    requires Accounted(s) && s.phase == Looping
    ensures Accounted(CloseStream(s, lateWriters, lateReaders))
  {
    hide NoRepeats;
  }

  lemma JoinAccounted(s: State, a: Action)
    requires Accounted(s) && a.Join? && Enabled(s, a)
    ensures Accounted(Next(s, a))
  {
    hide FromCache;
    assert s.ws[a.w].queue + FromCache(s) == FromCache(s);
  }

  /** A step changes a writer by a call of Write, by something that leaves its offers alone, or not at all. */
  lemma WriterStep(s: State, a: Action, w: nat)
    requires Inv(s) && Enabled(s, a) && w in s.ws
    ensures w in Next(s, a).ws
    ensures var x, y := s.ws[w], Next(s, a).ws[w];
      if a == Deliver && w in s.writers then y.offers == Offered(x, s.chan[0]).0.offers && GateInv(y)
      else y.offers == x.offers && GateInv(y)
  {
    assert GateInv(s.ws[w]);
    NoRepeatsHolds(s);
    hide Inv, Next, Enabled;
    match a
    case Deliver => DeliveredAt(s, w);
    case Finish =>
      FinishedAt(s, w);
      SameGate(s.ws[w], Next(s, a).ws[w]);
    case _ =>
      OthersAt(s, a, w);
      SameGate(s.ws[w], Next(s, a).ws[w]);
  }

  lemma SameGate(x: Writer, y: Writer)
    requires GateInv(x) && SameOffersAndGate(x, y)
    ensures GateInv(y)
  {
  }

  lemma DeliveredAt(s: State, w: nat)
    requires Known(s) && NoRepeats(s.writers) && Enabled(s, Deliver) && w in s.ws && GateInv(s.ws[w])
    ensures w in Next(s, Deliver).ws
    ensures var x, y := s.ws[w], Next(s, Deliver).ws[w];
      GateInv(y) && if w in s.writers then y.offers == Offered(x, s.chan[0]).0.offers else y == x
  {
    hide NoRepeats, Offered, GateHolds, LatestKeyAccepted;
    BroadcastAt(s.ws, s.writers, s.chan[0], w);
    OpenStays(s.ws[w], s.chan[0]);
    GateStep(s.ws[w], Write(s.chan[0]));
  }

  lemma OthersAt(s: State, a: Action, w: nat)
    requires Known(s) && Enabled(s, a) && a != Deliver && a != Finish && w in s.ws
    ensures w in Next(s, a).ws && SameOffersAndGate(s.ws[w], Next(s, a).ws[w])
  {
    hide Next, Enabled, SameOffersAndGate;
    match a
    case Tick(_, _, _, _) => TickAt(s, a, w);
    case Join(_, _, _) => JoinAt(s, a, w);
    case _ => RestAt(s, a, w);
  }

  predicate SameOffersAndGate(x: Writer, y: Writer) {
    y.offers == x.offers && y.keyframeNeed == x.keyframeNeed && (x.closed ==> y.closed)
  }

  lemma TickAt(s: State, a: Action, w: nat)
    requires Known(s) && a.Tick? && Enabled(s, a) && w in s.ws
    ensures w in Next(s, a).ws && SameOffersAndGate(s.ws[w], Next(s, a).ws[w])
  {
    hide Without;
  }

  lemma JoinAt(s: State, a: Action, w: nat)
    requires Known(s) && a.Join? && Enabled(s, a) && w in s.ws
    ensures w in Next(s, a).ws && SameOffersAndGate(s.ws[w], Next(s, a).ws[w])
  {
    hide FromCache, Room;
  }

  lemma RestAt(s: State, a: Action, w: nat)
    requires Known(s) && Enabled(s, a) && w in s.ws
    requires !a.Deliver? && !a.Finish? && !a.Tick? && !a.Join?
    ensures w in Next(s, a).ws && SameOffersAndGate(s.ws[w], Next(s, a).ws[w])
  {
  }

  lemma FinishedAt(s: State, w: nat)
    requires Known(s) && NoRepeats(s.writers) && Enabled(s, Finish) && w in s.ws
    ensures w in Next(s, Finish).ws
    ensures var x, y := s.ws[w], Next(s, Finish).ws[w];
      y.offers == x.offers && y.keyframeNeed == x.keyframeNeed && y.queue == x.queue && y.closed == x.closed
  {
    hide NoRepeats;
    RebaseAt(s.ws, s.writers, w);
  }

  lemma OpenStays(w: Writer, p: Packet)
    ensures Offered(w, p).0.closed == w.closed == !Offered(w, p).1
  {
  }

  lemma NoRepeatsHolds(s: State)
    requires Accounted(s)
    ensures NoRepeats(s.writers) && Known(s)
  {
  }

  lemma DeliverKeepsOrder(s: State, t: State, w: Writer, v: Writer)
    requires OfferedInOrder(s, w) && InOrder(s) && s.chan != []
    requires Coming(t) == Coming(s)[1..] && t.log == s.log
    requires Packets(v.offers) == Packets(w.offers) + [s.chan[0]]
    ensures OfferedInOrder(t, v)
  {
    var n, p, ps := |w.offers|, s.chan[0], Packets(v.offers);
    assert Coming(s)[0] == p;
    forall i | 0 <= i < n ensures ps[i] == Packets(w.offers)[i] && ps[i].at < p.at {
      assert w.offers[i].packet.at < Coming(s)[0].at;
    }
    forall i, j | 0 <= i <= n && 0 <= j < |Coming(t)| ensures v.offers[i].packet.at < Coming(t)[j].at {
      assert ps[i] == v.offers[i].packet && Coming(t)[j] == Coming(s)[j + 1];
    }
  }

  lemma InvStep(s: State, a: Action)
    requires Inv(s) && Enabled(s, a)
    ensures Inv(Next(s, a))
  {
    hide InOrder, Accounted, GateInv, Offered, OfferedInOrder, Coming;
    NoRepeatsHolds(s);
    var t := Next(s, a);
    OrderStep(s, a);
    AccountedStep(s, a);
    forall w | w in t.ws ensures OfferedInOrder(t, t.ws[w]) && GateInv(t.ws[w]) {
      if w !in s.ws {
        NewWriter(t);
      } else {
        WriterStep(s, a, w);
        if a == Deliver && w in s.writers {
          OneMore(s.ws[w], s.chan[0]);
          assert Packets(t.ws[w].offers) == Packets(s.ws[w].offers) + [s.chan[0]];
          DeliverKeepsOrder(s, t, s.ws[w], t.ws[w]);
        } else {
          SameOffers(s, t, s.ws[w], t.ws[w]);
        }
      }
    }
  }

  lemma NewWriter(t: State)
    ensures OfferedInOrder(t, FRESH) && GateInv(FRESH)
  {
  }

  lemma OneMore(w: Writer, p: Packet)
    ensures Packets(Offered(w, p).0.offers) == Packets(w.offers) + [p]
  {
  }
}
