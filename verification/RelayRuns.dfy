/** The relay over whole runs, for every interleaving of publishers, players and the loop. */
module RelayRuns {
  import opened Bytes
  import opened StreamWriters
  import opened Relay
  import opened RelayInvariant

  ghost predicate Possible(s: State, actions: seq<Action>)
    requires Inv(s)
    decreases |actions|
  {
    actions == [] ||
    (Enabled(s, actions[0]) && (InvStep(s, actions[0]); Possible(Next(s, actions[0]), actions[1..])))
  }

  ghost function Play(s: State, actions: seq<Action>): State
    requires Inv(s) && Possible(s, actions)
    decreases |actions|
  {
    if actions == [] then s else (InvStep(s, actions[0]); Play(Next(s, actions[0]), actions[1..]))
  }

  lemma Starts()
    ensures Inv(START)
  {
  }

  /** What every step keeps holds in every state of every run. */
  lemma {:induction false} InvAlways(s: State, actions: seq<Action>)
    requires Inv(s) && Possible(s, actions)
    ensures Inv(Play(s, actions))
    decreases |actions|
  {
    if actions != [] {
      hide Inv, Enabled, Next;
      InvStep(s, actions[0]);
      InvAlways(Next(s, actions[0]), actions[1..]);
    }
  }

  /** The runs of the relay, and the states they end in. */
  ghost predicate FromStart(actions: seq<Action>) {
    Starts();
    Possible(START, actions)
  }

  ghost function Reached(actions: seq<Action>): State
    requires FromStart(actions)
  {
    Starts();
    Play(START, actions)
  }

  lemma ReachedInv(actions: seq<Action>)
    requires FromStart(actions)
    ensures Inv(Reached(actions))
  {
    Starts();
    InvAlways(START, actions);
  }

  /** In every run what a writer was offered is a subsequence of what was read, grouped by publisher. */
  lemma OfferedInTurn(actions: seq<Action>, w: nat)
    requires FromStart(actions) && w in Reached(actions).ws
    ensures var s := Reached(actions);
      var ps := Packets(s.ws[w].offers);
      Increasing(ps) && FromLog(s.log, ps) && Grouped(ps)
  {
    hide FromStart, Reached, Inv, Increasing, FromLog, Grouped, Packets;
    ReachedInv(actions);
    OffersOf(Reached(actions), w);
  }

  lemma OffersOf(s: State, w: nat)
    requires Inv(s) && w in s.ws
    ensures var ps := Packets(s.ws[w].offers); Increasing(ps) && FromLog(s.log, ps) && Grouped(ps)
  {
    assert OfferedInOrder(s, s.ws[w]) && Grouped(s.log);
    hide Inv, InOrder, Packets;
    var ps := Packets(s.ws[w].offers);
    forall i, j | 0 <= i < j < |ps| ensures ps[i].session <= ps[j].session {
      assert ps[i].at < ps[j].at;
      assert s.log[ps[i].at] == ps[i] && s.log[ps[j].at] == ps[j];
    }
  }

  /** In every run, the packet that is offered next was read from the publisher that is then the current one. */
  lemma OfferedByCurrent(actions: seq<Action>)
    requires FromStart(actions)
    ensures var s := Reached(actions); Known(s) && (Enabled(s, Deliver) ==> s.chan[0].session == s.session)
  {
    hide FromStart, Reached, Inv;
    ReachedInv(actions);
    CurrentFirst(Reached(actions));
  }

  lemma CurrentFirst(s: State)
    requires Inv(s)
    ensures Known(s) && (s.chan != [] ==> s.chan[0].session == s.session)
  {
    hide OfferedInOrder, GateInv;
    if s.chan != [] {
      assert Coming(s)[0] == s.chan[0];
    }
  }

  /**
   * In every run each writer ever handed to the stream is live, closed, or not taken up yet; once the
   * loop has exited it is closed, unless it was never taken up.
   */
  lemma Accountability(actions: seq<Action>, w: nat)
    requires FromStart(actions)
    requires w in Reached(actions).ws
    ensures var s := Reached(actions);
      && (w in s.writers || s.ws[w].closed || w in s.pendingWriters)
      && (w in s.accepted ==> (w in s.writers || s.ws[w].closed) && w !in s.pendingWriters)
      && (s.phase == Exited ==>
            (s.ws[w].closed || w in s.pendingWriters) && (s.reader.Some? ==> s.reader.value in s.closedReaders))
  {
    hide FromStart, Reached, InOrder, OfferedInOrder, GateInv;
    ReachedInv(actions);
  }

  /**
   * A writer not taken up when the loop exits stays open in every run from there, until its player closes
   * it: nothing in the relay ever does.
   */
  lemma {:induction false} StaysOpen(s: State, actions: seq<Action>, w: nat)
    requires Inv(s) && s.phase == Exited && w in s.pendingWriters && !s.ws[w].closed
    requires Possible(s, actions) && PlayerCloses(w) !in actions
    ensures var t := Play(s, actions);
      t.phase == Exited && w in t.pendingWriters && w in t.ws && !t.ws[w].closed
    decreases |actions|
  {
    if actions != [] {
      var a := actions[0];
      InvStep(s, a);
      OpenStep(s, a, w);
      StaysOpen(Next(s, a), actions[1..], w);
    }
  }

  lemma OpenStep(s: State, a: Action, w: nat)
    requires Inv(s) && Enabled(s, a) && a != PlayerCloses(w)
    requires s.phase == Exited && w in s.pendingWriters && !s.ws[w].closed
    ensures var t := Next(s, a); t.phase == Exited && w in t.pendingWriters && w in t.ws && !t.ws[w].closed
  {
    hide InOrder, OfferedInOrder, GateInv;
  }

  /** There are such writers: any that is handed over after the loop has exited, and the loop can exit. */
  lemma TooLate(s: State, w: nat)
    requires Inv(s) && s.phase == Exited && w !in s.ws
    ensures Enabled(s, AddWriter(w))
    ensures var t := Next(s, AddWriter(w)); Inv(t) && t.phase == Exited && w in t.pendingWriters && !t.ws[w].closed
    ensures FromStart([Tick(true, {}, {}, {})]) && Reached([Tick(true, {}, {}, {})]).phase == Exited
  {
    InvStep(s, AddWriter(w));
    ExitAtOnce();
  }

  lemma ExitAtOnce()
    ensures var run := [Tick(true, {}, {}, {})]; FromStart(run) && Reached(run).phase == Exited
  {
    hide Inv;
    var run := [Tick(true, {}, {}, {})];
    assert run[1..] == [];
    Starts();
    InvStep(START, run[0]);
    PlayNone(Next(START, run[0]));
    PlayOne(START, run);
  }

  lemma KnownIn(s: State)
    requires Inv(s)
    ensures Known(s)
  {
  }

  lemma PlayNone(s: State)
    requires Inv(s)
    ensures Possible(s, []) && Play(s, []) == s
  {
    hide Inv;
  }

  lemma PlayOne(s: State, actions: seq<Action>)
    requires Inv(s) && actions != [] && Known(s) && Enabled(s, actions[0]) && Inv(Next(s, actions[0]))
    requires Possible(Next(s, actions[0]), actions[1..])
    ensures Possible(s, actions) && Play(s, actions) == Play(Next(s, actions[0]), actions[1..])
  {
    hide Inv, Enabled, Next;
  }

  /** A writer that has not been taken up has an empty queue, so the cache always fits. */
  lemma AlwaysFits(s: State, w: nat)
    requires Accounted(s) && w in s.pendingWriters
    ensures w in s.ws && Room(s.ws[w], FromCache(s)) == |FromCache(s)|
    ensures |s.ws[w].queue| + |FromCache(s)| <= MAX_QUEUE_NUM
  {
    hide NoRepeats, FromCache;
  }

  // ---------- the relay as seen by one writer ----------

  /** What one step of the relay is to one writer. */
  function EventsFor(s: State, a: Action, w: nat): seq<Event>
    requires Known(s) && Enabled(s, a) && w in s.ws
  {
    match a
    case Deliver =>
      if w !in s.writers then [] else if s.ws[w].closed then [Write(s.chan[0]), Close] else [Write(s.chan[0])]
    case Finish => if w in s.writers then [HandOver] else []
    case Join(x, _, _) =>
      if w != x || (FromCache(s) != [] && s.ws[x].closed) then [] else [Cached(FromCache(s))]
    case Tick(alive, dead, lateWriters, _) =>
      if s.reader == None || !alive then (if w in lateWriters || w in s.writers then [Close] else [])
      else if w in dead then [Close]
      else []
    case PlayerSends(x, connOk) => if w == x then [Send(connOk)] else []
    case PlayerCloses(x) => if w == x then [Close] else []
    case _ => []
  }

  lemma EventsAre(s: State, a: Action, w: nat)
    requires Inv(s) && Enabled(s, a) && w in s.ws
    ensures w in Next(s, a).ws && Next(s, a).ws[w] == Run(s.ws[w], EventsFor(s, a, w))
  {
    hide InOrder, OfferedInOrder, GateInv, Offered, SentOne, Rebased, Accounted;
    NoRepeatsHolds(s);
    match a
    case Deliver =>
      BroadcastAt(s.ws, s.writers, s.chan[0], w);
      OpenStays(s.ws[w], s.chan[0]);
      RunTwo(s.ws[w], Write(s.chan[0]), Close);
    case Finish =>
      RebaseAt(s.ws, s.writers, w);
    case Join(x, _, _) =>
      hide FromCache;
      AlwaysFits(s, x);
    case _ =>
  }

  lemma RunTwo(w: Writer, e: Event, f: Event)
    ensures Run(w, [e]) == Step(w, e) && Run(w, [e, f]) == Step(Step(w, e), f)
  {
    assert [e][1..] == [] && [e, f][1..] == [f] && [f][1..] == [];
    assert Run(Step(w, e), [f]) == Run(Step(Step(w, e), f), []);
  }

  ghost function EventsOf(s: State, actions: seq<Action>, w: nat): seq<Event>
    requires Inv(s) && Possible(s, actions) && w in s.ws
    decreases |actions|
  {
    if actions == [] then []
    else
      NoRepeatsHolds(s);
      InvStep(s, actions[0]);
      WriterStep(s, actions[0], w);
      EventsFor(s, actions[0], w) + EventsOf(Next(s, actions[0]), actions[1..], w)
  }

  /** In any run of the relay a writer runs through the events it sees, and nothing else changes it. */
  lemma {:induction false} WriterRuns(s: State, actions: seq<Action>, w: nat)
    requires Inv(s) && Possible(s, actions) && w in s.ws
    ensures var t := Play(s, actions); w in t.ws && t.ws[w] == Run(s.ws[w], EventsOf(s, actions, w))
    decreases |actions|
  {
    if actions != [] {
      hide Run, Inv, Known, Enabled, Next, EventsFor;
      var a := actions[0];
      EventsAre(s, a, w);
      InvStep(s, a);
      WriterRuns(Next(s, a), actions[1..], w);
      RunAppend(s.ws[w], EventsFor(s, a, w), EventsOf(Next(s, a), actions[1..], w));
    } else {
      assert Run(s.ws[w], []) == s.ws[w];
    }
  }

  /**
   * Per-track timestamps never decrease for a writer of the relay, across any number of publishers, if
   * what comes from the cache and the publishers is nondecreasing, sums do not wrap, and nothing with a
   * positive timestamp waits in its queue at a hand-over.
   */
  lemma RelayTimestamps(s: State, actions: seq<Action>, w: nat)
    requires Inv(s) && Possible(s, actions) && w in s.ws && s.ws[w] == FRESH
    requires Legal(FRESH, Floors(0, 0), EventsOf(s, actions, w))
    ensures var t := Play(s, actions); w in t.ws && Monotone(t.ws[w].sent)
  {
    WriterRuns(s, actions, w);
    FreshInOrder();
    NeverDecreasing(FRESH, Floors(0, 0), EventsOf(s, actions, w));
  }

  lemma FreshInOrder()
    ensures TimeInv(FRESH, Floors(0, 0))
  {
  }
}
