/** The relay from the reader to the players: the channel, the publishers one after the other, and what is sent. */
module RelayDelivery {
  import opened Bytes
  import opened StreamWriters
  import opened Delivery
  import opened Relay
  import opened RelayInvariant
  import opened RelayRuns
  import opened RelayFailures

  // ---------- the players ----------

  /**
   * In any run of the relay a player has been sent, and has in its queue, exactly what its writer reported as
   * taken and what the cache sent it, once and in order, each with the base then in force.
   */
  lemma PlayerIsSent(s: State, actions: seq<Action>, w: nat)
    requires Inv(s) && Possible(s, actions) && w in s.ws && s.ws[w] == FRESH
    ensures var t, es := Play(s, actions), EventsOf(s, actions, w);
      w in t.ws && DeliveredAs(FRESH, t.ws[w], Taken(FRESH, es), Bases(FRESH, es))
  {
    hide Inv, Possible, Play, EventsOf, Run, Taken, Bases, DeliveredAs;
    WriterRuns(s, actions, w);
    var es := EventsOf(s, actions, w);
    Delivers(FRESH, es);
    assert FRESH.queue + Taken(FRESH, es) == Taken(FRESH, es);
  }

  // ---------- the channel ----------

  datatype Reading = Reading(kind: Kind, header: bool, time: U32)

  function Readings(actions: seq<Action>): seq<Reading> {
    if actions == [] then []
    else
      var a := actions[0];
      (if a.Read? then [Reading(a.kind, a.header, a.time)] else []) + Readings(actions[1..])
  }

  function AsRead(log: seq<Packet>): (r: seq<Reading>)
    ensures |r| == |log|
  {
    seq(|log|, i requires 0 <= i < |log| => Reading(log[i].kind, log[i].header, log[i].time))
  }

  lemma AsReadAppend(log: seq<Packet>, p: Packet)
    ensures AsRead(log + [p]) == AsRead(log) + [Reading(p.kind, p.header, p.time)]
  {
  }

  /** The log is what was read, packet by packet. */
  lemma {:induction false} LogIsWhatWasRead(s: State, actions: seq<Action>)
    requires Inv(s) && Possible(s, actions)
    ensures AsRead(Play(s, actions).log) == AsRead(s.log) + Readings(actions)
    decreases |actions|
  {
    if actions == [] {
      assert AsRead(s.log) + [] == AsRead(s.log);
    } else {
      var a := actions[0];
      InvStep(s, a);
      KnownIn(s);
      LogStep(s, a);
      if a.Read? { AsReadAppend(s.log, Packet(a.kind, a.header, a.time, |s.log|, s.session)); }
      hide Inv, Enabled, Next, AsRead;
      LogIsWhatWasRead(Next(s, a), actions[1..]);
      var first := if a.Read? then [Reading(a.kind, a.header, a.time)] else [];
      Regroup(AsRead(s.log), first, Readings(actions[1..]));
      assert AsRead(s.log) + [] == AsRead(s.log);
    }
  }

  lemma LogStep(s: State, a: Action)
    requires Known(s) && Enabled(s, a)
    ensures Next(s, a).log == s.log
      + if a.Read? then [Packet(a.kind, a.header, a.time, |s.log|, s.session)] else []
  {
  }

  /** What the reading goroutine gets into the channel: the packet in its hand, if fewer than 16 are waiting. */
  ghost function Entered(s: State, actions: seq<Action>): seq<Packet>
    requires Inv(s) && Possible(s, actions)
    decreases |actions|
  {
    if actions == [] then []
    else
      InvStep(s, actions[0]);
      (if actions[0] == Push && s.held.Some? && |s.chan| < 16 then [s.held.value] else [])
      + Entered(Next(s, actions[0]), actions[1..])
  }

  /** What the loop takes out of it and offers to the writers. */
  ghost function Left(s: State, actions: seq<Action>): seq<Packet>
    requires Inv(s) && Possible(s, actions)
    decreases |actions|
  {
    if actions == [] then []
    else
      InvStep(s, actions[0]);
      (if actions[0] == Deliver && s.chan != [] then [s.chan[0]] else [])
      + Left(Next(s, actions[0]), actions[1..])
  }

  /** First in, first out between two hand-overs, nothing lost but what finds 16 waiting; a hand-over empties it. */
  lemma {:induction false} ChannelIsFifo(s: State, actions: seq<Action>)
    requires Inv(s) && Possible(s, actions) && Finish !in actions
    ensures s.chan + Entered(s, actions) == Left(s, actions) + Play(s, actions).chan
    ensures Known(s) && (Enabled(s, Finish) ==> Next(s, Finish).chan == [])
    decreases |actions|
  {
    KnownIn(s);
    if actions == [] {
      assert s.chan + [] == s.chan && [] + s.chan == s.chan;
    } else {
      var a := actions[0];
      InvStep(s, a);
      ChannelStep(s, a);
      hide Inv, Enabled, Next;
      var t := Next(s, a);
      ChannelIsFifo(t, actions[1..]);
      var enters := if a == Push && s.held.Some? && |s.chan| < 16 then [s.held.value] else [];
      var leaves := if a == Deliver && s.chan != [] then [s.chan[0]] else [];
      Requeue(s.chan, enters, Entered(t, actions[1..]), leaves, t.chan, Left(t, actions[1..]),
              Play(t, actions[1..]).chan);
    }
  }

  lemma Requeue(chan: seq<Packet>, enters: seq<Packet>, entered: seq<Packet>, leaves: seq<Packet>, next: seq<Packet>,
                left: seq<Packet>, end: seq<Packet>)
    requires chan + enters == leaves + next && next + entered == left + end
    ensures chan + (enters + entered) == leaves + left + end
  {
    Regroup(chan, enters, entered);
    Regroup(leaves, next, entered);
    Regroup(leaves, left, end);
  }

  lemma ChannelStep(s: State, a: Action)
    requires Known(s) && Enabled(s, a) && a != Finish
    ensures s.chan + (if a == Push && s.held.Some? && |s.chan| < 16 then [s.held.value] else [])
         == (if a == Deliver && s.chan != [] then [s.chan[0]] else []) + Next(s, a).chan
    ensures a.Read? ==> Next(s, a).held == Some(Next(s, a).log[|s.log|])
  {
    assert s.chan + [] == s.chan && [] + s.chan == s.chan;
  }

  // ---------- the publishers ----------

  /** The publishers the loop has taken up, in order. */
  function TakenUp(actions: seq<Action>): seq<nat> {
    if actions == [] then []
    else
      var a := actions[|actions| - 1];
      TakenUp(actions[..|actions| - 1]) + if a.Take? then [a.r] else []
  }

  /** Session k is the k-th publisher taken up; one that is taken up later waits until the one before has ended. */
  predicate InTurn(s: State, taken: seq<nat>) {
    var n := |taken|;
    && (n == 0 ==> s.reader == None && s.session == 0 && !s.phase.Waiting?)
    && (n > 0 && !s.phase.Waiting? ==> s.reader == Some(taken[n - 1]) && s.session == n - 1)
    && (s.phase.Waiting? ==>
          n > 1 && s.phase.next == taken[n - 1] && s.reader == Some(taken[n - 2]) && s.session == n - 2)
    && (forall i :: 0 <= i < n - 1 ==> taken[i] in s.closedReaders)
  }

  lemma InTurnStep(s: State, a: Action, taken: seq<nat>)
    requires Inv(s) && Enabled(s, a) && InTurn(s, taken)
    ensures InTurn(Next(s, a), taken + if a.Take? then [a.r] else [])
  {
    KnownIn(s);
    hide InOrder, OfferedInOrder, GateInv, Accounted, FromCache;
    assert taken + [] == taken;
    if a.Take? {
      forall i | 0 <= i < |taken| ensures taken[i] in Next(s, a).closedReaders {
        if i < |taken| - 1 { assert taken[i] in s.closedReaders; }
      }
    }
  }

  /** In every run: which publisher is the current one, which one waits, and that all before are closed. */
  lemma {:induction false} PublishersInTurn(actions: seq<Action>)
    requires FromStart(actions)
    ensures InTurn(Reached(actions), TakenUp(actions))
    decreases |actions|
  {
    if actions == [] {
      NothingTaken();
    } else {
      var s, a, front := LastStep(actions);
      PublishersInTurn(front);
      InTurnStep(s, a, TakenUp(front));
    }
  }

  lemma NothingTaken()
    ensures FromStart([]) && Reached([]) == START && InTurn(START, TakenUp([]))
  {
    Starts();
    PlayNone(START);
  }

  /** A run and its last step. */
  lemma LastStep(actions: seq<Action>) returns (s: State, a: Action, front: seq<Action>)
    requires FromStart(actions) && actions != []
    ensures front == actions[..|actions| - 1] && a == actions[|actions| - 1]
    ensures FromStart(front) && s == Reached(front) && Inv(s) && Known(s)
    ensures Enabled(s, a) && Reached(actions) == Next(s, a)
  {
    hide Inv, Possible, Play, Enabled, Next, Known;
    Starts();
    var n := |actions| - 1;
    front, a := actions[..n], actions[n];
    At(START, actions, n);
    s := Play(START, front);
    PlayNone(Next(s, a));
    assert actions[n + 1..] == [];
  }

  /** Every publisher ever handed over is waiting to be taken up, or was taken up, or is closed. */
  lemma {:induction false} NoPublisherIsLost(actions: seq<Action>, r: nat)
    requires FromStart(actions) && AddReader(r) in actions
    ensures var s := Reached(actions); r in s.pendingReaders || r in TakenUp(actions) || r in s.closedReaders
    decreases |actions|
  {
    var s, a, front := LastStep(actions);
    assert actions == front + [a];
    hide Inv, Known, Enabled, Next, FromStart, Reached;
    if AddReader(r) in front {
      NoPublisherIsLost(front, r);
    }
    ReadersStep(s, a, r);
  }

  lemma ReadersStep(s: State, a: Action, r: nat)
    requires Known(s) && Enabled(s, a)
    ensures a == AddReader(r) ==> r in Next(s, a).pendingReaders
    ensures r in s.pendingReaders ==>
              r in Next(s, a).pendingReaders || a == Take(r) || r in Next(s, a).closedReaders
    ensures r in s.closedReaders ==> r in Next(s, a).closedReaders
  {
    hide FromCache;
  }

  // ---------- the end of the loop ----------

  /** A tick that finds no publisher, or one that is not alive. */
  predicate Last(actions: seq<Action>, j: nat) {
    j < |actions| && actions[j].Tick? && (TakenUp(actions[..j]) == [] || !actions[j].alive)
  }

  /** The loop exits, over any run, exactly at a tick without a live publisher. */
  lemma {:induction false} ExitsExactly(actions: seq<Action>)
    requires FromStart(actions)
    ensures Reached(actions).phase == Exited <==> exists j: nat :: Last(actions, j)
    decreases |actions|
  {
    if actions == [] {
      NothingTaken();
    } else {
      var s, a, front := LastStep(actions);
      ExitsExactly(front);
      PublishersInTurn(front);
      ExitStep(s, a);
      NoneTaken(s, TakenUp(front));
      LastSnoc(actions);
    }
  }

  lemma LastSnoc(actions: seq<Action>)
    requires actions != []
    ensures var n := |actions| - 1;
      (exists j: nat :: Last(actions, j)) <==> (exists j: nat :: Last(actions[..n], j)) || Last(actions, n)
  {
    hide TakenUp;
    var n := |actions| - 1;
    forall j: nat | j < n ensures Last(actions[..n], j) <==> Last(actions, j) {
      assert actions[..n][..j] == actions[..j];
    }
    if j: nat :| Last(actions, j) {
      assert j < n ==> Last(actions[..n], j);
    }
  }

  lemma NoneTaken(s: State, taken: seq<nat>)
    requires InTurn(s, taken)
    ensures s.reader == None <==> taken == []
  {
  }

  lemma ExitStep(s: State, a: Action)
    requires Inv(s) && Enabled(s, a)
    ensures Next(s, a).phase == Exited <==> s.phase == Exited || (a.Tick? && (s.reader == None || !a.alive))
  {
    hide InOrder, OfferedInOrder, GateInv, FromCache;
    if a.Join? { AlwaysFits(s, a.w); }
  }

  /** Who is in the list after a step: those taken up, less those found closed by a packet or dead by a tick. */
  lemma ListedStep(s: State, a: Action, w: nat)
    requires Inv(s) && Enabled(s, a)
    ensures w in Next(s, a).writers
       <==> || (w in s.writers && !(a == Deliver && s.ws[w].closed)
                && !(a.Tick? && s.reader.Some? && a.alive && w in a.dead))
            || (a.Join? && a.w == w && (!s.ws[w].closed || FromCache(s) == []))
  {
    NoRepeatsHolds(s);
    if a.Join? { AlwaysFits(s, a.w); }
    if a == Deliver && w in s.writers {
      BroadcastAt(s.ws, s.writers, s.chan[0], w);
      OpenStays(s.ws[w], s.chan[0]);
    }
    hide InOrder, OfferedInOrder, GateInv, FromCache, Accounted, Offered;
  }
}
