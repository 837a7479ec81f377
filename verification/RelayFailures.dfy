/** Two ways in which the relay fails its players, exactly: the process dies, or timestamps go down. */
module RelayFailures {
  import opened Bytes
  import opened StreamWriters
  import opened Caches
  import opened Relay
  import opened RelayInvariant
  import opened RelayRuns

  // ---------- a run and its parts ----------

  lemma {:induction false} TwoParts(s: State, a: seq<Action>, b: seq<Action>)
    requires Inv(s) && Possible(s, a + b)
    ensures Possible(s, a) && Inv(Play(s, a)) && Possible(Play(s, a), b)
    ensures Play(s, a + b) == Play(Play(s, a), b)
    decreases |a|
  {
    if a == [] {
      assert a + b == b;
    } else {
      hide Inv, Enabled, Next;
      assert (a + b)[0] == a[0] && (a + b)[1..] == a[1..] + b;
      InvStep(s, a[0]);
      TwoParts(Next(s, a[0]), a[1..], b);
    }
  }

  lemma {:induction false} Joined(s: State, a: seq<Action>, b: seq<Action>)
    requires Inv(s) && Possible(s, a) && Inv(Play(s, a)) && Possible(Play(s, a), b)
    ensures Possible(s, a + b) && Play(s, a + b) == Play(Play(s, a), b)
    decreases |a|
  {
    if a == [] {
      assert a + b == b;
    } else {
      hide Inv, Enabled, Next;
      assert (a + b)[0] == a[0] && (a + b)[1..] == a[1..] + b;
      InvStep(s, a[0]);
      Joined(Next(s, a[0]), a[1..], b);
    }
  }

  // ---------- the player who leaves too early ----------

  /** A packet that the cache takes. */
  predicate Feeds(a: Action) {
    a.Read? && Cacheable(a.kind, a.header)
  }

  /** A single step crashes exactly when the loop sends from the cache to a writer that its player has closed. */
  lemma CrashStep(s: State, a: Action)
    requires Inv(s) && Enabled(s, a)
    ensures Next(s, a).phase == Crashed <==> a.Join? && s.ws[a.w].closed && CacheOf(s.log) != NOTHING
  {
    hide InOrder, OfferedInOrder, GateInv, Accounted, CacheOf;
  }

  /** A writer that is still to be taken up is closed by its player and by nothing else. */
  lemma ClosedStep(s: State, a: Action, w: nat)
    requires Inv(s) && Enabled(s, a) && w in Next(s, a).pendingWriters
    ensures w in Next(s, a).ws && (w in s.ws ==> w in s.pendingWriters)
    ensures Next(s, a).ws[w].closed <==> (w in s.ws && s.ws[w].closed) || a == PlayerCloses(w)
  {
    hide InOrder, OfferedInOrder, GateInv, FromCache;
    if a == Deliver {
      BroadcastAt(s.ws, s.writers, s.chan[0], w);
    } else if a == Finish {
      RebaseAt(s.ws, s.writers, w);
    }
  }

  /** A writer once taken up is not handed over again. */
  lemma {:induction false} NeverAgain(s: State, actions: seq<Action>, w: nat)
    requires Inv(s) && Possible(s, actions) && w in s.ws && w !in s.pendingWriters
    ensures w !in Play(s, actions).pendingWriters
    decreases |actions|
  {
    if actions != [] {
      var a := actions[0];
      InvStep(s, a);
      KnownIn(s);
      WriterStep(s, a, w);
      if w in Next(s, a).pendingWriters { ClosedStep(s, a, w); }
      hide Inv, Enabled, Next;
      NeverAgain(Next(s, a), actions[1..], w);
    }
  }

  lemma {:induction false} ClosedExactly(s: State, actions: seq<Action>, w: nat)
    requires Inv(s) && Possible(s, actions) && w in Play(s, actions).pendingWriters
    ensures var t := Play(s, actions);
      w in t.ws && (t.ws[w].closed <==> (w in s.ws && s.ws[w].closed) || PlayerCloses(w) in actions)
    decreases |actions|
  {
    if actions == [] {
      InvAlways(s, actions);
      PendingIsKnown(s, w);
    } else {
      var a := actions[0];
      InvStep(s, a);
      KnownIn(s);
      var s1 := Next(s, a);
      ClosedExactly(s1, actions[1..], w);
      assert a == PlayerCloses(w) ==> w in s.ws;
      assert actions == [a] + actions[1..];
      if w in s.ws { WriterStep(s, a, w); }
      if w in s1.ws && w !in s1.pendingWriters { NeverAgain(s1, actions[1..], w); }
      if w in s1.pendingWriters { ClosedStep(s, a, w); }
    }
  }

  lemma PendingIsKnown(s: State, w: nat)
    requires Inv(s) && w in s.pendingWriters
    ensures w in s.ws
  {
  }

  /** Only reading fills the cache, and nothing empties it. */
  lemma {:induction false} FilledExactly(s: State, actions: seq<Action>)
    requires Inv(s) && Possible(s, actions)
    ensures CacheOf(Play(s, actions).log) != NOTHING
       <==> CacheOf(s.log) != NOTHING || exists i :: 0 <= i < |actions| && Feeds(actions[i])
    decreases |actions|
  {
    if actions != [] {
      var a, rest := actions[0], actions[1..];
      InvStep(s, a);
      KnownIn(s);
      FilledStep(s, a);
      hide Inv, Enabled, Next, CacheOf;
      FilledExactly(Next(s, a), rest);
      if i :| 0 <= i < |rest| && Feeds(rest[i]) {
        assert Feeds(actions[i + 1]);
      }
    }
  }

  lemma FilledStep(s: State, a: Action)
    requires Known(s) && Enabled(s, a)
    ensures CacheOf(Next(s, a).log) != NOTHING <==> CacheOf(s.log) != NOTHING || Feeds(a)
  {
    hide CacheOf;
    if a.Read? {
      KeepLast(s.log, Packet(a.kind, a.header, a.time, |s.log|, s.session));
    }
  }

  /**
   * The loop takes up, at place j of the run, a writer that its player has closed by then, and there is
   * something in the cache.
   */
  predicate Fatal(s: State, actions: seq<Action>, j: nat) {
    && j < |actions| && actions[j].Join?
    && var w := actions[j].w;
    && ((w in s.ws && s.ws[w].closed) || PlayerCloses(w) in actions[..j])
    && (CacheOf(s.log) != NOTHING || exists i :: 0 <= i < j && Feeds(actions[i]))
  }

  /** The state in front of place j of a run. */
  lemma At(s: State, actions: seq<Action>, j: nat)
    requires Inv(s) && Possible(s, actions) && j < |actions|
    ensures var pre := actions[..j];
      && Possible(s, pre) && var t := Play(s, pre);
      && Inv(t) && Known(t) && Enabled(t, actions[j]) && Inv(Next(t, actions[j]))
      && Possible(Next(t, actions[j]), actions[j + 1..])
      && Play(s, actions) == Play(Next(t, actions[j]), actions[j + 1..])
  {
    var pre, post := actions[..j], actions[j..];
    assert actions == pre + post && post[0] == actions[j] && post[1..] == actions[j + 1..];
    hide Inv, Enabled, Next;
    TwoParts(s, pre, post);
    var t := Play(s, pre);
    KnownIn(t);
    InvStep(t, actions[j]);
  }

  lemma FatalExactly(s: State, actions: seq<Action>, j: nat)
    requires Inv(s) && Possible(s, actions) && j < |actions|
    ensures Possible(s, actions[..j])
    ensures var t := Play(s, actions[..j]);
      Inv(t) && Known(t) && Enabled(t, actions[j]) && (Next(t, actions[j]).phase == Crashed <==> Fatal(s, actions, j))
  {
    At(s, actions, j);
    hide Inv, Known, Possible, Play, Next, CacheOf;
    var pre, a := actions[..j], actions[j];
    var t := Play(s, pre);
    CrashStep(t, a);
    if a.Join? {
      assert a.w in t.pendingWriters;
      hide Enabled;
      ClosedExactly(s, pre, a.w);
      FilledExactly(s, pre);
      FedBefore(actions, j);
    }
  }

  lemma FedBefore(actions: seq<Action>, j: nat)
    requires j <= |actions|
    ensures (exists i :: 0 <= i < |actions[..j]| && Feeds(actions[..j][i]))
       <==> exists i :: 0 <= i < j && Feeds(actions[i])
  {
    assert forall i :: 0 <= i < j ==> actions[..j][i] == actions[i];
  }

  lemma NothingAfter(s: State, actions: seq<Action>)
    requires Inv(s) && Possible(s, actions) && s.phase == Crashed
    ensures actions == [] && Play(s, actions) == s
  {
    hide Inv;
  }

  /**
   * The process dies over a run if and only if, at some place of it, the loop takes up a writer that its
   * player has closed by then and there is something in the cache.
   */
  lemma CrashExactly(s: State, actions: seq<Action>)
    requires Inv(s) && s.phase != Crashed && Possible(s, actions)
    ensures Play(s, actions).phase == Crashed <==> exists j: nat :: Fatal(s, actions, j)
  {
    hide Inv, Possible, Play, Enabled, Next, Fatal, Known;
    if j: nat :| Fatal(s, actions, j) {
      assert j < |actions| by { FatalIsInside(s, actions, j); }
      FatalExactly(s, actions, j);
      At(s, actions, j);
      NothingAfter(Next(Play(s, actions[..j]), actions[j]), actions[j + 1..]);
    }
    if Play(s, actions).phase == Crashed {
      PlayNone(s);
      if actions != [] {
        var j := |actions| - 1;
        FatalExactly(s, actions, j);
        At(s, actions, j);
        PlayNone(Next(Play(s, actions[..j]), actions[j]));
        assert actions[j + 1..] == [];
      }
    }
  }

  lemma FatalIsInside(s: State, actions: seq<Action>, j: nat)
    requires Fatal(s, actions, j)
    ensures j < |actions|
  {
  }

  /** The same for a run from the start, in terms of its actions alone. */
  predicate Deadly(actions: seq<Action>, j: nat) {
    && j < |actions| && actions[j].Join? && PlayerCloses(actions[j].w) in actions[..j]
    && exists i :: 0 <= i < j && Feeds(actions[i])
  }

  lemma ProcessDies(actions: seq<Action>)
    requires FromStart(actions)
    ensures Reached(actions).phase == Crashed <==> exists j: nat :: Deadly(actions, j)
  {
    Starts();
    CrashExactly(START, actions);
    hide Inv, Possible, Play, Fatal, Deadly;
    forall j: nat ensures Fatal(START, actions, j) <==> Deadly(actions, j) {
      SameAtStart(actions, j);
    }
  }

  lemma SameAtStart(actions: seq<Action>, j: nat)
    ensures Fatal(START, actions, j) <==> Deadly(actions, j)
  {
  }

  /** And the run exists: a player who leaves at once, in any state of the loop with something in the cache. */
  lemma EarlyLeaver(s: State, w: nat)
    requires Inv(s) && s.phase == Looping && w !in s.ws
    ensures var run := [AddWriter(w), PlayerCloses(w), Join(w, {}, {})];
      Possible(s, run) && (Play(s, run).phase == Crashed <==> CacheOf(s.log) != NOTHING)
  {
    hide Inv, Play, CacheOf;
    var run := [AddWriter(w), PlayerCloses(w), Join(w, {}, {})];
    assert run[1..] == [run[1], run[2]] && [run[1], run[2]][1..] == [run[2]] && [run[2]][1..] == [];
    KnownIn(s);
    InvStep(s, run[0]);
    var s1 := Next(s, run[0]);
    KnownIn(s1);
    InvStep(s1, run[1]);
    var s2 := Next(s1, run[1]);
    KnownIn(s2);
    InvStep(s2, run[2]);
    CrashStep(s2, run[2]);
    PlayNone(Next(s2, run[2]));
    PlayOne(s2, [run[2]]);
    PlayOne(s1, [run[1], run[2]]);
    PlayOne(s, run);
  }

  // ---------- the header of an old publisher ----------

  function Rounds(w: nat, n: nat): (run: seq<Action>)
    ensures |run| == n
  {
    seq(n, i => PlayerSends(w, true))
  }

  /** The player's goroutine sends n times. */
  lemma {:induction false} PlayRounds(s: State, w: nat, n: nat)
    requires Inv(s) && s.phase != Crashed && w in s.ws
    ensures Possible(s, Rounds(w, n))
    ensures var t := Play(s, Rounds(w, n)); w in t.ws && t.ws[w] == Run(s.ws[w], Sends(n))
    decreases n
  {
    if n == 0 {
      PlayNone(s);
    } else {
      var a, rest := PlayerSends(w, true), Rounds(w, n - 1);
      assert Rounds(w, n)[1..] == rest && Rounds(w, n)[0] == a;
      SendsOne(s, w);
      assert Run(s.ws[w], Sends(n)) == Run(SentOne(s.ws[w], true), Sends(n - 1)) by {
        assert Sends(n)[1..] == Sends(n - 1);
      }
      hide Inv, Known, Enabled, Next, Possible, Play, Run, Sends, SentOne, Rounds;
      InvStep(s, a);
      PlayRounds(Next(s, a), w, n - 1);
      PlayOne(s, Rounds(w, n));
    }
  }

  lemma SendsOne(s: State, w: nat)
    requires Inv(s) && s.phase != Crashed && w in s.ws
    ensures Known(s) && Enabled(s, PlayerSends(w, true))
    ensures var t := Next(s, PlayerSends(w, true));
      t.phase != Crashed && w in t.ws && t.ws[w] == SentOne(s.ws[w], true)
  {
    hide InOrder, OfferedInOrder, GateInv, SentOne;
  }

  /** What a new writer sends that has been fed from the cache and then gets one key frame. */
  lemma FirstSent(c: Contents, k: Packet)
    requires InSlots(c) && k.kind == Video(true)
    ensures var cached := ToSend(c);
      var sent := Run(Offered(Fed(FRESH, cached), k).0, Sends(|cached| + 1)).sent;
      && |sent| == |cached| + 1 && sent[|cached|] == Sent(k.kind, k.time)
      && (forall i :: 0 <= i < |cached| ==> sent[i] == Sent(cached[i].kind, cached[i].time))
      && (Monotone(sent) <==> c.videoSeq.Some? ==> c.videoSeq.value.time <= k.time)
  {
    hide ToSend, Monotone, Run, Sends, Offered;
    var cached := ToSend(c);
    var x := Offered(Fed(FRESH, cached), k).0;
    FedAndOffered(cached, k);
    Emptied(x);
    var sent := Run(x, Sends(|cached| + 1)).sent;
    assert sent[|cached|] == Sent(x.queue[|cached|].kind, x.queue[|cached|].time);
    forall i | 0 <= i < |cached| ensures sent[i] == Sent(cached[i].kind, cached[i].time) {
      assert x.queue[i] == cached[i] && sent[i] == Sent(x.queue[i].kind, x.queue[i].time);
    }
    InOrderExactly(c, sent, k.time);
  }

  lemma FedAndOffered(cached: seq<Packet>, k: Packet)
    requires |cached| <= 3 && k.kind == Video(true)
    ensures var x := Offered(Fed(FRESH, cached), k).0;
      x.queue == cached + [k] && x.sent == [] && x.base == 0 && !x.closed && !x.ended
  {
  }

  lemma InOrderExactly(c: Contents, sent: seq<Sent>, time: U32)
    requires InSlots(c) && |sent| == |ToSend(c)| + 1 && sent[|ToSend(c)|] == Sent(Video(true), time)
    requires forall i :: 0 <= i < |ToSend(c)| ==> sent[i] == Sent(ToSend(c)[i].kind, ToSend(c)[i].time)
    ensures Monotone(sent) <==> c.videoSeq.Some? ==> c.videoSeq.value.time <= time
  {
    var n := |ToSend(c)|;
    OneOfEach(c);
    if c.videoSeq.Some? {
      var i :| 0 <= i < n && ToSend(c)[i] == c.videoSeq.value;
      hide ToSend;
      assert OnTrack(sent[i].kind, true) && OnTrack(sent[n].kind, true);
    }
  }

  lemma OneOfEach(c: Contents)
    requires InSlots(c)
    ensures c.videoSeq.Some? ==> c.videoSeq.value in ToSend(c)
    ensures var ps := ToSend(c);
      && (forall i :: 0 <= i < |ps| && ps[i].kind.Video? ==> c.videoSeq == Some(ps[i]))
      && forall i, j :: 0 <= i < j < |ps| ==> !SameSlot(ps[i].kind, ps[j].kind)
  {
  }

  /**
   * A player who joins is sent the cache first. Whatever has happened before, its timestamps are in order
   * after the first key frame if and only if that is not behind the header in the cache.
   */
  lemma StaleHeader(s: State, w: nat, time: U32)
    requires Inv(s) && s.phase == Looping && s.running && s.held == None && s.chan == [] && w !in s.ws
    ensures var c := CacheOf(s.log);
      var run := [AddWriter(w), Join(w, {}, {}), Read(Video(true), false, time), Push, Deliver]
               + Rounds(w, |FromCache(s)| + 1);
      && Possible(s, run) && w in Play(s, run).ws
      && (Monotone(Play(s, run).ws[w].sent) <==> c.videoSeq.Some? ==> c.videoSeq.value.time <= time)
  {
    var first := [AddWriter(w), Join(w, {}, {}), Read(Video(true), false, time), Push, Deliver];
    var t := Joins(s, w, time);
    var n := |FromCache(s)| + 1;
    hide Inv, Possible, Play, Next, Enabled, Monotone, CacheOf, Run, Sends, Offered;
    PlayRounds(t, w, n);
    Joined(s, first, Rounds(w, n));
    SlotsOf(s.log);
    FirstSent(CacheOf(s.log), Packet(Video(true), false, time, |s.log|, s.session));
  }

  /** The first five steps: the writer has the cache and one packet in its queue. */
  lemma Joins(s: State, w: nat, time: U32) returns (t: State)
    requires Inv(s) && s.phase == Looping && s.running && s.held == None && s.chan == [] && w !in s.ws
    ensures var run := [AddWriter(w), Join(w, {}, {}), Read(Video(true), false, time), Push, Deliver];
      Possible(s, run) && t == Play(s, run) && Inv(t) && t.phase == Looping && w in t.ws
    ensures t.ws[w] == Offered(Fed(FRESH, FromCache(s)), Packet(Video(true), false, time, |s.log|, s.session)).0
  {
    hide Inv, Possible, Play, FromCache, Offered;
    var k := Packet(Video(true), false, time, |s.log|, s.session);
    var a1, a2, a3 := AddWriter(w), Join(w, {}, {}), Read(Video(true), false, time);
    KnownIn(s);
    InvStep(s, a1);
    var s1 := Next(s, a1);
    assert FromCache(s1) == FromCache(s) by { SameCache(s, s1); }
    var s2 := JoinsFresh(s1, w);
    var s3 := Next(s2, a3);
    KnownIn(s2);
    InvStep(s2, a3);
    KnownIn(s3);
    InvStep(s3, Push);
    var s4 := Next(s3, Push);
    assert s4.chan == [k];
    t := Offers(s4, w);
    PlayNone(t);
    var r4 := Before(s4, Deliver, []);
    var r3 := Before(s3, Push, r4);
    var r2 := Before(s2, a3, r3);
    var r1 := Before(s1, a2, r2);
    var run := Before(s, a1, r1);
    assert run == [a1, a2, a3, Push, Deliver];
  }

  lemma SameCache(s: State, t: State)
    requires t.log == s.log
    ensures FromCache(t) == FromCache(s)
  {
  }

  lemma JoinsFresh(s: State, w: nat) returns (t: State)
    requires Inv(s) && s.phase == Looping && w in s.pendingWriters && w in s.ws && s.ws[w] == FRESH
    ensures Known(s) && Enabled(s, Join(w, {}, {})) && t == Next(s, Join(w, {}, {})) && Inv(t)
    ensures t == s.(ws := s.ws[w := Fed(FRESH, FromCache(s))], writers := s.writers + [w],
                    accepted := s.accepted + {w}, pendingWriters := s.pendingWriters - {w})
  {
    hide FromCache, Inv;
    KnownIn(s);
    InvStep(s, Join(w, {}, {}));
    t := Next(s, Join(w, {}, {}));
  }

  lemma Offers(s: State, w: nat) returns (t: State)
    requires Inv(s) && s.phase == Looping && s.chan != [] && w in s.writers && w in s.ws && !s.ws[w].closed
    ensures Known(s) && Enabled(s, Deliver) && t == Next(s, Deliver) && Inv(t) && t.phase == Looping
    ensures w in t.ws && t.ws[w] == Offered(s.ws[w], s.chan[0]).0
  {
    NoRepeatsHolds(s);
    hide Inv, Offered;
    InvStep(s, Deliver);
    BroadcastAt(s.ws, s.writers, s.chan[0], w);
    OpenStays(s.ws[w], s.chan[0]);
    t := Next(s, Deliver);
  }

  lemma Before(s: State, a: Action, rest: seq<Action>) returns (run: seq<Action>)
    requires Inv(s) && Known(s) && Enabled(s, a) && Inv(Next(s, a)) && Possible(Next(s, a), rest)
    ensures run == [a] + rest && Possible(s, run) && Play(s, run) == Play(Next(s, a), rest)
  {
    hide Inv, Possible, Play, Enabled, Next;
    run := [a] + rest;
    assert run[1..] == rest;
    PlayOne(s, run);
  }

  /** A hand-over leaves such a header behind: the cache of the second publisher is that of the first. */
  lemma HandOverKeepsHeader(time: U32)
    ensures var run := [AddReader(0), Take(0), Read(Video(true), true, time), Push,
                        AddReader(1), Take(1), ReadFails, Finish];
      FromStart(run) && var s := Reached(run);
      && s.phase == Looping && s.running && s.held == None && s.chan == [] && s.session == 1
      && CacheOf(s.log) == Contents(None, Some(Packet(Video(true), true, time, 0, 0)), None)
  {
    hide Inv, Possible, Play, CacheOf;
    var h := Packet(Video(true), true, time, 0, 0);
    Starts();
    var s0 := START;
    InvStep(s0, AddReader(0));
    var s1 := Next(s0, AddReader(0));
    InvStep(s1, Take(0));
    var s2 := Next(s1, Take(0));
    InvStep(s2, Read(Video(true), true, time));
    var s3 := Next(s2, Read(Video(true), true, time));
    InvStep(s3, Push);
    var s4 := Next(s3, Push);
    InvStep(s4, AddReader(1));
    var s5 := Next(s4, AddReader(1));
    InvStep(s5, Take(1));
    var s6 := Next(s5, Take(1));
    InvStep(s6, ReadFails);
    var s7 := Next(s6, ReadFails);
    InvStep(s7, Finish);
    var s8 := Next(s7, Finish);
    PlayNone(s8);
    var r7 := Before(s7, Finish, []);
    var r6 := Before(s6, ReadFails, r7);
    var r5 := Before(s5, Take(1), r6);
    var r4 := Before(s4, AddReader(1), r5);
    var r3 := Before(s3, Push, r4);
    var r2 := Before(s2, Read(Video(true), true, time), r3);
    var r1 := Before(s1, Take(0), r2);
    var run := Before(s0, AddReader(0), r1);
    assert run == [AddReader(0), Take(0), Read(Video(true), true, time), Push,
                   AddReader(1), Take(1), ReadFails, Finish];
    assert s8.log == [] + [h];
    KeepLast([], h);
    assert CacheOf([]) == NOTHING by { EmptyLog(); }
  }

  lemma EmptyLog()
    ensures CacheOf([]) == NOTHING
  {
  }
}
