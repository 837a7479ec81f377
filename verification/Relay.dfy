/**
 * The stream relay as a step system: the publisher's reading goroutine, the bounded channel, the loop
 * with its hand-over in two steps, and the players. Starting the goroutine and registering it with the
 * wait group is one step.
 */
module Relay {
  import opened Bytes
  import opened StreamWriters
  import opened Caches

  const CHANNEL: nat := 16

  /**
   * Waiting: the loop has closed the old publisher and waits for its goroutine before it takes the next one.
   * Crashed: the process has died, sending on a closed channel.
   */
  datatype Phase = Looping | Waiting(next: nat) | Exited | Crashed

  /** session is the number of the current publisher; log is every packet read, tagged with its place in it. */
  datatype State = State(
    phase: Phase, reader: Option<nat>, session: nat, running: bool, held: Option<Packet>, chan: seq<Packet>,
    writers: seq<nat>, ws: map<nat, Writer>, accepted: set<nat>, log: seq<Packet>,
    pendingWriters: set<nat>, pendingReaders: set<nat>, closedReaders: set<nat>)

  const START: State := State(Looping, None, 0, false, None, [], [], map[], {}, [], {}, {}, {})

  datatype Action =
    | AddWriter(w: nat)
    | AddReader(r: nat)
    | Read(kind: Kind, header: bool, time: U32)
    | Push
    | ReadFails
    | Deliver
    | Join(w: nat, lateWriters: set<nat>, lateReaders: set<nat>)
    | Take(r: nat)
    | Finish
    | Tick(alive: bool, dead: set<nat>, lateWriters: set<nat>, lateReaders: set<nat>)
    | PlayerSends(w: nat, connOk: bool)
    | PlayerCloses(w: nat)

  // ---------- the loop's side, as functions ----------

  /** One packet to every writer, in the order of the list. */
  function Broadcast(ws: map<nat, Writer>, list: seq<nat>, p: Packet): (r: map<nat, Writer>)
    requires forall w :: w in list ==> w in ws
    ensures r.Keys == ws.Keys
    decreases |list|
  {
    if list == [] then ws
    else
      var (w1, ok) := Offered(ws[list[0]], p);
      Broadcast(ws[list[0] := if ok then w1 else Closed(w1)], list[1..], p)
  }

  /** The writers whose Write gave no error, in order. */
  function StillOpen(ws: map<nat, Writer>, list: seq<nat>): (r: seq<nat>)
    requires forall w :: w in list ==> w in ws
    ensures forall w :: w in r <==> w in list && !ws[w].closed
    decreases |list|
  {
    if list == [] then []
    else (if ws[list[0]].closed then [] else [list[0]]) + StillOpen(ws, list[1..])
  }

  function RebaseAll(ws: map<nat, Writer>, list: seq<nat>): (r: map<nat, Writer>)
    requires forall w :: w in list ==> w in ws
    ensures r.Keys == ws.Keys
    decreases |list|
  {
    if list == [] then ws else RebaseAll(ws[list[0] := Rebased(ws[list[0]])], list[1..])
  }

  function CloseAll(ws: map<nat, Writer>, which: set<nat>): (r: map<nat, Writer>)
    ensures r.Keys == ws.Keys
  {
    map w | w in ws :: if w in which then Closed(ws[w]) else ws[w]
  }

  function Without(list: seq<nat>, dead: set<nat>): (r: seq<nat>)
    ensures forall w :: w in r <==> w in list && w !in dead
    decreases |list|
  {
    if list == [] then []
    else (if list[0] in dead then [] else [list[0]]) + Without(list[1..], dead)
  }

  /** What the cache sends to a writer that joins: the publisher's goroutine has put every packet of the log in it. */
  function FromCache(s: State): (ps: seq<Packet>)
    ensures |ps| <= 3
  {
    ToSend(CacheOf(s.log))
  }

  /** How many cached packets still fit into the writer's queue. */
  function Room(x: Writer, cached: seq<Packet>): (n: nat)
    ensures n <= |cached|
  {
    if |x.queue| + |cached| <= MAX_QUEUE_NUM then |cached|
    else if |x.queue| >= MAX_QUEUE_NUM then 0
    else MAX_QUEUE_NUM - |x.queue|
  }

  /** The deferred close: the publisher, what is still waiting in the two channels, and every writer. */
  function CloseStream(s: State, lateWriters: set<nat>, lateReaders: set<nat>): State {
    s.(phase := Exited,
       closedReaders := s.closedReaders + (if s.reader.Some? then {s.reader.value} else {}) + lateReaders,
       ws := CloseAll(s.ws, lateWriters + set w | w in s.writers),
       pendingWriters := s.pendingWriters - lateWriters, pendingReaders := s.pendingReaders - lateReaders)
  }

  /** The cache did not fit: the writer is closed and the loop returns. */
  function Refused(s: State, w: nat, cached: seq<Packet>, lateWriters: set<nat>, lateReaders: set<nat>): State
    requires w in s.ws
  {
    var x := s.ws[w];
    CloseStream(s.(ws := s.ws[w := Closed(Fed(x, cached[..Room(x, cached)]))]), lateWriters, lateReaders)
  }

  // ---------- the steps ----------

  /** Every writer in the list has a state. */
  predicate Known(s: State) {
    forall w :: w in s.writers ==> w in s.ws
  }

  predicate Enabled(s: State, a: Action)
    requires Known(s)
  {
    s.phase != Crashed &&
    match a
    case AddWriter(w) => w !in s.ws
    case AddReader(r) => r !in s.pendingReaders && r !in s.closedReaders && s.reader != Some(r)
    case Read(_, _, _) => s.running && s.held == None
    case Push => s.held.Some?
    case ReadFails => s.running && s.held == None
    case Deliver => s.phase == Looping && s.chan != []
    case Join(w, lateWriters, lateReaders) =>
      s.phase == Looping && w in s.pendingWriters && w in s.ws
      && lateWriters <= s.pendingWriters - {w} && lateReaders <= s.pendingReaders
    case Take(r) => s.phase == Looping && r in s.pendingReaders
    case Finish => s.phase.Waiting? && !s.running
    case Tick(_, dead, lateWriters, lateReaders) =>
      s.phase == Looping && (forall w :: w in dead ==> w in s.writers)
      && lateWriters <= s.pendingWriters && lateReaders <= s.pendingReaders
    case PlayerSends(w, _) => w in s.ws
    case PlayerCloses(w) => w in s.ws
  }

  function Next(s: State, a: Action): State
    requires Known(s)
    requires Enabled(s, a)
  {
    match a
    case AddWriter(w) => s.(ws := s.ws[w := FRESH], pendingWriters := s.pendingWriters + {w})
    case AddReader(r) => s.(pendingReaders := s.pendingReaders + {r})
    case Read(kind, header, time) =>
      var p := Packet(kind, header, time, |s.log|, s.session);
      s.(held := Some(p), log := s.log + [p])
    case Push => s.(held := None, chan := if |s.chan| < CHANNEL then s.chan + [s.held.value] else s.chan)
    case ReadFails => s.(running := false)
    case Deliver =>
      var ws := Broadcast(s.ws, s.writers, s.chan[0]);
      s.(chan := s.chan[1..], ws := ws, writers := StillOpen(ws, s.writers))
    case Join(w, lateWriters, lateReaders) =>
      var x, cached := s.ws[w], FromCache(s);
      var t := s.(pendingWriters := s.pendingWriters - {w});
      if cached != [] && x.closed then t.(phase := Crashed)
      else if cached != [] && |x.queue| + |cached| > MAX_QUEUE_NUM then Refused(t, w, cached, lateWriters, lateReaders)
      else t.(ws := s.ws[w := Fed(x, cached)], writers := s.writers + [w], accepted := s.accepted + {w})
    case Take(r) =>
      var t := s.(pendingReaders := s.pendingReaders - {r});
      if s.reader.Some? then t.(phase := Waiting(r), closedReaders := s.closedReaders + {s.reader.value})
      else t.(reader := Some(r), running := true)
    case Finish =>
      s.(phase := Looping, chan := [], ws := RebaseAll(s.ws, s.writers),
         reader := Some(s.phase.next), session := s.session + 1, running := true)
    case Tick(alive, dead, lateWriters, lateReaders) =>
      if s.reader == None || !alive then CloseStream(s, lateWriters, lateReaders)
      else s.(ws := CloseAll(s.ws, dead), writers := Without(s.writers, dead))
    case PlayerSends(w, connOk) => s.(ws := s.ws[w := SentOne(s.ws[w], connOk)])
    case PlayerCloses(w) => s.(ws := s.ws[w := Closed(s.ws[w])])
  }
}
