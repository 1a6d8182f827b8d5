/** The WebSocket hub as a transition system: the hub goroutine, one reader and one writer goroutine per
    client, interleaved step by step. A broadcast is one step per client visited, in any order, and writers may
    take messages between those steps. Sending on or closing a closed channel is the outcome `Panicked`. */
module HubModel {
  import opened Options

  type Message = string

  const CAPACITY := 256

  /** One client: its send channel, what its writer has taken from it, and the part of the broadcast history
      that concerns it: from `joined`, up to `left` once the hub has dropped it. */
  datatype Client = Client(
    buffer: seq<Message>,
    open: bool,
    taken: seq<Message>,
    joined: nat,
    left: Option<nat>,
    reading: bool,
    writing: bool)

  /** `clients` is the hub's map; `todo` are the clients the current broadcast has still to visit. */
  datatype Hub<C(==)> = Hub(clients: set<C>, conns: map<C, Client>, history: seq<Message>, todo: set<C>)

  datatype Event<C> =
    | Register(client: C)       // the hub receives from `register`
    | Unregister(client: C)     // the hub receives from `unregister`: the client's reader has ended
    | Broadcast(message: Message)  // the hub receives from `broadcast`
    | Visit(client: C)          // one iteration of the broadcast loop
    | Take(client: C)           // the client's writer receives from its channel
    | WriterEnds(client: C)     // a write to the connection failed

  datatype Outcome<C(==)> = Running(hub: Hub<C>) | Panicked

  function NewHub<C>(): Hub<C> {
    Hub({}, map[], [], {})
  }

  /** When an event can happen: the hub takes its next event only between broadcasts, each client registers
      once and its reader ends once, after that, and a writer receives only from a channel holding something. */
  predicate Enabled<C>(h: Hub<C>, e: Event<C>) {
    match e
    case Register(c) => h.todo == {} && c !in h.conns
    case Unregister(c) => h.todo == {} && c in h.conns && h.conns[c].reading
    case Broadcast(_) => h.todo == {}
    case Visit(c) => c in h.todo && c in h.conns && h.history != []
    case Take(c) => c in h.conns && h.conns[c].writing && h.conns[c].buffer != []
    case WriterEnds(c) => c in h.conns && h.conns[c].writing
  }

  function Update<C>(h: Hub<C>, c: C, conn: Client): Hub<C> {
    h.(conns := h.conns[c := conn])
  }

  /** `close(client.send)` together with the deletion from the map. */
  function Drop<C>(h: Hub<C>, c: C, end: nat): Outcome<C>
    requires c in h.conns
  {
    if !h.conns[c].open then Panicked
    else Running(Update(h.(clients := h.clients - {c}), c, h.conns[c].(open := false, left := Some(end))))
  }

  function Step<C>(h: Hub<C>, e: Event<C>): Outcome<C>
    requires Enabled(h, e)
  {
    match e
    case Register(c) =>
      Running(Update(h.(clients := h.clients + {c}), c, Client([], true, [], |h.history|, None, true, true)))
    case Unregister(c) =>
      var h1 := Update(h, c, h.conns[c].(reading := false));
      if c in h.clients then Drop(h1, c, |h.history|) else Running(h1)
    case Broadcast(m) =>
      Running(h.(history := h.history + [m], todo := h.clients))
    case Visit(c) =>
      var h1 := h.(todo := h.todo - {c});
      if !h.conns[c].open then Panicked
      else if |h.conns[c].buffer| < CAPACITY
      then Running(Update(h1, c, h.conns[c].(buffer := h.conns[c].buffer + [h.history[|h.history| - 1]])))
      else Drop(h1, c, |h.history| - 1)
    case Take(c) =>
      var conn := h.conns[c];
      Running(Update(h, c, conn.(buffer := conn.buffer[1..], taken := conn.taken + [conn.buffer[0]])))
    case WriterEnds(c) =>
      Running(Update(h, c, h.conns[c].(writing := false)))
  }

  /** A run: each event enabled where it happens; a panic ends it. */
  predicate Possible<C(==)>(events: seq<Event<C>>)
    decreases |events|, 0
  {
    events == [] ||
    var before := events[..|events| - 1];
    Possible(before) && Run(before).Running? && Enabled(Run(before).hub, events[|events| - 1])
  }

  function Run<C>(events: seq<Event<C>>): Outcome<C>
    requires Possible(events)
    decreases |events|, 1
  {
    if events == [] then Running(NewHub())
    else Step(Run(events[..|events| - 1]).hub, events[|events| - 1])
  }

  /* ----- what holds at every moment of every run ----- */

  /** The messages that concern a client so far: broadcast since it joined, up to the one being delivered to
      others just now if its own turn has not come, or to where it was dropped. */
  function Due<C>(h: Hub<C>, c: C): (end: int)
    requires c in h.conns
  {
    if h.conns[c].left.Some? then h.conns[c].left.value
    else if c in h.todo then |h.history| - 1
    else |h.history|
  }

  ghost predicate ClientInv<C>(h: Hub<C>, c: C)
    requires c in h.conns
  {
    var conn := h.conns[c];
    && (c in h.clients <==> conn.open)
    && (conn.open <==> conn.left.None?)
    && |conn.buffer| <= CAPACITY
    && 0 <= conn.joined <= Due(h, c) <= |h.history|
    && conn.taken + conn.buffer == h.history[conn.joined..Due(h, c)]
  }

  ghost predicate Inv<C>(h: Hub<C>) {
    && h.todo <= h.clients <= h.conns.Keys
    && (h.todo != {} ==> h.history != [])
    && forall c | c in h.conns :: ClientInv(h, c)
  }

  /** A step that touches one client's channel only, and keeps that client right, keeps the invariant. */
  lemma OneClientStep<C>(h: Hub<C>, r: Hub<C>, c: C)
    requires Inv(h) && c in r.conns && r.history == h.history
    requires r.conns.Keys == h.conns.Keys + {c} && r.clients - {c} == h.clients - {c} && r.todo - {c} == h.todo - {c}
    requires forall d | d in h.conns && d != c :: r.conns[d] == h.conns[d]
    requires ClientInv(r, c) && r.todo <= r.clients && (r.todo != {} ==> r.history != [])
    ensures Inv(r)
  {
    forall d | d in r.conns ensures ClientInv(r, d) {
      if d != c {
        assert ClientInv(h, d);
        assert d in r.clients <==> d in r.clients - {c};
        assert d in h.clients <==> d in h.clients - {c};
        assert d in r.todo <==> d in r.todo - {c};
        assert d in h.todo <==> d in h.todo - {c};
      }
    }
    forall d | d in r.clients ensures d in r.conns.Keys {
      if d != c {
        assert d in r.clients - {c};
      }
    }
  }

  lemma BroadcastKeepsInv<C>(h: Hub<C>, m: Message)
    requires Inv(h) && h.todo == {}
    ensures Inv(Step(h, Broadcast(m)).hub)
  {
    var r := Step(h, Broadcast(m)).hub;
    forall d | d in r.conns ensures ClientInv(r, d) {
      assert ClientInv(h, d);
      assert r.history[h.conns[d].joined..Due(h, d)] == h.history[h.conns[d].joined..Due(h, d)];
    }
  }

  lemma VisitKeepsInv<C>(h: Hub<C>, c: C)
    requires Inv(h) && Enabled(h, Visit(c))
    ensures Step(h, Visit(c)).Running? && Inv(Step(h, Visit(c)).hub)
  {
    VisitKeepsClient(h, c);
    OneClientStep(h, Step(h, Visit(c)).hub, c);
  }

  lemma VisitKeepsClient<C>(h: Hub<C>, c: C)
    requires Inv(h) && Enabled(h, Visit(c))
    ensures Step(h, Visit(c)).Running? && ClientInv(Step(h, Visit(c)).hub, c)
  {
    assert ClientInv(h, c);
    OneMoreTaken(h.conns[c].taken, h.conns[c].buffer, h.history, h.conns[c].joined);
  }

  lemma OneMoreTaken(taken: seq<Message>, buffer: seq<Message>, history: seq<Message>, joined: nat)
    requires joined < |history| && taken + buffer == history[joined..|history| - 1]
    ensures taken + (buffer + [history[|history| - 1]]) == history[joined..]
  {
    assert taken + (buffer + [history[|history| - 1]]) == (taken + buffer) + [history[|history| - 1]];
  }

  lemma UnregisterKeepsInv<C>(h: Hub<C>, c: C)
    requires Inv(h) && Enabled(h, Unregister(c))
    ensures Step(h, Unregister(c)).Running? && Inv(Step(h, Unregister(c)).hub)
  {
    assert ClientInv(h, c);
    OneClientStep(h, Step(h, Unregister(c)).hub, c);
  }

  lemma TakeKeepsInv<C>(h: Hub<C>, c: C)
    requires Inv(h) && Enabled(h, Take(c))
    ensures Step(h, Take(c)).Running? && Inv(Step(h, Take(c)).hub)
  {
    assert ClientInv(h, c);
    var conn := h.conns[c];
    assert conn.taken + [conn.buffer[0]] + conn.buffer[1..] == conn.taken + conn.buffer;
    OneClientStep(h, Step(h, Take(c)).hub, c);
  }

  lemma StepKeepsInv<C>(h: Hub<C>, e: Event<C>)
    requires Inv(h) && Enabled(h, e)
    ensures Step(h, e).Running? && Inv(Step(h, e).hub)
  {
    match e
    case Broadcast(m) => BroadcastKeepsInv(h, m);
    case Visit(c) => VisitKeepsInv(h, c);
    case Unregister(c) => UnregisterKeepsInv(h, c);
    case Register(c) => OneClientStep(h, Step(h, e).hub, c);
    case Take(c) => TakeKeepsInv(h, c);
    case WriterEnds(c) =>
      assert ClientInv(h, c);
      OneClientStep(h, Step(h, e).hub, c);
  }

  /** No interleaving ever sends on a closed channel or closes one twice. */
  lemma {:induction false} NeverPanics<C>(events: seq<Event<C>>)
    requires Possible(events)
    ensures Run(events).Running? && Inv(Run(events).hub)
  {
    if events != [] {
      NeverPanics(events[..|events| - 1]);
      StepKeepsInv(Run(events[..|events| - 1]).hub, events[|events| - 1]);
    }
  }

  /** Gap-free delivery: what a client's writer has taken, followed by what waits in its channel, is the
      contiguous stretch of the broadcast history from its registration on. */
  lemma GapFree<C>(events: seq<Event<C>>, c: C)
    requires Possible(events) && Run(events).Running? && c in Run(events).hub.conns
    ensures var h := Run(events).hub;
            var conn := h.conns[c];
            && 0 <= conn.joined <= Due(h, c) <= |h.history|
            && conn.taken + conn.buffer == h.history[conn.joined..Due(h, c)]
            && (c in h.clients <==> conn.open)
            && (c in h.clients ==> Due(h, c) == |h.history| - (if c in h.todo then 1 else 0))
  {
    NeverPanics(events);
    assert ClientInv(Run(events).hub, c);
  }

  /** The messages of the broadcasts in a run, in order. */
  function Broadcasts<C>(events: seq<Event<C>>): seq<Message> {
    if events == [] then []
    else
      var last := events[|events| - 1];
      Broadcasts(events[..|events| - 1]) + if last.Broadcast? then [last.message] else []
  }

  /** A registered client has registered once, when as many broadcasts had been made as its part of the history
      leaves out; and the history is the broadcasts. */
  lemma {:induction false} HistoryIsBroadcasts<C>(events: seq<Event<C>>)
    requires Possible(events) && Run(events).Running?
    ensures Run(events).hub.history == Broadcasts(events)
    ensures forall c | c in Run(events).hub.conns :: JoinedAt(events, c, Run(events).hub.conns[c].joined)
  {
    if events != [] {
      var before, last := events[..|events| - 1], events[|events| - 1];
      HistoryIsBroadcasts(before);
      assert Broadcasts(before) + [] == Broadcasts(before);
      forall c | c in Run(events).hub.conns ensures JoinedAt(events, c, Run(events).hub.conns[c].joined) {
        StillJoined(before, last, c);
        assert events == before + [last];
      }
    }
  }

  lemma StillJoined<C>(before: seq<Event<C>>, last: Event<C>, c: C)
    requires Possible(before) && Run(before).Running? && Enabled(Run(before).hub, last)
    requires var h, after := Run(before).hub, Step(Run(before).hub, last);
             && h.history == Broadcasts(before) && after.Running? && c in after.hub.conns
             && (c in h.conns ==> JoinedAt(before, c, h.conns[c].joined))
    ensures JoinedAt(before + [last], c, Step(Run(before).hub, last).hub.conns[c].joined)
  {
    var h, events := Run(before).hub, before + [last];
    if last == Register(c) {
      assert events[..|before|] == before;
      assert JoinsAt(events, |before|, c, |Broadcasts(before)|);
    } else {
      var k: nat :| JoinsAt(before, k, c, h.conns[c].joined);
      assert events[..k] == before[..k];
      assert JoinsAt(events, k, c, h.conns[c].joined);
    }
  }

  predicate JoinsAt<C(==)>(events: seq<Event<C>>, k: nat, c: C, joined: nat) {
    k < |events| && events[k] == Register(c) && joined == |Broadcasts(events[..k])|
  }

  ghost predicate JoinedAt<C>(events: seq<Event<C>>, c: C, joined: nat) {
    exists k: nat :: JoinsAt(events, k, c, joined)
  }

  /** Told by the events alone: what the writer of a registered client has taken, followed by what waits in its
      channel, are messages broadcast after it registered, without a gap; between broadcasts, while it is
      listed, all of them. */
  lemma DeliversBroadcasts<C>(events: seq<Event<C>>, c: C) returns (k: nat, n: nat)
    requires Possible(events) && Run(events).Running? && c in Run(events).hub.conns
    ensures k < |events| && events[k] == Register(c) && |Broadcasts(events[..k])| <= n <= |Broadcasts(events)|
    ensures var h := Run(events).hub;
            && h.conns[c].taken + h.conns[c].buffer == Broadcasts(events)[|Broadcasts(events[..k])|..n]
            && (c in h.clients && h.todo == {} ==> n == |Broadcasts(events)|)
  {
    var h := Run(events).hub;
    GapFree(events, c);
    HistoryIsBroadcasts(events);
    k :| JoinsAt(events, k, c, h.conns[c].joined);
    n := Due(h, c);
  }

  /** Any two clients agree on every message of the history that both have been given. */
  lemma ClientsAgree<C>(events: seq<Event<C>>, c: C, d: C, k: nat)
    requires Possible(events) && Run(events).Running?
    requires c in Run(events).hub.conns && d in Run(events).hub.conns
    requires var h := Run(events).hub;
             && h.conns[c].joined <= k < h.conns[c].joined + |h.conns[c].taken|
             && h.conns[d].joined <= k < h.conns[d].joined + |h.conns[d].taken|
    ensures var h := Run(events).hub;
            h.conns[c].taken[k - h.conns[c].joined] == h.conns[d].taken[k - h.conns[d].joined]
  {
    var h := Run(events).hub;
    TakenAt(events, c, k);
    TakenAt(events, d, k);
  }

  lemma TakenAt<C>(events: seq<Event<C>>, c: C, k: nat)
    requires Possible(events) && Run(events).Running? && c in Run(events).hub.conns
    requires var conn := Run(events).hub.conns[c]; conn.joined <= k < conn.joined + |conn.taken|
    ensures var h := Run(events).hub;
            k < |h.history| && h.conns[c].taken[k - h.conns[c].joined] == h.history[k]
  {
    GapFree(events, c);
    var h := Run(events).hub;
    var conn := h.conns[c];
    TakenFrom(conn.taken, conn.buffer, h.history, conn.joined, Due(h, c), k);
  }

  lemma TakenFrom(taken: seq<Message>, buffer: seq<Message>, history: seq<Message>, joined: nat, due: nat, k: nat)
    requires joined <= due <= |history| && taken + buffer == history[joined..due] && joined <= k < joined + |taken|
    ensures k < |history| && taken[k - joined] == history[k]
  {
    assert taken[k - joined] == (taken + buffer)[k - joined] == history[joined..due][k - joined];
  }

  /** The hub before event `n` of a run, or after all of it. */
  function HubAt<C>(events: seq<Event<C>>, n: nat): Hub<C>
    requires Possible(events) && Run(events).Running? && n <= |events|
    decreases |events|
  {
    if n == |events| then Run(events).hub else HubAt(events[..|events| - 1], n)
  }

  lemma {:induction false} HubAtNext<C>(events: seq<Event<C>>, n: nat)
    requires Possible(events) && Run(events).Running? && n < |events|
    ensures Enabled(HubAt(events, n), events[n]) && Inv(HubAt(events, n))
    ensures Step(HubAt(events, n), events[n]) == Running(HubAt(events, n + 1))
    decreases |events|
  {
    if n < |events| - 1 {
      HubAtNext(events[..|events| - 1], n);
    } else {
      NeverPanics(events[..n]);
    }
  }

  /** Event `k` takes a listed client off the map: its reader has ended, or a broadcast finds its channel full. */
  predicate DropsAt<C(==)>(events: seq<Event<C>>, k: nat, c: C)
    requires Possible(events) && Run(events).Running?
  {
    && k < |events| && c in HubAt(events, k).clients && c in HubAt(events, k).conns
    && (events[k] == Unregister(c) || (events[k] == Visit(c) && |HubAt(events, k).conns[c].buffer| == 256))
  }

  lemma DropStep<C>(h: Hub<C>, e: Event<C>, c: C)
    requires Inv(h) && Enabled(h, e) && Step(h, e).Running? && c in Step(h, e).hub.conns
    ensures var r := Step(h, e).hub;
            c !in r.clients <==>
              || (c in h.conns && c !in h.clients)
              || (c in h.clients && (e == Unregister(c) || (e == Visit(c) && |h.conns[c].buffer| == CAPACITY)))
  {
    if c in h.conns { assert ClientInv(h, c); }
  }

  /** In every run a registered client is off the map exactly when its reader has ended or a broadcast has found
      256 messages waiting. */
  lemma {:induction false} EvictedOnlyWhenFull<C>(events: seq<Event<C>>, c: C)
    requires Possible(events) && Run(events).Running? && c in Run(events).hub.conns
    ensures c !in Run(events).hub.clients <==> exists k: nat :: DropsAt(events, k, c)
  {
    if events != [] {
      var n := |events| - 1;
      var before := events[..n];
      HubAtNext(events, n);
      DropStep(HubAt(events, n), events[n], c);
      assert forall k: nat | k < n :: DropsAt(events, k, c) <==> DropsAt(before, k, c);
      if c in Run(before).hub.conns {
        EvictedOnlyWhenFull(before, c);
        if k: nat :| DropsAt(before, k, c) {
          assert DropsAt(events, k, c);
        } else {
          assert forall k: nat :: DropsAt(events, k, c) ==> k == n;
          assert c in HubAt(events, n).clients;
          assert DropsAt(events, n, c) <==> c !in Run(events).hub.clients;
        }
      } else {
        NeverListedBefore(before, c);
      }
    }
  }

  lemma {:induction false} NeverListedBefore<C>(events: seq<Event<C>>, c: C)
    requires Possible(events) && Run(events).Running? && c !in Run(events).hub.conns
    ensures forall k: nat :: !DropsAt(events, k, c)
  {
    if events != [] {
      var n := |events| - 1;
      assert forall k: nat | k < n :: DropsAt(events, k, c) <==> DropsAt(events[..n], k, c);
      NeverListedBefore(events[..n], c);
    }
  }

  /** A client off the map at some moment of a run is never listed or opened again in it, and is given nothing
      more and loses nothing, whatever happens: its late unregistration, further broadcasts, its writer
      draining the channel. */
  lemma {:induction false} FrozenOnceDropped<C>(events: seq<Event<C>>, n: nat, c: C)
    requires Possible(events) && Run(events).Running? && n <= |events|
    requires c in HubAt(events, n).conns && c !in HubAt(events, n).clients
    ensures var h, r := HubAt(events, n), Run(events).hub;
            && c in r.conns && c !in r.clients && !r.conns[c].open
            && r.conns[c].left == h.conns[c].left
            && r.conns[c].taken + r.conns[c].buffer == h.conns[c].taken + h.conns[c].buffer
    decreases |events|
  {
    NeverPanics(events);
    assert c in Run(events).hub.conns ==> ClientInv(Run(events).hub, c);
    if n < |events| {
      FrozenOnceDropped(events[..|events| - 1], n, c);
      HubAtNext(events, |events| - 1);
      FrozenStep(HubAt(events, |events| - 1), events[|events| - 1], c);
    }
  }

  lemma FrozenStep<C>(h: Hub<C>, e: Event<C>, c: C)
    requires Inv(h) && Enabled(h, e) && Step(h, e).Running? && c in h.conns && c !in h.clients
    ensures var r := Step(h, e).hub;
            && c in r.conns && c !in r.clients && r.conns[c].left == h.conns[c].left
            && r.conns[c].taken + r.conns[c].buffer == h.conns[c].taken + h.conns[c].buffer
  {
    assert ClientInv(h, c);
    if e == Take(c) {
      var conn := h.conns[c];
      assert conn.taken + [conn.buffer[0]] + conn.buffer[1..] == conn.taken + conn.buffer;
    }
  }

  /** A client evicted by a broadcast keeps, to the end of the run, every message broadcast before the one that
      did not fit, and no other. */
  lemma EvictedKeepsTheRest<C>(events: seq<Event<C>>, k: nat, c: C)
    requires Possible(events) && Run(events).Running? && DropsAt(events, k, c) && events[k] == Visit(c)
    ensures c in Run(events).hub.conns
    ensures var conn, n := Run(events).hub.conns[c], |HubAt(events, k).history|;
            && 0 <= conn.joined <= n - 1 < |Run(events).hub.history|
            && conn.taken + conn.buffer == Run(events).hub.history[conn.joined..n - 1]
  {
    HubAtNext(events, k);
    assert ClientInv(HubAt(events, k), c);
    FrozenOnceDropped(events, k + 1, c);
    GapFree(events, c);
    HistoryGrows(events, k);
  }

  lemma {:induction false} HistoryGrows<C>(events: seq<Event<C>>, n: nat)
    requires Possible(events) && Run(events).Running? && n <= |events|
    ensures HubAt(events, n).history <= Run(events).hub.history
    decreases |events|
  {
    if n < |events| { HistoryGrows(events[..|events| - 1], n); }
  }

  /* ----- the broadcast loop ----- */

  /** What a broadcast should do to one client. */
  function Delivered(conn: Client, m: Message, end: nat): Client {
    if |conn.buffer| < CAPACITY then conn.(buffer := conn.buffer + [m]) else conn.(open := false, left := Some(end))
  }

  /** What a broadcast should do to the hub: push where there is room, close and remove where there is not. */
  function DeliverAll<C>(h: Hub<C>, m: Message): Hub<C>
    requires h.clients <= h.conns.Keys
  {
    Hub(set c | c in h.clients && |h.conns[c].buffer| < CAPACITY,
        map c | c in h.conns :: if c in h.clients then Delivered(h.conns[c], m, |h.history|) else h.conns[c],
        h.history + [m], {})
  }

  /** The hub with the clients of `todo` still as they were before the broadcast. */
  function PartWay<C>(h: Hub<C>, m: Message, todo: set<C>): Hub<C>
    requires h.clients <= h.conns.Keys
  {
    Hub(set c | c in h.clients && (c in todo || |h.conns[c].buffer| < CAPACITY),
        map c | c in h.conns ::
          if c in h.clients && c !in todo then Delivered(h.conns[c], m, |h.history|) else h.conns[c],
        h.history + [m], todo)
  }

  lemma VisitAdvances<C>(h: Hub<C>, m: Message, todo: set<C>, c: C)
    requires Inv(h) && todo <= h.clients && c in todo
    ensures Enabled(PartWay(h, m, todo), Visit(c))
    ensures Step(PartWay(h, m, todo), Visit(c)) == Running(PartWay(h, m, todo - {c}))
  {
    assert ClientInv(h, c);
    var before, after := PartWay(h, m, todo), PartWay(h, m, todo - {c});
    assert before.conns[c] == h.conns[c] && before.history[|before.history| - 1] == m;
    PartWayConns(h, m, todo, c);
    PartWayClients(h, m, todo, c);
  }

  lemma PartWayConns<C>(h: Hub<C>, m: Message, todo: set<C>, c: C)
    requires Inv(h) && todo <= h.clients && c in todo
    ensures PartWay(h, m, todo - {c}).conns
         == PartWay(h, m, todo).conns[c := Delivered(h.conns[c], m, |h.history|)]
  {
  }

  lemma PartWayClients<C>(h: Hub<C>, m: Message, todo: set<C>, c: C)
    requires Inv(h) && todo <= h.clients && c in todo
    ensures PartWay(h, m, todo - {c}).clients
         == PartWay(h, m, todo).clients - if |h.conns[c].buffer| < CAPACITY then {} else {c}
  {
  }

  /** The visits of a whole broadcast, in the order given. */
  function VisitAll<C>(h: Hub<C>, order: seq<C>): Outcome<C>
    decreases |order|
  {
    if order == [] then Running(h)
    else if !Enabled(h, Visit(order[0])) then Panicked
    else
      var r := Step(h, Visit(order[0]));
      if r.Panicked? then Panicked else VisitAll(r.hub, order[1..])
  }

  /** Whatever order the client map is ranged over in, deleting on the way, the outcome is the same. */
  lemma {:induction false} OrderDoesNotMatter<C>(h: Hub<C>, m: Message, todo: set<C>, order: seq<C>)
    requires Inv(h) && todo <= h.clients
    requires forall c :: c in order <==> c in todo
    requires forall i, j | 0 <= i < j < |order| :: order[i] != order[j]
    ensures VisitAll(PartWay(h, m, todo), order) == Running(DeliverAll(h, m))
  {
    if order == [] {
      assert todo == {};
      assert PartWay(h, m, {}).conns == DeliverAll(h, m).conns;
      assert PartWay(h, m, {}).clients == DeliverAll(h, m).clients;
    } else {
      VisitAdvances(h, m, todo, order[0]);
      assert forall c :: c in order[1..] <==> c in todo - {order[0]};
      OrderDoesNotMatter(h, m, todo - {order[0]}, order[1..]);
    }
  }

  /** The same from the step that receives the message. */
  lemma BroadcastDeliversAll<C>(h: Hub<C>, m: Message, order: seq<C>)
    requires Inv(h) && h.todo == {}
    requires forall c :: c in order <==> c in h.clients
    requires forall i, j | 0 <= i < j < |order| :: order[i] != order[j]
    ensures VisitAll(Step(h, Broadcast(m)).hub, order) == Running(DeliverAll(h, m))
  {
    StartsPartWay(h, m);
    OrderDoesNotMatter(h, m, h.clients, order);
  }

  lemma StartsPartWay<C>(h: Hub<C>, m: Message)
    requires Inv(h) && h.todo == {}
    ensures PartWay(h, m, h.clients) == Step(h, Broadcast(m)).hub
  {
    assert Step(h, Broadcast(m)).hub.conns == PartWay(h, m, h.clients).conns;
    assert Step(h, Broadcast(m)).hub.clients == PartWay(h, m, h.clients).clients;
  }

  /** A finished broadcast is the pointwise one, and keeps the invariant. */
  lemma EndsPartWay<C>(h: Hub<C>, m: Message)
    requires Inv(h) && h.todo == {}
    ensures PartWay(h, m, {}) == DeliverAll(h, m) && Inv(DeliverAll(h, m))
  {
    assert PartWay(h, m, {}).conns == DeliverAll(h, m).conns;
    assert PartWay(h, m, {}).clients == DeliverAll(h, m).clients;
    StartsPartWay(h, m);
    BroadcastKeepsInv(h, m);
    VisitsKeepInv(h, m, h.clients);
  }

  lemma {:induction false} VisitsKeepInv<C>(h: Hub<C>, m: Message, todo: set<C>)
    requires Inv(h) && todo <= h.clients && Inv(PartWay(h, m, todo))
    ensures Inv(PartWay(h, m, {}))
  {
    if c :| c in todo {
      VisitAdvances(h, m, todo, c);
      VisitKeepsInv(PartWay(h, m, todo), c);
      VisitsKeepInv(h, m, todo - {c});
    }
  }
}
