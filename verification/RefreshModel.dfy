/** The single-flight refresh of the mockup plugin: requests, file changes and discoveries, interleaved. The
    code between two awaits is one step, so a step is either a call of `refresh` up to its await (or return),
    or what runs when a discovery settles: up to the next await, or until the whole chain returns. */
module RefreshModel {
  import opened Options
  import opened GeneratedSource

  /** The closure variables, the suspended callers' `changed` flags (outermost first), the file on disk. */
  datatype Plugin = Plugin(
    inFlight: bool,
    queued: bool,
    source: string,
    frames: seq<bool>,
    file: Option<string>)

  /** `refresh()` up to its first await, or its immediate return. */
  function Begin(p: Plugin): Plugin {
    if p.inFlight then p.(queued := true) else p.(inFlight := true)
  }

  /** The value the outermost call returns once the innermost returns `last`. */
  function Unwind(frames: seq<bool>, last: bool): bool {
    if frames == [] then last else Unwind(frames[..|frames| - 1], frames[|frames| - 1] || last)
  }

  function Write(p: Plugin, l: Listing): Plugin {
    var newSource := GenerateSource(l);
    if newSource != p.source then p.(source := newSource, file := Some(newSource)) else p
  }

  predicate Changes(p: Plugin, l: Listing) {
    GenerateSource(l) != p.source
  }

  /** A discovery resolved: the rest of `refresh`, the recursive call included. */
  function Resume(p: Plugin, l: Listing): (Plugin, Option<bool>) {
    var p1 := Write(p, l).(inFlight := false);
    if p1.queued then (Begin(p1.(queued := false, frames := p1.frames + [Changes(p, l)])), None)
    else (p1.(frames := []), Some(Unwind(p1.frames, Changes(p, l))))
  }

  /** A discovery rejected: the flag is reset and the rejection reaches the outermost caller. */
  function Reject(p: Plugin): Plugin {
    p.(inFlight := false, frames := [])
  }

  /** A discovery resolved and writing the file threw, leaving `left` on disk: the source is replaced already. */
  function Unwritten(p: Plugin, l: Listing, left: Option<string>): Plugin {
    Reject(p).(source := GenerateSource(l), file := left)
  }

  /* ----- the plugin in its surroundings ----- */

  datatype Event =
    | Change(tree: set<string>)    // mockup files were added or removed
    | Request                      // someone calls refresh()
    | Complete(listing: Listing)   // the discovery in flight resolves
    | Fail                         // the discovery in flight rejects
    | WriteFails(listing: Listing, left: Option<string>)  // it resolves, and writing the file throws

  predicate Rejects(e: Event) {
    e.Fail? || e.WriteFails?
  }

  /** What an initiating call returned, and how many files its chain wrote. */
  datatype Return = Return(value: bool, writes: nat)

  /** `now` counts events; the other times are those of the latest event of their kind. `shown` is the listing
      behind the current source, `intact` tells whether the last write left the whole of that source. */
  datatype World = World(
    plugin: Plugin,
    tree: set<string>,
    now: nat, lastChange: nat, lastRequest: nat, lastStart: nat,
    requests: nat, starts: nat, ends: nat,
    lastFailed: bool,
    chainWrites: nat,
    shown: Option<Listing>,
    intact: bool,
    answers: seq<Return>)

  function NewWorld(tree: set<string>, file: Option<string>): World {
    World(Plugin(false, false, "", [], file), tree, 0, 0, 0, 0, 0, 0, 0, false, 0, None, false, [])
  }

  /** `l` is the tree, each file once, in some order. */
  predicate Lists(l: Listing, tree: set<string>) {
    && (forall f | f in l :: f in tree) && (forall f | f in tree :: f in l)
    && (forall i, j | 0 <= i < j < |l| :: l[i] != l[j])
  }

  /** The discovery in flight may resolve to anything if files changed while it ran, and to the tree if none did. */
  predicate MayFind(w: World, l: Listing) {
    w.plugin.inFlight && (w.lastChange <= w.lastStart ==> Lists(l, w.tree))
  }

  predicate Enabled(w: World, e: Event) {
    match e
    case Change(tree) => forall f | f in tree :: IsMockup(f)
    case Request => true
    case Complete(l) => MayFind(w, l)
    case Fail => w.plugin.inFlight
    case WriteFails(l, _) => MayFind(w, l) && Changes(w.plugin, l)
  }

  function Started(w: World): World {
    w.(lastStart := w.now, starts := w.starts + 1)
  }

  function Step(w0: World, e: Event): World
    requires Enabled(w0, e)
  {
    var w := w0.(now := w0.now + 1);
    match e
    case Change(tree) => w.(tree := tree, lastChange := w.now)
    case Request =>
      var w1 := w.(plugin := Begin(w.plugin), requests := w.requests + 1, lastRequest := w.now);
      if w.plugin.inFlight then w1 else Started(w1.(chainWrites := 0))
    case Complete(l) =>
      var (p, result) := Resume(w.plugin, l);
      var writes := w.chainWrites + if Changes(w.plugin, l) then 1 else 0;
      var w1 := w.(plugin := p, ends := w.ends + 1, lastFailed := false, chainWrites := writes, shown := Some(l),
                   intact := w.intact || Changes(w.plugin, l));
      if result.None? then Started(w1) else w1.(answers := w.answers + [Return(result.value, writes)])
    case Fail =>
      w.(plugin := Reject(w.plugin), ends := w.ends + 1, lastFailed := true)
    case WriteFails(l, left) =>
      w.(plugin := Unwritten(w.plugin, l, left), ends := w.ends + 1, lastFailed := true, shown := Some(l),
         intact := left == Some(GenerateSource(l)))
  }

  predicate Possible(start: World, events: seq<Event>)
    decreases |events|, 0
  {
    events == [] ||
    var before := events[..|events| - 1];
    Possible(start, before) && Enabled(Run(start, before), events[|events| - 1])
  }

  function Run(start: World, events: seq<Event>): World
    requires Possible(start, events)
    decreases |events|, 1
  {
    if events == [] then start else Step(Run(start, events[..|events| - 1]), events[|events| - 1])
  }

  /** A world some run reaches from a fresh plugin. */
  ghost predicate Reachable(w: World) {
    exists tree, file, events :: Possible(NewWorld(tree, file), events) && Run(NewWorld(tree, file), events) == w
  }

  /* ----- the invariant ----- */

  ghost predicate Inv(w: World) {
    var p := w.plugin;
    && w.lastChange <= w.now && w.lastStart <= w.now && w.lastRequest <= w.now
    && w.starts == w.ends + (if p.inFlight then 1 else 0)
    && w.starts + (if p.queued then 1 else 0) <= w.requests
    && (!p.queued ==> w.lastStart >= w.lastRequest)
    && (!p.inFlight ==> p.frames == [])
    && (p.inFlight ==> (w.chainWrites > 0 <==> true in p.frames))
    && (w.shown.None? ==> p.source == "")
    && (w.shown.Some? ==> p.source == GenerateSource(w.shown.value) && (w.intact <==> p.file == Some(p.source)))
    && (!p.inFlight && !w.lastFailed && w.starts > 0 ==>
          && !p.queued && w.shown.Some?
          && (w.lastChange <= w.lastStart ==> Lists(w.shown.value, w.tree)))
    && (w.starts == 0 ==> w.requests == 0)
    && (forall r | r in w.answers :: r.value <==> r.writes > 0)
  }

  lemma {:induction false} UnwindIsAny(frames: seq<bool>, last: bool)
    ensures Unwind(frames, last) <==> last || true in frames
  {
    if frames != [] {
      UnwindIsAny(frames[..|frames| - 1], frames[|frames| - 1] || last);
      assert frames == frames[..|frames| - 1] + [frames[|frames| - 1]];
    }
  }

  lemma CompleteKeepsInv(w: World, l: Listing)
    requires Inv(w) && Enabled(w, Complete(l))
    ensures Inv(Step(w, Complete(l)))
  {
    UnwindIsAny(w.plugin.frames, Changes(w.plugin, l));
  }

  lemma StepKeepsInv(w: World, e: Event)
    requires Inv(w) && Enabled(w, e)
    ensures Inv(Step(w, e))
  {
    if e.Complete? { CompleteKeepsInv(w, e.listing); }
  }

  lemma {:induction false} RunKeepsInv(start: World, events: seq<Event>)
    requires Inv(start) && Possible(start, events)
    ensures Inv(Run(start, events))
  {
    if events != [] {
      RunKeepsInv(start, events[..|events| - 1]);
      StepKeepsInv(Run(start, events[..|events| - 1]), events[|events| - 1]);
    }
  }

  lemma NewIsReachable(tree: set<string>, file: Option<string>)
    ensures Reachable(NewWorld(tree, file))
  {
    assert Possible(NewWorld(tree, file), []) && Run(NewWorld(tree, file), []) == NewWorld(tree, file);
  }

  lemma StepIsReachable(w: World, e: Event)
    requires Reachable(w) && Enabled(w, e)
    ensures Reachable(Step(w, e))
  {
    var tree, file, events :| Possible(NewWorld(tree, file), events) && Run(NewWorld(tree, file), events) == w;
    var more := events + [e];
    assert more[..|events|] == events;
    assert Possible(NewWorld(tree, file), more) && Run(NewWorld(tree, file), more) == Step(w, e);
  }

  lemma ReachableInv(w: World)
    requires Reachable(w)
    ensures Inv(w)
  {
    var tree, file, events :| Possible(NewWorld(tree, file), events) && Run(NewWorld(tree, file), events) == w;
    RunKeepsInv(NewWorld(tree, file), events);
  }

  /* ----- what it gives ----- */

  /** The current source is the source of the current tree. */
  ghost predicate SourceFresh(w: World) {
    exists l: Listing :: Lists(l, w.tree) && w.plugin.source == GenerateSource(l)
  }

  /** The current source and the file both are the source of the current tree. */
  ghost predicate Fresh(w: World) {
    exists l: Listing :: Shows(w, l)
  }

  ghost predicate Shows(w: World, l: Listing) {
    Lists(l, w.tree) && w.plugin.source == GenerateSource(l) && w.plugin.file == Some(w.plugin.source)
  }

  /** Freshness at quiescence: with nothing in flight, the last refresh not failed, and no file changed since
      the last request, the source is fresh, and the file is exactly if the last write of it went through. */
  lemma FreshAtQuiescence(w: World)
    requires Reachable(w)
    requires !w.plugin.inFlight && !w.lastFailed && w.requests > 0 && w.lastChange <= w.lastRequest
    ensures SourceFresh(w)
    ensures Fresh(w) <==> w.intact
  {
    ReachableInv(w);
    FreshExactlyWhenShownIsCurrent(w);
  }

  ghost predicate NoneRejects(events: seq<Event>) {
    forall i | 0 <= i < |events| :: !Rejects(events[i])
  }

  lemma {:induction false} NoFailureSoFar(start: World, events: seq<Event>)
    requires Possible(start, events) && !start.lastFailed && NoneRejects(events)
    requires Inv(start) && (start.shown.Some? ==> start.intact)
    ensures !Run(start, events).lastFailed
    ensures Run(start, events).shown.Some? ==> Run(start, events).intact
  {
    if events != [] {
      var before, last := events[..|events| - 1], events[|events| - 1];
      NoFailureSoFar(start, before);
      RunKeepsInv(start, before);
      assert !Rejects(last);
      if last.Complete? { SourceIsNeverEmpty(last.listing); }
    }
  }

  lemma SourceIsNeverEmpty(l: Listing)
    ensures GenerateSource(l) != ""
  {
  }

  /** In runs without a failed refresh, quiescence after a request is enough. */
  lemma FreshWithoutFailures(tree: set<string>, file: Option<string>, events: seq<Event>)
    requires Possible(NewWorld(tree, file), events) && NoneRejects(events)
    requires var w := Run(NewWorld(tree, file), events);
             !w.plugin.inFlight && w.requests > 0 && w.lastChange <= w.lastRequest
    ensures Fresh(Run(NewWorld(tree, file), events))
  {
    NoFailureSoFar(NewWorld(tree, file), events);
    FreshAtQuiescence(Run(NewWorld(tree, file), events));
    ReachableInv(Run(NewWorld(tree, file), events));
  }

  /** Failures included, at any moment: what is on disk is fresh exactly when the last listing that resolved
      still lists the tree and its write, made then or earlier, went through. */
  lemma FreshExactlyWhenShownIsCurrent(w: World)
    requires Reachable(w)
    ensures Fresh(w) <==> w.shown.Some? && Lists(w.shown.value, w.tree) && w.intact
    ensures SourceFresh(w) <==> w.shown.Some? && Lists(w.shown.value, w.tree)
  {
    ReachableInv(w);
    if w.shown.Some? && Lists(w.shown.value, w.tree) && w.intact { assert Shows(w, w.shown.value); }
    if SourceFresh(w) {
      var l: Listing :| Lists(l, w.tree) && w.plugin.source == GenerateSource(l);
      SourceIsNeverEmpty(l);
      if w.shown.Some? { SourceTellsListingsApart(l, w.shown.value); }
    }
    if Fresh(w) {
      var l: Listing :| Shows(w, l);
      assert SourceFresh(w);
    }
  }

  /* ----- the file, read off the run ----- */

  /** The last time a run wrote the file: for which listing, and what it left on disk. */
  datatype Attempt = Attempt(listing: Listing, left: Option<string>)

  /** A listing is written when the last one written, or tried, was another. */
  function LastAttempt(events: seq<Event>): Option<Attempt> {
    if events == [] then None
    else
      var before := LastAttempt(events[..|events| - 1]);
      match events[|events| - 1]
      case Complete(l) =>
        if before.Some? && before.value.listing == l then before
        else Some(Attempt(l, Some(GenerateSource(l))))
      case WriteFails(l, left) => Some(Attempt(l, left))
      case _ => before
  }

  /** In every run the source is that of the listing last written or tried, and the file what that left. */
  lemma {:induction false} FileIsLastAttempts(tree: set<string>, file: Option<string>, events: seq<Event>)
    requires Possible(NewWorld(tree, file), events)
    ensures var w, last := Run(NewWorld(tree, file), events), LastAttempt(events);
            if last.None? then w.shown == None && w.plugin.source == "" && w.plugin.file == file
            else && w.shown == Some(last.value.listing)
                 && w.plugin.source == GenerateSource(last.value.listing)
                 && w.plugin.file == last.value.left
  {
    if events != [] {
      var before, last := events[..|events| - 1], events[|events| - 1];
      FileIsLastAttempts(tree, file, before);
      if last.Complete? {
        SourceIsNeverEmpty(last.listing);
        var attempt := LastAttempt(before);
        if attempt.Some? { SourceTellsListingsApart(last.listing, attempt.value.listing); }
      }
    }
  }

  /** In every run, at any moment: the file is fresh exactly when the listing last written or tried lists the
      tree and that attempt left its whole text. */
  lemma FileFreshExactlyWhen(tree: set<string>, file: Option<string>, events: seq<Event>)
    requires Possible(NewWorld(tree, file), events)
    ensures var w, last := Run(NewWorld(tree, file), events), LastAttempt(events);
            Fresh(w) <==> && last.Some?
                          && Lists(last.value.listing, w.tree)
                          && last.value.left == Some(GenerateSource(last.value.listing))
  {
    FileIsLastAttempts(tree, file, events);
    FreshExactlyWhenShownIsCurrent(Run(NewWorld(tree, file), events));
    ReachableInv(Run(NewWorld(tree, file), events));
  }

  /** A failed write is never made good while discoveries keep finding the same files, however many resolve. */
  lemma {:induction false} StaysUnwritten(tree: set<string>, file: Option<string>, events: seq<Event>, s: nat)
    requires Possible(NewWorld(tree, file), events)
    requires s < |events| && events[s].WriteFails?
    requires forall k | s < k < |events| ::
               && !events[k].WriteFails?
               && (events[k].Complete? ==> events[k].listing == events[s].listing)
    ensures var w := Run(NewWorld(tree, file), events);
            w.plugin.file == events[s].left && w.plugin.source == GenerateSource(events[s].listing)
  {
    FileIsLastAttempts(tree, file, events);
    AttemptStands(events, s);
  }

  lemma {:induction false} AttemptStands(events: seq<Event>, s: nat)
    requires s < |events| && events[s].WriteFails?
    requires forall k | s < k < |events| ::
               && !events[k].WriteFails?
               && (events[k].Complete? ==> events[k].listing == events[s].listing)
    ensures LastAttempt(events) == Some(Attempt(events[s].listing, events[s].left))
    decreases |events|
  {
    if s < |events| - 1 { AttemptStands(events[..|events| - 1], s); }
  }

  /** Such a run: the refresh after the failed one resolves and returns, nothing is in flight, nothing has
      changed since the first request, and there is still no file. */
  lemma AStaleFile() returns (w: World)
    ensures Reachable(w) && !w.plugin.inFlight && !w.lastFailed && w.lastChange <= w.lastRequest && w.requests > 0
    ensures SourceFresh(w) && w.plugin.file == None && !Fresh(w)
  {
    var start := NewWorld({}, None);
    NewIsReachable({}, None);
    SourceIsNeverEmpty([]);
    StepIsReachable(start, Request);
    var w1 := Step(start, Request);
    StepIsReachable(w1, WriteFails([], None));
    var w2 := Step(w1, WriteFails([], None));
    StepIsReachable(w2, Request);
    var w3 := Step(w2, Request);
    StepIsReachable(w3, Complete([]));
    w := Step(w3, Complete([]));
    assert Lists([], w.tree);
  }

  /* ----- requests and discoveries ----- */

  /** One discovery at a time; no more discoveries than requests; a request not yet followed by a discovery is
      queued, and unless a discovery has failed the flag is set only while one is in flight; and every
      initiating call that returned told whether its chain wrote the file. */
  lemma SingleFlight(w: World)
    requires Reachable(w)
    ensures w.ends <= w.starts <= w.ends + 1
    ensures w.starts <= w.requests
    ensures w.plugin.queued ==> w.plugin.inFlight || w.lastFailed
    ensures w.lastStart < w.lastRequest ==> w.plugin.queued
    ensures forall r | r in w.answers :: r.value <==> r.writes > 0
  {
    ReachableInv(w);
  }

  /** A request is left without any discovery exactly when the discovery it was waiting behind fails. */
  lemma StrandedExactlyByFailure(w: World, e: Event)
    requires Reachable(w) && Enabled(w, e) && (e.Complete? || Rejects(e))
    ensures var w1 := Step(w, e);
            !w1.plugin.inFlight && w1.lastStart < w1.lastRequest <==> Rejects(e) && w.lastStart < w.lastRequest
  {
    ReachableInv(w);
    StepKeepsInv(w, e);
  }

  /** The world before event `n` of a run, or after all of it. */
  function WorldAt(start: World, events: seq<Event>, n: nat): World
    requires Possible(start, events) && n <= |events|
    decreases |events|
  {
    if n == |events| then Run(start, events) else WorldAt(start, events[..|events| - 1], n)
  }

  lemma {:induction false} WorldAtNext(start: World, events: seq<Event>, n: nat)
    requires Possible(start, events) && n < |events|
    ensures Enabled(WorldAt(start, events, n), events[n])
    ensures WorldAt(start, events, n + 1) == Step(WorldAt(start, events, n), events[n])
    decreases |events|
  {
    if n < |events| - 1 { WorldAtNext(start, events[..|events| - 1], n); }
  }

  lemma {:induction false} WorldAtStart(start: World, events: seq<Event>)
    requires Possible(start, events)
    ensures WorldAt(start, events, 0) == start
    decreases |events|
  {
    if events != [] { WorldAtStart(start, events[..|events| - 1]); }
  }

  predicate StartsAt(start: World, events: seq<Event>, k: nat)
    requires Possible(start, events)
  {
    k < |events| && WorldAt(start, events, k).starts < WorldAt(start, events, k + 1).starts
  }

  ghost predicate NoStartFrom(start: World, events: seq<Event>, n: nat)
    requires Possible(start, events)
  {
    forall k: nat | n <= k :: !StartsAt(start, events, k)
  }

  /** The request at `r` is followed by no discovery. */
  ghost predicate Unserved(start: World, events: seq<Event>, r: nat)
    requires Possible(start, events)
  {
    r < |events| && events[r] == Request && NoStartFrom(start, events, r)
  }

  /** The last discovery of the run starts at `j`, and fails at `s` with the request of `r` made meanwhile. */
  ghost predicate Strands(start: World, events: seq<Event>, j: nat, r: nat, s: nat)
    requires Possible(start, events)
  {
    && j < r < s < |events|
    && StartsAt(start, events, j) && NoStartFrom(start, events, j + 1)
    && events[r] == Request && Rejects(events[s])
  }

  /** Over whole runs: with nothing in flight, some request was followed by no discovery exactly when the last
      discovery failed after a request had arrived during it. */
  lemma StrandedExactlyWhenLastFails(tree: set<string>, file: Option<string>, events: seq<Event>)
    requires Possible(NewWorld(tree, file), events) && !Run(NewWorld(tree, file), events).plugin.inFlight
    ensures var start := NewWorld(tree, file);
            (exists r: nat :: Unserved(start, events, r))
            <==> exists j: nat, r: nat, s: nat :: Strands(start, events, j, r, s)
  {
    var start := NewWorld(tree, file);
    if r: nat :| Unserved(start, events, r) {
      WorldAtNext(start, events, r);
      assert !StartsAt(start, events, r);
      var s := QueuedBehindFailure(start, events, r, |events|);
      var j := LastStart(start, events, r);
      assert Strands(start, events, j, r, s);
    }
    if j: nat, r: nat, s: nat :| Strands(start, events, j, r, s) {
      assert Unserved(start, events, r);
    }
  }

  /** Without failures every request is, once nothing is in flight, followed by a discovery that started no
      earlier than it. */
  lemma EveryRequestIsServed(tree: set<string>, file: Option<string>, events: seq<Event>, r: nat)
    requires Possible(NewWorld(tree, file), events) && !Run(NewWorld(tree, file), events).plugin.inFlight
    requires NoneRejects(events) && r < |events| && events[r] == Request
    ensures exists k: nat :: r <= k && StartsAt(NewWorld(tree, file), events, k)
  {
    StrandedExactlyWhenLastFails(tree, file, events);
    assert !Unserved(NewWorld(tree, file), events, r);
  }

  lemma {:induction false} QueuedBehindFailure(start: World, events: seq<Event>, r: nat, n: nat) returns (s: nat)
    requires Possible(start, events) && Unserved(start, events, r) && r < n <= |events|
    ensures WorldAt(start, events, n).plugin.queued
    ensures WorldAt(start, events, n).plugin.inFlight || (r < s < n && Rejects(events[s]))
    decreases n
  {
    s := 0;
    WorldAtNext(start, events, n - 1);
    assert !StartsAt(start, events, n - 1);
    if r < n - 1 {
      s := QueuedBehindFailure(start, events, r, n - 1);
      if Rejects(events[n - 1]) { s := n - 1; }
    }
  }

  lemma {:induction false} LastStart(start: World, events: seq<Event>, n: nat) returns (j: nat)
    requires Possible(start, events) && !start.plugin.inFlight && n <= |events|
    requires WorldAt(start, events, n).plugin.inFlight
    ensures j < n && StartsAt(start, events, j) && forall k | j < k < n :: !StartsAt(start, events, k)
    decreases n
  {
    if n == 0 {
      WorldAtStart(start, events);
      assert false;
    } else {
      WorldAtNext(start, events, n - 1);
      if StartsAt(start, events, n - 1) {
        j := n - 1;
      } else {
        j := LastStart(start, events, n - 1);
      }
    }
  }

  /** Such a run exists: the second request is never served and the new file is not in the module. */
  lemma AStrandedRequest(f: string) returns (w: World)
    requires IsMockup(f)
    ensures Reachable(w) && !w.plugin.inFlight && w.lastChange <= w.lastRequest && w.requests > 0
    ensures w.plugin.queued && w.lastStart < w.lastRequest && !Fresh(w)
  {
    var start := NewWorld({}, None);
    NewIsReachable({}, None);
    StepIsReachable(start, Request);
    var w1 := Step(start, Request);
    StepIsReachable(w1, Change({f}));
    var w2 := Step(w1, Change({f}));
    StepIsReachable(w2, Request);
    var w3 := Step(w2, Request);
    StepIsReachable(w3, Fail);
    w := Step(w3, Fail);
    assert w.plugin.file == None;
  }

  /** The file is rewritten exactly when the listing differs from the one on display. */
  lemma RewritesExactlyOnChange(w: World, l: Listing)
    requires Reachable(w)
    ensures Changes(w.plugin, l) <==> w.shown != Some(l)
  {
    ReachableInv(w);
    if w.shown.Some? { SourceTellsListingsApart(l, w.shown.value); }
  }
}
