/** The bot-state routes over one stored row. Every handler first reads the row, then writes it; between the
    two, other handlers may read and write. A run is any such interleaving. */
module BotInterlock {
  import opened Options

  datatype Row = Row(
    running: bool,
    startedAt: Option<int>,
    stoppedAt: Option<int>,
    error: Option<string>,
    emergencyStopped: bool)

  const DEFAULT_ROW := Row(false, None, None, None, false)

  datatype Handler = Start | Stop | EmergencyStop(reason: Option<string>) | ResetEmergency

  /** The update a handler writes. */
  function Apply(handler: Handler, row: Row, at: int): Row {
    match handler
    case Start => row.(running := true, startedAt := Some(at), stoppedAt := None, error := None)
    case Stop => row.(running := false, stoppedAt := Some(at))
    case EmergencyStop(reason) =>
      row.(running := false, emergencyStopped := true, stoppedAt := Some(at), error := Some(ErrorText(reason)))
    case ResetEmergency => row.(emergencyStopped := false, error := None)
  }

  function ErrorText(reason: Option<string>): string {
    if reason.Some? && reason.value != "" then reason.value else "Emergency stop triggered"
  }

  /** A start refused with status 403 never comes to its write. */
  predicate Refused(handler: Handler, row: Row) {
    handler.Start? && row.emergencyStopped
  }

  datatype Event = Read(request: nat, handler: Handler) | Write(request: nat, at: int)

  /** `pending` are the requests that have read and not yet written. */
  datatype State = State(row: Row, pending: map<nat, Handler>, seen: set<nat>)

  predicate Enabled(s: State, e: Event) {
    match e
    case Read(r, _) => r !in s.seen
    case Write(r, _) => r in s.pending
  }

  function Step(s: State, e: Event): State
    requires Enabled(s, e)
  {
    match e
    case Read(r, handler) =>
      s.(seen := s.seen + {r}, pending := if Refused(handler, s.row) then s.pending else s.pending[r := handler])
    case Write(r, at) =>
      s.(row := Apply(s.pending[r], s.row, at), pending := s.pending - {r})
  }

  predicate Possible(events: seq<Event>)
    decreases |events|, 0
  {
    events == [] ||
    var before := events[..|events| - 1];
    Possible(before) && Enabled(Run(before), events[|events| - 1])
  }

  function Run(events: seq<Event>): State
    requires Possible(events)
    decreases |events|, 1
  {
    if events == [] then State(DEFAULT_ROW, map[], {})
    else Step(Run(events[..|events| - 1]), events[|events| - 1])
  }

  /** The state before event `n` of a run, or after all of it. */
  function StateAt(events: seq<Event>, n: nat): State
    requires Possible(events) && n <= |events|
    decreases |events|
  {
    if n == |events| then Run(events) else StateAt(events[..|events| - 1], n)
  }

  /** The handler that event `k` of a run is the write of, if it is a write. */
  function WriteAt(events: seq<Event>, k: nat): Option<Handler>
    requires Possible(events) && k < |events|
    decreases |events|
  {
    var before := events[..|events| - 1];
    if k < |before| then WriteAt(before, k)
    else if events[k].Write? then Some(Run(before).pending[events[k].request])
    else None
  }

  lemma {:induction false} PrefixIsPossible(events: seq<Event>, n: nat)
    requires Possible(events) && n <= |events|
    ensures Possible(events[..n]) && StateAt(events, n) == Run(events[..n])
    decreases |events|
  {
    if n == |events| {
      assert events[..n] == events;
    } else {
      PrefixIsPossible(events[..|events| - 1], n);
      assert events[..|events| - 1][..n] == events[..n];
    }
  }

  lemma {:induction false} StateAtNext(events: seq<Event>, n: nat)
    requires Possible(events) && n < |events|
    ensures Enabled(StateAt(events, n), events[n])
    ensures StateAt(events, n + 1) == Step(StateAt(events, n), events[n])
    ensures WriteAt(events, n)
         == if events[n].Write? then Some(StateAt(events, n).pending[events[n].request]) else None
    decreases |events|
  {
    if n < |events| - 1 { StateAtNext(events[..|events| - 1], n); }
  }

  /* ----- reading the flags off the run ----- */

  datatype Kind = Starting | Halting | Alarming | Resetting | Moving | Noting

  predicate IsA(handler: Handler, kind: Kind) {
    match kind
    case Starting => handler.Start?
    case Halting => handler.Stop? || handler.EmergencyStop?
    case Alarming => handler.EmergencyStop?
    case Resetting => handler.ResetEmergency?
    case Moving => !handler.ResetEmergency?
    case Noting => !handler.Stop?
  }

  predicate Writes(events: seq<Event>, k: nat, kind: Kind)
    requires Possible(events)
  {
    k < |events| && WriteAt(events, k).Some? && IsA(WriteAt(events, k).value, kind)
  }

  /** A write of kind `on` at `k`, not undone since by one of kind `off`. */
  ghost predicate Stands(events: seq<Event>, k: nat, on: Kind, off: Kind)
    requires Possible(events)
  {
    Writes(events, k, on) && forall i: nat :: k < i ==> !Writes(events, i, off)
  }

  ghost predicate SomeStands(events: seq<Event>, on: Kind, off: Kind)
    requires Possible(events)
  {
    exists k: nat :: Stands(events, k, on, off)
  }

  lemma StandsEarlier(events: seq<Event>, k: nat, on: Kind, off: Kind)
    requires Possible(events) && events != [] && k < |events| - 1
    ensures Stands(events, k, on, off)
       <==> Stands(events[..|events| - 1], k, on, off) && !Writes(events, |events| - 1, off)
  {
    var before := events[..|events| - 1];
    if Stands(before, k, on, off) && !Writes(events, |events| - 1, off) {
      forall i: nat | k < i ensures !Writes(events, i, off) {
        if i < |before| { assert !Writes(before, i, off); }
      }
    }
    if Stands(events, k, on, off) {
      forall i: nat | k < i ensures !Writes(before, i, off) {
        if i < |before| { assert !Writes(events, i, off); }
      }
    }
  }

  /** One event later: a new standing write, or an old one that the event has not undone. */
  lemma StandsStep(events: seq<Event>, on: Kind, off: Kind)
    requires Possible(events) && events != []
    ensures SomeStands(events, on, off) <==>
              || Writes(events, |events| - 1, on)
              || (!Writes(events, |events| - 1, off) && SomeStands(events[..|events| - 1], on, off))
  {
    var n := |events| - 1;
    if Writes(events, n, on) {
      assert Stands(events, n, on, off);
    } else if SomeStands(events, on, off) {
      var k: nat :| Stands(events, k, on, off);
      StandsEarlier(events, k, on, off);
    } else if SomeStands(events[..n], on, off) {
      var k: nat :| Stands(events[..n], k, on, off);
      StandsEarlier(events, k, on, off);
    }
  }

  /** Each flag tells which of its writes came last. */
  lemma {:induction false} FlagsTellLastWrite(events: seq<Event>)
    requires Possible(events)
    ensures Run(events).row.running <==> SomeStands(events, Starting, Halting)
    ensures Run(events).row.emergencyStopped <==> SomeStands(events, Alarming, Resetting)
  {
    if events != [] {
      FlagsTellLastWrite(events[..|events| - 1]);
      StandsStep(events, Starting, Halting);
      StandsStep(events, Alarming, Resetting);
    }
  }

  lemma {:induction false} PendingIsSeen(events: seq<Event>)
    requires Possible(events)
    ensures Run(events).pending.Keys <= Run(events).seen
  {
    if events != [] { PendingIsSeen(events[..|events| - 1]); }
  }

  /** A pending request has read, and a pending start saw no emergency when it did. */
  lemma {:induction false} PendingHasRead(events: seq<Event>, r: nat) returns (i: nat)
    requires Possible(events) && r in Run(events).pending
    ensures i < |events| && events[i] == Read(r, Run(events).pending[r])
    ensures !Refused(Run(events).pending[r], StateAt(events, i).row)
  {
    var n := |events| - 1;
    var before := events[..n];
    PendingIsSeen(before);
    if events[n].Read? && events[n].request == r {
      i := n;
      assert StateAt(events, n) == StateAt(before, n);
    } else {
      i := PendingHasRead(before, r);
    }
  }

  /** A start read at `i` before an emergency wrote at `j`, and wrote at `k` after it, with no reset since the
      emergency and no stop or emergency since the start. */
  ghost predicate Race(events: seq<Event>, i: nat, j: nat, k: nat)
    requires Possible(events)
  {
    && i < j < k < |events|
    && events[i] == Read(events[k].request, Start)
    && Stands(events, j, Alarming, Resetting)
    && Stands(events, k, Starting, Halting)
  }

  /** The bot is running and emergency-stopped at once exactly when such a race took place. */
  lemma BothFlagsExactlyByRace(events: seq<Event>)
    requires Possible(events)
    ensures (Run(events).row.running && Run(events).row.emergencyStopped) <==> exists i, j, k :: Race(events, i, j, k)
  {
    FlagsTellLastWrite(events);
    if SomeStands(events, Starting, Halting) && SomeStands(events, Alarming, Resetting) {
      var k: nat :| Stands(events, k, Starting, Halting);
      var j: nat :| Stands(events, j, Alarming, Resetting);
      var i := StartReadBeforeAlarm(events, j, k);
      assert Race(events, i, j, k);
    }
  }

  lemma StartReadBeforeAlarm(events: seq<Event>, j: nat, k: nat) returns (i: nat)
    requires Possible(events)
    requires Stands(events, k, Starting, Halting) && Stands(events, j, Alarming, Resetting)
    ensures i < j < k && events[i] == Read(events[k].request, Start)
  {
    assert Writes(events, j, Halting);
    assert j != k && !(k < j);
    StateAtNext(events, k);
    PrefixIsPossible(events, k);
    i := PendingHasRead(events[..k], events[k].request);
    if j <= i {
      StateAtNext(events, i);
      StateAtNext(events, j);
      AlarmHoldsFrom(events, j, i);
      SameStateInPrefix(events, k, i);
    }
  }

  lemma {:induction false} SameStateInPrefix(events: seq<Event>, n: nat, i: nat)
    requires Possible(events) && i <= n <= |events| && Possible(events[..n])
    ensures StateAt(events[..n], i) == StateAt(events, i)
  {
    PrefixIsPossible(events, i);
    PrefixIsPossible(events[..n], i);
    assert events[..n][..i] == events[..i];
  }

  /** After a standing emergency write every later state is emergency-stopped. */
  lemma {:induction false} AlarmHoldsFrom(events: seq<Event>, j: nat, i: nat)
    requires Possible(events) && Stands(events, j, Alarming, Resetting) && j <= i <= |events|
    ensures j < i ==> StateAt(events, i).row.emergencyStopped
    decreases i - j
  {
    if j < i {
      AlarmHoldsFrom(events, j, i - 1);
      StateAtNext(events, i - 1);
      assert j < i - 1 ==> !Writes(events, i - 1, Resetting);
    }
  }

  /** A race that happens. */
  lemma ARace() returns (events: seq<Event>)
    ensures Possible(events) && Run(events).row.running && Run(events).row.emergencyStopped
  {
    var e1, e2 := [Read(0, Start)], [Read(0, Start), Read(1, EmergencyStop(None))];
    var e3 := e2 + [Write(1, 10)];
    events := e3 + [Write(0, 20)];
    assert e1[..0] == [] && e2[..1] == e1 && e3[..2] == e2 && events[..3] == e3;
    assert Possible(e1) && Run(e1) == State(DEFAULT_ROW, map[0 := Start], {0});
    assert Possible(e2) && Run(e2) == State(DEFAULT_ROW, map[0 := Start, 1 := EmergencyStop(None)], {0, 1});
    assert Possible(e3) && Run(e3).row.emergencyStopped && Run(e3).pending == map[0 := Start];
    assert Possible(events) && Run(events) == Step(Run(e3), Write(0, 20));
  }

  /* ----- when the interlock holds ----- */

  /** No start writes into an emergency. */
  ghost predicate StartsAreClear(events: seq<Event>)
    requires Possible(events)
  {
    forall k: nat :: Writes(events, k, Starting) ==> !StateAt(events, k).row.emergencyStopped
  }

  ghost predicate NeverBoth(events: seq<Event>)
    requires Possible(events)
  {
    forall n: nat | n <= |events| :: !(StateAt(events, n).row.running && StateAt(events, n).row.emergencyStopped)
  }

  /** The two flags are never both true in a run exactly when each start would still find no emergency if it
      looked again at its write. */
  lemma NeverBothExactlyWhenStartsAreClear(events: seq<Event>)
    requires Possible(events)
    ensures NeverBoth(events) <==> StartsAreClear(events)
  {
    if NeverBoth(events) {
      forall k: nat | Writes(events, k, Starting) ensures !StateAt(events, k).row.emergencyStopped {
        StateAtNext(events, k);
        assert !(StateAt(events, k + 1).row.running && StateAt(events, k + 1).row.emergencyStopped);
      }
    }
    if StartsAreClear(events) {
      forall n: nat | n <= |events|
        ensures !(StateAt(events, n).row.running && StateAt(events, n).row.emergencyStopped)
      {
        ClearUpTo(events, n);
      }
    }
  }

  lemma {:induction false} ClearUpTo(events: seq<Event>, n: nat)
    requires Possible(events) && StartsAreClear(events) && n <= |events|
    ensures !(StateAt(events, n).row.running && StateAt(events, n).row.emergencyStopped)
  {
    if n == 0 {
      PrefixIsPossible(events, 0);
    } else {
      ClearUpTo(events, n - 1);
      StateAtNext(events, n - 1);
      assert Writes(events, n - 1, Starting) ==> !StateAt(events, n - 1).row.emergencyStopped;
    }
  }

  /** Handlers one after another: each reads only when no other is between its read and its write. */
  predicate Serial(events: seq<Event>)
    requires Possible(events)
  {
    forall n | 0 <= n < |events| :: events[n].Read? ==> StateAt(events, n).pending == map[]
  }

  /** What serial handlers keep: never both flags, an error shown exactly during an emergency, and at most one
      request under way, which is no start if there is an emergency. */
  ghost predicate Locked(s: State) {
    && !(s.row.running && s.row.emergencyStopped)
    && (s.row.emergencyStopped <==> s.row.error.Some?)
    && (forall r | r in s.pending :: s.pending[r].Start? ==> !s.row.emergencyStopped)
    && (forall r, q | r in s.pending && q in s.pending :: r == q)
  }

  lemma {:induction false} SerialIsLocked(events: seq<Event>, n: nat)
    requires Possible(events) && Serial(events) && n <= |events|
    ensures Locked(StateAt(events, n))
  {
    if n == 0 {
      PrefixIsPossible(events, 0);
    } else {
      SerialIsLocked(events, n - 1);
      StateAtNext(events, n - 1);
    }
  }

  /** Run serially the handlers keep their promise: at no moment both flags, no start takes effect before a
      reset, and an error is shown exactly while the emergency lasts. */
  lemma SerialKeepsInterlock(events: seq<Event>)
    requires Possible(events) && Serial(events)
    ensures NeverBoth(events) && StartsAreClear(events)
    ensures Run(events).row.emergencyStopped <==> Run(events).row.error.Some?
  {
    forall n: nat | n <= |events|
      ensures Locked(StateAt(events, n))
    {
      SerialIsLocked(events, n);
    }
    assert Run(events) == StateAt(events, |events|);
    NeverBothExactlyWhenStartsAreClear(events);
  }

  /** In every interleaving the timestamps agree with the running flag. */
  lemma {:induction false} TimesTellRunning(events: seq<Event>)
    requires Possible(events)
    ensures var row := Run(events).row;
            && (row.running <==> row.startedAt.Some? && row.stoppedAt.None?)
            && (row.running ==> row.error.None?)
  {
    if events != [] { TimesTellRunning(events[..|events| - 1]); }
  }

  /** The running flag and its timestamp are those of the last start, stop or emergency stop written. */
  lemma {:induction false} LastMoveTellsTimes(events: seq<Event>, k: nat)
    requires Possible(events) && Stands(events, k, Moving, Moving)
    ensures events[k].Write?
    ensures var row, starts := Run(events).row, IsA(WriteAt(events, k).value, Starting);
            && row.running == starts
            && (if starts then row.startedAt else row.stoppedAt) == Some(events[k].at)
  {
    if k < |events| - 1 {
      StandsEarlier(events, k, Moving, Moving);
      LastMoveTellsTimes(events[..|events| - 1], k);
    }
  }

  /** The last write of a kind, if there is one. */
  function LastOf(events: seq<Event>, kind: Kind): (last: Option<nat>)
    requires Possible(events)
    ensures last.Some? ==> Writes(events, last.value, kind) && events[last.value].Write?
  {
    if events == [] then None
    else if Writes(events, |events| - 1, kind) then Some(|events| - 1)
    else LastOf(events[..|events| - 1], kind)
  }

  lemma {:induction false} LastOfIsLast(events: seq<Event>, kind: Kind, k: nat)
    requires Possible(events)
    ensures LastOf(events, kind) == Some(k) <==> Stands(events, k, kind, kind)
  {
    if events != [] {
      var n := |events| - 1;
      LastOfIsLast(events[..n], kind, k);
      if k < n { StandsEarlier(events, k, kind, kind); }
    }
  }

  /** The row's times and text, told by the writes alone: started when the last start was written, whatever came
      after; stopped when the last stop or emergency stop was, unless a start came after; and showing the text of
      an emergency stop until a start or a reset. */
  predicate RowAsWritten(events: seq<Event>, row: Row)
    requires Possible(events)
  {
    var start, move, note := LastOf(events, Starting), LastOf(events, Moving), LastOf(events, Noting);
    && row.startedAt == (if start.Some? then Some(events[start.value].at) else None)
    && row.stoppedAt == (if move.None? || move == start then None else Some(events[move.value].at))
    && row.error == (if note.None? then None else NoteOf(WriteAt(events, note.value).value))
  }

  /** What a handler leaves to be shown: the reason given for an emergency stop, or words for none. */
  function NoteOf(handler: Handler): Option<string> {
    match handler
    case EmergencyStop(Some(reason)) => if reason == "" then Some("Emergency stop triggered") else Some(reason)
    case EmergencyStop(None) => Some("Emergency stop triggered")
    case _ => None
  }

  lemma {:induction false} RowIsAsWritten(events: seq<Event>)
    requires Possible(events)
    ensures RowAsWritten(events, Run(events).row)
  {
    if events != [] {
      var n := |events| - 1;
      RowIsAsWritten(events[..n]);
    }
  }

  /* ----- the stored row, as the handlers leave it ----- */

  /** The row and the requests between their read and their write. */
  class BotStateRoutes {
    var running: bool
    var startedAt: Option<int>
    var stoppedAt: Option<int>
    var error: Option<string>
    var emergencyStopped: bool
    var pending: map<nat, Handler>
    var seen: set<nat>

    /** Every read and write so far. */
    ghost var events: seq<Event>

    function View(): State
      reads this
    {
      State(Row(running, startedAt, stoppedAt, error, emergencyStopped), pending, seen)
    }

    ghost predicate Valid()
      reads this
    {
      Possible(events) && View() == Run(events)
    }

    constructor ()
      ensures Valid() && events == []
    {
      running, startedAt, stoppedAt, error, emergencyStopped := false, None, None, None, false;
      pending, seen, events := map[], {}, [];
    }

    /** The handler's read; `accepted` is false where it answers 403. */
    method BeginRequest(request: nat, handler: Handler) returns (accepted: bool)
      requires Valid() && Enabled(View(), Read(request, handler))
      modifies this`pending, this`seen, this`events
      ensures Valid() && events == old(events) + [Read(request, handler)]
      ensures accepted <==> request in pending
      ensures !accepted <==> handler == Start && SomeStands(old(events), Alarming, Resetting)
    {
      FlagsTellLastWrite(events);
      PendingIsSeen(events);
      seen := seen + {request};
      accepted := !(handler.Start? && emergencyStopped);
      if accepted {
        pending := pending[request := handler];
      }
      events := events + [Read(request, handler)];
      assert events[..|events| - 1] == old(events);
    }

    /** The handler's write. */
    method FinishRequest(request: nat, at: int)
      requires Valid() && Enabled(View(), Write(request, at))
      modifies this
      ensures Valid() && events == old(events) + [Write(request, at)]
      ensures View() == Step(old(View()), Write(request, at))
    {
      match pending[request] {
        case Start =>
          running, startedAt, stoppedAt, error := true, Some(at), None, None;
        case Stop =>
          running, stoppedAt := false, Some(at);
        case EmergencyStop(reason) =>
          running, emergencyStopped, stoppedAt := false, true, Some(at);
          error := Some(if reason.Some? && reason.value != "" then reason.value else "Emergency stop triggered");
        case ResetEmergency =>
          emergencyStopped, error := false, None;
      }
      pending := pending - {request};
      events := events + [Write(request, at)];
      assert events[..|events| - 1] == old(events);
    }

    /** What the stored row says, explained by the reads and writes that led to it. */
    lemma RowIsExplained()
      requires Valid()
      ensures running && emergencyStopped <==> exists i, j, k :: Race(events, i, j, k)
      ensures Serial(events) ==> !(running && emergencyStopped) && (emergencyStopped <==> error.Some?)
      ensures running <==> startedAt.Some? && stoppedAt.None?
      ensures RowAsWritten(events, View().row)
    {
      RowIsAsWritten(events);
      BothFlagsExactlyByRace(events);
      TimesTellRunning(events);
      if Serial(events) {
        SerialIsLocked(events, |events|);
      }
    }
  }
}
