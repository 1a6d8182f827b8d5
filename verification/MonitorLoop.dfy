/** The monitor task as it runs: positions updated in the map they are owned by, signals appended to one
    outbox, the map filtered after each tick. Its methods are proved against `MonitorRuns.Step`, whatever the
    order in which the map is walked. */
module MonitorLoop {
  import opened Options
  import opened EngineTypes
  import opened Outbox
  import Rules = PositionRules
  import Runs = MonitorRuns

  function Subject(s: SellSignal): Id {
    s.position.id
  }

  /** The signals `sent` are, id by id, the ones the lives record. */
  ghost predicate Recorded(life: Runs.Monitor, sent: seq<SellSignal>) {
    forall id :: About(Subject, id, sent) == Runs.LifeOf(life, id).sold
  }

  /** The map holds, under their own ids, exactly the positions the lives hold. */
  ghost predicate Holds(life: Runs.Monitor, positions: map<Id, Snapshot>) {
    && positions.Keys <= life.Keys
    && (forall id | id in positions :: positions[id].id == id && positions[id].entryPrice > 0.0)
    && (forall id | id in life :: life[id].held == if id in positions then Some(positions[id]) else None)
  }

  class PositionMonitor {
    const cfg: EngineConfig
    var positions: map<Id, Snapshot>
    var outbox: seq<SellSignal>
    ghost var life: Runs.Monitor

    /** `life` is the abstract state: the positions held and, per id, what was sent. */
    ghost predicate Valid()
      reads this
    {
      Holds(life, positions) && Recorded(life, outbox)
    }

    constructor (cfg: EngineConfig)
      ensures Valid() && this.cfg == cfg && life == map[]
    {
      this.cfg := cfg;
      positions, outbox, life := map[], [], map[];
    }

    method EmitSell(pos: Snapshot, reason: ExitReason, sellPct: real, now: int) returns (closed: Snapshot)
      modifies this`outbox
      ensures closed == Rules.CloseAt(pos, now)
      ensures outbox == old(outbox) + [Rules.SignalFor(closed, reason, sellPct)]
    {
      closed := pos.(status := Closed, closedAt := Some(now));
      var channel := if closed.chain == "solana" then "sell:solana" else "sell:bsc";
      outbox := outbox + [SellSignal(channel, closed, reason, sellPct, Some(closed.currentPrice))];
    }

    method CheckTakeProfit(pos: Snapshot, pct: real, now: int) returns (p: Snapshot)
      requires pct == pos.pnlPct
      modifies this`outbox
      ensures Rules.Outcome(p, outbox) == Rules.TakeProfit(cfg, Rules.Outcome(pos, old(outbox)), now)
    {
      p := pos;
      if !p.tp1Hit && pct >= cfg.tp1Pct {
        var stop := p.peakPrice * (1.0 - cfg.trailingStopPct / 100.0);
        assert stop == Rules.StopBelow(cfg, p.peakPrice);
        p := p.(tp1Hit := true, trailingActive := true, stopLossPrice := stop);
        p := EmitSell(p, Tp1, cfg.tp1SellPct, now);
      }
    }

    method CheckTrailingStop(pos: Snapshot, now: int) returns (p: Snapshot)
      modifies this`outbox
      ensures Rules.Outcome(p, outbox) == Rules.Trail(cfg, Rules.Outcome(pos, old(outbox)), now)
    {
      p := pos;
      if p.trailingActive {
        var newStop := p.peakPrice * (1.0 - cfg.trailingStopPct / 100.0);
        assert newStop == Rules.StopBelow(cfg, p.peakPrice);
        if p.stopLossPrice < newStop {
          p := p.(stopLossPrice := newStop);
        }
        if p.currentPrice <= p.stopLossPrice {
          p := EmitSell(p, TrailingStop, 100.0, now);
        }
      }
    }

    method CheckTimeExit(pos: Snapshot, pct: real, now: int) returns (p: Snapshot)
      requires pct == pos.pnlPct
      modifies this`outbox
      ensures Rules.Outcome(p, outbox) == Rules.CheckTime(cfg, Rules.Outcome(pos, old(outbox)), now)
    {
      p := pos;
      var elapsed := Rules.ElapsedMinutes(p.openedAt, now);
      if elapsed >= cfg.timeExitMinutes && pct < cfg.timeExitMinProfitPct {
        p := EmitSell(p, TimeExit, 100.0, now);
      }
    }

    method EvaluateExits(pos: Snapshot, now: int) returns (p: Snapshot)
      modifies this`outbox
      ensures p == Rules.EvaluateExits(cfg, pos, now).position
      ensures outbox == old(outbox) + Rules.EvaluateExits(cfg, pos, now).signals
    {
      p := CheckTakeProfit(pos, pos.pnlPct, now);
      p := CheckTrailingStop(p, now);
      p := CheckTimeExit(p, pos.pnlPct, now);
      ExitsAppend(cfg, pos, old(outbox), now);
    }

    method SellOne(id: Id, at: int)
      requires Valid() && id in positions
      modifies this
      ensures Valid() && positions.Keys == old(positions.Keys)
      ensures life == old(life)[id := Sold(old(life)[id], at)]
    {
      Visit(life, positions, outbox, id, Sold(life[id], at));
      var closed := EmitSell(positions[id], Emergency, 100.0, at);
      positions := positions[id := closed];
      life := life[id := Sold(life[id], at)];
    }

    /** The emergency loop: every position in the map is sold once, open or not. */
    method SellAll(at: int, ghost due: Runs.Monitor)
      requires Valid() && due.Keys == life.Keys
      requires forall id | id in due :: due[id] == if id in positions then Sold(life[id], at) else life[id]
      modifies this
      ensures Valid() && life == due
    {
      var todo := positions.Keys;
      while todo != {}
        invariant Valid() && todo <= positions.Keys == old(positions.Keys)
        invariant Between(old(life), due, todo, life)
      {
        var id :| id in todo;
        AdvanceBetween(old(life), due, todo, life, id);
        SellOne(id, at);
        todo := todo - {id};
      }
    }

    method OnCommand(command: Command, at: int)
      requires Valid()
      modifies this
      ensures Valid()
      ensures Runs.WellPriced(old(life)) && life == Runs.Step(cfg, old(life), Runs.CommandReceived(command, at))
    {
      match command
      case EmergencyStop(_) =>
        SellAll(at, Runs.Step(cfg, life, Runs.CommandReceived(command, at)));
      case _ =>
    }

    method OnTrade(message: Option<Trade>, newId: Id, at: int)
      requires Valid()
      requires Runs.Positive(Runs.TradeReceived(message, newId, at))
      modifies this
      ensures Valid()
      ensures Runs.WellPriced(old(life)) && life == Runs.Step(cfg, old(life), Runs.TradeReceived(message, newId, at))
    {
      StepTrades(cfg, life, message, newId, at);
      if message.Some? && message.value.side == "buy" && message.value.status == "confirmed" {
        Insert(life, positions, outbox, newId, Rules.OpenPosition(message.value, newId, at));
        var pos := Rules.OpenPosition(message.value, newId, at);
        positions := positions[newId := pos];
        life := life[newId := Runs.Life(Some(pos), Runs.LifeOf(life, newId).sold)];
      }
    }

    method Reprice(pos: Snapshot, quoted: Option<real>) returns (p: Snapshot)
      requires pos.entryPrice > 0.0
      ensures p == Rules.Reprice(pos, quoted)
    {
      p := pos;
      var newPrice := if quoted.Some? then quoted.value else p.currentPrice;
      p := p.(currentPrice := newPrice);
      if newPrice > p.peakPrice {
        p := p.(peakPrice := newPrice);
      }
      p := p.(pnlPct := (newPrice - p.entryPrice) / p.entryPrice * 100.0);
      p := p.(pnlUsd := p.sizeUsd * p.pnlPct / 100.0);
    }

    /** One pass of the tick loop's body. */
    method TickOne(id: Id, q: Rules.Quote)
      requires Valid() && id in positions
      modifies this
      ensures Valid() && positions.Keys == old(positions.Keys)
      ensures life == old(life)[id := Ticked(cfg, old(life)[id], q)]
    {
      TickSignalsOwn(cfg, positions[id], q);
      Visit(life, positions, outbox, id, Ticked(cfg, life[id], q));
      var p := Reprice(positions[id], q.price);
      p := EvaluateExits(p, q.now);
      positions := positions[id := p];
      life := life[id := Ticked(cfg, life[id], q)];
    }

    /** The tick loop over `values_mut`, before the map is filtered. */
    method TickAll(feed: Id -> Rules.Quote, ghost due: Runs.Monitor)
      requires Valid() && due.Keys == life.Keys
      requires forall id | id in due :: due[id] == if id in positions then Ticked(cfg, life[id], feed(id)) else life[id]
      modifies this
      ensures Valid() && life == due
    {
      var todo := positions.Keys;
      while todo != {}
        invariant Valid() && todo <= positions.Keys == old(positions.Keys)
        invariant Between(old(life), due, todo, life)
      {
        var id :| id in todo;
        AdvanceBetween(old(life), due, todo, life, id);
        TickOne(id, feed(id));
        todo := todo - {id};
      }
    }

    method Retain()
      requires Valid()
      modifies this`positions, this`life
      ensures Valid() && life == map id | id in old(life) :: Retained(old(life)[id])
    {
      positions := map id | id in positions && positions[id].status.Open? :: positions[id];
      life := map id | id in life :: Retained(life[id]);
    }

    method OnTick(feed: Id -> Rules.Quote)
      requires Valid()
      modifies this
      ensures Valid()
      ensures Runs.WellPriced(old(life)) && life == Runs.Step(cfg, old(life), Runs.Tick(feed))
    {
      TickAll(feed, map id | id in life :: if id in positions then Ticked(cfg, life[id], feed(id)) else life[id]);
      Retain();
      StepTicks(cfg, old(life), feed);
    }
  }

  /** A loop over the map has brought every life to what it is due, except those still to visit. */
  ghost predicate Between(was: Runs.Monitor, due: Runs.Monitor, todo: set<Id>, life: Runs.Monitor) {
    && life.Keys == due.Keys == was.Keys
    && forall id | id in due :: life[id] == if id in todo then was[id] else due[id]
  }

  lemma AdvanceBetween(was: Runs.Monitor, due: Runs.Monitor, todo: set<Id>, life: Runs.Monitor, id: Id)
    requires Between(was, due, todo, life) && id in todo && id in due
    ensures life[id] == was[id] && Between(was, due, todo - {id}, life[id := due[id]])
  {
  }

  /** A life once the emergency loop has visited its position. */
  ghost function Sold(life: Runs.Life, at: int): Runs.Life
    requires life.held.Some?
  {
    var o := Rules.Sell(Rules.Outcome(life.held.value, []), Emergency, 100.0, at);
    Runs.Life(Some(o.position), life.sold + o.signals)
  }

  /** A life once the tick loop has visited its position. */
  ghost function Ticked(cfg: EngineConfig, life: Runs.Life, q: Rules.Quote): Runs.Life
    requires life.held.Some? && life.held.value.entryPrice > 0.0
  {
    var o := Rules.TickPosition(cfg, life.held.value, q);
    Runs.Life(Some(o.position), life.sold + o.signals)
  }

  /** A life once the map has been filtered. */
  ghost function Retained(life: Runs.Life): Runs.Life {
    if life.held.Some? && life.held.value.status.Closed? then life.(held := None) else life
  }

  /** Replacing one held position and recording what was sent for it keeps the books. */
  lemma Visit(life: Runs.Monitor, positions: map<Id, Snapshot>, sent: seq<SellSignal>, id: Id, next: Runs.Life)
    requires Holds(life, positions) && Recorded(life, sent) && id in positions
    requires next.held.Some? && next.held.value.id == id && next.held.value.entryPrice > 0.0
    requires life[id].sold <= next.sold
    requires forall s | s in next.sold[|life[id].sold|..] :: Subject(s) == id
    ensures Holds(life[id := next], positions[id := next.held.value])
    ensures Recorded(life[id := next], sent + next.sold[|life[id].sold|..])
  {
    AboutAppended(Subject, id, sent, next.sold[|life[id].sold|..]);
  }

  /** The cascade appends its signals to whatever was sent before. */
  lemma ExitsAppend(cfg: EngineConfig, p: Snapshot, sent: seq<SellSignal>, now: int)
    ensures var o1 := Rules.TakeProfit(cfg, Rules.Outcome(p, sent), now);
            var o2 := Rules.Trail(cfg, o1, now);
            var o3 := Rules.CheckTime(cfg, o2, now);
            var o := Rules.EvaluateExits(cfg, p, now);
            o3.position == o.position && o3.signals == sent + o.signals
  {
  }

  /** Inserting a position keeps the books, whether or not its id is new. */
  lemma Insert(life: Runs.Monitor, positions: map<Id, Snapshot>, sent: seq<SellSignal>, id: Id, pos: Snapshot)
    requires Holds(life, positions) && Recorded(life, sent)
    requires pos.id == id && pos.entryPrice > 0.0
    ensures var next := life[id := Runs.Life(Some(pos), Runs.LifeOf(life, id).sold)];
            Holds(next, positions[id := pos]) && Recorded(next, sent)
  {
  }

  lemma StepTrades(cfg: EngineConfig, life: Runs.Monitor, message: Option<Trade>, newId: Id, at: int)
    requires Runs.WellPriced(life) && Runs.Positive(Runs.TradeReceived(message, newId, at))
    ensures var input := Runs.TradeReceived(message, newId, at);
            var next := Runs.Step(cfg, life, input);
            next == if !Runs.Buys(input) then life
                    else life[newId := Runs.Life(Some(Rules.OpenPosition(message.value, newId, at)),
                                                 Runs.LifeOf(life, newId).sold)]
  {
  }

  lemma StepTicks(cfg: EngineConfig, life: Runs.Monitor, feed: Id -> Rules.Quote)
    requires Runs.WellPriced(life)
    ensures Runs.Step(cfg, life, Runs.Tick(feed))
         == map id | id in life ::
              Retained(if life[id].held.Some? then Ticked(cfg, life[id], feed(id)) else life[id])
  {
  }

  lemma TickSignalsOwn(cfg: EngineConfig, p: Snapshot, q: Rules.Quote)
    requires p.entryPrice > 0.0
    ensures forall s | s in Rules.TickPosition(cfg, p, q).signals :: Subject(s) == p.id
  {
    var p1 := Rules.Reprice(p, q.price);
    var o1 := Rules.TakeProfit(cfg, Rules.Outcome(p1, []), q.now);
    assert o1.position.id == p.id && forall s | s in o1.signals :: Subject(s) == p.id;
    var o2 := Rules.Trail(cfg, o1, q.now);
    assert o2.position.id == p.id && forall s | s in o2.signals :: Subject(s) == p.id;
  }
}
