/** `RulesApart` is the exact condition: `EngineConfig` accepts any numbers, and with the rules overlapping one
    tick can send two signals for a position, each of which an executor would act on. */
module ExitOverlap {
  import opened Options
  import opened EngineTypes
  import opened PositionRules
  import opened TrailingStop
  import opened MonitorRuns
  import opened MonitorExits
  import opened MonitorTheorems

  /** How many signals a first tick at gain `g` sends. */
  function FirstTickSignals(cfg: EngineConfig, g: real, late: bool): nat {
    (if g >= cfg.tp1Pct then 1 else 0) +
    (if g >= cfg.tp1Pct && (if g > 0.0 then cfg.trailingStopPct <= 0.0 else g <= -cfg.trailingStopPct) then 1 else 0) +
    (if late && g < cfg.timeExitMinProfitPct then 1 else 0)
  }

  lemma CountFirstTick(cfg: EngineConfig, trade: Trade, id: Id, now: int, q: Quote)
    requires trade.priceUsd > 0.0 && PositiveQuote(q)
    ensures |TickPosition(cfg, OpenPosition(trade, id, now), q).signals|
         == FirstTickSignals(cfg, Reprice(OpenPosition(trade, id, now), q.price).pnlPct,
                             Lasts(q.now - now, cfg.timeExitMinutes))
    ensures Reprice(OpenPosition(trade, id, now), q.price).pnlPct > -100.0
  {
    var open := OpenPosition(trade, id, now);
    var price := Reprice(open, q.price).currentPrice;
    OpensUntriggered(cfg, trade, id, now);
    TickFollowsRules(cfg, open, q);
    StopMeets(cfg, trade.priceUsd, price);
    GainThreshold(trade.priceUsd, price, cfg.tp1Pct);
    GainThreshold(trade.priceUsd, price, cfg.timeExitMinProfitPct);
  }

  /** A newly opened position can be sent two signals at its first tick exactly when the rules overlap. */
  lemma OneSignalExactlyWhenApart(cfg: EngineConfig, trade: Trade, id: Id, now: int)
    requires trade.priceUsd > 0.0
    ensures (forall q: Quote | PositiveQuote(q) :: |TickPosition(cfg, OpenPosition(trade, id, now), q).signals| <= 1)
       <==> RulesApart(cfg)
  {
    if RulesApart(cfg) {
      forall q: Quote | PositiveQuote(q)
        ensures |TickPosition(cfg, OpenPosition(trade, id, now), q).signals| <= 1
      {
        CountFirstTick(cfg, trade, id, now, q);
      }
    } else {
      var g := OverlapGain(cfg);
      var late := now + 60_000 * (if cfg.timeExitMinutes > 0 then cfg.timeExitMinutes else 0);
      var q := Quote(Some(Target(trade.priceUsd, g)), late);
      GainOfTarget(trade.priceUsd, g);
      CountFirstTick(cfg, trade, id, now, q);
    }
  }

  /** A gain at which take-profit and trailing stop fire together. */
  lemma StopMetGain(cfg: EngineConfig) returns (g: real)
    requires !StopUnderTarget(cfg)
    ensures g > -100.0 && g >= cfg.tp1Pct && if g > 0.0 then cfg.trailingStopPct <= 0.0 else g <= -cfg.trailingStopPct
  {
    g := if cfg.trailingStopPct > 0.0 then -cfg.trailingStopPct else if cfg.tp1Pct > 0.0 then cfg.tp1Pct else 1.0;
  }

  /** A gain at which two rules fire. */
  lemma OverlapGain(cfg: EngineConfig) returns (g: real)
    requires !RulesApart(cfg)
    ensures g > -100.0 && FirstTickSignals(cfg, g, true) >= 2
  {
    if !StopUnderTarget(cfg) {
      g := StopMetGain(cfg);
    } else {
      g := if cfg.tp1Pct > -100.0 then cfg.tp1Pct else (cfg.timeExitMinProfitPct - 100.0) / 2.0;
    }
  }

  /** The shortest run in which a position meets a quote. */
  function FirstTickRun(trade: Trade, id: Id, q: Quote): seq<Input> {
    [TradeReceived(Some(trade), id, 0), Tick(_ => q)]
  }

  lemma FirstTickSells(cfg: EngineConfig, trade: Trade, id: Id, q: Quote)
    requires trade.priceUsd > 0.0 && trade.side == "buy" && trade.status == "confirmed" && PositiveQuote(q)
    ensures var inputs := FirstTickRun(trade, id, q);
            && OpensOnce(inputs, id, 0) && QuotedPositive(id, inputs[1..])
            && Lived(cfg, id, inputs).sold == TickPosition(cfg, OpenPosition(trade, id, 0), q).signals
            && EmergenciesWhileHeld(cfg, id, inputs) == 0
  {
    var inputs := FirstTickRun(trade, id, q);
    var opening := inputs[..1];
    assert opening == [inputs[0]] && opening[..0] == [];
    LivesAreIndependent(cfg, id, opening);
    LivesAreIndependent(cfg, id, inputs);
    assert Lived(cfg, id, []) == UNBORN;
    assert EmergenciesWhileHeld(cfg, id, inputs) == EmergenciesWhileHeld(cfg, id, opening);
    assert EmergenciesWhileHeld(cfg, id, opening) == EmergenciesWhileHeld(cfg, id, []);
  }

  /** In every run with positive quotes no position is sent more than one signal beyond its emergency stops. */
  ghost predicate SignalsBounded(cfg: EngineConfig) {
    forall id, inputs, o :: OpensOnce(inputs, id, o) && QuotedPositive(id, inputs[o + 1..]) ==>
      |Lived(cfg, id, inputs).sold| <= EmergenciesWhileHeld(cfg, id, inputs) + 1
  }

  /** Over whole runs too, the bound on signals holds exactly when the rules are apart. */
  lemma BoundedExactlyWhenApart(cfg: EngineConfig)
    ensures SignalsBounded(cfg) <==> RulesApart(cfg)
  {
    if RulesApart(cfg) {
      forall id, inputs, o | OpensOnce(inputs, id, o) && QuotedPositive(id, inputs[o + 1..])
        ensures |Lived(cfg, id, inputs).sold| <= EmergenciesWhileHeld(cfg, id, inputs) + 1
      {
        SignalBound(cfg, id, inputs, o);
      }
    } else {
      OneSignalExactlyWhenApart(cfg, BOUGHT, POSITION, 0);
      var q: Quote :| PositiveQuote(q) && |TickPosition(cfg, OpenPosition(BOUGHT, POSITION, 0), q).signals| > 1;
      FirstTickSells(cfg, BOUGHT, POSITION, q);
    }
  }

  ghost predicate NeverTrails(cfg: EngineConfig) {
    forall id, inputs, o, s |
      OpensOnce(inputs, id, o) && QuotedPositive(id, inputs[o + 1..]) && s in Lived(cfg, id, inputs).sold ::
        s.reason != TrailingStop
  }

  /** Over runs with positive quotes a trailing-stop sale is impossible exactly when the stop is under the
      target. */
  lemma NoTrailingSaleExactlyWhen(cfg: EngineConfig)
    ensures NeverTrails(cfg) <==> StopUnderTarget(cfg)
  {
    if StopUnderTarget(cfg) {
      forall id, inputs, o, s |
        OpensOnce(inputs, id, o) && QuotedPositive(id, inputs[o + 1..]) && s in Lived(cfg, id, inputs).sold
        ensures s.reason != TrailingStop
      {
        NoTrailingSale(cfg, id, inputs, o);
      }
    } else {
      var q := TrailsAtOnce(cfg, BOUGHT, POSITION);
      FirstTickSells(cfg, BOUGHT, POSITION, q);
      var sold := Lived(cfg, POSITION, FirstTickRun(BOUGHT, POSITION, q)).sold;
      assert sold[1] in sold;
    }
  }

  lemma TrailsAtOnce(cfg: EngineConfig, trade: Trade, id: Id) returns (q: Quote)
    requires !StopUnderTarget(cfg) && trade.priceUsd > 0.0
    ensures PositiveQuote(q)
    ensures var signals := TickPosition(cfg, OpenPosition(trade, id, 0), q).signals;
            |signals| > 1 && signals[1].reason == TrailingStop
  {
    var g := StopMetGain(cfg);
    var price := Target(trade.priceUsd, g);
    q := Quote(Some(price), 0);
    GainOfTarget(trade.priceUsd, g);
    StopMeets(cfg, trade.priceUsd, price);
    GainThreshold(trade.priceUsd, price, cfg.tp1Pct);
    TrailsAt(cfg, trade, id, q);
  }

  lemma TrailsAt(cfg: EngineConfig, trade: Trade, id: Id, q: Quote)
    requires trade.priceUsd > 0.0 && q.price.Some?
    requires q.price.value >= Target(trade.priceUsd, cfg.tp1Pct) && StopMet(cfg, trade.priceUsd, q.price.value)
    ensures var signals := TickPosition(cfg, OpenPosition(trade, id, 0), q).signals;
            |signals| > 1 && signals[1].reason == TrailingStop
  {
    var open := OpenPosition(trade, id, 0);
    OpensUntriggered(cfg, trade, id, 0);
    TickFollowsRules(cfg, open, q);
  }
}
