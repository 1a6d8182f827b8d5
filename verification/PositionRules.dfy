/** What one price tick does to one position: repricing and the exit cascade of `position_monitor.rs`. */
module PositionRules {
  import opened Options
  import opened EngineTypes

  /** One answer of the price source, with the clock read while the position is evaluated. */
  datatype Quote = Quote(price: Option<real>, now: int)

  datatype Outcome = Outcome(position: Snapshot, signals: seq<SellSignal>)

  /* ----- the rules as the code states them ----- */

  function OpenPosition(trade: Trade, id: Id, now: int): Snapshot {
    Snapshot(id, trade.tokenId, trade.tokenSymbol, "", trade.chain,
             trade.priceUsd, trade.priceUsd, trade.priceUsd, trade.amountUsd,
             Open, false, false, 0.0, 0.0, 0.0, now, None)
  }

  function PnlPct(entry: real, price: real): real
    requires entry > 0.0
  {
    (price - entry) / entry * 100.0
  }

  function Reprice(p: Snapshot, price: Option<real>): Snapshot
    requires p.entryPrice > 0.0
  {
    var newPrice := if price.Some? then price.value else p.currentPrice;
    var pct := PnlPct(p.entryPrice, newPrice);
    p.(currentPrice := newPrice,
       peakPrice := if newPrice > p.peakPrice then newPrice else p.peakPrice,
       pnlPct := pct,
       pnlUsd := p.sizeUsd * pct / 100.0)
  }

  function CloseAt(p: Snapshot, now: int): Snapshot {
    p.(status := Closed, closedAt := Some(now))
  }

  function SignalFor(closed: Snapshot, reason: ExitReason, sellPct: real): SellSignal {
    SellSignal(if closed.chain == "solana" then "sell:solana" else "sell:bsc",
               closed, reason, sellPct, Some(closed.currentPrice))
  }

  function Sell(o: Outcome, reason: ExitReason, sellPct: real, now: int): Outcome {
    var closed := CloseAt(o.position, now);
    Outcome(closed, o.signals + [SignalFor(closed, reason, sellPct)])
  }

  /** `peak * (1 - t/100)`: the price a trailing stop of `t` percent sits at. */
  function StopBelow(cfg: EngineConfig, peak: real): real {
    peak * (1.0 - cfg.trailingStopPct / 100.0)
  }

  function TakeProfit(cfg: EngineConfig, o: Outcome, now: int): Outcome {
    var p := o.position;
    if !p.tp1Hit && p.pnlPct >= cfg.tp1Pct then
      Sell(o.(position := p.(tp1Hit := true, trailingActive := true,
                             stopLossPrice := StopBelow(cfg, p.peakPrice))),
           Tp1, cfg.tp1SellPct, now)
    else o
  }

  function RaiseStop(cfg: EngineConfig, p: Snapshot): Snapshot {
    var newStop := StopBelow(cfg, p.peakPrice);
    if p.stopLossPrice < newStop then p.(stopLossPrice := newStop) else p
  }

  function Trail(cfg: EngineConfig, o: Outcome, now: int): Outcome {
    if o.position.trailingActive then
      var p := RaiseStop(cfg, o.position);
      if p.currentPrice <= p.stopLossPrice
      then Sell(o.(position := p), TrailingStop, 100.0, now)
      else o.(position := p)
    else o
  }

  /** Whole minutes between two instants, rounded toward zero. */
  function ElapsedMinutes(from: int, to: int): int {
    var ms := to - from;
    if ms >= 0 then ms / 60_000 else -((-ms) / 60_000)
  }

  function CheckTime(cfg: EngineConfig, o: Outcome, now: int): Outcome {
    if ElapsedMinutes(o.position.openedAt, now) >= cfg.timeExitMinutes &&
       o.position.pnlPct < cfg.timeExitMinProfitPct
    then Sell(o, TimeExit, 100.0, now)
    else o
  }

  function EvaluateExits(cfg: EngineConfig, p: Snapshot, now: int): Outcome {
    CheckTime(cfg, Trail(cfg, TakeProfit(cfg, Outcome(p, []), now), now), now)
  }

  function TickPosition(cfg: EngineConfig, p: Snapshot, q: Quote): Outcome
    requires p.entryPrice > 0.0
  {
    EvaluateExits(cfg, Reprice(p, q.price), q.now)
  }

  /** The stub behind `fetch_price`: silent for a position without a token address. */
  function FetchPrice(p: Snapshot, epochSeconds: nat): Option<real> {
    if p.tokenAddress == "" then None
    else Some(p.entryPrice * (1.0 + (epochSeconds % 10) as real / 100.0))
  }

  /* ----- the reference reading: thresholds on prices, no flags and no cascade ----- */

  /** The settings under which the trailing stop lies strictly below the price that arms it. */
  predicate StopUnderTarget(cfg: EngineConfig) {
    cfg.trailingStopPct > 0.0 && (cfg.trailingStopPct >= 100.0 || cfg.tp1Pct > -cfg.trailingStopPct)
  }

  /** The settings under which the exit rules never fire together: beside that, the time exit's profit floor
      does not reach the take-profit range. */
  predicate RulesApart(cfg: EngineConfig) {
    && StopUnderTarget(cfg)
    && (cfg.timeExitMinProfitPct <= cfg.tp1Pct || cfg.timeExitMinProfitPct <= -100.0)
  }

  function Target(entry: real, pct: real): real {
    entry * (1.0 + pct / 100.0)
  }

  /** At least `minutes` whole minutes lie in `ms` milliseconds, counted toward zero. */
  predicate Lasts(ms: int, minutes: int) {
    if minutes > 0 then ms >= 60_000 * minutes else ms > 60_000 * (minutes - 1)
  }

  predicate TimeIsUp(cfg: EngineConfig, entry: real, openedAt: int, price: real, now: int) {
    Lasts(now - openedAt, cfg.timeExitMinutes) && price < Target(entry, cfg.timeExitMinProfitPct)
  }

  /** The exit a price at a time calls for, if any, where the rules are apart. */
  function ExitRule(cfg: EngineConfig, entry: real, openedAt: int, price: real, now: int): Option<ExitReason> {
    if price >= Target(entry, cfg.tp1Pct) then Some(Tp1)
    else if TimeIsUp(cfg, entry, openedAt, price, now) then Some(TimeExit)
    else None
  }

  /** The price that arms a trailing stop under the higher of itself and the entry is at or below that stop. */
  predicate StopMet(cfg: EngineConfig, entry: real, price: real) {
    price <= StopBelow(cfg, if price > entry then price else entry)
  }

  function ProfitRules(cfg: EngineConfig, entry: real, price: real): (rules: seq<ExitReason>)
    ensures |rules| <= 2 && Emergency !in rules && TimeExit !in rules
  {
    if price < Target(entry, cfg.tp1Pct) then []
    else if StopMet(cfg, entry, price) then [Tp1, TrailingStop]
    else [Tp1]
  }

  function TimeRules(cfg: EngineConfig, entry: real, openedAt: int, price: real, now: int): seq<ExitReason> {
    if TimeIsUp(cfg, entry, openedAt, price, now) then [TimeExit] else []
  }

  /** The exits a price at a time calls for under any settings, in the order they are sent. */
  function ExitRules(cfg: EngineConfig, entry: real, openedAt: int, price: real, now: int): (rules: seq<ExitReason>)
    ensures |rules| <= 3 && Emergency !in rules
  {
    ProfitRules(cfg, entry, price) + TimeRules(cfg, entry, openedAt, price, now)
  }

  function ExitPct(cfg: EngineConfig, reason: ExitReason): real {
    if reason.Tp1? then cfg.tp1SellPct else 100.0
  }

  /** The price on record agrees with the profit on record. */
  predicate Priced(p: Snapshot) {
    && p.entryPrice > 0.0
    && p.pnlPct == PnlPct(p.entryPrice, p.currentPrice)
    && p.pnlUsd == p.sizeUsd * p.pnlPct / 100.0
  }

  /** What every position still held looks like before its first take-profit. */
  predicate Untriggered(cfg: EngineConfig, p: Snapshot) {
    && Priced(p)
    && !p.tp1Hit && !p.trailingActive
    && p.stopLossPrice == 0.0
    && p.entryPrice <= p.peakPrice
    && (p.peakPrice < Target(p.entryPrice, cfg.tp1Pct) || p.peakPrice == p.entryPrice)
  }

  /** Two snapshots of the position bought by one trade. */
  predicate SameTrade(a: Snapshot, b: Snapshot) {
    && a.id == b.id && a.tokenId == b.tokenId && a.tokenSymbol == b.tokenSymbol
    && a.tokenAddress == b.tokenAddress && a.chain == b.chain
    && a.entryPrice == b.entryPrice && a.sizeUsd == b.sizeUsd && a.openedAt == b.openedAt
  }

  /** What a published sale should show: why, at which price and peak, whether take-profit has armed the trailing
      stop, and when. */
  datatype Sale = Sale(reason: ExitReason, price: real, peak: real, armed: bool, at: int)

  /** The signal is that sale of the position `start` was opened as, at its share and on its chain's channel. */
  predicate SaleAt(cfg: EngineConfig, start: Snapshot, s: SellSignal, due: Sale) {
    && SameTrade(s.position, start) && Priced(s.position)
    && s.position.status.Closed? && s.position.closedAt == Some(due.at)
    && s.position.currentPrice == due.price && s.position.peakPrice == due.peak
    && s.position.tp1Hit == s.position.trailingActive == due.armed
    && s.position.stopLossPrice == (if due.armed then StopBelow(cfg, due.peak) else 0.0)
    && s == SignalFor(s.position, due.reason, ExitPct(cfg, due.reason))
  }

  predicate SalesAt(cfg: EngineConfig, start: Snapshot, sales: seq<SellSignal>, due: seq<Sale>) {
    |sales| == |due| && forall k | 0 <= k < |sales| :: SaleAt(cfg, start, sales[k], due[k])
  }

  /** The sales that exits at one price and time should bring. */
  function SalesFor(rules: seq<ExitReason>, price: real, peak: real, now: int): (due: seq<Sale>)
    ensures |due| == |rules|
    ensures forall k | 0 <= k < |rules| :: due[k] == Sale(rules[k], price, peak, Tp1 in rules, now)
  {
    seq(|rules|, k requires 0 <= k < |rules| => Sale(rules[k], price, peak, Tp1 in rules, now))
  }

  predicate PositiveQuote(q: Quote) {
    q.price.Some? ==> q.price.value > 0.0
  }

  /* ----- arithmetic of thresholds ----- */

  /** The minutes the cascade counts, against the milliseconds that have passed. */
  lemma MinutesLast(from: int, to: int, minutes: int)
    ensures ElapsedMinutes(from, to) >= minutes <==> Lasts(to - from, minutes)
  {
  }

  lemma ScaleLess(a: real, b: real, e: real)
    requires e > 0.0
    ensures a < b <==> a * e < b * e
  {
    assert (b - a) * e == b * e - a * e;
    if a < b { assert (b - a) * e > 0.0; }
    if b < a { assert (a - b) * e > 0.0; }
  }

  lemma QuotientIs(quotient: real, x: real, y: real)
    requires y > 0.0 && quotient * y == x
    ensures x / y == quotient
  {
    ScaleLess(x / y, quotient, y);
    ScaleLess(quotient, x / y, y);
  }

  lemma GainThreshold(entry: real, price: real, pct: real)
    requires entry > 0.0
    ensures PnlPct(entry, price) >= pct <==> price >= Target(entry, pct)
  {
    var gain := (price - entry) / entry;
    assert gain * entry == price - entry;
    ScaleLess(gain, pct / 100.0, entry);
    assert Target(entry, pct) == entry + pct / 100.0 * entry;
  }

  lemma StopStaysBelow(cfg: EngineConfig, peak: real)
    requires peak > 0.0
    ensures StopBelow(cfg, peak) < peak <==> cfg.trailingStopPct > 0.0
  {
    ScaleLess(1.0 - cfg.trailingStopPct / 100.0, 1.0, peak);
  }

  /** The stop lies the trailing percentage of the peak below it; a price is at or below it when it has fallen
      from the peak by that much. */
  lemma StopIsShareBelow(cfg: EngineConfig, peak: real)
    ensures StopBelow(cfg, peak) == peak - peak * cfg.trailingStopPct / 100.0
  {
    assert peak * (1.0 - cfg.trailingStopPct / 100.0) == peak - peak * (cfg.trailingStopPct / 100.0);
  }

  lemma GainOfTarget(entry: real, gain: real)
    requires entry > 0.0
    ensures PnlPct(entry, Target(entry, gain)) == gain
    ensures Target(entry, gain) > 0.0 <==> gain > -100.0
    ensures Target(entry, gain) > entry <==> gain > 0.0
    ensures Target(entry, gain) < entry <==> gain < 0.0
  {
    QuotientIs(gain / 100.0, Target(entry, gain) - entry, entry);
    ScaleLess(0.0, 1.0 + gain / 100.0, entry);
    ScaleLess(1.0, 1.0 + gain / 100.0, entry);
    ScaleLess(1.0 + gain / 100.0, 1.0, entry);
  }

  /** Any price is the target of its own gain. */
  lemma PriceFromGain(entry: real, price: real)
    requires entry > 0.0
    ensures Target(entry, PnlPct(entry, price)) == price
  {
    var gain := (price - entry) / entry;
    assert entry * (1.0 + gain) == entry + gain * entry;
  }

  /** At gain `g` over the entry, the price is at or below the stop under the peak just when this says. */
  lemma StopAgainstGain(cfg: EngineConfig, entry: real, g: real)
    requires entry > 0.0 && g > -100.0
    ensures var price := Target(entry, g);
            var peak := if price > entry then price else entry;
            price <= StopBelow(cfg, peak) <==> if g > 0.0 then cfg.trailingStopPct <= 0.0 else g <= -cfg.trailingStopPct
  {
    var price := Target(entry, g);
    GainOfTarget(entry, g);
    if g > 0.0 {
      StopStaysBelow(cfg, price);
      ScaleLess(1.0, 1.0 - cfg.trailingStopPct / 100.0, price);
    } else {
      ScaleLess(1.0 - cfg.trailingStopPct / 100.0, 1.0 + g / 100.0, entry);
    }
  }

  /** What a size bought at one price is worth at another. */
  function ValueAt(sizeUsd: real, entry: real, price: real): real
    requires entry > 0.0
  {
    sizeUsd * price / entry
  }

  /** The recorded profit is the fractional move of the price, and size plus profit is the marked value. */
  lemma MarkedValue(p: Snapshot)
    requires Priced(p)
    ensures p.pnlUsd == p.sizeUsd * (p.currentPrice / p.entryPrice - 1.0)
    ensures p.sizeUsd + p.pnlUsd == ValueAt(p.sizeUsd, p.entryPrice, p.currentPrice)
  {
    var r := p.currentPrice / p.entryPrice;
    QuotientIs(r - 1.0, p.currentPrice - p.entryPrice, p.entryPrice);
    QuotientIs(p.sizeUsd * r, p.sizeUsd * p.currentPrice, p.entryPrice);
  }

  /* ----- the cascade against the reference reading ----- */

  lemma OpensUntriggered(cfg: EngineConfig, trade: Trade, id: Id, now: int)
    requires trade.priceUsd > 0.0
    ensures Untriggered(cfg, OpenPosition(trade, id, now))
  {
    assert PnlPct(trade.priceUsd, trade.priceUsd) == 0.0;
  }

  /** Under any settings and any quote, a tick on an untriggered position sends one sale for each exit its
      price and time call for, in order; without any it stays untriggered, with one it is closed. */
  lemma TickFollowsRules(cfg: EngineConfig, p: Snapshot, q: Quote)
    requires Untriggered(cfg, p)
    ensures var price := if q.price.Some? then q.price.value else p.currentPrice;
            var peak := if price > p.peakPrice then price else p.peakPrice;
            var rules := ExitRules(cfg, p.entryPrice, p.openedAt, price, q.now);
            var o := TickPosition(cfg, p, q);
            && SalesAt(cfg, p, o.signals, SalesFor(rules, price, peak, q.now))
            && o.position.currentPrice == price && o.position.peakPrice == peak
            && (rules == [] ==> o.position == Reprice(p, q.price) && Untriggered(cfg, o.position))
            && (rules != [] ==> o.position.status.Closed?)
  {
    var p1 := Reprice(p, q.price);
    var e, price := p.entryPrice, p1.currentPrice;
    GainThreshold(e, price, cfg.tp1Pct);
    GainThreshold(e, price, cfg.timeExitMinProfitPct);
    if price >= Target(e, cfg.tp1Pct) {
      assert p1.peakPrice == if price > e then price else e;
    }
    CascadeFollowsRules(cfg, p1, q.now);
    SalesOfSameTrade(cfg, p1, p, TickPosition(cfg, p, q).signals,
                     SalesFor(ExitRules(cfg, e, p.openedAt, price, q.now), price, p1.peakPrice, q.now));
  }

  lemma SalesOfSameTrade(cfg: EngineConfig, p: Snapshot, start: Snapshot, sales: seq<SellSignal>, due: seq<Sale>)
    requires SameTrade(p, start) && SalesAt(cfg, p, sales, due)
    ensures SalesAt(cfg, start, sales, due)
  {
    forall k | 0 <= k < |sales| ensures SaleAt(cfg, start, sales[k], due[k]) {
      assert SaleAt(cfg, p, sales[k], due[k]);
    }
  }

  /** The sales that `rules` call for are on record, and the position is as before but for its flags, its stop
      and its closing. */
  predicate CarriedOn(cfg: EngineConfig, p: Snapshot, o: Outcome, rules: seq<ExitReason>, now: int) {
    && SameTrade(o.position, p) && Priced(o.position)
    && o.position.currentPrice == p.currentPrice && o.position.pnlPct == p.pnlPct
    && o.position.peakPrice == p.peakPrice
    && o.position.tp1Hit == o.position.trailingActive == (Tp1 in rules)
    && o.position.stopLossPrice == (if Tp1 in rules then StopBelow(cfg, p.peakPrice) else 0.0)
    && SalesAt(cfg, p, o.signals, SalesFor(rules, p.currentPrice, p.peakPrice, now))
    && (if rules == [] then o.position == p else o.position.status.Closed?)
  }

  /** One more sale at the same price and time. */
  lemma SellCarriesOn(cfg: EngineConfig, p: Snapshot, o: Outcome, rules: seq<ExitReason>, reason: ExitReason, now: int)
    requires CarriedOn(cfg, p, o, rules, now) && reason != Tp1
    ensures CarriedOn(cfg, p, Sell(o, reason, 100.0, now), rules + [reason], now)
  {
    var due := SalesFor(rules + [reason], p.currentPrice, p.peakPrice, now);
    var sales := Sell(o, reason, 100.0, now).signals;
    forall k | 0 <= k < |sales| ensures SaleAt(cfg, p, sales[k], due[k]) {
      if k < |rules| {
        assert SaleAt(cfg, p, o.signals[k], SalesFor(rules, p.currentPrice, p.peakPrice, now)[k]);
      }
    }
  }

  lemma ProfitPart(cfg: EngineConfig, p: Snapshot, now: int)
    requires Priced(p) && !p.tp1Hit && !p.trailingActive && p.stopLossPrice == 0.0
    requires p.pnlPct >= cfg.tp1Pct ==>
               p.peakPrice == if p.currentPrice > p.entryPrice then p.currentPrice else p.entryPrice
    requires p.pnlPct >= cfg.tp1Pct <==> p.currentPrice >= Target(p.entryPrice, cfg.tp1Pct)
    ensures CarriedOn(cfg, p, Trail(cfg, TakeProfit(cfg, Outcome(p, []), now), now),
                      ProfitRules(cfg, p.entryPrice, p.currentPrice), now)
  {
    var o1 := TakeProfit(cfg, Outcome(p, []), now);
    if p.pnlPct >= cfg.tp1Pct {
      assert CarriedOn(cfg, p, o1, [Tp1], now);
      TrailPart(cfg, p, o1, now);
    }
  }

  lemma TrailPart(cfg: EngineConfig, p: Snapshot, o: Outcome, now: int)
    requires CarriedOn(cfg, p, o, [Tp1], now)
    ensures CarriedOn(cfg, p, Trail(cfg, o, now),
                      if p.currentPrice <= StopBelow(cfg, p.peakPrice) then [Tp1, TrailingStop] else [Tp1], now)
  {
    SellCarriesOn(cfg, p, o, [Tp1], TrailingStop, now);
    assert [Tp1] + [TrailingStop] == [Tp1, TrailingStop];
  }

  lemma TimePart(cfg: EngineConfig, p: Snapshot, o: Outcome, rules: seq<ExitReason>, now: int)
    requires CarriedOn(cfg, p, o, rules, now)
    requires p.pnlPct >= cfg.timeExitMinProfitPct <==> p.currentPrice >= Target(p.entryPrice, cfg.timeExitMinProfitPct)
    ensures CarriedOn(cfg, p, CheckTime(cfg, o, now),
                      rules + TimeRules(cfg, p.entryPrice, p.openedAt, p.currentPrice, now), now)
  {
    MinutesLast(p.openedAt, now, cfg.timeExitMinutes);
    SellCarriesOn(cfg, p, o, rules, TimeExit, now);
    assert rules + [] == rules;
  }

  lemma CascadeFollowsRules(cfg: EngineConfig, p: Snapshot, now: int)
    requires Priced(p) && !p.tp1Hit && !p.trailingActive && p.stopLossPrice == 0.0
    requires p.pnlPct >= cfg.tp1Pct ==>
               p.peakPrice == if p.currentPrice > p.entryPrice then p.currentPrice else p.entryPrice
    requires p.pnlPct >= cfg.tp1Pct <==> p.currentPrice >= Target(p.entryPrice, cfg.tp1Pct)
    requires p.pnlPct >= cfg.timeExitMinProfitPct <==> p.currentPrice >= Target(p.entryPrice, cfg.timeExitMinProfitPct)
    ensures CarriedOn(cfg, p, EvaluateExits(cfg, p, now),
                      ExitRules(cfg, p.entryPrice, p.openedAt, p.currentPrice, now), now)
  {
    var o := Trail(cfg, TakeProfit(cfg, Outcome(p, []), now), now);
    ProfitPart(cfg, p, now);
    TimePart(cfg, p, o, ProfitRules(cfg, p.entryPrice, p.currentPrice), now);
  }

  /** With the rules apart a positive price never calls for more than one exit, and the simple rule names it. */
  lemma OneRuleWhenApart(cfg: EngineConfig, entry: real, openedAt: int, price: real, now: int)
    requires RulesApart(cfg) && entry > 0.0 && price > 0.0
    ensures var rule := ExitRule(cfg, entry, openedAt, price, now);
            ExitRules(cfg, entry, openedAt, price, now) == if rule.Some? then [rule.value] else []
  {
    StopMeets(cfg, entry, price);
    GainThreshold(entry, price, cfg.tp1Pct);
    GainThreshold(entry, price, cfg.timeExitMinProfitPct);
  }

  /** Which gains over the entry meet the stop they arm. */
  lemma StopMeets(cfg: EngineConfig, entry: real, price: real)
    requires entry > 0.0 && price > 0.0
    ensures var g := PnlPct(entry, price);
            && g > -100.0
            && (StopMet(cfg, entry, price) <==>
                  if g > 0.0 then cfg.trailingStopPct <= 0.0 else g <= -cfg.trailingStopPct)
  {
    PriceFromGain(entry, price);
    GainOfTarget(entry, PnlPct(entry, price));
    StopAgainstGain(cfg, entry, PnlPct(entry, price));
  }
}
