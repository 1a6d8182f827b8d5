/** The trailing stop of `evaluate_exits`, followed over any price history on its own, that is, without
    the monitor's removal of closed positions: this is the behaviour the strategy table describes. */
module TrailingStop {
  import opened Options
  import opened EngineTypes
  import opened PositionRules

  /** The position after its first `n` ticks, closed or not. */
  function PositionAfter(cfg: EngineConfig, p: Snapshot, quotes: seq<Quote>, n: nat): (r: Snapshot)
    requires p.entryPrice > 0.0 && n <= |quotes|
    ensures SameTrade(r, p)
  {
    if n == 0 then p
    else
      var before := PositionAfter(cfg, p, quotes, n - 1);
      TickKeepsTrade(cfg, before, quotes[n - 1]);
      TickPosition(cfg, before, quotes[n - 1]).position
  }

  lemma TickKeepsTrade(cfg: EngineConfig, p: Snapshot, q: Quote)
    requires p.entryPrice > 0.0
    ensures SameTrade(TickPosition(cfg, p, q).position, p)
  {
    var o1 := TakeProfit(cfg, Outcome(Reprice(p, q.price), []), q.now);
    assert SameTrade(o1.position, p);
    var o2 := Trail(cfg, o1, q.now);
    assert SameTrade(o2.position, p);
  }

  /** What tick `i` publishes. */
  function SignalsAt(cfg: EngineConfig, p: Snapshot, quotes: seq<Quote>, i: nat): seq<SellSignal>
    requires p.entryPrice > 0.0 && i < |quotes|
  {
    TickPosition(cfg, PositionAfter(cfg, p, quotes, i), quotes[i]).signals
  }

  /** The price in force after `n` ticks: the last one quoted, or the entry price. */
  function PriceAfter(entry: real, quotes: seq<Quote>, n: nat): real
    requires n <= |quotes|
  {
    if n == 0 then entry
    else if quotes[n - 1].price.Some? then quotes[n - 1].price.value
    else PriceAfter(entry, quotes, n - 1)
  }

  /** The highest of the prices in force so far, entry included. */
  function PeakAfter(entry: real, quotes: seq<Quote>, n: nat): (peak: real)
    requires n <= |quotes|
    ensures forall j :: 0 <= j <= n ==> PriceAfter(entry, quotes, j) <= peak
    ensures exists j :: 0 <= j <= n && PriceAfter(entry, quotes, j) == peak
  {
    if n == 0 then assert PriceAfter(entry, quotes, 0) == entry; entry
    else
      var before := PeakAfter(entry, quotes, n - 1);
      var price := PriceAfter(entry, quotes, n);
      if price > before then price else before
  }

  ghost predicate TargetHitBy(cfg: EngineConfig, entry: real, quotes: seq<Quote>, n: nat)
    requires n <= |quotes|
  {
    exists j :: 0 < j <= n && PriceAfter(entry, quotes, j) >= Target(entry, cfg.tp1Pct)
  }

  ghost predicate SellsTrailing(signals: seq<SellSignal>) {
    exists s :: s in signals && s.reason == TrailingStop
  }

  /** `p` stands at `price` after a peak of `peak`; once the target is hit its stop is the fixed percentage
      below that peak. */
  predicate Stands(cfg: EngineConfig, p: Snapshot, price: real, peak: real, hit: bool) {
    && Priced(p)
    && p.currentPrice == price && p.peakPrice == peak
    && p.tp1Hit == p.trailingActive == hit
    && p.stopLossPrice == StopAt(cfg, peak, hit)
  }

  /** The trailing percentage of the peak below it, once the target is hit. */
  function StopAt(cfg: EngineConfig, peak: real, hit: bool): real {
    if hit then peak - peak * cfg.trailingStopPct / 100.0 else 0.0
  }

  lemma StopAtRises(cfg: EngineConfig, a: real, hitA: bool, b: real, hitB: bool)
    requires 0.0 <= a <= b && cfg.trailingStopPct <= 100.0 && (hitA ==> hitB)
    ensures StopAt(cfg, a, hitA) <= StopAt(cfg, b, hitB)
  {
    StopIsShareBelow(cfg, a);
    StopIsShareBelow(cfg, b);
    StopIsShareBelow(cfg, 0.0);
    StopMonotone(cfg, a, b);
    StopMonotone(cfg, 0.0, b);
  }

  lemma Cascade(cfg: EngineConfig, p: Snapshot, now: int)
    requires p.tp1Hit == p.trailingActive
    requires p.tp1Hit ==> p.stopLossPrice <= StopBelow(cfg, p.peakPrice)
    ensures var hit := p.tp1Hit || p.pnlPct >= cfg.tp1Pct;
            var o := EvaluateExits(cfg, p, now);
            && (SellsTrailing(o.signals) <==> hit && p.currentPrice <= StopBelow(cfg, p.peakPrice))
            && o.position == p.(tp1Hit := hit, trailingActive := hit,
                                stopLossPrice := if hit then StopBelow(cfg, p.peakPrice) else p.stopLossPrice,
                                status := o.position.status, closedAt := o.position.closedAt)
  {
    var o1 := TakeProfit(cfg, Outcome(p, []), now);
    var o2 := Trail(cfg, o1, now);
    assert !SellsTrailing(o1.signals);
    assert o1.position.trailingActive ==> o1.position.stopLossPrice <= StopBelow(cfg, p.peakPrice);
    TrailSells(cfg, o1, now);
    TimeSellsNoTrailing(cfg, o2, now);
  }

  lemma TrailSells(cfg: EngineConfig, o: Outcome, now: int)
    requires !SellsTrailing(o.signals)
    requires o.position.trailingActive ==> o.position.stopLossPrice <= StopBelow(cfg, o.position.peakPrice)
    ensures var r, p := Trail(cfg, o, now), o.position;
            && (SellsTrailing(r.signals) <==> p.trailingActive && p.currentPrice <= StopBelow(cfg, p.peakPrice))
            && r.position == p.(stopLossPrice := if p.trailingActive then StopBelow(cfg, p.peakPrice)
                                                 else p.stopLossPrice,
                                status := r.position.status, closedAt := r.position.closedAt)
  {
    var r := Trail(cfg, o, now);
    if |r.signals| > |o.signals| { assert r.signals[|o.signals|].reason == TrailingStop; }
  }

  lemma TimeSellsNoTrailing(cfg: EngineConfig, o: Outcome, now: int)
    ensures var r := CheckTime(cfg, o, now);
            && (SellsTrailing(r.signals) <==> SellsTrailing(o.signals))
            && r.position == o.position.(status := r.position.status, closedAt := r.position.closedAt)
  {
    var r := CheckTime(cfg, o, now);
    assert r.signals[..|o.signals|] == o.signals;
  }

  lemma OneTick(cfg: EngineConfig, p: Snapshot, q: Quote, peak: real, hit: bool)
    requires cfg.trailingStopPct <= 100.0
    requires Stands(cfg, p, p.currentPrice, peak, hit)
    ensures var price := if q.price.Some? then q.price.value else p.currentPrice;
            var newPeak := if price > peak then price else peak;
            var newHit := hit || price >= Target(p.entryPrice, cfg.tp1Pct);
            var o := TickPosition(cfg, p, q);
            && Stands(cfg, o.position, price, newPeak, newHit)
            && (SellsTrailing(o.signals) <==> newHit && price <= StopBelow(cfg, newPeak))
  {
    var p1 := Reprice(p, q.price);
    GainThreshold(p.entryPrice, p1.currentPrice, cfg.tp1Pct);
    StopMonotone(cfg, p.peakPrice, p1.peakPrice);
    Cascade(cfg, p1, q.now);
  }

  lemma StopMonotone(cfg: EngineConfig, a: real, b: real)
    requires a <= b && cfg.trailingStopPct <= 100.0
    ensures StopBelow(cfg, a) <= StopBelow(cfg, b)
  {
    var keep := 1.0 - cfg.trailingStopPct / 100.0;
    assert (b - a) * keep >= 0.0;
    assert b * keep - a * keep == (b - a) * keep;
  }

  lemma TargetHitStep(cfg: EngineConfig, entry: real, quotes: seq<Quote>, n: nat)
    requires 0 < n <= |quotes|
    ensures TargetHitBy(cfg, entry, quotes, n)
       <==> TargetHitBy(cfg, entry, quotes, n - 1) || PriceAfter(entry, quotes, n) >= Target(entry, cfg.tp1Pct)
  {
    if PriceAfter(entry, quotes, n) >= Target(entry, cfg.tp1Pct) {
      assert TargetHitBy(cfg, entry, quotes, n);
    }
  }

  /** From the first take-profit on, the stop is the fixed percentage below the running peak. */
  lemma {:induction false} StopFollowsPeak(cfg: EngineConfig, trade: Trade, id: Id, now: int, quotes: seq<Quote>,
                                           n: nat)
    requires trade.priceUsd > 0.0 && cfg.trailingStopPct <= 100.0 && n <= |quotes|
    ensures Stands(cfg, PositionAfter(cfg, OpenPosition(trade, id, now), quotes, n),
                   PriceAfter(trade.priceUsd, quotes, n), PeakAfter(trade.priceUsd, quotes, n),
                   TargetHitBy(cfg, trade.priceUsd, quotes, n))
  {
    if n == 0 {
      assert PnlPct(trade.priceUsd, trade.priceUsd) == 0.0;
    } else {
      StopFollowsPeak(cfg, trade, id, now, quotes, n - 1);
      FollowOneMore(cfg, trade, id, now, quotes, n);
    }
  }

  lemma FollowOneMore(cfg: EngineConfig, trade: Trade, id: Id, now: int, quotes: seq<Quote>, n: nat)
    requires trade.priceUsd > 0.0 && cfg.trailingStopPct <= 100.0 && 0 < n <= |quotes|
    requires Stands(cfg, PositionAfter(cfg, OpenPosition(trade, id, now), quotes, n - 1),
                    PriceAfter(trade.priceUsd, quotes, n - 1), PeakAfter(trade.priceUsd, quotes, n - 1),
                    TargetHitBy(cfg, trade.priceUsd, quotes, n - 1))
    ensures Stands(cfg, PositionAfter(cfg, OpenPosition(trade, id, now), quotes, n),
                   PriceAfter(trade.priceUsd, quotes, n), PeakAfter(trade.priceUsd, quotes, n),
                   TargetHitBy(cfg, trade.priceUsd, quotes, n))
    ensures SellsTrailing(SignalsAt(cfg, OpenPosition(trade, id, now), quotes, n - 1))
       <==> && TargetHitBy(cfg, trade.priceUsd, quotes, n)
            && PriceAfter(trade.priceUsd, quotes, n) <= StopBelow(cfg, PeakAfter(trade.priceUsd, quotes, n))
  {
    OneTick(cfg, PositionAfter(cfg, OpenPosition(trade, id, now), quotes, n - 1), quotes[n - 1],
            PeakAfter(trade.priceUsd, quotes, n - 1), TargetHitBy(cfg, trade.priceUsd, quotes, n - 1));
    TargetHitStep(cfg, trade.priceUsd, quotes, n);
  }

  /** After `n` ticks the stop is where the peak so far puts it. */
  ghost predicate FollowsAt(cfg: EngineConfig, trade: Trade, id: Id, now: int, quotes: seq<Quote>, n: nat)
    requires trade.priceUsd > 0.0 && n <= |quotes|
  {
    Stands(cfg, PositionAfter(cfg, OpenPosition(trade, id, now), quotes, n),
           PriceAfter(trade.priceUsd, quotes, n), PeakAfter(trade.priceUsd, quotes, n),
           TargetHitBy(cfg, trade.priceUsd, quotes, n))
  }

  ghost predicate AlwaysFollows(cfg: EngineConfig, trade: Trade, id: Id, now: int)
    requires trade.priceUsd > 0.0
  {
    forall quotes: seq<Quote>, n: nat | n <= |quotes| :: FollowsAt(cfg, trade, id, now, quotes, n)
  }

  /** The stop follows the peak over all histories exactly when it is at most the whole price; otherwise two
      rising quotes past the target leave it behind. */
  lemma FollowsPeakExactlyWhen(cfg: EngineConfig, trade: Trade, id: Id, now: int)
    requires trade.priceUsd > 0.0
    ensures AlwaysFollows(cfg, trade, id, now) <==> cfg.trailingStopPct <= 100.0
  {
    if cfg.trailingStopPct <= 100.0 {
      forall quotes: seq<Quote>, n: nat | n <= |quotes| ensures FollowsAt(cfg, trade, id, now, quotes, n) {
        StopFollowsPeak(cfg, trade, id, now, quotes, n);
      }
    } else {
      var target := Target(trade.priceUsd, cfg.tp1Pct);
      var price := if target > trade.priceUsd then target else trade.priceUsd;
      var quotes := [Quote(Some(price), now), Quote(Some(price + 1.0), now)];
      StopLeftBehind(cfg, trade, id, now, quotes, price);
      assert !(FollowsAt(cfg, trade, id, now, quotes, 1) && FollowsAt(cfg, trade, id, now, quotes, 2));
    }
  }

  lemma StopLeftBehind(cfg: EngineConfig, trade: Trade, id: Id, now: int, quotes: seq<Quote>, price: real)
    requires trade.priceUsd > 0.0 && cfg.trailingStopPct > 100.0
    requires price >= trade.priceUsd && price >= Target(trade.priceUsd, cfg.tp1Pct)
    requires quotes == [Quote(Some(price), now), Quote(Some(price + 1.0), now)]
    ensures !(FollowsAt(cfg, trade, id, now, quotes, 1) && FollowsAt(cfg, trade, id, now, quotes, 2))
  {
    var entry, open := trade.priceUsd, OpenPosition(trade, id, now);
    PeaksOfRise(entry, quotes, price);
    assert PriceAfter(entry, quotes, 1) == price;
    assert TargetHitBy(cfg, entry, quotes, 1) && TargetHitBy(cfg, entry, quotes, 2);
    if FollowsAt(cfg, trade, id, now, quotes, 1) {
      LeftBehindBy(cfg, PositionAfter(cfg, open, quotes, 1), quotes[1], price);
    }
  }

  lemma LeftBehindBy(cfg: EngineConfig, p: Snapshot, q: Quote, peak: real)
    requires cfg.trailingStopPct > 100.0 && Stands(cfg, p, peak, peak, true) && q.price == Some(peak + 1.0)
    ensures !Stands(cfg, TickPosition(cfg, p, q).position, peak + 1.0, peak + 1.0, true)
  {
    StopDropsWithPeak(cfg, peak);
    StopStays(cfg, p, q);
  }

  lemma PeaksOfRise(entry: real, quotes: seq<Quote>, price: real)
    requires |quotes| == 2 && price >= entry
    requires quotes[0].price == Some(price) && quotes[1].price == Some(price + 1.0)
    ensures PriceAfter(entry, quotes, 1) == PeakAfter(entry, quotes, 1) == price
    ensures PriceAfter(entry, quotes, 2) == PeakAfter(entry, quotes, 2) == price + 1.0
  {
    assert PeakAfter(entry, quotes, 0) == entry;
  }

  lemma StopDropsWithPeak(cfg: EngineConfig, peak: real)
    requires cfg.trailingStopPct > 100.0
    ensures StopBelow(cfg, peak + 1.0) < StopBelow(cfg, peak)
  {
    var keep := 1.0 - cfg.trailingStopPct / 100.0;
    assert (peak + 1.0) * keep == peak * keep + keep;
  }

  /** A stop already above the one the new peak gives is not lowered to it. */
  lemma StopStays(cfg: EngineConfig, p: Snapshot, q: Quote)
    requires p.entryPrice > 0.0 && p.tp1Hit && p.trailingActive
    requires StopBelow(cfg, Reprice(p, q.price).peakPrice) <= p.stopLossPrice
    ensures TickPosition(cfg, p, q).position.stopLossPrice == p.stopLossPrice
  {
  }

  /** The price is below the peak by at least the trailing percentage of it. */
  predicate HasFallen(cfg: EngineConfig, peak: real, price: real) {
    peak - price >= peak * cfg.trailingStopPct / 100.0
  }

  /** Tick `i` publishes a trailing-stop sale exactly when the target was hit at or before it and its price
      has fallen from the peak by the trailing percentage. */
  lemma TrailingFiresExactlyAtStop(cfg: EngineConfig, trade: Trade, id: Id, now: int, quotes: seq<Quote>, i: nat)
    requires trade.priceUsd > 0.0 && cfg.trailingStopPct <= 100.0 && i < |quotes|
    ensures SellsTrailing(SignalsAt(cfg, OpenPosition(trade, id, now), quotes, i))
       <==> && TargetHitBy(cfg, trade.priceUsd, quotes, i + 1)
            && HasFallen(cfg, PeakAfter(trade.priceUsd, quotes, i + 1), PriceAfter(trade.priceUsd, quotes, i + 1))
  {
    StopIsShareBelow(cfg, PeakAfter(trade.priceUsd, quotes, i + 1));
    StopFollowsPeak(cfg, trade, id, now, quotes, i);
    FollowOneMore(cfg, trade, id, now, quotes, i + 1);
  }

  /** The stop never moves down. */
  lemma {:induction false} StopNeverFalls(cfg: EngineConfig, trade: Trade, id: Id, now: int, quotes: seq<Quote>,
                                          m: nat, n: nat)
    requires trade.priceUsd > 0.0 && cfg.trailingStopPct <= 100.0 && m <= n <= |quotes|
    ensures var open := OpenPosition(trade, id, now);
            PositionAfter(cfg, open, quotes, m).stopLossPrice <= PositionAfter(cfg, open, quotes, n).stopLossPrice
  {
    StopFollowsPeak(cfg, trade, id, now, quotes, m);
    StopFollowsPeak(cfg, trade, id, now, quotes, n);
    var peakM, peakN := PeakAfter(trade.priceUsd, quotes, m), PeakAfter(trade.priceUsd, quotes, n);
    assert PriceAfter(trade.priceUsd, quotes, 0) == trade.priceUsd <= peakM <= peakN;
    StopAtRises(cfg, peakM, TargetHitBy(cfg, trade.priceUsd, quotes, m),
                peakN, TargetHitBy(cfg, trade.priceUsd, quotes, n));
  }
}
