/** When and how a position leaves the monitor: the step-by-step fate of `MonitorRuns`, read off the inputs. */
module MonitorExits {
  import opened Options
  import opened EngineTypes
  import opened PositionRules
  import opened TrailingStop
  import opened MonitorRuns

  /* ----- when a position leaves, read off the inputs ----- */

  /** The sales the emergency stops call for, each at the price and peak in force when it arrived. */
  function StopsBy(id: Id, entry: real, later: seq<Input>): seq<Sale> {
    if later == [] then []
    else
      var before, last := later[..|later| - 1], later[|later| - 1];
      StopsBy(id, entry, before) +
      if Emergencies(last) then [StopSaleDue(entry, QuotesFor(id, before), last.at)] else []
  }

  /** The price in force at the tick at `k`. */
  function PriceAt(id: Id, entry: real, later: seq<Input>, k: nat): real
    requires k < |later| && later[k].Tick?
  {
    var before := QuotesFor(id, later[..k]);
    PriceAfter(entry, before + [later[k].feed(id)], |before| + 1)
  }

  /** The exits the tick at `k` calls for. */
  function RulesAtInput(cfg: EngineConfig, id: Id, trade: Trade, openedAt: int, later: seq<Input>,
                        k: nat): seq<ExitReason>
    requires k < |later| && later[k].Tick?
  {
    ExitRules(cfg, trade.priceUsd, openedAt, PriceAt(id, trade.priceUsd, later, k), later[k].feed(id).now)
  }

  /** The highest price up to the tick at `k`. */
  function PeakAt(id: Id, entry: real, later: seq<Input>, k: nat): real
    requires k < |later| && later[k].Tick?
  {
    var before := QuotesFor(id, later[..k]);
    PeakAfter(entry, before + [later[k].feed(id)], |before| + 1)
  }

  /** The sales the tick at `k` calls for. */
  function ExitsAt(cfg: EngineConfig, id: Id, trade: Trade, openedAt: int, later: seq<Input>, k: nat): seq<Sale>
    requires k < |later| && later[k].Tick?
  {
    SalesFor(RulesAtInput(cfg, id, trade, openedAt, later, k),
             PriceAt(id, trade.priceUsd, later, k), PeakAt(id, trade.priceUsd, later, k), later[k].feed(id).now)
  }

  /** At `k` is a tick that calls for an exit or has an emergency stop before it. */
  predicate Ends(cfg: EngineConfig, id: Id, trade: Trade, openedAt: int, later: seq<Input>, k: nat)
    requires k < |later|
  {
    && later[k].Tick?
    && (RulesAtInput(cfg, id, trade, openedAt, later, k) != [] || StopsBy(id, trade.priceUsd, later[..k]) != [])
  }

  /** The position leaves at `k`: the first such tick. */
  ghost predicate LeavesAt(cfg: EngineConfig, id: Id, trade: Trade, openedAt: int, later: seq<Input>, k: nat) {
    && k < |later| && Ends(cfg, id, trade, openedAt, later, k)
    && forall j | 0 <= j < k :: !Ends(cfg, id, trade, openedAt, later, j)
  }

  lemma EndsInPrefix(cfg: EngineConfig, id: Id, trade: Trade, openedAt: int, before: seq<Input>, last: Input)
    ensures forall k | 0 <= k < |before| ::
              Ends(cfg, id, trade, openedAt, before + [last], k) <==> Ends(cfg, id, trade, openedAt, before, k)
    ensures forall k: nat | k < |before| ::
              LeavesAt(cfg, id, trade, openedAt, before + [last], k) <==> LeavesAt(cfg, id, trade, openedAt, before, k)
  {
    forall k | 0 <= k < |before|
      ensures Ends(cfg, id, trade, openedAt, before + [last], k) <==> Ends(cfg, id, trade, openedAt, before, k)
    {
      assert (before + [last])[..k] == before[..k];
    }
  }

  /** The fate, step by step, is the one the inputs show at a glance. */
  ghost predicate FateAtAGlance(cfg: EngineConfig, id: Id, trade: Trade, openedAt: int, later: seq<Input>, fate: Fate) {
    && (fate.Left? <==> exists k: nat :: LeavesAt(cfg, id, trade, openedAt, later, k))
    && (fate.Holding? ==> fate.stops == StopsBy(id, trade.priceUsd, later))
    && (forall k: nat | LeavesAt(cfg, id, trade, openedAt, later, k) ::
          fate == Left(StopsBy(id, trade.priceUsd, later[..k]), ExitsAt(cfg, id, trade, openedAt, later, k)))
  }

  lemma {:induction false} FateByInputs(cfg: EngineConfig, id: Id, trade: Trade, openedAt: int, later: seq<Input>)
    ensures FateAtAGlance(cfg, id, trade, openedAt, later, FateOf(cfg, id, trade, openedAt, later))
  {
    if later != [] {
      var before, last := later[..|later| - 1], later[|later| - 1];
      FateByInputs(cfg, id, trade, openedAt, before);
      FateOneMore(cfg, id, trade, openedAt, before, last);
      assert later == before + [last];
      GlanceOneMore(cfg, id, trade, openedAt, before, last, FateOf(cfg, id, trade, openedAt, before));
    }
  }

  lemma GlanceOneMore(cfg: EngineConfig, id: Id, trade: Trade, openedAt: int, before: seq<Input>, last: Input,
                      fate: Fate)
    requires FateAtAGlance(cfg, id, trade, openedAt, before, fate)
    ensures FateAtAGlance(cfg, id, trade, openedAt, before + [last],
                          FateStep(cfg, id, trade, openedAt, QuotesFor(id, before), fate, last))
  {
    EndsInPrefix(cfg, id, trade, openedAt, before, last);
    if fate.Left? {
      GlanceWhenGone(cfg, id, trade, openedAt, before, last, fate);
    } else {
      GlanceWhenHeld(cfg, id, trade, openedAt, before, last, fate);
    }
  }

  lemma GlanceWhenGone(cfg: EngineConfig, id: Id, trade: Trade, openedAt: int, before: seq<Input>, last: Input,
                       fate: Fate)
    requires FateAtAGlance(cfg, id, trade, openedAt, before, fate) && fate.Left?
    ensures FateAtAGlance(cfg, id, trade, openedAt, before + [last], fate)
  {
    var later := before + [last];
    EndsInPrefix(cfg, id, trade, openedAt, before, last);
    var k: nat :| LeavesAt(cfg, id, trade, openedAt, before, k);
    assert LeavesAt(cfg, id, trade, openedAt, later, k) && later[..k] == before[..k];
    assert forall j: nat | LeavesAt(cfg, id, trade, openedAt, later, j) :: j == k;
  }

  lemma GlanceWhenHeld(cfg: EngineConfig, id: Id, trade: Trade, openedAt: int, before: seq<Input>, last: Input,
                       fate: Fate)
    requires FateAtAGlance(cfg, id, trade, openedAt, before, fate) && fate.Holding?
    ensures FateAtAGlance(cfg, id, trade, openedAt, before + [last],
                          FateStep(cfg, id, trade, openedAt, QuotesFor(id, before), fate, last))
  {
    var later, n := before + [last], |before|;
    EndsInPrefix(cfg, id, trade, openedAt, before, last);
    NoneEndsBefore(cfg, id, trade, openedAt, before);
    assert Ends(cfg, id, trade, openedAt, later, n) <==> LeavesAt(cfg, id, trade, openedAt, later, n);
    assert forall j: nat | LeavesAt(cfg, id, trade, openedAt, later, j) :: j == n;
    EndsNow(cfg, id, trade, openedAt, before, last, fate);
  }

  lemma EndsNow(cfg: EngineConfig, id: Id, trade: Trade, openedAt: int, before: seq<Input>, last: Input, fate: Fate)
    requires fate.Holding? && fate.stops == StopsBy(id, trade.priceUsd, before)
    ensures var later := before + [last];
            var next := FateStep(cfg, id, trade, openedAt, QuotesFor(id, before), fate, last);
            if Ends(cfg, id, trade, openedAt, later, |before|)
            then next == Left(StopsBy(id, trade.priceUsd, later[..|before|]),
                              ExitsAt(cfg, id, trade, openedAt, later, |before|))
            else next == Holding(StopsBy(id, trade.priceUsd, later))
  {
    assert (before + [last])[..|before|] == before;
    if last.Tick? {
      ExitsAtEnd(cfg, id, trade, openedAt, before, last);
      assert StopsBy(id, trade.priceUsd, before) + [] == StopsBy(id, trade.priceUsd, before);
    }
  }

  lemma ExitsAtEnd(cfg: EngineConfig, id: Id, trade: Trade, openedAt: int, before: seq<Input>, last: Input)
    requires last.Tick?
    ensures var later, n := before + [last], |before|;
            && ExitsAt(cfg, id, trade, openedAt, later, n)
               == ExitSalesDue(cfg, trade, openedAt, QuotesFor(id, before) + [last.feed(id)])
            && (ExitsAt(cfg, id, trade, openedAt, later, n) == []
                <==> RulesAtInput(cfg, id, trade, openedAt, later, n) == [])
  {
    assert (before + [last])[..|before|] == before;
  }

  lemma NoneEndsBefore(cfg: EngineConfig, id: Id, trade: Trade, openedAt: int, later: seq<Input>)
    requires forall k: nat :: !LeavesAt(cfg, id, trade, openedAt, later, k)
    ensures forall k | 0 <= k < |later| :: !Ends(cfg, id, trade, openedAt, later, k)
  {
    if k :| 0 <= k < |later| && Ends(cfg, id, trade, openedAt, later, k) {
      FirstEnd(cfg, id, trade, openedAt, later, k);
    }
  }

  lemma {:induction false} FirstEnd(cfg: EngineConfig, id: Id, trade: Trade, openedAt: int, later: seq<Input>, k: nat)
    requires k < |later| && Ends(cfg, id, trade, openedAt, later, k)
    ensures exists j: nat :: LeavesAt(cfg, id, trade, openedAt, later, j)
  {
    if j :| 0 <= j < k && Ends(cfg, id, trade, openedAt, later, j) {
      FirstEnd(cfg, id, trade, openedAt, later, j);
    } else {
      assert LeavesAt(cfg, id, trade, openedAt, later, k);
    }
  }

  /** `p` is the position a trade bought: its token, chain, price and amount, under the given id and time. */
  predicate BoughtBy(p: Snapshot, trade: Trade, id: Id, at: int) {
    && p.id == id && p.openedAt == at && p.tokenAddress == ""
    && p.tokenId == trade.tokenId && p.tokenSymbol == trade.tokenSymbol && p.chain == trade.chain
    && p.entryPrice == trade.priceUsd && p.sizeUsd == trade.amountUsd
  }

  /** The signal is that sale of what the trade bought: on its chain's channel, with its reason, share and price,
      and carrying the position closed at that time, at that price and peak, with the profit it stands at. */
  predicate IsSale(cfg: EngineConfig, trade: Trade, id: Id, openedAt: int, s: SellSignal, due: Sale)
    requires trade.priceUsd > 0.0
  {
    && s.channel == (if trade.chain == "solana" then "sell:solana" else "sell:bsc")
    && s.reason == due.reason
    && s.sellPct == (if due.reason == Tp1 then cfg.tp1SellPct else 100.0)
    && s.targetPrice == Some(due.price)
    && BoughtBy(s.position, trade, id, openedAt)
    && s.position.status.Closed? && s.position.closedAt == Some(due.at)
    && s.position.currentPrice == due.price && s.position.peakPrice == due.peak
    && s.position.sizeUsd + s.position.pnlUsd == ValueAt(trade.amountUsd, trade.priceUsd, due.price)
    && Target(trade.priceUsd, s.position.pnlPct) == due.price
    && s.position.tp1Hit == s.position.trailingActive == due.armed
    && s.position.stopLossPrice == (if due.armed then due.peak - due.peak * cfg.trailingStopPct / 100.0 else 0.0)
  }

  ghost predicate AreSales(cfg: EngineConfig, trade: Trade, id: Id, openedAt: int, sold: seq<SellSignal>,
                           due: seq<Sale>)
    requires trade.priceUsd > 0.0
  {
    |sold| == |due| && forall i | 0 <= i < |sold| :: IsSale(cfg, trade, id, openedAt, sold[i], due[i])
  }

  lemma SaleIsSale(cfg: EngineConfig, trade: Trade, id: Id, openedAt: int, s: SellSignal, due: Sale)
    requires trade.priceUsd > 0.0 && SaleAt(cfg, OpenPosition(trade, id, openedAt), s, due)
    ensures IsSale(cfg, trade, id, openedAt, s, due)
  {
    MarkedValue(s.position);
    PriceFromGain(trade.priceUsd, due.price);
    StopIsShareBelow(cfg, due.peak);
  }

  lemma SalesAreSales(cfg: EngineConfig, trade: Trade, id: Id, openedAt: int, sold: seq<SellSignal>, due: seq<Sale>)
    requires trade.priceUsd > 0.0 && SalesAt(cfg, OpenPosition(trade, id, openedAt), sold, due)
    ensures AreSales(cfg, trade, id, openedAt, sold, due)
  {
    forall i | 0 <= i < |sold| ensures IsSale(cfg, trade, id, openedAt, sold[i], due[i]) {
      SaleIsSale(cfg, trade, id, openedAt, sold[i], due[i]);
    }
  }

  /** Sold for each emergency stop before `k`, then for each exit the tick at `k` calls for. */
  ghost predicate SoldByThen(cfg: EngineConfig, id: Id, trade: Trade, openedAt: int, later: seq<Input>, k: nat,
                             sold: seq<SellSignal>)
    requires trade.priceUsd > 0.0 && k < |later| && later[k].Tick?
  {
    AreSales(cfg, trade, id, openedAt, sold,
             StopsBy(id, trade.priceUsd, later[..k]) + ExitsAt(cfg, id, trade, openedAt, later, k))
  }

  /** Under any settings and any quotes: a position is in the map until the first tick that calls for an exit
      or follows an emergency stop, and gone from then on; it has been sold whole once per emergency stop
      before that tick, at the price in force then, and then once for each exit the tick calls for, in order. */
  lemma LeavesExactlyAt(cfg: EngineConfig, id: Id, inputs: seq<Input>, o: nat)
    requires OpensOnce(inputs, id, o)
    ensures inputs[o].message.value.priceUsd > 0.0
    ensures var trade, openedAt, later := inputs[o].message.value, inputs[o].at, inputs[o + 1..];
            var life := Lived(cfg, id, inputs);
            && (life.held.None? <==> exists k: nat :: LeavesAt(cfg, id, trade, openedAt, later, k))
            && (life.held.Some? ==>
                  AreSales(cfg, trade, id, openedAt, life.sold, StopsBy(id, trade.priceUsd, later)))
            && forall k: nat | LeavesAt(cfg, id, trade, openedAt, later, k) ::
                 SoldByThen(cfg, id, trade, openedAt, later, k, life.sold)
  {
    var trade, openedAt, later := inputs[o].message.value, inputs[o].at, inputs[o + 1..];
    var life := Lived(cfg, id, inputs);
    assert Positive(inputs[o]);
    FateIsFulfilled(cfg, id, inputs, o);
    FateByInputs(cfg, id, trade, openedAt, later);
    var fate := FateOf(cfg, id, trade, openedAt, later);
    SalesAreSales(cfg, trade, id, openedAt, life.sold, if fate.Left? then fate.stops + fate.exits else fate.stops);
  }

  /* ----- one exit, where the rules are apart and nothing stops in an emergency ----- */

  ghost predicate NoEmergency(inputs: seq<Input>) {
    forall i | 0 <= i < |inputs| :: !Emergencies(inputs[i])
  }

  /** The exit the tick at `k` calls for by the simple rule, if any. */
  function CallAt(cfg: EngineConfig, id: Id, trade: Trade, openedAt: int, later: seq<Input>, k: nat): Option<ExitReason>
    requires k < |later|
  {
    if later[k].Tick?
    then ExitRule(cfg, trade.priceUsd, openedAt, PriceAt(id, trade.priceUsd, later, k), later[k].feed(id).now)
    else None
  }

  function CalledSale(cfg: EngineConfig, id: Id, trade: Trade, openedAt: int, later: seq<Input>, k: nat): Sale
    requires k < |later| && CallAt(cfg, id, trade, openedAt, later, k).Some?
  {
    var reason := CallAt(cfg, id, trade, openedAt, later, k).value;
    Sale(reason, PriceAt(id, trade.priceUsd, later, k), PeakAt(id, trade.priceUsd, later, k), reason == Tp1,
         later[k].feed(id).now)
  }

  ghost predicate FirstCall(cfg: EngineConfig, id: Id, trade: Trade, openedAt: int, later: seq<Input>, k: nat) {
    && k < |later| && CallAt(cfg, id, trade, openedAt, later, k).Some?
    && forall j | 0 <= j < k :: CallAt(cfg, id, trade, openedAt, later, j).None?
  }

  lemma {:induction false} NoStopsBy(id: Id, entry: real, inputs: seq<Input>, n: nat)
    requires n <= |inputs| && NoEmergency(inputs)
    ensures StopsBy(id, entry, inputs[..n]) == []
  {
    if n > 0 {
      NoStopsBy(id, entry, inputs, n - 1);
      assert inputs[..n][..n - 1] == inputs[..n - 1];
    }
  }

  lemma {:induction false} PriceStaysPositive(entry: real, quotes: seq<Quote>, n: nat)
    requires entry > 0.0 && n <= |quotes| && forall q | q in quotes :: PositiveQuote(q)
    ensures PriceAfter(entry, quotes, n) > 0.0
  {
    if n > 0 {
      PriceStaysPositive(entry, quotes, n - 1);
      assert PositiveQuote(quotes[n - 1]);
    }
  }

  lemma PriceAtIsPositive(id: Id, entry: real, later: seq<Input>, k: nat)
    requires entry > 0.0 && QuotedPositive(id, later) && k < |later| && later[k].Tick?
    ensures PriceAt(id, entry, later, k) > 0.0
  {
    var before := QuotesFor(id, later[..k]);
    PriceStaysPositive(entry, before + [later[k].feed(id)], |before| + 1);
  }

  /** With the rules apart and the quotes positive, the tick at `k` calls for what the simple rule says. */
  lemma CallsAreRules(cfg: EngineConfig, id: Id, trade: Trade, openedAt: int, later: seq<Input>, k: nat)
    requires RulesApart(cfg) && trade.priceUsd > 0.0 && QuotedPositive(id, later) && k < |later| && later[k].Tick?
    ensures var call := CallAt(cfg, id, trade, openedAt, later, k);
            RulesAtInput(cfg, id, trade, openedAt, later, k) == if call.Some? then [call.value] else []
  {
    PriceAtIsPositive(id, trade.priceUsd, later, k);
    OneRuleWhenApart(cfg, trade.priceUsd, openedAt, PriceAt(id, trade.priceUsd, later, k), later[k].feed(id).now);
  }

  lemma FirstCallIsLeaving(cfg: EngineConfig, id: Id, trade: Trade, openedAt: int, later: seq<Input>, k: nat)
    requires RulesApart(cfg) && trade.priceUsd > 0.0 && QuotedPositive(id, later) && NoEmergency(later)
    ensures FirstCall(cfg, id, trade, openedAt, later, k) <==> LeavesAt(cfg, id, trade, openedAt, later, k)
  {
    forall j | 0 <= j < |later|
      ensures Ends(cfg, id, trade, openedAt, later, j) <==> CallAt(cfg, id, trade, openedAt, later, j).Some?
    {
      NoStopsBy(id, trade.priceUsd, later, j);
      if later[j].Tick? { CallsAreRules(cfg, id, trade, openedAt, later, j); }
    }
  }

  /** Without emergency stops after its opening, a position emits one signal, at the first tick whose price
      and time call for an exit, with that exit's reason, share and price, and is gone from that tick on;
      before such a tick it is held, open, and has emitted nothing. */
  lemma FirstExit(cfg: EngineConfig, id: Id, inputs: seq<Input>, o: nat)
    requires RulesApart(cfg) && OpensOnce(inputs, id, o)
    requires QuotedPositive(id, inputs[o + 1..]) && NoEmergency(inputs[o + 1..])
    ensures inputs[o].message.value.priceUsd > 0.0
    ensures var trade, openedAt, later := inputs[o].message.value, inputs[o].at, inputs[o + 1..];
            var life := Lived(cfg, id, inputs);
            && (life.held.None? <==> exists k: nat :: FirstCall(cfg, id, trade, openedAt, later, k))
            && (life.held.Some? ==> life.sold == [] && life.held.value.status.Open?)
            && (forall k: nat | FirstCall(cfg, id, trade, openedAt, later, k) ::
                  AreSales(cfg, trade, id, openedAt, life.sold, [CalledSale(cfg, id, trade, openedAt, later, k)]))
  {
    var trade, openedAt, later := inputs[o].message.value, inputs[o].at, inputs[o + 1..];
    LeavesExactlyAt(cfg, id, inputs, o);
    if Lived(cfg, id, inputs).held.Some? { OpenWithoutStops(cfg, id, inputs, o); }
    forall k: nat
      ensures FirstCall(cfg, id, trade, openedAt, later, k) <==> LeavesAt(cfg, id, trade, openedAt, later, k)
    {
      FirstCallIsLeaving(cfg, id, trade, openedAt, later, k);
    }
    forall k: nat | FirstCall(cfg, id, trade, openedAt, later, k)
      ensures AreSales(cfg, trade, id, openedAt, Lived(cfg, id, inputs).sold,
                       [CalledSale(cfg, id, trade, openedAt, later, k)])
    {
      assert SoldByThen(cfg, id, trade, openedAt, later, k, Lived(cfg, id, inputs).sold);
      SoldByCall(cfg, id, trade, openedAt, later, k);
    }
  }

  lemma OpenWithoutStops(cfg: EngineConfig, id: Id, inputs: seq<Input>, o: nat)
    requires OpensOnce(inputs, id, o) && NoEmergency(inputs[o + 1..]) && Lived(cfg, id, inputs).held.Some?
    ensures Lived(cfg, id, inputs).sold == [] && Lived(cfg, id, inputs).held.value.status.Open?
  {
    var trade, openedAt, later := inputs[o].message.value, inputs[o].at, inputs[o + 1..];
    FateIsFulfilled(cfg, id, inputs, o);
    FateByInputs(cfg, id, trade, openedAt, later);
    NoStopsBy(id, trade.priceUsd, later, |later|);
    assert later[..|later|] == later;
  }

  lemma SoldByCall(cfg: EngineConfig, id: Id, trade: Trade, openedAt: int, later: seq<Input>, k: nat)
    requires RulesApart(cfg) && trade.priceUsd > 0.0 && QuotedPositive(id, later) && NoEmergency(later)
    requires FirstCall(cfg, id, trade, openedAt, later, k)
    ensures StopsBy(id, trade.priceUsd, later[..k]) + ExitsAt(cfg, id, trade, openedAt, later, k)
         == [CalledSale(cfg, id, trade, openedAt, later, k)]
  {
    NoStopsBy(id, trade.priceUsd, later, k);
    CallsAreRules(cfg, id, trade, openedAt, later, k);
  }

  /* ----- how much of a position is sold ----- */

  function SoldPct(sold: seq<SellSignal>): real {
    if sold == [] then 0.0 else SoldPct(sold[1..]) + sold[0].sellPct
  }

  lemma {:induction false} SoldPctSplits(sold: seq<SellSignal>, n: nat)
    requires n <= |sold|
    ensures SoldPct(sold) == SoldPct(sold[..n]) + SoldPct(sold[n..])
  {
    if n > 0 {
      SoldPctSplits(sold[1..], n - 1);
      assert sold[1..][..n - 1] == sold[..n][1..] && sold[1..][n - 1..] == sold[n..];
    } else {
      assert sold[..0] == [] && sold[0..] == sold;
    }
  }

  lemma {:induction false} WholeSales(sold: seq<SellSignal>)
    requires forall i | 0 <= i < |sold| :: sold[i].sellPct == 100.0
    ensures SoldPct(sold) == 100.0 * |sold| as real
  {
    if sold != [] { WholeSales(sold[1..]); }
  }

  /** How many sales of everything the inputs up to the tick at `k` call for. */
  function WholeSalesDue(cfg: EngineConfig, id: Id, trade: Trade, openedAt: int, later: seq<Input>, k: nat): nat
    requires k < |later| && later[k].Tick?
  {
    var rules := RulesAtInput(cfg, id, trade, openedAt, later, k);
    |StopsBy(id, trade.priceUsd, later[..k])| + if Tp1 in rules then |rules| - 1 else |rules|
  }

  lemma {:induction false} ExitSales(cfg: EngineConfig, rules: seq<ExitReason>, sales: seq<SellSignal>)
    requires |sales| == |rules| && forall i | 0 <= i < |rules| :: sales[i].sellPct == ExitPct(cfg, rules[i])
    requires forall i | 0 < i < |rules| :: rules[i] != Tp1
    ensures SoldPct(sales) == if Tp1 in rules then 100.0 * (|rules| - 1) as real + cfg.tp1SellPct
                              else 100.0 * |rules| as real
  {
    if rules != [] && rules[0] == Tp1 {
      WholeSales(sales[1..]);
    } else {
      WholeSales(sales);
    }
  }

  /** What whole sales and the take-profit share come to, in percent. */
  function Percent(whole: nat, tp1: bool, tp1SellPct: real): real {
    100.0 * whole as real + if tp1 then tp1SellPct else 0.0
  }

  lemma SoldPctIs(cfg: EngineConfig, id: Id, inputs: seq<Input>, o: nat, k: nat)
    requires OpensOnce(inputs, id, o)
    requires LeavesAt(cfg, id, inputs[o].message.value, inputs[o].at, inputs[o + 1..], k)
    ensures var trade, openedAt, later := inputs[o].message.value, inputs[o].at, inputs[o + 1..];
            var whole := WholeSalesDue(cfg, id, trade, openedAt, later, k);
            var tp1 := Tp1 in RulesAtInput(cfg, id, trade, openedAt, later, k);
            && Lived(cfg, id, inputs).held.None?
            && SoldPct(Lived(cfg, id, inputs).sold) == Percent(whole, tp1, cfg.tp1SellPct)
            && (!tp1 ==> whole > 0)
  {
    var trade, openedAt, later := inputs[o].message.value, inputs[o].at, inputs[o + 1..];
    var life := Lived(cfg, id, inputs);
    assert life.held.None? && SoldByThen(cfg, id, trade, openedAt, later, k, life.sold) by {
      LeavesExactlyAt(cfg, id, inputs, o);
    }
    SoldPctByThen(cfg, id, trade, openedAt, later, k, life.sold);
  }

  lemma SoldPctByThen(cfg: EngineConfig, id: Id, trade: Trade, openedAt: int, later: seq<Input>, k: nat,
                      sold: seq<SellSignal>)
    requires trade.priceUsd > 0.0 && LeavesAt(cfg, id, trade, openedAt, later, k)
    requires SoldByThen(cfg, id, trade, openedAt, later, k, sold)
    ensures var whole := WholeSalesDue(cfg, id, trade, openedAt, later, k);
            var tp1 := Tp1 in RulesAtInput(cfg, id, trade, openedAt, later, k);
            SoldPct(sold) == Percent(whole, tp1, cfg.tp1SellPct) && (!tp1 ==> whole > 0)
  {
    var stops, rules := StopsBy(id, trade.priceUsd, later[..k]), RulesAtInput(cfg, id, trade, openedAt, later, k);
    var exits := ExitsAt(cfg, id, trade, openedAt, later, k);
    StopsAreEmergencies(id, trade.priceUsd, later[..k]);
    SoldPctOfSales(cfg, trade, id, openedAt, sold, stops, exits, rules);
  }

  lemma SoldPctOfSales(cfg: EngineConfig, trade: Trade, id: Id, openedAt: int, sold: seq<SellSignal>,
                       stops: seq<Sale>, exits: seq<Sale>, rules: seq<ExitReason>)
    requires trade.priceUsd > 0.0 && AreSales(cfg, trade, id, openedAt, sold, stops + exits)
    requires forall i | 0 <= i < |stops| :: stops[i].reason == Emergency
    requires |exits| == |rules| && forall i | 0 <= i < |rules| :: exits[i].reason == rules[i]
    requires forall i | 0 < i < |rules| :: rules[i] != Tp1
    ensures SoldPct(sold)
         == Percent(|stops| + if Tp1 in rules then |rules| - 1 else |rules|, Tp1 in rules, cfg.tp1SellPct)
  {
    SharesOfParts(cfg, trade, id, openedAt, sold, stops, exits);
    forall i | 0 <= i < |rules| ensures sold[|stops| + i].sellPct == ExitPct(cfg, rules[i]) {
      assert exits[i].reason == rules[i];
    }
    SoldPctOfParts(cfg, sold, |stops|, rules);
  }

  lemma {:induction false} StopsAreEmergencies(id: Id, entry: real, later: seq<Input>)
    ensures forall i | 0 <= i < |StopsBy(id, entry, later)| ::
              StopsBy(id, entry, later)[i].reason == Emergency && !StopsBy(id, entry, later)[i].armed
  {
    if later != [] { StopsAreEmergencies(id, entry, later[..|later| - 1]); }
  }

  /** The reasons and shares of sales made for stops and then for exits. */
  lemma SharesOfParts(cfg: EngineConfig, trade: Trade, id: Id, openedAt: int, sold: seq<SellSignal>,
                      stops: seq<Sale>, exits: seq<Sale>)
    requires trade.priceUsd > 0.0 && AreSales(cfg, trade, id, openedAt, sold, stops + exits)
    requires forall i | 0 <= i < |stops| :: stops[i].reason == Emergency
    ensures |sold| == |stops| + |exits|
    ensures forall i | 0 <= i < |stops| :: sold[i].reason == Emergency && sold[i].sellPct == 100.0
    ensures forall i | 0 <= i < |exits| ::
              sold[|stops| + i].reason == exits[i].reason && sold[|stops| + i].sellPct == ExitPct(cfg, exits[i].reason)
  {
    forall i | 0 <= i < |stops| ensures sold[i].reason == Emergency && sold[i].sellPct == 100.0 {
      assert IsSale(cfg, trade, id, openedAt, sold[i], (stops + exits)[i]);
    }
    forall i | 0 <= i < |exits|
      ensures sold[|stops| + i].reason == exits[i].reason && sold[|stops| + i].sellPct == ExitPct(cfg, exits[i].reason)
    {
      assert IsSale(cfg, trade, id, openedAt, sold[|stops| + i], (stops + exits)[|stops| + i]);
    }
  }

  lemma {:induction false} SoldPctOfParts(cfg: EngineConfig, sold: seq<SellSignal>, stops: nat, rules: seq<ExitReason>)
    requires |sold| == stops + |rules| && forall i | 0 < i < |rules| :: rules[i] != Tp1
    requires forall i | 0 <= i < stops :: sold[i].sellPct == 100.0
    requires forall i | 0 <= i < |rules| :: sold[stops + i].sellPct == ExitPct(cfg, rules[i])
    ensures SoldPct(sold)
         == Percent(stops + if Tp1 in rules then |rules| - 1 else |rules|, Tp1 in rules, cfg.tp1SellPct)
  {
    SoldPctSplits(sold, stops);
    WholeSales(sold[..stops]);
    ExitSales(cfg, rules, sold[stops..]);
  }

  /** The strategy table promises that what TP1 leaves is trailed; the monitor drops the position instead, and
      sells what an emergency stop has sold once more. What a position that left at `k` was sold, in percent
      and under any settings, and exactly when that is all of it, less, or more. */
  lemma SoldWholeExactlyWhen(cfg: EngineConfig, id: Id, inputs: seq<Input>, o: nat, k: nat)
    requires OpensOnce(inputs, id, o)
    requires LeavesAt(cfg, id, inputs[o].message.value, inputs[o].at, inputs[o + 1..], k)
    ensures var trade, openedAt, later := inputs[o].message.value, inputs[o].at, inputs[o + 1..];
            var whole := WholeSalesDue(cfg, id, trade, openedAt, later, k);
            var tp1 := PriceAt(id, trade.priceUsd, later, k) >= Target(trade.priceUsd, cfg.tp1Pct);
            var sold := SoldPct(Lived(cfg, id, inputs).sold);
            && Lived(cfg, id, inputs).held.None?
            && sold == Percent(whole, tp1, cfg.tp1SellPct)
            && (!tp1 ==> sold >= 100.0 && (sold == 100.0 <==> whole == 1))
            && (tp1 ==> (sold == 100.0 <==> cfg.tp1SellPct == 100.0 * (1 - whole) as real))
            && (tp1 ==> (sold < 100.0 <==> cfg.tp1SellPct < 100.0 * (1 - whole) as real))
            && (tp1 && 0.0 < cfg.tp1SellPct <= 100.0 ==>
                  && (sold < 100.0 <==> whole == 0 && cfg.tp1SellPct < 100.0)
                  && (sold > 100.0 <==> whole > 0))
  {
    SoldPctIs(cfg, id, inputs, o, k);
  }

  /* ----- the documented strategy, as it runs ----- */

  const BOUGHT := Trade(Id("token"), "", "solana", "buy", 1.0, 1.0, "", "confirmed", None, None, None)

  const POSITION := Id("position")

  const OPENED := TradeReceived(Some(BOUGHT), POSITION, 0)
  const STOPPED := CommandReceived(EmergencyStop(""), 0)
  const DOUBLED := Tick(_ => Quote(Some(2.0), 0))

  predicate Documented(cfg: EngineConfig) {
    && cfg.tp1Pct == 100.0 && cfg.trailingStopPct == 25.0 && cfg.tp1SellPct == 50.0
    && cfg.timeExitMinutes == 120 && cfg.timeExitMinProfitPct == 20.0
  }

  /** Once it doubles a position is gone, half of it sold on top of one whole sale per emergency stop. */
  lemma SoldOnDoubling(cfg: EngineConfig, inputs: seq<Input>, stops: seq<Input>)
    requires Documented(cfg) && forall i | 0 <= i < |stops| :: stops[i] == STOPPED
    requires OpensOnce(inputs, POSITION, 0) && inputs[0] == OPENED && inputs[1..] == stops + [DOUBLED]
    ensures var life := Lived(cfg, POSITION, inputs);
            life.held.None? && SoldPct(life.sold) == Percent(|stops|, true, cfg.tp1SellPct)
  {
    DoublingEnds(cfg, stops);
    SoldWithTp1(cfg, POSITION, inputs, BOUGHT, 0, stops + [DOUBLED], |stops|);
  }

  lemma SoldWithTp1(cfg: EngineConfig, id: Id, inputs: seq<Input>, trade: Trade, at: int, later: seq<Input>, k: nat)
    requires OpensOnce(inputs, id, 0) && inputs[0].message.value == trade && inputs[0].at == at
    requires inputs[1..] == later && LeavesAt(cfg, id, trade, at, later, k)
    requires Tp1 in RulesAtInput(cfg, id, trade, at, later, k)
    ensures var life := Lived(cfg, id, inputs);
            && life.held.None?
            && SoldPct(life.sold) == Percent(WholeSalesDue(cfg, id, trade, at, later, k), true, cfg.tp1SellPct)
  {
    SoldPctIs(cfg, id, inputs, 0, k);
  }

  lemma OpensFirst(stops: seq<Input>)
    requires forall i | 0 <= i < |stops| :: stops[i] == STOPPED
    ensures var inputs := [OPENED] + stops + [DOUBLED];
            OpensOnce(inputs, POSITION, 0) && inputs[0] == OPENED && inputs[1..] == stops + [DOUBLED]
  {
    var inputs := [OPENED] + stops + [DOUBLED];
    forall i | 0 < i < |inputs| ensures inputs[i] == STOPPED || inputs[i] == DOUBLED {
      if i <= |stops| { assert inputs[i] == stops[i - 1]; }
    }
  }

  lemma DoublingEnds(cfg: EngineConfig, stops: seq<Input>)
    requires Documented(cfg) && forall i | 0 <= i < |stops| :: stops[i] == STOPPED
    ensures var later := stops + [DOUBLED];
            && LeavesAt(cfg, POSITION, BOUGHT, 0, later, |stops|)
            && WholeSalesDue(cfg, POSITION, BOUGHT, 0, later, |stops|) == |stops|
            && Tp1 in RulesAtInput(cfg, POSITION, BOUGHT, 0, later, |stops|)
  {
    var later := stops + [DOUBLED];
    assert later[..|stops|] == stops;
    AllStops(POSITION, stops);
    assert RulesAtInput(cfg, POSITION, BOUGHT, 0, later, |stops|) == [Tp1];
  }

  lemma {:induction false} AllStops(id: Id, stops: seq<Input>)
    requires forall i | 0 <= i < |stops| :: stops[i] == STOPPED
    ensures |StopsBy(id, 1.0, stops)| == |stops| && QuotesFor(id, stops) == []
  {
    if stops != [] { AllStops(id, stops[..|stops| - 1]); }
  }

  /** Take-profit sells half, and the position is gone with its other half. */
  lemma HalfIsNeverSold(cfg: EngineConfig)
    requires Documented(cfg)
    ensures var life := Lived(cfg, POSITION, [OPENED, DOUBLED]);
            life.held.None? && SoldPct(life.sold) == 50.0
  {
    OpensFirst([]);
    assert [OPENED] + [] + [DOUBLED] == [OPENED, DOUBLED];
    SoldOnDoubling(cfg, [OPENED, DOUBLED], []);
  }

  /** What an emergency stop has sold whole, the next tick sells half of once more. */
  lemma HalfIsSoldTwice(cfg: EngineConfig)
    requires Documented(cfg)
    ensures var life := Lived(cfg, POSITION, [OPENED, STOPPED, DOUBLED]);
            life.held.None? && SoldPct(life.sold) == 150.0
  {
    OpensFirst([STOPPED]);
    assert [OPENED] + [STOPPED] + [DOUBLED] == [OPENED, STOPPED, DOUBLED];
    SoldOnDoubling(cfg, [OPENED, STOPPED, DOUBLED], [STOPPED]);
  }
}
