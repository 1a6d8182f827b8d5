/** What the position monitor guarantees over every run. */
module MonitorTheorems {
  import opened Options
  import opened EngineTypes
  import opened PositionRules
  import opened TrailingStop
  import opened MonitorRuns
  import opened MonitorExits

  /* ----- emergencies ----- */

  /** How many emergency stops were processed while `id` was in the map. */
  function EmergenciesWhileHeld(cfg: EngineConfig, id: Id, inputs: seq<Input>): nat
    requires AllPositive(inputs)
  {
    if inputs == [] then 0
    else
      var before := inputs[..|inputs| - 1];
      EmergenciesWhileHeld(cfg, id, before) +
      if Emergencies(inputs[|inputs| - 1]) && Lived(cfg, id, before).held.Some? then 1 else 0
  }

  lemma {:induction false} NoneBeforeOpening(cfg: EngineConfig, id: Id, inputs: seq<Input>)
    requires AllPositive(inputs) && forall i | 0 <= i < |inputs| :: !Opens(inputs[i], id)
    ensures EmergenciesWhileHeld(cfg, id, inputs) == 0
  {
    if inputs != [] {
      NoneBeforeOpening(cfg, id, inputs[..|inputs| - 1]);
      UnbornBefore(cfg, id, inputs[..|inputs| - 1]);
    }
  }

  lemma {:induction false} FateCountsEmergencies(cfg: EngineConfig, id: Id, inputs: seq<Input>, o: nat)
    requires OpensOnce(inputs, id, o)
    ensures EmergenciesWhileHeld(cfg, id, inputs)
         == |FateOf(cfg, id, inputs[o].message.value, inputs[o].at, inputs[o + 1..]).stops|
    decreases |inputs|
  {
    var before := inputs[..|inputs| - 1];
    if o == |inputs| - 1 {
      NoneBeforeOpening(cfg, id, before);
      assert inputs[o + 1..] == [];
    } else {
      PrefixOpensOnce(inputs, id, o);
      FateCountsEmergencies(cfg, id, before, o);
      CountOneMore(cfg, id, inputs, o);
    }
  }

  /** The last input counts for the fate exactly when it counts for the map. */
  lemma CountOneMore(cfg: EngineConfig, id: Id, inputs: seq<Input>, o: nat)
    requires OpensOnce(inputs, id, o) && o < |inputs| - 1
    ensures var trade, before, last := inputs[o].message.value, inputs[..|inputs| - 1], inputs[|inputs| - 1];
            var fate := FateOf(cfg, id, trade, inputs[o].at, before[o + 1..]);
            && |FateOf(cfg, id, trade, inputs[o].at, inputs[o + 1..]).stops|
               == |fate.stops| + (if Emergencies(last) && fate.Holding? then 1 else 0)
            && (fate.Holding? <==> Lived(cfg, id, before).held.Some?)
  {
    var before := inputs[..|inputs| - 1];
    PrefixOpensOnce(inputs, id, o);
    HeldWhileHolding(cfg, id, before, o);
    FateOneMore(cfg, id, inputs[o].message.value, inputs[o].at, before[o + 1..], inputs[|inputs| - 1]);
    assert inputs[o + 1..] == before[o + 1..] + [inputs[|inputs| - 1]];
  }

  lemma HeldWhileHolding(cfg: EngineConfig, id: Id, inputs: seq<Input>, o: nat)
    requires OpensOnce(inputs, id, o)
    ensures FateOf(cfg, id, inputs[o].message.value, inputs[o].at, inputs[o + 1..]).Holding?
       <==> Lived(cfg, id, inputs).held.Some?
  {
    FateIsFulfilled(cfg, id, inputs, o);
  }

  /** Under any settings: exactly one signal per emergency stop met in the map, and on leaving at most one for
      each exit rule; nothing leaves the map without a signal. With the rules apart and the quotes positive
      there is at most one signal beyond the emergency stops, a take-profit or a time exit. */
  lemma SignalBound(cfg: EngineConfig, id: Id, inputs: seq<Input>, o: nat)
    requires OpensOnce(inputs, id, o)
    ensures var life, emergencies := Lived(cfg, id, inputs), EmergenciesWhileHeld(cfg, id, inputs);
            && emergencies <= |life.sold| <= emergencies + 3
            && (life.held.Some? ==> |life.sold| == emergencies)
            && (life.held.None? ==> |life.sold| >= 1)
            && (forall k | 0 <= k < |life.sold| :: k < emergencies <==> life.sold[k].reason == Emergency)
            && (forall k | 0 <= k < emergencies :: life.sold[k].sellPct == 100.0)
            && (RulesApart(cfg) && QuotedPositive(id, inputs[o + 1..]) ==>
                  && |life.sold| <= emergencies + 1
                  && (|life.sold| > emergencies ==> life.sold[emergencies].reason in {Tp1, TimeExit}))
  {
    var trade, later := inputs[o].message.value, inputs[o + 1..];
    var k, rules := HowSold(cfg, id, inputs, o);
    assert Positive(inputs[o]);
    if rules != [] && RulesApart(cfg) && QuotedPositive(id, later) {
      CallsAreRules(cfg, id, trade, inputs[o].at, later, k);
    }
  }

  /** The sales of a life by their reasons: the emergency stops it met, and the exits of the tick it left at. */
  lemma HowSold(cfg: EngineConfig, id: Id, inputs: seq<Input>, o: nat) returns (k: nat, rules: seq<ExitReason>)
    requires OpensOnce(inputs, id, o)
    ensures var trade, at, later := inputs[o].message.value, inputs[o].at, inputs[o + 1..];
            rules != [] ==>
              && LeavesAt(cfg, id, trade, at, later, k)
              && rules == RulesAtInput(cfg, id, trade, at, later, k)
    ensures |rules| <= 3 && Emergency !in rules
    ensures SoldFor(Lived(cfg, id, inputs), EmergenciesWhileHeld(cfg, id, inputs), rules)
  {
    LeavesExactlyAt(cfg, id, inputs, o);
    if Lived(cfg, id, inputs).held.None? {
      k :| LeavesAt(cfg, id, inputs[o].message.value, inputs[o].at, inputs[o + 1..], k);
      rules := SoldWhenLeft(cfg, id, inputs, o, k);
    } else {
      k, rules := 0, [];
      StillHeld(cfg, id, inputs, o);
    }
  }

  lemma SoldWhenLeft(cfg: EngineConfig, id: Id, inputs: seq<Input>, o: nat, k: nat) returns (rules: seq<ExitReason>)
    requires OpensOnce(inputs, id, o)
    requires LeavesAt(cfg, id, inputs[o].message.value, inputs[o].at, inputs[o + 1..], k)
    ensures rules == RulesAtInput(cfg, id, inputs[o].message.value, inputs[o].at, inputs[o + 1..], k)
    ensures |rules| <= 3 && Emergency !in rules
    ensures SoldFor(Lived(cfg, id, inputs), EmergenciesWhileHeld(cfg, id, inputs), rules)
  {
    var trade, at, later := inputs[o].message.value, inputs[o].at, inputs[o + 1..];
    var life := Lived(cfg, id, inputs);
    rules := RulesAtInput(cfg, id, trade, at, later, k);
    assert life.held.None? && SoldByThen(cfg, id, trade, at, later, k, life.sold) by {
      LeavesExactlyAt(cfg, id, inputs, o);
    }
    EmergenciesBeforeLeaving(cfg, id, inputs, o, k);
    SoldForWhenLeft(cfg, id, trade, at, later, k, life);
  }

  lemma EmergenciesBeforeLeaving(cfg: EngineConfig, id: Id, inputs: seq<Input>, o: nat, k: nat)
    requires OpensOnce(inputs, id, o)
    requires LeavesAt(cfg, id, inputs[o].message.value, inputs[o].at, inputs[o + 1..], k)
    ensures EmergenciesWhileHeld(cfg, id, inputs)
         == |StopsBy(id, inputs[o].message.value.priceUsd, inputs[o + 1..][..k])|
  {
    FateCountsEmergencies(cfg, id, inputs, o);
    FateByInputs(cfg, id, inputs[o].message.value, inputs[o].at, inputs[o + 1..]);
  }

  ghost predicate SoldFor(life: Life, emergencies: nat, rules: seq<ExitReason>) {
    && |life.sold| == emergencies + |rules|
    && (if life.held.Some? then rules == [] else emergencies > 0 || rules != [])
    && (forall i | 0 <= i < emergencies :: life.sold[i].reason == Emergency && life.sold[i].sellPct == 100.0)
    && (forall i | emergencies <= i < |life.sold| :: life.sold[i].reason == rules[i - emergencies])
  }

  lemma SoldForWhenLeft(cfg: EngineConfig, id: Id, trade: Trade, at: int, later: seq<Input>, k: nat, life: Life)
    requires trade.priceUsd > 0.0 && LeavesAt(cfg, id, trade, at, later, k) && life.held.None?
    requires SoldByThen(cfg, id, trade, at, later, k, life.sold)
    ensures SoldFor(life, |StopsBy(id, trade.priceUsd, later[..k])|, RulesAtInput(cfg, id, trade, at, later, k))
  {
    var stops, rules := StopsBy(id, trade.priceUsd, later[..k]), RulesAtInput(cfg, id, trade, at, later, k);
    assert stops != [] || rules != [];
    StopsAreEmergencies(id, trade.priceUsd, later[..k]);
    SoldForSales(cfg, trade, id, at, life, stops, ExitsAt(cfg, id, trade, at, later, k), rules);
  }

  lemma SoldForSales(cfg: EngineConfig, trade: Trade, id: Id, at: int, life: Life,
                     stops: seq<Sale>, exits: seq<Sale>, rules: seq<ExitReason>)
    requires trade.priceUsd > 0.0 && AreSales(cfg, trade, id, at, life.sold, stops + exits)
    requires life.held.None? && (stops != [] || rules != [])
    requires forall i | 0 <= i < |stops| :: stops[i].reason == Emergency
    requires |exits| == |rules| && forall i | 0 <= i < |rules| :: exits[i].reason == rules[i]
    ensures SoldFor(life, |stops|, rules)
  {
    SharesOfParts(cfg, trade, id, at, life.sold, stops, exits);
    SoldForReasons(life, |stops|, rules);
  }

  lemma SoldForReasons(life: Life, stops: nat, rules: seq<ExitReason>)
    requires life.held.None? && (stops > 0 || rules != []) && |life.sold| == stops + |rules|
    requires forall i | 0 <= i < stops :: life.sold[i].reason == Emergency && life.sold[i].sellPct == 100.0
    requires forall i | 0 <= i < |rules| :: life.sold[stops + i].reason == rules[i]
    ensures SoldFor(life, stops, rules)
  {
    ShiftReasons(life.sold, stops, rules);
  }

  lemma ShiftReasons(sold: seq<SellSignal>, stops: nat, rules: seq<ExitReason>)
    requires |sold| == stops + |rules| && forall i | 0 <= i < |rules| :: sold[stops + i].reason == rules[i]
    ensures forall i | stops <= i < |sold| :: sold[i].reason == rules[i - stops]
  {
    forall i | stops <= i < |sold| ensures sold[i].reason == rules[i - stops] {
      assert sold[stops + (i - stops)].reason == rules[i - stops];
    }
  }

  lemma StillHeld(cfg: EngineConfig, id: Id, inputs: seq<Input>, o: nat)
    requires OpensOnce(inputs, id, o) && Lived(cfg, id, inputs).held.Some?
    ensures SoldFor(Lived(cfg, id, inputs), EmergenciesWhileHeld(cfg, id, inputs), [])
  {
    var trade, at, later := inputs[o].message.value, inputs[o].at, inputs[o + 1..];
    var stops := StopsBy(id, trade.priceUsd, later);
    assert AreSales(cfg, trade, id, at, Lived(cfg, id, inputs).sold, stops) by {
      LeavesExactlyAt(cfg, id, inputs, o);
    }
    HoldingCounts(cfg, id, inputs, o);
    StopsAreEmergencies(id, trade.priceUsd, later);
    assert stops + [] == stops;
    SharesOfParts(cfg, trade, id, at, Lived(cfg, id, inputs).sold, stops, []);
  }

  lemma HoldingCounts(cfg: EngineConfig, id: Id, inputs: seq<Input>, o: nat)
    requires OpensOnce(inputs, id, o) && Lived(cfg, id, inputs).held.Some?
    ensures EmergenciesWhileHeld(cfg, id, inputs) == |StopsBy(id, inputs[o].message.value.priceUsd, inputs[o + 1..])|
  {
    HeldWhileHolding(cfg, id, inputs, o);
    FateCountsEmergencies(cfg, id, inputs, o);
    FateByInputs(cfg, id, inputs[o].message.value, inputs[o].at, inputs[o + 1..]);
  }

  /** Whatever the settings: a position found closed at a tick is gone after it. */
  lemma ClosedIsGoneAfterTick(cfg: EngineConfig, id: Id, life: Life, input: Input)
    requires life.held.Some? && life.held.value.entryPrice > 0.0 && life.held.value.status.Closed? && input.Tick?
    ensures LifeStep(cfg, id, life, input).held.None?
    ensures life.sold <= LifeStep(cfg, id, life, input).sold
  {
  }

  /* ----- what is held ----- */

  /** With the stop under the target and the quotes positive, nothing the monitor publishes is a trailing-stop
      sale. */
  lemma NoTrailingSale(cfg: EngineConfig, id: Id, inputs: seq<Input>, o: nat)
    requires StopUnderTarget(cfg) && OpensOnce(inputs, id, o) && QuotedPositive(id, inputs[o + 1..])
    ensures forall s | s in Lived(cfg, id, inputs).sold :: s.reason != TrailingStop
  {
    var trade, later := inputs[o].message.value, inputs[o + 1..];
    var k, rules := HowSold(cfg, id, inputs, o);
    assert Positive(inputs[o]);
    if rules != [] {
      var price := PriceAt(id, trade.priceUsd, later, k);
      PriceAtIsPositive(id, trade.priceUsd, later, k);
      StopMeets(cfg, trade.priceUsd, price);
      GainThreshold(trade.priceUsd, price, cfg.tp1Pct);
      assert TrailingStop !in rules;
    }
  }

  /** What a held position shows: no take-profit taken, its peak the highest price seen, below any target above
      the entry, its size plus its profit the value of what was bought at the price in force. */
  ghost predicate InOrder(cfg: EngineConfig, trade: Trade, quotes: seq<Quote>, p: Snapshot)
    requires trade.priceUsd > 0.0
  {
    && !p.tp1Hit && !p.trailingActive && p.stopLossPrice == 0.0
    && p.currentPrice == PriceAfter(trade.priceUsd, quotes, |quotes|)
    && p.peakPrice == PeakAfter(trade.priceUsd, quotes, |quotes|)
    && (cfg.tp1Pct > 0.0 ==> p.peakPrice < Target(trade.priceUsd, cfg.tp1Pct))
    && (cfg.tp1Pct <= 0.0 ==> p.peakPrice == trade.priceUsd)
    && p.sizeUsd + p.pnlUsd == ValueAt(trade.amountUsd, trade.priceUsd, p.currentPrice)
  }

  lemma HoldingIsInOrder(cfg: EngineConfig, trade: Trade, id: Id, at: int, quotes: seq<Quote>, fate: Fate, life: Life)
    requires trade.priceUsd > 0.0 && Fulfils(cfg, OpenPosition(trade, id, at), quotes, fate, life)
    ensures life.held.Some? ==> InOrder(cfg, trade, quotes, life.held.value)
    ensures life.held.Some? ==>
              && fate.Holding? && BoughtBy(life.held.value, trade, id, at)
              && (life.held.value.status.Open? <==> fate.stops == [])
              && life.held.value.closedAt == (if fate.stops == [] then None else Some(fate.stops[|fate.stops| - 1].at))
  {
    if life.held.Some? {
      MarkedValue(life.held.value);
      GainOfTarget(trade.priceUsd, cfg.tp1Pct);
    }
  }

  /** When the last emergency stop arrived, if any did. */
  function LastStop(id: Id, entry: real, later: seq<Input>): Option<int> {
    var stops := StopsBy(id, entry, later);
    if stops == [] then None else Some(stops[|stops| - 1].at)
  }

  /** At any moment of any run, under any settings and any quotes, every position in the map is what its trade
      bought, in order, and open unless an emergency stop has closed it, which the next tick ends. */
  lemma HeldPositions(cfg: EngineConfig, id: Id, inputs: seq<Input>, o: nat)
    requires OpensOnce(inputs, id, o)
    ensures Positive(inputs[o])
    ensures var held := Lived(cfg, id, inputs).held;
            held.Some? ==>
              && BoughtBy(held.value, inputs[o].message.value, id, inputs[o].at)
              && InOrder(cfg, inputs[o].message.value, QuotesFor(id, inputs[o + 1..]), held.value)
              && (held.value.status.Open? <==> EmergenciesWhileHeld(cfg, id, inputs) == 0)
              && held.value.closedAt == LastStop(id, inputs[o].message.value.priceUsd, inputs[o + 1..])
              && (inputs[|inputs| - 1].Tick? ==> held.value.status.Open?)
  {
    var trade, at, later := inputs[o].message.value, inputs[o].at, inputs[o + 1..];
    assert Positive(inputs[o]);
    FateIsFulfilled(cfg, id, inputs, o);
    FateCountsEmergencies(cfg, id, inputs, o);
    LivesAreIndependent(cfg, id, inputs);
    var fate := FateOf(cfg, id, trade, at, later);
    HoldingIsInOrder(cfg, trade, id, at, QuotesFor(id, later), fate, Lived(cfg, id, inputs));
    FateByInputs(cfg, id, trade, at, later);
  }

  /* ----- conservation ----- */

  ghost predicate FreshIds(inputs: seq<Input>) {
    forall i, j | 0 <= i < |inputs| && 0 <= j < |inputs| && i != j ::
      Buys(inputs[i]) ==> !Opens(inputs[j], inputs[i].newId)
  }

  /** Only confirmed buys ever put an id in the state. */
  lemma {:induction false} OnlyBuysOpen(cfg: EngineConfig, id: Id, inputs: seq<Input>)
    requires AllPositive(inputs)
    ensures id in Run(cfg, inputs) <==>
              exists i | 0 <= i < |inputs| ::
                && inputs[i].TradeReceived? && inputs[i].newId == id && inputs[i].message.Some?
                && inputs[i].message.value.side == "buy" && inputs[i].message.value.status == "confirmed"
  {
    if inputs != [] {
      var n := |inputs| - 1;
      OnlyBuysOpen(cfg, id, inputs[..n]);
      if Opens(inputs[n], id) {
      } else if i :| 0 <= i < |inputs| && Opens(inputs[i], id) {
        assert Opens(inputs[..n][i], id);
      }
    }
  }

  /** Under any settings and any quotes each confirmed buy is on the books once: in the map with its own size
      and entry price, or, once gone, in every signal published for it. */
  lemma Ledger(cfg: EngineConfig, inputs: seq<Input>, o: nat)
    requires AllPositive(inputs) && FreshIds(inputs)
    requires o < |inputs| && Buys(inputs[o])
    ensures var trade, id, at := inputs[o].message.value, inputs[o].newId, inputs[o].at;
            var life := Lived(cfg, id, inputs);
            && (life.held.Some? ==> BoughtBy(life.held.value, trade, id, at))
            && (life.held.None? ==> life.sold != [])
            && (forall s | s in life.sold ::
                  && BoughtBy(s.position, trade, id, at)
                  && s.position.status.Closed? && Priced(s.position)
                  && s.targetPrice == Some(s.position.currentPrice))
  {
    var id := inputs[o].newId;
    assert OpensOnce(inputs, id, o);
    FateIsFulfilled(cfg, id, inputs, o);
    var life := Lived(cfg, id, inputs);
    forall s | s in life.sold
      ensures Priced(s.position) && s.position.status.Closed?
      ensures s == SignalFor(s.position, s.reason, s.sellPct)
      ensures SameTrade(s.position, OpenPosition(inputs[o].message.value, id, inputs[o].at))
    {
      var k :| 0 <= k < |life.sold| && life.sold[k] == s;
    }
  }

  function Sum(s: seq<real>): real {
    if s == [] then 0.0 else s[0] + Sum(s[1..])
  }

  lemma {:induction false} SumOfParts(whole: seq<real>, a: seq<real>, b: seq<real>)
    requires |whole| == |a| == |b|
    requires forall k | 0 <= k < |whole| :: whole[k] == a[k] + b[k]
    ensures Sum(whole) == Sum(a) + Sum(b)
  {
    if whole != [] { SumOfParts(whole[1..], a[1..], b[1..]); }
  }

  /** Per input: the amount it bought; the size it still has in the map; the size its signals report sold. */
  function Bought(inputs: seq<Input>): seq<real> {
    seq(|inputs|, k requires 0 <= k < |inputs| => if Buys(inputs[k]) then inputs[k].message.value.amountUsd else 0.0)
  }

  function HeldSizes(m: Monitor, inputs: seq<Input>): seq<real> {
    seq(|inputs|, k requires 0 <= k < |inputs| =>
      if Buys(inputs[k]) && LifeOf(m, inputs[k].newId).held.Some?
      then LifeOf(m, inputs[k].newId).held.value.sizeUsd else 0.0)
  }

  function LeftSizes(m: Monitor, inputs: seq<Input>): seq<real> {
    seq(|inputs|, k requires 0 <= k < |inputs| =>
      if Buys(inputs[k]) && LifeOf(m, inputs[k].newId).held.None? && LifeOf(m, inputs[k].newId).sold != []
      then LifeOf(m, inputs[k].newId).sold[0].position.sizeUsd else 0.0)
  }

  /** Everything bought is either still in the map or was reported when it left. */
  lemma Conservation(cfg: EngineConfig, inputs: seq<Input>)
    requires AllPositive(inputs) && FreshIds(inputs)
    ensures Sum(Bought(inputs)) == Sum(HeldSizes(Run(cfg, inputs), inputs)) + Sum(LeftSizes(Run(cfg, inputs), inputs))
  {
    var m := Run(cfg, inputs);
    forall k | 0 <= k < |inputs|
      ensures Bought(inputs)[k] == HeldSizes(m, inputs)[k] + LeftSizes(m, inputs)[k]
    {
      if Buys(inputs[k]) {
        Ledger(cfg, inputs, k);
        var life := Lived(cfg, inputs[k].newId, inputs);
        if life.sold != [] { assert life.sold[0] in life.sold; }
      }
    }
    SumOfParts(Bought(inputs), HeldSizes(m, inputs), LeftSizes(m, inputs));
  }

  /* ----- the shipped price stub ----- */

  /** The stub quotes exactly the positions that have a token address, each at a gain over its entry of as many
      percent as the last digit of the clock's seconds. */
  lemma StubQuotes(p: Snapshot, epochSeconds: nat)
    requires p.entryPrice > 0.0
    ensures FetchPrice(p, epochSeconds).Some? <==> p.tokenAddress != ""
    ensures p.tokenAddress != "" ==>
              PnlPct(p.entryPrice, FetchPrice(p, epochSeconds).value) == (epochSeconds % 10) as real
  {
    GainOfTarget(p.entryPrice, (epochSeconds % 10) as real);
  }

  /** Every quote for the position held under `id` is an answer of `fetch_price` about it. */
  ghost predicate StubFed(cfg: EngineConfig, id: Id, inputs: seq<Input>)
    requires AllPositive(inputs)
  {
    forall i | 0 <= i < |inputs| && inputs[i].Tick? ::
      var held := Lived(cfg, id, inputs[..i]).held;
      held.Some? ==> exists epoch: nat :: inputs[i].feed(id).price == FetchPrice(held.value, epoch)
  }

  /** Positions opened from trades carry no token address, so the stub never quotes them: under any settings
      the price stays at the entry, take-profit happens only at a target of zero or less, a trailing sale only
      there with a stop of zero or less, and the time exit only with a positive profit floor. */
  lemma {:induction false} StubNeverMoves(cfg: EngineConfig, id: Id, inputs: seq<Input>, o: nat)
    requires OpensOnce(inputs, id, o) && StubFed(cfg, id, inputs)
    ensures Unmoved(cfg, inputs[o].message.value.priceUsd, Lived(cfg, id, inputs))
    decreases |inputs|
  {
    var n := |inputs| - 1;
    var before, last := inputs[..n], inputs[n];
    LivesAreIndependent(cfg, id, inputs);
    if o == n {
      UnbornBefore(cfg, id, before);
    } else {
      PrefixOpensOnce(inputs, id, o);
      StubFedBefore(cfg, id, inputs);
      StubNeverMoves(cfg, id, before, o);
      StubOneMore(cfg, id, before, o, last);
    }
  }

  lemma StubOneMore(cfg: EngineConfig, id: Id, before: seq<Input>, o: nat, last: Input)
    requires OpensOnce(before, id, o) && !Opens(last, id)
    requires Unmoved(cfg, before[o].message.value.priceUsd, Lived(cfg, id, before))
    requires last.Tick? ==>
               var held := Lived(cfg, id, before).held;
               held.Some? ==> exists epoch: nat :: last.feed(id).price == FetchPrice(held.value, epoch)
    ensures Unmoved(cfg, before[o].message.value.priceUsd, LifeStep(cfg, id, Lived(cfg, id, before), last))
  {
    HeldIsUntriggered(cfg, id, before, o);
    if Lived(cfg, id, before).held.Some? {
      StubStep(cfg, id, before[o].message.value.priceUsd, Lived(cfg, id, before), last);
    }
  }

  lemma StubFedBefore(cfg: EngineConfig, id: Id, inputs: seq<Input>)
    requires AllPositive(inputs) && StubFed(cfg, id, inputs) && inputs != []
    ensures StubFed(cfg, id, inputs[..|inputs| - 1])
    ensures inputs[|inputs| - 1].Tick? ==>
              var held := Lived(cfg, id, inputs[..|inputs| - 1]).held;
              held.Some? ==> exists epoch: nat :: inputs[|inputs| - 1].feed(id).price == FetchPrice(held.value, epoch)
  {
    var before := inputs[..|inputs| - 1];
    forall i | 0 <= i < |before|
      ensures before[..i] == inputs[..i] && before[i] == inputs[i]
    {
    }
  }

  lemma HeldIsUntriggered(cfg: EngineConfig, id: Id, inputs: seq<Input>, o: nat)
    requires OpensOnce(inputs, id, o)
    ensures var held := Lived(cfg, id, inputs).held;
            held.Some? ==>
              && Untriggered(cfg, held.value)
              && SameTrade(held.value, OpenPosition(inputs[o].message.value, id, inputs[o].at))
  {
    FateIsFulfilled(cfg, id, inputs, o);
  }

  /** What can sell a position whose price never leaves the entry. */
  predicate UnmovedReason(cfg: EngineConfig, reason: ExitReason) {
    match reason
    case Emergency => true
    case TimeExit => cfg.timeExitMinProfitPct > 0.0
    case Tp1 => cfg.tp1Pct <= 0.0
    case TrailingStop => cfg.tp1Pct <= 0.0 && cfg.trailingStopPct <= 0.0
  }

  predicate Unmoved(cfg: EngineConfig, entry: real, life: Life) {
    && (life.held.Some? ==> life.held.value.currentPrice == entry)
    && (forall s | s in life.sold :: UnmovedReason(cfg, s.reason))
  }

  lemma StubStep(cfg: EngineConfig, id: Id, entry: real, life: Life, input: Input)
    requires !Opens(input, id) && Unmoved(cfg, entry, life)
    requires life.held.Some? && Untriggered(cfg, life.held.value) && life.held.value.entryPrice == entry
    requires life.held.value.tokenAddress == ""
    requires input.Tick? ==> exists epoch: nat :: input.feed(id).price == FetchPrice(life.held.value, epoch)
    ensures Unmoved(cfg, entry, LifeStep(cfg, id, life, input))
  {
    if input.Tick? { StubTick(cfg, life.held.value, input.feed(id)); }
  }

  lemma StubTick(cfg: EngineConfig, p: Snapshot, q: Quote)
    requires Untriggered(cfg, p)
    requires p.currentPrice == p.entryPrice && q.price.None?
    ensures var o := TickPosition(cfg, p, q);
            o.position.currentPrice == p.entryPrice && forall s | s in o.signals :: UnmovedReason(cfg, s.reason)
  {
    TickFollowsRules(cfg, p, q);
    RulesAtEntry(cfg, p.entryPrice, p.openedAt, q.now);
    var signals := TickPosition(cfg, p, q).signals;
    var rules := ExitRules(cfg, p.entryPrice, p.openedAt, p.entryPrice, q.now);
    var due := SalesFor(rules, p.entryPrice, p.peakPrice, q.now);
    forall s | s in signals ensures UnmovedReason(cfg, s.reason) {
      var k :| 0 <= k < |signals| && signals[k] == s;
      assert SaleAt(cfg, p, signals[k], due[k]);
    }
  }

  lemma RulesAtEntry(cfg: EngineConfig, entry: real, openedAt: int, now: int)
    requires entry > 0.0
    ensures forall r | r in ExitRules(cfg, entry, openedAt, entry, now) :: UnmovedReason(cfg, r)
  {
    GainOfTarget(entry, cfg.tp1Pct);
    GainOfTarget(entry, cfg.timeExitMinProfitPct);
    StopStaysBelow(cfg, entry);
  }
}
