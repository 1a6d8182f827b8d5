/** The executors: sizing in chain units, the trades they record, and what reaches the position monitor. */
module Executor {
  import opened Options
  import opened EngineTypes
  import opened PositionRules
  import opened MonitorRuns
  import opened MonitorExits
  import opened MonitorTheorems
  import TokenFilter

  /* ----- sizing ----- */

  /** The conversion of one chain: dollars per coin, units per coin, and the first value its integer cannot hold. */
  datatype Chain = Chain(usdPerCoin: real, unitsPerCoin: real, bound: nat)

  const SOLANA := Chain(150.0, 1_000_000_000.0, 0x1_0000_0000_0000_0000)
  const BSC := Chain(600.0, 1_000_000_000_000_000_000.0, 0x1_0000_0000_0000_0000_0000_0000_0000_0000)

  predicate ValidChain(chain: Chain) {
    chain.usdPerCoin > 0.0 && chain.unitsPerCoin > 0.0 && chain.bound > 0
  }

  /** The cast of a float to an unsigned integer: toward zero, saturating at both ends. */
  function Truncate(x: real, bound: nat): (n: nat)
    requires bound > 0
    ensures n < bound
    ensures 0.0 <= x < bound as real ==> n as real <= x < n as real + 1.0
    ensures x <= 0.0 ==> n == 0
    ensures x >= bound as real ==> n == bound - 1
  {
    if x < 0.0 then 0
    else if x >= bound as real then bound - 1
    else x.Floor
  }

  function BuyUnits(chain: Chain, amountUsd: real): nat
    requires ValidChain(chain)
  {
    Truncate(amountUsd / chain.usdPerCoin * chain.unitsPerCoin, chain.bound)
  }

  function UnitsToSell(chain: Chain, sizeUsd: real, sellPct: real): real
    requires ValidChain(chain)
  {
    sizeUsd * sellPct / 100.0 / chain.usdPerCoin * chain.unitsPerCoin
  }

  function SellUnits(chain: Chain, sizeUsd: real, sellPct: real): nat
    requires ValidChain(chain)
  {
    Truncate(UnitsToSell(chain, sizeUsd, sellPct), chain.bound)
  }

  /** Units for each of several sells of one position. */
  function SplitUnits(chain: Chain, sizeUsd: real, pcts: seq<real>): nat
    requires ValidChain(chain)
  {
    if pcts == [] then 0 else SellUnits(chain, sizeUsd, pcts[0]) + SplitUnits(chain, sizeUsd, pcts[1..])
  }

  predicate NonNegative(pcts: seq<real>) {
    forall i | 0 <= i < |pcts| :: pcts[i] >= 0.0
  }

  /** The untruncated number of units a share of a size is worth. */
  function ExactUnits(chain: Chain, sizeUsd: real, pct: real): real
    requires ValidChain(chain)
  {
    sizeUsd / chain.usdPerCoin * chain.unitsPerCoin * (pct / 100.0)
  }

  lemma SellUnitsAreExactTruncated(chain: Chain, sizeUsd: real, pct: real)
    requires ValidChain(chain)
    ensures SellUnits(chain, sizeUsd, pct) == Truncate(ExactUnits(chain, sizeUsd, pct), chain.bound)
  {
    var share := pct / 100.0;
    var coins := sizeUsd / chain.usdPerCoin;
    var sold := sizeUsd * pct / 100.0 / chain.usdPerCoin;
    assert sizeUsd * pct / 100.0 == sizeUsd * share;
    assert coins * chain.usdPerCoin == sizeUsd;
    assert coins * share * chain.usdPerCoin == sizeUsd * share by { Rearrange(coins, share, chain.usdPerCoin); }
    QuotientIs(coins * share, sizeUsd * share, chain.usdPerCoin);
    assert sold == coins * share;
    Rearrange(coins, share, chain.unitsPerCoin);
    assert UnitsToSell(chain, sizeUsd, pct) == ExactUnits(chain, sizeUsd, pct);
  }

  lemma Rearrange(a: real, b: real, c: real)
    ensures a * b * c == a * c * b
  {
  }

  /** Selling everything at once asks for what the same dollars would have bought. */
  lemma WholeSellMatchesBuy(chain: Chain, sizeUsd: real)
    requires ValidChain(chain)
    ensures SellUnits(chain, sizeUsd, 100.0) == BuyUnits(chain, sizeUsd)
  {
    SellUnitsAreExactTruncated(chain, sizeUsd, 100.0);
  }

  /** The filter prices its buy in dollars and the executor converts back: what is bought is the configured
      amount of coins, truncated to units. */
  lemma BuySizingRoundTrip(cfg: EngineConfig, chain: string)
    ensures BuyUnits(SOLANA, TokenFilter.BuyAmountUsd(cfg, "solana"))
         == Truncate(cfg.buyAmountSol * 1_000_000_000.0, SOLANA.bound)
    ensures chain != "solana" ==>
              BuyUnits(BSC, TokenFilter.BuyAmountUsd(cfg, chain))
              == Truncate(cfg.buyAmountBnb * 1_000_000_000_000_000_000.0, BSC.bound)
  {
    assert cfg.buyAmountSol * 150.0 / 150.0 == cfg.buyAmountSol;
    assert cfg.buyAmountBnb * 600.0 / 600.0 == cfg.buyAmountBnb;
  }

  /** The same shares, as one real sum. */
  lemma {:induction false} ExactUnitsAdd(chain: Chain, sizeUsd: real, a: real, b: real)
    requires ValidChain(chain)
    ensures ExactUnits(chain, sizeUsd, a + b) == ExactUnits(chain, sizeUsd, a) + ExactUnits(chain, sizeUsd, b)
    ensures ExactUnits(chain, sizeUsd, 0.0) == 0.0
  {
    var units := sizeUsd / chain.usdPerCoin * chain.unitsPerCoin;
    assert units * ((a + b) / 100.0) == units * (a / 100.0) + units * (b / 100.0);
  }

  lemma ExactUnitsSign(chain: Chain, sizeUsd: real, pct: real)
    requires ValidChain(chain) && pct >= 0.0
    ensures sizeUsd >= 0.0 ==> ExactUnits(chain, sizeUsd, pct) >= 0.0
    ensures sizeUsd <= 0.0 ==> ExactUnits(chain, sizeUsd, pct) <= 0.0
  {
    var coins := sizeUsd / chain.usdPerCoin;
    assert coins * chain.usdPerCoin == sizeUsd;
    ScaleLess(coins, 0.0, chain.usdPerCoin);
    ScaleLess(0.0, coins, chain.usdPerCoin);
    ScaleLess(coins, 0.0, chain.unitsPerCoin);
    ScaleLess(0.0, coins, chain.unitsPerCoin);
    var units := coins * chain.unitsPerCoin;
    if sizeUsd >= 0.0 { assert units * (pct / 100.0) >= 0.0; } else { assert -units * (pct / 100.0) >= 0.0; }
  }

  /** Bounds for any split, by the exact worth of its shares: each truncation loses less than one unit, and a
      share too big for the integer already asks for the largest amount there is. */
  lemma {:induction false} SplitBounds(chain: Chain, sizeUsd: real, pcts: seq<real>)
    requires ValidChain(chain) && NonNegative(pcts) && sizeUsd >= 0.0
    ensures var exact := ExactUnits(chain, sizeUsd, Sum(pcts));
            var split := SplitUnits(chain, sizeUsd, pcts);
            && split as real <= exact
            && (pcts != [] ==> split >= chain.bound - 1 || split as real > exact - |pcts| as real)
            && Sum(pcts) >= 0.0
  {
    ExactUnitsAdd(chain, sizeUsd, 0.0, 0.0);
    if pcts != [] {
      SplitBounds(chain, sizeUsd, pcts[1..]);
      ExactUnitsAdd(chain, sizeUsd, pcts[0], Sum(pcts[1..]));
      SellUnitsAreExactTruncated(chain, sizeUsd, pcts[0]);
      ExactUnitsSign(chain, sizeUsd, pcts[0]);
      assert pcts[1..] == [] ==> SplitUnits(chain, sizeUsd, pcts[1..]) == 0;
    }
  }

  lemma {:induction false} NothingFromNothing(chain: Chain, sizeUsd: real, pcts: seq<real>)
    requires ValidChain(chain) && NonNegative(pcts) && sizeUsd < 0.0
    ensures SplitUnits(chain, sizeUsd, pcts) == 0
  {
    if pcts != [] {
      NothingFromNothing(chain, sizeUsd, pcts[1..]);
      SellUnitsAreExactTruncated(chain, sizeUsd, pcts[0]);
      ExactUnitsSign(chain, sizeUsd, pcts[0]);
    }
  }

  /** Splitting a sell into `k` parts never loses more than `k - 1` units against selling at once. */
  lemma SplitLosesLittle(chain: Chain, sizeUsd: real, pcts: seq<real>)
    requires ValidChain(chain) && NonNegative(pcts) && pcts != [] && Sum(pcts) == 100.0
    ensures SplitUnits(chain, sizeUsd, pcts) >= SellUnits(chain, sizeUsd, 100.0) - (|pcts| - 1)
  {
    SellUnitsAreExactTruncated(chain, sizeUsd, 100.0);
    ExactUnitsSign(chain, sizeUsd, 100.0);
    if sizeUsd >= 0.0 {
      SplitBounds(chain, sizeUsd, pcts);
    }
  }

  predicate NeverGains(chain: Chain, sizeUsd: real, pcts: seq<real>)
    requires ValidChain(chain)
  {
    NonNegative(pcts) && Sum(pcts) == 100.0 ==> SplitUnits(chain, sizeUsd, pcts) <= SellUnits(chain, sizeUsd, 100.0)
  }

  /** Nor does it ever sell more, exactly when the whole amount fits the integer it is cast to. */
  lemma SplitNeverGainsExactlyWhenItFits(chain: Chain, sizeUsd: real)
    requires ValidChain(chain) && chain.bound % 2 == 0
    ensures (forall pcts :: NeverGains(chain, sizeUsd, pcts))
       <==> ExactUnits(chain, sizeUsd, 100.0) < chain.bound as real
  {
    var exact := ExactUnits(chain, sizeUsd, 100.0);
    SellUnitsAreExactTruncated(chain, sizeUsd, 100.0);
    ExactUnitsSign(chain, sizeUsd, 100.0);
    if exact < chain.bound as real {
      forall pcts ensures NeverGains(chain, sizeUsd, pcts) {
        if NonNegative(pcts) && Sum(pcts) == 100.0 {
          if sizeUsd < 0.0 { NothingFromNothing(chain, sizeUsd, pcts); }
          else { SplitBounds(chain, sizeUsd, pcts); }
        }
      }
    } else {
      var halves := [50.0, 50.0];
      assert halves[1..] == [50.0] && halves[1..][1..] == [];
      assert Sum(halves) == 100.0;
      ExactUnitsAdd(chain, sizeUsd, 50.0, 50.0);
      SellUnitsAreExactTruncated(chain, sizeUsd, 50.0);
      var half := SellUnits(chain, sizeUsd, 50.0);
      assert half >= chain.bound / 2;
      assert SplitUnits(chain, sizeUsd, halves[1..]) == half + SplitUnits(chain, sizeUsd, halves[1..][1..]) == half;
      assert !NeverGains(chain, sizeUsd, halves);
    }
  }

  /** Dollars worth 2^64 lamports, and dollars worth 2^128 of the smallest units of BSC. */
  const TOO_MUCH_SOLANA := 2_767_011_611_056.4327424
  const TOO_MUCH_BSC := 204_169_420_152_563_078_078_024.7644590609268736

  /** Sizes that do not fit: at once they ask for one unit less than in halves. */
  lemma HalvesSellMore()
    ensures SellUnits(SOLANA, TOO_MUCH_SOLANA, 100.0) == 0xffff_ffff_ffff_ffff
    ensures SplitUnits(SOLANA, TOO_MUCH_SOLANA, [50.0, 50.0]) == 0x1_0000_0000_0000_0000
    ensures SellUnits(BSC, TOO_MUCH_BSC, 100.0) == 0xffff_ffff_ffff_ffff_ffff_ffff_ffff_ffff
    ensures SplitUnits(BSC, TOO_MUCH_BSC, [50.0, 50.0]) == 0x1_0000_0000_0000_0000_0000_0000_0000_0000
  {
    TwoHalves(SOLANA, TOO_MUCH_SOLANA);
    TwoHalves(BSC, TOO_MUCH_BSC);
    var half, bscHalf := 0x8000_0000_0000_0000, 0x8000_0000_0000_0000_0000_0000_0000_0000;
    assert TOO_MUCH_SOLANA * 50.0 / 100.0 / 150.0 * 1_000_000_000.0 == half as real;
    assert SellUnits(SOLANA, TOO_MUCH_SOLANA, 50.0) == half;
    assert TOO_MUCH_BSC * 50.0 / 100.0 / 600.0 * 1_000_000_000_000_000_000.0 == bscHalf as real;
    assert SellUnits(BSC, TOO_MUCH_BSC, 50.0) == bscHalf;
  }

  lemma TwoHalves(chain: Chain, sizeUsd: real)
    requires ValidChain(chain)
    ensures SplitUnits(chain, sizeUsd, [50.0, 50.0]) == 2 * SellUnits(chain, sizeUsd, 50.0)
  {
    assert [50.0, 50.0][1..] == [50.0] && [50.0][1..] == [];
    assert SplitUnits(chain, sizeUsd, [50.0]) == SellUnits(chain, sizeUsd, 50.0) + SplitUnits(chain, sizeUsd, []);
  }

  /* ----- recorded trades ----- */

  function BuildTrade(chain: string, token: Token, side: string, amountUsd: real, txHash: Option<string>,
                      status: string): Trade {
    Trade(token.id, token.symbol, chain, side, amountUsd, token.priceUsd,
          if txHash.Some? then txHash.value else "pending", status, None, None, None)
  }

  /** `pct` percent of an amount. */
  function Share(amount: real, pct: real): real {
    amount * pct / 100.0
  }

  function BuildSellTrade(chain: string, position: Snapshot, sellPct: real, reason: ExitReason,
                          txHash: Option<string>): Trade {
    Trade(position.tokenId, position.tokenSymbol, chain, "sell",
          Share(position.sizeUsd, sellPct), position.currentPrice,
          if txHash.Some? then txHash.value else "pending", "confirmed",
          Some(Share(position.pnlUsd, sellPct)), Some(Share(position.pnlPct, sellPct)), Some(reason))
  }

  /** The trade published for a delivered buy; `submitted` is the hash of a live transaction, if one went out. */
  function ExecuteBuy(cfg: EngineConfig, chain: string, token: Token, amountUsd: real,
                      submitted: Option<string>): Option<Trade> {
    if !cfg.liveTradingEnabled then Some(BuildTrade(chain, token, "buy", amountUsd, None, "dry-run"))
    else if submitted.Some? then Some(BuildTrade(chain, token, "buy", amountUsd, submitted, "confirmed"))
    else None
  }

  function ExecuteSell(cfg: EngineConfig, chain: string, position: Snapshot, sellPct: real, reason: ExitReason,
                       submitted: Option<string>): Option<Trade> {
    if !cfg.liveTradingEnabled then Some(BuildSellTrade(chain, position, sellPct, reason, None))
    else if submitted.Some? then Some(BuildSellTrade(chain, position, sellPct, reason, submitted))
    else None
  }

  /** A buy is recorded exactly when trading is off or a transaction went out: as confirmed only in the second
      case, with its hash, and in either with the token, chain, amount and price it was delivered with. */
  lemma BuyIsRecorded(cfg: EngineConfig, chain: string, token: Token, amountUsd: real, submitted: Option<string>)
    ensures var trade := ExecuteBuy(cfg, chain, token, amountUsd, submitted);
            && (trade.Some? <==> !cfg.liveTradingEnabled || submitted.Some?)
            && (trade.Some? ==>
                  var t := trade.value;
                  && t.side == "buy" && t.chain == chain
                  && t.tokenId == token.id && t.tokenSymbol == token.symbol
                  && t.amountUsd == amountUsd && t.priceUsd == token.priceUsd
                  && (t.status == "confirmed" <==> cfg.liveTradingEnabled)
                  && (t.status == "dry-run" <==> !cfg.liveTradingEnabled)
                  && t.txHash == (if cfg.liveTradingEnabled then submitted.value else "pending")
                  && t.pnlUsd == t.pnlPct == None && t.sellReason == None)
  {
  }

  /** So is a sell, always as confirmed, with its reason and its share of the size, the profit and the percentage
      the position stands at. */
  lemma SellIsRecorded(cfg: EngineConfig, chain: string, p: Snapshot, sellPct: real, reason: ExitReason,
                       submitted: Option<string>)
    ensures var trade := ExecuteSell(cfg, chain, p, sellPct, reason, submitted);
            && (trade.Some? <==> !cfg.liveTradingEnabled || submitted.Some?)
            && (trade.Some? ==>
                  var t := trade.value;
                  && t.side == "sell" && t.chain == chain && t.status == "confirmed"
                  && t.tokenId == p.tokenId && t.tokenSymbol == p.tokenSymbol
                  && t.priceUsd == p.currentPrice && t.amountUsd * 100.0 == p.sizeUsd * sellPct
                  && t.pnlUsd.Some? && t.pnlUsd.value * 100.0 == p.pnlUsd * sellPct
                  && t.pnlPct.Some? && t.pnlPct.value * 100.0 == p.pnlPct * sellPct
                  && t.txHash == (if cfg.liveTradingEnabled then submitted.value else "pending")
                  && t.sellReason == Some(reason))
  {
  }

  /** `sellPct` percent of what a size gained between two prices. */
  function ShareOfMove(sellPct: real, sizeUsd: real, entry: real, price: real): real
    requires entry > 0.0
  {
    sellPct / 100.0 * (sizeUsd * (price / entry - 1.0))
  }

  /** A sell of a signal the monitor published records the same share of the price move and of the size. */
  lemma RealisedPnl(cfg: EngineConfig, inputs: seq<Input>, o: nat, s: SellSignal, chain: string, hash: Option<string>)
    requires AllPositive(inputs) && FreshIds(inputs)
    requires o < |inputs| && Buys(inputs[o])
    requires s in Lived(cfg, inputs[o].newId, inputs).sold
    ensures inputs[o].message.value.priceUsd > 0.0
    ensures var bought := inputs[o].message.value;
            var trade := BuildSellTrade(chain, s.position, s.sellPct, s.reason, hash);
            && trade.amountUsd == Share(bought.amountUsd, s.sellPct)
            && trade.pnlUsd == Some(ShareOfMove(s.sellPct, bought.amountUsd, bought.priceUsd, trade.priceUsd))
            && trade.pnlPct == Some(Share(PnlPct(bought.priceUsd, trade.priceUsd), s.sellPct))
            && trade.tokenId == bought.tokenId && trade.sellReason == Some(s.reason)
  {
    assert Positive(inputs[o]);
    Ledger(cfg, inputs, o);
    PricedShare(s.position, s.sellPct);
  }

  lemma PricedShare(p: Snapshot, pct: real)
    requires Priced(p)
    ensures Share(p.pnlUsd, pct) == ShareOfMove(pct, p.sizeUsd, p.entryPrice, p.currentPrice)
  {
    MarkedValue(p);
  }

  /** What the sells of the given signals record as sold, all told. */
  function RecordedUsd(chain: string, sold: seq<SellSignal>): real {
    if sold == [] then 0.0
    else
      var s := sold[0];
      RecordedUsd(chain, sold[1..]) + BuildSellTrade(chain, s.position, s.sellPct, s.reason, None).amountUsd
  }

  lemma {:induction false} RecordedIsShare(chain: string, sold: seq<SellSignal>, sizeUsd: real)
    requires forall s | s in sold :: s.position.sizeUsd == sizeUsd
    ensures RecordedUsd(chain, sold) == Share(sizeUsd, SoldPct(sold))
  {
    if sold != [] {
      RecordedIsShare(chain, sold[1..], sizeUsd);
      assert sold[0] in sold;
      SharesOfSum(sizeUsd, SoldPct(sold[1..]), sold[0].sellPct);
    }
  }

  lemma SharesOfSum(amount: real, a: real, b: real)
    ensures Share(amount, a + b) == Share(amount, a) + Share(amount, b)
  {
    assert amount * (a + b) == amount * a + amount * b;
  }

  /** In every run, the sells of all the signals of a confirmed buy record that share of its amount that the
      signals sold. */
  lemma RunRecordsWhatWasSold(cfg: EngineConfig, inputs: seq<Input>, o: nat, chain: string)
    requires AllPositive(inputs) && FreshIds(inputs) && o < |inputs| && Buys(inputs[o])
    ensures var sold := Lived(cfg, inputs[o].newId, inputs).sold;
            RecordedUsd(chain, sold) == Share(inputs[o].message.value.amountUsd, SoldPct(sold))
  {
    Ledger(cfg, inputs, o);
    RecordedIsShare(chain, Lived(cfg, inputs[o].newId, inputs).sold, inputs[o].message.value.amountUsd);
  }

  /** So once a position has left, at `k`, what is recorded as sold of it is its amount for each emergency stop
      before and each whole exit then, and the take-profit share of it if the target was met: exactly the
      amount bought, when this comes to 100 percent or nothing was bought. */
  lemma RecordedOnLeaving(cfg: EngineConfig, inputs: seq<Input>, o: nat, k: nat, chain: string)
    requires AllPositive(inputs) && FreshIds(inputs) && o < |inputs| && Buys(inputs[o])
    requires LeavesAt(cfg, inputs[o].newId, inputs[o].message.value, inputs[o].at, inputs[o + 1..], k)
    ensures var bought, id, at, later := inputs[o].message.value, inputs[o].newId, inputs[o].at, inputs[o + 1..];
            var whole := WholeSalesDue(cfg, id, bought, at, later, k);
            var tp1 := PriceAt(id, bought.priceUsd, later, k) >= Target(bought.priceUsd, cfg.tp1Pct);
            var percent := Percent(whole, tp1, cfg.tp1SellPct);
            var recorded := RecordedUsd(chain, Lived(cfg, id, inputs).sold);
            && recorded == Share(bought.amountUsd, percent)
            && (recorded == bought.amountUsd <==> percent == 100.0 || bought.amountUsd == 0.0)
  {
    var bought, id, at, later := inputs[o].message.value, inputs[o].newId, inputs[o].at, inputs[o + 1..];
    RunRecordsWhatWasSold(cfg, inputs, o, chain);
    assert OpensOnce(inputs, id, o);
    SoldWholeExactlyWhen(cfg, id, inputs, o, k);
    OnlyAllIsAll(bought.amountUsd, SoldPct(Lived(cfg, id, inputs).sold));
  }

  function RecordedProfit(chain: string, sold: seq<SellSignal>): real {
    if sold == [] then 0.0
    else
      var s := sold[0];
      RecordedProfit(chain, sold[1..]) + BuildSellTrade(chain, s.position, s.sellPct, s.reason, None).pnlUsd.value
  }

  /** What sales of an amount bought at `entry` gain, each by its share and at its own price. */
  function ProfitOf(cfg: EngineConfig, amountUsd: real, entry: real, due: seq<Sale>): real
    requires entry > 0.0
  {
    if due == [] then 0.0
    else ProfitOf(cfg, amountUsd, entry, due[1..]) +
         ShareOfMove(if due[0].reason == Tp1 then cfg.tp1SellPct else 100.0, amountUsd, entry, due[0].price)
  }

  lemma {:induction false} SalesGain(cfg: EngineConfig, trade: Trade, id: Id, at: int, chain: string,
                                     sold: seq<SellSignal>, due: seq<Sale>)
    requires trade.priceUsd > 0.0 && AreSales(cfg, trade, id, at, sold, due)
    ensures RecordedProfit(chain, sold) == ProfitOf(cfg, trade.amountUsd, trade.priceUsd, due)
  {
    if sold != [] {
      assert IsSale(cfg, trade, id, at, sold[0], due[0]);
      SaleGains(sold[0].position, trade.amountUsd, trade.priceUsd, due[0].price, sold[0].sellPct);
      forall i | 0 <= i < |sold[1..]| ensures IsSale(cfg, trade, id, at, sold[1..][i], due[1..][i]) {
        assert IsSale(cfg, trade, id, at, sold[i + 1], due[i + 1]);
      }
      SalesGain(cfg, trade, id, at, chain, sold[1..], due[1..]);
    }
  }

  lemma SaleGains(p: Snapshot, sizeUsd: real, entry: real, price: real, pct: real)
    requires entry > 0.0 && p.sizeUsd == sizeUsd && sizeUsd + p.pnlUsd == ValueAt(sizeUsd, entry, price)
    ensures Share(p.pnlUsd, pct) == ShareOfMove(pct, sizeUsd, entry, price)
  {
    var r := price / entry;
    QuotientIs(sizeUsd * r, sizeUsd * price, entry);
    assert p.pnlUsd == sizeUsd * (r - 1.0);
  }

  /** And what is recorded as gained is the move since entry of all of it at the price in force at each emergency
      stop before, and of each exit's share at the price it left at. */
  lemma ProfitOnLeaving(cfg: EngineConfig, inputs: seq<Input>, o: nat, k: nat, chain: string)
    requires AllPositive(inputs) && FreshIds(inputs) && o < |inputs| && Buys(inputs[o])
    requires LeavesAt(cfg, inputs[o].newId, inputs[o].message.value, inputs[o].at, inputs[o + 1..], k)
    ensures inputs[o].message.value.priceUsd > 0.0
    ensures var bought, id, at, later := inputs[o].message.value, inputs[o].newId, inputs[o].at, inputs[o + 1..];
            RecordedProfit(chain, Lived(cfg, id, inputs).sold)
            == ProfitOf(cfg, bought.amountUsd, bought.priceUsd,
                        StopsBy(id, bought.priceUsd, later[..k]) + ExitsAt(cfg, id, bought, at, later, k))
  {
    var bought, id, at, later := inputs[o].message.value, inputs[o].newId, inputs[o].at, inputs[o + 1..];
    assert OpensOnce(inputs, id, o);
    LeavesExactlyAt(cfg, id, inputs, o);
    var sold := Lived(cfg, id, inputs).sold;
    assert SoldByThen(cfg, id, bought, at, later, k, sold);
    SalesGain(cfg, bought, id, at, chain, sold,
              StopsBy(id, bought.priceUsd, later[..k]) + ExitsAt(cfg, id, bought, at, later, k));
  }

  lemma OnlyAllIsAll(amount: real, pct: real)
    ensures Share(amount, pct) == amount <==> pct == 100.0 || amount == 0.0
  {
    assert Share(amount, pct) - amount == amount * (pct - 100.0) / 100.0;
    if amount != 0.0 && pct != 100.0 { assert amount * (pct - 100.0) != 0.0; }
  }

  function Amounts(chain: string, p: Snapshot, pcts: seq<real>): real {
    if pcts == [] then 0.0
    else BuildSellTrade(chain, p, pcts[0], TimeExit, None).amountUsd + Amounts(chain, p, pcts[1..])
  }

  function Profits(chain: string, p: Snapshot, pcts: seq<real>): real {
    if pcts == [] then 0.0
    else BuildSellTrade(chain, p, pcts[0], TimeExit, None).pnlUsd.value + Profits(chain, p, pcts[1..])
  }

  /** Shares of one snapshot add up: to the size and the profit of the whole when the shares make 100 percent. */
  lemma {:induction false} SharesAddUp(chain: string, p: Snapshot, pcts: seq<real>)
    ensures Amounts(chain, p, pcts) == p.sizeUsd * Sum(pcts) / 100.0
    ensures Profits(chain, p, pcts) == p.pnlUsd * Sum(pcts) / 100.0
    ensures Sum(pcts) == 100.0 ==> Amounts(chain, p, pcts) == p.sizeUsd && Profits(chain, p, pcts) == p.pnlUsd
  {
    if pcts != [] {
      SharesAddUp(chain, p, pcts[1..]);
      assert p.sizeUsd * Sum(pcts) == p.sizeUsd * pcts[0] + p.sizeUsd * Sum(pcts[1..]);
      assert p.pnlUsd * Sum(pcts) == p.pnlUsd * pcts[0] + p.pnlUsd * Sum(pcts[1..]);
    }
  }

  /* ----- executors and monitor closed into one loop ----- */

  /** Deliveries to the executors, in any order and number, between the monitor's own commands and ticks. */
  datatype LoopInput =
    | DeliverBuy(chain: string, token: Token, amountUsd: real, submitted: Option<string>, newId: Id, at: int)
    | DeliverSell(chain: string, signal: SellSignal, submitted: Option<string>, newId: Id, at: int)
    | Control(command: Command, at: int)
    | PriceTick(feed: Id -> Quote)

  /** What the monitor receives: executors are the only publishers of trades. */
  function ToMonitor(cfg: EngineConfig, input: LoopInput): Input {
    match input
    case DeliverBuy(chain, token, amountUsd, submitted, newId, at) =>
      TradeReceived(ExecuteBuy(cfg, chain, token, amountUsd, submitted), newId, at)
    case DeliverSell(chain, signal, submitted, newId, at) =>
      TradeReceived(ExecuteSell(cfg, chain, signal.position, signal.sellPct, signal.reason, submitted), newId, at)
    case Control(command, at) => CommandReceived(command, at)
    case PriceTick(feed) => Tick(feed)
  }

  function ToMonitorAll(cfg: EngineConfig, inputs: seq<LoopInput>): (r: seq<Input>)
    ensures |r| == |inputs|
    ensures forall i | 0 <= i < |inputs| :: r[i] == ToMonitor(cfg, inputs[i])
  {
    seq(|inputs|, i requires 0 <= i < |inputs| => ToMonitor(cfg, inputs[i]))
  }

  /** In dry-run mode the monitor never holds a position and never sells, whatever is delivered. */
  lemma {:induction false} DryRunStaysEmpty(cfg: EngineConfig, inputs: seq<LoopInput>)
    requires !cfg.liveTradingEnabled
    ensures AllPositive(ToMonitorAll(cfg, inputs))
    ensures Run(cfg, ToMonitorAll(cfg, inputs)) == map[]
  {
    if inputs != [] {
      var n := |inputs| - 1;
      DryRunStaysEmpty(cfg, inputs[..n]);
      assert ToMonitorAll(cfg, inputs)[..n] == ToMonitorAll(cfg, inputs[..n]);
    }
  }

  /** Only dry-run mode does that: live, one delivered buy that goes out is held, at its size and price. */
  lemma LiveBuyIsHeld(cfg: EngineConfig, inputs: seq<LoopInput>)
    requires cfg.liveTradingEnabled && AllPositive(ToMonitorAll(cfg, inputs)) && inputs != []
    requires inputs[|inputs| - 1].DeliverBuy? && inputs[|inputs| - 1].submitted.Some?
    ensures var last := inputs[|inputs| - 1];
            var life := Lived(cfg, last.newId, ToMonitorAll(cfg, inputs));
            && life.held.Some?
            && life.held.value.sizeUsd == last.amountUsd
            && life.held.value.entryPrice == last.token.priceUsd
            && life.held.value.status.Open?
  {
    LivesAreIndependent(cfg, inputs[|inputs| - 1].newId, ToMonitorAll(cfg, inputs));
  }

  /** The delivery is a buy that went out live, opening under `id`. */
  predicate BoughtLive(cfg: EngineConfig, input: LoopInput, id: Id) {
    cfg.liveTradingEnabled && input.DeliverBuy? && input.submitted.Some? && input.newId == id
  }

  /** Over every sequence of deliveries, the monitor knows an id exactly when a buy that went out live has opened
      under it. */
  lemma KnownExactlyByLiveBuys(cfg: EngineConfig, inputs: seq<LoopInput>, id: Id)
    requires AllPositive(ToMonitorAll(cfg, inputs))
    ensures id in Run(cfg, ToMonitorAll(cfg, inputs))
       <==> exists i | 0 <= i < |inputs| :: BoughtLive(cfg, inputs[i], id)
  {
    var all := ToMonitorAll(cfg, inputs);
    OnlyBuysOpen(cfg, id, all);
    forall i | 0 <= i < |inputs| ensures Opens(all[i], id) <==> BoughtLive(cfg, inputs[i], id) {
      assert all[i] == ToMonitor(cfg, inputs[i]);
    }
    if i :| 0 <= i < |inputs| && BoughtLive(cfg, inputs[i], id) { assert Opens(all[i], id); }
    if i :| 0 <= i < |all| && Opens(all[i], id) { assert BoughtLive(cfg, inputs[i], id); }
  }

  /** `p` is the position a delivered buy opened. */
  predicate OpenedBy(p: Snapshot, input: LoopInput)
    requires input.DeliverBuy?
  {
    && p.id == input.newId && p.openedAt == input.at && p.chain == input.chain
    && p.tokenId == input.token.id && p.tokenSymbol == input.token.symbol
    && p.entryPrice == input.token.priceUsd && p.sizeUsd == input.amountUsd
  }

  /** With fresh ids, what is held or was sold under such an id is what the delivered buy asked for. */
  lemma LiveBuysOnTheBooks(cfg: EngineConfig, inputs: seq<LoopInput>, o: nat)
    requires AllPositive(ToMonitorAll(cfg, inputs)) && FreshIds(ToMonitorAll(cfg, inputs))
    requires o < |inputs| && inputs[o].DeliverBuy? && BoughtLive(cfg, inputs[o], inputs[o].newId)
    ensures var life := Lived(cfg, inputs[o].newId, ToMonitorAll(cfg, inputs));
            && (life.held.Some? ==> OpenedBy(life.held.value, inputs[o]))
            && (life.held.None? ==> life.sold != [])
            && (forall s | s in life.sold :: OpenedBy(s.position, inputs[o]))
  {
    var all := ToMonitorAll(cfg, inputs);
    assert all[o] == ToMonitor(cfg, inputs[o]) && Buys(all[o]);
    Ledger(cfg, all, o);
  }

  /** The monitor stays empty over every sequence of deliveries exactly in dry-run mode. */
  lemma EmptyExactlyInDryRun(cfg: EngineConfig)
    ensures (forall inputs | AllPositive(ToMonitorAll(cfg, inputs)) :: Run(cfg, ToMonitorAll(cfg, inputs)) == map[])
       <==> !cfg.liveTradingEnabled
  {
    if cfg.liveTradingEnabled {
      var token := Token(Id("t"), "solana", "", "", 0.0, 0, 0, 0.0, 0.0, 0.0, 1.0,
                         true, [], true, true, false, 0.0, 0.0);
      var inputs := [DeliverBuy("solana", token, 1.0, Some("hash"), Id("p"), 0)];
      LiveBuyIsHeld(cfg, inputs);
    } else {
      forall inputs ensures Run(cfg, ToMonitorAll(cfg, inputs)) == map[] {
        DryRunStaysEmpty(cfg, inputs);
      }
    }
  }
}
