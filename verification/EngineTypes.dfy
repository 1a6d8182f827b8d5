/** The records, commands and signals shared by the engine's tasks. */
module EngineTypes {
  import opened Options

  datatype Id = Id(text: string)

  datatype EngineConfig = EngineConfig(
    liveTradingEnabled: bool,
    enabled: bool,
    slippagePct: real,
    jitoTipLamports: nat,
    buyAmountSol: real,
    buyAmountBnb: real,
    tp1Pct: real,
    trailingStopPct: real,
    tp1SellPct: real,
    timeExitMinutes: int,
    timeExitMinProfitPct: real,
    minLiquidityUsd: real,
    maxTokenAgeSeconds: int,
    minHolders: int,
    maxTop10Pct: real,
    maxRugScore: real,
    minVolumeUsd: real)

  datatype Token = Token(
    id: Id,
    chain: string,
    address: string,
    symbol: string,
    liquidityUsd: real,
    holders: int,
    ageSeconds: int,
    top10Pct: real,
    rugScore: real,
    volumeUsd: real,
    priceUsd: real,
    filterPassed: bool,
    failReasons: seq<FailReason>,
    mintAuthorityRevoked: bool,
    freezeAuthorityRevoked: bool,
    honeypot: bool,
    buyTaxPct: real,
    sellTaxPct: real)

  /** A rejection reason: one reported by the chain check, or one of the eight filter clauses. */
  datatype FailReason =
    | Reported(text: string)
    | LowLiquidity(found: real, limit: real)
    | TooOld(age: int, limitAge: int)
    | FewHolders(count: int, limitCount: int)
    | Top10TooHigh(found: real, limit: real)
    | RugScoreTooHigh(found: real, limit: real)
    | LowVolume(found: real, limit: real)
    | HoneypotDetected
    | TaxTooHigh(buyTax: real, sellTax: real)

  /** A trade as it travels on the `trades:new` channel. */
  datatype Trade = Trade(
    tokenId: Id,
    tokenSymbol: string,
    chain: string,
    side: string,
    amountUsd: real,
    priceUsd: real,
    txHash: string,
    status: string,
    pnlUsd: Option<real>,
    pnlPct: Option<real>,
    sellReason: Option<ExitReason>)

  datatype Command =
    | Start
    | Stop
    | EmergencyStop(reason: string)
    | ResetEmergency
    | UpdateConfig(config: EngineConfig)

  datatype Status = Open | Closed

  datatype ExitReason = Tp1 | TrailingStop | TimeExit | Emergency

  /** The value of a position at one moment; sell signals carry one. Times are in milliseconds. */
  datatype Snapshot = Snapshot(
    id: Id,
    tokenId: Id,
    tokenSymbol: string,
    tokenAddress: string,
    chain: string,
    entryPrice: real,
    currentPrice: real,
    peakPrice: real,
    sizeUsd: real,
    status: Status,
    tp1Hit: bool,
    trailingActive: bool,
    stopLossPrice: real,
    pnlUsd: real,
    pnlPct: real,
    openedAt: int,
    closedAt: Option<int>)

  datatype SellSignal = SellSignal(
    channel: string,
    position: Snapshot,
    reason: ExitReason,
    sellPct: real,
    targetPrice: Option<real>)
}
