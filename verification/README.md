# Verified model of the trading engine's stateful protocols

A Dafny model of the parts of the repository whose behaviour depends on state kept over time, with proofs of
what they guarantee over every run.

- **Position monitor** (`PositionRules`, `TrailingStop`, `MonitorRuns`, `MonitorExits`, `MonitorTheorems`,
  `ExitOverlap`, `MonitorLoop`). Positions open on confirmed buys, are repriced every tick, and leave by
  take-profit, by time or after an emergency stop. The monitor is modelled as written: `emit_sell` closes a position whatever share it
  sells, a position closed by an emergency stays in the map until the next tick and is evaluated once more there,
  and `UpdateConfig` changes nothing. `MonitorLoop` is the loop itself, walking its map in an arbitrary order; it is
  proved against the step function of `MonitorRuns`, over which the whole-run theorems are stated.
- **Executors** (`Executor`). Dollar amounts to chain units, recorded trades, and the loop executors and monitor
  form. A chain is a rate, a unit and an integer bound, which covers Solana (150, 10^9, `u64`) and BSC
  (600, 10^18, `u128`).
- **Token filter** (`TokenFilter`). Eight checks on a token and the batch drained once a second.
- **WebSocket hub** (`HubModel`, `WebSocketHub`). Hub, reader and writer goroutines interleaved step by step;
  sending on or closing a closed channel is an outcome of the model, proved unreachable.
- **Mockup refresh** (`GeneratedSource`, `RefreshModel`, `MockupPlugin`). The single-flight `refresh`, with
  discoveries and writes that may also fail, and the generated module text.
- **Bot-state routes** (`BotInterlock`). Handlers that read the row and then write it, in every interleaving.

What the code does differently from its documentation, as proved here:

- `README.md:135-136` says TP1 sells half and the rest is trailed. The monitor drops the position after the TP1
  sale, so no trailing-stop sale is ever published (`NoTrailingSale`) and half is never sold (`HalfIsNeverSold`);
  after an emergency stop the next tick sells it again (`HalfIsSoldTwice`). `SoldWholeExactlyWhen` says for every
  run when a position is sold whole, less or more. The trailing rules themselves are right when followed on their
  own (`TrailingFiresExactlyAtStop`).
- `README.md:109` says the bot cannot be restarted until the emergency stop is reset. A start that has read the row
  before the emergency is written still writes after it. `BothFlagsExactlyByRace` says this is the only way, and
  `NeverBothExactlyWhenStartsAreClear` gives the exact condition under which it never happens.
- With the shipped price stub the price of a position never moves, so a TP1 above the entry never fires (`StubNeverMoves`).
- A discovery that fails leaves the request queued behind it unserved (`StrandedExactlyWhenLastFails`).
- The source is replaced before it is written, so after a write that throws the file stays stale, and refreshes that
  succeed do not repair it until a discovery finds other files (`StaysUnwritten`, `FileFreshExactlyWhen`).
- A split sell can ask for more units than a single one exactly when the single one does not fit its integer type
  (`SplitNeverGainsExactlyWhenItFits`).

`EngineConfig` accepts any settings, and the monitor's run theorems hold under all of them, for any quotes, with
three exceptions over positive quotes. The stop is under the target (`PositionRules.StopUnderTarget`) when
`trailing_stop_pct > 0`, and `trailing_stop_pct >= 100` or `tp1_pct > -trailing_stop_pct`; the rules are apart
(`PositionRules.RulesApart`) when moreover `time_exit_min_profit_pct <= tp1_pct` or
`time_exit_min_profit_pct <= -100`. Every ordinary configuration meets both. `NoTrailingSale` asks for the first,
and `NoTrailingSaleExactlyWhen` shows that it fails in some run of every other configuration; `FirstExit` and the
last clause of `SignalBound` ask for the second, and `BoundedExactlyWhenApart` shows the same of it.

The conversions of one sale are lemmas beside these: `MarkedValue`, `WholeSellMatchesBuy` (a whole sell asks for what
the same dollars buy) and `BuySizingRoundTrip` (the filter's dollars buy the configured coins).

Prices, clocks, uuids, chain checks, file listings, transaction hashes and message delivery are inputs. The price
source and the clock are arbitrary; uuids are fresh where a theorem says so. Amounts and prices are reals.

## Model

| member | source | states |
|---|---|---|
| PositionRules.TickFollowsRules | rust-engine/src/position_monitor.rs:57-113 | Under any settings and quote, a tick on a held position sends one sale for each exit its price and time call for (thresholds on the price, milliseconds since opening, no flags), in order, each carrying the price, peak, flags and stop it should, and closes it exactly then |
| PositionRules.MinutesLast | rust-engine/src/position_monitor.rs:106-110 | The minutes the time exit counts reach a limit exactly when that many milliseconds have passed, for limits of any sign |
| PositionRules.OneRuleWhenApart | rust-engine/src/position_monitor.rs:84-110 | With the rules apart a positive price calls for at most one exit: take-profit at the target, else the time exit |
| ExitOverlap.OneSignalExactlyWhenApart | rust-engine/src/position_monitor.rs:86-110 | A new position gets at most one signal at its first tick, for every price and time, if and only if the settings keep the rules apart |
| ExitOverlap.BoundedExactlyWhenApart | rust-engine/src/position_monitor.rs:35-110 | Over positive quotes the bound of one signal beyond the emergency stops holds in all runs if and only if the rules are apart |
| ExitOverlap.NoTrailingSaleExactlyWhen | rust-engine/src/position_monitor.rs:86-103 | Over positive quotes no run carries a trailing_stop signal if and only if the stop lies under the target |
| TrailingStop.StopFollowsPeak | rust-engine/src/position_monitor.rs:60-99 | Over any price history, with a stop of at most 100 percent, from the first take-profit on the stop is the fixed percentage below the running maximum, which is the recorded peak |
| TrailingStop.FollowsPeakExactlyWhen | rust-engine/src/position_monitor.rs:60-99 | It does over all histories if and only if the stop is at most 100 percent |
| TrailingStop.TrailingFiresExactlyAtStop | rust-engine/src/position_monitor.rs:94-103 | Over any price history, with a stop of at most 100 percent, a tick emits a trailing-stop signal if and only if the target was hit at or before it and its price has fallen from the peak by at least the trailing percentage |
| TrailingStop.StopNeverFalls | rust-engine/src/position_monitor.rs:95-99 | Over any price history, with a stop of at most 100 percent, the stop never decreases |
| MonitorRuns.FateIsFulfilled | rust-engine/src/position_monitor.rs:29-76 | In every run, under any settings and quotes, each position's state and signals are those prescribed by its quotes and emergency stops alone; an emergency sale is at the price and peak in force when the stop arrived |
| MonitorExits.LeavesExactlyAt | rust-engine/src/position_monitor.rs:29-141 | Under any settings and quotes: held until the first tick that calls for an exit or follows an emergency stop, gone from then on, sold whole once per emergency stop before it and once for each exit that tick calls for; every published signal, field by field, is the sale of the bought position at the price, peak and time in force then, with the profit that makes |
| MonitorExits.FirstExit | rust-engine/src/position_monitor.rs:57-113 | Without later emergencies, the rules apart and quotes positive: exactly one signal, at the first tick whose price, or milliseconds since opening and price, call for an exit, that sale field by field, and gone from then on; nothing and still held before |
| MonitorExits.SoldWholeExactlyWhen | rust-engine/src/position_monitor.rs:35-110 | For any run and settings, what a position is sold by the time it leaves, and exactly when that is all of it, less or more: from the emergency stops before, the exits called for then, and the take-profit share |
| MonitorExits.HalfIsNeverSold | rust-engine/src/position_monitor.rs:87-92 | With the documented settings a position that doubles is gone with half of it sold |
| MonitorExits.HalfIsSoldTwice | rust-engine/src/position_monitor.rs:35-40 | With an emergency stop before it doubles it is sold to 150 percent |
| MonitorTheorems.SignalBound | rust-engine/src/position_monitor.rs:35-40 | Under any settings one signal per emergency stop met in the map, nothing leaving the map without a signal, and at most one per exit rule on leaving; with the rules apart and positive quotes at most one exit, TP1 or time |
| MonitorTheorems.ClosedIsGoneAfterTick | rust-engine/src/position_monitor.rs:72 | For any settings a closed position is gone after the next tick, its signals kept |
| MonitorTheorems.NoTrailingSale | rust-engine/src/position_monitor.rs:94-103 | With the stop under the target no signal of any run carries the reason trailing_stop |
| MonitorTheorems.HeldPositions | rust-engine/src/position_monitor.rs:59-72 | Under any settings and quotes every held position is what its trade bought, no TP1 taken, peak the maximum price and below a target above the entry, books balanced, open unless an emergency met it and closed at the last one, and always open after a tick |
| MonitorTheorems.OnlyBuysOpen | rust-engine/src/position_monitor.rs:47-49 | An id is known if and only if a trade of side buy and status confirmed opened under it |
| MonitorTheorems.Ledger | rust-engine/src/position_monitor.rs:153-175 | Under any settings and quotes each confirmed buy is in the map with its own token, price and amount, or in the signals sent when it left |
| MonitorTheorems.Conservation | rust-engine/src/position_monitor.rs:44-72 | Under any settings and quotes the amounts bought equal the sizes still held plus the sizes reported on leaving |
| MonitorTheorems.StubNeverMoves | rust-engine/src/position_monitor.rs:178-185 | Fed by the shipped price stub a position stays at its entry price under any settings; beside emergencies only a time exit with a positive profit floor, TP1 with a target of zero or less, or a trailing stop of zero or less there sells it |
| MonitorTheorems.StubQuotes | rust-engine/src/position_monitor.rs:178-185 | The stub quotes exactly positions with a token address, at a gain of as many percent as the last digit of the seconds |
| MonitorLoop.PositionMonitor.EmitSell | rust-engine/src/position_monitor.rs:115-141 | Closes the position whatever share is sold and sends one signal carrying it |
| MonitorLoop.PositionMonitor.EvaluateExits | rust-engine/src/position_monitor.rs:78-113 | The in-place cascade equals its specification, signals appended in order |
| MonitorLoop.PositionMonitor.OnCommand | rust-engine/src/position_monitor.rs:31-43 | The emergency loop over the map, in any order, is one step of the run model; other commands change nothing |
| MonitorLoop.PositionMonitor.OnTrade | rust-engine/src/position_monitor.rs:44-56 | Only parsed confirmed buys insert a position |
| MonitorLoop.PositionMonitor.OnTick | rust-engine/src/position_monitor.rs:57-73 | The tick loop and the retain, in any order, are one step of the run model |
| Executor.SplitLosesLittle | rust-engine/src/executor_solana.rs:229 | Shares summing to 100 percent, cut to k sells, lose at most k - 1 units, for every size |
| Executor.SplitNeverGainsExactlyWhenItFits | rust-engine/src/executor_solana.rs:229 | No split sells more than the single sell if and only if the amount fits the integer it is cast to |
| Executor.HalvesSellMore | rust-engine/src/executor_solana.rs:229 | Such amounts on Solana and BSC, at 2^64 and 2^128 units |
| Executor.BuyIsRecorded | rust-engine/src/executor_solana.rs:100-175 | A buy is recorded if and only if trading is off or a transaction went out, confirmed only in the second case, with its hash, token, chain, amount and price |
| Executor.SellIsRecorded | rust-engine/src/executor_solana.rs:217-305 | So is a sell, with its reason and its share of size, profit and percentage |
| Executor.RealisedPnl | rust-engine/src/executor_solana.rs:288-305 | A sell of any signal the monitor published records its share of the bought size, of the price move since entry in dollars and percent, and its reason |
| Executor.RunRecordsWhatWasSold | rust-engine/src/executor_solana.rs:288-305 | In every run, the sells of all the signals of a confirmed buy record the share of its amount that the signals sold |
| Executor.RecordedOnLeaving | rust-engine/src/executor_solana.rs:288-305 | Once a position has left, the dollars recorded are its amount for each emergency stop before and each whole exit then, plus the take-profit share; the amount bought if and only if that is 100 percent or nothing was bought |
| Executor.ProfitOnLeaving | rust-engine/src/executor_solana.rs:301 | The profit recorded is the move of the whole amount at the price in force at each emergency stop before, and of each exit's share at the price it left at |
| Executor.SharesAddUp | rust-engine/src/executor_solana.rs:295-301 | Amounts and profits of shares summing to 100 percent sum to the position's |
| Executor.DryRunStaysEmpty | rust-engine/src/executor_solana.rs:217-223 | With live trading off no sequence of deliveries, commands and ticks ever gives the monitor a position or a signal |
| Executor.KnownExactlyByLiveBuys | rust-engine/src/executor_solana.rs:100-175 | Over every sequence of deliveries the monitor knows an id if and only if a delivered buy went out live under it |
| Executor.LiveBuysOnTheBooks | rust-engine/src/executor_solana.rs:158-175 | What is held or was sold under such an id has the token, chain, price, amount and time of the delivered buy |
| Executor.EmptyExactlyInDryRun | rust-engine/src/executor_solana.rs:100-106 | The monitor stays empty over all delivery sequences if and only if live trading is off |
| TokenFilter.ApplyFilters | rust-engine/src/safety.rs:95-125 | Passes if and only if all thresholds hold, no honeypot, taxes at most ten, and no reason was reported before; the reasons are those reported and then exactly the checks failed, each once, in order, with the token's number and the limit |
| TokenFilter.FilterTask.OnMessage | rust-engine/src/filter.rs:26-33 | The pending map holds the last version of each id since the last tick |
| TokenFilter.FilterTask.EvaluateAndEmit | rust-engine/src/filter.rs:48-86 | Publishes the verdict, naming exactly the failed checks, and a buy exactly when it passed and buying is enabled |
| TokenFilter.FilterTask.OnTick | rust-engine/src/filter.rs:34-43 | Whatever the key order, each pending id is evaluated once on its last version and nothing stays pending; all that was sent is what the run should have published |
| TokenFilter.LastVersionIsNewest | rust-engine/src/filter.rs:30 | The version judged is that of an arrival followed by no tick and no newer arrival of its id |
| TokenFilter.OneVerdictPerBatch | rust-engine/src/filter.rs:35-42 | Per tick an id gets exactly one verdict if it arrived since the last tick, none otherwise, naming exactly the checks its newest version fails, and a buy only after a passing one |
| TokenFilter.BuysExactlyWhen | rust-engine/src/filter.rs:55-83 | A buy signal appears in a run if and only if at some tick the last version was acceptable and buying enabled |
| TokenFilter.LooserBuysMore | rust-engine/src/safety.rs:98-115 | Loosening every threshold keeps every buy signal of every run |
| TokenFilter.BuysAreSound | rust-engine/src/filter.rs:73-83 | Every buy signal carries a token meeting all thresholds |
| HubModel.NeverPanics | services/api-go/ws.go:38-59 | No interleaving sends on a closed channel or closes one twice |
| HubModel.GapFree | services/api-go/ws.go:48-97 | Messages taken followed by messages buffered are the contiguous history from registration to now or to removal; in the map if and only if the channel is open |
| HubModel.DeliversBroadcasts | services/api-go/ws.go:38-97 | Told by the events alone: what a client has taken or has waiting are the messages broadcast after its registration, without a gap, and between broadcasts all of them while it is listed |
| HubModel.ClientsAgree | services/api-go/ws.go:90-97 | Two clients have received the same message at every position of history both have reached |
| HubModel.EvictedOnlyWhenFull | services/api-go/ws.go:43-55 | In every run a registered client is off the map if and only if its reader has ended or a broadcast found 256 messages waiting |
| HubModel.EvictedKeepsTheRest | services/api-go/ws.go:51-55 | A client evicted by a broadcast has, to the end of the run, exactly the messages between its registration and the one that did not fit |
| HubModel.FrozenOnceDropped | services/api-go/ws.go:43-47 | A client off the map at some moment is never listed, opened or fed again in the rest of the run, and loses nothing, late unregistration included |
| HubModel.OrderDoesNotMatter | services/api-go/ws.go:49-57 | Every order of ranging over the map while deleting ends in the pointwise result |
| HubModel.BroadcastDeliversAll | services/api-go/ws.go:48-57 | The same for the whole broadcast step |
| WebSocketHub.Server.Register | services/api-go/ws.go:41-42 | Registration is the model's step |
| WebSocketHub.Server.Unregister | services/api-go/ws.go:43-47 | Removal and close happen only if the client is still listed |
| WebSocketHub.Server.Broadcast | services/api-go/ws.go:48-57 | The deleting loop over the map gives the pointwise result and never touches a closed channel |
| WebSocketHub.Server.Take | services/api-go/ws.go:92-93 | The writer takes the oldest waiting message |
| GeneratedSource.ModuleImportsEachFile | artifacts/mockup-sandbox/mockupPreviewPlugin.ts:42-75 | Whatever characters the paths hold, a reader of the module finds one entry per listed file, in order, whose key leads to that file from src and whose import leads to it from src/.generated |
| GeneratedSource.SourceTellsListingsApart | artifacts/mockup-sandbox/mockupPreviewPlugin.ts:54-70 | Two listings give the same module text if and only if they are equal, whatever characters the paths hold |
| RefreshModel.FreshAtQuiescence | artifacts/mockup-sandbox/mockupPreviewPlugin.ts:82-111 | Nothing in flight, last refresh not failed, no change since the last request: the source is that of the current tree, and the file is if and only if its last write went through |
| RefreshModel.FreshWithoutFailures | artifacts/mockup-sandbox/mockupPreviewPlugin.ts:82-111 | In runs where no discovery and no write fails, source and file are those of the current tree at quiescence |
| RefreshModel.FreshExactlyWhenShownIsCurrent | artifacts/mockup-sandbox/mockupPreviewPlugin.ts:91-98 | Failures included, at any moment: fresh if and only if the last resolved listing still lists the tree and the last write left its whole text; the source, if and only if the first |
| RefreshModel.FileIsLastAttempts | artifacts/mockup-sandbox/mockupPreviewPlugin.ts:93-98 | In every run the source and the file are those of the last write made or tried, read off the events |
| RefreshModel.FileFreshExactlyWhen | artifacts/mockup-sandbox/mockupPreviewPlugin.ts:91-98 | In every run, read off the events: fresh if and only if the listing last written or tried lists the tree and that attempt left its whole text |
| RefreshModel.StaysUnwritten | artifacts/mockup-sandbox/mockupPreviewPlugin.ts:94-97 | A failed write is never made good while discoveries keep finding the same files |
| RefreshModel.AStaleFile | artifacts/mockup-sandbox/mockupPreviewPlugin.ts:94-97 | A run that ends, after a refresh that succeeds, with the source fresh and no file |
| RefreshModel.SingleFlight | artifacts/mockup-sandbox/mockupPreviewPlugin.ts:82-111 | At most one discovery active, never more discoveries than requests, the queued flag set only with one in flight unless one has failed, a request without a discovery is queued, and initiating calls return whether their chain wrote |
| RefreshModel.EveryRequestIsServed | artifacts/mockup-sandbox/mockupPreviewPlugin.ts:82-111 | Without failures, once nothing is in flight every request is followed by a discovery that started no earlier than it |
| RefreshModel.StrandedExactlyWhenLastFails | artifacts/mockup-sandbox/mockupPreviewPlugin.ts:82-111 | Over whole runs, with nothing in flight: some request was followed by no discovery if and only if the last discovery, or its write, failed with a request made during it |
| RefreshModel.AStrandedRequest | artifacts/mockup-sandbox/mockupPreviewPlugin.ts:83-86 | A run that ends with a stale file and an unserved request |
| RefreshModel.RewritesExactlyOnChange | artifacts/mockup-sandbox/mockupPreviewPlugin.ts:93-98 | The file is rewritten if and only if the listing differs from the one shown |
| MockupPlugin.Refresher.Refresh | artifacts/mockup-sandbox/mockupPreviewPlugin.ts:82-91 | A call starts a discovery, or queues and returns false |
| MockupPlugin.Refresher.Requested | artifacts/mockup-sandbox/mockupPreviewPlugin.ts:82-91 | A request is one step of the run, and tells whether it started a discovery |
| MockupPlugin.Refresher.Discovered | artifacts/mockup-sandbox/mockupPreviewPlugin.ts:92-110 | Writing, resetting the flag, the recursive call and the unwinding of suspended calls are one step of the run; a chain that ends returns whether it wrote the file |
| MockupPlugin.Refresher.ReturnToCallers | artifacts/mockup-sandbox/mockupPreviewPlugin.ts:104-110 | Suspended calls return true if and only if any of them, or the last one, wrote the file |
| MockupPlugin.Refresher.Failed | artifacts/mockup-sandbox/mockupPreviewPlugin.ts:100-102 | A rejection resets the flag, ends every suspended call, and touches neither the source, the file nor the queued flag |
| MockupPlugin.Refresher.DiscoveredUnwritten | artifacts/mockup-sandbox/mockupPreviewPlugin.ts:93-102 | A write that throws has the source replaced and the file not, resets the flag and ends every suspended call, and leaves the queued flag |
| MockupPlugin.Refresher.ServesCurrentFiles | artifacts/mockup-sandbox/mockupPreviewPlugin.ts:82-111 | The object itself serves the module of the files there are, at quiescence after a refresh that did not fail, and has it on disk if and only if the last write went through |
| BotInterlock.FlagsTellLastWrite | artifacts/api-server/src/routes/config.ts:54-121 | In every interleaving each flag is set if and only if its last setting write is not undone |
| BotInterlock.BothFlagsExactlyByRace | artifacts/api-server/src/routes/config.ts:54-101 | Running and emergency-stopped at once if and only if a start read before the emergency's write and wrote after it |
| BotInterlock.ARace | artifacts/api-server/src/routes/config.ts:54-101 | Such an interleaving |
| BotInterlock.NeverBothExactlyWhenStartsAreClear | artifacts/api-server/src/routes/config.ts:55-64 | The flags are never both set in a run if and only if every start's write would still have found no emergency |
| BotInterlock.SerialKeepsInterlock | artifacts/api-server/src/routes/config.ts:54-121 | Handlers run one after another: never both flags, no start before a reset, error shown exactly during an emergency |
| BotInterlock.TimesTellRunning | artifacts/api-server/src/routes/config.ts:60-101 | Running if and only if started and not stopped by the timestamps, and then without an error |
| BotInterlock.LastMoveTellsTimes | artifacts/api-server/src/routes/config.ts:60-101 | Flag and timestamp are those of the last start, stop or emergency stop written |
| BotInterlock.RowIsAsWritten | artifacts/api-server/src/routes/config.ts:60-121 | In every interleaving the times and the text shown are those of the last start, of the last stop or emergency unless a start came after, and of the last emergency unless a start or reset came after |
| BotInterlock.BotStateRoutes.BeginRequest | artifacts/api-server/src/routes/config.ts:54-59 | The read step; a start is refused exactly while an emergency stop written so far stands |
| BotInterlock.BotStateRoutes.FinishRequest | artifacts/api-server/src/routes/config.ts:60-121 | The write step overwrites exactly the fields its handler sets |
| BotInterlock.BotStateRoutes.RowIsExplained | artifacts/api-server/src/routes/config.ts:54-121 | The stored row shows both flags if and only if a race took place in its history, never after serial handlers; running agrees with the timestamps, and times and text are those of the last writes |

## Left out

- Floating-point rounding, NaN and overflow: amounts and prices are reals, and trade prices are positive.
- Redis, NATS, gRPC, HTTP, SQL and file-system calls and their failures, including an error ending the monitor's loop; the write of the generated module is modelled, and may fail.
- Position updates sent to the dashboard and positions persisted to Redis; only sell signals are modelled as the monitor's output.
- MonitorLoop.PositionMonitor.OnTick: positions are values owned by the map, as in Rust; a `&mut Position` argument is a value passed in and handed back.
- The clock is read once per position and tick, and once per emergency stop.
- The chain checks behind the filter (`check_solana`, `check_bsc`): any result is an input.
- The wording of rejection reasons: a reason is its kind and its numbers.
- Transaction building, signing and submission; a live order is represented by whether a hash came back.
- The route from the filter's buy signals to the executors' channels, which the code does not connect: delivery is arbitrary.
- Other writers of the bot-state row (the Go API, the wallet routes), its wallet and live-trading fields, and the first-ever request creating it: one row with the schema's defaults exists.
- The bot-configuration routes, wallet encryption, dashboards and generated clients.
- Lone surrogates in file names, which `JSON.stringify` escapes: a character is a Unicode scalar value.
- The watcher's own filtering of events: a change is followed by a request or it is not, as the run says.
- A client whose connection upgrade fails: it never reaches the hub.
