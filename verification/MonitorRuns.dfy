/** The position monitor as a step function over its three kinds of input, and what holds over whole runs.
    The state maps every id ever opened to its life so far: the position, while it is held, and the sell
    signals published for it. */
module MonitorRuns {
  import opened Options
  import opened EngineTypes
  import opened PositionRules
  import opened TrailingStop

  datatype Life = Life(held: Option<Snapshot>, sold: seq<SellSignal>)

  type Monitor = map<Id, Life>

  /** A `trades:new` message is `None` when its payload does not parse; the id is the one a new position would get. */
  datatype Input =
    | CommandReceived(command: Command, at: int)
    | TradeReceived(message: Option<Trade>, newId: Id, at: int)
    | Tick(feed: Id -> Quote)

  const UNBORN := Life(None, [])

  function LifeOf(m: Monitor, id: Id): Life {
    if id in m then m[id] else UNBORN
  }

  predicate Buys(input: Input) {
    && input.TradeReceived? && input.message.Some?
    && input.message.value.side == "buy" && input.message.value.status == "confirmed"
  }

  predicate Opens(input: Input, id: Id) {
    Buys(input) && input.newId == id
  }

  predicate Emergencies(input: Input) {
    input.CommandReceived? && input.command.EmergencyStop?
  }

  /** What one input does to the life under one id. */
  function LifeStep(cfg: EngineConfig, id: Id, life: Life, input: Input): (r: Life)
    requires life.held.Some? ==> life.held.value.entryPrice > 0.0
    requires Opens(input, id) ==> input.message.value.priceUsd > 0.0
    ensures r.held.Some? ==> r.held.value.entryPrice > 0.0
  {
    if Opens(input, id) then Life(Some(OpenPosition(input.message.value, id, input.at)), life.sold)
    else if life.held.None? then life
    else match input
      case CommandReceived(EmergencyStop(_), at) =>
        var o := Sell(Outcome(life.held.value, []), Emergency, 100.0, at);
        Life(Some(o.position), life.sold + o.signals)
      case CommandReceived(_, _) => life
      case TradeReceived(_, _, _) => life
      case Tick(feed) =>
        var o := TickPosition(cfg, life.held.value, feed(id));
        Life(if o.position.status.Open? then Some(o.position) else None, life.sold + o.signals)
  }

  predicate Positive(input: Input) {
    Buys(input) ==> input.message.value.priceUsd > 0.0
  }

  predicate WellPriced(m: Monitor) {
    forall id | id in m :: m[id].held.Some? ==> m[id].held.value.entryPrice > 0.0
  }

  function Step(cfg: EngineConfig, m: Monitor, input: Input): (r: Monitor)
    requires WellPriced(m) && Positive(input)
    ensures WellPriced(r)
  {
    map id | id in (if Buys(input) then m.Keys + {input.newId} else m.Keys) :: LifeStep(cfg, id, LifeOf(m, id), input)
  }

  predicate AllPositive(inputs: seq<Input>) {
    forall i | 0 <= i < |inputs| :: Positive(inputs[i])
  }

  /** The monitor after a run of inputs from the empty map. */
  function Run(cfg: EngineConfig, inputs: seq<Input>): (m: Monitor)
    requires AllPositive(inputs)
    ensures WellPriced(m)
  {
    if inputs == [] then map[]
    else Step(cfg, Run(cfg, inputs[..|inputs| - 1]), inputs[|inputs| - 1])
  }

  function Lived(cfg: EngineConfig, id: Id, inputs: seq<Input>): (r: Life)
    requires AllPositive(inputs)
    ensures r.held.Some? ==> r.held.value.entryPrice > 0.0
  {
    LifeOf(Run(cfg, inputs), id)
  }

  /** Each id's life is a run of its own: other ids never touch it. */
  lemma LivesAreIndependent(cfg: EngineConfig, id: Id, inputs: seq<Input>)
    requires AllPositive(inputs) && inputs != []
    ensures Lived(cfg, id, inputs)
         == LifeStep(cfg, id, Lived(cfg, id, inputs[..|inputs| - 1]), inputs[|inputs| - 1])
  {
  }

  /* ----- one life, from its opening on ----- */

  /** The inputs of a run that opens `id` once, at position `o`. */
  ghost predicate OpensOnce(inputs: seq<Input>, id: Id, o: nat) {
    && AllPositive(inputs)
    && o < |inputs| && Opens(inputs[o], id)
    && (forall i | 0 <= i < |inputs| && i != o :: !Opens(inputs[i], id))
  }

  /** Whatever is quoted for `id` is positive. */
  ghost predicate QuotedPositive(id: Id, inputs: seq<Input>) {
    forall i | 0 <= i < |inputs| && inputs[i].Tick? :: PositiveQuote(inputs[i].feed(id))
  }

  /** The quotes `id` receives. */
  function QuotesFor(id: Id, inputs: seq<Input>): (quotes: seq<Quote>)
    ensures QuotedPositive(id, inputs) ==> forall q | q in quotes :: PositiveQuote(q)
  {
    if inputs == [] then []
    else
      var last := inputs[|inputs| - 1];
      QuotesFor(id, inputs[..|inputs| - 1]) + if last.Tick? then [last.feed(id)] else []
  }

  /** The exits tick `i` calls for on a position bought by `trade` at `openedAt`. */
  function RulesAt(cfg: EngineConfig, trade: Trade, openedAt: int, quotes: seq<Quote>, i: nat): seq<ExitReason>
    requires i < |quotes|
  {
    ExitRules(cfg, trade.priceUsd, openedAt, PriceAfter(trade.priceUsd, quotes, i + 1), quotes[i].now)
  }

  /* ----- reference fate: what should become of a position, told from its quotes and emergencies alone ----- */

  /** Still held after the emergency sales `stops`, or gone after those and the exit sales `exits`. */
  datatype Fate =
    | Holding(stops: seq<Sale>)
    | Left(stops: seq<Sale>, exits: seq<Sale>)

  /** The exit sales the last of the quotes calls for. */
  function ExitSalesDue(cfg: EngineConfig, trade: Trade, openedAt: int, quotes: seq<Quote>): seq<Sale>
    requires quotes != []
  {
    var n := |quotes|;
    SalesFor(RulesAt(cfg, trade, openedAt, quotes, n - 1), PriceAfter(trade.priceUsd, quotes, n),
             PeakAfter(trade.priceUsd, quotes, n), quotes[n - 1].now)
  }

  /** The sale an emergency stop calls for after the quotes so far: at the price and peak in force. */
  function StopSaleDue(entry: real, quotes: seq<Quote>, at: int): Sale {
    Sale(Emergency, PriceAfter(entry, quotes, |quotes|), PeakAfter(entry, quotes, |quotes|), false, at)
  }

  function FateOf(cfg: EngineConfig, id: Id, trade: Trade, openedAt: int, later: seq<Input>): Fate {
    if later == [] then Holding([])
    else
      var before, last := later[..|later| - 1], later[|later| - 1];
      FateStep(cfg, id, trade, openedAt, QuotesFor(id, before), FateOf(cfg, id, trade, openedAt, before), last)
  }

  /** One more input, after the quotes so far. */
  function FateStep(cfg: EngineConfig, id: Id, trade: Trade, openedAt: int, quotes: seq<Quote>, fate: Fate,
                    last: Input): Fate {
    if fate.Left? then fate
    else if Emergencies(last) then Holding(fate.stops + [StopSaleDue(trade.priceUsd, quotes, last.at)])
    else if last.Tick? then
      var exits := ExitSalesDue(cfg, trade, openedAt, quotes + [last.feed(id)]);
      if exits != [] || fate.stops != [] then Left(fate.stops, exits) else fate
    else fate
  }

  lemma FateOneMore(cfg: EngineConfig, id: Id, trade: Trade, openedAt: int, before: seq<Input>, last: Input)
    ensures FateOf(cfg, id, trade, openedAt, before + [last])
         == FateStep(cfg, id, trade, openedAt, QuotesFor(id, before), FateOf(cfg, id, trade, openedAt, before), last)
  {
    assert (before + [last])[..|before|] == before;
  }

  /** The life under an id is the one its fate prescribes. */
  ghost predicate Fulfils(cfg: EngineConfig, start: Snapshot, quotes: seq<Quote>, fate: Fate, life: Life) {
    match fate
    case Holding(stops) =>
      && SalesAt(cfg, start, life.sold, stops)
      && life.held.Some?
      && var p := life.held.value;
      && SameTrade(p, start) && Untriggered(cfg, p)
      && p.currentPrice == PriceAfter(start.entryPrice, quotes, |quotes|)
      && p.peakPrice == PeakAfter(start.entryPrice, quotes, |quotes|)
      && (p.status.Open? <==> stops == [])
      && p.closedAt == (if stops == [] then None else Some(stops[|stops| - 1].at))
    case Left(stops, exits) =>
      && SalesAt(cfg, start, life.sold, stops + exits)
      && life.held.None?
      && stops + exits != []
  }

  lemma {:induction false} PricesOfPrefix(entry: real, quotes: seq<Quote>, q: Quote, n: nat)
    requires n <= |quotes|
    ensures PriceAfter(entry, quotes + [q], n) == PriceAfter(entry, quotes, n)
    ensures PeakAfter(entry, quotes + [q], n) == PeakAfter(entry, quotes, n)
  {
    if n > 0 {
      PricesOfPrefix(entry, quotes, q, n - 1);
      assert (quotes + [q])[n - 1] == quotes[n - 1];
    }
  }

  /** What a tick finds and leaves of a position that is still untriggered, in terms of its quotes. */
  lemma TickOnHeld(cfg: EngineConfig, start: Snapshot, trade: Trade, quotes: seq<Quote>, p: Snapshot, q: Quote)
    requires start.entryPrice == trade.priceUsd > 0.0 && SameTrade(p, start) && Untriggered(cfg, p)
    requires p.currentPrice == PriceAfter(trade.priceUsd, quotes, |quotes|)
    requires p.peakPrice == PeakAfter(trade.priceUsd, quotes, |quotes|)
    ensures var quotes', o := quotes + [q], TickPosition(cfg, p, q);
            var exits := ExitSalesDue(cfg, trade, start.openedAt, quotes');
            && SalesAt(cfg, start, o.signals, exits)
            && (exits != [] ==> o.position.status.Closed?)
            && (exits == [] ==>
                  && SameTrade(o.position, start) && Untriggered(cfg, o.position)
                  && o.position.status == p.status && o.position.closedAt == p.closedAt
                  && o.position.currentPrice == PriceAfter(trade.priceUsd, quotes', |quotes'|)
                  && o.position.peakPrice == PeakAfter(trade.priceUsd, quotes', |quotes'|))
  {
    PricesOfPrefix(trade.priceUsd, quotes, q, |quotes|);
    TickFollowsRules(cfg, p, q);
    SalesOfSameTrade(cfg, p, start, TickPosition(cfg, p, q).signals,
                     ExitSalesDue(cfg, trade, start.openedAt, quotes + [q]));
  }

  lemma SalesAppended(cfg: EngineConfig, start: Snapshot, before: seq<SellSignal>, due: seq<Sale>,
                      signals: seq<SellSignal>, more: seq<Sale>)
    requires SalesAt(cfg, start, before, due) && SalesAt(cfg, start, signals, more)
    ensures SalesAt(cfg, start, before + signals, due + more)
  {
  }

  lemma TickFulfils(cfg: EngineConfig, id: Id, start: Snapshot, trade: Trade, quotes: seq<Quote>, fate: Fate,
                    life: Life, input: Input)
    requires start.entryPrice == trade.priceUsd > 0.0 && start.id == id
    requires fate.Holding? && Fulfils(cfg, start, quotes, fate, life) && input.Tick?
    ensures Fulfils(cfg, start, quotes + [input.feed(id)],
                    FateStep(cfg, id, trade, start.openedAt, quotes, fate, input), LifeStep(cfg, id, life, input))
  {
    var p, q := life.held.value, input.feed(id);
    TickOnHeld(cfg, start, trade, quotes, p, q);
    var o, exits := TickPosition(cfg, p, q), ExitSalesDue(cfg, trade, start.openedAt, quotes + [q]);
    if exits == [] && fate.stops == [] {
      assert LifeStep(cfg, id, life, input) == Life(Some(o.position), life.sold);
    } else {
      assert LifeStep(cfg, id, life, input) == Life(None, life.sold + o.signals);
      SalesAppended(cfg, start, life.sold, fate.stops, o.signals, exits);
    }
  }

  lemma EmergencyFulfils(cfg: EngineConfig, id: Id, start: Snapshot, trade: Trade, quotes: seq<Quote>, fate: Fate,
                         life: Life, input: Input)
    requires start.entryPrice == trade.priceUsd > 0.0 && start.id == id
    requires fate.Holding? && Fulfils(cfg, start, quotes, fate, life) && Emergencies(input)
    ensures Fulfils(cfg, start, quotes, FateStep(cfg, id, trade, start.openedAt, quotes, fate, input),
                    LifeStep(cfg, id, life, input))
  {
    var p := life.held.value;
    var o := Sell(Outcome(p, []), Emergency, 100.0, input.at);
    var due := StopSaleDue(trade.priceUsd, quotes, input.at);
    assert LifeStep(cfg, id, life, input) == Life(Some(o.position), life.sold + o.signals);
    assert SaleAt(cfg, start, o.signals[0], due);
    SalesAppended(cfg, start, life.sold, fate.stops, o.signals, [due]);
  }

  lemma QuotesOneMore(id: Id, before: seq<Input>, last: Input)
    ensures last.Tick? ==> QuotesFor(id, before + [last]) == QuotesFor(id, before) + [last.feed(id)]
    ensures !last.Tick? ==> QuotesFor(id, before + [last]) == QuotesFor(id, before)
  {
    assert (before + [last])[..|before|] == before;
    assert QuotesFor(id, before) + [] == QuotesFor(id, before);
  }

  lemma FulfilStep(cfg: EngineConfig, id: Id, start: Snapshot, trade: Trade, quotes: seq<Quote>, fate: Fate,
                   life: Life, last: Input)
    requires start.entryPrice == trade.priceUsd > 0.0 && start.id == id
    requires Fulfils(cfg, start, quotes, fate, life)
    requires life.held.Some? ==> life.held.value.entryPrice > 0.0
    requires !Opens(last, id)
    ensures Fulfils(cfg, start, if last.Tick? then quotes + [last.feed(id)] else quotes,
                    FateStep(cfg, id, trade, start.openedAt, quotes, fate, last), LifeStep(cfg, id, life, last))
  {
    if fate.Holding? && last.Tick? {
      TickFulfils(cfg, id, start, trade, quotes, fate, life, last);
    } else if fate.Holding? && Emergencies(last) {
      EmergencyFulfils(cfg, id, start, trade, quotes, fate, life, last);
    }
  }

  lemma FulfilOneMore(cfg: EngineConfig, id: Id, start: Snapshot, trade: Trade, before: seq<Input>, last: Input,
                      life: Life)
    requires start.entryPrice == trade.priceUsd > 0.0 && start.id == id
    requires Fulfils(cfg, start, QuotesFor(id, before), FateOf(cfg, id, trade, start.openedAt, before), life)
    requires life.held.Some? ==> life.held.value.entryPrice > 0.0
    requires !Opens(last, id)
    ensures Fulfils(cfg, start, QuotesFor(id, before + [last]),
                    FateOf(cfg, id, trade, start.openedAt, before + [last]), LifeStep(cfg, id, life, last))
  {
    var fate := FateOf(cfg, id, trade, start.openedAt, before);
    FateOneMore(cfg, id, trade, start.openedAt, before, last);
    QuotesOneMore(id, before, last);
    FulfilStep(cfg, id, start, trade, QuotesFor(id, before), fate, life, last);
  }

  lemma OpeningFulfils(cfg: EngineConfig, id: Id, trade: Trade, input: Input)
    requires Positive(input) && Opens(input, id) && input.message.value == trade
    ensures Fulfils(cfg, OpenPosition(trade, id, input.at), QuotesFor(id, []),
                    FateOf(cfg, id, trade, input.at, []), LifeStep(cfg, id, UNBORN, input))
  {
    OpensUntriggered(cfg, trade, id, input.at);
  }

  lemma PrefixOpensOnce(inputs: seq<Input>, id: Id, o: nat)
    requires OpensOnce(inputs, id, o) && o < |inputs| - 1
    ensures OpensOnce(inputs[..|inputs| - 1], id, o)
  {
  }

  lemma {:induction false} UnbornBefore(cfg: EngineConfig, id: Id, inputs: seq<Input>)
    requires AllPositive(inputs) && forall i | 0 <= i < |inputs| :: !Opens(inputs[i], id)
    ensures Lived(cfg, id, inputs) == UNBORN
  {
    if inputs != [] {
      UnbornBefore(cfg, id, inputs[..|inputs| - 1]);
      LivesAreIndependent(cfg, id, inputs);
    }
  }

  /** Every life in every run is the one its fate prescribes. */
  lemma {:induction false} FateIsFulfilled(cfg: EngineConfig, id: Id, inputs: seq<Input>, o: nat)
    requires OpensOnce(inputs, id, o)
    ensures var trade, later := inputs[o].message.value, inputs[o + 1..];
            Fulfils(cfg, OpenPosition(trade, id, inputs[o].at), QuotesFor(id, later),
                    FateOf(cfg, id, trade, inputs[o].at, later), Lived(cfg, id, inputs))
    decreases |inputs|
  {
    LivesAreIndependent(cfg, id, inputs);
    assert Positive(inputs[o]);
    if o == |inputs| - 1 {
      UnbornBefore(cfg, id, inputs[..o]);
      assert inputs[o + 1..] == [];
      OpeningFulfils(cfg, id, inputs[o].message.value, inputs[o]);
    } else {
      PrefixOpensOnce(inputs, id, o);
      FateIsFulfilled(cfg, id, inputs[..|inputs| - 1], o);
      FulfilLast(cfg, id, inputs, o);
    }
  }

  lemma FulfilLast(cfg: EngineConfig, id: Id, inputs: seq<Input>, o: nat)
    requires OpensOnce(inputs, id, o) && o < |inputs| - 1
    requires inputs[o].message.value.priceUsd > 0.0
    requires var trade, before := inputs[o].message.value, inputs[..|inputs| - 1];
             Fulfils(cfg, OpenPosition(trade, id, inputs[o].at), QuotesFor(id, before[o + 1..]),
                     FateOf(cfg, id, trade, inputs[o].at, before[o + 1..]), Lived(cfg, id, before))
    ensures var trade, later := inputs[o].message.value, inputs[o + 1..];
            Fulfils(cfg, OpenPosition(trade, id, inputs[o].at), QuotesFor(id, later),
                    FateOf(cfg, id, trade, inputs[o].at, later),
                    LifeStep(cfg, id, Lived(cfg, id, inputs[..|inputs| - 1]), inputs[|inputs| - 1]))
  {
    var trade, before, last := inputs[o].message.value, inputs[..|inputs| - 1], inputs[|inputs| - 1];
    assert inputs[o + 1..] == before[o + 1..] + [last];
    FulfilOneMore(cfg, id, OpenPosition(trade, id, inputs[o].at), trade, before[o + 1..], last, Lived(cfg, id, before));
  }
}
