/** The safety filter: eight threshold checks on a token, and the loop that collects detected tokens and
    evaluates them once a second. */
module TokenFilter {
  import opened Options
  import opened EngineTypes
  import opened Outbox

  /** What a chain check reports about a token; arbitrary input here. */
  datatype SafetyResult = SafetyResult(
    passed: bool,
    reasons: seq<FailReason>,
    honeypot: bool,
    buyTaxPct: real,
    sellTaxPct: real,
    mintRevoked: bool,
    freezeRevoked: bool)

  datatype Event =
    | TokenFiltered(tokenId: Id, passed: bool, reasons: seq<FailReason>)
    | BuySignal(token: Token, amountUsd: real, slippagePct: real, jitoTipLamports: nat)

  function IdOf(e: Event): Id {
    match e
    case TokenFiltered(id, _, _) => id
    case BuySignal(token, _, _, _) => token.id
  }

  /** All six thresholds met, no honeypot, taxes of at most ten percent. */
  predicate Acceptable(token: Token, cfg: EngineConfig, safety: SafetyResult) {
    && token.liquidityUsd >= cfg.minLiquidityUsd
    && token.ageSeconds <= cfg.maxTokenAgeSeconds
    && token.holders >= cfg.minHolders
    && token.top10Pct <= cfg.maxTop10Pct
    && token.rugScore <= cfg.maxRugScore
    && token.volumeUsd >= cfg.minVolumeUsd
    && !safety.honeypot
    && safety.buyTaxPct <= 10.0 && safety.sellTaxPct <= 10.0
  }

  function PushIf(reasons: seq<FailReason>, fails: bool, reason: FailReason): seq<FailReason> {
    if fails then reasons + [reason] else reasons
  }

  /** The eight checks, in the order they are made: whether the token fails one, and the reason then given. */
  function Check(token: Token, cfg: EngineConfig, safety: SafetyResult, n: nat): (bool, FailReason)
    requires 1 <= n <= 8
  {
    if n == 1 then (token.liquidityUsd < cfg.minLiquidityUsd, LowLiquidity(token.liquidityUsd, cfg.minLiquidityUsd))
    else if n == 2 then (token.ageSeconds > cfg.maxTokenAgeSeconds, TooOld(token.ageSeconds, cfg.maxTokenAgeSeconds))
    else if n == 3 then (token.holders < cfg.minHolders, FewHolders(token.holders, cfg.minHolders))
    else if n == 4 then (token.top10Pct > cfg.maxTop10Pct, Top10TooHigh(token.top10Pct, cfg.maxTop10Pct))
    else if n == 5 then (token.rugScore > cfg.maxRugScore, RugScoreTooHigh(token.rugScore, cfg.maxRugScore))
    else if n == 6 then (token.volumeUsd < cfg.minVolumeUsd, LowVolume(token.volumeUsd, cfg.minVolumeUsd))
    else if n == 7 then (safety.honeypot, HoneypotDetected)
    else (safety.buyTaxPct > 10.0 || safety.sellTaxPct > 10.0, TaxTooHigh(safety.buyTaxPct, safety.sellTaxPct))
  }

  /** The reasons after the first `n` checks. */
  function AfterChecks(token: Token, cfg: EngineConfig, safety: SafetyResult, n: nat): seq<FailReason>
    requires n <= 8
  {
    if n == 0 then safety.reasons
    else
      var (fails, reason) := Check(token, cfg, safety, n);
      PushIf(AfterChecks(token, cfg, safety, n - 1), fails, reason)
  }

  function Verdict(token: Token, cfg: EngineConfig, safety: SafetyResult): SafetyResult {
    var reasons := AfterChecks(token, cfg, safety, 8);
    safety.(reasons := reasons, passed := reasons == [])
  }

  /** The reason names a check the token fails, with the token's number and the limit it fails. */
  predicate Fails(token: Token, cfg: EngineConfig, safety: SafetyResult, reason: FailReason) {
    match reason
    case Reported(_) => false
    case LowLiquidity(found, limit) => found == token.liquidityUsd < cfg.minLiquidityUsd == limit
    case TooOld(age, limit) => age == token.ageSeconds > cfg.maxTokenAgeSeconds == limit
    case FewHolders(count, limit) => count == token.holders < cfg.minHolders == limit
    case Top10TooHigh(found, limit) => found == token.top10Pct > cfg.maxTop10Pct == limit
    case RugScoreTooHigh(found, limit) => found == token.rugScore > cfg.maxRugScore == limit
    case LowVolume(found, limit) => found == token.volumeUsd < cfg.minVolumeUsd == limit
    case HoneypotDetected => safety.honeypot
    case TaxTooHigh(buyTax, sellTax) =>
      && buyTax == safety.buyTaxPct && sellTax == safety.sellTaxPct
      && (safety.buyTaxPct > 10.0 || safety.sellTaxPct > 10.0)
  }

  /** The place of a reason's check among the eight. */
  function Rank(reason: FailReason): nat {
    match reason
    case Reported(_) => 0
    case LowLiquidity(_, _) => 1
    case TooOld(_, _) => 2
    case FewHolders(_, _) => 3
    case Top10TooHigh(_, _) => 4
    case RugScoreTooHigh(_, _) => 5
    case LowVolume(_, _) => 6
    case HoneypotDetected => 7
    case TaxTooHigh(_, _) => 8
  }

  /** What was reported, and then exactly the failures among the first `n` checks, each once, in their order. */
  ghost predicate NamesFailures(token: Token, cfg: EngineConfig, safety: SafetyResult, reasons: seq<FailReason>,
                                n: nat) {
    && safety.reasons <= reasons
    && var added := reasons[|safety.reasons|..];
    && (forall reason :: reason in added <==> Fails(token, cfg, safety, reason) && Rank(reason) <= n)
    && (forall i, j | 0 <= i < j < |added| :: Rank(added[i]) < Rank(added[j]))
  }

  lemma CheckIsTheOne(token: Token, cfg: EngineConfig, safety: SafetyResult, n: nat, reason: FailReason)
    requires 1 <= n <= 8
    ensures Fails(token, cfg, safety, reason) && Rank(reason) == n
       <==> Check(token, cfg, safety, n).0 && reason == Check(token, cfg, safety, n).1
  {
  }

  lemma OneMoreCheck(token: Token, cfg: EngineConfig, safety: SafetyResult, reasons: seq<FailReason>, n: nat,
                     fails: bool, reason: FailReason)
    requires NamesFailures(token, cfg, safety, reasons, n)
    requires forall other :: Fails(token, cfg, safety, other) && Rank(other) == n + 1 <==> fails && other == reason
    ensures NamesFailures(token, cfg, safety, PushIf(reasons, fails, reason), n + 1)
  {
    var added := reasons[|safety.reasons|..];
    assert fails ==> (reasons + [reason])[|safety.reasons|..] == added + [reason];
    assert fails ==> Fails(token, cfg, safety, reason) && Rank(reason) == n + 1;
  }

  lemma {:induction false} ChecksNameFailures(token: Token, cfg: EngineConfig, safety: SafetyResult, n: nat)
    requires n <= 8
    ensures NamesFailures(token, cfg, safety, AfterChecks(token, cfg, safety, n), n)
  {
    if n > 0 {
      ChecksNameFailures(token, cfg, safety, n - 1);
      var (fails, reason) := Check(token, cfg, safety, n);
      forall other { CheckIsTheOne(token, cfg, safety, n, other); }
      OneMoreCheck(token, cfg, safety, AfterChecks(token, cfg, safety, n - 1), n - 1, fails, reason);
    }
  }

  /** What was reported, and then exactly the checks the token fails, each once, in the order they are made. */
  ghost predicate ReportedThenFailures(token: Token, cfg: EngineConfig, safety: SafetyResult,
                                       reasons: seq<FailReason>) {
    && safety.reasons <= reasons
    && var added := reasons[|safety.reasons|..];
    && (forall reason :: reason in added <==> Fails(token, cfg, safety, reason))
    && (forall i, j | 0 <= i < j < |added| :: Rank(added[i]) < Rank(added[j]))
  }

  lemma VerdictNamesFailures(token: Token, cfg: EngineConfig, safety: SafetyResult)
    ensures ReportedThenFailures(token, cfg, safety, Verdict(token, cfg, safety).reasons)
  {
    ChecksNameFailures(token, cfg, safety, 8);
  }

  lemma AcceptableFailsNothing(token: Token, cfg: EngineConfig, safety: SafetyResult)
    ensures Acceptable(token, cfg, safety) <==> forall reason :: !Fails(token, cfg, safety, reason)
  {
    if !Acceptable(token, cfg, safety) {
      assert exists n | 1 <= n <= 8 :: Check(token, cfg, safety, n).0 by {
        assert Check(token, cfg, safety, 1).0 || Check(token, cfg, safety, 2).0 || Check(token, cfg, safety, 3).0
            || Check(token, cfg, safety, 4).0 || Check(token, cfg, safety, 5).0 || Check(token, cfg, safety, 6).0
            || Check(token, cfg, safety, 7).0 || Check(token, cfg, safety, 8).0;
      }
      var n :| 1 <= n <= 8 && Check(token, cfg, safety, n).0;
      CheckIsTheOne(token, cfg, safety, n, Check(token, cfg, safety, n).1);
    }
  }

  lemma VerdictExactly(token: Token, cfg: EngineConfig, safety: SafetyResult)
    ensures Verdict(token, cfg, safety).passed <==> safety.reasons == [] && Acceptable(token, cfg, safety)
  {
    var reasons := Verdict(token, cfg, safety).reasons;
    VerdictNamesFailures(token, cfg, safety);
    var added := reasons[|safety.reasons|..];
    AcceptableFailsNothing(token, cfg, safety);
    assert reasons == safety.reasons + added;
    if added != [] { assert added[0] in added; }
  }

  /** The six checks on the market, pushed one by one onto the reasons the chain check reported. */
  method CheckMarket(token: Token, cfg: EngineConfig, safety: SafetyResult) returns (reasons: seq<FailReason>)
    ensures reasons == AfterChecks(token, cfg, safety, 6)
  {
    reasons := safety.reasons;
    if token.liquidityUsd < cfg.minLiquidityUsd {
      reasons := reasons + [LowLiquidity(token.liquidityUsd, cfg.minLiquidityUsd)];
    }
    assert reasons == AfterChecks(token, cfg, safety, 1);
    if token.ageSeconds > cfg.maxTokenAgeSeconds {
      reasons := reasons + [TooOld(token.ageSeconds, cfg.maxTokenAgeSeconds)];
    }
    assert reasons == AfterChecks(token, cfg, safety, 2);
    if token.holders < cfg.minHolders {
      reasons := reasons + [FewHolders(token.holders, cfg.minHolders)];
    }
    assert reasons == AfterChecks(token, cfg, safety, 3);
    if token.top10Pct > cfg.maxTop10Pct {
      reasons := reasons + [Top10TooHigh(token.top10Pct, cfg.maxTop10Pct)];
    }
    assert reasons == AfterChecks(token, cfg, safety, 4);
    if token.rugScore > cfg.maxRugScore {
      reasons := reasons + [RugScoreTooHigh(token.rugScore, cfg.maxRugScore)];
    }
    assert reasons == AfterChecks(token, cfg, safety, 5);
    if token.volumeUsd < cfg.minVolumeUsd {
      reasons := reasons + [LowVolume(token.volumeUsd, cfg.minVolumeUsd)];
    }
    assert reasons == AfterChecks(token, cfg, safety, 6);
  }

  /** All eight checks. The verdict passes exactly when
      the token is acceptable and nothing was reported; what the chain check itself concluded, and whether
      authorities were revoked, plays no part. */
  method ApplyFilters(token: Token, cfg: EngineConfig, safety: SafetyResult) returns (result: SafetyResult)
    ensures result == Verdict(token, cfg, safety)
    ensures result.passed <==> safety.reasons == [] && Acceptable(token, cfg, safety)
    ensures ReportedThenFailures(token, cfg, safety, result.reasons)
    ensures result == safety.(reasons := result.reasons, passed := result.passed)
  {
    var reasons := CheckMarket(token, cfg, safety);
    if safety.honeypot {
      reasons := reasons + [HoneypotDetected];
    }
    assert reasons == AfterChecks(token, cfg, safety, 7);
    if safety.buyTaxPct > 10.0 || safety.sellTaxPct > 10.0 {
      reasons := reasons + [TaxTooHigh(safety.buyTaxPct, safety.sellTaxPct)];
    }
    assert reasons == AfterChecks(token, cfg, safety, 8);
    result := safety.(reasons := reasons, passed := reasons == []);
    assert result == Verdict(token, cfg, safety);
    VerdictExactly(token, cfg, safety);
    VerdictNamesFailures(token, cfg, safety);
  }

  /** The token as it is republished with its verdict. */
  function Marked(token: Token, result: SafetyResult): Token {
    token.(filterPassed := result.passed, failReasons := result.reasons,
           mintAuthorityRevoked := result.mintRevoked, freezeAuthorityRevoked := result.freezeRevoked,
           honeypot := result.honeypot, buyTaxPct := result.buyTaxPct, sellTaxPct := result.sellTaxPct)
  }

  function BuyAmountUsd(cfg: EngineConfig, chain: string): real {
    if chain == "solana" then cfg.buyAmountSol * 150.0 else cfg.buyAmountBnb * 600.0
  }

  /** What one evaluation publishes. */
  function Emitted(cfg: EngineConfig, token: Token, safety: SafetyResult): seq<Event> {
    var result := Verdict(token, cfg, safety);
    [TokenFiltered(token.id, result.passed, result.reasons)] +
    if result.passed && cfg.enabled
    then [BuySignal(Marked(token, result), BuyAmountUsd(cfg, token.chain), cfg.slippagePct, cfg.jitoTipLamports)]
    else []
  }

  /* ----- the batch ----- */

  /** A `tokens:new` message is `None` when its payload does not parse; a tick brings what the chain checks
      would report about each token then. */
  datatype Input = Arrival(message: Option<Token>) | Tick(checks: Token -> SafetyResult)

  /** Reference reading of the pending batch: the last version of an id since the last tick. */
  function LastVersion(inputs: seq<Input>, id: Id): Option<Token> {
    if inputs == [] then None
    else
      var last := inputs[|inputs| - 1];
      if last.Tick? then None
      else if last.message.Some? && last.message.value.id == id then last.message
      else LastVersion(inputs[..|inputs| - 1], id)
  }

  /** The map `pending` holds the last version of every id that arrived, and nothing else. */
  ghost predicate HoldsLatest(pending: map<Id, Token>, inputs: seq<Input>) {
    forall id :: LastVersion(inputs, id) == if id in pending then Some(pending[id]) else None
  }

  /** What a tick should publish about an id: the evaluation of its last version, once, or nothing. */
  function DueAtTick(cfg: EngineConfig, inputs: seq<Input>, checks: Token -> SafetyResult, id: Id): seq<Event> {
    var version := LastVersion(inputs, id);
    if version.Some? then Emitted(cfg, version.value, checks(version.value)) else []
  }

  /** The version kept is that of an arrival after which no tick and no newer version came. */
  ghost predicate NewestSinceTick(inputs: seq<Input>, i: nat, id: Id) {
    && i < |inputs| && inputs[i].Arrival? && inputs[i].message.Some? && inputs[i].message.value.id == id
    && forall j | i < j < |inputs| ::
         inputs[j].Arrival? && (inputs[j].message.Some? ==> inputs[j].message.value.id != id)
  }

  ghost predicate HasNewest(inputs: seq<Input>, id: Id, token: Token) {
    exists i: nat :: NewestSinceTick(inputs, i, id) && inputs[i].message == Some(token)
  }

  lemma {:induction false} LastVersionIsNewest(inputs: seq<Input>, id: Id, token: Token)
    ensures LastVersion(inputs, id) == Some(token) <==> HasNewest(inputs, id, token)
  {
    if inputs != [] {
      var n := |inputs| - 1;
      var before := inputs[..n];
      LastVersionIsNewest(before, id, token);
      if inputs[n].Arrival? && inputs[n].message.Some? && inputs[n].message.value.id == id {
        assert NewestSinceTick(inputs, n, id);
        assert forall i: nat :: NewestSinceTick(inputs, i, id) ==> i == n;
      } else if inputs[n].Tick? {
        assert forall i: nat :: i < n ==> !NewestSinceTick(inputs, i, id);
      } else {
        NewestOfPrefix(inputs, id);
      }
    }
  }

  lemma NewestOfPrefix(inputs: seq<Input>, id: Id)
    requires inputs != []
    requires var last := inputs[|inputs| - 1];
             last.Arrival? && (last.message.Some? ==> last.message.value.id != id)
    ensures forall i: nat :: NewestSinceTick(inputs, i, id) <==> NewestSinceTick(inputs[..|inputs| - 1], i, id)
  {
    var n := |inputs| - 1;
    forall i: nat | NewestSinceTick(inputs[..n], i, id) ensures NewestSinceTick(inputs, i, id) {
      forall j | i < j < n ensures inputs[j] == inputs[..n][j] { }
    }
    forall i: nat | NewestSinceTick(inputs, i, id) ensures NewestSinceTick(inputs[..n], i, id) {
      forall j | i < j < n ensures inputs[j] == inputs[..n][j] { }
    }
  }

  /** An id is told its verdict once per tick, if it arrived since the tick before, and then bought or not. */
  lemma OneVerdictPerBatch(cfg: EngineConfig, inputs: seq<Input>, checks: Token -> SafetyResult, id: Id)
    ensures var due := DueAtTick(cfg, inputs, checks, id);
            && (due != [] <==> exists token :: HasNewest(inputs, id, token))
            && (due != [] ==>
                  && due[0].TokenFiltered? && due[0].tokenId == id
                  && (forall token | HasNewest(inputs, id, token) ::
                        ReportedThenFailures(token, cfg, checks(token), due[0].reasons))
                  && (due[0].passed <==> due[0].reasons == [])
                  && (|due| == 2 <==> due[0].passed && cfg.enabled)
                  && |due| <= 2
                  && (|due| == 2 ==> due[1].BuySignal?))
  {
    LastVersionHasId(inputs, id);
    if LastVersion(inputs, id).Some? {
      var version := LastVersion(inputs, id).value;
      LastVersionIsNewest(inputs, id, version);
      VerdictNamesFailures(version, cfg, checks(version));
      forall token | HasNewest(inputs, id, token) ensures token == version {
        LastVersionIsNewest(inputs, id, token);
      }
    } else if token :| HasNewest(inputs, id, token) {
      LastVersionIsNewest(inputs, id, token);
    }
  }

  lemma {:induction false} LastVersionHasId(inputs: seq<Input>, id: Id)
    ensures LastVersion(inputs, id).Some? ==> LastVersion(inputs, id).value.id == id
  {
    if inputs != [] { LastVersionHasId(inputs[..|inputs| - 1], id); }
  }

  /** A drain loop part way: the ids still to visit are the ones pending, and every other id has been sent what
      it is due. */
  ghost predicate Drained(cfg: EngineConfig, inputs: seq<Input>, checks: Token -> SafetyResult,
                          pending: map<Id, Token>, sent: seq<Event>, was: seq<Event>) {
    && (forall id | id in pending :: LastVersion(inputs, id) == Some(pending[id]))
    && forall id :: About(IdOf, id, sent)
                 == About(IdOf, id, was) + if id in pending then [] else DueAtTick(cfg, inputs, checks, id)
  }

  lemma EmittedAbout(cfg: EngineConfig, token: Token, safety: SafetyResult)
    ensures forall e | e in Emitted(cfg, token, safety) :: IdOf(e) == token.id
  {
  }

  lemma DrainOne(cfg: EngineConfig, inputs: seq<Input>, checks: Token -> SafetyResult,
                 pending: map<Id, Token>, sent: seq<Event>, was: seq<Event>, id: Id)
    requires Drained(cfg, inputs, checks, pending, sent, was) && id in pending
    ensures Drained(cfg, inputs, checks, pending - {id}, sent + Emitted(cfg, pending[id], checks(pending[id])), was)
  {
    LastVersionHasId(inputs, id);
    var more := Emitted(cfg, pending[id], checks(pending[id]));
    EmittedAbout(cfg, pending[id], checks(pending[id]));
    AboutAppended(IdOf, id, sent, more);
    assert more == DueAtTick(cfg, inputs, checks, id);
  }

  /** Every event a run of the loop publishes about an id, in order. */
  function Published(cfg: EngineConfig, inputs: seq<Input>, id: Id): seq<Event> {
    if inputs == [] then []
    else
      var before, last := inputs[..|inputs| - 1], inputs[|inputs| - 1];
      Published(cfg, before, id) + if last.Tick? then DueAtTick(cfg, before, last.checks, id) else []
  }

  /** What was sent is, id by id, what the run should have published. */
  ghost predicate SentAll(cfg: EngineConfig, inputs: seq<Input>, sent: seq<Event>) {
    forall id :: About(IdOf, id, sent) == Published(cfg, inputs, id)
  }

  lemma PublishedNext(cfg: EngineConfig, inputs: seq<Input>, next: Input, id: Id)
    ensures next.Arrival? ==> Published(cfg, inputs + [next], id) == Published(cfg, inputs, id)
    ensures next.Tick? ==>
              Published(cfg, inputs + [next], id)
              == Published(cfg, inputs, id) + DueAtTick(cfg, inputs, next.checks, id)
  {
    assert (inputs + [next])[..|inputs|] == inputs;
    assert Published(cfg, inputs, id) + [] == Published(cfg, inputs, id);
  }

  class FilterTask {
    const cfg: EngineConfig
    var pending: map<Id, Token>
    var outbox: seq<Event>
    ghost var received: seq<Input>

    ghost predicate Valid()
      reads this
    {
      HoldsLatest(pending, received) && SentAll(cfg, received, outbox)
    }

    constructor (cfg: EngineConfig)
      ensures Valid() && this.cfg == cfg && received == [] && outbox == []
    {
      this.cfg := cfg;
      pending, outbox, received := map[], [], [];
    }

    method OnMessage(message: Option<Token>)
      requires Valid()
      modifies this`pending, this`received
      ensures Valid() && received == old(received) + [Arrival(message)]
    {
      if message.Some? {
        pending := pending[message.value.id := message.value];
      }
      forall id { PublishedNext(cfg, received, Arrival(message), id); }
      received := received + [Arrival(message)];
      assert received[..|received| - 1] == old(received);
    }

    method EvaluateAndEmit(token: Token, safety: SafetyResult)
      modifies this`outbox
      ensures outbox == old(outbox) + Emitted(cfg, token, safety)
      ensures |outbox| > |old(outbox)|
      ensures var told := outbox[|old(outbox)|];
              && told.TokenFiltered? && told.tokenId == token.id
              && ReportedThenFailures(token, cfg, safety, told.reasons)
              && (told.passed <==> safety.reasons == [] && Acceptable(token, cfg, safety))
    {
      var result := ApplyFilters(token, cfg, safety);
      var marked := token.(filterPassed := result.passed, failReasons := result.reasons);
      marked := marked.(mintAuthorityRevoked := result.mintRevoked, freezeAuthorityRevoked := result.freezeRevoked);
      marked := marked.(honeypot := result.honeypot, buyTaxPct := result.buyTaxPct, sellTaxPct := result.sellTaxPct);
      outbox := outbox + [TokenFiltered(marked.id, result.passed, result.reasons)];
      if result.passed && cfg.enabled {
        var amount := if marked.chain == "solana" then cfg.buyAmountSol else cfg.buyAmountBnb;
        var amountUsd := if marked.chain == "solana" then amount * 150.0 else amount * 600.0;
        outbox := outbox + [BuySignal(marked, amountUsd, cfg.slippagePct, cfg.jitoTipLamports)];
      }
    }

    /** Drains the batch in whatever order its keys come: each id that arrived since the last tick is evaluated
        once, on its last version, and nothing stays pending. */
    method OnTick(checks: Token -> SafetyResult)
      requires Valid()
      modifies this
      ensures Valid() && received == old(received) + [Tick(checks)] && pending == map[]
      ensures forall id ::
                About(IdOf, id, outbox) == About(IdOf, id, old(outbox)) + DueAtTick(cfg, old(received), checks, id)
    {
      var ids := pending.Keys;
      while ids != {}
        invariant pending.Keys == ids && received == old(received)
        invariant Drained(cfg, received, checks, pending, outbox, old(outbox))
      {
        var id :| id in ids;
        DrainOne(cfg, received, checks, pending, outbox, old(outbox), id);
        var token := pending[id];
        pending := pending - {id};
        EvaluateAndEmit(token, checks(token));
        ids := ids - {id};
      }
      forall id { PublishedNext(cfg, received, Tick(checks), id); }
      received := received + [Tick(checks)];
    }
  }

  /* ----- whole runs ----- */

  /** `loose` differs from `strict` only in being no stricter on any threshold. */
  predicate NoStricter(loose: EngineConfig, strict: EngineConfig) {
    && loose.minLiquidityUsd <= strict.minLiquidityUsd
    && loose.maxTokenAgeSeconds >= strict.maxTokenAgeSeconds
    && loose.minHolders <= strict.minHolders
    && loose.maxTop10Pct >= strict.maxTop10Pct
    && loose.maxRugScore >= strict.maxRugScore
    && loose.minVolumeUsd <= strict.minVolumeUsd
    && loose.enabled == strict.enabled
    && loose.buyAmountSol == strict.buyAmountSol && loose.buyAmountBnb == strict.buyAmountBnb
    && loose.slippagePct == strict.slippagePct && loose.jitoTipLamports == strict.jitoTipLamports
  }

  /** A buy signal is published about an id exactly when, at some tick, the last version received was
      acceptable, nothing was reported about it, and buying is enabled; it carries that version, marked. */
  lemma {:induction false} BuysExactlyWhen(cfg: EngineConfig, inputs: seq<Input>, id: Id, e: Event)
    requires e.BuySignal?
    ensures e in Published(cfg, inputs, id) <==>
              exists i :: 0 <= i < |inputs| && BuysAt(cfg, inputs, i, id, e)
  {
    if inputs != [] {
      var n := |inputs| - 1;
      var before := inputs[..n];
      BuysExactlyWhen(cfg, before, id, e);
      BuysNow(cfg, inputs, n, id, e);
      forall i | 0 <= i < n ensures BuysAt(cfg, inputs, i, id, e) <==> BuysAt(cfg, before, i, id, e) {
        assert before[..i] == inputs[..i];
      }
    }
  }

  lemma BuysNow(cfg: EngineConfig, inputs: seq<Input>, n: nat, id: Id, e: Event)
    requires n < |inputs| && e.BuySignal?
    ensures BuysAt(cfg, inputs, n, id, e)
       <==> inputs[n].Tick? && e in DueAtTick(cfg, inputs[..n], inputs[n].checks, id)
  {
    if inputs[n].Tick? && LastVersion(inputs[..n], id).Some? {
      var token := LastVersion(inputs[..n], id).value;
      VerdictExactly(token, cfg, inputs[n].checks(token));
    }
  }

  ghost predicate BuysAt(cfg: EngineConfig, inputs: seq<Input>, i: nat, id: Id, e: Event)
    requires i < |inputs| && e.BuySignal?
  {
    && inputs[i].Tick?
    && LastVersion(inputs[..i], id).Some?
    && var token := LastVersion(inputs[..i], id).value;
       var safety := inputs[i].checks(token);
       && cfg.enabled && safety.reasons == [] && Acceptable(token, cfg, safety)
       && e.token == token.(filterPassed := true, failReasons := [],
                            mintAuthorityRevoked := safety.mintRevoked, freezeAuthorityRevoked := safety.freezeRevoked,
                            honeypot := false, buyTaxPct := safety.buyTaxPct, sellTaxPct := safety.sellTaxPct)
       && e.amountUsd == BuyAmountUsd(cfg, token.chain)
       && e.slippagePct == cfg.slippagePct && e.jitoTipLamports == cfg.jitoTipLamports
  }

  /** Loosening thresholds loses no buy signal of any run. */
  lemma LooserBuysMore(strict: EngineConfig, loose: EngineConfig, inputs: seq<Input>, id: Id, e: Event)
    requires NoStricter(loose, strict) && e.BuySignal? && e in Published(strict, inputs, id)
    ensures e in Published(loose, inputs, id)
  {
    BuysExactlyWhen(strict, inputs, id, e);
    BuysExactlyWhen(loose, inputs, id, e);
    var i :| 0 <= i < |inputs| && BuysAt(strict, inputs, i, id, e);
    StillBuys(strict, loose, inputs, i, id, e);
  }

  lemma StillBuys(strict: EngineConfig, loose: EngineConfig, inputs: seq<Input>, i: nat, id: Id, e: Event)
    requires NoStricter(loose, strict) && e.BuySignal? && i < |inputs| && BuysAt(strict, inputs, i, id, e)
    ensures BuysAt(loose, inputs, i, id, e)
  {
  }

  /** Every buy signal carries a token that meets the thresholds it was judged by. */
  lemma BuysAreSound(cfg: EngineConfig, inputs: seq<Input>, id: Id, e: Event)
    requires e.BuySignal? && e in Published(cfg, inputs, id)
    ensures cfg.enabled && e.token.id == id && e.token.filterPassed && e.token.failReasons == [] && !e.token.honeypot
    ensures e.token.liquidityUsd >= cfg.minLiquidityUsd && e.token.volumeUsd >= cfg.minVolumeUsd
    ensures e.token.ageSeconds <= cfg.maxTokenAgeSeconds && e.token.holders >= cfg.minHolders
    ensures e.token.top10Pct <= cfg.maxTop10Pct && e.token.rugScore <= cfg.maxRugScore
    ensures e.token.buyTaxPct <= 10.0 && e.token.sellTaxPct <= 10.0
  {
    BuysExactlyWhen(cfg, inputs, id, e);
    var i :| 0 <= i < |inputs| && BuysAt(cfg, inputs, i, id, e);
    LastVersionHasId(inputs[..i], id);
  }
}
