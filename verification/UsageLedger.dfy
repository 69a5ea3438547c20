/** Token and cost accounting of `AgentTranscriptSink`: what each operation does to the records, the
    live figure of the attempt in flight, the run's guard and the usage events. */
module UsageLedger {
  import JsText

  datatype Option<+T> = None | Some(value: T)

  type AgentId = string

  datatype Tokens = Tokens(input: int, output: int, cacheRead: int, cacheWrite: int)

  const ZERO_TOKENS := Tokens(0, 0, 0, 0)

  function SumTokens(t: Tokens): int {
    t.input + t.output + t.cacheRead + t.cacheWrite
  }

  function AddTokens(a: Tokens, b: Tokens): Tokens {
    Tokens(a.input + b.input, a.output + b.output, a.cacheRead + b.cacheRead, a.cacheWrite + b.cacheWrite)
  }

  datatype Rates = Rates(input: real, output: real, cacheRead: real, cacheWrite: real)

  /** No rates means the price is unknown, which is not the same as free. */
  function PriceCall(t: Tokens, rates: Option<Rates>): Option<real> {
    if rates == None then None
    else
      Some(t.input as real * rates.value.input + t.output as real * rates.value.output +
           t.cacheRead as real * rates.value.cacheRead + t.cacheWrite as real * rates.value.cacheWrite)
  }

  function OrZero(price: Option<real>): real {
    if price.Some? then price.value else 0.0
  }

  /** The run's pinned prices, by `provider/model`. */
  type PriceBook = map<string, Rates>

  function RatesFor(book: PriceBook, provider: string, model: string): Option<Rates> {
    var key := provider + "/" + model;
    if key in book then Some(book[key]) else None
  }

  datatype Reason = Aborted | Terminal | OtherReason(text: string)

  datatype GatewayResult =
    | Ok(tokens: Tokens, provider: string, model: string, partial: bool, unmapped: seq<string>)
    | Failed(reason: Reason, provider: string, usage: Option<Tokens>, partial: bool, estimated: bool,
      unmapped: seq<string>)

  datatype State = Queued | Running | Done | Fail | Refused

  datatype Record = Record(
    state: State, ended: bool, provider: string, model: string,
    tokens: Option<Tokens>, costUSD: Option<real>, unpriced: Option<bool>,
    partial: bool, estimated: bool, unmapped: seq<string>,
    schemaExhausted: bool, reaskCount: Option<nat>)

  /** The event of a success also names the model; that of a failure names the reason instead. */
  datatype UsageEvent = UsageEvent(
    agentId: AgentId, reason: Option<Reason>, provider: string, model: Option<string>,
    tokens: Option<Tokens>, costUSD: Option<real>, unpriced: Option<bool>,
    partial: bool, estimated: bool, unmapped: seq<string>,
    schemaExhausted: bool, reaskCount: Option<nat>)

  /** `live` is the figure streamed by the attempt in flight; the last two totals are the guard's. */
  datatype Sink = Sink(
    records: map<AgentId, Record>, live: map<AgentId, Tokens>, events: seq<UsageEvent>,
    spentTokens: int, spentUsd: real)

  const EMPTY := Sink(map[], map[], [], 0, 0.0)

  // ----- operations -----

  function Blank(state: State): Record {
    Record(state, false, "", "", None, None, None, false, false, [], false, None)
  }

  function MarkQueued(s: Sink, a: AgentId): Sink {
    s.(records := s.records[a := Blank(Queued)])
  }

  function MarkRunning(s: Sink, a: AgentId): Sink {
    s.(records := s.records[a := (if a in s.records then s.records[a] else Blank(Running)).(state := Running)])
  }

  function MarkRefused(s: Sink, a: AgentId): Sink {
    var existing := if a in s.records then s.records[a] else Blank(Refused);
    s.(records := s.records[a := existing.(state := Refused, ended := true,
                                           tokens := Some(ZERO_TOKENS), costUSD := Some(0.0), unpriced := Some(false))])
  }

  /** What the run manager does with an error that comes out of a call: the record, unless it is terminal
      already, becomes a refused one. */
  function RefuseUnfinished(s: Sink, a: AgentId): Sink {
    if a in s.records && s.records[a].state in {Queued, Running} then MarkRefused(s, a) else s
  }

  function MarkHarness(s: Sink, a: AgentId, model: string, provider: string): Sink {
    if a !in s.records then s else s.(records := s.records[a := s.records[a].(model := model, provider := provider)])
  }

  /** Ignored without a record, and once the record has ended. */
  function MarkUsage(s: Sink, a: AgentId, t: Tokens): Sink {
    if a in s.records && !s.records[a].ended then s.(live := s.live[a := t]) else s
  }

  function OrElse(a: string, b: string): string {
    if a != "" then a else b
  }

  function Prev(s: Sink, a: AgentId): Record {
    if a in s.records then s.records[a] else Blank(Running)
  }

  datatype CaptureOpts = CaptureOpts(final: bool, schemaExhausted: bool, reaskCount: Option<nat>)

  const PLAIN := CaptureOpts(true, false, None)

  function Capture(book: PriceBook, s: Sink, a: AgentId, r: GatewayResult, opts: CaptureOpts): Sink {
    if r.Ok? then CaptureOk(book, s, a, r, opts) else CaptureFailed(book, s, a, r)
  }

  /** A call's totals over its attempts so far. */
  datatype Spending = Spending(tokens: Tokens, costUSD: real, unpriced: bool, partial: bool, estimated: bool)

  /** What the earlier attempts used; absent means none. */
  function Earlier(prev: Record): Tokens {
    if prev.tokens.Some? then prev.tokens.value else ZERO_TOKENS
  }

  function OkSpending(book: PriceBook, prev: Record, provider: string, model: string, r: GatewayResult): Spending
    requires r.Ok?
  {
    var priced := PriceCall(r.tokens, RatesFor(book, provider, model));
    Spending(AddTokens(Earlier(prev), r.tokens), OrZero(prev.costUSD) + OrZero(priced),
             prev.unpriced == Some(true) || priced.None?, prev.partial || r.partial, false)
  }

  function OkRecord(provider: string, model: string, t: Spending, unmapped: seq<string>, opts: CaptureOpts): Record {
    if opts.final then
      Record(Done, true, provider, model, Some(t.tokens), Some(t.costUSD), Some(t.unpriced), t.partial, t.estimated,
             unmapped, opts.schemaExhausted, opts.reaskCount)
    else
      Record(Running, false, provider, model, Some(t.tokens), Some(t.costUSD), Some(t.unpriced), t.partial,
             t.estimated, unmapped, false, None)
  }

  function OkEvent(a: AgentId, provider: string, model: string, t: Spending, unmapped: seq<string>,
        opts: CaptureOpts): UsageEvent {
    UsageEvent(a, None, provider, Some(model), Some(t.tokens), Some(t.costUSD), Some(t.unpriced), t.partial,
               t.estimated, unmapped, opts.schemaExhausted, opts.reaskCount)
  }

  /** Charges this attempt, adds it to the record, and ends the record only when the attempt is final. */
  function CaptureOk(book: PriceBook, s: Sink, a: AgentId, r: GatewayResult, opts: CaptureOpts): Sink
    requires r.Ok?
  {
    var prev := Prev(s, a);
    var provider, model := OrElse(prev.provider, r.provider), OrElse(prev.model, r.model);
    var t, unmapped := OkSpending(book, prev, provider, model, r), prev.unmapped + r.unmapped;
    s.(live := s.live - {a},
       spentTokens := s.spentTokens + SumTokens(r.tokens),
       spentUsd := s.spentUsd + OrZero(PriceCall(r.tokens, RatesFor(book, provider, model))),
       records := s.records[a := OkRecord(provider, model, t, unmapped, opts)],
       events := if opts.final then s.events + [OkEvent(a, provider, model, t, unmapped, opts)] else s.events)
  }

  /** Nothing is known when neither this attempt nor an earlier one reported anything. A zero figure is priced
      exactly even when the rates are unknown. */
  function FailedUsage(book: PriceBook, prev: Record, provider: string, r: GatewayResult): Option<Spending>
    requires r.Failed?
  {
    if r.usage.None? && prev.tokens.None? then None
    else
      var tokens := if r.usage.Some? then r.usage.value else ZERO_TOKENS;
      var priced := PriceCall(tokens, RatesFor(book, provider, prev.model));
      Some(Spending(
             AddTokens(Earlier(prev), tokens),
             OrZero(prev.costUSD) + (if r.usage.Some? then OrZero(priced) else 0.0),
             prev.unpriced == Some(true) || (r.usage.Some? && priced.None? && SumTokens(tokens) > 0),
             prev.partial || r.partial, r.estimated))
  }

  function FailedRecord(prev: Record, provider: string, u: Option<Spending>, unmapped: seq<string>): Record {
    match u
    case None =>
      Record(Fail, true, provider, prev.model, Some(ZERO_TOKENS), Some(0.0), Some(false), false, false, unmapped, false,
             None)
    case Some(v) =>
      Record(Fail, true, provider, prev.model, Some(v.tokens), Some(v.costUSD), Some(v.unpriced), v.partial,
             v.estimated, unmapped, false, None)
  }

  function FailedEvent(a: AgentId, reason: Reason, provider: string, u: Option<Spending>,
        unmapped: seq<string>): UsageEvent {
    match u
    case None => UsageEvent(a, Some(reason), provider, None, None, None, None, false, false, unmapped, false, None)
    case Some(v) =>
      UsageEvent(a, Some(reason), provider, None, Some(v.tokens), Some(v.costUSD), Some(v.unpriced), v.partial,
             v.estimated,     unmapped, false, None)
  }

  /** A failure is charged only for what it reports itself; what earlier attempts left is kept. */
  function CaptureFailed(book: PriceBook, s: Sink, a: AgentId, r: GatewayResult): Sink
    requires r.Failed?
  {
    var prev := Prev(s, a);
    var provider, unmapped := OrElse(prev.provider, r.provider), prev.unmapped + r.unmapped;
    var u := FailedUsage(book, prev, provider, r);
    s.(live := s.live - {a},
       spentTokens := if r.usage.Some? then s.spentTokens + SumTokens(r.usage.value) else s.spentTokens,
       spentUsd := if r.usage.Some? then
                     s.spentUsd + OrZero(PriceCall(r.usage.value, RatesFor(book, provider, prev.model)))
                   else s.spentUsd,
       records := s.records[a := FailedRecord(prev, provider, u, unmapped)],
       events := s.events + [FailedEvent(a, r.reason, provider, u, unmapped)])
  }

  /** `Math.ceil(text.length / 4)` over the text the attempt dispatched, in UTF-16 units. */
  function EstimateInputTokens(text: string): nat {
    (JsText.Length(text) + 3) / 4
  }

  /** An aborted result without a real figure is charged an estimate, if anything was dispatched. */
  function ApplyAbortEstimate(r: GatewayResult, dispatched: Option<string>): GatewayResult {
    if r.Ok? || r.reason != Aborted || dispatched.None? then r
    else if r.usage.Some? && SumTokens(r.usage.value) > 0 then r
    else r.(usage := Some(Tokens(EstimateInputTokens(dispatched.value), 0, 0, 0)), partial := true, estimated := true)
  }

  /** `_finalizeAborted`: close the record with whatever the attempt in flight had streamed. */
  function FinalizeAborted(book: PriceBook, s: Sink, a: AgentId, dispatched: Option<string>): Sink {
    Capture(book, s, a, AbortedResult(Live(s, a), dispatched), PLAIN)
  }

  function Live(s: Sink, a: AgentId): Tokens {
    if a in s.live then s.live[a] else ZERO_TOKENS
  }

  /** What the executor itself reports of an attempt it gives up on, before any estimate. */
  function GivenUp(live: Tokens): GatewayResult {
    Failed(Aborted, "", Some(live), true, false, [])
  }

  function AbortedResult(live: Tokens, dispatched: Option<string>): GatewayResult {
    ApplyAbortEstimate(GivenUp(live), dispatched)
  }

  // ----- conservation -----

  datatype Amount = Amount(tokens: int, usd: real)

  const NOTHING := Amount(0, 0.0)

  function Plus(x: Amount, y: Amount): Amount {
    Amount(x.tokens + y.tokens, x.usd + y.usd)
  }

  lemma PlusNothing(x: Amount)
    ensures Plus(NOTHING, x) == x && Plus(x, NOTHING) == x
  {
  }

  /** What a record says was spent; an absent figure counts as zero. */
  function Spent(r: Record): Amount {
    Amount(if r.tokens.Some? then SumTokens(r.tokens.value) else 0, if r.costUSD.Some? then r.costUSD.value else 0.0)
  }

  function SpentIn(records: map<AgentId, Record>, a: AgentId): Amount {
    if a in records then Spent(records[a]) else NOTHING
  }

  ghost function Total(records: map<AgentId, Record>): Amount
    decreases |records|
  {
    if records == map[] then NOTHING
    else
      var a :| a in records;
      Plus(Spent(records[a]), Total(records - {a}))
  }

  lemma {:induction false} TotalTake(records: map<AgentId, Record>, a: AgentId)
    requires a in records
    ensures Total(records) == Plus(Spent(records[a]), Total(records - {a}))
    decreases |records|
  {
    hide Spent;
    var b :| b in records && Total(records) == Plus(Spent(records[b]), Total(records - {b}));
    if a != b {
      TotalTake(records - {b}, a);
      TotalTake(records - {a}, b);
      var rest := records - {a} - {b};
      assert rest == records - {b} - {a};
      assert Total(records) == Plus(Spent(records[b]), Plus(Spent(records[a]), Total(rest)));
      assert Total(records - {a}) == Plus(Spent(records[b]), Total(rest));
    }
  }

  lemma TotalOne(records: map<AgentId, Record>, a: AgentId)
    requires records.Keys == {a}
    ensures Total(records) == Spent(records[a])
  {
    hide Spent;
    TotalTake(records, a);
    assert records - {a} == map[];
    PlusNothing(Spent(records[a]));
  }

  /** Rewriting one record moves the total by that record's own change. */
  lemma TotalPut(records: map<AgentId, Record>, a: AgentId, r: Record)
    ensures Total(records[a := r]).tokens == Total(records).tokens + Spent(r).tokens - SpentIn(records, a).tokens
    ensures Total(records[a := r]).usd == Total(records).usd + Spent(r).usd - SpentIn(records, a).usd
  {
    hide Spent;
    TotalTake(records[a := r], a);
    assert records[a := r] - {a} == records - {a};
    if a in records {
      TotalTake(records, a);
    } else {
      assert records - {a} == records;
    }
  }

  /** What the guard was charged beyond what the records show. */
  ghost function TokenGap(s: Sink): int {
    s.spentTokens - Total(s.records).tokens
  }

  ghost function CostGap(s: Sink): real {
    s.spentUsd - Total(s.records).usd
  }

  ghost function Gap(s: Sink): Amount {
    Amount(TokenGap(s), CostGap(s))
  }

  /** A record has a cost exactly when it has tokens. */
  ghost predicate Paired(s: Sink) {
    forall a :: a in s.records ==> (s.records[a].tokens.Some? <==> s.records[a].costUSD.Some?)
  }

  /** The guard's totals are the sum over agents of the totals on their records. */
  ghost predicate Conserved(s: Sink) {
    Gap(s) == NOTHING
  }

  /** Only one record was written, the guard moved by exactly what that record moved, and the record
      has both figures or neither. */
  ghost predicate Charges(s: Sink, t: Sink, a: AgentId) {
    && a in t.records && t.records == s.records[a := t.records[a]]
    && t.spentTokens - s.spentTokens == SpentIn(t.records, a).tokens - SpentIn(s.records, a).tokens
    && t.spentUsd - s.spentUsd == SpentIn(t.records, a).usd - SpentIn(s.records, a).usd
    && (t.records[a].tokens.Some? <==> t.records[a].costUSD.Some?)
  }

  lemma ChargesTokens(s: Sink, t: Sink, a: AgentId)
    requires Charges(s, t, a)
    ensures TokenGap(t) == TokenGap(s)
  {
    TotalPut(s.records, a, t.records[a]);
    hide Total, Spent;
  }

  lemma ChargesCost(s: Sink, t: Sink, a: AgentId)
    requires Charges(s, t, a)
    ensures CostGap(t) == CostGap(s)
  {
    TotalPut(s.records, a, t.records[a]);
    hide Total, Spent;
  }

  lemma ChargesConserve(s: Sink, t: Sink, a: AgentId)
    requires Paired(s) && Charges(s, t, a)
    ensures Paired(t) && Gap(t) == Gap(s)
  {
    ChargesTokens(s, t, a);
    ChargesCost(s, t, a);
    hide TokenGap, CostGap, SpentIn;
  }

  lemma CaptureOkCharges(book: PriceBook, s: Sink, a: AgentId, r: GatewayResult, opts: CaptureOpts)
    requires Paired(s) && r.Ok?
    ensures Charges(s, CaptureOk(book, s, a, r, opts), a)
  {
    hide Total, PriceCall;
  }

  lemma CaptureFailedCharges(book: PriceBook, s: Sink, a: AgentId, r: GatewayResult)
    requires Paired(s) && r.Failed?
    ensures Charges(s, CaptureFailed(book, s, a, r), a)
  {
    hide Total, PriceCall;
  }

  /** One capture charges the guard exactly what it adds to the record: final or not, failed or not, with
      or without usage of its own, whatever the record already held. */
  lemma CaptureConserves(book: PriceBook, s: Sink, a: AgentId, r: GatewayResult, opts: CaptureOpts)
    requires Paired(s)
    ensures Paired(Capture(book, s, a, r, opts)) && Gap(Capture(book, s, a, r, opts)) == Gap(s)
  {
    if r.Ok? {
      CaptureOkCharges(book, s, a, r, opts);
    } else {
      CaptureFailedCharges(book, s, a, r);
    }
    hide Paired, Gap, Charges, CaptureOk, CaptureFailed;
    ChargesConserve(s, Capture(book, s, a, r, opts), a);
  }

  lemma ForgettingTokens(s: Sink, t: Sink, a: AgentId, r: Record)
    requires Spent(r) == NOTHING && t.records == s.records[a := r] && t.spentTokens == s.spentTokens
    ensures TokenGap(t) == TokenGap(s) + SpentIn(s.records, a).tokens
  {
    TotalPut(s.records, a, r);
    hide Total, Spent;
  }

  lemma ForgettingCost(s: Sink, t: Sink, a: AgentId, r: Record)
    requires Spent(r) == NOTHING && t.records == s.records[a := r] && t.spentUsd == s.spentUsd
    ensures CostGap(t) == CostGap(s) + SpentIn(s.records, a).usd
  {
    TotalPut(s.records, a, r);
    hide Total, Spent;
  }

  /** Queuing over, or refusing, a record forgets what it held. */
  lemma QueueForgets(s: Sink, a: AgentId)
    requires Paired(s)
    ensures Paired(MarkQueued(s, a)) && Gap(MarkQueued(s, a)) == Plus(Gap(s), SpentIn(s.records, a))
    ensures Paired(MarkRefused(s, a)) && Gap(MarkRefused(s, a)) == Plus(Gap(s), SpentIn(s.records, a))
  {
    var queued, refused := MarkQueued(s, a), MarkRefused(s, a);
    ForgettingTokens(s, queued, a, queued.records[a]);
    ForgettingCost(s, queued, a, queued.records[a]);
    ForgettingTokens(s, refused, a, refused.records[a]);
    ForgettingCost(s, refused, a, refused.records[a]);
    hide TokenGap, CostGap;
  }

  /** So the totals still agree exactly when that was nothing. */
  lemma QueueConservesIff(s: Sink, a: AgentId)
    requires Paired(s) && Conserved(s)
    ensures Conserved(MarkQueued(s, a)) <==> SpentIn(s.records, a) == NOTHING
    ensures Conserved(MarkRefused(s, a)) <==> SpentIn(s.records, a) == NOTHING
  {
    hide Gap, Paired, SpentIn, Plus, MarkQueued, MarkRefused;
    QueueForgets(s, a);
    PlusNothing(SpentIn(s.records, a));
  }

  /** Running, harness stamps and streamed figures charge nothing. */
  lemma MarksConserve(s: Sink, a: AgentId, model: string, provider: string, t: Tokens)
    requires Paired(s)
    ensures Paired(MarkRunning(s, a)) && Gap(MarkRunning(s, a)) == Gap(s)
    ensures Paired(MarkHarness(s, a, model, provider)) && Gap(MarkHarness(s, a, model, provider)) == Gap(s)
    ensures Paired(MarkUsage(s, a, t)) && Gap(MarkUsage(s, a, t)) == Gap(s)
  {
    ChargesConserve(s, MarkRunning(s, a), a);
    if a in s.records {
      ChargesConserve(s, MarkHarness(s, a, model, provider), a);
    }
  }

  /** A figure that streams in after the record has ended changes nothing. */
  lemma LateUsageIgnored(s: Sink, a: AgentId, t: Tokens)
    requires a in s.records && s.records[a].ended
    ensures MarkUsage(s, a, t) == s
  {
  }

  // ----- nothing negative -----

  predicate Sensible(t: Tokens) {
    t.input >= 0 && t.output >= 0 && t.cacheRead >= 0 && t.cacheWrite >= 0
  }

  predicate FairRates(r: Rates) {
    r.input >= 0.0 && r.output >= 0.0 && r.cacheRead >= 0.0 && r.cacheWrite >= 0.0
  }

  predicate FairBook(book: PriceBook) {
    forall k :: k in book ==> FairRates(book[k])
  }

  predicate FairResult(r: GatewayResult) {
    if r.Ok? then Sensible(r.tokens) else r.usage.Some? ==> Sensible(r.usage.value)
  }

  predicate AtLeastNothing(x: Amount) {
    x.tokens >= 0 && x.usd >= 0.0
  }

  /** No record and no streamed figure is below zero. */
  ghost predicate FairSink(s: Sink) {
    && (forall a :: a in s.records ==> AtLeastNothing(Spent(s.records[a])))
    && (forall a :: a in s.live ==> Sensible(s.live[a]))
  }

  lemma FairProduct(n: int, rate: real)
    requires n >= 0 && rate >= 0.0
    ensures n as real * rate >= 0.0
  {
  }

  lemma FairPrice(book: PriceBook, provider: string, model: string, t: Tokens)
    requires FairBook(book) && Sensible(t)
    ensures OrZero(PriceCall(t, RatesFor(book, provider, model))) >= 0.0 && SumTokens(t) >= 0
  {
    var rates := RatesFor(book, provider, model);
    if rates.Some? {
      assert FairRates(rates.value);
      FairProduct(t.input, rates.value.input);
      FairProduct(t.output, rates.value.output);
      FairProduct(t.cacheRead, rates.value.cacheRead);
      FairProduct(t.cacheWrite, rates.value.cacheWrite);
    }
  }

  /** A fair result leaves the records fair. */
  lemma CaptureFair(book: PriceBook, s: Sink, a: AgentId, r: GatewayResult, opts: CaptureOpts)
    requires FairBook(book) && FairSink(s) && FairResult(r)
    ensures FairSink(Capture(book, s, a, r, opts))
  {
    var prev, t := Prev(s, a), Capture(book, s, a, r, opts);
    var provider := OrElse(prev.provider, r.provider);
    assert AtLeastNothing(Spent(prev));
    if r.Ok? {
      FairPrice(book, provider, OrElse(prev.model, r.model), r.tokens);
    } else if r.usage.Some? {
      FairPrice(book, provider, prev.model, r.usage.value);
    }
    hide PriceCall, RatesFor, OrElse;
    assert AtLeastNothing(Spent(t.records[a]));
    hide Spent;
  }

  lemma AbortFair(s: Sink, a: AgentId, r: GatewayResult, dispatched: Option<string>)
    requires FairSink(s)
    ensures FairResult(AbortedResult(Live(s, a), dispatched))
    ensures FairResult(r) ==> FairResult(ApplyAbortEstimate(r, dispatched))
  {
  }

  // ----- events -----

  /** The event carries the record's figures, an absent one meaning zero. */
  ghost predicate SameTotals(e: UsageEvent, r: Record) {
    && (if e.tokens.Some? then e.tokens == r.tokens else r.tokens == Some(ZERO_TOKENS))
    && (if e.costUSD.Some? then e.costUSD == r.costUSD else r.costUSD == Some(0.0))
    && (if e.unpriced.Some? then e.unpriced == r.unpriced else r.unpriced == Some(false))
    && e.partial == r.partial && e.estimated == r.estimated && e.unmapped == r.unmapped
    && e.schemaExhausted == r.schemaExhausted && e.reaskCount == r.reaskCount
  }

  /** The event names this backend; a failure's names no model. */
  predicate Names(e: UsageEvent, model: string, provider: string) {
    e.provider == provider && (e.model.Some? ==> e.model.value == model)
  }

  function EventsOf(events: seq<UsageEvent>, a: AgentId): seq<UsageEvent> {
    if events == [] then []
    else
      var last := events[|events| - 1];
      EventsOf(events[..|events| - 1], a) + (if last.agentId == a then [last] else [])
  }

  lemma EventsOfNext(events: seq<UsageEvent>, e: UsageEvent, a: AgentId)
    ensures EventsOf(events + [e], a) == EventsOf(events, a) + (if e.agentId == a then [e] else [])
  {
    assert (events + [e])[..|events|] == events;
  }

  ghost predicate Reports(e: UsageEvent, a: AgentId, r: GatewayResult, rec: Record) {
    && e.agentId == a && SameTotals(e, rec) && Names(e, rec.model, rec.provider)
    && (e.reason == if r.Failed? then Some(r.reason) else None) && (e.model.Some? <==> r.Ok?)
  }

  lemma OkReports(a: AgentId, r: GatewayResult, provider: string, model: string, t: Spending, unmapped: seq<string>,
        opts: CaptureOpts)
    requires r.Ok? && opts.final
    ensures Reports(OkEvent(a, provider, model, t, unmapped, opts), a, r, OkRecord(provider, model, t, unmapped, opts))
  {
  }

  lemma FailureReports(a: AgentId, r: GatewayResult, prev: Record, provider: string, u: Option<Spending>,
        unmapped: seq<string>)
    requires r.Failed?
    ensures Reports(FailedEvent(a, r.reason, provider, u, unmapped), a, r, FailedRecord(prev, provider, u, unmapped))
  {
  }

  /** A final capture ends the record and emits one event that carries its figures; one that will retry
      leaves the record running and emits none. Nothing about any other agent changes. */
  lemma CaptureEmits(book: PriceBook, s: Sink, a: AgentId, r: GatewayResult, opts: CaptureOpts)
    ensures var t := Capture(book, s, a, r, opts);
            a in t.records && t.records == s.records[a := t.records[a]] && t.live == s.live - {a}
    ensures var t := Capture(book, s, a, r, opts);
            r.Ok? && !opts.final ==> t.events == s.events && !t.records[a].ended && t.records[a].state == Running
    ensures var t := Capture(book, s, a, r, opts);
            r.Failed? || opts.final ==>
              && t.records[a].ended && t.records[a].state == (if r.Ok? then Done else Fail)
              && |t.events| == |s.events| + 1 && t.events[..|s.events|] == s.events
              && Reports(t.events[|s.events|], a, r, t.records[a])
  {
    hide PriceCall, RatesFor, OrZero, SumTokens, AddTokens, OkSpending, FailedUsage, OkEvent, FailedEvent, Reports,
      OrElse;
    var prev := Prev(s, a);
    var provider, model, unmapped := OrElse(prev.provider, r.provider),
                                     if r.Ok? then OrElse(prev.model, r.model) else "",
                                     prev.unmapped + r.unmapped;
    if r.Failed? {
      FailureReports(a, r, prev, provider, FailedUsage(book, prev, provider, r), unmapped);
    } else if opts.final {
      OkReports(a, r, provider, model, OkSpending(book, prev, provider, model, r), unmapped, opts);
    }
  }

  // ----- aborts -----

  /** The figure a failed attempt comes with. */
  function Figure(r: GatewayResult): int
    requires r.Failed?
  {
    if r.usage.Some? then SumTokens(r.usage.value) else 0
  }

  /** What an aborted attempt that dispatched `text` reports, whether the executor gave up on it or the gateway
      itself answered that it was aborted: its own figure when it has one, otherwise the estimate. */
  lemma AbortReports(r: GatewayResult, text: string)
    requires r.Failed? && r.reason == Aborted
    ensures var e := ApplyAbortEstimate(r, Some(text));
            if Figure(r) > 0 then e == r
            else e == r.(usage := Some(Tokens(EstimateInputTokens(text), 0, 0, 0)), partial := true, estimated := true)
  {
  }

  lemma FailureCharges(book: PriceBook, s: Sink, a: AgentId, r: GatewayResult)
    requires r.Failed? && r.usage.Some?
    ensures var t := Capture(book, s, a, r, PLAIN);
            && t.spentTokens == s.spentTokens + SumTokens(r.usage.value) && a in t.records
            && t.records[a].estimated == r.estimated && (r.partial ==> t.records[a].partial)
            && t.records[a].state == Fail
  {
    hide PriceCall, AddTokens, SumTokens, OrZero;
  }

  lemma FinalizeIsCapture(book: PriceBook, s: Sink, a: AgentId, dispatched: Option<string>)
    ensures FinalizeAborted(book, s, a, dispatched)
         == Capture(book, s, a, ApplyAbortEstimate(GivenUp(Live(s, a)), dispatched), PLAIN)
    ensures GivenUp(Live(s, a)).Failed? && GivenUp(Live(s, a)).reason == Aborted && GivenUp(Live(s, a)).partial
    ensures Figure(GivenUp(Live(s, a))) == SumTokens(Live(s, a)) && !GivenUp(Live(s, a)).estimated
  {
    hide Capture, SumTokens, Live;
  }

  lemma EstimateAtLeastOne(text: string)
    ensures SumTokens(Tokens(EstimateInputTokens(text), 0, 0, 0)) == EstimateInputTokens(text)
    ensures text != "" ==> EstimateInputTokens(text) >= 1
  {
  }

  /** An aborted attempt that dispatched `text` charges its own figure when it has one, and otherwise the
      estimate, never both; at least one token once the text is not empty. An estimate is marked as one. */
  lemma AbortedCharges(book: PriceBook, s: Sink, a: AgentId, r: GatewayResult, text: string)
    requires r.Failed? && r.reason == Aborted
    ensures var t := Capture(book, s, a, ApplyAbortEstimate(r, Some(text)), PLAIN);
            && t.spentTokens - s.spentTokens == (if Figure(r) > 0 then Figure(r) else EstimateInputTokens(text))
            && (text != "" ==> t.spentTokens - s.spentTokens >= 1)
            && a in t.records && t.records[a].estimated == (r.estimated || Figure(r) <= 0)
            && ((r.partial || Figure(r) <= 0) ==> t.records[a].partial) && t.records[a].state == Fail
  {
    EstimateAtLeastOne(text);
    AbortReports(r, text);
    var e := ApplyAbortEstimate(r, Some(text));
    assert e.Failed? && e.usage.Some?
      && SumTokens(e.usage.value) == if Figure(r) > 0 then Figure(r) else EstimateInputTokens(text);
    hide *;
    FailureCharges(book, s, a, e);
  }

  /** An attempt the executor gives up on after dispatching `text` charges what had streamed, or the estimate. */
  lemma AbortCharges(book: PriceBook, s: Sink, a: AgentId, text: string)
    ensures var t := FinalizeAborted(book, s, a, Some(text));
            var streamed := SumTokens(Live(s, a));
            && t.spentTokens - s.spentTokens == (if streamed > 0 then streamed else EstimateInputTokens(text))
            && (text != "" ==> t.spentTokens - s.spentTokens >= 1)
            && a in t.records && (t.records[a].estimated <==> streamed <= 0) && t.records[a].partial
            && t.records[a].state == Fail
  {
    hide *;
    FinalizeIsCapture(book, s, a, Some(text));
    AbortedCharges(book, s, a, GivenUp(Live(s, a)), text);
  }

  /** An abort before anything was dispatched charges what had streamed and estimates nothing. */
  lemma AbortUndispatched(book: PriceBook, s: Sink, a: AgentId)
    ensures var t := FinalizeAborted(book, s, a, None);
            && t.spentTokens - s.spentTokens == SumTokens(Live(s, a))
            && a in t.records && !t.records[a].estimated && t.records[a].partial && t.records[a].state == Fail
  {
    hide *;
    FinalizeIsCapture(book, s, a, None);
    NoEstimate(Live(s, a));
    FailureCharges(book, s, a, GivenUp(Live(s, a)));
  }

  lemma NoEstimate(live: Tokens)
    ensures ApplyAbortEstimate(GivenUp(live), None) == GivenUp(live) && GivenUp(live).usage == Some(live)
  {
  }
}
