/** What a call's record and usage event show after a run: column by column, the figures its attempts reported. */
module UsageMeaning {
  import opened UsageLedger
  import opened AgentRuns
  import JsText

  /** One attempt that was captured: the figure it reported, if any, and the backend it is charged to. */
  datatype Charge = Charge(figure: Option<Tokens>, provider: string, model: string, ok: bool, partial: bool,
                           unmapped: seq<string>)

  // ----- sums over attempts -----

  function Inputs(cs: seq<Charge>): int {
    if cs == [] then 0
    else
      var last := cs[|cs| - 1];
      Inputs(cs[..|cs| - 1]) + match last.figure case Some(t) => t.input case None => 0
  }

  function Outputs(cs: seq<Charge>): int {
    if cs == [] then 0
    else
      var last := cs[|cs| - 1];
      Outputs(cs[..|cs| - 1]) + match last.figure case Some(t) => t.output case None => 0
  }

  function CacheReads(cs: seq<Charge>): int {
    if cs == [] then 0
    else
      var last := cs[|cs| - 1];
      CacheReads(cs[..|cs| - 1]) + match last.figure case Some(t) => t.cacheRead case None => 0
  }

  function CacheWrites(cs: seq<Charge>): int {
    if cs == [] then 0
    else
      var last := cs[|cs| - 1];
      CacheWrites(cs[..|cs| - 1]) + match last.figure case Some(t) => t.cacheWrite case None => 0
  }

  /** Each column at its own rate; nothing where no price is known. */
  function Price(book: PriceBook, c: Charge): real {
    var key := c.provider + "/" + c.model;
    if c.figure.None? || key !in book then 0.0
    else
      var t, rates := c.figure.value, book[key];
      t.input as real * rates.input + t.output as real * rates.output
      + t.cacheRead as real * rates.cacheRead + t.cacheWrite as real * rates.cacheWrite
  }

  function Cost(book: PriceBook, cs: seq<Charge>): real {
    if cs == [] then 0.0 else Cost(book, cs[..|cs| - 1]) + Price(book, cs[|cs| - 1])
  }

  /** No price is known, and it is not a failure that used nothing. */
  predicate NoPrice(book: PriceBook, c: Charge) {
    && c.figure.Some? && c.provider + "/" + c.model !in book
    && (c.ok || c.figure.value.input + c.figure.value.output + c.figure.value.cacheRead + c.figure.value.cacheWrite > 0)
  }

  function AllUnmapped(cs: seq<Charge>): seq<string> {
    if cs == [] then [] else AllUnmapped(cs[..|cs| - 1]) + cs[|cs| - 1].unmapped
  }

  ghost predicate SomeFigure(cs: seq<Charge>) {
    exists c :: c in cs && c.figure.Some?
  }

  ghost predicate SomeUnpriced(book: PriceBook, cs: seq<Charge>) {
    exists c :: c in cs && NoPrice(book, c)
  }

  ghost predicate SomePartial(cs: seq<Charge>) {
    exists c :: c in cs && c.partial
  }

  function Columns(cs: seq<Charge>): Tokens {
    Tokens(Inputs(cs), Outputs(cs), CacheReads(cs), CacheWrites(cs))
  }

  /** The record shows the sums. */
  ghost predicate Shows(book: PriceBook, cs: seq<Charge>, r: Record) {
    && r.tokens == Some(Columns(cs)) && r.costUSD == Some(Cost(book, cs)) && r.unpriced == Some(SomeUnpriced(book, cs))
    && r.partial == (SomePartial(cs) && SomeFigure(cs)) && r.unmapped == AllUnmapped(cs)
  }

  /** So does the event, but for a call none of whose attempts reported anything: there it has no figures. */
  ghost predicate Tells(book: PriceBook, cs: seq<Charge>, e: UsageEvent) {
    && e.tokens == (if SomeFigure(cs) then Some(Columns(cs)) else Option.None)
    && e.costUSD == (if SomeFigure(cs) then Some(Cost(book, cs)) else Option.None)
    && e.unpriced == (if SomeFigure(cs) then Some(SomeUnpriced(book, cs)) else Option.None)
    && e.partial == (SomePartial(cs) && SomeFigure(cs)) && e.unmapped == AllUnmapped(cs)
  }

  /** Nothing has been captured on the record. */
  ghost predicate Clean(r: Record) {
    r.tokens == Option.None && r.costUSD == Option.None && r.unpriced == Option.None && !r.partial && r.unmapped == []
  }

  // ----- what one attempt is charged -----

  function Known(name: string, other: string): string {
    if name != "" then name else other
  }

  /** The backend a record names so far: its last harness stamp, or what a reply filled in. */
  function Stamped(s: Sink, a: AgentId): (string, string) {
    if a in s.records then (s.records[a].provider, s.records[a].model) else ("", "")
  }

  /** What an attempt given up on had streamed; or, when it streamed nothing and `text` had been dispatched, the
      floor of a token for every four UTF-16 units. */
  function GivenUpFigure(s: Sink, a: AgentId, text: Option<string>): Tokens {
    var t := if a in s.live then s.live[a] else Tokens(0, 0, 0, 0);
    if text.Some? && t.input + t.output + t.cacheRead + t.cacheWrite <= 0 then
      Tokens((JsText.Length(text.value) + 3) / 4, 0, 0, 0)
    else t
  }

  function GivenUpCharge(s: Sink, a: AgentId, text: Option<string>): Charge {
    var (provider, model) := Stamped(s, a);
    Charge(Some(GivenUpFigure(s, a, text)), provider, model, false, true, [])
  }

  /** A reply is charged what it reports, to the stamped backend or to the one it names; an aborted one without a
      figure is charged the floor. A failure names no model. */
  function ReplyCharge(s: Sink, a: AgentId, r: GatewayResult, text: string): Charge {
    var (provider, model) := Stamped(s, a);
    match r
    case Ok(tokens, p, m, partial, unmapped) =>
      Charge(Some(tokens), Known(provider, p), Known(model, m), true, partial, unmapped)
    case Failed(reason, p, usage, partial, _, unmapped) =>
      var nothing := usage.None? ||
        usage.value.input + usage.value.output + usage.value.cacheRead + usage.value.cacheWrite <= 0;
      if reason == Aborted && nothing then
        Charge(Some(Tokens((JsText.Length(text) + 3) / 4, 0, 0, 0)), Known(provider, p), model, false, true, unmapped)
      else
        Charge(usage, Known(provider, p), model, false, partial, unmapped)
  }

  function AnswerCharge(s: Sink, a: AgentId, text: string, answer: Answer): seq<Charge> {
    match answer
    case RaceLost => [GivenUpCharge(s, a, Some(text))]
    case Threw => []
    case Returned(r, _) => [ReplyCharge(s, a, r, text)]
  }

  /** What a step captures for an agent. */
  function Captured(s: Sys, act: Action, a: AgentId): seq<Charge> {
    if act.a != a then []
    else match act
      case Begin(_, prompts, aborted, refused) =>
        if a in s.jobs || (a in s.sink.records && s.sink.records[a].ended) || !AttemptCount(|prompts|) then []
        else if aborted then [GivenUpCharge(s.sink, a, Option.None)]
        else if refused then
          [Charge(Option.None, Stamped(s.sink, a).0, Stamped(s.sink, a).1, false, false, [])]
        else []
      case Dispatch(_, aborted) =>
        if a in s.jobs && s.jobs[a].pc.Ready? && aborted then [GivenUpCharge(s.sink, a, Option.None)] else []
      case Answered(_, answer) =>
        if a !in s.jobs || !s.jobs[a].pc.InFlight? || s.jobs[a].pc.attempt >= |s.jobs[a].prompts| then []
        else
          var text := s.jobs[a].prompts[s.jobs[a].pc.attempt];
          AnswerCharge(s.sink, a, text, answer)
      case _ => []
  }

  /** All that a run captures for an agent, in order. */
  function History(book: PriceBook, s: Sys, acts: seq<Action>, a: AgentId): seq<Charge>
    decreases |acts|
  {
    if acts == [] then [] else Captured(s, acts[0], a) + History(book, Step(book, s, acts[0]), acts[1..], a)
  }

  // ----- one capture -----

  lemma ColumnsMore(cs: seq<Charge>, c: Charge)
    ensures Columns(cs + [c]) == if c.figure.None? then Columns(cs) else
      Tokens(Columns(cs).input + c.figure.value.input, Columns(cs).output + c.figure.value.output,
             Columns(cs).cacheRead + c.figure.value.cacheRead, Columns(cs).cacheWrite + c.figure.value.cacheWrite)
  {
    assert (cs + [c])[..|cs|] == cs;
  }

  lemma CostMore(book: PriceBook, cs: seq<Charge>, c: Charge)
    ensures Cost(book, cs + [c]) == Cost(book, cs) + Price(book, c)
    ensures AllUnmapped(cs + [c]) == AllUnmapped(cs) + c.unmapped
  {
    hide Price;
    assert (cs + [c])[..|cs|] == cs;
  }

  lemma SomeMore(book: PriceBook, cs: seq<Charge>, c: Charge)
    ensures SomeFigure(cs + [c]) <==> SomeFigure(cs) || c.figure.Some?
    ensures SomePartial(cs + [c]) <==> SomePartial(cs) || c.partial
    ensures SomeUnpriced(book, cs + [c]) <==> SomeUnpriced(book, cs) || NoPrice(book, c)
  {
    hide NoPrice;
    assert forall x :: x in cs + [c] <==> x in cs || x == c;
  }

  /** A figure's price, as the sink computes it. */
  lemma PriceIs(book: PriceBook, c: Charge)
    requires c.figure.Some?
    ensures OrZero(PriceCall(c.figure.value, RatesFor(book, c.provider, c.model))) == Price(book, c)
    ensures PriceCall(c.figure.value, RatesFor(book, c.provider, c.model)) == Option.None
      <==> c.provider + "/" + c.model !in book
    ensures NoPrice(book, c) <==>
      c.provider + "/" + c.model !in book && (c.ok || SumTokens(c.figure.value) > 0)
  {
  }

  /** What the sink makes of a result, as a charge. */
  function ChargeOf(s: Sink, a: AgentId, r: GatewayResult): Charge {
    var (provider, model) := Stamped(s, a);
    if r.Ok? then
      Charge(Some(r.tokens), Known(provider, r.provider), Known(model, r.model), true, r.partial, r.unmapped)
    else Charge(r.usage, Known(provider, r.provider), model, false, r.partial, r.unmapped)
  }

  /** Before the first capture the record is clean; after it, it shows the sums. */
  ghost predicate UpTo(book: PriceBook, s: Sink, a: AgentId, cs: seq<Charge>) {
    if cs == [] then a in s.records ==> Clean(s.records[a]) else a in s.records && Shows(book, cs, s.records[a])
  }

  lemma NothingYet(book: PriceBook)
    ensures Columns([]) == ZERO_TOKENS && Cost(book, []) == 0.0 && AllUnmapped([]) == []
    ensures !SomeFigure([]) && !SomePartial([]) && !SomeUnpriced(book, [])
  {
  }

  /** What the record held before counts as the sums so far. */
  lemma Carried(book: PriceBook, s: Sink, a: AgentId, cs: seq<Charge>)
    requires UpTo(book, s, a, cs) && (cs != [] ==> SomeFigure(cs))
    ensures var prev := Prev(s, a);
      && Earlier(prev) == Columns(cs) && OrZero(prev.costUSD) == Cost(book, cs) && prev.unmapped == AllUnmapped(cs)
      && (prev.unpriced == Some(true) <==> SomeUnpriced(book, cs)) && prev.partial == SomePartial(cs)
      && (prev.tokens.Some? <==> SomeFigure(cs)) && (prev.provider, prev.model) == Stamped(s, a)
  {
    NothingYet(book);
    hide Columns, Cost, AllUnmapped, SomeFigure, SomePartial, SomeUnpriced;
  }

  ghost predicate SpendingIs(book: PriceBook, cs: seq<Charge>, t: Spending) {
    && t.tokens == Columns(cs) && t.costUSD == Cost(book, cs)
    && t.unpriced == SomeUnpriced(book, cs) && t.partial == (SomePartial(cs) && SomeFigure(cs))
  }

  lemma AddIs(cs: seq<Charge>, c: Charge)
    ensures Columns(cs + [c]) == AddTokens(Columns(cs), if c.figure.Some? then c.figure.value else ZERO_TOKENS)
  {
    ColumnsMore(cs, c);
    hide Inputs, Outputs, CacheReads, CacheWrites;
  }

  lemma OkSpends(book: PriceBook, s: Sink, a: AgentId, r: GatewayResult, cs: seq<Charge>)
    requires r.Ok? && UpTo(book, s, a, cs) && (cs != [] ==> SomeFigure(cs))
    ensures var prev, c := Prev(s, a), ChargeOf(s, a, r);
      SpendingIs(book, cs + [c], OkSpending(book, prev, c.provider, c.model, r)) && SomeFigure(cs + [c])
  {
    hide Prev, UpTo, Columns, Cost, AllUnmapped, SomeFigure, SomePartial, SomeUnpriced, PriceCall, RatesFor, Price,
      OrZero, Earlier, SumTokens, Stamped, AddTokens;
    var c := ChargeOf(s, a, r);
    Carried(book, s, a, cs);
    PriceIs(book, c);
    AddIs(cs, c);
    CostMore(book, cs, c);
    SomeMore(book, cs, c);
  }

  lemma FailSpends(book: PriceBook, s: Sink, a: AgentId, r: GatewayResult, cs: seq<Charge>)
    requires r.Failed? && UpTo(book, s, a, cs) && (cs != [] ==> SomeFigure(cs))
    ensures var prev, c := Prev(s, a), ChargeOf(s, a, r);
      var u := FailedUsage(book, prev, c.provider, r);
      (u.Some? <==> SomeFigure(cs + [c])) && (u.Some? ==> SpendingIs(book, cs + [c], u.value))
  {
    if r.usage.Some? {
      FailSpendsSome(book, s, a, r, cs);
    } else {
      FailSpendsNone(book, s, a, r, cs);
    }
  }

  lemma FailSpendsSome(book: PriceBook, s: Sink, a: AgentId, r: GatewayResult, cs: seq<Charge>)
    requires r.Failed? && r.usage.Some? && UpTo(book, s, a, cs) && (cs != [] ==> SomeFigure(cs))
    ensures var prev, c := Prev(s, a), ChargeOf(s, a, r);
      var u := FailedUsage(book, prev, c.provider, r);
      u.Some? && SomeFigure(cs + [c]) && SpendingIs(book, cs + [c], u.value)
  {
    hide Prev, UpTo, Columns, Cost, AllUnmapped, SomeFigure, SomePartial, SomeUnpriced, PriceCall, RatesFor, Price,
      OrZero, Earlier, SumTokens, Stamped, AddTokens, NoPrice;
    var c := ChargeOf(s, a, r);
    Carried(book, s, a, cs);
    PriceIs(book, c);
    AddIs(cs, c);
    CostMore(book, cs, c);
    SomeMore(book, cs, c);
  }

  lemma FailSpendsNone(book: PriceBook, s: Sink, a: AgentId, r: GatewayResult, cs: seq<Charge>)
    requires r.Failed? && r.usage.None? && UpTo(book, s, a, cs) && (cs != [] ==> SomeFigure(cs))
    ensures var prev, c := Prev(s, a), ChargeOf(s, a, r);
      var u := FailedUsage(book, prev, c.provider, r);
      (u.Some? <==> SomeFigure(cs + [c])) && (u.Some? ==> SpendingIs(book, cs + [c], u.value))
  {
    hide Prev, UpTo, Columns, Cost, AllUnmapped, SomeFigure, SomePartial, SomeUnpriced, PriceCall, RatesFor, Price,
      OrZero, Earlier, SumTokens, Stamped, AddTokens, NoPrice;
    var c := ChargeOf(s, a, r);
    Carried(book, s, a, cs);
    NoFigure(book, c);
    AddIs(cs, c);
    CostMore(book, cs, c);
    SomeMore(book, cs, c);
  }

  lemma NoFigure(book: PriceBook, c: Charge)
    requires c.figure.None?
    ensures Price(book, c) == 0.0 && !NoPrice(book, c)
  {
  }

  /** Without any figure the sums are zero. */
  lemma {:induction false} NoFigures(book: PriceBook, cs: seq<Charge>)
    requires !SomeFigure(cs)
    ensures Columns(cs) == ZERO_TOKENS && Cost(book, cs) == 0.0 && !SomeUnpriced(book, cs)
  {
    if cs != [] {
      var front, last := cs[..|cs| - 1], cs[|cs| - 1];
      assert cs == front + [last];
      SomeMore(book, front, last);
      NoFigures(book, front);
      ColumnsMore(front, last);
      CostMore(book, front, last);
      NoFigure(book, last);
      hide Price, NoPrice, SomeFigure, SomeUnpriced, Columns, Cost;
    }
  }

  /** A capture adds one charge to what record and event show. */
  lemma CaptureShows(book: PriceBook, s: Sink, a: AgentId, r: GatewayResult, opts: CaptureOpts, cs: seq<Charge>)
    requires UpTo(book, s, a, cs) && (cs != [] ==> SomeFigure(cs))
    ensures var t, more := Capture(book, s, a, r, opts), cs + [ChargeOf(s, a, r)];
      && UpTo(book, t, a, more) && (r.Ok? ==> SomeFigure(more))
      && (r.Failed? || opts.final ==>
            && |t.events| == |s.events| + 1 && t.events[..|s.events|] == s.events
            && t.events[|s.events|].agentId == a && Tells(book, more, t.events[|s.events|]))
  {
    var c := ChargeOf(s, a, r);
    var t, more := Capture(book, s, a, r, opts), cs + [c];
    CaptureEmits(book, s, a, r, opts);
    Carried(book, s, a, cs);
    CostMore(book, cs, c);
    NamesAre(s, a);
    if r.Ok? {
      OkSpends(book, s, a, r, cs);
    } else {
      FailSpends(book, s, a, r, cs);
      if !SomeFigure(more) {
        NoFigures(book, more);
      }
    }
    hide Prev, Columns, Cost, AllUnmapped, SomeFigure, SomePartial, SomeUnpriced, OkSpending, FailedUsage, Stamped,
      Reports, PriceCall, RatesFor, OrZero, Earlier, SumTokens;
  }

  lemma NamesAre(s: Sink, a: AgentId)
    ensures Stamped(s, a) == (Prev(s, a).provider, Prev(s, a).model)
    ensures forall x, y :: OrElse(x, y) == Known(x, y)
  {
  }

  // ----- over runs -----

  lemma GivenUpIs(s: Sink, a: AgentId, text: Option<string>)
    ensures ChargeOf(s, a, AbortedResult(Live(s, a), text)) == GivenUpCharge(s, a, text)
    ensures AbortedResult(Live(s, a), text).Failed?
  {
  }

  lemma ReplyIs(s: Sink, a: AgentId, r: GatewayResult, text: string)
    ensures ChargeOf(s, a, if r.Failed? then ApplyAbortEstimate(r, Some(text)) else r) == ReplyCharge(s, a, r, text)
    ensures r.Failed? ==> ApplyAbortEstimate(r, Some(text)).Failed?
  {
  }

  lemma RefusalIs(s: Sink, a: AgentId)
    ensures ChargeOf(s, a, REFUSAL) == Charge(Option.None, Stamped(s, a).0, Stamped(s, a).1, false, false, [])
  {
  }

  /** The call's one event, once it has settled, tells the sums. */
  ghost predicate Told(book: PriceBook, s: Sink, a: AgentId, cs: seq<Charge>) {
    |EventsOf(s.events, a)| == 1 && Tells(book, cs, EventsOf(s.events, a)[0])
  }

  /** The records of a call in this state stand as they should. */
  ghost predicate Stands(book: PriceBook, s: Sink, a: AgentId, pc: Pc, cs: seq<Charge>) {
    match pc
    case Settled(_) => cs != [] && UpTo(book, s, a, cs) && Told(book, s, a, cs)
    case Caught(_) => true
    case _ => UpTo(book, s, a, cs) && (cs != [] ==> SomeFigure(cs))
  }

  /** Where the records of an agent stand after `cs`. What a caught error left is a refused record without figures. */
  ghost predicate Booked(book: PriceBook, s: Sys, a: AgentId, cs: seq<Charge>) {
    if a !in s.jobs then cs == [] && (a in s.sink.records && !s.sink.records[a].ended ==> Clean(s.sink.records[a]))
    else Stands(book, s.sink, a, s.jobs[a].pc, cs)
  }

  /** A capture that ends the call. */
  lemma EndingTold(book: PriceBook, s: Sink, a: AgentId, r: GatewayResult, opts: CaptureOpts, cs: seq<Charge>)
    requires UpTo(book, s, a, cs) && (cs != [] ==> SomeFigure(cs)) && (r.Failed? || opts.final)
    requires EventsOf(s.events, a) == []
    ensures var t, more := Capture(book, s, a, r, opts), cs + [ChargeOf(s, a, r)];
      more != [] && UpTo(book, t, a, more) && Told(book, t, a, more)
  {
    hide Capture, UpTo, SomeFigure, Tells, EventsOf, ChargeOf;
    CaptureShows(book, s, a, r, opts, cs);
    OneMoreEvent(s.events, Capture(book, s, a, r, opts).events, a);
  }

  lemma OneMoreEvent(was: seq<UsageEvent>, now: seq<UsageEvent>, a: AgentId)
    requires |now| == |was| + 1 && now[..|was|] == was && now[|was|].agentId == a && EventsOf(was, a) == []
    ensures EventsOf(now, a) == [now[|was|]]
  {
    hide EventsOf;
    assert now == was + [now[|was|]];
    EventsOfNext(was, now[|was|], a);
  }

  lemma FinalizeTold(book: PriceBook, s: Sink, a: AgentId, text: Option<string>, cs: seq<Charge>)
    requires UpTo(book, s, a, cs) && (cs != [] ==> SomeFigure(cs)) && EventsOf(s.events, a) == []
    ensures var t, more := FinalizeAborted(book, s, a, text), cs + [GivenUpCharge(s, a, text)];
      more != [] && UpTo(book, t, a, more) && Told(book, t, a, more)
  {
    GivenUpIs(s, a, text);
    hide Capture, UpTo, SomeFigure, Told, EventsOf, ChargeOf, GivenUpCharge, AbortedResult;
    EndingTold(book, s, a, AbortedResult(Live(s, a), text), PLAIN, cs);
  }

  lemma AnsweringStands(book: PriceBook, s: Sink, a: AgentId, prompts: seq<string>, i: nat, answer: Answer,
        cs: seq<Charge>)
    requires i < |prompts| && UpTo(book, s, a, cs) && (cs != [] ==> SomeFigure(cs)) && EventsOf(s.events, a) == []
    ensures var (t, pc) := Answering(book, s, a, prompts, i, answer);
      Stands(book, t, a, pc, cs + AnswerCharge(s, a, prompts[i], answer))
  {
    hide Capture, UpTo, SomeFigure, Told, EventsOf, ChargeOf, GivenUpCharge, ReplyCharge, FinalizeAborted,
      ApplyAbortEstimate;
    match answer
    case RaceLost => FinalizeTold(book, s, a, Some(prompts[i]), cs);
    case Threw => assert cs + [] == cs;
    case Returned(r, conforms) =>
      ReplyIs(s, a, r, prompts[i]);
      if r.Failed? {
        EndingTold(book, s, a, ApplyAbortEstimate(r, Some(prompts[i])), PLAIN, cs);
      } else {
        var opts := if |prompts| == 1 then PLAIN else OptsFor(conforms, i, |prompts|);
        CaptureShows(book, s, a, r, opts, cs);
        if opts.final {
          EndingTold(book, s, a, r, opts, cs);
        }
      }
  }

  lemma AnsweredBooked(book: PriceBook, s: Sys, a: AgentId, answer: Answer, cs: seq<Charge>)
    requires Inv(s) && Booked(book, s, a, cs) && a in s.jobs && s.jobs[a].pc.InFlight?
    ensures Booked(book, Step(book, s, Answered(a, answer)), a, cs + Captured(s, Answered(a, answer), a))
  {
    hide Answering, UpTo, SomeFigure, Told, EventsOf, GivenUpCharge, ReplyCharge, NothingSpent, SameTotals, Paired;
    SomeAgent(s, a);
    AnsweringStands(book, s.sink, a, s.jobs[a].prompts, s.jobs[a].pc.attempt, answer, cs);
  }

  lemma AbortedStands(book: PriceBook, s: Sink, a: AgentId, cs: seq<Charge>)
    requires UpTo(book, s, a, cs) && (cs != [] ==> SomeFigure(cs)) && EventsOf(s.events, a) == []
    ensures Stands(book, FinalizeAborted(book, s, a, Option.None), a, Settled(Null(true)),
              cs + [GivenUpCharge(s, a, Option.None)])
    ensures Stands(book, Capture(book, s, a, REFUSAL, PLAIN), a, Settled(Thrown),
              cs + [Charge(Option.None, Stamped(s, a).0, Stamped(s, a).1, false, false, [])])
  {
    hide Capture, UpTo, SomeFigure, Told, EventsOf, ChargeOf, GivenUpCharge, FinalizeAborted, Stamped;
    RefusalIs(s, a);
    FinalizeTold(book, s, a, Option.None, cs);
    EndingTold(book, s, a, REFUSAL, PLAIN, cs);
  }

  lemma BeginBooked(book: PriceBook, s: Sys, act: Action, cs: seq<Charge>)
    requires Inv(s) && Booked(book, s, act.a, cs) && act.Begin?
    ensures Booked(book, Step(book, s, act), act.a, cs + Captured(s, act, act.a))
  {
    hide Capture, SomeFigure, Told, EventsOf, GivenUpCharge, FinalizeAborted, NothingSpent, SameTotals, Paired, Shows,
      Clean, Stamped;
    var a := act.a;
    SomeAgent(s, a);
    assert cs + [] == cs;
    if a !in s.jobs && (a in s.sink.records ==> !s.sink.records[a].ended) {
      AbortedStands(book, s.sink, a, cs);
    }
  }

  lemma DispatchBooked(book: PriceBook, s: Sys, act: Action, cs: seq<Charge>)
    requires Inv(s) && Booked(book, s, act.a, cs) && act.Dispatch?
    ensures Booked(book, Step(book, s, act), act.a, cs + Captured(s, act, act.a))
  {
    hide Capture, SomeFigure, Told, EventsOf, GivenUpCharge, FinalizeAborted, NothingSpent, SameTotals, Paired, UpTo,
      Clean, Stamped;
    var a := act.a;
    SomeAgent(s, a);
    assert cs + [] == cs;
    if a in s.jobs && s.jobs[a].pc.Ready? {
      AbortedStands(book, s.sink, a, cs);
    }
  }

  lemma MarkBooked(book: PriceBook, s: Sys, act: Action, cs: seq<Charge>)
    requires Inv(s) && Booked(book, s, act.a, cs) && (Marks(act) || act.Refuse?)
    ensures Booked(book, Step(book, s, act), act.a, cs + Captured(s, act, act.a))
  {
    hide SomeFigure, EventsOf, NothingSpent, SameTotals, Paired, Tells, Columns, Cost, AllUnmapped, SomePartial,
      SomeUnpriced;
    SomeAgent(s, act.a);
    assert cs + [] == cs;
  }

  lemma StepBooked(book: PriceBook, s: Sys, act: Action, a: AgentId, cs: seq<Charge>)
    requires Inv(s) && Booked(book, s, a, cs)
    ensures Booked(book, Step(book, s, act), a, cs + Captured(s, act, a))
  {
    hide Inv, Step, UpTo, Told, Clean, SomeFigure;
    if act.a != a {
      StepTouches(book, s, act);
      OthersBooked(book, s, Step(book, s, act), act.a, a, cs);
      assert cs + [] == cs;
    } else {
      match act
      case Answered(_, answer) =>
        if a in s.jobs && s.jobs[a].pc.InFlight? {
          AnsweredBooked(book, s, a, answer, cs);
        } else {
          NotApplied(book, s, act);
          assert cs + [] == cs;
        }
      case Begin(_, _, _, _) => BeginBooked(book, s, act, cs);
      case Dispatch(_, _) => DispatchBooked(book, s, act, cs);
      case _ => MarkBooked(book, s, act, cs);
    }
  }

  lemma NotApplied(book: PriceBook, s: Sys, act: Action)
    requires act.Answered? && !(act.a in s.jobs && s.jobs[act.a].pc.InFlight?)
    ensures Step(book, s, act) == s && Captured(s, act, act.a) == []
  {
  }

  lemma OthersBooked(book: PriceBook, s: Sys, t: Sys, b: AgentId, a: AgentId, cs: seq<Charge>)
    requires Booked(book, s, a, cs) && OnlyTouches(s.sink, t.sink, b) && a != b
    requires (a in t.jobs <==> a in s.jobs) && (a in s.jobs ==> t.jobs[a] == s.jobs[a])
    ensures Booked(book, t, a, cs)
  {
    hide Clean, Shows, Tells, EventsOf, SomeFigure;
    assert EventsOf(t.sink.events, a) == EventsOf(s.sink.events, a);
  }

  lemma {:induction false} RunBooked(book: PriceBook, s: Sys, acts: seq<Action>, a: AgentId, cs: seq<Charge>)
    requires Inv(s) && Booked(book, s, a, cs)
    ensures Booked(book, Run(book, s, acts), a, cs + History(book, s, acts, a))
    decreases |acts|
  {
    hide Inv, Step, Booked, Captured;
    if acts == [] {
      assert cs + [] == cs;
    } else {
      var more := Captured(s, acts[0], a);
      StepBooked(book, s, acts[0], a, cs);
      StepInv(book, s, acts[0]);
      RunBooked(book, Step(book, s, acts[0]), acts[1..], a, cs + more);
      assert cs + more + History(book, Step(book, s, acts[0]), acts[1..], a)
        == cs + (more + History(book, Step(book, s, acts[0]), acts[1..], a));
    }
  }

  /** Over every run of any number of agents, for each call whose record no caught error has emptied: every column
      of its record is the sum of that column over the figures its attempts reported, its cost the sum of their
      prices, and `unpriced` says that one of them had none. Once the call has settled its usage event says the
      same. */
  lemma RecordsAreSums(book: PriceBook, acts: seq<Action>, a: AgentId)
    requires var s := Run(book, Sys(EMPTY, map[]), acts); a in s.jobs && !s.jobs[a].pc.Caught?
    ensures var s, cs := Run(book, Sys(EMPTY, map[]), acts), History(book, Sys(EMPTY, map[]), acts, a);
      && (cs != [] ==> a in s.sink.records && Shows(book, cs, s.sink.records[a]))
      && (cs == [] && a in s.sink.records ==> s.sink.records[a].tokens == Option.None)
      && (s.jobs[a].pc.Settled? ==>
            cs != [] && |EventsOf(s.sink.events, a)| == 1 && Tells(book, cs, EventsOf(s.sink.events, a)[0]))
  {
    hide *;
    EmptyInv();
    NothingBooked(book, a);
    RunMeans(book, Sys(EMPTY, map[]), acts, a);
  }

  lemma RunMeans(book: PriceBook, s0: Sys, acts: seq<Action>, a: AgentId)
    requires Inv(s0) && Booked(book, s0, a, [])
    requires a in Run(book, s0, acts).jobs && !Run(book, s0, acts).jobs[a].pc.Caught?
    ensures var s, cs := Run(book, s0, acts), History(book, s0, acts, a);
      && (cs != [] ==> a in s.sink.records && Shows(book, cs, s.sink.records[a]))
      && (cs == [] && a in s.sink.records ==> s.sink.records[a].tokens == Option.None)
      && (s.jobs[a].pc.Settled? ==>
            cs != [] && |EventsOf(s.sink.events, a)| == 1 && Tells(book, cs, EventsOf(s.sink.events, a)[0]))
  {
    hide *;
    var cs := History(book, s0, acts, a);
    RunBooked(book, s0, acts, a, []);
    assert [] + cs == cs;
    BookedMeans(book, Run(book, s0, acts), a, cs);
  }

  lemma NothingBooked(book: PriceBook, a: AgentId)
    ensures Booked(book, Sys(EMPTY, map[]), a, [])
  {
  }

  lemma BookedMeans(book: PriceBook, s: Sys, a: AgentId, cs: seq<Charge>)
    requires Booked(book, s, a, cs) && a in s.jobs && !s.jobs[a].pc.Caught?
    ensures cs != [] ==> a in s.sink.records && Shows(book, cs, s.sink.records[a])
    ensures cs == [] && a in s.sink.records ==> s.sink.records[a].tokens == Option.None
    ensures s.jobs[a].pc.Settled? ==>
      cs != [] && |EventsOf(s.sink.events, a)| == 1 && Tells(book, cs, EventsOf(s.sink.events, a)[0])
  {
    hide Shows, Tells, EventsOf, SomeFigure;
  }

  // ----- the backend charged -----

  lemma CaptureStamps(book: PriceBook, s: Sink, a: AgentId, r: GatewayResult, opts: CaptureOpts)
    ensures Stamped(Capture(book, s, a, r, opts), a) == (ChargeOf(s, a, r).provider, ChargeOf(s, a, r).model)
  {
    NamesAre(s, a);
    hide OkSpending, FailedUsage, PriceCall, RatesFor, OrZero, SumTokens, OkEvent, FailedEvent, OrElse, Known;
  }

  /** The backend a record names is the last one stamped, and else the one its last attempt was charged to: nothing
      but stamps and captures writes it, so a call keeps to its first reply's backend until a stamp says otherwise. */
  lemma StampStep(book: PriceBook, s: Sys, act: Action, a: AgentId)
    requires Inv(s)
    ensures Stamped(Step(book, s, act).sink, a) ==
      if act.Harness? && act.a == a && a in s.sink.records then (act.provider, act.model)
      else if Captured(s, act, a) != [] then (Captured(s, act, a)[0].provider, Captured(s, act, a)[0].model)
      else Stamped(s.sink, a)
  {
    if act.a != a {
      StepTouches(book, s, act);
      hide Step, Captured, Inv;
      assert EventsOf(Step(book, s, act).sink.events, a) == EventsOf(s.sink.events, a);
      assert Captured(s, act, a) == [] by { OthersCapture(s, act, a); }
    } else {
      OwnStamp(book, s, act);
    }
  }

  lemma OthersCapture(s: Sys, act: Action, a: AgentId)
    requires act.a != a
    ensures Captured(s, act, a) == []
  {
  }

  lemma OwnStamp(book: PriceBook, s: Sys, act: Action)
    requires Inv(s)
    ensures var a := act.a;
      Stamped(Step(book, s, act).sink, a) ==
      if act.Harness? && a in s.sink.records then (act.provider, act.model)
      else if Captured(s, act, a) != [] then (Captured(s, act, a)[0].provider, Captured(s, act, a)[0].model)
      else Stamped(s.sink, a)
  {
    hide Capture, GivenUpFigure, ReplyCharge, AnswerCharge, FinalizeAborted, Answering, NothingSpent, SameTotals,
      Paired, EventsOf, OnlyTouches;
    var a := act.a;
    SomeAgent(s, a);
    FinalizeStamps(book, s.sink, a, Option.None);
    CaptureStamps(book, s.sink, a, REFUSAL, PLAIN);
    RefusalIs(s.sink, a);
    if act.Answered? && a in s.jobs && s.jobs[a].pc.InFlight? {
      AnsweringStamps(book, s.sink, a, s.jobs[a].prompts, s.jobs[a].pc.attempt, act.answer);
    }
  }

  lemma FinalizeStamps(book: PriceBook, s: Sink, a: AgentId, text: Option<string>)
    ensures Stamped(FinalizeAborted(book, s, a, text), a)
      == (GivenUpCharge(s, a, text).provider, GivenUpCharge(s, a, text).model)
  {
    GivenUpIs(s, a, text);
    hide Capture, AbortedResult, ChargeOf, GivenUpCharge, Stamped;
    CaptureStamps(book, s, a, AbortedResult(Live(s, a), text), PLAIN);
  }

  lemma AnsweringStamps(book: PriceBook, s: Sink, a: AgentId, prompts: seq<string>, i: nat, answer: Answer)
    requires i < |prompts|
    ensures var t, cs := Answering(book, s, a, prompts, i, answer).0, AnswerCharge(s, a, prompts[i], answer);
      Stamped(t, a) == if cs != [] then (cs[0].provider, cs[0].model) else Stamped(s, a)
  {
    hide Capture, ChargeOf, GivenUpCharge, ReplyCharge, FinalizeAborted, ApplyAbortEstimate, Stamped;
    match answer
    case RaceLost => FinalizeStamps(book, s, a, Some(prompts[i]));
    case Threw =>
    case Returned(r, conforms) =>
      ReplyIs(s, a, r, prompts[i]);
      if r.Failed? {
        CaptureStamps(book, s, a, ApplyAbortEstimate(r, Some(prompts[i])), PLAIN);
      } else {
        CaptureStamps(book, s, a, r, if |prompts| == 1 then PLAIN else OptsFor(conforms, i, |prompts|));
      }
  }
}
