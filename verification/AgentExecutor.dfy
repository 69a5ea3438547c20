/** `AgentTranscriptSink` and the retry loop of `AgentExecutor`, as the objects and loops they are. */
module AgentExecutor {
  import opened UsageLedger
  import opened AgentRuns

  /** The agent records, the live figures, the usage events and the guard's two totals. */
  class AgentTranscriptSink {
    const book: PriceBook
    var records: map<AgentId, Record>
    var liveAttemptUsage: map<AgentId, Tokens>
    var events: seq<UsageEvent>
    var spentTokens: int
    var spentUsd: real

    ghost function Now(): Sink
      reads this
    {
      Sink(records, liveAttemptUsage, events, spentTokens, spentUsd)
    }

    constructor (book: PriceBook)
      ensures this.book == book && Now() == EMPTY && Conserved(Now())
    {
      this.book := book;
      records, liveAttemptUsage, events, spentTokens, spentUsd := map[], map[], [], 0, 0.0;
    }

    method MarkQueued(a: AgentId)
      modifies this
      ensures Now() == UsageLedger.MarkQueued(old(Now()), a)
    {
      records := records[a := Blank(Queued)];
    }

    method MarkRunning(a: AgentId)
      modifies this
      ensures Now() == UsageLedger.MarkRunning(old(Now()), a)
    {
      var existing := if a in records then records[a] else Blank(Running);
      records := records[a := existing.(state := Running)];
    }

    method MarkRefused(a: AgentId)
      modifies this
      ensures Now() == UsageLedger.MarkRefused(old(Now()), a)
    {
      var existing := if a in records then records[a] else Blank(Refused);
      records := records[a := existing.(state := Refused, ended := true,
                                        tokens := Some(ZERO_TOKENS), costUSD := Some(0.0), unpriced := Some(false))];
    }

    /** What the run manager's catch does. */
    method RefuseUnfinished(a: AgentId)
      modifies this
      ensures Now() == UsageLedger.RefuseUnfinished(old(Now()), a)
    {
      if a in records && (records[a].state == Queued || records[a].state == Running) {
        MarkRefused(a);
      }
    }

    method MarkHarness(a: AgentId, model: string, provider: string)
      modifies this
      ensures Now() == UsageLedger.MarkHarness(old(Now()), a, model, provider)
    {
      if a in records {
        records := records[a := records[a].(model := model, provider := provider)];
      }
    }

    method MarkUsage(a: AgentId, figure: Tokens)
      modifies this
      ensures Now() == UsageLedger.MarkUsage(old(Now()), a, figure)
    {
      if a in records && !records[a].ended {
        liveAttemptUsage := liveAttemptUsage[a := figure];
      }
    }

    /** `RunGuard.addUsage`. */
    method AddUsage(tokens: Tokens, costUSD: real)
      modifies this`spentTokens, this`spentUsd
      ensures spentTokens == old(spentTokens) + SumTokens(tokens) && spentUsd == old(spentUsd) + costUSD
    {
      spentUsd := spentUsd + costUSD;
      spentTokens := spentTokens + SumTokens(tokens);
    }

    method Capture(a: AgentId, r: GatewayResult, opts: CaptureOpts)
      modifies this
      ensures Now() == UsageLedger.Capture(book, old(Now()), a, r, opts)
    {
      hide UsageLedger.CaptureOk, UsageLedger.CaptureFailed;
      if r.Ok? {
        CaptureOk(a, r, opts);
      } else {
        CaptureFailed(a, r);
      }
    }

    /** Charges this attempt, folds in the earlier ones, and ends the record if the attempt is final. */
    method CaptureOk(a: AgentId, r: GatewayResult, opts: CaptureOpts)
      requires r.Ok?
      modifies this
      ensures Now() == UsageLedger.CaptureOk(book, old(Now()), a, r, opts)
    {
      hide PriceCall, SumTokens, AddTokens, RatesFor, OrZero, OrElse, OkRecord, OkEvent;
      var prev := if a in records then records[a] else Blank(Running);
      var priorTokens := if prev.tokens.Some? then prev.tokens.value else ZERO_TOKENS;
      liveAttemptUsage := liveAttemptUsage - {a};
      var provider, model := OrElse(prev.provider, r.provider), OrElse(prev.model, r.model);
      var priced := PriceCall(r.tokens, RatesFor(book, provider, model));
      AddUsage(r.tokens, OrZero(priced));
      var total := Spending(AddTokens(priorTokens, r.tokens), OrZero(prev.costUSD) + OrZero(priced),
                            prev.unpriced == Some(true) || priced.None?, prev.partial || r.partial, false);
      var unmapped := prev.unmapped + r.unmapped;
      records := records[a := OkRecord(provider, model, total, unmapped, opts)];
      if !opts.final {
        return;
      }
      events := events + [OkEvent(a, provider, model, total, unmapped, opts)];
    }

    /** What the failed call amounts to with its earlier attempts, if anything is known; charges this attempt. */
    method FailUsage(prev: Record, provider: string, r: GatewayResult) returns (u: Option<Spending>)
      requires r.Failed?
      modifies this`spentTokens, this`spentUsd
      ensures u == FailedUsage(book, prev, provider, r)
      ensures r.usage.None? ==> spentTokens == old(spentTokens) && spentUsd == old(spentUsd)
      ensures r.usage.Some? ==>
                spentTokens == old(spentTokens) + SumTokens(r.usage.value) &&
                spentUsd == old(spentUsd) + OrZero(PriceCall(r.usage.value, RatesFor(book, provider, prev.model)))
    {
      hide PriceCall, SumTokens, AddTokens, RatesFor, OrZero;
      if r.usage.None? && prev.tokens.None? {
        return Option.None;
      }
      var tokens := if prev.tokens.Some? then prev.tokens.value else ZERO_TOKENS;
      var cost, unpriced := OrZero(prev.costUSD), prev.unpriced == Some(true);
      if r.usage.Some? {
        var priced := PriceCall(r.usage.value, RatesFor(book, provider, prev.model));
        AddUsage(r.usage.value, OrZero(priced));
        return Some(Spending(AddTokens(tokens, r.usage.value), cost + OrZero(priced),
                          unpriced || (priced.None? && SumTokens(r.usage.value) > 0),
                          prev.partial || r.partial, r.estimated));
      }
      AddZero(tokens);
      return Some(Spending(AddTokens(tokens, ZERO_TOKENS), cost + 0.0, unpriced,
                           prev.partial || r.partial, r.estimated));
    }

    method CaptureFailed(a: AgentId, r: GatewayResult)
      requires r.Failed?
      modifies this
      ensures Now() == UsageLedger.CaptureFailed(book, old(Now()), a, r)
    {
      hide PriceCall, SumTokens, AddTokens, RatesFor, OrZero, OrElse, FailedUsage, FailedRecord, FailedEvent;
      var prev := if a in records then records[a] else Blank(Running);
      liveAttemptUsage := liveAttemptUsage - {a};
      var provider := OrElse(prev.provider, r.provider);
      var unmapped := prev.unmapped + r.unmapped;
      var u := FailUsage(prev, provider, r);
      records := records[a := FailedRecord(prev, provider, u, unmapped)];
      events := events + [FailedEvent(a, r.reason, provider, u, unmapped)];
    }

    method FinalizeAborted(a: AgentId, dispatched: Option<string>)
      modifies this
      ensures Now() == UsageLedger.FinalizeAborted(book, old(Now()), a, dispatched)
    {
      var live := if a in liveAttemptUsage then liveAttemptUsage[a] else ZERO_TOKENS;
      Capture(a, ApplyAbortEstimate(Failed(Aborted, "", Some(live), true, false, []), dispatched), PLAIN);
    }
  }

  lemma AddZero(t: Tokens)
    ensures AddTokens(t, ZERO_TOKENS) == t
  {
  }

  /** What the world does to one attempt: whether the abort came first, what streams in, how it ends. */
  datatype Attempt = Attempt(abortedFirst: bool, harness: seq<(string, string)>, figures: seq<Tokens>, answer: Answer)

  /** What a gateway's answer leads to, branch by branch; when it throws there is no capture. */
  method Settle(sink: AgentTranscriptSink, a: AgentId, prompts: seq<string>, attempt: nat,
        answer: Answer) returns (pc: Pc)
    requires attempt < |prompts| && AttemptCount(|prompts|)
    modifies sink
    ensures LeadsTo(|prompts|, attempt, answer, pc)
    ensures (sink.Now(), pc) == Answering(sink.book, old(sink.Now()), a, prompts, attempt, answer)
  {
    hide UsageLedger.Capture, UsageLedger.FinalizeAborted, ApplyAbortEstimate, LeadsTo;
    AnsweringEnds(sink.book, sink.Now(), a, prompts, attempt, answer);
    match answer
    case RaceLost =>
      sink.FinalizeAborted(a, Some(prompts[attempt]));
      return Settled(Null(true));
    case Threw =>
      return Escaped(attempt);
    case Returned(r, conforms) =>
      if r.Failed? {
        sink.Capture(a, ApplyAbortEstimate(r, Some(prompts[attempt])), PLAIN);
        return Settled(Null(false));
      }
      if |prompts| == 1 {
        sink.Capture(a, r, PLAIN);
        return Settled(Text);
      }
      var isLastAttempt := attempt == |prompts| - 1;
      var schemaExhausted := !conforms && isLastAttempt;
      sink.Capture(a, r, CaptureOpts(conforms || isLastAttempt, schemaExhausted,
                                     if schemaExhausted && attempt > 0 then Some(attempt) else Option.None));
      if conforms { return Settled(Object); }
      if isLastAttempt { return Settled(Null(false)); }
      return Ready(attempt + 1);
  }

  /** The callbacks of an attempt in flight, each one a step of the protocol. */
  method Stream(sink: AgentTranscriptSink, a: AgentId, w: Attempt, ghost s0: Sys, ghost before: seq<Action>,
        ghost jobs: map<AgentId, Job>)
    returns (ghost trace: seq<Action>)
    requires Run(sink.book, s0, before) == Sys(sink.Now(), jobs) && a in jobs && jobs[a].pc.InFlight?
    modifies sink
    ensures Run(sink.book, s0, trace) == Sys(sink.Now(), jobs)
  {
    hide Run;
    trace := before;
    for i := 0 to |w.harness|
      invariant Run(sink.book, s0, trace) == Sys(sink.Now(), jobs)
    {
      RunOne(sink.book, s0, trace, Harness(a, w.harness[i].0, w.harness[i].1));
      trace := trace + [Harness(a, w.harness[i].0, w.harness[i].1)];
      sink.MarkHarness(a, w.harness[i].0, w.harness[i].1);
    }
    for i := 0 to |w.figures|
      invariant Run(sink.book, s0, trace) == Sys(sink.Now(), jobs)
    {
      RunOne(sink.book, s0, trace, Usage(a, w.figures[i]));
      trace := trace + [Usage(a, w.figures[i])];
      sink.MarkUsage(a, w.figures[i]);
    }
  }

  lemma Begun(book: PriceBook, s: Sys, a: AgentId, prompts: seq<string>, aborted: bool, refused: bool)
    requires AttemptCount(|prompts|) && a !in s.jobs && (a in s.sink.records ==> !s.sink.records[a].ended)
    ensures Step(book, s, Begin(a, prompts, aborted, refused)) ==
            if aborted then
              Sys(UsageLedger.FinalizeAborted(book, s.sink, a, Option.None),
                  s.jobs[a := Job(prompts, Settled(Null(true)), 0)])
            else if refused then
              Sys(UsageLedger.Capture(book, s.sink, a, REFUSAL, PLAIN), s.jobs[a := Job(prompts, Settled(Thrown), 0)])
            else Sys(s.sink, s.jobs[a := Job(prompts, Ready(0), 0)])
  {
    hide UsageLedger.Capture, UsageLedger.FinalizeAborted;
  }

  lemma Dispatched(book: PriceBook, sink: Sink, jobs: map<AgentId, Job>, a: AgentId, prompts: seq<string>, i: nat,
        aborted: bool)
    ensures Step(book, Sys(sink, jobs[a := Job(prompts, Ready(i), i)]), Dispatch(a, aborted)) ==
            if aborted then
              Sys(UsageLedger.FinalizeAborted(book, sink, a, Option.None),
                  jobs[a := Job(prompts, Settled(Null(true)), i)])
            else Sys(sink, jobs[a := Job(prompts, InFlight(i), i + 1)])
  {
    hide UsageLedger.Capture, UsageLedger.FinalizeAborted;
    PutTwice(jobs, a, Job(prompts, Ready(i), i),
      Job(prompts, if aborted then Settled(Null(true)) else InFlight(i), if aborted then i else i + 1));
  }

  lemma AnsweredAs(book: PriceBook, sink: Sink, jobs: map<AgentId, Job>, a: AgentId, prompts: seq<string>, i: nat,
        answer: Answer)
    requires i < |prompts|
    ensures var (t, pc) := Answering(book, sink, a, prompts, i, answer);
            Step(book, Sys(sink, jobs[a := Job(prompts, InFlight(i), i + 1)]), Answered(a, answer))
            == Sys(t, jobs[a := Job(prompts, pc, i + 1)])
  {
    hide Answering;
    PutTwice(jobs, a, Job(prompts, InFlight(i), i + 1),
      Job(prompts, Answering(book, sink, a, prompts, i, answer).1, i + 1));
  }

  lemma PutTwice<V>(m: map<AgentId, V>, a: AgentId, x: V, y: V)
    ensures m[a := x][a := y] == m[a := y]
  {
  }

  /** What a call that was begun comes to, told from the world it met: `calls` attempts were dispatched, all but the
      last of them answered off the schema, and the last one decides, unless an abort came before the next. */
  ghost predicate Told(prompts: seq<string>, world: seq<Attempt>, calls: nat, end: Pc)
    requires |world| >= |prompts|
  {
    var n := |prompts|;
    && calls <= n && (forall i :: 0 <= i < calls ==> !world[i].abortedFirst)
    && (forall i :: 0 <= i < calls - 1 ==> OffSchema(world[i].answer))
    && if calls < n && world[calls].abortedFirst && (calls == 0 || OffSchema(world[calls - 1].answer)) then
         end == Settled(Null(true))
       else calls > 0 && !end.Ready? && LeadsTo(n, calls - 1, world[calls - 1].answer, end)
  }

  /** The record of a call that was begun: whether the schema was never met, after how many more questions. */
  ghost predicate Flagged(s: Sink, a: AgentId, world: seq<Attempt>, calls: nat, end: Pc) {
    && calls <= |world|
    && (end.Settled? ==>
          && a in s.records
          && if calls > 0 && end == Settled(Null(false)) && OffSchema(world[calls - 1].answer)
             then SaysExhausted(s.records[a]) else SaysNothing(s.records[a]))
  }

  lemma FailedFlags(book: PriceBook, s: Sink, a: AgentId, r: GatewayResult)
    requires r.Failed?
    ensures a in UsageLedger.Capture(book, s, a, r, PLAIN).records
    ensures SaysNothing(UsageLedger.Capture(book, s, a, r, PLAIN).records[a])
  {
    hide FailedUsage, FailedEvent, OkSpending, OkEvent, OrElse;
  }

  lemma AbortedFlags(book: PriceBook, s: Sink, a: AgentId)
    ensures a in UsageLedger.FinalizeAborted(book, s, a, Option.None).records
    ensures SaysNothing(UsageLedger.FinalizeAborted(book, s, a, Option.None).records[a])
  {
    hide *;
    FinalizeIsCapture(book, s, a, Option.None);
    NoEstimate(Live(s, a));
    FailedFlags(book, s, a, GivenUp(Live(s, a)));
  }

  /** `_runTracked` for one agent: the loop over attempts, left by a result or by the gateway's error. It takes
      exactly the protocol steps in `trace`, so what holds of every run of the protocol holds of it. */
  method RunTracked(sink: AgentTranscriptSink, a: AgentId, prompts: seq<string>, aborted: bool, refused: bool,
                    world: seq<Attempt>, ghost jobs: map<AgentId, Job>)
    returns (end: Pc, calls: nat, ghost trace: seq<Action>)
    requires AttemptCount(|prompts|) && |world| >= |prompts|
    requires a !in jobs && (a in sink.records ==> !sink.records[a].ended)
    modifies sink
    ensures Run(sink.book, Sys(old(sink.Now()), jobs), trace) ==
            Sys(sink.Now(), jobs[a := Job(prompts, end, calls)])
    ensures (end.Settled? || end.Escaped?) && calls <= SCHEMA_RETRY_ATTEMPTS
    ensures aborted ==> end == Settled(Null(true)) && calls == 0
    ensures !aborted && refused ==> end == Settled(Thrown) && calls == 0
    ensures !aborted && !refused ==> Told(prompts, world, calls, end) && Flagged(sink.Now(), a, world, calls, end)
  {
    hide UsageLedger.Capture, UsageLedger.FinalizeAborted, Answering, Run, Step;
    calls := 0;
    ghost var s0 := Sys(sink.Now(), jobs);
    trace := [Begin(a, prompts, aborted, refused)];
    RunNone(sink.book, s0);
    RunOne(sink.book, s0, [], trace[0]);
    Begun(sink.book, s0, a, prompts, aborted, refused);
    assert [] + trace == trace;
    if aborted {
      sink.FinalizeAborted(a, Option.None);
      return Settled(Null(true)), calls, trace;
    }
    if refused {
      sink.Capture(a, REFUSAL, PLAIN);
      return Settled(Thrown), calls, trace;
    }
    var attempts := |prompts|;
    var attempt := 0;
    while attempt < attempts
      invariant 0 <= attempt < attempts && calls == attempt
      invariant Run(sink.book, s0, trace) == Sys(sink.Now(), jobs[a := Job(prompts, Ready(attempt), attempt)])
      invariant forall i :: 0 <= i < attempt ==> !world[i].abortedFirst && OffSchema(world[i].answer)
    {
      var w := world[attempt];
      RunOne(sink.book, s0, trace, Dispatch(a, w.abortedFirst));
      Dispatched(sink.book, sink.Now(), jobs, a, prompts, attempt, w.abortedFirst);
      trace := trace + [Dispatch(a, w.abortedFirst)];
      if w.abortedFirst {
        AbortedFlags(sink.book, sink.Now(), a);
        sink.FinalizeAborted(a, Option.None);
        return Settled(Null(true)), calls, trace;
      }
      calls := calls + 1;
      trace := Stream(sink, a, w, s0, trace, jobs[a := Job(prompts, InFlight(attempt), calls)]);
      RunOne(sink.book, s0, trace, Answered(a, w.answer));
      AnsweredAs(sink.book, sink.Now(), jobs, a, prompts, attempt, w.answer);
      AnsweringEnds(sink.book, sink.Now(), a, prompts, attempt, w.answer);
      trace := trace + [Answered(a, w.answer)];
      var pc := Settle(sink, a, prompts, attempt, w.answer);
      if pc.Settled? || pc.Escaped? {
        return pc, calls, trace;
      }
      attempt := attempt + 1;
    }
    assert false;
  }

  /** A call that is over does not look like one that is queued or running. */
  lemma OverMeansEnded(s: Sys, a: AgentId)
    requires Inv(s) && a in s.jobs && Over(s.jobs[a].pc) && a in s.sink.records
    ensures s.sink.records[a].ended && s.sink.records[a].state in {Done, Fail, State.Refused}
  {
    SomeAgent(s, a);
  }

  /** A fresh call is queued, then refused at the door or marked as running. */
  lemma QueuedOrRefused(book: PriceBook, s: Sys, a: AgentId)
    requires Inv(s) && a !in s.jobs && a !in s.sink.records
    ensures var refused := UsageLedger.MarkRefused(UsageLedger.MarkQueued(s.sink, a), a);
            && Run(book, s, [Queue(a), Refuse(a)]).sink == refused && EventsOf(refused.events, a) == []
            && a in refused.records && refused.records[a].ended && refused.records[a].state == State.Refused
    ensures var running := UsageLedger.MarkRunning(UsageLedger.MarkQueued(s.sink, a), a);
            Run(book, s, [Queue(a), Start(a)]) == Sys(running, s.jobs) && a in running.records
              && !running.records[a].ended
  {
    SomeAgent(s, a);
    RunNone(book, s);
    RunOne(book, s, [], Queue(a));
    RunOne(book, s, [Queue(a)], Refuse(a));
    RunOne(book, s, [Queue(a)], Start(a));
    hide Run, EventsOf, Paired, SameTotals;
    assert [] + [Queue(a)] == [Queue(a)];
    assert [Queue(a)] + [Refuse(a)] == [Queue(a), Refuse(a)] && [Queue(a)] + [Start(a)] == [Queue(a), Start(a)];
  }

  lemma SettledEnds(s: Sink, jobs: map<AgentId, Job>, a: AgentId, job: Job)
    requires Inv(Sys(s, jobs[a := job])) && job.pc.Settled?
    ensures a in s.records && s.records[a].ended && s.records[a].state in {Done, Fail} && |EventsOf(s.events, a)| == 1
  {
    SomeAgent(Sys(s, jobs[a := job]), a);
  }

  lemma EscapedEnds(book: PriceBook, s: Sink, jobs: map<AgentId, Job>, a: AgentId, prompts: seq<string>, calls: nat,
        end: Pc)
    requires end.Escaped? && Inv(Sys(s, jobs[a := Job(prompts, end, calls)])) && a in s.records
    ensures var t := UsageLedger.RefuseUnfinished(s, a);
            && Step(book, Sys(s, jobs[a := Job(prompts, end, calls)]), Refuse(a)).sink == t
            && a in t.records && t.records[a].ended && t.records[a].state == State.Refused
            && EventsOf(t.events, a) == []
  {
    hide EventsOf, Paired, Gap, Plus, SpentIn, SameTotals, OnlyTouches, UsageLedger.RefuseUnfinished;
    SomeAgent(Sys(s, jobs[a := Job(prompts, end, calls)]), a);
    CaughtKeeps(s, a);
    RefusedStays(s, a);
  }

  lemma RefusedStays(s: Sink, a: AgentId)
    requires a in s.records
    ensures a in UsageLedger.RefuseUnfinished(s, a).records
  {
  }

  /** The part of the run manager around one call: queue it under a fresh id, refuse it at the door or run it, and
      refuse it in the catch when an error comes out. Whatever happens, its record does not stay queued or running. */
  method HandleAgentRequest(sink: AgentTranscriptSink, a: AgentId, prompts: seq<string>, door: bool, aborted: bool,
                            refused: bool, world: seq<Attempt>, ghost jobs: map<AgentId, Job>)
    returns (threw: bool, end: Option<Pc>, calls: nat, ghost trace: seq<Action>)
    requires AttemptCount(|prompts|) && |world| >= |prompts|
    requires a !in jobs && a !in sink.records && Inv(Sys(sink.Now(), jobs))
    modifies sink
    ensures Run(sink.book, Sys(old(sink.Now()), jobs), trace).sink == sink.Now()
    ensures a in sink.records && sink.records[a].ended && sink.records[a].state in {Done, Fail, State.Refused}
    ensures end.None? <==> door
    ensures threw <==> door || end.value.Escaped? || end.value == Settled(Thrown)
    ensures !door && !aborted && !refused ==> Told(prompts, world, calls, end.value)
    ensures (door ==> threw) && |EventsOf(sink.events, a)| <= 1 && (!threw ==> |EventsOf(sink.events, a)| == 1)
  {
    hide Inv, Step, Run, EventsOf, UsageLedger.MarkQueued, UsageLedger.MarkRunning, UsageLedger.MarkRefused,
      UsageLedger.RefuseUnfinished, Told, Flagged;
    ghost var s0 := Sys(sink.Now(), jobs);
    QueuedOrRefused(sink.book, s0, a);
    sink.MarkQueued(a);
    if door {
      sink.MarkRefused(a);
      trace := [Queue(a), Refuse(a)];
      return true, Option.None, 0, trace;
    }
    sink.MarkRunning(a);
    ghost var before := [Queue(a), Start(a)];
    ghost var s2 := Sys(sink.Now(), jobs);
    var pc; ghost var during;
    pc, calls, during := RunTracked(sink, a, prompts, aborted, refused, world, jobs);
    RunParts(sink.book, s0, before, during);
    trace := before + during;
    RunInv(sink.book, s0, trace);
    if pc.Escaped? {
      RunOne(sink.book, s0, trace, Refuse(a));
      RecordStays(sink.book, s2, during, a);
      EscapedEnds(sink.book, sink.Now(), jobs, a, prompts, calls, pc);
      trace := trace + [Refuse(a)];
      sink.RefuseUnfinished(a);
    } else {
      SettledEnds(sink.Now(), jobs, a, Job(prompts, pc, calls));
    }
    return pc.Escaped? || pc == Settled(Thrown), Some(pc), calls, trace;
  }
}
