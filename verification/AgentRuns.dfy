/** `AgentExecutor._runTracked` as a protocol: every agent's attempts, callbacks and aborts interleaved
    in any order over one shared sink. */
module AgentRuns {
  import opened UsageLedger

  const SCHEMA_RETRY_ATTEMPTS: nat := 3

  datatype Outcome = Text | Object | Null(aborted: bool) | Thrown

  /** `Escaped`: the gateway threw, the error is on its way out of `run()`. `Caught`: it has reached the run
      manager, which refuses a record that is not terminal. */
  datatype Pc =
    | Ready(attempt: nat)
    | InFlight(attempt: nat)
    | Settled(outcome: Outcome)
    | Escaped(attempt: nat)
    | Caught(attempt: nat)

  /** One `run()` call: the text each attempt would dispatch, where it stands, gateway calls so far. */
  datatype Job = Job(prompts: seq<string>, pc: Pc, calls: nat)

  datatype Sys = Sys(sink: Sink, jobs: map<AgentId, Job>)

  /** What an attempt in flight ends with: the abort won the race, or the gateway answered or threw. */
  datatype Answer = RaceLost | Threw | Returned(result: GatewayResult, conforms: bool)

  datatype Action =
    | Queue(a: AgentId)
    | Start(a: AgentId)
    | Refuse(a: AgentId)
    | Harness(a: AgentId, model: string, provider: string)
    | Usage(a: AgentId, figure: Tokens)
    | Begin(a: AgentId, prompts: seq<string>, aborted: bool, refused: bool)
    | Dispatch(a: AgentId, aborted: bool)
    | Answered(a: AgentId, answer: Answer)

  predicate AttemptCount(n: nat) {
    n == 1 || n == SCHEMA_RETRY_ATTEMPTS
  }

  const REFUSAL := Failed(Terminal, "", Option.None, false, false, [])

  function OptsFor(conforms: bool, attempt: nat, attempts: nat): CaptureOpts {
    var exhausted := !conforms && attempt == attempts - 1;
    CaptureOpts(conforms || attempt == attempts - 1, exhausted,
                if exhausted && attempt > 0 then Some(attempt) else Option.None)
  }

  /** A gateway answer to attempt `i`: what is captured, and where the call stands afterwards. */
  function Answering(book: PriceBook, s: Sink, a: AgentId, prompts: seq<string>, i: nat, answer: Answer): (Sink, Pc)
    requires i < |prompts|
  {
    match answer
    case RaceLost => (FinalizeAborted(book, s, a, Some(prompts[i])), Settled(Null(true)))
    case Threw => (s, Escaped(i))
    case Returned(r, conforms) =>
      if r.Failed? then (Capture(book, s, a, ApplyAbortEstimate(r, Some(prompts[i])), PLAIN), Settled(Null(false)))
      else if |prompts| == 1 then (Capture(book, s, a, r, PLAIN), Settled(Text))
      else (Capture(book, s, a, r, OptsFor(conforms, i, |prompts|)),
            if conforms then Settled(Object) else if i == |prompts| - 1 then Settled(Null(false)) else Ready(i + 1))
  }

  /** One step. A step that does not apply changes nothing: an agent is queued and begun once, refused before it
      begins or when an error has come out of its call, and a usage figure belongs to the attempt in flight or
      arrives after the end. */
  function Step(book: PriceBook, s: Sys, act: Action): Sys {
    var a := act.a;
    match act
    case Queue(_) => if a in s.jobs || a in s.sink.records then s else s.(sink := MarkQueued(s.sink, a))
    case Start(_) => if a in s.jobs then s else s.(sink := MarkRunning(s.sink, a))
    case Refuse(_) =>
      if a !in s.jobs then s.(sink := MarkRefused(s.sink, a))
      else if s.jobs[a].pc.Escaped? then
        Sys(RefuseUnfinished(s.sink, a), s.jobs[a := s.jobs[a].(pc := Caught(s.jobs[a].pc.attempt))])
      else s
    case Harness(_, model, provider) => s.(sink := MarkHarness(s.sink, a, model, provider))
    case Usage(_, figure) =>
      if a in s.jobs && !s.jobs[a].pc.Ready? then s.(sink := MarkUsage(s.sink, a, figure)) else s
    case Begin(_, prompts, aborted, refused) =>
      if a in s.jobs || (a in s.sink.records && s.sink.records[a].ended) || !AttemptCount(|prompts|) then s
      else if aborted then
        Sys(FinalizeAborted(book, s.sink, a, Option.None), s.jobs[a := Job(prompts, Settled(Null(true)), 0)])
      else if refused then Sys(Capture(book, s.sink, a, REFUSAL, PLAIN), s.jobs[a := Job(prompts, Settled(Thrown), 0)])
      else s.(jobs := s.jobs[a := Job(prompts, Ready(0), 0)])
    case Dispatch(_, aborted) =>
      if a !in s.jobs || !s.jobs[a].pc.Ready? then s
      else
        var job := s.jobs[a];
        if aborted then Sys(FinalizeAborted(book, s.sink, a, Option.None), s.jobs[a := job.(pc := Settled(Null(true)))])
        else s.(jobs := s.jobs[a := job.(pc := InFlight(job.pc.attempt), calls := job.calls + 1)])
    case Answered(_, answer) =>
      if a !in s.jobs || !s.jobs[a].pc.InFlight? || s.jobs[a].pc.attempt >= |s.jobs[a].prompts| then s
      else
        var job := s.jobs[a];
        var (sink, pc) := Answering(book, s.sink, a, job.prompts, job.pc.attempt, answer);
        Sys(sink, s.jobs[a := job.(pc := pc)])
  }

  function Run(book: PriceBook, s: Sys, acts: seq<Action>): Sys
    decreases |acts|
  {
    if acts == [] then s else Run(book, Step(book, s, acts[0]), acts[1..])
  }

  // ----- what holds in every reachable state -----

  /** Not observably finished: queued or running, and no usage event yet. */
  ghost predicate StillOpen(s: Sink, a: AgentId) {
    && EventsOf(s.events, a) == []
    && (a in s.records ==> !s.records[a].ended && s.records[a].state in {Queued, Running})
  }

  /** Finished: the record has ended and exactly one usage event exists, with the record's totals. */
  ghost predicate Closed(s: Sink, a: AgentId) {
    && a in s.records && s.records[a].ended && s.records[a].state in {Done, Fail} && a !in s.live
    && |EventsOf(s.events, a)| == 1 && SameTotals(EventsOf(s.events, a)[0], s.records[a])
  }

  ghost predicate NothingSpent(s: Sink, a: AgentId) {
    SpentIn(s.records, a) == NOTHING
  }

  ghost predicate Untouched(s: Sink, a: AgentId) {
    && EventsOf(s.events, a) == [] && a !in s.live && NothingSpent(s, a)
    && (a in s.records ==>
        s.records[a].state in {Queued, Running, Refused} && (s.records[a].state == Refused ==> s.records[a].ended))
  }

  /** Refused after an error: the record, if there is one, shows nothing spent, and no usage event exists. */
  ghost predicate Rejected(s: Sink, a: AgentId) {
    && EventsOf(s.events, a) == [] && NothingSpent(s, a)
    && (a in s.records ==> s.records[a].ended && s.records[a].state == Refused)
  }

  /** A call in its first attempt has spent nothing. */
  ghost predicate JobOk(s: Sink, a: AgentId, job: Job) {
    && AttemptCount(|job.prompts|)
    && match job.pc
       case Ready(i) => i < |job.prompts| && job.calls == i && StillOpen(s, a) && a !in s.live
         && (i == 0 ==> NothingSpent(s, a))
       case InFlight(i) => i < |job.prompts| && job.calls == i + 1 && StillOpen(s, a) && (i == 0 ==> NothingSpent(s, a))
       case Settled(_) => job.calls <= |job.prompts| && Closed(s, a)
       case Escaped(i) => i < |job.prompts| && job.calls == i + 1 && StillOpen(s, a) && (i == 0 ==> NothingSpent(s, a))
       case Caught(i) => i < |job.prompts| && job.calls == i + 1 && Rejected(s, a)
  }

  ghost predicate AgentOk(s: Sys, a: AgentId) {
    if a in s.jobs then JobOk(s.sink, a, s.jobs[a]) else Untouched(s.sink, a)
  }

  ghost predicate Inv(s: Sys) {
    Paired(s.sink) && forall a {:trigger AgentOk(s, a)} :: AgentOk(s, a)
  }

  /** What a step forgets: refusing a call whose gateway threw drops what its earlier attempts had spent. */
  ghost function Loses(s: Sys, act: Action): Amount {
    if act.Refuse? && act.a in s.jobs && s.jobs[act.a].pc.Escaped? then SpentIn(s.sink.records, act.a) else NOTHING
  }

  // ----- one agent's step leaves the others alone -----

  ghost predicate OnlyTouches(s: Sink, t: Sink, a: AgentId) {
    forall b {:trigger EventsOf(t.events, b)} :: b != a ==>
      && (b in t.records <==> b in s.records) && (b in s.records ==> t.records[b] == s.records[b])
      && (b in t.live <==> b in s.live)
      && EventsOf(t.events, b) == EventsOf(s.events, b)
  }

  lemma OthersKept(s: Sys, t: Sys, a: AgentId)
    requires Inv(s) && OnlyTouches(s.sink, t.sink, a)
    requires forall b :: b != a ==> (b in t.jobs <==> b in s.jobs) && (b in s.jobs ==> t.jobs[b] == s.jobs[b])
    requires Paired(t.sink) && AgentOk(t, a)
    ensures Inv(t)
  {
    hide Paired, EventsOf, SameTotals;
    forall b | b != a
      ensures AgentOk(t, b)
    {
      assert AgentOk(s, b);
      assert EventsOf(t.sink.events, b) == EventsOf(s.sink.events, b);
    }
  }

  /** A final capture appends one event, which reports the record it leaves. */
  lemma CaptureAppends(book: PriceBook, s: Sink, a: AgentId, r: GatewayResult, opts: CaptureOpts)
    returns (e: UsageEvent)
    requires r.Failed? || opts.final
    ensures var t := Capture(book, s, a, r, opts);
            && t.events == s.events + [e] && e.agentId == a
            && a in t.records && t.records == s.records[a := t.records[a]] && t.live == s.live - {a}
            && t.records[a].ended && t.records[a].state in {Done, Fail} && SameTotals(e, t.records[a])
            && Names(e, t.records[a].model, t.records[a].provider)
  {
    hide Capture, SameTotals, Names;
    CaptureEmits(book, s, a, r, opts);
    e := Capture(book, s, a, r, opts).events[|s.events|];
  }

  /** A final capture closes the agent's record: from no event to exactly one. */
  lemma CaptureCloses(book: PriceBook, s: Sink, a: AgentId, r: GatewayResult, opts: CaptureOpts)
    requires EventsOf(s.events, a) == [] && (r.Failed? || opts.final)
    ensures Closed(Capture(book, s, a, r, opts), a) && OnlyTouches(s, Capture(book, s, a, r, opts), a)
  {
    hide Capture, SameTotals, Names, EventsOf;
    var e := CaptureAppends(book, s, a, r, opts);
    EventsOfNext(s.events, e, a);
    assert Closed(Capture(book, s, a, r, opts), a);
    hide Closed;
    forall b | b != a
      ensures EventsOf(s.events + [e], b) == EventsOf(s.events, b)
    {
      EventsOfNext(s.events, e, b);
    }
  }

  lemma CaptureRetries(book: PriceBook, s: Sink, a: AgentId, r: GatewayResult, opts: CaptureOpts)
    requires StillOpen(s, a) && r.Ok? && !opts.final
    ensures var t := Capture(book, s, a, r, opts);
            StillOpen(t, a) && a !in t.live && OnlyTouches(s, t, a)
  {
    CaptureEmits(book, s, a, r, opts);
    hide Capture, EventsOf;
  }

  lemma FinalizeCloses(book: PriceBook, s: Sink, a: AgentId, dispatched: Option<string>)
    requires EventsOf(s.events, a) == [] && Paired(s)
    ensures var t := FinalizeAborted(book, s, a, dispatched);
            Closed(t, a) && OnlyTouches(s, t, a) && Paired(t) && Gap(t) == Gap(s)
  {
    CaptureCloses(book, s, a, AbortedResult(Live(s, a), dispatched), PLAIN);
    CaptureConserves(book, s, a, AbortedResult(Live(s, a), dispatched), PLAIN);
  }

  lemma AnsweringKeeps(book: PriceBook, s: Sink, a: AgentId, job: Job, answer: Answer)
    requires Paired(s) && JobOk(s, a, job) && job.pc.InFlight?
    ensures var (t, pc) := Answering(book, s, a, job.prompts, job.pc.attempt, answer);
            && Paired(t) && Gap(t) == Gap(s) && JobOk(t, a, job.(pc := pc)) && OnlyTouches(s, t, a)
            && (pc.Escaped? <==> answer.Threw?)
  {
    hide Capture, Paired, Gap, FinalizeAborted, Closed, OnlyTouches, ApplyAbortEstimate, EventsOf, NothingSpent;
    var i := job.pc.attempt;
    match answer
    case RaceLost => FinalizeCloses(book, s, a, Some(job.prompts[i]));
    case Threw => TouchesNothing(s, a);
    case Returned(r, conforms) =>
      if r.Failed? {
        var e := ApplyAbortEstimate(r, Some(job.prompts[i]));
        StillFailed(r, Some(job.prompts[i]));
        CaptureConserves(book, s, a, e, PLAIN);
        CaptureCloses(book, s, a, e, PLAIN);
      } else if |job.prompts| == 1 {
        CaptureConserves(book, s, a, r, PLAIN);
        CaptureCloses(book, s, a, r, PLAIN);
      } else {
        var opts := OptsFor(conforms, i, |job.prompts|);
        CaptureConserves(book, s, a, r, opts);
        if opts.final {
          CaptureCloses(book, s, a, r, opts);
        } else {
          CaptureRetries(book, s, a, r, opts);
        }
      }
  }

  lemma StillFailed(r: GatewayResult, dispatched: Option<string>)
    requires r.Failed?
    ensures ApplyAbortEstimate(r, dispatched).Failed?
  {
  }

  // ----- every step keeps the invariant -----

  /** The bookkeeping steps. */
  predicate Marks(act: Action) {
    act.Queue? || act.Start? || act.Harness? || act.Usage?
  }

  lemma MarkConserves(book: PriceBook, s: Sys, act: Action)
    requires Inv(s) && Marks(act)
    ensures Paired(Step(book, s, act).sink) && Gap(Step(book, s, act).sink) == Gap(s.sink)
  {
    var a := act.a;
    assert AgentOk(s, a);
    hide EventsOf, Paired, Gap, SameTotals, JobOk, Untouched;
    match act
    case Queue(_) =>
      QueueForgets(s.sink, a);
      PlusNothing(Gap(s.sink));
    case Start(_) => MarksConserve(s.sink, a, "", "", ZERO_TOKENS);
    case Harness(_, model, provider) => MarksConserve(s.sink, a, model, provider, ZERO_TOKENS);
    case Usage(_, figure) => MarksConserve(s.sink, a, "", "", figure);
  }

  lemma MarksSpendNothing(s: Sink, a: AgentId, model: string, provider: string, figure: Tokens)
    requires NothingSpent(s, a)
    ensures NothingSpent(MarkQueued(s, a), a) && NothingSpent(MarkRunning(s, a), a)
      && NothingSpent(MarkRefused(s, a), a)
    ensures NothingSpent(MarkHarness(s, a, model, provider), a) && NothingSpent(MarkUsage(s, a, figure), a)
  {
  }

  lemma HarnessKeepsTotals(e: UsageEvent, r: Record, model: string, provider: string)
    requires SameTotals(e, r)
    ensures SameTotals(e, r.(model := model, provider := provider))
  {
  }

  lemma MarkAgent(book: PriceBook, s: Sys, act: Action)
    requires AgentOk(s, act.a) && Marks(act)
    ensures AgentOk(Step(book, s, act), act.a) && Step(book, s, act).jobs == s.jobs
  {
    hide EventsOf, NothingSpent, SameTotals;
    var a := act.a;
    var model, provider := if act.Harness? then act.model else "", if act.Harness? then act.provider else "";
    if NothingSpent(s.sink, a) {
      MarksSpendNothing(s.sink, a, model, provider, if act.Usage? then act.figure else ZERO_TOKENS);
    }
    if a in s.jobs && s.jobs[a].pc.Settled? {
      HarnessKeepsTotals(EventsOf(s.sink.events, a)[0], s.sink.records[a], model, provider);
    }
  }

  lemma MarkTouches(book: PriceBook, s: Sys, act: Action)
    requires Marks(act)
    ensures OnlyTouches(s.sink, Step(book, s, act).sink, act.a)
  {
    hide EventsOf;
  }

  lemma MarkInv(book: PriceBook, s: Sys, act: Action)
    requires Inv(s) && Marks(act)
    ensures Inv(Step(book, s, act)) && Gap(Step(book, s, act).sink) == Plus(Gap(s.sink), Loses(s, act))
  {
    hide Paired, Gap, EventsOf, Step, JobOk, Untouched, OnlyTouches;
    assert AgentOk(s, act.a);
    MarkConserves(book, s, act);
    PlusNothing(Gap(s.sink));
    MarkAgent(book, s, act);
    MarkTouches(book, s, act);
    OthersKept(s, Step(book, s, act), act.a);
  }

  lemma RefusedKeeps(s: Sink, a: AgentId)
    requires Paired(s) && EventsOf(s.events, a) == []
    ensures var t := MarkRefused(s, a);
            && Paired(t) && Gap(t) == Plus(Gap(s), SpentIn(s.records, a)) && OnlyTouches(s, t, a) && Rejected(t, a)
            && (a in t.live <==> a in s.live)
  {
    hide EventsOf, Gap, Paired;
    QueueForgets(s, a);
  }

  /** What the catch does to a call that has not ended. */
  lemma CaughtKeeps(s: Sink, a: AgentId)
    requires Paired(s) && StillOpen(s, a)
    ensures var t := RefuseUnfinished(s, a);
            Paired(t) && Gap(t) == Plus(Gap(s), SpentIn(s.records, a)) && OnlyTouches(s, t, a) && Rejected(t, a)
  {
    hide EventsOf, Gap, Paired, MarkRefused, OnlyTouches;
    RefusedKeeps(s, a);
    TouchesNothing(s, a);
    PlusNothing(Gap(s));
  }

  /** Refusing a record forgets what it held: nothing, except after a gateway that threw on a later attempt. */
  lemma RefuseInv(book: PriceBook, s: Sys, act: Action)
    requires Inv(s) && act.Refuse?
    ensures Inv(Step(book, s, act)) && Gap(Step(book, s, act).sink) == Plus(Gap(s.sink), Loses(s, act))
    ensures OnlyTouches(s.sink, Step(book, s, act).sink, act.a)
  {
    hide Paired, Gap, EventsOf, SameTotals, Closed, MarkRefused, RefuseUnfinished, OnlyTouches, StillOpen;
    var a, t := act.a, Step(book, s, act);
    assert AgentOk(s, a);
    if a !in s.jobs {
      RefusedKeeps(s.sink, a);
    } else if s.jobs[a].pc.Escaped? {
      CaughtKeeps(s.sink, a);
    } else {
      TouchesNothing(s.sink, a);
      PlusNothing(Gap(s.sink));
    }
    hide NothingSpent;
    OthersKept(s, t, a);
  }

  lemma BeginInv(book: PriceBook, s: Sys, act: Action)
    requires Inv(s) && act.Begin?
    ensures Inv(Step(book, s, act)) && Gap(Step(book, s, act).sink) == Plus(Gap(s.sink), Loses(s, act))
  {
    hide Capture, Paired, Gap, FinalizeAborted, SameTotals, EventsOf, NothingSpent;
    var a, t := act.a, Step(book, s, act);
    assert AgentOk(s, a);
    PlusNothing(Gap(s.sink));
    if t != s {
      if act.aborted {
        FinalizeCloses(book, s.sink, a, Option.None);
      } else if act.refused {
        CaptureConserves(book, s.sink, a, REFUSAL, PLAIN);
        CaptureCloses(book, s.sink, a, REFUSAL, PLAIN);
      }
      OthersKept(s, t, a);
    }
  }

  lemma DispatchInv(book: PriceBook, s: Sys, act: Action)
    requires Inv(s) && act.Dispatch?
    ensures Inv(Step(book, s, act)) && Gap(Step(book, s, act).sink) == Plus(Gap(s.sink), Loses(s, act))
  {
    hide Capture, Paired, Gap, FinalizeAborted, SameTotals, EventsOf, NothingSpent;
    var a, t := act.a, Step(book, s, act);
    assert AgentOk(s, a);
    PlusNothing(Gap(s.sink));
    if t != s {
      if act.aborted {
        FinalizeCloses(book, s.sink, a, Option.None);
      }
      OthersKept(s, t, a);
    }
  }

  lemma AnsweredInv(book: PriceBook, s: Sys, act: Action)
    requires Inv(s) && act.Answered?
    ensures Inv(Step(book, s, act)) && Gap(Step(book, s, act).sink) == Plus(Gap(s.sink), Loses(s, act))
  {
    hide Answering, Paired, Gap, SameTotals, EventsOf, OnlyTouches;
    var a, t := act.a, Step(book, s, act);
    assert AgentOk(s, a);
    PlusNothing(Gap(s.sink));
    if t != s {
      AnsweringKeeps(book, s.sink, a, s.jobs[a], act.answer);
      OthersKept(s, t, a);
    }
  }

  /** Every step keeps the invariant and moves the guard with the records, but for what a refusal forgets. */
  lemma StepInv(book: PriceBook, s: Sys, act: Action)
    requires Inv(s)
    ensures Inv(Step(book, s, act)) && Gap(Step(book, s, act).sink) == Plus(Gap(s.sink), Loses(s, act))
  {
    hide Inv, Gap, Loses, Step;
    match act
    case Begin(_, _, _, _) => BeginInv(book, s, act);
    case Dispatch(_, _) => DispatchInv(book, s, act);
    case Answered(_, _) => AnsweredInv(book, s, act);
    case Refuse(_) => RefuseInv(book, s, act);
    case _ => MarkInv(book, s, act);
  }

  /** What all the refusals of a run forget. */
  ghost function Lost(book: PriceBook, s: Sys, acts: seq<Action>): Amount
    decreases |acts|
  {
    if acts == [] then NOTHING else Plus(Loses(s, acts[0]), Lost(book, Step(book, s, acts[0]), acts[1..]))
  }

  lemma PlusAssociates(x: Amount, y: Amount, z: Amount)
    ensures Plus(Plus(x, y), z) == Plus(x, Plus(y, z))
  {
  }

  /** In every reachable state, whatever the interleaving: the guard was charged the sum over agents and what
      refusals forgot; every settled call has one event with its record's totals; no other call looks finished;
      and no call has reached the gateway more than three times. */
  lemma {:induction false} RunInv(book: PriceBook, s: Sys, acts: seq<Action>)
    requires Inv(s)
    ensures Inv(Run(book, s, acts)) && Gap(Run(book, s, acts).sink) == Plus(Gap(s.sink), Lost(book, s, acts))
    ensures forall a :: a in Run(book, s, acts).jobs ==> Run(book, s, acts).jobs[a].calls <= SCHEMA_RETRY_ATTEMPTS
    decreases |acts|
  {
    hide Step, Gap, Plus, Loses;
    if acts == [] {
      PlusNothing(Gap(s.sink));
      forall a | a in s.jobs
        ensures s.jobs[a].calls <= SCHEMA_RETRY_ATTEMPTS
      {
        assert AgentOk(s, a);
      }
    } else {
      var next := Step(book, s, acts[0]);
      StepInv(book, s, acts[0]);
      RunInv(book, next, acts[1..]);
      PlusAssociates(Gap(s.sink), Loses(s, acts[0]), Lost(book, next, acts[1..]));
    }
  }

  lemma EmptyInv()
    ensures Inv(Sys(EMPTY, map[])) && Conserved(EMPTY)
  {
  }

  // ----- a call that is over stays over -----

  /** `run()` has settled, or its error has been dealt with. */
  predicate Over(pc: Pc) {
    pc.Settled? || pc.Caught?
  }

  /** The same record except for the backend it names. */
  ghost predicate SameButBackend(r: Record, q: Record) {
    q == r.(model := q.model, provider := q.provider)
  }

  function Backend(r: Record): (string, string) {
    (r.model, r.provider)
  }

  lemma StepSettled(book: PriceBook, s: Sys, act: Action, a: AgentId)
    requires Inv(s) && a in s.jobs && Over(s.jobs[a].pc)
    ensures var t := Step(book, s, act);
            && a in t.jobs && t.jobs[a] == s.jobs[a] && (a in t.sink.records <==> a in s.sink.records)
            && EventsOf(t.sink.events, a) == EventsOf(s.sink.events, a)
            && (a in s.sink.records ==>
                && SameButBackend(s.sink.records[a], t.sink.records[a])
                && Backend(t.sink.records[a]) == if act.Harness? && act.a == a then (act.model, act.provider)
                                                 else Backend(s.sink.records[a]))
  {
    assert AgentOk(s, a) && AgentOk(s, act.a);
    if act.a == a {
      hide EventsOf, SameTotals;
    } else {
      StepTouches(book, s, act);
      hide Step, EventsOf, SameTotals;
      assert EventsOf(Step(book, s, act).sink.events, a) == EventsOf(s.sink.events, a);
    }
  }

  lemma SomeAgent(s: Sys, a: AgentId)
    requires Inv(s)
    ensures AgentOk(s, a)
  {
  }

  lemma StepTouches(book: PriceBook, s: Sys, act: Action)
    requires Inv(s)
    ensures OnlyTouches(s.sink, Step(book, s, act).sink, act.a)
    ensures forall b :: b != act.a ==>
                          (b in Step(book, s, act).jobs <==> b in s.jobs) &&
                          (b in s.jobs ==> Step(book, s, act).jobs[b] == s.jobs[b])
  {
    hide EventsOf, SameTotals, Conserved, Capture, FinalizeAborted, Answering, OnlyTouches;
    var a := act.a;
    assert AgentOk(s, a);
    match act
    case Begin(_, prompts, aborted, refused) =>
      if a !in s.jobs {
        FinalizeCloses(book, s.sink, a, Option.None);
        CaptureCloses(book, s.sink, a, REFUSAL, PLAIN);
      }
      TouchesNothing(s.sink, a);
    case Dispatch(_, aborted) =>
      if a in s.jobs && s.jobs[a].pc.Ready? {
        FinalizeCloses(book, s.sink, a, Option.None);
      }
      TouchesNothing(s.sink, a);
    case Answered(_, answer) =>
      if a in s.jobs && s.jobs[a].pc.InFlight? {
        AnsweringKeeps(book, s.sink, a, s.jobs[a], answer);
      }
      TouchesNothing(s.sink, a);
    case Refuse(_) => RefuseInv(book, s, act);
    case _ =>
      MarkTouches(book, s, act);
      MarkAgent(book, s, act);
  }

  lemma TouchesNothing(s: Sink, a: AgentId)
    ensures OnlyTouches(s, s, a)
  {
  }

  /** A call ends once: whatever follows, its outcome, its usage event (none if an error came out of it) and every
      figure on its record stay as they were. */
  lemma {:induction false} SettledForever(book: PriceBook, s: Sys, acts: seq<Action>, a: AgentId)
    requires Inv(s) && a in s.jobs && Over(s.jobs[a].pc)
    ensures var t := Run(book, s, acts);
            && a in t.jobs && t.jobs[a] == s.jobs[a] && (a in t.sink.records <==> a in s.sink.records)
            && EventsOf(t.sink.events, a) == EventsOf(s.sink.events, a)
            && |EventsOf(s.sink.events, a)| == (if s.jobs[a].pc.Settled? then 1 else 0)
            && (a in s.sink.records ==> s.sink.records[a].ended && SameButBackend(s.sink.records[a], t.sink.records[a]))
    decreases |acts|
  {
    hide Step, EventsOf, Inv, SameTotals;
    assert AgentOk(s, a) by { SomeAgent(s, a); }
    if acts != [] {
      StepSettled(book, s, acts[0], a);
      StepInv(book, s, acts[0]);
      SettledForever(book, Step(book, s, acts[0]), acts[1..], a);
    }
  }

  // ----- errors that come out of a call -----

  lemma RunNone(book: PriceBook, s: Sys)
    ensures Run(book, s, []) == s
  {
  }

  lemma {:induction false} RunOne(book: PriceBook, s: Sys, acts: seq<Action>, act: Action)
    ensures Run(book, s, acts + [act]) == Step(book, Run(book, s, acts), act)
    decreases |acts|
  {
    hide Step;
    if acts == [] {
      assert acts + [act] == [act];
      assert Run(book, Step(book, s, act), []) == Step(book, s, act);
    } else {
      assert (acts + [act])[1..] == acts[1..] + [act];
      RunOne(book, Step(book, s, acts[0]), acts[1..], act);
    }
  }

  /** A record once made is never dropped. */
  lemma {:induction false} RecordStays(book: PriceBook, s: Sys, acts: seq<Action>, a: AgentId)
    requires a in s.sink.records
    ensures a in Run(book, s, acts).sink.records
    decreases |acts|
  {
    if acts != [] {
      RecordStaysOnce(book, s, acts[0], a);
      RecordStays(book, Step(book, s, acts[0]), acts[1..], a);
    }
  }

  lemma RecordStaysOnce(book: PriceBook, s: Sys, act: Action, a: AgentId)
    requires a in s.sink.records
    ensures a in Step(book, s, act).sink.records
  {
    hide PriceCall, RatesFor, ApplyAbortEstimate, OkRecord, FailedRecord, OkEvent, FailedEvent, FailedUsage, OkSpending;
  }

  lemma StepEscaped(book: PriceBook, s: Sys, act: Action, a: AgentId)
    requires Inv(s) && a in s.jobs && s.jobs[a].pc.Escaped? && act != Refuse(a)
    ensures var t := Step(book, s, act);
            && a in t.jobs && t.jobs[a] == s.jobs[a] && (a in t.sink.records <==> a in s.sink.records)
            && SpentIn(t.sink.records, a) == SpentIn(s.sink.records, a)
  {
    hide EventsOf, SameTotals;
    assert AgentOk(s, a);
    if act.a != a {
      StepTouches(book, s, act);
      hide Step;
      assert EventsOf(Step(book, s, act).sink.events, a) == EventsOf(s.sink.events, a);
    }
  }

  /** Until the error is caught, the call's record shows what it did. */
  lemma {:induction false} EscapedKept(book: PriceBook, s: Sys, acts: seq<Action>, a: AgentId)
    requires Inv(s) && a in s.jobs && s.jobs[a].pc.Escaped? && Refuse(a) !in acts
    ensures var t := Run(book, s, acts);
            && a in t.jobs && t.jobs[a] == s.jobs[a] && (a in t.sink.records <==> a in s.sink.records)
            && SpentIn(t.sink.records, a) == SpentIn(s.sink.records, a)
    decreases |acts|
  {
    hide Step, Inv, SpentIn;
    if acts != [] {
      assert acts[0] in acts && forall x :: x in acts[1..] ==> x in acts;
      StepEscaped(book, s, acts[0], a);
      StepInv(book, s, acts[0]);
      EscapedKept(book, Step(book, s, acts[0]), acts[1..], a);
    }
  }

  lemma Throws(book: PriceBook, s: Sys, a: AgentId)
    requires Inv(s) && a in s.jobs && s.jobs[a].pc.InFlight?
    ensures Step(book, s, Answered(a, Threw))
      == s.(jobs := s.jobs[a := s.jobs[a].(pc := Escaped(s.jobs[a].pc.attempt))])
  {
    SomeAgent(s, a);
    hide Paired, EventsOf, SameTotals, SpentIn;
  }

  lemma Catches(book: PriceBook, s: Sys, a: AgentId)
    requires a in s.jobs && s.jobs[a].pc.Escaped?
    ensures Step(book, s, Refuse(a)).jobs == s.jobs[a := s.jobs[a].(pc := Caught(s.jobs[a].pc.attempt))]
    ensures Loses(s, Refuse(a)) == SpentIn(s.sink.records, a)
  {
    hide RefuseUnfinished;
  }

  /** A gateway that throws leaves the totals equal, once its error has been caught, exactly when the earlier attempts
      of that call had spent nothing; so always when it throws on the first. The record is refused and there is no
      usage event. Meanwhile anything else may happen that forgets nothing. */
  lemma ThrowConservesIff(book: PriceBook, s: Sys, a: AgentId, meanwhile: seq<Action>)
    requires Inv(s) && Conserved(s.sink) && a in s.jobs && s.jobs[a].pc.InFlight? && Refuse(a) !in meanwhile
    requires Lost(book, Step(book, s, Answered(a, Threw)), meanwhile) == NOTHING
    ensures var t := Step(book, Run(book, Step(book, s, Answered(a, Threw)), meanwhile), Refuse(a));
            && a in t.jobs && t.jobs[a].pc == Caught(s.jobs[a].pc.attempt) && Rejected(t.sink, a)
            && (Conserved(t.sink) <==> NothingSpent(s.sink, a))
            && (s.jobs[a].pc.attempt == 0 ==> Conserved(t.sink))
  {
    hide Gap, Paired, EventsOf, Plus, Run, Step, SpentIn, Lost, Rejected, StillOpen, SameTotals;
    SomeAgent(s, a);
    var thrown := Step(book, s, Answered(a, Threw));
    Throws(book, s, a);
    var waits := Run(book, thrown, meanwhile);
    StepInv(book, s, Answered(a, Threw));
    EscapedKept(book, thrown, meanwhile, a);
    RunInv(book, thrown, meanwhile);
    StepInv(book, waits, Refuse(a));
    Catches(book, waits, a);
    PlusNothing(NOTHING);
    PlusNothing(SpentIn(s.sink.records, a));
    SomeAgent(Step(book, waits, Refuse(a)), a);
  }

  /** No gateway reports less than zero. */
  predicate FairStep(act: Action) {
    match act
    case Usage(_, figure) => Sensible(figure)
    case Answered(_, Returned(r, _)) => FairResult(r)
    case _ => true
  }

  lemma StepFair(book: PriceBook, s: Sys, act: Action)
    requires FairBook(book) && FairSink(s.sink) && FairStep(act)
    ensures FairSink(Step(book, s, act).sink) && AtLeastNothing(Loses(s, act))
  {
    hide Capture, ApplyAbortEstimate, AbortedResult, FairBook;
    var a := act.a;
    match act
    case Begin(_, _, _, _) =>
      AbortFair(s.sink, a, REFUSAL, Option.None);
      CaptureFair(book, s.sink, a, AbortedResult(Live(s.sink, a), Option.None), PLAIN);
      CaptureFair(book, s.sink, a, REFUSAL, PLAIN);
    case Dispatch(_, _) =>
      AbortFair(s.sink, a, REFUSAL, Option.None);
      CaptureFair(book, s.sink, a, AbortedResult(Live(s.sink, a), Option.None), PLAIN);
    case Answered(_, answer) => AnsweredFair(book, s, a, answer);
    case _ =>
  }

  lemma AnsweredFair(book: PriceBook, s: Sys, a: AgentId, answer: Answer)
    requires FairBook(book) && FairSink(s.sink) && FairStep(Answered(a, answer))
    ensures FairSink(Step(book, s, Answered(a, answer)).sink)
  {
    hide Capture, ApplyAbortEstimate, AbortedResult, FairBook, FairSink, FairResult;
    if a in s.jobs && s.jobs[a].pc.InFlight? && s.jobs[a].pc.attempt < |s.jobs[a].prompts| {
      var i, prompts := s.jobs[a].pc.attempt, s.jobs[a].prompts;
      match answer
      case RaceLost =>
        AbortFair(s.sink, a, REFUSAL, Some(prompts[i]));
        CaptureFair(book, s.sink, a, AbortedResult(Live(s.sink, a), Some(prompts[i])), PLAIN);
      case Threw =>
      case Returned(r, conforms) =>
        AbortFair(s.sink, a, r, Some(prompts[i]));
        if r.Failed? {
          CaptureFair(book, s.sink, a, ApplyAbortEstimate(r, Some(prompts[i])), PLAIN);
        } else {
          CaptureFair(book, s.sink, a, r, if |prompts| == 1 then PLAIN else OptsFor(conforms, i, |prompts|));
        }
    }
  }

  /** Some error was caught from a call whose earlier attempts had spent something. */
  ghost predicate Forgets(book: PriceBook, s: Sys, acts: seq<Action>)
    decreases |acts|
  {
    acts != [] && (Loses(s, acts[0]) != NOTHING || Forgets(book, Step(book, s, acts[0]), acts[1..]))
  }

  lemma PlusFair(x: Amount, y: Amount)
    requires AtLeastNothing(x) && AtLeastNothing(y)
    ensures AtLeastNothing(Plus(x, y)) && (Plus(x, y) == NOTHING <==> x == NOTHING && y == NOTHING)
  {
  }

  lemma {:induction false} LostIffForgets(book: PriceBook, s: Sys, acts: seq<Action>)
    requires FairBook(book) && FairSink(s.sink) && forall act :: act in acts ==> FairStep(act)
    ensures AtLeastNothing(Lost(book, s, acts)) && (Lost(book, s, acts) != NOTHING <==> Forgets(book, s, acts))
    decreases |acts|
  {
    hide Step, Loses, FairSink, FairBook, FairStep, Plus;
    if acts != [] {
      assert acts[0] in acts && forall x :: x in acts[1..] ==> x in acts;
      StepFair(book, s, acts[0]);
      LostIffForgets(book, Step(book, s, acts[0]), acts[1..]);
      PlusFair(Loses(s, acts[0]), Lost(book, Step(book, s, acts[0]), acts[1..]));
    }
  }

  /** Over every run of any number of agents: the guard's totals are the sums over the records exactly when no error
      was caught from a call whose earlier attempts had spent something. */
  lemma ConservedIff(book: PriceBook, acts: seq<Action>)
    requires FairBook(book) && forall act :: act in acts ==> FairStep(act)
    ensures Conserved(Run(book, Sys(EMPTY, map[]), acts).sink) <==> !Forgets(book, Sys(EMPTY, map[]), acts)
  {
    EmptyInv();
    hide Inv, Gap, Run, Lost, Forgets, FairBook, FairStep, Plus;
    RunInv(book, Sys(EMPTY, map[]), acts);
    LostIffForgets(book, Sys(EMPTY, map[]), acts);
    PlusNothing(Lost(book, Sys(EMPTY, map[]), acts));
  }

  /** A first reply that does not conform, then a gateway that throws. */
  function AskedAgain(a: AgentId, prompts: seq<string>, first: GatewayResult): seq<Action> {
    [Queue(a), Start(a), Begin(a, prompts, false, false), Dispatch(a, false), Answered(a, Returned(first, false))]
    + [Dispatch(a, false), Answered(a, Threw), Refuse(a)]
  }

  lemma RunThree(book: PriceBook, s: Sys, x: Action, y: Action, z: Action)
    ensures Run(book, s, [x, y, z]) == Step(book, Step(book, Step(book, s, x), y), z)
  {
    hide Step;
    RunNone(book, s);
    RunOne(book, s, [], x);
    RunOne(book, s, [x], y);
    RunOne(book, s, [x, y], z);
    assert [] + [x] == [x] && [x] + [y] == [x, y] && [x, y] + [z] == [x, y, z];
  }

  lemma {:induction false} RunParts(book: PriceBook, s: Sys, acts: seq<Action>, more: seq<Action>)
    ensures Run(book, s, acts + more) == Run(book, Run(book, s, acts), more)
    decreases |acts|
  {
    hide Step;
    if acts == [] {
      assert acts + more == more;
    } else {
      assert (acts + more)[1..] == acts[1..] + more;
      RunParts(book, Step(book, s, acts[0]), acts[1..], more);
    }
  }

  lemma FirstReply(book: PriceBook, a: AgentId, prompts: seq<string>, first: GatewayResult)
    requires |prompts| == SCHEMA_RETRY_ATTEMPTS && first.Ok?
    ensures var s := Run(book, Sys(EMPTY, map[]), AskedAgain(a, prompts, first)[..5]);
            && s.jobs == map[a := Job(prompts, Ready(1), 1)] && a in s.sink.records && s.sink.records.Keys == {a}
            && s.sink.records[a].state == Running && s.sink.events == []
            && s.sink.spentTokens == SumTokens(first.tokens)
  {
    var s0, three := Sys(EMPTY, map[]), [Queue(a), Start(a), Begin(a, prompts, false, false)];
    var four, five := three + [Dispatch(a, false)], AskedAgain(a, prompts, first)[..5];
    assert five == four + [Answered(a, Returned(first, false))];
    RunThree(book, s0, Queue(a), Start(a), Begin(a, prompts, false, false));
    RunOne(book, s0, three, Dispatch(a, false));
    RunOne(book, s0, four, Answered(a, Returned(first, false)));
    hide Run, PriceCall, SumTokens, AddTokens, RatesFor;
    assert Run(book, s0, four).jobs == map[a := Job(prompts, InFlight(0), 1)];
  }

  lemma ThrowRefuses(book: PriceBook, s: Sys, a: AgentId, prompts: seq<string>)
    requires s.jobs == map[a := Job(prompts, Ready(1), 1)] && |prompts| > 1
    requires a in s.sink.records && s.sink.records[a].state == Running
    ensures Step(book, Step(book, Step(book, s, Dispatch(a, false)), Answered(a, Threw)), Refuse(a)).sink
      == MarkRefused(s.sink, a)
  {
    hide MarkRefused;
  }

  lemma OneRefused(s: Sink, a: AgentId)
    requires s.records.Keys == {a}
    ensures Total(MarkRefused(s, a).records) == NOTHING && MarkRefused(s, a).events == s.events
    ensures Gap(MarkRefused(s, a)).tokens == s.spentTokens && MarkRefused(s, a).spentTokens == s.spentTokens
    ensures a in MarkRefused(s, a).records && MarkRefused(s, a).records[a].state == Refused
  {
    hide Total;
    var t := MarkRefused(s, a);
    TotalOne(t.records, a);
  }

  /** What the first attempt was charged is then on no record and in no event. */
  lemma ThrowAfterReask(book: PriceBook, a: AgentId, prompts: seq<string>, first: GatewayResult)
    requires |prompts| == SCHEMA_RETRY_ATTEMPTS && first.Ok?
    ensures var t := Run(book, Sys(EMPTY, map[]), AskedAgain(a, prompts, first)).sink;
            && t.spentTokens == SumTokens(first.tokens) && Total(t.records) == NOTHING && t.events == []
            && a in t.records && t.records[a].state == Refused
            && (SumTokens(first.tokens) != 0 ==> !Conserved(t))
  {
    var s0 := Sys(EMPTY, map[]);
    FirstReply(book, a, prompts, first);
    var five := AskedAgain(a, prompts, first)[..5];
    assert AskedAgain(a, prompts, first) == five + [Dispatch(a, false), Answered(a, Threw), Refuse(a)];
    RunParts(book, s0, five, [Dispatch(a, false), Answered(a, Threw), Refuse(a)]);
    RunThree(book, Run(book, s0, five), Dispatch(a, false), Answered(a, Threw), Refuse(a));
    hide Run, Step, SumTokens, MarkRefused;
    var s := Run(book, s0, five);
    ThrowRefuses(book, s, a, prompts);
    OneRefused(s.sink, a);
  }

  // ----- the backend a finished call names -----

  /** The agent's record and its one event name the same backend. */
  ghost predicate Agree(s: Sink, a: AgentId) {
    && a in s.records && |EventsOf(s.events, a)| == 1
    && Names(EventsOf(s.events, a)[0], s.records[a].model, s.records[a].provider)
  }

  lemma CaptureAgrees(book: PriceBook, s: Sink, a: AgentId, r: GatewayResult, opts: CaptureOpts)
    requires EventsOf(s.events, a) == [] && (r.Failed? || opts.final)
    ensures Agree(Capture(book, s, a, r, opts), a)
  {
    hide Capture, SameTotals, Names, EventsOf;
    var e := CaptureAppends(book, s, a, r, opts);
    EventsOfNext(s.events, e, a);
  }

  lemma FinalizeAgrees(book: PriceBook, s: Sink, a: AgentId, dispatched: Option<string>)
    requires EventsOf(s.events, a) == []
    ensures Agree(FinalizeAborted(book, s, a, dispatched), a)
  {
    hide Capture, EventsOf, Agree, ApplyAbortEstimate;
    CaptureAgrees(book, s, a, AbortedResult(Live(s, a), dispatched), PLAIN);
  }

  lemma AnsweringAgrees(book: PriceBook, s: Sink, a: AgentId, prompts: seq<string>, i: nat, answer: Answer)
    requires i < |prompts| && EventsOf(s.events, a) == [] && Answering(book, s, a, prompts, i, answer).1.Settled?
    ensures Agree(Answering(book, s, a, prompts, i, answer).0, a)
  {
    hide Capture, FinalizeAborted, EventsOf, Agree, ApplyAbortEstimate;
    match answer
    case RaceLost => FinalizeAgrees(book, s, a, Some(prompts[i]));
    case Returned(r, conforms) =>
      if r.Failed? {
        StillFailed(r, Some(prompts[i]));
        CaptureAgrees(book, s, a, ApplyAbortEstimate(r, Some(prompts[i])), PLAIN);
      } else if |prompts| == 1 {
        CaptureAgrees(book, s, a, r, PLAIN);
      } else {
        CaptureAgrees(book, s, a, r, OptsFor(conforms, i, |prompts|));
      }
  }

  /** At the step that settles a call, record and event agree. */
  lemma SettlingAgrees(book: PriceBook, s: Sys, act: Action, a: AgentId)
    requires Inv(s) && (a in s.jobs ==> !s.jobs[a].pc.Settled?)
    requires a in Step(book, s, act).jobs && Step(book, s, act).jobs[a].pc.Settled?
    ensures act.a == a && Agree(Step(book, s, act).sink, a)
  {
    StepTouches(book, s, act);
    assert AgentOk(s, a);
    hide Capture, FinalizeAborted, Answering, EventsOf, Agree, OnlyTouches, Conserved, SameTotals;
    match act
    case Begin(_, _, aborted, _) =>
      if aborted {
        FinalizeAgrees(book, s.sink, a, Option.None);
      } else {
        CaptureAgrees(book, s.sink, a, REFUSAL, PLAIN);
      }
    case Dispatch(_, _) => FinalizeAgrees(book, s.sink, a, Option.None);
    case Answered(_, answer) => AnsweringAgrees(book, s.sink, a, s.jobs[a].prompts, s.jobs[a].pc.attempt, answer);
    case _ =>
  }

  /** The last harness stamp a run puts on an agent. */
  function LastHarness(acts: seq<Action>, a: AgentId): Option<(string, string)>
    decreases |acts|
  {
    if acts == [] then Option.None
    else
      var later := LastHarness(acts[1..], a);
      if later.None? && acts[0].Harness? && acts[0].a == a then Some((acts[0].model, acts[0].provider)) else later
  }

  lemma {:induction false} LastHarnessWins(book: PriceBook, s: Sys, acts: seq<Action>, a: AgentId)
    requires Inv(s) && a in s.jobs && s.jobs[a].pc.Settled?
    ensures a in s.sink.records && a in Run(book, s, acts).sink.records
    ensures Backend(Run(book, s, acts).sink.records[a]) ==
            if LastHarness(acts, a).Some? then LastHarness(acts, a).value else Backend(s.sink.records[a])
    decreases |acts|
  {
    hide Step, EventsOf, Conserved;
    assert AgentOk(s, a);
    if acts != [] {
      StepSettled(book, s, acts[0], a);
      StepInv(book, s, acts[0]);
      LastHarnessWins(book, Step(book, s, acts[0]), acts[1..], a);
    }
  }

  /** Unlike a late figure, a late harness stamp does reach a finished record. From the step that settles a call
      to any later moment, record and event name the same backend exactly when the last stamp since, if there was
      one, names the backend of the event: its provider and, for a success, its model. */
  lemma LateHarness(book: PriceBook, before: Sys, act: Action, acts: seq<Action>, a: AgentId)
    requires Inv(before) && (a in before.jobs ==> !before.jobs[a].pc.Settled?)
    requires a in Step(book, before, act).jobs && Step(book, before, act).jobs[a].pc.Settled?
    ensures var s := Step(book, before, act);
            var stamp := LastHarness(acts, a);
            && |EventsOf(s.sink.events, a)| == 1
            && (Agree(Run(book, s, acts).sink, a) <==>
                stamp.None? || Names(EventsOf(s.sink.events, a)[0], stamp.value.0, stamp.value.1))
  {
    var s := Step(book, before, act);
    SettlingAgrees(book, before, act, a);
    StepInv(book, before, act);
    hide Step, EventsOf, Inv, LastHarness, Names;
    SettledForever(book, s, acts, a);
    LastHarnessWins(book, s, acts, a);
  }

  // ----- outcomes -----

  /** A reply that arrived and does not conform to the schema. */
  predicate OffSchema(answer: Answer) {
    answer.Returned? && answer.result.Ok? && !answer.conforms
  }

  /** Where attempt `i` of `n` leads: an object only from a reply that conforms under a schema, a text only without
      one, `null` when the executor gave up, when the gateway failed, or when the third reply did not conform
      either, and one more attempt exactly when an earlier one did not. */
  ghost predicate LeadsTo(n: nat, i: nat, answer: Answer, pc: Pc) {
    && (pc == Settled(Object) <==> answer.Returned? && answer.result.Ok? && answer.conforms && n > 1)
    && (pc == Settled(Text) <==> answer.Returned? && answer.result.Ok? && n == 1)
    && (pc == Settled(Null(true)) <==> answer == RaceLost)
    && (pc == Settled(Null(false)) <==>
          answer.Returned? && (answer.result.Failed? || (OffSchema(answer) && n == 3 && i == 2)))
    && (pc == Ready(i + 1) <==> OffSchema(answer) && n == 3 && i < 2)
    && (pc == Escaped(i) <==> answer == Threw)
    && (pc.Settled? || pc == Ready(i + 1) || pc == Escaped(i)) && pc != Settled(Thrown)
  }

  /** A record says that the schema was never met, after two more questions. */
  ghost predicate SaysExhausted(r: Record) {
    r.schemaExhausted && r.reaskCount == Some(2)
  }

  ghost predicate SaysNothing(r: Record) {
    !r.schemaExhausted && r.reaskCount == Option.None
  }

  lemma AnsweringEnds(book: PriceBook, s: Sink, a: AgentId, prompts: seq<string>, i: nat, answer: Answer)
    requires i < |prompts| && AttemptCount(|prompts|)
    ensures var (t, pc) := Answering(book, s, a, prompts, i, answer);
      && LeadsTo(|prompts|, i, answer, pc)
      && (pc.Settled? ==> a in t.records)
      && (pc.Settled? && !OffSchema(answer) ==> SaysNothing(t.records[a]))
      && (pc == Settled(Text) ==> SaysNothing(t.records[a]))
      && (pc == Settled(Null(false)) && OffSchema(answer) ==> SaysExhausted(t.records[a]))
  {
    hide OkSpending, FailedUsage, PriceCall, RatesFor, OrZero, SumTokens, OkEvent, FailedEvent, OrElse, AbortedResult;
    match answer
    case RaceLost =>
      StillFailed(GivenUp(Live(s, a)), Some(prompts[i]));
      FinalizeIsCapture(book, s, a, Some(prompts[i]));
      hide FinalizeAborted, ApplyAbortEstimate;
    case Threw =>
    case Returned(r, conforms) =>
      if r.Failed? {
        StillFailed(r, Some(prompts[i]));
        hide ApplyAbortEstimate;
      }
  }

  /** The same of a step of the protocol; the usage event says what the record says. */
  lemma AnswerEnds(book: PriceBook, s: Sys, a: AgentId, answer: Answer)
    requires Inv(s) && a in s.jobs && s.jobs[a].pc.InFlight?
    ensures var t, job := Step(book, s, Answered(a, answer)), s.jobs[a];
      && a in t.jobs && LeadsTo(|job.prompts|, job.pc.attempt, answer, t.jobs[a].pc)
      && (t.jobs[a].pc.Settled? ==>
            && a in t.sink.records && |EventsOf(t.sink.events, a)| == 1
            && var r, e := t.sink.records[a], EventsOf(t.sink.events, a)[0];
               var exhausted := t.jobs[a].pc == Settled(Null(false)) && answer.result.Ok?;
               && r.schemaExhausted == e.schemaExhausted == exhausted
               && r.reaskCount == e.reaskCount == if exhausted then Some(2) else Option.None)
  {
    SomeAgent(s, a);
    AnsweringEnds(book, s.sink, a, s.jobs[a].prompts, s.jobs[a].pc.attempt, answer);
    AnsweringKeeps(book, s.sink, a, s.jobs[a], answer);
    hide Answering, Paired, Gap, EventsOf, OnlyTouches, NothingSpent;
  }

  /** A call that is aborted before anything was dispatched ends in `null`, one that is refused with an error. */
  lemma BeginEnds(book: PriceBook, s: Sys, a: AgentId, prompts: seq<string>, aborted: bool, refused: bool)
    requires a !in s.jobs && (a in s.sink.records ==> !s.sink.records[a].ended) && AttemptCount(|prompts|)
    ensures var t := Step(book, s, Begin(a, prompts, aborted, refused));
      a in t.jobs && t.jobs[a] ==
        Job(prompts, if aborted then Settled(Null(true)) else if refused then Settled(Thrown) else Ready(0), 0)
  {
    hide Capture, FinalizeAborted;
  }

  lemma DispatchEnds(book: PriceBook, s: Sys, a: AgentId, aborted: bool)
    requires a in s.jobs && s.jobs[a].pc.Ready?
    ensures var t, i := Step(book, s, Dispatch(a, aborted)), s.jobs[a].pc.attempt;
      && a in t.jobs && t.jobs[a].prompts == s.jobs[a].prompts
      && if aborted then t.jobs[a].pc == Settled(Null(true)) && t.jobs[a].calls == s.jobs[a].calls
         else t.jobs[a].pc == InFlight(i) && t.jobs[a].calls == s.jobs[a].calls + 1 && t.sink == s.sink
  {
    hide Capture, FinalizeAborted;
  }

  // ----- aborts -----

  /** An attempt in flight is aborted either because the abort wins the race or because the gateway itself
      answers that it was. */
  predicate Aborts(answer: Answer) {
    answer.RaceLost? || (answer.Returned? && answer.result.Failed? && answer.result.reason == Aborted)
  }

  /** What is reported of the attempt before any estimate. */
  function Reported(s: Sink, a: AgentId, answer: Answer): GatewayResult
    requires !answer.Threw?
  {
    match answer
    case RaceLost => GivenUp(Live(s, a))
    case Returned(r, _) => r
  }

  lemma AbortAnswering(book: PriceBook, s: Sys, a: AgentId, answer: Answer)
    requires Inv(s) && a in s.jobs && s.jobs[a].pc.InFlight? && Aborts(answer)
    ensures s.jobs[a].pc.attempt < |s.jobs[a].prompts|
    ensures Reported(s.sink, a, answer).Failed? && Reported(s.sink, a, answer).reason == Aborted
    ensures var t, text := Step(book, s, Answered(a, answer)), s.jobs[a].prompts[s.jobs[a].pc.attempt];
            && a in t.jobs && t.jobs[a].pc == Settled(Null(answer.RaceLost?))
            && t.sink == Capture(book, s.sink, a, ApplyAbortEstimate(Reported(s.sink, a, answer), Some(text)), PLAIN)
  {
    assert AgentOk(s, a);
    FinalizeIsCapture(book, s.sink, a, Some(s.jobs[a].prompts[s.jobs[a].pc.attempt]));
    hide FinalizeAborted, ApplyAbortEstimate, SumTokens, Live, Figure, Capture, SameTotals, EventsOf, Conserved;
  }

  /** An attempt that handed its gateway text and was aborted, in either way, settles its call and charges its own
      figure, or else the estimate, never both: at least one token unless the text was empty. What was estimated
      is marked as such. */
  lemma AbortedAttemptCharges(book: PriceBook, s: Sys, a: AgentId, answer: Answer)
    requires Inv(s) && a in s.jobs && s.jobs[a].pc.InFlight? && Aborts(answer)
    ensures s.jobs[a].pc.attempt < |s.jobs[a].prompts| && Reported(s.sink, a, answer).Failed?
    ensures var t, text := Step(book, s, Answered(a, answer)), s.jobs[a].prompts[s.jobs[a].pc.attempt];
            var r := Reported(s.sink, a, answer);
            && a in t.jobs && t.jobs[a].pc == Settled(Null(answer.RaceLost?))
            && t.sink.spentTokens - s.sink.spentTokens
                == (if Figure(r) > 0 then Figure(r) else EstimateInputTokens(text))
            && (text != "" ==> t.sink.spentTokens - s.sink.spentTokens >= 1)
            && a in t.sink.records && t.sink.records[a].estimated == (r.estimated || Figure(r) <= 0)
  {
    assert !answer.Threw?;
    hide *;
    AbortAnswering(book, s, a, answer);
    AbortedCharges(book, s.sink, a, Reported(s.sink, a, answer), s.jobs[a].prompts[s.jobs[a].pc.attempt]);
  }
}
