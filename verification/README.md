# Proofs about the workflow engine

This project models the parts of the engine whose correctness is hardest to see from the code, and proves what the
code's own comments and tests promise of them. Every file is Dafny; `dafny verify dfyconfig.toml` checks all of it.

| file | what it is about |
|---|---|
| Reachability.dfy, CycleLabels.dfy | Tarjan's pass over the diagram's edges, with its stack, indices and low links, as a class; the cycle rule it decides |
| DiagramLines.dfy | the line classifier, its subgraph stack and the blocks it records |
| EdgeRealisation.dfy, DiagramCheck.dfy, DiagramMeaning.dfy, DiagramRefusals.dfy | the search through non-agent nodes, the edge and lane rules, and `checkMermaid` as a whole; what acceptance and refusals say of the drawn records |
| MapSums.dfy, CasState.dfy, CasStore.dfy | the content-addressed store: a state machine whose steps are the synchronous blocks between awaits, and the class whose methods take those steps |
| UsageLedger.dfy, AgentRuns.dfy, AgentExecutor.dfy, UsageMeaning.dfy | what each sink operation does to records, guard and events; the retry loop, the run manager's catch and many agents as a protocol; the class, the loop and the catch as written; the sums records and events show |
| JsText.dfy, JsonExtract.dfy | the bracket scanner of `parseJsonContent` against a printer of JSON in concrete syntax |
| PathWalk.dfy, PathVerdict.dfy | the symlink walk against pathname resolution of POSIX.1-2017 (XBD section 4.13), containment, the lexical gate and bare names |
| ErrorEnvelope.dfy | cutting a message to a byte bound without splitting characters or markers |
| Migration.dfy | the boot migration of global assets, stopped after any step and started again |
| ResumeCache.dfy | replaying a run from its journal |
| DiagramRenderer.dfy, DiagramCatalog.dfy | the single-flight render cache with its cap and deadline; the cache behind the catalog's version numbers |
| AgentSemaphore.dfy | the slot semaphore |
| GraphLayout.dfy, LayoutMeaning.dfy | the dashboard's grid layout; where an agent's cell stands |

## How the model stands for the code

- Code that changes things step by step is imperative here too: `Tarjan`, `CasStore`, `AgentTranscriptSink`,
  `Deployment`, `Plan`, `Renderer`, `Semaphore` and `Builder` are classes whose methods state their whole new state
  as a function of the old one; the loops carry invariants. The properties are proved of those functions.
- A step is one synchronous block of the source: between two awaits nothing else runs, so every interleaving is a
  sequence of steps.
- Real things outside the code are parameters: the hash (any collision-free function), `JSON.parse`, `realpath`, the
  script, price tables, gateway answers, the clock (any sequence of times), directory listings.
- Tokens and bytes are integers, costs are reals. A Dafny string is a sequence of Unicode scalar values; where the code
  counts UTF-16 units or bytes, the model counts them too.

## Where the code does less than its comments say

- `markUsage` ignores a record that has ended and its comment says every surface then agrees; `markHarness`
  (src/agent-executor.ts:352-359) has no such guard, so a late stamp changes the provider and model a finished record
  names while its usage event keeps the old ones. Whatever happens after a call settled, the two agree exactly when the
  last stamp since, if any, names the event's backend (`AgentRuns.LateHarness`).
- `resolveLanding` differs from the kernel in three ways. After a component that does not exist it joins the rest as text,
  so a `..` there can make it return a link unresolved (`PathWalk.ClimbingPastMissing`). It walks through a file used as a
  directory, which the kernel refuses (`PathWalk.FileAsDirectory`). And its limit of 40 counts links nested in one another,
  the kernel's all links on the way (`PathWalk.LinksInARow`); at the limit it returns the link
  itself, without the rest of the text it came from, and the walks around it go on (`PathWalk.LinkLoop`).
  On every pathname the kernel resolves the two agree (`PathWalk.LandingIsKernels`). Landing on no link needs less: that the
  walk never climbs out of a missing component and never meets its own limit (`PathWalk.LandingLinkFree`).
- The containment check looks for the root followed by a slash. For the root of the file system that text starts with two
  slashes and is a prefix of nothing, so everything below that root is refused: `PathWalk.PrefixIsNesting`,
  `PathVerdict.GateIsEnough`.
- The comment over the migration says nothing is left under the asset root for the sweep to destroy. A tree whose name
  the global root already has stays there, and so does anything that is not a directory (`Migration.LeftBehind`):
  `Migration.NothingLeftIff` says the comment holds exactly when every entry is a directory with a free name.
- A bound of zero on the render cache still keeps one diagram (`DiagramRenderer.ZeroKeepsOne`); the bound is kept over every
  run exactly when it is at least one or nothing is ever rendered (`DiagramRenderer.BoundKeptIff`).
- The guard's totals are meant to be the sums over the records. A gateway may throw (src/agent-executor.ts:1076): then
  nothing is captured, the error reaches the run manager, and its catch (src/run-manager.ts:3084-3089) refuses the record,
  which sets its figures to zero. When an earlier attempt of the call was answered and charged, that charge is then on no
  record and in no usage event: `AgentRuns.ThrowAfterReask` is such a run. The totals stay equal exactly when the earlier
  attempts had spent nothing, so always when the first attempt throws (`AgentRuns.ThrowConservesIff`), and over whole runs
  exactly when no such error was caught (`AgentRuns.ConservedIff`).

The cache by itself would serve a wrong picture if a key could change its diagram while the old one is being rendered:
`DiagramRenderer.OvertakenIsServed` and `DiagramRenderer.RightIffQuiet` say when. In the engine no key ever does. The
catalog gives out no version number twice (`DiagramCatalog.NumbersOnce`), and so every hit is right in every run
(`DiagramCatalog.ServedIsRight`), whether or not the cache is invalidated.

## Model

| member | source | states |
|---|---|---|
| CycleLabels.CheckCycleLabels | src/check-mermaid.ts:591-645 | returns nothing exactly when every directed edge whose target walks back to its source has a label, and otherwise the first offending edge in source order; terminates on every finite edge list |
| CycleLabels.Components | src/check-mermaid.ts:600-636 | the pass numbers two nodes alike exactly when each reaches the other, and lists every node of the graph once |
| CycleLabels.Tarjan.Strongconnect | src/check-mermaid.ts:608-635 | one call visits everything it can reach that was unvisited, keeps the part of the stack below it and all popped components, and returns a low link that bounds and witnesses the lowest stack node reached |
| CycleLabels.Tarjan.PopStack | src/check-mermaid.ts:624-630 | popping down to the root of a component takes exactly the nodes above it, in stack order |
| CycleLabels.Tarjan.PopComponent | src/check-mermaid.ts:623-634 | the closed node's component joins the table and the stack is what it was on entry |
| CycleLabels.BuildAdj | src/check-mermaid.ts:592-596 | the adjacency list of each node is its outgoing edges in source order, with multiplicity |
| CycleLabels.StartVisiting | src/check-mermaid.ts:609-613 | giving a node the next index and pushing it keeps the pass's invariant |
| CycleLabels.AfterTreeEdge | src/check-mermaid.ts:614-618 | a nested visit followed by taking the smaller low link keeps bounds and witness for the whole upper part of the stack |
| CycleLabels.AfterOldEdge | src/check-mermaid.ts:619-621 | an edge to a visited node keeps them too, whether the node is on the stack or already popped |
| CycleLabels.LeaveOpen | src/check-mermaid.ts:614-623 | a node whose low link fell below its index may stay on the stack, finished, since it reaches an unfinished node below |
| CycleLabels.LowerHome | src/check-mermaid.ts:614-621 | a stack node reached below the current one gives every finished node above it an unfinished home below |
| CycleLabels.ComponentMutual | src/check-mermaid.ts:623-634 | everything popped with a node is mutually reachable with it |
| CycleLabels.ComponentClosed | src/check-mermaid.ts:623-634 | nothing popped with a node leads to a node still on the stack below it |
| CycleLabels.PopClasses | src/check-mermaid.ts:623-634 | after a pop, two popped nodes share a component number exactly when they are mutually reachable |
| CycleLabels.LeavePopped | src/check-mermaid.ts:623-635 | closing a component keeps the pass's invariant and everything older |
| CycleLabels.Complete | src/check-mermaid.ts:636 | once every endpoint has been visited at top level the table covers the whole graph |
| CycleLabels.NonTrivialIffOnCycle | src/check-mermaid.ts:638-643 | the test on component size and self-loops decides whether an edge lies on a cycle |
| DiagramLines.Classify | src/check-mermaid.ts:156-216 | the first line that breaks a rule is reported with that rule; otherwise nodes and edges are the declared ones in order and the blocks record exactly the closed top-level subgraphs in source order |
| DiagramLines.DeclaredOnce | src/check-mermaid.ts:196-207 | in accepted lines no id is declared twice |
| DiagramLines.LaneOfNode | src/check-mermaid.ts:171-209 | a node is in a block exactly when that block is the outermost subgraph around the node's line |
| DiagramLines.BlocksDisjoint | src/check-mermaid.ts:171-209 | no node belongs to two blocks |
| EdgeRealisation.PathThroughNonAgents | src/check-mermaid.ts:564-587 | true exactly when some route leads to a target with every interior node a non-agent or primitive-labelled node; the route of no hops counts when the start is itself a target |
| EdgeRealisation.BuildAdjacency | src/check-mermaid.ts:470-478 | the neighbours of a node are exactly its hops, two-way edges counted from both ends |
| EdgeRealisation.NoRoute | src/check-mermaid.ts:575-586 | when the queue runs empty without a target, no route of any length exists |
| DiagramCheck.CheckEdges | src/check-mermaid.ts:453-562 | null exactly when every expected slot edge is realised by a route, no edge is stray, none lies inside one parallel or alt slot and none joins two arms of one alt group; otherwise the line of the first edge, in the order of the check, that breaks the first rule broken, or 1 for an unrealised edge |
| DiagramCheck.CheckLanes | src/check-mermaid.ts:353-385 | null exactly when there is one block per expected lane, with its title, and every label of every slot is drawn in that slot's lane; otherwise the line of the first fault in the order of the check |
| DiagramCheck.BuildEdges | src/check-mermaid.ts:218-229 | the edge table is accepted exactly when every arrow line is readable and joins declared nodes; otherwise the first bad line and its rule |
| DiagramCheck.CheckLabels | src/check-mermaid.ts:231-277 | null exactly when the agents drawn are the agents the script calls, primitives being optional; otherwise both differences, or the first malformed label |
| DiagramCheck.CheckMermaid | src/check-mermaid.ts:139-331 | accepts exactly the diagrams that satisfy every rule at once; a refusal names the first rule broken, in the order of the check, and its place |
| DiagramMeaning.AcceptedIff | src/check-mermaid.ts:139-331 | the accepted diagrams, said of their node, edge and block records without any of the check's lookups: every arrow readable, agents and script the same, no unlabelled arrow whose target walks back to its source, lanes as expected, every expected edge drawn as a path with no agent inside but primitives, every drawn edge between two slots expected or labelled, members of one slot and arms of one group apart; both directions |
| DiagramRefusals.RefusalMeans | src/check-mermaid.ts:139-331 | what every refusal means, said of lines and records alone: the first rule broken in the order of the check, and the first place that breaks it, with the two differences of a mismatch |
| DiagramRefusals.EdgeFaultSays | src/check-mermaid.ts:493-559 | an edge refusal names line 1 for an expected edge nobody drew, else the first unexpected edge, else the first edge inside the first slot that has one, else the first one across the group of the first slot that has one |
| DiagramRefusals.LaneFaultSays | src/check-mermaid.ts:353-385 | a lane refusal names line 1 for a wrong number of blocks, else the first block with another title, else the first agent carrying the first label that the first slot, or lane, misses |
| DiagramMeaning.LinesRight | src/check-mermaid.ts:156-216 | the lines that break no rule of the classifier, and the rule the first bad one breaks |
| DiagramMeaning.StrayIff | src/check-mermaid.ts:512-528 | an edge is refused under rule (b) exactly when it has no label and joins nodes of two slots that are not expected to be joined in either direction |
| DiagramMeaning.AllRealisedIff | src/check-mermaid.ts:493-509 | every expected edge is realised exactly when a path of drawn edges leads from a node of the one slot to a node of the other with no agent strictly inside, a node with a primitive's label being none |
| DiagramMeaning.SlotNodes | src/check-mermaid.ts:466-469 | the nodes looked up for a slot are, for each of its labels, the first agent drawn with it in the slot's lane |
| DiagramMeaning.LoopRule | src/check-mermaid.ts:589-645 | the loop rule over all `-->` and `-.->` edges of the diagram: none breaks it, or the first one that does is named |
| DiagramMeaning.JoinsIff | src/check-mermaid.ts:536-559 | an edge is refused under rule (c2) exactly when the first arms of the group its ends stand for have different indices |
| DiagramMeaning.InsideIff | src/check-mermaid.ts:530-534 | an edge is refused under rule (c) exactly when both ends stand for one parallel or alt slot of two labels or more |
| DiagramMeaning.EdgesAreLines | src/check-mermaid.ts:196-229 | the edge table is the readable arrow lines with their line numbers, in order |
| DiagramMeaning.NodesAreLines | src/check-mermaid.ts:196-207 | the node table is the node lines with their line numbers, in order |
| DiagramMeaning.MismatchIs | src/check-mermaid.ts:256-277 | the two differences of a mismatch: labels of the script that no agent carries, and labels drawn that are neither the script's nor a primitive's |
| DiagramCheck.SlotDrawnInLane | src/check-mermaid.ts:353-385 | in an accepted diagram each slot's labels are drawn as agent nodes on lines inside that slot's own top-level subgraph |
| DiagramCheck.ArmsNotJoined | src/check-mermaid.ts:536-559 | no edge of an accepted diagram joins two arms of one alt group, in one lane or in several, as long as no node stands for two of the arms |
| DiagramCheck.LanesKeepArmsApart | src/check-mermaid.ts:463-469 | arms drawn in different lanes share no node |
| CasState.StepValid | src/cas-store.ts:178-374 | every step keeps each file hashing to its own key and each ref having a file of exactly its size |
| CasState.RunValid | src/cas-store.ts:178-374 | so does every interleaving of uploads, streams, checks and prunes |
| CasState.PruneValid | src/cas-store.ts:353-374 | a prune in the middle of streams keeps it too |
| CasState.StepImmutable | src/cas-store.ts:178-346 | a sha that stays readable keeps its bytes, whatever the step |
| CasState.StepBounded | src/cas-store.ts:269-303 | a body in flight never exceeds its declared maximum nor the allowance it started with |
| CasState.StepWithinQuota | src/cas-store.ts:151-157 | no step raises a namespace's summed usage above the limit in force at that step, even when several streams began from the same usage or a held ref was pruned meanwhile |
| CasState.PutHolds | src/cas-store.ts:178-197 | an upload is accepted exactly when its digest agrees, the disk has room, and its bytes are held or fit the limit; then its namespace holds a ref of their size used just now and the bytes can be read, and no other ref and no other file changes; a refusal changes nothing |
| CasState.FinishHolds | src/cas-store.ts:309-346 | the same of a stream that ends |
| CasState.StartExact | src/cas-store.ts:252-276 | a stream starts empty with what its limit leaves, or unlimited when its blob is held or there is no limit |
| CasState.ChunkExact | src/cas-store.ts:288-303 | a chunk is appended exactly while the body stays inside its maximum and its allowance; otherwise the stream ends, the maximum being named first |
| CasState.BodyIsChunks | src/cas-store.ts:252-303 | over any interleaving a stream in flight has the bytes of its chunks in order and the terms it was started with |
| CasState.FreshIsKept | src/cas-store.ts:353-374 | a prune that spares what is used from now on does not select a blob just uploaded |
| CasState.RecordUsage | src/cas-store.ts:166-169 | recording a ref adds its size once, and nothing for a held one |
| CasState.TouchAllKeeps | src/cas-store.ts:202-219 | a check for missing blobs moves only last-use times of held refs |
| CasState.PruneExact | src/cas-store.ts:353-374 | a prune removes exactly the stale unprotected refs of its namespace, frees exactly their sizes there, and leaves all other refs and usages; a dry run changes nothing at all |
| CasState.PruneFiles | src/cas-store.ts:362-372 | a file goes exactly when its last ref anywhere went with this prune and it is not to be kept |
| CasState.StepKeepsProtected | src/cas-store.ts:353-374 | a ref every prune of its namespace protects survives any step with its bytes |
| CasState.ProtectedSurvives | src/cas-store.ts:353-374 | and any run |
| CasStore.CasStore.UsageOf | src/cas-store.ts:139-141 | the summed sizes of the namespace's refs |
| CasStore.CasStore.CheckQuota | src/cas-store.ts:151-157 | refuses exactly when the sha is not held and the request would pass the limit |
| CasStore.CasStore.PutBlob | src/cas-store.ts:178-197 | takes the machine's upload step: size, digest, disk and quota refusals in the code's order, else file and ref |
| CasStore.CasStore.StartStream | src/cas-store.ts:252-276 | takes the machine's start step with the allowance of that moment |
| CasStore.CasStore.ChunkArrives | src/cas-store.ts:288-303 | takes the machine's chunk step: one byte too many ends the stream |
| CasStore.CasStore.FinishStream | src/cas-store.ts:309-346 | takes the machine's commit step: digest and quota are checked again before file and ref appear |
| CasStore.CasStore.MissingShas | src/cas-store.ts:202-219 | returns exactly the shas without a ref, in order, and touches exactly the others |
| CasStore.NotHeldExact | src/cas-store.ts:202-219 | a sha is listed as missing exactly when it is asked for and not held, as often as it is asked for |
| CasStore.UploadedIsHeld | src/cas-store.ts:202-219 | what was uploaded is not asked for again |
| CasStore.CasStore.Prune | src/cas-store.ts:353-374 | takes the machine's prune step and reports every selected ref once in ascending order, the bytes freed and the files deleted |
| CasStore.CasStore.DeleteFiles | src/cas-store.ts:362-372 | unlinks exactly the files no ref points to any more and nobody keeps, and counts them and their bytes |
| CasStore.CasStore.SelectVictims | src/cas-store.ts:354-357 | the selected shas are exactly the stale unprotected ones, ascending |
| UsageLedger.CaptureConserves | src/agent-executor.ts:428-749 | one capture moves the guard by exactly what it adds to the record, whatever the totals were before, in every branch: final or re-ask, failed or not, with or without usage, with or without an earlier total |
| UsageLedger.CaptureEmits | src/agent-executor.ts:428-749 | a final capture ends the record and emits one event carrying its totals, an absent figure meaning zero, and naming its provider and, on success, its model; a re-ask leaves it running and emits none |
| UsageLedger.TotalPut | src/agent-executor.ts:428-749 | rewriting one record moves the sum over agents by that record's own change |
| UsageLedger.QueueConservesIff | src/agent-executor.ts:297-350 | queuing over or refusing a record keeps the totals equal exactly when the record held nothing |
| UsageLedger.MarksConserve | src/agent-executor.ts:313-392 | running, harness stamps and streamed figures charge nothing |
| UsageLedger.AbortedCharges | src/agent-executor.ts:70-76 | capturing either kind of aborted result charges its own figure or else the estimate, never both, at least one token unless the text is empty, and marks the estimate |
| UsageLedger.FailureCharges | src/agent-executor.ts:603-685 | a failed attempt is charged what it reports itself and keeps what earlier attempts left |
| UsageLedger.AbortCharges | src/agent-executor.ts:885-926 | an attempt the executor gives up on after dispatching text charges what had streamed or else the estimate over UTF-16 units, at least one token unless the text is empty; estimated exactly when nothing had streamed |
| UsageLedger.AbortUndispatched | src/agent-executor.ts:885-926 | an abort before anything was dispatched charges what had streamed and estimates nothing |
| AgentRuns.StepInv | src/agent-executor.ts:971-1130 | every step of the protocol keeps: open calls have no usage event, settled calls have one, refused ones none, a first attempt has spent nothing, at most three gateway calls; and it moves the guard with the records, but for what the refusal of a call that threw forgets |
| AgentRuns.RunInv | src/agent-executor.ts:971-1130 | so does every interleaving of any number of agents' attempts, callbacks, refusals, aborts and errors: the guard was charged the sum over the records and what those refusals forgot |
| AgentRuns.ThrowConservesIff | src/run-manager.ts:3084-3089 | a gateway that throws leaves the totals equal, once its error is caught, exactly when the earlier attempts of that call had spent nothing, so always on the first attempt; the record is refused and there is no usage event |
| AgentRuns.ConservedIff | src/agent-executor.ts:971-1130 | over every run from an empty sink, with no negative figures or prices, the guard's totals are the sums over the records exactly when no error was caught from a call that had spent something |
| AgentRuns.ThrowAfterReask | src/run-manager.ts:3084-3089 | a run in which a first reply that does not conform is charged and a throw on the next attempt leaves that charge on no record and in no usage event |
| AgentRuns.EscapedKept | src/agent-executor.ts:1076 | until its error is caught, nothing changes what the record of a call that threw shows as spent |
| AgentRuns.CaptureCloses | src/agent-executor.ts:428-749 | a final capture takes a call from no event to exactly one with the record's totals |
| AgentRuns.AnsweringKeeps | src/agent-executor.ts:1040-1130 | what comes of an attempt in flight settles the call, leaves it unfinished for one more attempt, or lets an error out with nothing captured; in every branch the guard moves with the records |
| AgentRuns.StepSettled | src/agent-executor.ts:971-1130 | no step changes the outcome, event or figures of a call that is settled or whose error was caught |
| AgentRuns.SettledForever | src/agent-executor.ts:971-1130 | and no run does: a call ends once, with one usage event if `run()` settled and none if its error was caught |
| UsageMeaning.RecordsAreSums | src/agent-executor.ts:428-749 | over every run of any number of agents, each column of a call's record is the sum of that column over the figures its attempts reported, its cost the sum of their prices, each column at its own rate for the backend charged, `unpriced` says that one of them had no price and was no failure that used nothing, and unmapped names are collected in order; once settled its one usage event says the same, or has no figures when no attempt reported any. A record emptied by a caught error is the exception |
| UsageMeaning.CaptureShows | src/agent-executor.ts:428-749 | one capture adds exactly the reported figure to each column of record and event |
| UsageMeaning.PriceIs | src/run-guard.ts:23-26 | a figure's price is the sum of its four columns, each at its own rate, and is unknown exactly when the book has no entry for `provider/model` |
| UsageMeaning.StampStep | src/agent-executor.ts:352-359 | the backend a record names is written by harness stamps and captures alone; a capture charges the stamped backend or, where there is none, the one the reply names, and keeps it |
| AgentRuns.AnswerEnds | src/agent-executor.ts:1076-1130 | an attempt in flight ends in an object exactly when its reply conforms under a schema, in a text exactly when it is answered without one, in an aborted `null` exactly when the executor gives up, in a plain `null` exactly when the gateway failed or the third reply did not conform, and is repeated exactly after an earlier reply that did not; record and event carry `schemaExhausted` with a count of 2 in that one case and nothing otherwise |
| AgentRuns.SettlingAgrees | src/agent-executor.ts:971-1130 | at the step that settles a call, its record and its event name the same backend |
| AgentRuns.LateHarness | src/agent-executor.ts:352-359 | from the step that settles a call on, record and event name the same backend, provider and on success model, exactly when the last harness stamp since, if any, names the backend of the event |
| AgentRuns.AbortedAttemptCharges | src/agent-executor.ts:885-926 | an attempt in flight that is aborted, by losing the race or by the gateway's own answer, settles its call and charges its own figure or else the estimate, never both: at least one token unless its prompt was empty; `estimated` is set exactly for the estimate or when the gateway set it |
| AgentExecutor.AgentTranscriptSink.Capture | src/agent-executor.ts:428-749 | the method's writes to records, live figures, events and guard are the ledger's capture |
| AgentExecutor.AgentTranscriptSink.CaptureOk | src/agent-executor.ts:470-602 | likewise its success branch |
| AgentExecutor.AgentTranscriptSink.CaptureFailed | src/agent-executor.ts:603-749 | likewise its failure branch |
| AgentExecutor.AgentTranscriptSink.FailUsage | src/agent-executor.ts:603-685 | what a failure amounts to: the earlier attempts with this one, which alone is charged, or nothing when neither reported |
| AgentExecutor.AgentTranscriptSink.MarkUsage | src/agent-executor.ts:389-392 | writes the live figure only of a record that exists and has not ended |
| AgentExecutor.AgentTranscriptSink.FinalizeAborted | src/agent-executor.ts:885-926 | closes the record with the streamed figure or the estimate |
| AgentExecutor.AgentTranscriptSink.MarkRefused | src/agent-executor.ts:328-334 | ends the record as refused with its figures set to zero, whatever they were |
| AgentExecutor.AgentTranscriptSink.RefuseUnfinished | src/run-manager.ts:3084-3089 | refuses the record exactly when it is still queued or running |
| AgentExecutor.RunTracked | src/agent-executor.ts:971-1130 | what the call comes to is told from the answers it met: all but the last dispatched attempt were answered off the schema, and the last one, or an abort before the next, decides among object, text, the two kinds of `null` and the gateway's error; the record says `schemaExhausted` after 2 more questions in that case only; the loop takes exactly the protocol steps of a trace, with at most three dispatches |
| AgentExecutor.Settle | src/agent-executor.ts:1060-1130 | what an answer, an abort or an error leads to, in all cases, and that records and events move as in the protocol |
| AgentExecutor.HandleAgentRequest | src/run-manager.ts:2868-3093 | the call as the run manager makes it: queued, refused at the door or run to what its answers come to, and refused in the catch when an error comes out; whatever happens its record ends done, failed or refused, never still running, with one usage event unless it threw |
| JsonExtract.ExtractUndoesPrint | src/agent-executor.ts:147-186 | for every object or array as written, any bracket-free text before it and any text after it, fenced or not: when the whole does not parse, exactly the written value is handed to the parser |
| JsonExtract.FencedReply | src/agent-executor.ts:148-158 | a reply that is one object or array in a code fence, whatever its tag and the whitespace inside and around, is handed to the parser as that value's own text |
| JsonExtract.BareReply | src/agent-executor.ts:148-158 | so is one with whitespace around it |
| JsonExtract.ExtractIs | src/agent-executor.ts:151-183 | what comes back is the parse of the whole reply where that succeeds, else of a slice of it; nothing without a bracket |
| JsonExtract.ScanSelects | src/agent-executor.ts:160-183 | from its opening bracket the scanner stops at the value's own last character, whatever strings, escapes and brackets it holds (grammar of RFC 8259, sections 2 and 7) |
| JsonExtract.ValueNeutral | src/agent-executor.ts:166-182 | scanning a whole value at any depth leaves depth and string state as they were |
| JsonExtract.ScanBalanced | src/agent-executor.ts:166-182 | an enclosed balanced text closes at its last character and not before |
| JsonExtract.NormalizeKeeps | src/agent-executor.ts:148-158 | trimming and fence stripping never reach into the value |
| JsonExtract.SelectedIsCore | src/agent-executor.ts:159-183 | the slice taken is the value when nothing before it holds a bracket |
| JsonExtract.ParseJsonContent | src/agent-executor.ts:147-186 | the loops compute the extraction: whole text first, then the scanned slice |
| PathWalk.ResolveLanding | src/path-containment.ts:43-69 | the loop and its recursion compute the walk, and terminate |
| PathWalk.LandingIsKernels | src/path-containment.ts:43-69 | the walk lands where POSIX.1-2017 pathname resolution lands, for every pathname that resolves within 40 links, dangling last links included |
| PathWalk.KernelFinds | src/path-containment.ts:43-69 | what resolution means: a location below real directories is found where it is, as a directory, as a file, or as missing |
| PathWalk.WalkAgrees | src/path-containment.ts:43-69 | the same from any directory on the way, with the links that are left |
| PathWalk.WalkThroughLink | src/path-containment.ts:64-66 | following a link by recursion agrees with putting its text in front of the rest |
| PathWalk.KernelSplit | src/path-containment.ts:43-69 | resolving a pathname is resolving its first part and going on from there with the links that are left |
| PathWalk.WalkFromLink | src/path-containment.ts:64-66 | restarting from a rendered directory is going on from it |
| PathWalk.LandingLinkFree | src/path-containment.ts:43-69 | no existing prefix of the landing is a link, for every pathname on which no `..` follows a missing component and the limit on nested links is not met; files used as directories and any number of links in a row included |
| PathWalk.LandingStable | src/path-containment.ts:43-69 | for those pathnames resolving a landing again returns it |
| PathWalk.KernelIsSmooth | src/path-containment.ts:43-69 | every pathname the kernel resolves is one of those |
| PathWalk.ClimbingPastMissing | src/path-containment.ts:49-59 | a layout in which climbing out of a missing component makes the walk return an existing link unresolved; the kernel refuses it |
| PathWalk.FileAsDirectory | src/path-containment.ts:53-63 | a layout in which the walk goes through a file that the kernel refuses to use as a directory |
| PathWalk.LinksInARow | src/path-containment.ts:43-66 | the walk resolves any number of links one after the other, more than the kernel allows |
| PathWalk.LinkLoop | src/path-containment.ts:62-66 | a link whose text leads through itself: at the limit the walk returns the link and drops the rest of that text, and each of the 40 walks around it goes on with its own; the kernel refuses |
| PathWalk.PrefixIsNesting | src/path-containment.ts:15-20 | the string test with a separator is the test on components, except that it finds nothing below the root of the file system |
| PathWalk.LandingContained | src/path-containment.ts:15-27 | judging the landing decides exactly whether it is the root or below it, for every link-free root and every pathname as above; below the root of the file system it finds nothing |
| PathWalk.KernelContained | src/path-containment.ts:15-27 | and so whether the place the kernel reaches is at or under the root |
| PathVerdict.GateContains | src/path-verdict.ts:52-70 | whatever the gate accepts joins to a location at or under the root, although gate and join read backslashes differently |
| PathVerdict.GateIsEnough | src/path-verdict.ts:75-86 | without links in the way the containment check refuses what the gate accepts exactly when the root is that of the file system and the path leads below it |
| PathVerdict.GateIff | src/path-verdict.ts:52-70 | the gate accepts exactly the texts that break no rule: not empty, no NUL, not absolute, no `..` segment, no first name starting with `rwe-` in any letter case, and in a run workspace no `.git` segment and nothing stripped |
| PathVerdict.GateOrder | src/path-verdict.ts:52-70 | a refusal names the first rule broken |
| PathVerdict.VerdictIs | src/path-verdict.ts:75-86 | the whole verdict: the gate's refusal stands, what the gate accepts is refused exactly when its location is not contained, and what is accepted is contained and joins to a location at or under the root |
| PathVerdict.SegmentSurvives | src/path-verdict.ts:56-61 | turning backslashes into slashes only cuts segments further |
| PathVerdict.NameIsDirectChild | src/asset-sync.ts:928-939 | a name that passes the lenient check joins to a direct child of the root, and every valid bare name passes it |
| PathVerdict.BareNameIff | src/path-verdict.ts:145-156 | the valid bare names: at most 128 UTF-16 units and 200 bytes, no whitespace at either end, no separator, no control character, not empty and no dot segment; both directions |
| PathVerdict.KeyPrefixIsName | src/diagram-render.ts:47-76 | among valid names, a cache key starts with a name and a NUL exactly when it is that name's |
| ErrorEnvelope.CapErrorEnvelope | src/errors.ts:632-657 | a message that fits is left alone; the head of a longer one is the longest prefix that fits, or goes on to the closing glyph of the marker that prefix leaves open, or ends where that marker starts when no closing glyph is within reach |
| ErrorEnvelope.CapIs | src/errors.ts:632-657 | the same of the cut as a function, with the omitted count the bytes that are not kept |
| ErrorEnvelope.OneLongest | src/errors.ts:633-639 | there is exactly one longest prefix that fits |
| ErrorEnvelope.BackOff | src/errors.ts:633-639 | backing off over continuation bytes stops at the end of the last character that fits |
| ErrorEnvelope.ByteKind | src/errors.ts:636-638 | a byte is a continuation byte exactly when no character starts there (RFC 3629, section 3) |
| ErrorEnvelope.MarkersWhole | src/errors.ts:641-653 | every `‹secret:NAME›` with a name of at most 256 units free of both glyphs is wholly kept or wholly dropped |
| ErrorEnvelope.SplitMarkerKept | src/errors.ts:641-653 | one that the byte cut splits is kept to its closing glyph |
| ErrorEnvelope.CutBound | src/errors.ts:632-657 | the head is a prefix ending between characters, its bytes and the omitted count add up to the original, and it passes the bound by at most 778 bytes |
| ErrorEnvelope.CutWithin | src/errors.ts:641-654 | it passes the bound exactly when an open marker is completed |
| Migration.CrashesKeep | src/asset-sync.ts:211-269 | after any number of boots, each stopped after any step, every tree is where it was or at its free place in the global root, rows are only added, and a marker means the migration is complete |
| Migration.BootKeeps | src/asset-sync.ts:225-269 | one boot stopped anywhere keeps this; only one that is not stopped writes the marker |
| Migration.CrashRestart | src/asset-sync.ts:211-269 | a boot that completes after any crashes leaves the trees, directories and row keys an uncrashed boot would have left |
| Migration.MarkedMeansSafe | src/asset-sync.ts:211-269 | with the marker there, every legacy skill has a row, every tree with a free place is global with its contents, and what is left under the asset root is exactly the entries that had no such place, unchanged: colliding trees and everything that is no directory |
| Migration.NothingLeftIff | src/asset-sync.ts:169-177 | nothing is left under the asset root, not even the directories, exactly when every legacy entry is a directory whose name the global root lacks |
| Migration.LeftBehind | src/asset-sync.ts:226-269 | a colliding tree and a loose file are each still under the asset root after a complete migration |
| Migration.MarkedIsFinal | src/asset-sync.ts:221 | later boots change nothing |
| Migration.StoppedAt | src/asset-sync.ts:252-269 | the states a crash can leave: rows, then some moves, then some closing steps |
| Migration.RunMoves | src/asset-sync.ts:253-256 | renaming the planned trees one by one moves each once |
| Migration.NextMove | src/asset-sync.ts:241-256 | when its turn comes a tree is still in place and its target is still free, so no rename replaces anything |
| Migration.MovesAreMovable | src/asset-sync.ts:226-246 | the planned moves are exactly the directories whose name the global root does not have |
| Migration.RowsAreOwed | src/asset-sync.ts:226-250 | the planned rows are exactly one key per legacy skill directory and per provisioned server |
| Migration.RowsSay | src/asset-sync.ts:225-252 | each skill's row carries the boot's time and no config, each server's row its own time and config |
| Migration.Deployment.MigrateLegacyGlobalAssets | src/asset-sync.ts:214-269 | the function as written performs the planned steps in order, or nothing when the marker is there |
| Migration.Deployment.Scan | src/asset-sync.ts:223-247 | the nested loops find those rows and moves and change nothing |
| Migration.Deployment.MoveTrees | src/asset-sync.ts:253-256 | the rename loop relocates exactly the planned trees |
| ResumeCache.Plan.Replay | src/resume-cache.ts:33-41 | a hit needs no earlier miss, the same key and an entry that was not aborted; anything else latches |
| ResumeCache.Plan.Serve | src/resume-cache.ts:33-45 | over any calls the hits are exactly the longest prefix that matches the journal and still checks out |
| ResumeCache.LastEntryWins | src/resume-cache.ts:51-52 | the plan holds the last entry of each call |
| ResumeCache.HasEntryIff | src/resume-cache.ts:51-52 | the plan has something for a call exactly when the journal does |
| ResumeCache.CachedThroughIsLast | src/resume-cache.ts:53-54 | `cachedThrough` is the greatest journaled call, or -1 |
| ResumeCache.CachedIffMatched | src/resume-cache.ts:33-45 | a call of a resumed run is served exactly when it and all before it match |
| ResumeCache.ResumeSimulates | src/resume-cache.ts:16-57 | a deterministic script replayed against its journal makes the same calls with the same values, none dispatched again, up to the first aborted, missing or invalid call, and everything from there is dispatched |
| ResumeCache.EditedScriptHits | src/resume-cache.ts:16-57 | for an edited script the hits are exactly the longest common prefix of calls, cut at the first that cannot be replayed |
| ResumeCache.ResumedRunIsRecorded | src/resume-cache.ts:48-56 | the journal after a resumed run records that run, so another resume replays it and not the one before |
| ResumeCache.FirstRunIsRecorded | src/resume-cache.ts:48-56 | the journal of a run that started without one records all its calls and nothing else |
| DiagramRenderer.RunKeeps | src/diagram-render.ts:69-122 | over every interleaving, slots taken equal renders in flight and never pass the cap, and the cache stays within its bound or one entry |
| DiagramRenderer.ZeroKeepsOne | src/diagram-render.ts:116-120 | with a bound of zero the first picture is cached |
| DiagramRenderer.BoundKeptIff | src/diagram-render.ts:116-120 | the cache stays within its bound over every run exactly when the bound is at least one, or no render is ever allowed |
| DiagramRenderer.StepKeeps | src/diagram-render.ts:69-122 | each step keeps that, with cache and insertion order in agreement and no key cached while it is being rendered |
| DiagramRenderer.SingleFlight | src/diagram-render.ts:75-98 | renders started for a key exceed those with an outcome by one exactly while one is running |
| DiagramRenderer.DeadlineFrees | src/diagram-render.ts:92-115 | a render given up at its deadline frees its slot, caches nothing and lets the key be rendered anew |
| DiagramRenderer.HitsAreRenders | src/diagram-render.ts:69-122 | of the class alone: when no redeploy overtakes a render of its name, every hit at every later moment is a successful render of the diagram its key names then |
| DiagramRenderer.StaysCurrent | src/diagram-render.ts:69-98 | a redeploy leaves the renders in flight current exactly when none of that name renders something else |
| DiagramRenderer.OvertakenIsServed | src/diagram-render.ts:69-122 | of the class alone: in any state, a key that changes its diagram while the old one is being rendered lets the next lookup after its success hit a picture no render of the new diagram produced |
| DiagramRenderer.RightIffQuiet | src/diagram-render.ts:69-122 | of the class alone: from any state in which nothing is wrong, every hit after an event and any quiet continuation is right exactly when the event overtakes no render of its name that draws another diagram |
| DiagramRenderer.OvertakenRenderIsServed | src/diagram-render.ts:69-122 | of the class alone: a whole run of that kind from an empty cache |
| DiagramRenderer.InvalidateHitsOneName | src/diagram-render.ts:69-73 | invalidating a valid name drops exactly that name's keys |
| DiagramRenderer.EvictedHolds | src/diagram-render.ts:116-119 | making room leaves the cache below its bound or empty, and never changes an entry |
| DiagramRenderer.OldestGoes | src/diagram-render.ts:116-120 | over every run, a render that succeeds keeps every other picture while there is room, and at the bound drops exactly the one stored first |
| DiagramRenderer.OrderIsAge | src/diagram-render.ts:116-120 | the map lists its keys in the order in which their pictures were stored |
| DiagramRenderer.Renderer.Get | src/diagram-render.ts:75-98 | the answer and the new state of a lookup, in the code's order: hit, running render, refusal, start |
| DiagramRenderer.Renderer.InvalidateName | src/diagram-render.ts:69-73 | deleting while walking a copy of the keys is the invalidation step |
| DiagramRenderer.Renderer.RenderSettles | src/diagram-render.ts:110-122 | the outcome of the race is the settling step |
| DiagramCatalog.ServedIsRight | src/server.ts:614-618 | over every run of the engine from any catalog found at boot, with registrations, removals, invalidations and renders in any order, the picture a lookup hits is a successful render of the diagram of its own version, and a render it joins draws that diagram; no redeploy need be quiet |
| DiagramCatalog.FreshIsServed | src/server.ts:614-618 | a version that is registered, looked up while a slot is free, and rendered is served with its picture |
| DiagramCatalog.NumbersOnce | src/workflow-catalog.ts:1005-1032 | a version number is never given out twice, even after its row or the whole workflow is gone |
| DiagramCatalog.MarksRise | src/workflow-catalog.ts:1005-1032 | nor is a number that a mark found at boot remembers |
| DiagramCatalog.ThenCounted | src/workflow-catalog.ts:1017-1032 | no step lets a number pass its name's mark, drops a mark, or gives an existing version another diagram |
| DiagramCatalog.KeyOnce | src/diagram-render.ts:47-76 | a valid name and a version number have a cache key of their own |
| DiagramCatalog.OpenedFine | src/workflow-catalog.ts:408-418 | the backfill at boot puts every name's mark at or above its rows |
| AgentSemaphore.FirstComeFirstServed | src/agent-semaphore.ts:22-39 | over every run the tasks granted so far followed by the queue are the tasks that called, in order |
| AgentSemaphore.NoIdleSlot | src/agent-semaphore.ts:22-39 | slots in use never pass the total, and a waiting task means every slot is taken |
| AgentSemaphore.SlotPerTask | src/agent-semaphore.ts:22-52 | slots in use are exactly as many as running tasks |
| AgentSemaphore.KthWaiterKthRelease | src/agent-semaphore.ts:22-39 | the k-th waiter gets its slot at exactly the k-th later release, whatever calls come between |
| AgentSemaphore.OneReleaseEach | src/agent-semaphore.ts:45-52 | every granted slot is released once or still held, whether the body returned or threw |
| AgentSemaphore.AllSlotsReturn | src/agent-semaphore.ts:45-52 | when nothing runs, every slot is free and nobody waits |
| AgentSemaphore.Semaphore.WithSlots | src/agent-semaphore.ts:18-54 | the counter and queue follow the model on any interleaving of calls |
| GraphLayout.LayoutGraph | src/dashboard.ts:455-586 | the layout plays the list of placements and warnings, cut at the cell limit, and draws the edges between neighbouring columns |
| GraphLayout.CellsArePlaces | src/dashboard.ts:472-567 | the cells are the first placements that fit: all of them when nothing is cut, exactly `maxNodes` otherwise |
| GraphLayout.PlaySound | src/dashboard.ts:472-486 | no two cells share a column and a row, cut short or not |
| GraphLayout.AgentsConserved | src/dashboard.ts:492-565 | with lanes numbered in order and nothing cut, every live agent has exactly one cell |
| GraphLayout.LivePlaced | src/dashboard.ts:492-565 | an agent's cell is in its own lane's column, or the first column when it has no lane |
| LayoutMeaning.AgentColumn | src/dashboard.ts:492-501 | an agent's cell is in the column of its recorded lane, else of the last phase begun by the time it began or ended, else in the first; with nothing cut every agent has one there |
| LayoutMeaning.LaterIsLower | src/dashboard.ts:502-565 | of two agents in one column the later starter stands lower; in the first column this holds of those of no lane and of those of lane 0 apart, and the former stand above |
| LayoutMeaning.RowsRise | src/dashboard.ts:472-486 | cells made later in a column stand lower |
| GraphLayout.InertIffUncovered | src/dashboard.ts:537-552 | a predicted slot shows an inert cell exactly when no agent in its column carries one of its labels |
| LayoutMeaning.SlotShown | src/dashboard.ts:537-552 | with nothing cut, the inert cells of a column are exactly those of the slots the graph lists for that predicted lane that no agent shown there carries a label of |
| GraphLayout.ReachedInertIff | src/dashboard.ts:537-552 | cut short or not, a predicted slot whose turn comes while there is room shows an inert cell exactly when no agent in its column carries one of its labels |
| GraphLayout.InertIsUncovered | src/dashboard.ts:537-552 | even when cut short, an inert cell is only shown for such a slot |
| GraphLayout.UnmatchedWarned | src/dashboard.ts:512-553 | with nothing cut, an agent is warned about exactly when it is in a dynamic lane, or in a predicted lane none of whose slots carries its label; never in no lane or past the predicted ones |
| GraphLayout.EdgesJoinNeighbours | src/dashboard.ts:569-583 | the edges join exactly the cells of one occupied column with those of the next |
| GraphLayout.NoCycle | src/dashboard.ts:569-583 | no path of edges returns to its start |
| GraphLayout.LayoutIdsAgree | src/dashboard.ts:455-586 | distinct agents and slots give cells whose identities are told apart by column, which is what that needs |
| GraphLayout.InferPhaseIndex | src/dashboard.ts:423-433 | the loop finds the last phase that began no later than the agent |
| GraphLayout.GroupByLane | src/dashboard.ts:492-501 | grouping keeps each lane's agents, in order, and those of no lane |
| GraphLayout.SortAscends | src/dashboard.ts:502-504 | the order in which a lane is placed is by start time |

## Left out

- Regular expressions of the Mermaid lines: lines arrive classified, and the strip pattern of the lexical gate is a parameter; what a line matches is not modelled.
- CheckMermaid: leaves out size limits, the direction header's own pattern, the comparison of declared model, effort and timeout values, and the tools segment of the diagram checker: one-branch text checks.
- CheckLanes: requires every titled expected lane to be numbered below the number of lanes, since the code reads the title of the lane's block and would throw otherwise; `CheckMermaid` inherits this.
- SHA-256, SQLite, the file system and stream objects: maps, a collision-free function and step outcomes stand for them; the idle timer of a stream is one of the ways it aborts.
- The store's constructor with its column migration, `readBlob`, and files removed behind the store's back: the store starts valid.
- `recordPrimitive` and what it charges, transport, phase, label and frame fields and warnings on records: carried along by the code without deciding anything here.
- HandleAgentRequest: the replay cache, the semaphore, the journal and a store that fails while a captured record is written are not part of it; the door stands for the budget and the tampering refusals.
- MarkQueued: an agent id is queued once, before its call begins, since ids are never given out twice.
- The wire form of tokens: optional cache columns are read as zero, as the code's own `?? 0` does.
- Schema validation: `conforms` is part of the gateway's answer.
- JSON numbers: any bracket-free, quote-free text stands for a number or literal, which only makes the round trip more general.
- ParseJsonContent: `JSON.parse` is a parameter, so nothing is said about which texts it accepts.
- Case folding, Windows drive semantics beyond the drive-letter test, and hard links on the paths.
- CapErrorEnvelope: the decimal text of the omitted count and the redaction before it are not modelled; a message is a well-formed string.
- Migration: nothing else writes to disk or catalog between two boots, and directory listings are exact; file permissions and failing calls are crashes.
- Migration.CrashRestart: row values are not compared, since a later boot stamps its own time.
- ResumeCache: a script makes one call at a time; calls in flight side by side and nested frames are not modelled. Options are compared by their serialised text, as in the code.
- DiagramCatalog: owners, ceilings, channels and pins only refuse more registrations and removals; rows without a diagram are never looked up.
- DiagramRenderer: the child process and what an abort does to it; a follower's promise resolves with the render it joined.
- AgentSemaphore: promise scheduling after a slot is granted; the slot is taken at the release, as in the code.
- GraphLayout: timestamps are instants, so unparsable ones and locale comparison are not modelled; colours, token counts, durations and the text of warnings are left out, and cell ids are kept as tagged values.
- `deriveLanes`, `dagBox`, home cards and metrics, authorisation, network guards, tool dispatch, the error catalogue and process spawning: presentation, finite tables or composition.
