# LingxiOS: models and proofs

LingxiOS is a durable agent runtime. Work rows are leased to workers under fences, rows have lineage and dependencies,
effects have intents and receipts, and model calls have budgets. Around that sit a few self-contained algorithms. This
project models those parts in Dafny 4.11 and proves what they are for. `dafny verify dfyconfig.toml` checks all of it.

## What is modelled

**Streaming preview** (`Text`, `JsonString`, `JsonLiterals`, `Preview`, `PreviewGrammar`, `PreviewProofs`,
`PreviewAccept`, `PreviewTheorems`). `CandidateBodyParser` is a class with the fields of the original, one character at a
time; strings are sequences of UTF-16 code units. `PreviewGrammar` says without any part of the parser what a candidate
is: a JSON object (section 4 of RFC 8259) of known, distinct fields whose body is a JSON string (section 7 of RFC 8259);
`JsonLiterals` does so for the string literals. The parser accepts exactly
those texts, cut anywhere into chunks, and what it has put out is always a prefix of the decoded body. `valid` stands
for `JSON.parse` succeeding on a skipped value. White space is the class `\s` of JavaScript, which is wider than JSON's.
Two facts about the code that its comment does not say: a body that ends in an odd run of high surrogates is refused
(`PreviewTheorems.DanglingRefused`), and a chunk in which the parser fails gives no output at all, so chunk independence
is about texts that are accepted.

**Canonical JSON** (`Order`, `JsonReader`, `Canonical`, `CanonicalTheorems`). Keys are sorted by UTF-16 code units
(section 3.2.3 of RFC 8785). `JsonReader` reads JSON texts and knows nothing of the writer; the theorems say that it gets
from a canonical text the value that was written.

**Dependency graphs** (`Graphs`, `GraphProofs`, `GraphTheorems`, `GraphSearch`, `GraphOrder`, `GraphAdmission`). The
depth-first search of `graphNodes` as a class with its three collections, proved equal to a function about which the rest
is proved. `assembleHarness` (src/harness/profile.ts:33-47) runs the same search.

**Leases** (`Work`, `LeaseStore`, `LeaseRuns`, `LeaseFences`, `LeaseClaims`, `LeaseHomes`, `LeaseEffects`,
`LeaseCounts`, `LeaseAnswers`, `LeaseCancel`, `LeaseCascade`, `LeaseDue`, `LeaseStranded`, `MemoryWorkStore`). The
in-memory store, which the source calls the executable specification of the lease state machine, as a class over
insertion-ordered maps. Each method is proved equal to a function of the state; a run is any sequence of those functions
under a clock that never goes back.
Where an operation reads the clock twice it may get two readings. A settlement and a steer await one cancel request per
child, so in a run those are steps of their own and anything may happen between them; `LeaseCancel.CascadeIsRun` says
that the uninterrupted cascade is such a run. What the proofs found: a leased row whose lease has run out can never
leave that status again exactly when it carries a cancel request or is a memory job that was leased three times
(`LeaseStranded.StrandedExactly`, with a run that ends so for each of the two); and a request with an empty principal is
not recognised when it is repeated (`LeaseFences.EnqueueOnce`). The durable store sweeps up spent memory jobs
(src/memory/evidence.ts:130-134) and work that ignores a preempt request (src/control-plane/scheduler.ts:24-28); those
sweeps are not part of this model.

**Lineage and dependencies** (`Lineage`, `LineageProofs`, `LineageTheorems`, `LineageSteps`, `LineageWakeups`). Rows of
the durable store; each transaction is one step, which the row locks of the source provide. Recursive queries are stated
by the paths they follow, with their bound of 64. A row is `started` once it was leased: `enqueueChild` needs a request
snapshot, and only the worker that leased the parent writes one. What the proofs found: an operator's requeue does not
look at the parent, so a failed child can be given to a worker again below a run that is over
(`LineageTheorems.RevivalOrphans`).

**Admission and budgets** (`ResourceQuota`, `ModelBudget`, `ModelExecution`). Slots with a queue under two priorities;
token and cost totals; the retry loop that spends from them.

**Actions** (`ActionLedger`, `ActionAnswers`). `executeAction` as interleaved calls that move from await to await and may
crash at any.
Whether the effect of a key's tool is uncertain cannot change: the tool contract is part of the intent
(src/control-plane/service.ts:562-567).

**Shared state** (`SharedState`), **draft previews** (`Realtime`, `RealtimeUploads`), **text excerpts** (`Excerpt`),
**memory and forgetting** (`Memory`, `MemoryEffects`, `Forgetting`). UTF-8 is modelled byte by byte (section 3 of RFC
3629). The database archives a document's previous version on every update and deletes the archive with the document
(db/schema.sql:406-432). What the proofs found: a stream tells previews apart by fence and sequence number alone, so a
draft that was replaced under the same numbers is not sent (`Realtime.StaleDraft`). A `PreviewBuffer` numbers its own
frames without reuse (src/runtime/preview.ts:29-58); it takes a second one under the same fence.

Next to the results about whole runs stand lemmas, most of them named `...Exactly`, that say of one call when it is
accepted and what it leaves of every row or document: conditions are spelled out on the fields, and limits are the
numbers of the source.

`Folding` holds the one device that keeps long definitions out of proofs that do not need them.

## Model

| member | source | states |
|---|---|---|
| JsonString.DecodeIsQuoted | src/model/preview.ts:35 | whatever `JSON.parse` accepts between quotes has no bare quote and no dangling backslash |
| JsonLiterals.DecodesExactly | src/model/preview.ts:35-36 | a string literal is decoded exactly if it consists of plain characters, the eight letter escapes and four-digit escapes in either case, and gives the units they stand for |
| Text.SpacesSpelled | src/model/preview.ts:48 | the white space of the class `\s`, unit by unit |
| Preview.CandidateBodyParser.TakeBody | src/model/preview.ts:31-46 | the body branch of the loop: escapes, the closing quote, control characters, held-back surrogates |
| Preview.CandidateBodyParser.TakeKey | src/model/preview.ts:47-61 | the key branch: white space, a quoted name, only known and new names |
| Preview.CandidateBodyParser.TakeSkip | src/model/preview.ts:62-79 | the skip branch: strings, nesting depth, and the end of the value |
| Preview.CandidateBodyParser.TakeMark | src/model/preview.ts:80-95 | the branches for structural characters |
| Preview.CandidateBodyParser.Consume | src/model/preview.ts:28-96 | the loop over a chunk computes the automaton's run on it, or finds it broken |
| Preview.CandidateBodyParser.Push | src/model/preview.ts:17-99 | one call: the size limit of 256,000 units, silence once invalid, and no output for a failing chunk |
| PreviewProofs.HeldBack | src/model/preview.ts:21-27 | a unit is held back exactly when the text so far ends in an odd run of high surrogates |
| PreviewTheorems.ChunksAgree | src/model/preview.ts:17-99 | every way of cutting a text ends in the same state, and gives the same output unless the text is refused |
| PreviewTheorems.CandidateDecoded | src/model/preview.ts:17-99 | any candidate in any chunks: the outputs add up to the decoded body, and the parser is complete exactly when there is one |
| PreviewTheorems.ArraysPass | src/model/preview.ts:62-90 | a witness with an array value: the array is skipped, the body comes out whole, and the candidate is complete |
| PreviewTheorems.AcceptsExactly | src/model/preview.ts:54-95 | the parser ends in `done` on exactly the texts of the candidate grammar with at most 256,000 units |
| PreviewTheorems.OnlyTheBodyShows | src/model/preview.ts:62-92 | the other fields never affect the output |
| PreviewTheorems.StreamsWhole | src/model/preview.ts:21-27 | what is out at any moment is a prefix of the body, and if the body is well-formed UTF-16 it splits no surrogate pair |
| PreviewTheorems.DanglingRefused | src/model/preview.ts:38-39 | a body that ends in an odd run of high surrogates makes the parser invalid, in any chunks and whatever follows |
| PreviewTheorems.OddOrEven | src/model/preview.ts:21-27 | one lone high surrogate is such a body, two are not |
| PreviewTheorems.FailsSilently | src/model/preview.ts:17-97 | when the parser becomes invalid, what is out is what the chunks before the failing one gave |
| PreviewTheorems.InvalidIsFinal | src/model/preview.ts:19-30 | invalid is absorbing and silent |
| Order.SortAscends | src/context/compiler.ts:108 | of any two sorted keys the earlier one is smaller at the first unit where they differ, or is a proper prefix |
| Order.SortSorts | src/context/compiler.ts:108 | sorting distinct keys loses none and adds none |
| Order.SortForgets | src/context/compiler.ts:108 | the sorted keys do not depend on the order the keys came in |
| Canonical.StringRoundTrip | src/context/compiler.ts:108-110 | `JSON.parse` undoes `JSON.stringify` on strings, lone surrogates included |
| Canonical.EscapeSpelled | src/context/compiler.ts:108-110 | which characters `JSON.stringify` escapes, and how |
| CanonicalTheorems.TextDenotes | src/context/compiler.ts:104-111 | an independent JSON reader takes the whole canonical text and gets the value again, with the keys of every object in ascending order |
| CanonicalTheorems.ReadsBack | src/context/compiler.ts:104-111 | so it does inside a larger text, where it stops at the end of the canonical one |
| CanonicalTheorems.CanonicalExactly | src/context/compiler.ts:104-111 | two values have the same canonical text exactly when they are equal up to the order of object keys |
| Canonical.ReorderedFields | src/context/compiler.ts:106-109 | writing the fields of an object in another order changes nothing |
| GraphSearch.Search.Visit | src/collaboration/graphs.ts:24-32 | the recursive visit, which mutates the three collections, does what the specified search does, errors included |
| GraphSearch.GraphNodes | src/collaboration/graphs.ts:9-35 | the whole function: validation, the map, the visits in sorted order |
| GraphTheorems.SucceedsExactly | src/collaboration/graphs.ts:9-35 | it succeeds exactly on valid input where every dependency exists and there is no cycle; each error names a defect that is there |
| GraphOrder.AcceptsExactly | src/collaboration/graphs.ts:9-34 | the same said of the input: every condition on ids, texts and dependencies spelled out, no dependency without a node, no walk along dependencies that returns |
| GraphOrder.SmallerFirst | src/collaboration/graphs.ts:20-32 | a node stands before another only if some id not greater than that other's leads to it, so ties are broken by the sorted ids |
| GraphTheorems.SuccessIsOrder | src/collaboration/graphs.ts:23-34 | the result is the input's nodes again, each after all it depends on, with sorted dependencies |
| GraphTheorems.OrderIndependent | src/collaboration/graphs.ts:21-33 | the result depends neither on the order of the nodes nor on that of any dependsOn list |
| GraphProofs.OrderedAcyclic | src/collaboration/graphs.ts:24-33 | a full dependency order shows that the graph is complete and without cycles |
| GraphAdmission.GraphAdmitted | src/collaboration/graphs.ts:51-57 | a graph that was accepted is inserted node by node without a refusal when the parent has room, with the graph's dependency edges and no other change |
| LeaseRuns.StepKeeps | src/control-plane/memory-store.ts:105-381 | every operation keeps leases, session locks, fences and row identities coherent |
| LeaseRuns.SessionExclusive | src/control-plane/memory-store.ts:168-235 | in every run two unexpired leases of one session are one lease, and the session lock carries its id, fence and expiry |
| LeaseCounts.FenceCounts | src/control-plane/memory-store.ts:222-228 | in every run the attempts of a row are the claims that leased it, replays not counted, its preemptions the yields of it that worked, and its fence the sum of both |
| LeaseFences.StepMoves | src/control-plane/memory-store.ts:158-381 | what one step may do to a row: fences and steers only grow, cancel requests stay, finished rows are frozen, leases only renew while alive |
| LeaseFences.RefusedForever | src/control-plane/memory-store.ts:259-265 | a proof of an issued fence that is refused once is refused in every later state of every run |
| LeaseFences.DeadProof | src/control-plane/memory-store.ts:259-330 | with such a proof every later heartbeat, read, yield and settlement fails and changes nothing |
| LeaseFences.SettlesOnce | src/control-plane/memory-store.ts:289-330 | of all calls in a run that could end one lease, at most one succeeds, whatever the tokens |
| LeaseFences.RowHistory | src/control-plane/memory-store.ts:158-381 | over a run no row loses a cancel request, a steer or a fence, a cancelled row is never leased again, and a finished row never changes |
| LeaseFences.StrandedForever | src/control-plane/memory-store.ts:182-185 | an expired lease that carries a cancel request, or belongs to a memory job with three attempts, stays as it is in every further run |
| LeaseStranded.StrandedExactly | src/control-plane/memory-store.ts:182-185 | in every run a leased row stays leased whatever is called afterwards exactly when it is so stranded, or leases have no length |
| LeaseStranded.TurnComes | src/control-plane/memory-store.ts:177-206 | any other expired lease can be taken over: some further run gets to its row, past everything that is served before it, and ends it |
| LeaseStranded.CancelStrands | src/control-plane/memory-store.ts:183-185 | a concrete run that strands a row by a cancel request, for any request without dependencies |
| LeaseStranded.LeasesStrand | src/control-plane/memory-store.ts:182 | a run that strands a memory job without a cancel request, for any such job without dependencies |
| LeaseFences.EnqueueOnce | src/control-plane/memory-store.ts:105-124 | enqueuing under a taken id adds nothing, however much later; the same request is recognised exactly when its principal is not empty |
| LeaseDue.EnqueueExactly | src/control-plane/memory-store.ts:105-147 | the row that a new id adds, field by field, and that a taken one changes nothing |
| LeaseDue.NotBeforeDue | src/control-plane/memory-store.ts:134-191 | in every run no claim issues a row before the time it was enqueued for |
| LeaseClaims.ClaimTakesFirst | src/control-plane/memory-store.ts:177-206 | a fresh claim leases the eligible row that comes first by aged rank, priority, route, age and insertion, and nothing exactly when none is eligible |
| LeaseClaims.LanesFirst | src/protocol/types.ts:21-26 | of rows equally old the lanes are served in the order interactive, approval, collaboration, background |
| LeaseClaims.RetryMustMatch | src/control-plane/memory-store.ts:161-169 | a claim under a known name is answered only to the same worker with the same kinds, lanes and class, and changes nothing |
| LeaseClaims.NobodyOvertakes | src/control-plane/memory-store.ts:196-202 | nothing is leased ahead of an eligible row that became available four or more minutes earlier |
| LeaseClaims.ClaimChanges | src/control-plane/memory-store.ts:209-234 | the claim changes the leased row, its route and its session lock as stated and nothing else, and issues what the row then says |
| LeaseClaims.IssuedHolds | src/control-plane/memory-store.ts:222-229 | the issued proof is good for exactly the length of a lease |
| LeaseClaims.RetryReplays | src/control-plane/memory-store.ts:161-171 | a repeated claim gets the same item and changes nothing, until ten thousand further claims were named |
| LeaseClaims.JustKept | src/control-plane/memory-store.ts:170-171 | a claim that was answered is kept as the newest of at most ten thousand |
| LeaseHomes.HomesNeverShared | src/control-plane/memory-store.ts:209-220 | in a whole run one session and one home epoch belong to one worker, replayed claims included |
| LeaseEffects.HeartbeatExtends | src/control-plane/memory-store.ts:267-280 | a heartbeat works exactly while the lease runs, and renews the lease and the session lock together |
| LeaseEffects.YieldRequeues | src/control-plane/memory-store.ts:289-302 | a yield works exactly for a holder asked to give way; the row is queued under a new fence, its session is free, and it is not eligible for a second |
| LeaseAnswers.AnswersLastRevision | src/control-plane/memory-store.ts:314-381 | in every run a row that is parked or over with a result was not asked to cancel, has an answer if its request has a text, and any answer it has is to the last revision; work still to be done has none |
| LeaseEffects.SettleEnds | src/control-plane/memory-store.ts:320-330 | an accepted settlement stores the answer, ends the lease for every token and frees the session |
| LeaseCascade.SettlementCascades | src/control-plane/memory-store.ts:304-330 | when a settlement is accepted; afterwards every row that names the settled one as its parent is over or asked to stop, a parking settlement touches no other row, and other owners' rows are never touched |
| LeaseCascade.SteerCascades | src/control-plane/memory-store.ts:371-381 | when a steer is accepted, and the same of the rows that name the steered one |
| LeaseCascade.SettlementUnder | src/control-plane/memory-store.ts:304-330 | whatever other row a settlement changes descends from a row that names the settled one as its parent |
| LeaseCascade.SteerUnder | src/control-plane/memory-store.ts:371-381 | whatever other row a steer changes descends from a row that names the steered one as its parent |
| LeaseCascade.ReportLands | src/protocol/types.ts:36-44 | the status that each kind of report leads to, and that the row has it once the report is accepted |
| LeaseEffects.SteerSupersedes | src/control-plane/memory-store.ts:371-381 | when a steer is accepted, and that no answer to an earlier revision is accepted after it |
| LeaseEffects.PreemptEnablesYield | src/control-plane/memory-store.ts:364-369 | after a preempt request exactly the holder may yield |
| LeaseCancel.CancelReaches | src/control-plane/memory-store.ts:341-351 | the fixpoint loop finds every descendant of the owner within 64 hops, and nothing but descendants |
| LeaseCancel.CancelStops | src/control-plane/memory-store.ts:338-362 | a cancel request halts every active descendant within 64 hops, leaves leased ones to their workers, and touches nothing else |
| LeaseCancel.CascadeStops | src/control-plane/memory-store.ts:326-328 | after the cascade no child is both active and without a cancel request |
| LeaseCancel.CascadeIsRun | src/control-plane/memory-store.ts:326-328 | a cascade is a run of cancel requests |
| MemoryWorkStores.MemoryWorkStore.Enqueue | src/control-plane/memory-store.ts:105-147 | the method computes the specified enqueue |
| MemoryWorkStores.MemoryWorkStore.PurgeSessionLeases | src/control-plane/memory-store.ts:174-176 | the loop drops exactly the expired session locks |
| MemoryWorkStores.MemoryWorkStore.FirstCandidate | src/control-plane/memory-store.ts:177-202 | the scan finds the head of the filtered and stably sorted rows |
| MemoryWorkStores.MemoryWorkStore.Claim | src/control-plane/memory-store.ts:158-235 | the method computes the specified claim: replay, eviction, purge, choice, route, lease |
| MemoryWorkStores.MemoryWorkStore.ValidLease | src/control-plane/memory-store.ts:259-265 | the method decides whether a proof holds |
| MemoryWorkStores.MemoryWorkStore.Heartbeat | src/control-plane/memory-store.ts:267-280 | the method computes the specified heartbeat |
| MemoryWorkStores.MemoryWorkStore.GetLeased | src/control-plane/memory-store.ts:282-287 | the row is returned exactly to the holder of its lease |
| MemoryWorkStores.MemoryWorkStore.YieldWork | src/control-plane/memory-store.ts:289-302 | the method computes the specified yield |
| MemoryWorkStores.MemoryWorkStore.Complete | src/control-plane/memory-store.ts:304-308 | a completion settles under the status its outcome gives, and is an error when it would have to wait |
| MemoryWorkStores.MemoryWorkStore.Wait | src/control-plane/memory-store.ts:310-312 | parking settles as waiting, without a cascade |
| MemoryWorkStores.MemoryWorkStore.Settle | src/control-plane/memory-store.ts:314-330 | the method settles, and then cancels the children one after another |
| MemoryWorkStores.MemoryWorkStore.Descendants | src/control-plane/memory-store.ts:341-351 | the double loop with its early exit computes the specified descent |
| MemoryWorkStores.MemoryWorkStore.RequestCancel | src/control-plane/memory-store.ts:338-362 | the method computes the specified cancellation |
| MemoryWorkStores.MemoryWorkStore.RequestPreempt | src/control-plane/memory-store.ts:364-369 | the method computes the specified preempt request |
| MemoryWorkStores.MemoryWorkStore.AddSteer | src/control-plane/memory-store.ts:371-381 | the method steers, and then cancels the children one after another |
| LineageProofs.StepKeeps | src/app/jobs.ts:103-205 | every transaction keeps owners, roots and depths of lineages, live rows under live parents, dependencies older and satisfied once a row was leased |
| LineageProofs.FindsChildren | src/app/jobs.ts:192-199 | within the admitted depth the query of `cancelDescendants` is complete: it finds the child of whatever it finds |
| LineageProofs.BlockedNotStarted | src/control-plane/dependencies.ts:6-13 | a row that was leased is never in the blocked closure |
| LineageTheorems.CancellationComplete | src/app/jobs.ts:111-121 | in every run an active row without a cancel request, and any row that may be claimed, has only such rows above it |
| LineageTheorems.CancelRunExact | src/app/jobs.ts:179-205 | cancelling an active run stops it and all its descendants at whatever depth, leased work keeping its lease, and touches nothing else |
| LineageTheorems.ReviseExact | src/app/jobs.ts:166-177 | when a revision is taken, and what it leaves of every row: a parked one is queued, all its descendants are stopped, the rest is unchanged |
| LineageTheorems.SettleExact | src/control-plane/pg-store.ts:313-336 | the same of a settlement, which stops the descendants unless it parks the row |
| LineageSteps.CreateExactly | src/app/jobs.ts:103-155 | exactly when a child is created, with the bounds of 64 rows up, 64 siblings and 64 dependencies, and what the new row is |
| LineageSteps.ClaimExactly | src/control-plane/pg-store.ts:170-187 | exactly when a row may be claimed: everything it depends on has succeeded with a satisfied and current result and no cancel request |
| LineageSteps.RequeueExactly | src/control-plane/approvals.ts:104-112 | a decided approval queues parked rows that wait for no child, and a yield leased ones (src/control-plane/pg-store.ts:284-300); nothing else changes |
| LineageTheorems.AncestorCheckExact | src/app/jobs.ts:111-121 | the walk over up to 64 ancestors accepts exactly when the parent is live and less than 64 rows deep |
| LineageTheorems.RevivalExact | src/app/index.ts:669-672 | requeueing a finished row keeps all this exactly when the row has no parent or its parent is still live |
| LineageTheorems.RevivalOrphans | src/app/index.ts:669-672 | a concrete run in which the requeue breaks it: the child of a run that is over may be claimed again |
| LineageTheorems.DependenciesAcyclic | src/app/jobs.ts:141-153 | in every run the dependency edges have no cycle |
| LineageTheorems.NeverStuck | src/control-plane/pg-store.ts:178-187 | whenever no row is leased or waiting, some pending row passes the claim's dependency test or is in the blocked closure |
| LineageTheorems.BlockingFinishes | src/control-plane/dependencies.ts:5-18 | when then nothing can be claimed, one pass of `resumeDependents` leaves nothing pending |
| LineageWakeups.NewlyResumable | src/control-plane/dependencies.ts:19-33 | only a settlement or cancellation of the row or one of its children, or a blocking pass, makes a row resumable |
| LineageWakeups.NoLostWakeup | src/control-plane/dependencies.ts:3-37 | in every run, for each parked row whose awaited children have all finished, such an act is not yet followed by a pass that looks at the row, whichever of parking and finishing came first |
| LineageWakeups.NobodyForgotten | src/control-plane/pg-store.ts:333-334 | if a covering pass follows every such act, nobody waits for children that have all finished, and each covering pass that found the row so has queued it |
| LineageWakeups.ResumeExactly | src/control-plane/dependencies.ts:19-36 | a pass queues exactly the parked rows in its scope whose named child and awaited children have finished, and changes nothing else |
| LineageWakeups.BlockExactly | src/control-plane/dependencies.ts:5-18 | a pass blocks exactly the queued rows that wait, one through the other, for a spoilt row, and changes nothing else |
| LineageWakeups.NobodyWokenEarly | src/control-plane/dependencies.ts:19-36 | in every run whatever row a pass moves back to the queue had its children done |
| ResourceQuotas.DrainedTidy | src/resource-quota.ts:61-65 | a drain keeps the counters and the order of service, and leaves nobody waiting for a free slot |
| ResourceQuotas.QuotaHolds | src/resource-quota.ts:17-65 | in every run the counters count the unsettled operations within capacity and reservation, nobody waits while there is room, and only a foreground request ever passes an earlier one, which is then in the background |
| ResourceQuotas.ForegroundWaitsForSlot | src/resource-quota.ts:58-60 | a foreground request waits only while every slot is taken |
| ResourceQuotas.RefusedExactly | src/resource-quota.ts:41-42 | when a request is refused, and exactly when a foreground request is refused although a slot is free |
| ResourceQuotas.RefusedWithFreeSlot | src/resource-quota.ts:41-42 | a concrete run in which that happens |
| ResourceQuotas.AdmitExactly | src/resource-quota.ts:17-42 | which requests are admitted, refused or aborted; one that is not admitted changes nothing |
| ResourceQuotas.AskServes | src/resource-quota.ts:20-65 | an admitted request is running or waiting afterwards, so is everybody that waited, and who holds a slot keeps it |
| ResourceQuotas.SettleExactly | src/resource-quota.ts:28-40 | an operation that settles gives its slot up for good, the others keep theirs, and who waited is served or still waits |
| ResourceQuotas.WithdrawExactly | src/resource-quota.ts:48-53 | an aborted waiter leaves, and the others keep their order |
| ResourceQuotas.ResourceQuota.Start | src/resource-quota.ts:20-40 | a start takes the slot; an operation that throws gives it back and drains from inside |
| ResourceQuotas.ResourceQuota.Drain | src/resource-quota.ts:61-65 | the loop with nested starts computes the specified drain |
| ResourceQuotas.ResourceQuota.RunOperation | src/resource-quota.ts:17-56 | the method computes the specified admission |
| ResourceQuotas.ResourceQuota.Abort | src/resource-quota.ts:48-53 | an aborted waiter is removed and nothing else |
| ModelBudgets.TotalsAreSums | src/control-plane/memory-store.ts:560-587 | in every run the totals are the sums over the calls of usage if settled and reservation if not, and the calls stay within their limit |
| ModelBudgets.GrantExactly | src/control-plane/memory-store.ts:560-577 | in every run a reservation is granted exactly to a known call, for nothing, or if the deadline, the calls, the tokens and the cost leave room |
| ModelBudgets.SettleExactly | src/control-plane/memory-store.ts:579-586 | a settlement needs a reservation, and the first one replaces what the call counts for |
| ModelBudgets.PriceExactly | src/control-plane/service.ts:213 | the price is the least number of whole micros that covers the tokens |
| ModelBudgets.ReplaysAreFree | src/control-plane/memory-store.ts:566-584 | a repeated reservation is granted for nothing and a repeated settlement changes nothing |
| ModelBudgets.PriceMonotone | src/control-plane/service.ts:213 | the rounded-up price grows with the tokens |
| ModelBudgets.NeverOverspent | src/control-plane/service.ts:205-236 | if no settlement exceeds its reservation, tokens and cost never exceed their maxima |
| ModelExecutions.MemoryModelBudgetStore.Reserve | src/control-plane/memory-store.ts:560-577 | the method computes the specified reservation; the first one fixes the limits |
| ModelExecutions.MemoryModelBudgetStore.Record | src/control-plane/memory-store.ts:579-586 | the method computes the specified settlement |
| ModelExecutions.ModelExecution.Try | src/model/execution.ts:75-118 | one attempt reserves, settles, and moves its own counters as the store's totals move |
| ModelExecutions.ModelExecution.Invoke | src/model/execution.ts:65-128 | at most three attempts, retried only after transient failures; counters and store move together, but for a reservation left standing when time is up |
| ActionLedgers.MemoryActionLedger.ReserveIntent | src/control-plane/memory-store.ts:506-516 | the first reservation of a key stores its fingerprint, a later one must repeat it |
| ActionLedgers.MemoryActionLedger.FindReceipt | src/control-plane/memory-store.ts:502-525 | the last resolution counts before the receipt |
| ActionLedgers.MemoryActionLedger.RecordReceipt | src/control-plane/memory-store.ts:535-541 | a receipt needs an intent and replaces only one that waits for approval |
| ActionLedgers.MemoryActionLedger.RecordResolution | src/control-plane/memory-store.ts:543-554 | a resolution needs an intent, is appended under a new id, recognised under its own, and refused under one that names another |
| ActionLedgers.AtMostOnce | src/control-plane/service.ts:574-658 | under any interleaving and any crashes an uncertain effect is executed at most once, and only after its intent is stored |
| ActionLedgers.AnswersOnRecord | src/control-plane/service.ts:580-662 | what a call on such an action answers is on record: the receipt of the one execution, a resolution, or that the outcome is unknown |
| ActionAnswers.FirstCallExecutes | src/control-plane/service.ts:574-658 | a call on a key that was never used stores its intent, enters the executor once, and leaves with the receipt as its answer |
| ActionAnswers.RepeatedCallAnswers | src/control-plane/service.ts:574-587 | what a call on a known key comes to: refusal of another fingerprint, the final answer on record, a readback of an open one, or of a missing one if the effect is uncertain, and otherwise another execution |
| ActionAnswers.ReadbackAnswers | src/control-plane/service.ts:263-280 | a readback that settles the action is the answer and is recorded once under its own name; any other leaves the call with the answer it had |
| ActionAnswers.LeaveRecords | src/control-plane/service.ts:658-662 | what the executor returns is recorded, unless a receipt that waits for no approval is there, which is then the answer |
| ActionAnswers.ResolvingTells | src/control-plane/memory-store.ts:543-554 | a resolution under a new id becomes the last word on its action; what a known id or a missing intent leads to; nothing else changes |
| ActionLedgers.ResolutionsOnce | src/control-plane/memory-store.ts:543-554 | in every run an id names one entry: recorded resolutions with one id are the same, and stand under their own key |
| ActionLedgers.ReceiptStays | src/control-plane/memory-store.ts:535-541 | a receipt that waits for no approval is never overwritten, whatever the tool |
| SharedStates.StateIsReplay | src/collaboration/state.ts:82-115 | in every run the state is the replay of the successful operations, and every logged result can be recomputed from the log before it |
| SharedStates.VersionsCount | src/collaboration/state.ts:103-108 | the state's version counts the successful operations and a field's version those that changed it, deletions included |
| SharedStates.RetryGetsFirstResult | src/collaboration/state.ts:92-97 | a retried operation gets its first result again, whatever happened in between, and changes nothing |
| SharedStates.UpdateExactly | src/collaboration/state.ts:82-115 | what a new operation comes to, and the fields and versions that it leaves |
| SharedStates.RepeatExactly | src/collaboration/state.ts:92-97 | under a logged id the same digest gets the logged outcome, and another is refused |
| SharedStates.ConflictExactly | src/collaboration/state.ts:98-100 | an operation conflicts exactly when an expected version is not current, names those fields, and changes nothing |
| SharedStates.NoLostUpdate | src/collaboration/state.ts:98-108 | of two operations expecting the same version of a field only the first is applied |
| SharedStates.DisjointCommute | src/collaboration/state.ts:98-108 | operations on different fields can be swapped while no limit is hit |
| SharedStates.SharedState.Perform | src/collaboration/state.ts:73-115 | the transaction, with its two loops, computes the specified update |
| Realtime.ViewIsGenuine | src/app/realtime.ts:84-117 | a reader that holds a draft holds a snapshot that the server had at one of the polls: the texts of one attempt without a gap since its reset, all of them for the last version and allowed by the host |
| Realtime.ViewIsCurrent | src/app/realtime.ts:173-188 | if permitted frames are numbered without reuse, a reader that was just polled holds the server's own snapshot |
| Realtime.CurrentExactly | src/app/realtime.ts:173-188 | however frames are numbered, a poll leaves the reader with the server's own snapshot exactly when the last preview shown differs from it in fence or sequence number, or is equal to it |
| Realtime.StaleDraft | src/app/realtime.ts:118-121 | a concrete run in which it does not: an upload ends between two polls, another of the same fence comes as far, and the reader keeps the first draft |
| Realtime.StreamDelivers | src/app/realtime.ts:173-188 | whatever previews a stream finds, the snapshots and deltas it sends leave the reader with the last one, or with one after which only previews of its fence and sequence number came; so no delta loses a part |
| RealtimeUploads.TakeOverExactly | src/app/realtime.ts:90-92 | when an upload gets the run |
| RealtimeUploads.AcceptExactly | src/app/realtime.ts:96-111 | what one frame does to the snapshot, kind by kind, with the bound of 100,000 units |
| RealtimeUploads.FinishExactly | src/app/realtime.ts:118-121 | an upload that ends hides its own draft and frees the run, and leaves another's alone |
| RealtimeUploads.UploadShows | src/app/realtime.ts:84-117 | an attempt without gaps that may take the run over and is not outranked reaches a reader whole |
| RealtimeUploads.ViewIsShort | src/app/realtime.ts:106-108 | in every run no reader holds a draft of more than 100,000 units |
| Excerpt.RoundTrip | src/memory/text.ts:30-34 | decoding the UTF-8 bytes gives the text back but for lone surrogates, which become U+FFFD |
| Excerpt.ReplacedExactly | src/memory/text.ts:30-34 | U+FFFD stands exactly where a surrogate is not half of a pair |
| Excerpt.ByteAt | src/memory/text.ts:33 | a byte that does not continue a character marks a place where the text may be cut, and a continuation byte never does |
| Excerpt.ExcerptOf | src/memory/text.ts:29-35 | the backward scan computes the specified excerpt |
| Excerpt.ExcerptIsLongest | src/memory/text.ts:29-35 | the excerpt is the longest prefix between characters whose bytes fit |
| Excerpt.Chunks | src/memory/semantic.ts:112-114 | the chunking loop ends and computes the specified chunks |
| Excerpt.ChunksJoin | src/memory/semantic.ts:112-114 | no chunk is empty, each fits the bound, and joined they are the body but for lone surrogates |
| Excerpt.ChunksConcatenate | src/memory/semantic.ts:112-114 | a well-formed body is the concatenation of its chunks |
| Excerpt.StuckExactly | src/memory/semantic.ts:112-114 | an excerpt is empty exactly when the first character alone exceeds the bound, so fewer than four bytes may loop for ever |
| Memory.RetireDonors | src/memory/store.ts:206-215 | the loop over the donors of a merge computes the specified retirement |
| Memory.ApplyBatch | src/memory/store.ts:188-244 | the loop over a batch computes the specified changes, or fails as a whole |
| MemoryEffects.ApplyExactly | src/memory/store.ts:160-246 | when a write is accepted: the batch, the epoch and sources of the write, and each change against the documents it names |
| MemoryEffects.ApplyLeaves | src/memory/store.ts:188-250 | what an accepted write leaves, kind by kind: content, version, status, lock, sources and archive of each document; all other documents unchanged; a new epoch after a deletion |
| MemoryEffects.RestoreExactly | src/memory/store.ts:255-264 | when a restore is accepted |
| MemoryEffects.RestoreLeaves | src/memory/store.ts:255-264 | it leaves the content and lock of the version asked for, under the next version |
| MemoryEffects.CaptureExactly | src/memory/evidence.ts:42-62 | evidence is recorded once for a run, for the scopes that were not forgotten since it began |
| MemoryEffects.ForgetExactly | src/memory/forget.ts:39-58 | what forgetting removes and what it leaves, with and without a purge |
| Forgetting.ForgettingIsPermanent | src/memory/forget.ts:31-58 | after a purge no document, archived version or evidence of the scope rests on a work that began at or before it, through creation, update, move, merge and restore |
| Forgetting.StaleWriteRefused | src/memory/store.ts:166-168 | a write prepared before the scope was forgotten is refused ever after |
| Forgetting.PurgeCleans | src/memory/forget.ts:39-57 | a purge leaves no document and no evidence text of the scope, and raises its epoch |
| Forgetting.ProvenanceKept | src/memory/store.ts:188-244 | a document keeps the sources of all its archived versions, so restoring one hides no provenance |

## Left out

- JsonString.DecodeIsQuoted: `JSON.parse` of a string literal is modelled on code units; `JSON.parse` of a skipped value is the parameter `valid`.
- CanonicalTheorems.CanonicalExactly: numbers are integers; fractions, exponents, `undefined` and functions are not modelled.
- LeaseClaims.RetryReplays: a claim's filter lists are sets, as the store sorts them and drops repetitions.
- LeaseRuns.StepKeeps: instants are integers in milliseconds; an availableAt text that does not parse is not modelled, nor are the issued-attempt records and the budget-root walk.
- LeaseFences.RowHistory: cancel and preempt requests are flags; their instants are never compared.
- LeaseEffects.SettleEnds: of an outcome only its kind and request version are kept.
- LeaseCancel.CascadeStops: speaks of direct children; what lies below a child that had already finished was cancelled when that child finished, which `LineageTheorems` proves for the durable store.
- LineageTheorems.CancellationComplete: runs are of root enqueues without a parent link, children, claims, yields, settlements, cancellations, revisions, blocking, resuming and waking; a caller of `enqueueJob` who puts a parent link into a root's meta is outside it, and operator requeues are covered by `RevivalExact` and `RevivalOrphans` alone.
- LineageProofs.StepKeeps: checks of `enqueueChild` that only refuse more (policy, conversation, execution class, texts) are left out, and so is a lease's expiry: a leased row may be claimed again at any time.
- LineageTheorems.NeverStuck: a queued row that was yielded after a cancel request is not counted as pending; it is never claimed and waits for another cancellation.
- LineageWakeups.NoLostWakeup: a pass takes up every row in its scope; the limit of 128 rows a statement and rows locked by others, which a later pass gets to, are left out. A cancelled run starts no pass of its own; the periodic one follows it (src/app/index.ts:561).
- LineageTheorems: the durable store is modelled on values, one transaction a step; row locks, isolation and waits on concurrent transactions are not part of this model.
- ResourceQuotas.ResourceQuota.RunOperation: an operation that calls the quota again before its first await is not modelled; metrics are left out.
- ModelExecutions.ModelExecution.Invoke: aborts, delays and telemetry are left out; the clock and the provider are parameters.
- ModelBudgets.ReplaysAreFree: the durable store also refuses a repeated settlement that reports something else.
- ActionLedgers.AtMostOnce: lease, permission and contract checks before the reservation only refuse more and are left out; approval decisions are not modelled.
- SharedStates.StateIsReplay: authorization is left out, and the text size limit is a parameter.
- Realtime.ViewIsGenuine: one run; the optional external snapshot store, authorization and transport are left out, and eviction of entries is the event that drops a snapshot.
- Excerpt.RoundTrip: malformed bytes, which `excerpt` never decodes, are simplified.
- MemoryEffects.ApplyLeaves: of a content only the path is told from the rest, and whether it renews a lapsed document is given with the change; what one change leaves is said for changes whose documents no other change of the batch is about, which only a batch that names the digest of a document it creates can miss.
- Forgetting.ForgettingIsPermanent: sources without a work are not dated by the source either; content policy, duplicate paths, protected-source checks, evolved strategies and synthesis scheduling are left out.
- Digests are taken to be free of collisions, and tokens to be fresh.
- `ByteBudget`, `MemorySessionStore`, `MemoryEventStore`, the step store, the delivery outbox, evidence markers, memory fitting and strategy evolution: smaller state machines of the same kinds.
- HTTP, SSE, SQL connections, timers, processes, sandboxes, model providers and embeddings: input, output and code outside the repository.
