# Verified model of the agent framework's routing, resilience and bookkeeping

A Dafny 4.11 model of the parts of this Rust framework that are algorithms or protocols in their own right, with proofs of
what they are relied on for. `dafny verify dfyconfig.toml` checks everything.

| file | what it models |
|---|---|
| `TaskGraph.dfy` | the delegation graph: refusal of cycle-closing edges, Kahn's sweep over a multigraph |
| `Relevance.dfy` | bag-of-words cosine, skill affinity, the affinity router, vector cosine similarity |
| `Ranking.dfy`, `FleetIndex.dfy`, `Fleet.dfy` | the skill index, ranked candidates, and the agent fleet that routes over breakers |
| `Breakers.dfy` | the two circuit breakers and their bisimulation |
| `RateLimiter.dfy` | the tumbling-window limiter with its concurrency cap |
| `Template.dfy` | the prompt template scanner |
| `SequentialChain.dfy` | the two executors of a chain of chains, and the keys it asks its caller for |
| `TaskStore.dfy` | the in-memory task store and the trait's two-step defaults |
| `CostTracker.dfy` | spend accounting by model, scope and kind |
| `BoundedFifo.dfy` | the response cache and the table of active trace spans |
| `HttpRetry.dfy`, `Resilient.dfy` | the HTTP retry loop, and the agent client's retries and fallbacks |
| `Idempotency.dfy` | the message id table and the idempotent send protocol that the agent client's retries rely on |
| `MessageServer.dfy` | that protocol for many ids at once, on the one bounded table |
| `Delivery.dfy` | client and servers together: how often a sent task runs, over all retries and agents |
| `Common.dfy` | options, results, finite sums |

Conventions. Objects that the source updates in place are classes with the same fields; each method is tied to a function
or relation on values (`Step`, `Apply`, `Inserted`, ...), and the theorems are about every run of that function. What such a
function does is told a second time without it, in the fields of the object or in the history alone (`Outcome`,
`Substitutes`, `RefusedExactlyByHistory`, `ResidentIsLastWrite`, ...), and proved to be the same. A body that runs under a
lock is one step; where a call takes a lock more than once, each acquisition is its own step and other calls come in
between. Clocks, entropy, task ids, the network and the tables of Unicode are arbitrary inputs: parameters, or a script
with one entry an attempt. Hash iteration order is arbitrary. Scores are exact: a cosine is kept as its square, a rational
number, and `CosineOfRoots` and `SquaresKeepOrder` say why nothing is lost by that.

## Where the code and its documentation part

The model follows the code. Each point below is a lemma with the exact condition, or a counterexample beside the theorem that
says what does hold.

- The rate limiter calls its window rolling (`crates/lc-a2a/src/rate_limiter.rs:7`); it tumbles. `TwiceTheBudget` is the true
  bound, `TwiceTheBudgetIsReached` attains it, and `RollingBoundExactly` shows the rolling bound holds for a window of one
  clock tick and for no other.
- The token branch of `skill_affinity` is said to top out below 0.6 (`crates/lc-a2a/src/scale.rs:207`); it reaches 0.6 exactly
  on proportional bags of words (`TokenBranchReachesItsTop`). `TokenBranchTopExists` is a request whose squared norms are
  both 4, so that floating point computes the same 0.6. Nothing crosses a band all the same.
- The backoff is documented as uniform up to and including its cap (`crates/lc-core/src/http.rs:885`); a cap above zero is
  never drawn, and a cap that is a positive multiple of 2^64 ns divides by zero (`BackoffRange`, `BackoffPanicsExactly`, and
  `PanicExists` for a run that meets it).
- `trips` of the handler breaker is said to count trips out of closed (`crates/lc-callbacks/src/circuit_breaker.rs:56`); it
  counts failed probes too. It is the documented number exactly as long as no failure is reported to a half-open breaker
  (`TripsAreDocumentedExactly`); `FailedProbeIsCounted` is a run on which it is not.
- The default `stream` of a chain picks the first declared output that holds a string, whatever output the composition
  maps. It is faithful exactly when every result spells the mapped output out (`DefaultStreamCoherence`, for any declared
  outputs). On a chain of its own the executors agree exactly then, or, if the mapped output is not declared, exactly when
  the result does not hold it (`DefaultStepAgreesExactly`). `SecondOutputIsNotStreamed` and `UndeclaredIsNotStreamed` are
  chains on which they do not.
- `input_keys` reports what no step produces. That is enough exactly when no step reads a key before it is produced:
  `InputKeysAreExact`, `MisorderedChainFails`, and `MisorderedPair` for such a chain.
- The message id table is bounded in ids, not in the queue beside them (`QueueGrowsWithoutBound`). The queue lists the
  tracked ids, and is as bounded as they are, exactly as long as no tracked id is dropped (`QueueIsTidyExactly`), and over
  every run it exceeds the bound by no more than the number of drops (`QueueLengthIsDrops`).
- An id whose task is gone is said to be reclaimed (`crates/lc-a2a/src/server/mod.rs:918`); it is dropped and the send goes
  on unreserved, so that the next retry runs the chain once more although its task is stored (`RetryAfterLoss`,
  `TwoRetriesAfterLoss`, and `LostTaskRunsThrice` for such a run from the start).
- One message id is said to keep a lost response from ever running the chain twice
  (`crates/lc-a2a/src/resilient.rs:122-128`). It does on each agent (`OneRunPerAgent`). Over all agents it does exactly when
  at most one agent that is asked does not refuse at first (`NeverTwiceExactly`): a refusal means that nothing ran
  (`RefusalRunsOnce`), a transport error does not (`LostResponseRunsTwice`).
- A claim is said to be bound or released by its call (`crates/lc-a2a/src/server/mod.rs:904-910`). A call dropped in
  between, as its connection closes, leaves the id in flight for good (`DroppedWhileStoring`, `StuckForever`), and one dropped
  between binding and running leaves a task that retries are given and that never runs (`DroppedBeforeRunning`). No claim is
  left behind without a dropped call (`NoClaimIsLeftBehind`).

## Model

| member | source | states |
|---|---|---|
| `TaskGraphs.AddEdgeClosesCycle` | crates/lc-a2a/src/scale.rs:555-571 | in an acyclic graph an edge closes a cycle iff its child already reaches its parent |
| `TaskGraphs.LinkRunStaysAcyclic` | crates/lc-a2a/src/scale.rs:559-571 | whatever is linked in whatever order, the graph holds no cycle |
| `TaskGraphs.RefusedIffCycle` | crates/lc-a2a/src/scale.rs:559-571 | along any run an edge is refused iff adding it would close a cycle, and a refusal changes nothing |
| `TaskGraphs.EdgesAreAcceptedLinks` | crates/lc-a2a/src/scale.rs:559-571 | after any run the graph holds each edge exactly as often as it was linked and accepted, and no other |
| `TaskGraphs.RefusedIffLeads` | crates/lc-a2a/src/scale.rs:559-599 | the list of accepted links alone decides the next one: it is refused iff a walk along them leads from its child to its parent |
| `TaskGraphs.TaskGraph.constructor` | crates/lc-a2a/src/scale.rs:549-553 | a new graph has no edge |
| `TaskGraphs.TaskGraph.Link` | crates/lc-a2a/src/scale.rs:559-571 | the error names the edge and comes iff the child reaches the parent (self-links included); otherwise the child goes to the end of the parent's list; every other list stays; acyclicity is kept |
| `TaskGraphs.TaskGraph.WouldCycle` | crates/lc-a2a/src/scale.rs:575-590 | the backward search ends and answers reachability |
| `TaskGraphs.TaskGraph.ParentsOf` | crates/lc-a2a/src/scale.rs:593-599 | exactly the parents of a node, each once |
| `TaskGraphs.TaskGraph.IsAcyclic` | crates/lc-a2a/src/scale.rs:602-632 | true iff the multigraph has no directed cycle |
| `TaskGraphs.SweepKid` | crates/lc-a2a/src/scale.rs:622-628 | during the sweep the expected entry exists, a degree never underflows, and a node is queued exactly with its last incoming edge |
| `TaskGraphs.SweepVerdict` | crates/lc-a2a/src/scale.rs:614-631 | when the queue runs dry, as many nodes were processed as there are iff the graph is acyclic |
| `TaskGraphs.StuckIsCyclic` | crates/lc-a2a/src/scale.rs:619-631 | nodes the sweep cannot release contain a cycle |
| `Relevance.CauchySchwarz` | crates/lc-a2a/src/scale.rs:165-192 | for all word lists the squared dot product is at most the product of squared norms, with equality iff the counts are proportional |
| `Relevance.CosineBounds` | crates/lc-a2a/src/scale.rs:165-192 | the score is in [0, 1], positive iff a word is shared, and 1 iff the counts are proportional |
| `Relevance.DotOfOneMore` | crates/lc-a2a/src/scale.rs:177-187 | one more word on one side adds as often as it occurs on the other |
| `Relevance.CosineOfRoots` | crates/lc-a2a/src/scale.rs:191 | the quotient by the true norms is in [0, 1] and its square is the modelled score |
| `Relevance.SquaresKeepOrder` | crates/lc-a2a/src/scale.rs:148 | ranking by squared scores is ranking by scores |
| `Relevance.Cosine` | crates/lc-a2a/src/scale.rs:165-192 | the counting and summing loops compute the score in any hash order |
| `Relevance.CountTokens` | crates/lc-a2a/src/scale.rs:166-173 | the map holds the multiplicity of every word and no other |
| `Relevance.DotOfCounts` | crates/lc-a2a/src/scale.rs:177-187 | the accumulating loop computes the inner product of the counts |
| `Relevance.RunIsOneWord` | crates/lc-a2a/src/scale.rs:155-161 | a run of letters and digits is one word |
| `Relevance.WordsSplit` | crates/lc-a2a/src/scale.rs:155-161 | any other character separates: the words are those before it and those behind it |
| `Relevance.TrimsExactly` | crates/lc-a2a/src/scale.rs:211-214 | normal text is without the blanks at both ends, all of them and nothing else, in lower case |
| `Relevance.ContainsExactly` | crates/lc-a2a/src/scale.rs:221-223 | the substring test finds what stands in the string at some place |
| `Relevance.AffinityBands` | crates/lc-a2a/src/scale.rs:194-227 | each score tells the kind of match behind it, and what is no id, name or substring match stays at or below 0.6 |
| `Relevance.HaystackWords` | crates/lc-a2a/src/scale.rs:225 | the token branch compares with the words of id, name and description together |
| `Relevance.TokenBranchSharesWord` | crates/lc-a2a/src/scale.rs:225-226 | it scores above zero iff the request shares a word with one of them |
| `Relevance.TokenBranchReachesItsTop` | crates/lc-a2a/src/scale.rs:207-226 | the token branch gives 0.6 iff the words are proportional |
| `Relevance.TokenBranchTopExists` | crates/lc-a2a/src/scale.rs:207-226 | a request of four different letters that scores 0.6 in the token branch, with both squared norms 4 |
| `Relevance.SkillAffinity` | crates/lc-a2a/src/scale.rs:210-227 | the branches compute the affinity the lemmas are about |
| `Relevance.SkillAffinityRouter.Select` | crates/lc-a2a/src/router.rs:182-199 | the first route of the greatest affinity if it clears the threshold, otherwise the fallback or the error, which lists every route considered |
| `Relevance.SkillAffinityRouter.Best` | crates/lc-a2a/src/router.rs:183-190 | the scoring loop keeps the first maximum |
| `Relevance.ScoreBelowExactly` | crates/lc-a2a/src/router.rs:191-193 | the threshold test on squares is the one on scores |
| `Relevance.SkillAffinityRouter.IdMatchWins` | crates/lc-a2a/src/router.rs:178-199 | the first id match is the only first maximum, and fails the threshold iff that is above 1 |
| `Relevance.InnerCauchySchwarz` | crates/lc-core/src/math.rs:36-51 | Cauchy-Schwarz for all pairs of real vectors of one length |
| `Relevance.SimilarityBounds` | crates/lc-core/src/math.rs:31-63 | a length mismatch is the only error, every similarity is in [-1, 1], and a vector is fully similar to itself unless degenerate |
| `Relevance.SimilarityTimesNorms` | crates/lc-core/src/math.rs:56-62 | times the two norms a similarity is the inner product; vectors shorter than 1e-8 are similar to nothing |
| `Relevance.InnerOfParts` | crates/lc-core/src/math.rs:37-41 | the inner product adds up over the parts of its vectors |
| `Rankings.RankIsRanking` | crates/lc-a2a/src/scale.rs:142-148 | the sort lists exactly the positive scores, descending, ties in index order |
| `Rankings.RankingIsUnique` | crates/lc-a2a/src/scale.rs:142-148 | there is only one such listing |
| `Rankings.DedupeOrder` | crates/lc-a2a/src/scale.rs:779-791 | keeping first finds leaves no duplicate and orders what is left by first appearance |
| `FleetIndexes.EntriesAreOwned` | crates/lc-a2a/src/scale.rs:740-750 | every index entry is a skill of a registered agent's current card |
| `FleetIndexes.EntriesInOrder` | crates/lc-a2a/src/scale.rs:740-750 | entries stand in first-registration order of their agents |
| `FleetIndexes.SkillsAreIndexed` | crates/lc-a2a/src/scale.rs:740-750 | every skill of every registered agent is indexed |
| `FleetIndexes.RegisterKeepsSlots` | crates/lc-a2a/src/scale.rs:727-738 | a new URL goes last, a known one keeps its slot, and every agent has one slot |
| `FleetIndexes.NewAgentIsAppended` | crates/lc-a2a/src/scale.rs:727-750 | a new agent's skills go to the end of the index, and what was there stays |
| `FleetIndexes.KnownAgentIsReplaced` | crates/lc-a2a/src/scale.rs:725-750 | registering again replaces that agent's entries where they stand and no others |
| `FleetIndexes.FoundAtBestScore` | crates/lc-a2a/src/scale.rs:775-791 | the first find of an agent is at the best score of its skills |
| `FleetIndexes.FoundIsTop` | crates/lc-a2a/src/scale.rs:140-151 | a search returns what the first `limit` places of the only ranking hold |
| `FleetIndexes.CandidatesInOrder` | crates/lc-a2a/src/scale.rs:775-791 | every relevant agent once, by best skill score, ties in registration order |
| `FleetIndexes.LookupIsFaithful` | crates/lc-a2a/src/scale.rs:786-788 | turning URLs into cards drops none and keeps their order |
| `FleetIndexes.PreferFirst` | crates/lc-a2a/src/scale.rs:964-983 | a stable partition by the preferred URL |
| `FleetIndexes.PinningPermutes` | crates/lc-a2a/src/scale.rs:960-983 | pinning permutes the candidates |
| `FleetIndexes.PinningMovesOne` | crates/lc-a2a/src/scale.rs:960-983 | pinning moves one card to the front and leaves all others in their order |
| `FleetIndexes.AbsentPinChangesNothing` | crates/lc-a2a/src/scale.rs:962-980 | a pin that is no candidate leaves the order unchanged |
| `FleetIndexes.PinnedIsTriedFirst` | crates/lc-a2a/src/scale.rs:960-983 | a pinned candidate comes first |
| `AgentRouting.ServedIsFirstAdmitting` | crates/lc-a2a/src/scale.rs:888-896 | the choice is the first candidate not refused; there is none iff all are refused |
| `AgentRouting.RoutingLeaksNoProbe` | crates/lc-a2a/src/scale.rs:883-896 | only the chosen agent's breaker may change: it was closed and stays as it is, or its open duration had passed and it has just taken its probe |
| `AgentRouting.RefusedExactly` | crates/lc-a2a/src/scale.rs:451-471 | told in the fields of the breaker: refused iff its probe is out or it is open and the open duration has not passed |
| `AgentRouting.RefusedPinIsNoPin` | crates/lc-a2a/src/scale.rs:964-983 | with the pinned agent refused the choice is the one without a pin |
| `AgentRouting.BreakersAreIsolated` | crates/lc-a2a/src/scale.rs:883-925 | over every run of registrations, routing and reports an agent's breaker runs on its own calls and reports alone |
| `AgentRouting.PassedOverExactly` | crates/lc-a2a/src/scale.rs:451-500 | after any such run an agent is passed over iff its failures since its last success reach the threshold and it has been called since its open duration passed, or that has not passed yet |
| `AgentRouting.HealthyPinIsServed` | crates/lc-a2a/src/scale.rs:807-832 | a pinned, relevant agent whose breaker does not refuse is the one served |
| `AgentRouting.BreakerTable.Ask` | crates/lc-a2a/src/scale.rs:889-893 | admits iff the breaker is closed, its probe is still to be taken or its open duration has passed; an open one takes its probe; a refusal changes nothing; an agent without a breaker is admitted |
| `AgentRouting.BreakerTable.FirstAdmitting` | crates/lc-a2a/src/scale.rs:888-896 | serves the first candidate that takes calls and touches its breaker alone |
| `AgentFleets.Fnv1a` | crates/lc-a2a/src/scale.rs:334-341 | the byte loop with wrap-around at 64 bits is the fold of the hash |
| `AgentFleets.FnvVectors` | crates/lc-a2a/src/scale.rs:334-341 | four published vectors of the 64-bit hash |
| `AgentFleets.SlotOf` | crates/lc-a2a/src/scale.rs:353-364 | every key has a slot in range, also with zero shards asked for |
| `AgentFleets.SlotIsRemainder` | crates/lc-a2a/src/scale.rs:353-364 | some number of turns around the slots and the slot make up the hash |
| `AgentFleets.KeysAreSpread` | crates/lc-a2a/src/scale.rs:813-832 | of two agents one is pinned by the key "a" and the other by "f" |
| `AgentFleets.TasksAreSpread` | crates/lc-a2a/src/scale.rs:833-849 | the same of two relevant agents and tasks |
| `AgentFleets.AgentFleet.constructor` | crates/lc-a2a/src/scale.rs:683-720 | a new fleet has no agents and an empty, consistent index |
| `AgentFleets.AgentFleet.Register` | crates/lc-a2a/src/scale.rs:727-738 | replaces the card, keeps slot and breaker of a known URL, and leaves the index equal to the cards' skills in slot order |
| `AgentFleets.AgentFleet.RebuildIndex` | crates/lc-a2a/src/scale.rs:742-750 | the index is the current cards' skills in registration order, with nothing stale |
| `AgentFleets.AgentFleet.Search` | crates/lc-a2a/src/scale.rs:140-151 | the top `limit` of the unique ranking of the index, entry by entry |
| `AgentFleets.AgentFleet.RelevantAgents` | crates/lc-a2a/src/scale.rs:779-791 | the loop yields the cards of the candidate order |
| `AgentFleets.FoundInFull` | crates/lc-a2a/src/scale.rs:782 | an unlimited search returns the whole ranking |
| `AgentFleets.RelevantIffWordIsShared` | crates/lc-a2a/src/scale.rs:140-151 | an agent is relevant iff the query shares a word with the description of one of its skills |
| `AgentFleets.AgentFleet.Route` | crates/lc-a2a/src/scale.rs:798-805 | serves a relevant agent that takes calls, all preferred to it taking none, and calls its breaker alone; says that none is available iff no relevant agent takes calls |
| `AgentFleets.BestAgentIsServed` | crates/lc-a2a/src/scale.rs:793-805 | the same of the candidate order and the first agent that admits: a relevant agent that is closed or whose open duration has passed is never passed over |
| `AgentFleets.StickyServesThePin` | crates/lc-a2a/src/scale.rs:807-832 | the agent in the key's slot is served if it is relevant and takes calls; if not, it is as without a pin |
| `AgentFleets.TaskServesThePin` | crates/lc-a2a/src/scale.rs:833-849 | the agent in the task's slot among the relevant ones is served if it takes calls; if not, it is as without a pin |
| `AgentFleets.PinnedOrder` | crates/lc-a2a/src/scale.rs:807-849 | the order of candidates is the ranking with one card moved to the front, or the ranking if the pinned agent is not relevant |
| `AgentFleets.DelegationIsGated` | crates/lc-a2a/src/scale.rs:857-881 | beyond the hop budget nothing is served; a worker is refused, or told that no agent is relevant; an orchestrator is served as without delegation |
| `AgentFleets.AgentFleet.RouteSticky` | crates/lc-a2a/src/scale.rs:813-832 | the agent in the key's slot in registration order if it is relevant and takes calls, otherwise the one `Route` serves |
| `AgentFleets.AgentFleet.RouteForTask` | crates/lc-a2a/src/scale.rs:835-849 | the agent in the task's slot among the candidates if it takes calls, otherwise the one `Route` serves |
| `AgentFleets.AgentFleet.RouteFrom` | crates/lc-a2a/src/scale.rs:857-881 | hop budget first, then tier, then routing, each with its error; a gated call touches no breaker |
| `AgentFleets.AgentFleet.FilterDelegable` | crates/lc-a2a/src/scale.rs:871-874 | the tier rule lets every candidate pass or none |
| `AgentFleets.AgentFleet.RecordSuccess` | crates/lc-a2a/src/scale.rs:913-917 | reports to that agent's breaker alone |
| `AgentFleets.AgentFleet.RecordFailure` | crates/lc-a2a/src/scale.rs:921-925 | reports to that agent's breaker alone |
| `AgentFleets.AgentFleet.LinkDelegation` | crates/lc-a2a/src/scale.rs:944-949 | an error that names the edge iff it would close a cycle; otherwise one more such edge and no other; the fleet's graph stays acyclic |
| `AgentFleets.AgentFleet.IsDelegationAcyclic` | crates/lc-a2a/src/scale.rs:952-957 | always true of a fleet's graph |
| `AgentBreakers.ReachableInv` | crates/lc-a2a/src/scale.rs:414-500 | in every reachable state a probe is in flight iff half-open, the opening time is unset iff closed, and the streak is below the threshold iff closed |
| `AgentBreakers.AllowInReachable` | crates/lc-a2a/src/scale.rs:444-471 | exactly which calls are refused; a refusal changes nothing; an expired open breaker always admits and takes the probe |
| `AgentBreakers.ProbeDrainsEveryoneElse` | crates/lc-a2a/src/scale.rs:444-471 | between a probe's admission and the next report every call is refused, however many and however late |
| `AgentBreakers.TripsExactlyAtThreshold` | crates/lc-a2a/src/scale.rs:482-500 | a breaker stays closed exactly as long as no streak of consecutive failures has reached the threshold |
| `AgentBreakers.StateIsHistory` | crates/lc-a2a/src/scale.rs:451-500 | over every run the state is a function of the reports and calls: closed iff the failures since the last success stay below the threshold, open since the last failure, half-open once a call came late enough |
| `AgentBreakers.RefusedExactlyByHistory` | crates/lc-a2a/src/scale.rs:451-500 | which calls are refused, told from the history alone |
| `AgentBreakers.CircuitBreaker.AllowRequest` | crates/lc-a2a/src/scale.rs:451-471 | the step of the protocol; admitted iff closed, or half-open without a probe, or open and expired, and only then does the state change |
| `AgentBreakers.CircuitBreaker.RecordSuccess` | crates/lc-a2a/src/scale.rs:474-480 | closed, with nothing counted, at whatever time |
| `AgentBreakers.CircuitBreaker.RecordFailure` | crates/lc-a2a/src/scale.rs:487-500 | a failed probe opens again; otherwise one more failure, which opens at the threshold; the clock of the opening is the one handed in |
| `HandlerBreakers.StatusIsExact` | crates/lc-callbacks/src/circuit_breaker.rs:100-168 | the counters equal the calls, the refusals and the openings of the run |
| `HandlerBreakers.TripsAreDocumentedExactly` | crates/lc-callbacks/src/circuit_breaker.rs:56-57 | `trips` is the trips out of closed plus the failed probes, and the former alone iff no failure is reported while half-open |
| `HandlerBreakers.FailedProbeIsCounted` | crates/lc-callbacks/src/circuit_breaker.rs:158-163 | a run with one trip out of closed on which the field says two |
| `HandlerBreakers.CircuitBreaker.AllowCall` | crates/lc-callbacks/src/circuit_breaker.rs:100-117 | admitted iff not open or expired; one more call, one more refusal if it is one |
| `HandlerBreakers.CircuitBreaker.RecordSuccess` | crates/lc-callbacks/src/circuit_breaker.rs:121-136 | ignored while open, closed with nothing counted otherwise |
| `HandlerBreakers.CircuitBreaker.RecordFailure` | crates/lc-callbacks/src/circuit_breaker.rs:140-167 | ignored while open; trips, and counts it, while half-open or at the threshold |
| `BreakerBisimulation.StepsAgreeExactly` | crates/lc-callbacks/src/circuit_breaker.rs:100-167 | from related states one event keeps answers and states together iff it is none of three named kinds |
| `BreakerBisimulation.Bisimilar` | crates/lc-callbacks/src/circuit_breaker.rs:100-167 | if every admitted call reports once before the next call, both breakers admit the same calls and stay in the same state, for all thresholds, cooldowns and clocks |
| `BreakerBisimulation.RunsAgreeExactly` | crates/lc-callbacks/src/circuit_breaker.rs:100-167 | over whole runs, answers and states agree throughout iff no event is of those kinds |
| `BreakerBisimulation.UndisciplinedRunsPart` | crates/lc-callbacks/src/circuit_breaker.rs:95-99 | without that discipline a second call beside the probe is refused by one and admitted by the other |
| `RateLimiting.ReachableInv` | crates/lc-a2a/src/rate_limiter.rs:75-103 | over every run with a monotone clock windows do not overlap and the count is that of the current window |
| `RateLimiting.PermitsAndWindows` | crates/lc-a2a/src/rate_limiter.rs:54-110 | available and outstanding permits add up to the cap, and no window admits more than its budget |
| `RateLimiting.RejectionCostsNothing` | crates/lc-a2a/src/rate_limiter.rs:77-104 | exactly when the rate rejects; no rejection takes a permit or budget |
| `RateLimiting.AdmittedExactly` | crates/lc-a2a/src/rate_limiter.rs:75-103 | told from the history alone: admitted iff the budget of its window is not used up and fewer permits are out than may be |
| `RateLimiting.StateIsHistory` | crates/lc-a2a/src/rate_limiter.rs:75-110 | what is out is what was admitted less what was handed back, and windows open by the clock alone |
| `RateLimiting.TwiceTheBudget` | crates/lc-a2a/src/rate_limiter.rs:75-103 | no interval of one window's length, wherever it starts, sees more than twice the budget |
| `RateLimiting.TwiceTheBudgetIsReached` | crates/lc-a2a/src/rate_limiter.rs:75-103 | for every budget a run attains that bound |
| `RateLimiting.RollingBoundExactly` | crates/lc-a2a/src/rate_limiter.rs:7-8 | the documented rolling bound holds iff the window is a single clock tick |
| `RateLimiting.RateLimiter.constructor` | crates/lc-a2a/src/rate_limiter.rs:54-69 | a fresh window of one minute and as many permits as asked for, zero meaning no cap |
| `RateLimiting.RateLimiter.TryAcquirePermit` | crates/lc-a2a/src/rate_limiter.rs:75-103 | rolls the window when it is over, rejects for rate before concurrency, and takes budget and a permit only with an Ok |
| `RateLimiting.RateLimiter.DropPermit` | crates/lc-a2a/src/rate_limiter.rs:106-109 | dropping the guard returns one permit |
| `Templates.SubstituteTemplate` | crates/lc-chains/src/base.rs:150-220 | the scan ends on every template and equals rendering its parse; by the rules a bound placeholder is replaced by its value, and `missing` is the unbound names, each once |
| `Templates.ScanIsRenderOfParse` | crates/lc-chains/src/base.rs:150-220 | the single pass factors into a parse of the template alone and a rendering, so values are never rescanned |
| `Templates.MissingIsExact` | crates/lc-chains/src/base.rs:144-148 | `missing` is exactly the unbound names, each once, in order of first appearance |
| `Templates.OnlyParsedNamesMatter` | crates/lc-chains/src/base.rs:142-143 | bindings of names that are not in the template change nothing |
| `Templates.ParseIsWellFormed` | crates/lc-chains/src/base.rs:176-178 | only valid names are ever substituted |
| `Templates.ParseRules` | crates/lc-chains/src/base.rs:159-220 | the first piece of any template: a doubled brace, a placeholder with a valid name, or the character itself |
| `Templates.SubstitutionRules` | crates/lc-chains/src/base.rs:159-220 | the same for the output, with the value of a bound name and the text of an unbound one |
| `Templates.PlaceholderIsReplaced` | crates/lc-chains/src/base.rs:185-196 | a placeholder in front of any template is replaced by the value bound to it, or stays |
| `Templates.ParseUnparse` | crates/lc-chains/src/base.rs:163-217 | text put together from literals and placeholders parses back to them, in front of any template |
| `Templates.ParseNormalForm` | crates/lc-chains/src/base.rs:163-217 | spelling out a parse and parsing again gives the same pieces |
| `Templates.EscapeRoundTrip` | crates/lc-chains/src/base.rs:149-217 | escaped text in front of any template comes out verbatim and disturbs nothing behind it; alone it reports nothing missing |
| `SequentialChains.SequentialChain.RunSteps` | crates/lc-chains/src/sequential_chain.rs:188-242 | the loop comes to the one outcome that the mappings and the chains allow, errors included |
| `SequentialChains.SequentialChain.StreamSteps` | crates/lc-chains/src/sequential_chain.rs:255-426 | the loop forwards the text of every streamed step and hands on the last stream, or fails where a step does |
| `SequentialChains.SequentialChain.GatherInputs` | crates/lc-chains/src/sequential_chain.rs:198-208 | exactly the mapped chain keys with the values of their global keys, or the first one missing in the order of the map |
| `SequentialChains.SequentialChain.StoreOutputs` | crates/lc-chains/src/sequential_chain.rs:223-236 | state and final output get each mapped output under its global key and keep everything else, or both fail on the first key missing |
| `SequentialChains.DrainTokens` | crates/lc-chains/src/sequential_chain.rs:313-317 | the concatenated tokens, or the first error |
| `SequentialChains.GatheredExactly` | crates/lc-chains/src/sequential_chain.rs:198-208 | what a step hands to its chain: exactly the mapped keys with their values, or the first that is missing |
| `SequentialChains.StoredExactly` | crates/lc-chains/src/sequential_chain.rs:223-236 | what a step writes: exactly the mapped outputs under their global keys, or the first that is missing |
| `SequentialChains.RunIsExecution` | crates/lc-chains/src/sequential_chain.rs:188-242 | a run does what the mappings say step by step and returns what was written with its last values, or fails where a step does; there is no other outcome |
| `SequentialChains.OneChainRun` | crates/lc-chains/src/sequential_chain.rs:188-242 | the run of one chain is what the chain answers to the mapped inputs, renamed by its output mapping |
| `SequentialChains.StreamIsExecution` | crates/lc-chains/src/sequential_chain.rs:255-426 | the same of a stream, with the text of each forwarded step, the check of the last outputs and every error |
| `SequentialChains.TextOfBoth` | crates/lc-chains/src/sequential_chain.rs:313-317 | the text of a stream is put together part by part, up to the first error |
| `SequentialChains.StepSimulation` | crates/lc-chains/src/sequential_chain.rs:285-338 | at one step the executors succeed alike and leave the same state iff the step, where it is streamed, is faithful on what it is given |
| `SequentialChains.StreamEqualsInvoke` | crates/lc-chains/src/sequential_chain.rs:188-426 | the streaming executor succeeds iff the invoking one does, and its tokens spell the last mapped output |
| `SequentialChains.ExecutorsAgreeThroughoutExactly` | crates/lc-chains/src/sequential_chain.rs:188-426 | the executors hold the same state after every step and come to the same text iff every streamed step is faithful on what it is given there |
| `SequentialChains.ExecutorsAgreeExactly` | crates/lc-chains/src/sequential_chain.rs:188-426 | while the steps before it are faithful on what they are given, the results agree iff the last step is, an undeclared output included |
| `SequentialChains.FirstDeclaredLeads` | crates/lc-chains/src/base.rs:296-299 | the default stream picks the first declared output that holds a string, and none iff there is none |
| `SequentialChains.DefaultStreamCoherence` | crates/lc-chains/src/base.rs:285-320 | for any declared outputs, the default stream is faithful for a key iff every result spells that key out |
| `SequentialChains.DeclaredSpells` | crates/lc-chains/src/base.rs:292-309 | for a declared key: it holds the text of the output picked, or it is absent and there is nothing to stream |
| `SequentialChains.DefaultStepAgreesExactly` | crates/lc-chains/src/sequential_chain.rs:341-425 | on a chain with the default stream, for any declared outputs and any mapped one, the executors agree iff the result spells out the mapped output or, if undeclared, does not hold it |
| `SequentialChains.UndeclaredIsNotStreamed` | crates/lc-chains/src/sequential_chain.rs:355-373 | a mapped output that the run finds and the stream refuses |
| `SequentialChains.SecondOutputIsNotStreamed` | crates/lc-chains/src/base.rs:296-309 | a chain with two declared outputs on which the executors disagree |
| `SequentialChains.MinIsUnique` | crates/lc-chains/src/base.rs:304-308 | the smallest key that the fallback takes is well defined |
| `SequentialChains.AtMostIsLexicographic` | crates/lc-chains/src/base.rs:304-308 | keys are ordered as in a dictionary |
| `SequentialChains.SequentialChain.InputKeys` | crates/lc-chains/src/sequential_chain.rs:437-458 | exactly the keys some step reads and none produces, each once |
| `SequentialChains.InputKeysAreExact` | crates/lc-chains/src/sequential_chain.rs:437-458 | in a well-ordered chain the reported keys suffice, and in every chain each of them is needed |
| `SequentialChains.MisorderedChainFails` | crates/lc-chains/src/sequential_chain.rs:437-458 | in any other chain the reported keys alone never suffice |
| `SequentialChains.MisorderedPair` | crates/lc-chains/src/sequential_chain.rs:437-458 | two steps that report no key and miss one |
| `TaskStores.TerminalMeansNoWayOut` | crates/lc-a2a/src/protocol/task.rs:60-101 | the terminal statuses are exactly those without a way out |
| `TaskStores.EnteredFrom` | crates/lc-a2a/src/protocol/task.rs:63-89 | from where each status is entered; `auth-required` is entered from none |
| `TaskStores.CapacityHolds` | crates/lc-a2a/src/store.rs:186-231 | over every interleaving the store stays within a positive capacity and keeps tasks under their id |
| `TaskStores.EvictionIsMinimal` | crates/lc-a2a/src/store.rs:211-231 | a step drops at most one other task: the least recently updated one, when a new id meets a full store; every other is untouched |
| `TaskStores.AnswersAreKept` | crates/lc-a2a/src/store.rs:242-310 | an answered write is there, an answered delete is not, and without an answer nothing changes; exactly what is answered |
| `TaskStores.WrittenTaskStays` | crates/lc-a2a/src/store.rs:211-310 | a task that was written stays with that value until a step writes or deletes its id or evicts it |
| `TaskStores.ResidentIsLastWrite` | crates/lc-a2a/src/store.rs:211-310 | over every run a task is resident iff a step wrote it and none after it wrote, deleted or evicted it |
| `TaskStores.OwnerNeverChanges` | crates/lc-a2a/src/store.rs:114-119 | through claimed writes a resident owned task never changes hands |
| `TaskStores.TerminalSurvives` | crates/lc-a2a/src/store.rs:157-167 | no compare-and-update overwrites a terminal task while it is resident |
| `TaskStores.OneFinisherWins` | crates/lc-a2a/src/store.rs:162-165 | of all racing attempts to finish a task at most one is applied |
| `TaskStores.DefaultsAgreeExactly` | crates/lc-a2a/src/store.rs:125-180 | the two-step defaults act like the atomic bodies iff what they read still decides the same way |
| `TaskStores.DefaultsInRuns` | crates/lc-a2a/src/store.rs:121-180 | in a run with no step on the id between read and write, a default acts like the atomic body iff the id was not evicted meanwhile or what was read decided as without a task |
| `TaskStores.DefaultLosesTerminal` | crates/lc-a2a/src/store.rs:168-180 | with a cancel in between the default overwrites a terminal task |
| `TaskStores.InMemoryTaskStore.OldestKey` | crates/lc-a2a/src/store.rs:222-225 | the scan finds a least recently updated task in any hash order |
| `TaskStores.InMemoryTaskStore.InsertLocked` | crates/lc-a2a/src/store.rs:214-231 | the task is stored under its id, and only for a new id at capacity does a least recently updated one make room |
| `TaskStores.InMemoryTaskStore.UpsertTask` | crates/lc-a2a/src/store.rs:242-249 | the atomic step of an upsert: the task is there |
| `TaskStores.InMemoryTaskStore.UpsertClaimedTask` | crates/lc-a2a/src/store.rs:251-271 | applied iff the id is free or has no other owner; then the task is there, otherwise nothing changes |
| `TaskStores.InMemoryTaskStore.CompareAndUpdateTask` | crates/lc-a2a/src/store.rs:293-310 | applied iff the task is there and may go to the new status; then it is replaced, otherwise nothing changes |
| `TaskStores.InMemoryTaskStore.DeleteTask` | crates/lc-a2a/src/store.rs:289-291 | the task is gone, and the answer is whether it was there |
| `CostTracking.SpendIsConserved` | crates/lc-core/src/cost.rs:389-548 | however recordings interleave, the total is the money spent, the sum over models and the sum over scopes |
| `CostTracking.ScopeIsIsolated` | crates/lc-core/src/cost.rs:438-445 | a scope reads exactly its own charges, in total and kind by kind, and its kinds add up to its total |
| `CostTracking.OthersDoNotMatter` | crates/lc-core/src/cost.rs:555-572 | what other scopes do never shows in a scope's costs |
| `CostTracking.CostIsLinear` | crates/lc-core/src/cost.rs:54-57 | a thousand prompt or completion tokens cost their price, and costs add up |
| `CostTracking.KeysCollideExactly` | crates/lc-core/src/cost.rs:423-426 | which records share an entry: those of one provider and model, and one without a provider whose model spells out both |
| `CostTracking.ModelIsIsolated` | crates/lc-core/src/cost.rs:423-438 | a model's entry is the number, both kinds of tokens and the cost of the charges booked under its key, and it exists iff there is one |
| `CostTracking.CountersAreUsage` | crates/lc-core/src/cost.rs:429-433 | calls, both kinds of tokens and the total are those of all charges |
| `CostTracking.RecordsAreTheNewest` | crates/lc-core/src/cost.rs:309-329 | the buffer is exactly the newest `max_records` of the history |
| `CostTracking.CostTracker.PushRecord` | crates/lc-core/src/cost.rs:318-329 | appends and drops the oldest beyond the bound |
| `CostTracking.CostTracker.RecordScoped` | crates/lc-core/src/cost.rs:389-465 | prices the call at the provider's own price, else at the model's, else at zero, and books it under its scope as language model spend |
| `CostTracking.CostTracker.BookCall` | crates/lc-core/src/cost.rs:428-447 | the atomic step of a recording: counters, model, scope and buffer together |
| `CostTracking.CostTracker.RecordCostScoped` | crates/lc-core/src/cost.rs:492-548 | books a cost under its kind, and ignores a negative one |
| `CostTracking.CostTracker.RunCostUsd` | crates/lc-core/src/cost.rs:564-572 | the scope's total, zero for an unknown scope |
| `CostTracking.CostTracker.RunCostUsdByType` | crates/lc-core/src/cost.rs:578-588 | the scope's total of one kind, zero for an unknown scope |
| `CostTracking.CostTracker.Reset` | crates/lc-core/src/cost.rs:622-624 | everything is as new |
| `MemoryCaches.ReachableInv` | crates/lc-agents/src/cache.rs:69-96 | the queue lists the keys of the map, each once, and never more than the capacity |
| `MemoryCaches.NewestArrivalsStay` | crates/lc-agents/src/cache.rs:77-88 | after any history exactly the newest arrivals are resident, in order of arrival |
| `MemoryCaches.HitsAreCurrent` | crates/lc-agents/src/cache.rs:70-95 | every hit is the value last put under its key since the last clear |
| `MemoryCaches.MemoryCache.constructor` | crates/lc-agents/src/cache.rs:58-66 | empty, with room for one entry at least |
| `MemoryCaches.MemoryCache.Get` | crates/lc-agents/src/cache.rs:70-75 | a hit iff the key is resident |
| `MemoryCaches.MemoryCache.PutEntry` | crates/lc-agents/src/cache.rs:77-88 | the value is there; a resident key keeps its place, a new one goes last, and only a full cache drops its first |
| `MemoryCaches.MemoryCache.ClearAll` | crates/lc-agents/src/cache.rs:90-95 | nothing is left |
| `ActiveSpanTables.NoSpanLeaks` | crates/lc-callbacks/src/base.rs:186-219 | over every interleaving of starts, second looks and ends the queue lists the keys of the map in the order they were put in, within the bound, and every span is accounted for |
| `ActiveSpanTables.EndedAtMostOnce` | crates/lc-callbacks/src/base.rs:302-336 | every span started is, exactly once, ended, active or in the hands of its call, and no other span is |
| `ActiveSpanTables.EndsExactly` | crates/lc-callbacks/src/base.rs:186-336 | over every interleaving a span ends with its run, in a lost race, or as the oldest of a full table, and then only |
| `ActiveSpanTables.PublishExactly` | crates/lc-callbacks/src/base.rs:186-208 | a published span goes last and a full table ends its first span; in a lost race it ends itself and the table stays |
| `ActiveSpanTables.MakeRoomEndsTheOldest` | crates/lc-callbacks/src/base.rs:183-207 | a full table ends the span put in first and nothing else |
| `ActiveSpanTables.ActiveSpans.StartSpan` | crates/lc-callbacks/src/base.rs:302-313 | no span when the run has an active one, otherwise a new one |
| `ActiveSpanTables.ActiveSpans.PublishSpan` | crates/lc-callbacks/src/base.rs:314-321 | a concurrent start wins and this span ends, otherwise it enters the table |
| `ActiveSpanTables.ActiveSpans.EvictOldest` | crates/lc-callbacks/src/base.rs:187-206 | the eviction loop, stale queue entries included |
| `ActiveSpanTables.ActiveSpans.EndSpan` | crates/lc-callbacks/src/base.rs:213-218 | the key leaves map and queue, wherever in the queue it stands |
| `HttpRetries.Execute` | crates/lc-core/src/http.rs:624-723 | for every script the loop ends and does what the script explains: which attempts pass, what is sent when, how long each sleep is, and the outcome |
| `HttpRetries.Send` | crates/lc-core/src/http.rs:649-716 | one turn: not sent, settled with its outcome, or turned to the wait |
| `HttpRetries.Wait` | crates/lc-core/src/http.rs:743-768 | the larger of the two delays cut by what is left, or the outcome that ends the request |
| `HttpRetries.RunIsUnique` | crates/lc-core/src/http.rs:624-723 | a script allows one run only |
| `HttpRetries.RetriesExactly` | crates/lc-core/src/http.rs:658-716 | an attempt turns to the wait iff it was sent in time, its status or failure is one of the listed kinds under the policy or its override, and attempts are left |
| `HttpRetries.GoesOnExactly` | crates/lc-core/src/http.rs:743-768 | and another follows iff the wait comes to its end: in time, not cancelled, without the panic |
| `HttpRetries.EndsExactly` | crates/lc-core/src/http.rs:649-768 | exactly when a run ends cancelled, timed out, in a transport error or in the panic |
| `HttpRetries.ClockAddsUp` | crates/lc-core/src/http.rs:624-768 | sends, replies and sleeps add up to the clock of the next send |
| `HttpRetries.SleepsExactly` | crates/lc-core/src/http.rs:743-757 | a sleep is the longer of the two delays, or ends at the deadline if that comes first |
| `HttpRetries.SendsAreBounded` | crates/lc-core/src/http.rs:122-123 | at most max(1, max_attempts) sends, none after the deadline |
| `HttpRetries.ResendsAreJustified` | crates/lc-core/src/http.rs:841-871 | a resend follows a retryable status or a transport failure; an unsafe method without override is resent only after such a status or when no connection was made |
| `HttpRetries.RetryAfterIsHonoured` | crates/lc-core/src/http.rs:743-758 | the next request keeps the distance the server asked for, or goes out at the deadline itself |
| `HttpRetries.SleepsFitTheBudget` | crates/lc-core/src/http.rs:750-757 | the sleeps of a request together fit its total timeout |
| `HttpRetries.BackoffSleepsAreCapped` | crates/lc-core/src/http.rs:127-129 | a sleep nobody asked for is no longer than the cap of its attempt |
| `HttpRetries.RespondsExactly` | crates/lc-core/src/http.rs:672-694 | exactly when a response comes back and with which status |
| `HttpRetries.NoPanicBelow584Years` | crates/lc-core/src/http.rs:895-900 | with a largest delay below 2^64 ns no run meets the division by zero |
| `HttpRetries.BackoffUsesTheCap` | crates/lc-core/src/http.rs:886-897 | falling back to the largest delay on overflow loses nothing against the exact product |
| `HttpRetries.BackoffRange` | crates/lc-core/src/http.rs:885-902 | exactly which delays some entropy yields |
| `HttpRetries.BackoffPanicsExactly` | crates/lc-core/src/http.rs:895-900 | division by zero iff the cap is a positive multiple of 2^64 ns; otherwise the delay is within the cap |
| `HttpRetries.PanicExists` | crates/lc-core/src/http.rs:895-900 | a policy at which a request ends in the division by zero |
| `HttpRetries.CapGrows` | crates/lc-core/src/http.rs:887-894 | the cap never falls from attempt to attempt, as long as the attempt fits 32 bits |
| `HttpRetries.CapDoubles` | crates/lc-core/src/http.rs:887-894 | the cap starts at the base delay, doubles up to the largest delay, and is the same from the 32nd attempt on |
| `ResilientClients.RetryOn` | crates/lc-a2a/src/resilient.rs:399-424 | the loop ends at the first attempt that is not tried again, sleeps the doubling delays before, and never falls out of its end |
| `ResilientClients.TriesEndExactly` | crates/lc-a2a/src/resilient.rs:396-424 | exactly one attempt is the one an agent ends in: all before failed transiently, and it did not or was the last |
| `ResilientClients.TriedAgainExactly` | crates/lc-a2a/src/resilient.rs:380-424 | an attempt is followed by another on the same agent iff it failed in transit or by timeout and retries are left |
| `ResilientClients.BackoffSum` | crates/lc-a2a/src/resilient.rs:415-416 | the delays sum to at most base * (2^r - 1), with equality iff nothing saturates |
| `ResilientClients.DelayDoubles` | crates/lc-a2a/src/resilient.rs:415 | one delay is base * 2^attempt iff neither the power nor the product saturates, and less otherwise |
| `ResilientClients.DelaySaturates` | crates/lc-a2a/src/resilient.rs:415 | where it saturates a delay is the longest duration or the largest 32-bit number of bases |
| `ResilientClients.WithFallbacks` | crates/lc-a2a/src/resilient.rs:350-376 | agents are asked in order until one succeeds, ends in an error that is not handed on, or is the last; there always is a last error |
| `ResilientClients.SendTask` | crates/lc-a2a/src/resilient.rs:124-136 | a run of that kind under one id, drawn before the first attempt |
| `ResilientClients.AskedExactly` | crates/lc-a2a/src/resilient.rs:357-371 | an agent is asked iff every agent before it ended in an error that is handed on |
| `ResilientClients.SucceedsExactly` | crates/lc-a2a/src/resilient.rs:350-376 | success with a value iff an agent that is asked ends in it |
| `ResilientClients.FailsExactly` | crates/lc-a2a/src/resilient.rs:350-376 | failure with an error iff an agent that is asked ends in it and it is not handed on or no agent is left |
| `ResilientClients.HandedOnExactly` | crates/lc-a2a/src/resilient.rs:357-395 | the next agent is asked iff there is one and this one ended in an error of transit, timeout, API or route |
| `ResilientClients.RefusalsAreHandedOn` | crates/lc-a2a/src/resilient.rs:380-395 | an agent that answers with an error of its own is not asked again, and the next agent is |
| `ResilientClients.AttemptsAreBounded` | crates/lc-a2a/src/resilient.rs:350-424 | between one and (1 + fallbacks) * (max_retries + 1) attempts |
| `ResilientClients.WaitsPerAgent` | crates/lc-a2a/src/resilient.rs:45-50 | what one agent is made to wait for in a run, exactly short of saturation |
| `MessageIdTables.TableIsBounded` | crates/lc-a2a/src/server/mod.rs:138-150 | over every run at most the bound of ids is tracked, each of them still queued |
| `MessageIdTables.EvictsFirstListed` | crates/lc-a2a/src/server/mod.rs:161-184 | a full table drops the id whose first queue entry comes first, and no other |
| `MessageIdTables.EntryIsLostExactly` | crates/lc-a2a/src/server/mod.rs:161-191 | other ids never change an entry; it is lost iff it heads a full queue when a new id comes |
| `MessageIdTables.TableRefinesMap` | crates/lc-a2a/src/server/mod.rs:144-191 | while no more than the bound of different ids come by, the table answers like an unbounded map |
| `MessageIdTables.QueueGrowsWithoutBound` | crates/lc-a2a/src/server/mod.rs:148-150 | claiming and dropping one id n times leaves an empty map and a queue of n entries |
| `MessageIdTables.StepStaysTidyExactly` | crates/lc-a2a/src/server/mod.rs:144-191 | from a queue that lists the tracked ids once each, a step keeps it so iff it drops no tracked id |
| `MessageIdTables.QueueIsTidyExactly` | crates/lc-a2a/src/server/mod.rs:138-150 | over whole runs the same, and then the queue is within the bound |
| `MessageIdTables.QueueLengthIsDrops` | crates/lc-a2a/src/server/mod.rs:138-150 | the queue exceeds the bound by at most the number of drops, and exceeds the table by exactly that until more ids than the bound have come by |
| `MessageIdTables.MessageIdTable.Put` | crates/lc-a2a/src/server/mod.rs:161-187 | the id names the task afterwards; a known id keeps its place, and a new one evicts only from a full table |
| `MessageIdTables.MessageIdTable.Drop` | crates/lc-a2a/src/server/mod.rs:189-191 | the id leaves the map, not the queue |
| `IdempotentSends.ClaimIsHeld` | crates/lc-a2a/src/server/mod.rs:904-910 | whatever is evicted and however calls interleave, an id in flight is held by a call that is still to bind or release it, or was dropped while it held it |
| `IdempotentSends.NoClaimIsLeftBehind` | crates/lc-a2a/src/server/mod.rs:904-910 | once all calls are through, or were dropped without the claim, no id is in flight |
| `IdempotentSends.DroppedClaimIsStuck` | crates/lc-a2a/src/server/mod.rs:911-949 | with every call through or dropped, an id still in flight is stuck, and a call was dropped with the claim |
| `IdempotentSends.StuckForever` | crates/lc-a2a/src/server/mod.rs:924-933 | whatever calls come, a stuck id stays in flight and its chain does not run |
| `IdempotentSends.DroppedWhileStoring` | crates/lc-a2a/src/server/routes.rs:43-119 | a first call dropped in the store write leaves its id stuck |
| `IdempotentSends.DroppedWhileBinding` | crates/lc-a2a/src/server/routes.rs:129-133 | a first call dropped while it binds leaves its id stuck although its task is stored |
| `IdempotentSends.DroppedBeforeStoring` | crates/lc-a2a/src/server/routes.rs:43-90 | a first call dropped before its claim takes nothing with it, and between claim and slot it is not dropped |
| `IdempotentSends.DroppedBeforeRunning` | crates/lc-a2a/src/server/routes.rs:132-156 | a call dropped between binding and spawning leaves a task that every retry is given and that never runs |
| `IdempotentSends.AtMostOneRun` | crates/lc-a2a/src/server/routes.rs:35-64 | however the calls of one id interleave and wherever they are dropped, the chain runs at most once while store and table keep the entry |
| `IdempotentSends.AnswersAgree` | crates/lc-a2a/src/server/routes.rs:35-64 | all calls of one id that are given a task are given the same one |
| `IdempotentSends.ExactlyOneRun` | crates/lc-a2a/src/server/routes.rs:35-164 | once all calls are through, a task that was given to a call is the one that ran |
| `IdempotentSends.SendNew` | crates/lc-a2a/src/server/mod.rs:938-949 | a call alone with an unknown id claims it, runs the chain once and binds the task |
| `IdempotentSends.RetryIsIdempotent` | crates/lc-a2a/src/server/routes.rs:44-50 | a retry of an id whose task is stored is given that task and changes nothing |
| `IdempotentSends.BusyWhileInFlight` | crates/lc-a2a/src/server/mod.rs:932-933 | while the id is in flight a call is turned away and changes nothing |
| `IdempotentSends.DeniedSendLeavesNothing` | crates/lc-a2a/src/server/routes.rs:82-127 | a send of a new id that is denied its slot or its store write is refused and leaves nothing behind |
| `IdempotentSends.LateRetryLooksAgain` | crates/lc-a2a/src/server/mod.rs:919-949 | a retry that found its task gone looks at the table again: it claims an id that was dropped meanwhile, and is given a task that was bound meanwhile |
| `IdempotentSends.RetryAfterLoss` | crates/lc-a2a/src/server/mod.rs:915-930 | a retry of an id whose task is gone runs the chain and leaves the id unknown |
| `IdempotentSends.TwoRetriesAfterLoss` | crates/lc-a2a/src/server/routes.rs:44-55 | two retries in sequence run nothing iff the task is stored; otherwise both run |
| `IdempotentSends.LostTaskRunsThrice` | crates/lc-a2a/src/server/routes.rs:44-55 | a run from the start: one send, one lost task, two retries, three runs |
| `MessageServers.OwnOperation` | crates/lc-a2a/src/server/mod.rs:911-961 | with all ids on one table, whatever concerns an id is for it an operation of the single protocol: a call that arrives, steps or is dropped, or a task that is lost |
| `MessageServers.OthersStep` | crates/lc-a2a/src/server/mod.rs:161-191 | while the table has room, a step of another id's call leaves an id its entry, calls and runs |
| `MessageServers.OneRunForEachId` | crates/lc-a2a/src/server/routes.rs:35-64 | while no more different ids than the table's bound have come by and the store keeps its tasks, the chain runs at most once for each id |
| `MessageServers.OneTaskForEachId` | crates/lc-a2a/src/server/routes.rs:35-64 | whatever is given out for an id is the one task that ran for it |
| `Deliveries.OneRunPerAgent` | crates/lc-a2a/src/resilient.rs:119-136 | however many messages are lost, an agent runs the chain at most once over all message ids, and never if it is not asked or refuses at first |
| `Deliveries.RunsAreBounded` | crates/lc-a2a/src/resilient.rs:119-136 | over all agents at most one run for each agent that is asked and does not refuse at first |
| `Deliveries.EagerTotal` | crates/lc-a2a/src/resilient.rs:119-136 | that bound is attained by servers that fit every reply the client saw |
| `Deliveries.TaskGivenIsTaskRun` | crates/lc-a2a/src/server/routes.rs:35-64 | a task an agent gave out for the id is the only one whose chain it ran |
| `Deliveries.NeverTwiceExactly` | crates/lc-a2a/src/resilient.rs:122-128 | the chain runs at most once, whatever the servers do that fits the client's replies, iff at most one agent that is asked does not refuse at first |
| `Deliveries.LostResponseRunsTwice` | crates/lc-a2a/src/resilient.rs:125-127 | a run of two agents, the first response lost, that may have run the chain twice |
| `Deliveries.RefusalRunsOnce` | crates/lc-a2a/src/resilient.rs:380-395 | a run of two agents, the first refusing or without a route, that ran it once at most |

## Left out

- Floating point: rounding, NaN and infinities. Scores are squared rationals or reals, costs are reals; `cosine_similarity`
  takes the true norms as inputs instead of computing roots, and its final cast to 32 bits is dropped.
- Integer widths where nothing depends on them: token counts, call counters and clock readings are unbounded. Widths that
  matter are written out (the 64-bit hash, 32-bit attempt numbers, durations, the semaphore's permit limit).
- Unicode: lower-casing, whitespace and letter tables are parameters; `EscapeRoundTrip` and its kin assume of them that
  braces are neither letters nor digits. Keys are hashed as given byte sequences.
- `Relevance.HaystackWords`: is for tables that lower text piece by piece; the one exception of Unicode, a sigma at the
  end of a word, is outside it, and so it is outside `TokenBranchSharesWord`. Nothing else rests on the two.
- `CostTracking.KeysCollideExactly`: is about provider names without a slash; with one, names can collide in more ways.
- Memory, callbacks and configuration threaded through chains; a step's chain is a pair of functions of its inputs. The
  text of error messages is reduced to what identifies the error.
- HTTP bodies, headers, the parse of `Retry-After`, multipart requests and server-sent events: the retry loop sees status,
  delay and kind of failure. Overflow of the deadline itself is not modelled.
- `HttpRetries.CapGrows`: is stated for attempt numbers below 2^32, because the cast to 32 bits starts the doubling over there.
- Polling of `wait_for_task`, and event subscriptions, which are `RetryOn` with another bound.
- Continuations of existing tasks under a message id, ownership checks, and the contents of tasks: the send protocol is
  followed for one id and fresh tasks, other ids acting on it through evictions alone (`EntryIsLostExactly`).
- What the text of a transport error may tell of the request's fate; such an error leaves it open.
- Agents that share one task store behind different addresses: each agent has a server of its own.
- `RunsAreBounded` and its kin are about servers that lose no task and no id while the client retries; what a loss does is
  `TwoRetriesAfterLoss`.
- The age of an id in the message id table beyond its place in the queue; a claim that follows an abort of the same id keeps
  the earlier place, as `EvictsFirstListed` says.
- `list` and its sorting in the task store, time to live, and metadata of tasks.
- The tracer's span stack and error marks; a span is its number.
- The worker list of the tier policy, which no decision reads; the formatted scores in the router's error.
- Other threads' reports between two breakers that one routing call asks in turn: a routing call is one step.
- Mutex poisoning, task scheduling, logging, metrics sinks, builders, serialisation and price tables.
