# Verification of the allocation loop, the bench selections and their checks

A Dafny model of the parts of Kivou whose behaviour spans several operations. `dafny verify dfyconfig.toml`
checks all of it.

- **The learning-allocation loop.** Workers take a snapshot of a window, score its cells, propose moves of one
  unit, have one selected, record a policy decision and apply it. `LearningDb` says what each store call does to
  the two tables, `LearningStore` is the store with its loops, proved against it, `AuthorityChain` holds what every
  interleaving of calls keeps. `LearningWorker` is the cycle as a machine of one store call per step, and the worker
  proved against it; `LearningRuns` runs any number of them with crashes, `LearningProgress` bounds
  their moves, `CycleReplay` repeats one cycle, `CycleReports` says what reports are worth while others run,
  `CycleRaces` what workers on one cycle can do to each other, `CycleScenarios` constructs the runs that do harm, and
  `CycleFutures` says which reports are repeated for ever. `DecisionHistory`, `RunHistory` and `StoreMeaning` say where
  every decision and every stored value comes from, and `CandidateMeaning` what is proposed and applied.
  `Candidates` and `AllocationOptimality` hold the moves and what they achieve, `Economics` the scores,
  `ResponseFacts`, `ConversionFacts` and `RevenueMeaning` the metrics behind them.
- **Bounded selections.** `NoticeCap`, `Signal100`, `Signal100Select`, `Signal100Size`, `Signal100Coverage`, `Dealing`,
  `Benchmark`, `BenchmarkMeaning`, `WedgeReview` and `Showcase`: greedy, round-robin and two-pass loops over counters, and what it means that they stop.
- **State that must agree with something simpler.** `ForeignKeys`, `Rehearsal` and `RehearsalMeaning`: the
  baseline of a migration rehearsal. `VerificationCache`, `VerificationRunner`, `VerificationRerun` and
  `VerificationMeaning`: cached against uncached runs. `Lines`, `SecretHygiene` and `SecretMeaning`: the parser, printer and rewriter of environment files.

References and fingerprints are modelled as the content they identify, so two are equal exactly when that content is.
Money, scores and costs are exact. Answers from outside (metrics, selector, policy gateway, circuit breaker, model)
are arbitrary parameters.

Where the program falls short of what it is meant to do, the exact condition is proved:

- A finished cycle is replayed only while it has a single snapshot (`CycleReports.ReportsReplayIff`). A crash
  between saving a snapshot and recording a selection, followed by a retry that sees other metrics or another tip,
  leaves two snapshots for one window and envelope, and from then on the lookup fails. At the time of a report this
  is still to come exactly if some worker stands between its look-up and saving (`CycleFutures.ReportsReplayForEverIff`).
- A worker can report SHADOW_ONLY or POLICY_DENIED of a proposal another worker has applied: exactly when its
  guarded write found the row decided otherwise (`CycleReports.PolicyReportStandsIff`,
  `CycleScenarios.ShadowReportBesideAppliedHappens`).
- One window and envelope can have two proposals applied: exactly when a worker whose look-up found no selection before
  the first application reads the tip after it, and the allocation leaves room (`CycleScenarios.FurtherApplicationIff`,
  `CycleScenarios.TwoApplicationsHappen`).
- A retry after saving candidates goes on only with the same capture time (`CycleReplay.RetryNeedsTheSameCaptureTime`).
- The supersession test accepts a cycle beside a lone evaluation (`ResponseFacts.CycleBesideLeafIsAccepted`); it is
  exact because evaluations are stored after those they supersede.
- The cache exceeds its limit when the file it loads does (`VerificationCache.LimitHoldsIffFileFits`).
- The baseline comparison counts rows. Where a captured key has become ambiguous it refuses preserved rows, and
  what it accepts has lost a row (`Rehearsal.BatchingIsExactIff`, `Rehearsal.DuplicateHidesLoss`).
- A secret on a line that ends with a vertical tab, form feed or another rare separator loses that ending
  (`SecretHygiene.RewriteKeepsLinesIff`, `SecretHygiene.VerticalTabMergesLines`).
- A benchmark target of -1 still picks a signal, and no other negative target does
  (`Benchmark.NegativeTargetPicks`).
- A pool of exactly one hundred signals would give a Signal-100 bench of ninety-nine (`Signal100Size.BuiltBenchSize`);
  the 120 that a build demands always give one hundred (`Signal100Size.NaturalVolumeSuffices`).
- The review sample of a feed of exactly forty-one misses its top quota by one (`WedgeReview.OnlyFortyOneFallsShort`).

## Model

| member | source | states |
|---|---|---|
| LearningStore.LearningStore.SaveSnapshot | archive/learning/source/store.py:111-159 | a snapshot is inserted once; a replay is accepted exactly when every authority-bearing fact is the stored one, whatever its capture time; otherwise a conflict and no change |
| LearningStore.LearningStore.SaveCandidates | archive/learning/source/store.py:161-207 | all candidates are inserted or none; a replayed one must find every inserted column as it was written, the state included |
| LearningStore.LearningStore.RecordSelection | archive/learning/source/store.py:209-265 | the whole new table: the first selection of a snapshot is written, an equal replay returns it, a different one for the same row conflicts, and for another row the winner is returned |
| LearningStore.LearningStore.ReadPolicy | archive/learning/source/store.py:278-292 | the unlocked half of recording a policy: finished on an exact replay, a conflict on a different record, otherwise the write may follow |
| LearningStore.LearningStore.WritePolicy | archive/learning/source/store.py:293-301 | the guarded half: only a row still PROPOSED is changed, into exactly the given policy, state and time |
| LearningStore.LearningStore.AppliedChainTip | archive/learning/source/store.py:446-473 | the loop over successors returns what the recursive walk over applied rows returns, its two failures included |
| LearningStore.LearningStore.ResolveCurrent | archive/learning/source/store.py:360-388 | the current authority and allocation: the tip's, or the envelope's own when nothing is applied |
| LearningStore.LearningStore.Apply | archive/learning/source/store.py:303-358 | the whole new table and outcome of one application: replay, refusal, open circuit, stale baseline rejected, or applied |
| LearningStore.LearningStore.ExistingCycle | archive/learning/source/store.py:390-422 | the one snapshot of a window and envelope with its one selection, nothing, or a failure when there are several |
| AuthorityChain.AppliedProposalsFormOneChain | archive/learning/source/store.py:303-358 | after any interleaving of store calls, the applied proposals of an envelope are exactly one chain without repetition from its initial authority, each resting on the one before; the walk ends at its last element and resolving cannot fail |
| AuthorityChain.WalkFindsTheTip | archive/learning/source/store.py:446-473 | over any rows whose applied proposals form a chain, the walk visits each once and returns the last |
| AuthorityChain.GuardedErrorsAreUnreachable | archive/learning/source/store.py:463-470 | in every reachable state the cycle error, the several-rows errors and the refusals of the unique index are impossible |
| AuthorityChain.FirstSelectionWins | archive/learning/source/store.py:209-265 | the first recorded selection of a snapshot never changes, and every later caller for that snapshot changes nothing and gets that winner, or a conflict when it selects the winner differently |
| AuthorityChain.OneSelectionInEveryState | src/signals/persistence/schema.py:2856-2862 | in every reachable state at most one proposal of a snapshot is selected, which the unique index states and the calls keep by themselves |
| AuthorityChain.DecisionsAreFinal | archive/learning/source/store.py:267-358 | states other than PROPOSED are absorbing although the policy write is not locked, and an applied row keeps an APPROVED policy for ever |
| AuthorityChain.CallKeepsInvariant | archive/learning/source/store.py:111-358 | every store call keeps the invariant of both tables and everything that may not be undone |
| AuthorityChain.ApplyFollowsTheChain | archive/learning/source/store.py:322-358 | an executable proposal is applied exactly when it rests on the end of the chain and starts from what that end proposed, and is rejected otherwise |
| DecisionHistory.OpenCircuitDecidesNothing | archive/learning/source/store.py:309-321 | with the circuit open no row changes: only an application already made is confirmed, and an executable proposal fails for the circuit |
| DecisionHistory.ApplicationDecides | archive/learning/source/store.py:303-358 | an application decides its own proposal and no other, only with the circuit closed and an approved policy, and applies it exactly when it is up to date |
| DecisionHistory.EveryDecisionWasAllowed | archive/learning/source/store.py:303-358 | in every run, every applied or rejected proposal was decided by one event answered with a closed circuit, on a proposal that waited with an approved policy: applied if it was up to date, rejected if not |
| RunHistory.EveryColumnHasItsHistory | archive/learning/source/worker.py:70-217 | in every run, metrics, selections and policies in the store were answered to an earlier call and recorded unchanged, times lie within the validity of the envelope, and the columns filled in later tell what was done |
| RunHistory.NothingAppliedUnauthorized | archive/learning/source/worker.py:169-210 | in every run, an applied or rejected proposal carries the policy of an earlier authorization that was allowed, executable and approved |
| StoreMeaning.FirstSnapshotWins | archive/learning/source/store.py:111-159 | the first snapshot under a reference stays for good; saving it again changes nothing and succeeds exactly when every authority-bearing fact is the stored one, whatever its capture time |
| StoreMeaning.SavingIsAllOrNothing | archive/learning/source/store.py:161-207 | candidates with distinct references are saved exactly when each is stored as inserted or new with a stored snapshot; then just the new rows are added, undecided, and otherwise nothing changes |
| StoreMeaning.PolicyReplayIsExact | archive/learning/source/store.py:278-301 | a written policy is replayed by the same record alone: another decision, state or time conflicts |
| StoreMeaning.UnknownSourceIsRefused | archive/learning/source/store.py:209-219 | a selection from an unknown source is refused and changes nothing, and nothing else is refused for its source |
| Candidates.GenerateCandidates | archive/learning/source/candidates.py:30-113 | the nested loops return the unchanged allocation followed by the first four of the sorted moves, or fail on an incompatible allocation |
| Candidates.BestMovesAreTheBest | archive/learning/source/candidates.py:71-113 | for distinct cells, the proposed moves are legal, ordered by falling gain, donor and receiver, at most four, and every legal move left out comes after all four |
| Candidates.ListedMovesAreTheLegalOnes | archive/learning/source/candidates.py:72-81 | the loops list a move if and only if it is legal |
| Candidates.ScoreOrderIsIrrelevant | archive/learning/source/candidates.py:66-113 | the order of the scores does not matter for distinct cells |
| Candidates.GeneratedCandidatesAreValid | archive/learning/source/contracts.py:268-284 | every generated candidate passes the move validator, keeps the cells and the total, and stays within the bounds if it starts there |
| Candidates.LegalMoveKeepsValidity | archive/learning/source/candidates.py:76-84 | a legal move keeps cells, total and bounds |
| Candidates.NoMovesMeansNoLegalMove | archive/learning/source/candidates.py:71-113 | only NO_CHANGE is returned if and only if no move is legal |
| CandidateMeaning.CandidatesAreImprovements | archive/learning/source/candidates.py:66-113 | said by the fields of scores and cells: the first candidate changes nothing, and each of at most four others moves one unit to a cell with a higher READY score in the same currency, by the difference it states, where there is a unit to give and room to take it |
| CandidateMeaning.CandidatesAreInOrder | archive/learning/source/candidates.py:112-113 | larger expected gains come first, then smaller donor keys, then smaller receiver keys |
| CandidateMeaning.ImprovementsAreProposed | archive/learning/source/candidates.py:71-113 | every such improvement is proposed, unless four others are that come before it |
| CandidateMeaning.NoChangeAloneIffNoImprovement | archive/learning/source/candidates.py:66-113 | NO_CHANGE stands alone exactly when there is no such improvement |
| CandidateMeaning.AppliedMovesWereImprovements | archive/learning/source/store.py:343-358 | in every run, every applied proposal moved one unit between cells that its snapshot scored READY in one currency, to the higher score |
| LearningContracts.InitialAllocationIsValid | archive/learning/source/contracts.py:208-233 | the envelope's own allocation keeps its cells, total and bounds |
| LearningContracts.UnitsIsMapTotal | archive/learning/source/contracts.py:272-273 | adding up an allocation cell by cell and adding up its values are the same |
| AllocationOptimality.NothingProposedIffOptimal | archive/learning/source/candidates.py:66-113 | with a READY score for every cell in one currency, only NO_CHANGE is proposed if and only if the current allocation has the greatest sum of units times score among all allocations with the same total and within the bounds |
| AllocationOptimality.WorthIsTheProduct | archive/learning/source/candidates.py:86-86 | the value summed per unit is units times score |
| AllocationOptimality.ClimbsStrictlyRaise | archive/learning/source/candidates.py:71-84 | along any run of legal shifts under one score vector the value strictly rises |
| AllocationOptimality.ClimbsAreBounded | archive/learning/source/candidates.py:71-84 | such a run has at most (cells - 1) times the daily total of moves, by the sum of units times rank |
| Economics.ReadyNeedsAllEvidence | archive/learning/source/economics.py:26-56 | a score is READY if and only if all evidence thresholds hold, in whole numbers: the rate limit included |
| Economics.ScoreIsMonotone | archive/learning/source/economics.py:16-26 | with as many contacts, more retained value, less cost and fewer penalised events never lower the score |
| Economics.MoreEvidenceStaysReady | archive/learning/source/economics.py:29-56 | more evidence and contacts with fewer complaints and bounces never take READY away |
| Economics.ScoreIsShared | archive/learning/source/economics.py:16-27 | the score times the contacts is retained value less cost less the weighted penalties, which count for at most five thousand a contact; without contacts it is zero |
| Economics.StatusNamesFirstShutGate | archive/learning/source/economics.py:29-56 | the status names the first gate that is shut: risk, revenue, cost, evidence |
| LearningWorker.LearningLoopWorker.Run | archive/learning/source/worker.py:70-150 | the worker's calls on its store change the store and end exactly as the step machine run to its end |
| LearningWorker.LearningLoopWorker.FinishSelected | archive/learning/source/worker.py:152-217 | the same for a selected proposal: no change, apply, policy unavailable, shadowed, denied |
| LearningWorker.StepsRunOut | archive/learning/source/worker.py:70-217 | every cycle ends: each step leaves fewer store calls to make |
| LearningWorker.ApprovalIsNotAskedForAgain | archive/learning/source/worker.py:152-169 | a proposal with a recorded approval is applied or refused whatever the gateway would say now, and one of no change needs no answer |
| LearningRuns.ExecutionSound | archive/learning/source/worker.py:70-217 | in every run of any number of workers that crash anywhere, the tables keep their invariant, every row was generated from its snapshot, what a worker has read once stays true enough to act on, and what a returned worker reported of its proposal (APPLIED, REJECTED, NO_CHANGE) stays what the store says |
| LearningRuns.AppliedAllocationsAreValidAndContiguous | archive/learning/source/store.py:322-342 | in every run, each applied allocation keeps the envelope's cells, total and bounds, moves one unit, and starts from its predecessor's, the first from the envelope's own |
| LearningRuns.AtMostOneAppliedPerSnapshot | archive/learning/source/store.py:303-358 | in every run at most one proposal of a snapshot is applied, although applying does not look at the selection |
| LearningRuns.CyclesFailOnlyForStatedReasons | archive/learning/source/worker.py:70-217 | in every run a cycle fails only for an invalid window, an invalid selection, a conflict, an open circuit or a second snapshot |
| LearningProgress.AppliedMovesAreBounded | archive/learning/source/store.py:343-358 | in every run, consecutive applied proposals scored alike, wherever they are in the chain, raised the value each time and are at most (cells - 1) times the daily total |
| CycleReports.ReportsHoldForEver | archive/learning/source/worker.py:77-101 | in every run of any number of workers, once one has reported APPLIED, REJECTED or NO_CHANGE the store agrees with that report for ever, whatever events follow |
| CycleReports.ReportsReplayIff | archive/learning/source/worker.py:77-101 | in every run and at any later point of it: running the cycle again within the validity returns a reported final result and changes nothing, whatever it is answered, if and only if the cycle then has a single snapshot and a SHADOW_ONLY or POLICY_DENIED report stands |
| CycleReports.PolicyReportStandsIff | archive/learning/source/worker.py:184-201 | a SHADOW_ONLY or POLICY_DENIED report agrees with the stored state, then and for ever, if and only if it was not given after the guarded write, or at that write the row was still PROPOSED or already in the state to be written |
| CycleFutures.ReportsReplayForEverIff | archive/learning/source/worker.py:77-113 | at the time of a final report: every later run of the cycle, whatever happens before it, returns the report and changes nothing if and only if the cycle has a single snapshot, no worker of it stands between its look-up and saving a snapshot, and a policy report stands |
| CycleFutures.SealedForEver | archive/learning/source/worker.py:77-131 | a cycle with one snapshot, a selection, and no worker between look-up and saving keeps that one snapshot for ever, whoever is started |
| CycleScenarios.ShadowReportBesideApplied | archive/learning/source/store.py:293-301 | the failing case as a run of two workers: one applies the proposal between the other's policy read and write, and the other reports SHADOW_ONLY beside the applied row |
| CycleScenarios.ShadowReportBesideAppliedHappens | archive/learning/source/store.py:293-301 | such a run for one given envelope |
| CycleRaces.AppliedAreAtMostSnapshots | archive/learning/source/store.py:303-358 | in every run, a window and envelope have at most as many applied proposals as snapshots, so at most one while the snapshot is single |
| CycleRaces.FurtherApplicationNeedsReader | archive/learning/source/worker.py:77-113 | in every run, after an application of a cycle a further one of the same cycle needs a worker that had then yet to read the tip (after a look-up that found no selection, or between its two reads with none to be found), and room to move a unit |
| CycleScenarios.FurtherApplicationIff | archive/learning/source/worker.py:77-113 | and these two suffice: after an application of a cycle, some continuation applies a further proposal of it if and only if such a worker is there and the allocation leaves room |
| CycleRaces.ClosedForEver | archive/learning/source/store.py:322-342 | once a cycle has an application and every worker of it is past reading the tip and builds on a base that has a successor, nothing of it is ever applied again, whoever is started |
| CycleRaces.StuckForEver | archive/learning/source/candidates.py:76-84 | an allocation without room to move a unit within the bounds is never changed again |
| CycleScenarios.TwoWorkersApplyTwice | archive/learning/source/worker.py:77-113 | for any envelope with room for two moves there is a run of two workers after which one window and envelope have two applied proposals |
| CycleScenarios.TwoApplicationsHappen | archive/learning/source/worker.py:77-113 | such a run for one given envelope |
| CycleReplay.FinalResultsReplay | archive/learning/source/worker.py:77-101 | for a run on its own, without another worker's calls: the next run within the validity returns the same status and references and changes nothing, whatever it is answered, if and only if the cycle has a single snapshot; `CycleReports.ReportsReplayIff` is the same among any other calls |
| CycleReplay.SettledCyclesReplay | archive/learning/source/store.py:390-422 | what a later run returns when the store agrees with a final result: that result, or a failure when there is a second snapshot |
| CycleReplay.RunAgrees | archive/learning/source/worker.py:70-217 | a run on its own that ends with a final result leaves the store agreeing with it |
| CycleReplay.SecondSnapshotBlocksCycle | archive/learning/source/worker.py:102-113 | a concrete case of the failure: a crash after saving the snapshot, a retry with other metrics that returns NO_CHANGE, and every later run fails |
| CycleReplay.AttemptsCommitAtMostOnce | archive/learning/source/worker.py:70-217 | attempts at a cycle one after another, each crashing wherever it may, commit at most one allocation change; `CycleScenarios.FurtherApplicationIff` is the exact condition for attempts at the same time |
| CycleReplay.RetriedInsertIsExactOrConflicts | archive/learning/source/store.py:195-205 | candidates already stored are accepted again exactly when every stored column is as written, and nothing changes either way |
| CycleReplay.RetryNeedsTheSameCaptureTime | archive/learning/source/store.py:195-205 | saving the same candidates again succeeds if and only if the capture time is the same |
| ResponseFacts.ResponseFacts | archive/learning/source/metrics.py:284-317 | the loops return the complaining and unsubscribing members, the members with a settled positive leaf, and the members of unsettled groups |
| ResponseFacts.HistoryIffSettledAndAcyclic | archive/learning/source/metrics.py:299-313 | a group of evaluations is one linear history if and only if it passes the program's test and is acyclic, and then its last evaluation is the accepted leaf |
| ResponseFacts.CycleBesideLeafIsAccepted | archive/learning/source/metrics.py:306-313 | a concrete group that passes the test without being a history: two evaluations superseding each other beside a third |
| ResponseFacts.StoredGroupsAreJudgedExactly | src/signals/responses/store.py:99-107 | evaluations stored after the ones they supersede are acyclic, so for them the test is exact, whatever part of them is read |
| ResponseFacts.PositiveMeansLatestIsPositive | archive/learning/source/metrics.py:314-317 | for stored evaluations, positive are exactly the members whose reply has one history that ends POSITIVE, and ambiguous exactly those named by a reply that has none |
| ConversionFacts.ConversionFacts | archive/learning/source/metrics.py:319-383 | the loop over journeys with its early exits returns the totals defined journey by journey |
| ConversionFacts.TotalsCountJourneys | archive/learning/source/metrics.py:332-350 | the counts are numbers of journeys: activated, paid, churned, and eligible or retained after 30 and 60 days |
| ConversionFacts.CompleteIffAllSettled | archive/learning/source/metrics.py:351-376 | revenue is complete if and only if the latest change of every paid journey is known and is zero where it churned, and the currencies are those of the paid journeys |
| ConversionFacts.CaptureIsCoherentIffCostIs | archive/learning/source/contracts.py:124-146 | whatever was recorded of replies and journeys, the metrics pass their validator if and only if the cost fact does |
| ConversionFacts.JourneyIgnoresArrival | archive/learning/source/metrics.py:333-336 | events with distinct references give the same totals in any order |
| ConversionFacts.LatestIsLast | archive/learning/source/metrics.py:351-355 | the change that counts is the last MRR change, and is missing exactly when there is none |
| RevenueMeaning.RevenueIsTheSum | archive/learning/source/metrics.py:351-368 | known revenue is the sum of what the paid journeys that did not churn pay by their last known change, and retained revenue the same sum over those that reached RETAINED_M1 |
| RevenueMeaning.CompletenessMeans | archive/learning/source/metrics.py:351-376 | a currency is stated exactly when all paid journeys pay in that one, and revenue is complete exactly when the last change of every paid journey is known, zero if it churned, and no two currencies occur |
| RevenueMeaning.EligibilityMeans | archive/learning/source/metrics.py:338-347 | eligible and retained counts are numbers of journeys that paid thirty or sixty days before the window ended, and reached the milestone |
| RevenueMeaning.MilestonesAreCounted | archive/learning/source/metrics.py:332-350 | activated, paid and churned counts are numbers of journeys |
| RevenueMeaning.MetricsCountMembers | archive/learning/source/metrics.py:255-283 | the reply counts of a cell are numbers of its own members |
| NoticeCap.CapPerNotice | archive/research/source/signal100.py:277-291 | the loop with its counter returns the capped ranking |
| NoticeCap.CapKeepsTheBestOfEachNotice | archive/research/source/signal100.py:283-291 | what is kept of each notice is exactly its best `cap` entries in ranked order, or all if it has fewer |
| NoticeCap.CapIsIdempotent | archive/research/source/wedge.py:124-137 | capping twice is capping once |
| NoticeCap.CapIgnoresAcquisition | archive/research/spec009c/spec009c.py:103-115 | for distinct ids the result does not depend on the order of acquisition |
| NoticeCap.CapIsBest | archive/research/source/signal100.py:277-291 | no choice of entries that obeys the cap has a greater total score, for scores that are not negative |
| NoticeCap.OrderedIgnoresAcquisition | archive/research/source/signal100.py:284-284 | distinct ids are ranked in one way, however they were acquired |
| NoticeCap.OrderedByScoreThenId | archive/research/source/signal100.py:284-284 | greater scores come first, and of equal scores the smaller id |
| Signal100.BestMatchPerAwardLot | archive/research/source/signal100.py:260-274 | exactly one entry for each award lot, and no entry of that lot has a higher score, or the same score and an earlier profile |
| Signal100.BestOfItsLotMeans | archive/research/source/signal100.py:260-274 | no entry of the lot scores higher than the kept one, and none with its score has an earlier profile |
| Signal100.BestMatchesIgnoreAcquisition | archive/research/source/signal100.py:260-274 | with one match per lot and profile the result does not depend on the order of acquisition |
| Signal100.EveryEntryHasItsZone | archive/research/source/signal100.py:294-310 | every entry has a zone, and with distinct ids it is the one of its rank |
| Signal100Select.State.Take | archive/research/source/signal100_select.py:87-97 | the whole new state of the counters and sets |
| Signal100Select.TallyCounts | archive/research/source/signal100_select.py:87-97 | the profile and contract-type counters hold the numbers of selected entries they name |
| Signal100Select.TallyCountsZones | archive/research/source/signal100_select.py:87-97 | the zone counter holds the numbers of selected entries of each zone, and they add up |
| Signal100Select.ChoiceIsFirstBest | archive/research/source/signal100_select.py:137-149 | nothing is chosen only if nothing is admissible; otherwise no admissible entry ranks before the chosen one, and of equally ranked ones the first is chosen |
| Signal100Coverage.TallyTells | archive/research/source/signal100_select.py:87-97 | the tallies of sources, notices, countries, contract types and needs are those of the selected entries |
| Signal100Coverage.BenchChoosesBest | archive/research/source/signal100_select.py:77-150 | every entry of the bench, when it was taken, might join and no other that might join went before it: by the number of unmet minima it advances, counted from the entries selected before it, then by how far its zone is behind, its score and its id |
| Signal100Coverage.CoverageComesFirst | archive/research/source/signal100_select.py:99-122 | no entry that advances no unmet minimum is taken while one that advances some might join |
| Signal100Coverage.CapsCountRelaxations | archive/research/source/signal100_select.py:157-194 | the caps in force are 25 and 35 and one more for each relaxation |
| Signal100Coverage.RelaxationMeans | archive/research/source/signal100_select.py:177-190 | a short round raises the profile cap if a profile is full, else the type cap if a contract type is, and neither beyond the size |
| Signal100Coverage.SearchEndsMeans | archive/research/source/signal100_select.py:177-194 | the search ends with a full bench, or with one under whose caps neither can be raised |
| Signal100Select.GreedySelect | archive/research/source/signal100_select.py:125-154 | the loop returns the greedy selection, and its state is the tally of what it selected |
| Signal100Select.GreedyLeavesNothingAdmissible | archive/research/source/signal100_select.py:136-150 | a round that ends short leaves no entry that the caps in force would still admit |
| Signal100Select.SelectSignal100 | archive/research/source/signal100_select.py:157-203 | the relaxation loop returns the bench of the final caps, the caps are the first ones raised as reported, and every relaxation answered a short round in which the raised cap bound |
| Signal100Select.ShortBenchIsBlocked | archive/research/source/signal100_select.py:177-194 | if the bench stops short of its size, every entry left out is blocked by the full quota of its zone or by its notice holding two |
| Signal100Size.BenchIsAtLeastHalf | archive/research/source/signal100_select.py:125-154 | for any pool, no selection of the size that obeys the zone quotas and the notice cap is more than twice as large as the greedy bench |
| Signal100Size.CappedBenchFillsRoom | archive/research/source/signal100_build.py:119-138 | for a pool capped per notice, as the one the bench is built from, the bench has exactly the size, or fills or exhausts each of the three zones |
| Signal100Size.CappedBenchIsLargest | archive/research/source/signal100_build.py:119-138 | so no selection of the size that obeys the zone quotas is larger than the greedy bench |
| Signal100Size.BuiltBenchSize | archive/research/source/signal100_select.py:29-30 | the bench of one hundred built from distinct ids is full if and only if the capped pool has more than one hundred entries; one of exactly a hundred gives ninety-nine, a smaller one is selected whole |
| Signal100Size.NaturalVolumeSuffices | archive/research/source/signal100_build.py:132-138 | every bench that is built, with at least 120 capped signals of distinct ids, has exactly one hundred of them and 33, 34 and 33 from the zones |
| Signal100Select.BenchObeysCaps | archive/research/source/signal100_select.py:77-85 | the bench obeys every cap in force, never exceeds its size, and takes each entry at most as often as the pool has it |
| Signal100Select.FullBenchIsBalanced | archive/research/source/signal100_select.py:30-30 | a bench never exceeds one hundred, and a full one has exactly 33, 34 and 33 from the zones |
| Signal100Select.BenchIgnoresAcquisition | archive/research/source/signal100_select.py:134-154 | for distinct ids bench, caps and order of the result do not depend on the order of the pool, and nothing is selected twice |
| Signal100Select.BuildBench | archive/research/source/signal100_build.py:119-138 | the three steps together: the bench is selected from the capped best matches, one per lot |
| Signal100Select.WholeBenchIgnoresAcquisition | archive/research/source/signal100_build.py:119-138 | for distinct ids and one match per lot and profile, the whole bench does not depend on the order in which the matches were acquired |
| Dealing.DealTakes | archive/research/spec009c/spec009c.py:143-149 | the round robin picks exactly as many as wanted, or all there are |
| Dealing.DealIsFair | archive/research/spec009c/spec009c.py:143-149 | after dealing there is a number of turns such that every stratum has given that many or one more, or all it had |
| Dealing.DealTakesFronts | archive/research/spec009c/spec009c.py:143-149 | what is picked of each stratum is the front of its queue, in order |
| Benchmark.SpreadSignals | archive/research/spec009c/spec009c.py:133-150 | the bucket loops return the dealt selection |
| Benchmark.TakeTurn | archive/research/spec009c/spec009c.py:144-148 | the inner loop is one turn over the strata in key order, cut short when enough are picked |
| Benchmark.SpreadCount | archive/research/spec009c/spec009c.py:133-150 | the spread has exactly the wanted number, or all signals |
| Benchmark.SpreadIgnoresAcquisition | archive/research/spec009c/spec009c.py:133-150 | for distinct ids the spread does not depend on the order of acquisition |
| Benchmark.SpreadIsFair | archive/research/spec009c/spec009c.py:133-150 | if one stratum gets two or more picks more than another, the other is exhausted |
| Benchmark.SpreadTakesBest | archive/research/spec009c/spec009c.py:133-150 | what is taken of a stratum is its best, in order |
| Benchmark.SpreadServesInOrder | archive/research/spec009c/spec009c.py:143-149 | a stratum that got less than a later one in key order is exhausted: a turn cut short serves the first strata |
| BenchmarkMeaning.SameStratumIff | archive/research/spec009c/spec009c.py:64-77 | two signals share a stratum exactly when source, country, trade domain and amount band agree |
| BenchmarkMeaning.ZonesAreDealtOut | archive/research/spec009c/spec009c.py:160-165 | a third of the target is dealt out from the top and the bottom zone each and the rest from the middle: fairly over the strata, in their order, and from each its best |
| BenchmarkMeaning.CompletionIsDealtOut | archive/research/spec009c/spec009c.py:166-171 | the completion is dealt out the same way from the signals not yet picked |
| Benchmark.BenchTakesTwoPerNotice | archive/research/spec009c/spec009c.py:103-115 | no notice has more than two signals on the bench |
| Benchmark.BenchIsInIdOrder | archive/research/spec009c/spec009c.py:157-172 | the bench is listed by id |
| Benchmark.SelectBenchmark | archive/research/spec009c/spec009c.py:153-172 | the method returns the bench: everything when it fits, otherwise the zone picks and their completion |
| Benchmark.BenchHasExactlyTheTarget | archive/research/spec009c/spec009c.py:153-172 | the size of the bench for every target: exactly the target, or all capped signals if fewer; one signal for a target of -1 and a feed of two or more; none for any other negative target. For distinct ids its signals are distinct and from the capped feed |
| Benchmark.NegativeTargetPicks | archive/research/spec009c/spec009c.py:162-162 | for any feed, a negative target picks one signal if it is -1 and two are left after the cap, otherwise none |
| Benchmark.ZonesMeetQuotas | archive/research/spec009c/spec009c.py:161-171 | the completion step is needed if and only if the target leaves remainder two by three and the feed is at most two larger |
| Benchmark.HundredIsBalanced | archive/research/spec009c/spec009c.py:161-165 | with the usual target the zones give exactly 33, 34 and 33 and nothing is completed |
| Benchmark.BenchIgnoresAcquisition | archive/research/spec009c/spec009c.py:153-172 | for distinct ids the bench does not depend on the order of acquisition |
| WedgeReview.SampleForReview | archive/research/source/wedge.py:206-231 | the method returns the sample and status defined by the capped shows |
| WedgeReview.SampleHasTheStatedSize | archive/research/source/wedge.py:206-231 | none below ten, all up to forty, exactly forty distinct ones beyond; and the status that goes with it |
| WedgeReview.PicksSmallestIds | archive/research/source/wedge.py:198-222 | of each zone the entries with the smallest ids are picked, fourteen of the top and thirteen of each other |
| WedgeReview.CompletionHasSmallestId | archive/research/source/wedge.py:223-230 | what completes the picks has smaller ids than what is left out |
| WedgeReview.SampleIsInIdOrder | archive/research/source/wedge.py:216-231 | the sample is listed by id |
| WedgeReview.SampleTakesTwoPerNotice | archive/research/source/wedge.py:124-137 | no notice has more than two entries in the sample |
| WedgeReview.OnlyFortyOneFallsShort | archive/research/source/wedge.py:198-203 | beyond forty shows every zone meets its quota, except the top zone of a feed of forty-one |
| WedgeReview.CompletedIffTopFallsShort | archive/research/source/wedge.py:223-230 | the completion step is needed if and only if the top zone falls short |
| WedgeReview.ShowsIgnoreAcquisition | archive/research/source/wedge.py:213-213 | for distinct ids the capped shows, which alone decide the sample, do not depend on the order of acquisition |
| Showcase.SelectShowcase | archive/phase_a_btp/source/selection.py:20-53 | the two passes with their seen sets and counters return the showcase |
| Showcase.ShowcaseNeverRepeats | archive/phase_a_btp/source/selection.py:36-52 | no opportunity or notice twice, no awardee more than twice, at most the limit, and only candidates |
| Showcase.ShortShowcaseIsExhaustive | archive/phase_a_btp/source/selection.py:34-53 | if fewer than the limit are shown, every candidate conflicts with the result on opportunity, notice or awardee |
| Showcase.SpecialtyCapYieldsLast | archive/phase_a_btp/source/selection.py:27-45 | the first pass is the front of the result and obeys the specialty cap; the second adds to it only when every candidate conflicts or has a full specialty |
| Showcase.FirstPassPrefersBetter | archive/phase_a_btp/source/selection.py:33-45 | a candidate the first pass leaves out although there is room is left out because of selected ones that rank no lower |
| Showcase.ShowcaseTakesFirst | archive/phase_a_btp/source/selection.py:20-53 | every place is taken by the candidate that ranks first (ready, recent, specific, smaller opportunity) among those that repeat nothing and, in the first pass, whose specialty is not full |
| Showcase.SpecialtyCapMeans | archive/phase_a_btp/source/selection.py:27-27 | the specialty cap is the least number of three or more that is at least a quarter of the limit |
| Showcase.ShowcaseIgnoresArrival | archive/phase_a_btp/source/selection.py:33-33 | if no two candidates rank alike their order does not matter |
| ForeignKeys.TablesToPreserve | docs/reports/prospecting-v11/rehearsal-checks.py:296-311 | the growing loop ends, with exactly the tables that reach an `account_id` table through foreign keys, and the extra tables that exist |
| Rehearsal.PrivateBaseline.Add | docs/reports/prospecting-v11/rehearsal-checks.py:236-249 | a row is captured exactly when its key is complete and new and its values have a canonical form; otherwise nothing changes |
| Rehearsal.PrivateBaseline.Capture | docs/reports/prospecting-v11/rehearsal-checks.py:311-332 | a table is captured exactly when it has a primary key, all rows can be captured and the limit holds; other tables are untouched |
| Rehearsal.PrivateBaseline.Batches | docs/reports/prospecting-v11/rehearsal-checks.py:251-263 | the entries of a table in chunks of the batch size |
| Rehearsal.PrivateBaseline.Compare | docs/reports/prospecting-v11/rehearsal-checks.py:340-363 | the comparison succeeds if and only if every captured table exists and is accepted batch by batch |
| Rehearsal.CompareBatch | docs/reports/prospecting-v11/rehearsal-checks.py:345-363 | a batch succeeds if and only if every matching row is unchanged and there are as many as keys; a missing row is reported exactly when all that match are unchanged |
| Rehearsal.CaptureBaseline | docs/reports/prospecting-v11/rehearsal-checks.py:266-337 | the capture succeeds if and only if every table to preserve can be captured and the account table is among them; then it holds exactly those tables, each captured whole |
| Rehearsal.BatchIsExact | docs/reports/prospecting-v11/rehearsal-checks.py:345-363 | for one batch: while keys are unique, accepted if and only if every row is kept; otherwise never both |
| Rehearsal.BatchingIsExactIff | docs/reports/prospecting-v11/rehearsal-checks.py:345-363 | for any batching: preserved rows are accepted if and only if their keys are unique in the new table, and accepted batches are preserved if and only if their keys are |
| Rehearsal.ComparisonIsExact | docs/reports/prospecting-v11/rehearsal-checks.py:340-363 | a table is accepted if and only if every captured row still exists with equal canonical values, whatever rows and columns were added, while the old key is unique |
| Rehearsal.WholeComparisonIsExact | docs/reports/prospecting-v11/rehearsal-checks.py:340-363 | the same for all captured tables together |
| Rehearsal.DuplicateHidesLoss | docs/reports/prospecting-v11/rehearsal-checks.py:353-363 | why the key must be unique: a kept row that appears twice stands in for a lost one |
| RehearsalMeaning.CanonicalIffSame | docs/reports/prospecting-v11/rehearsal-checks.py:114-145 | canonical forms are equal exactly when the values are the same: of one kind with one content, numbers by value, arrays item by item, objects field by field |
| RehearsalMeaning.RefusedIffOccurs | docs/reports/prospecting-v11/rehearsal-checks.py:114-145 | a value has no canonical form exactly when a number that is not finite or an unknown type occurs in it |
| RehearsalMeaning.AcceptedIffValuesKept | docs/reports/prospecting-v11/rehearsal-checks.py:340-363 | while no old key occurs twice in the new table, a captured table is accepted exactly when every old row has a row with the same values in all old columns |
| VerificationCache.VerificationCache.Lookup | archive/verification/source/cache.py:98-113 | a lookup returns a stored valid entry, counts a hit or a miss, and loads the file once |
| VerificationCache.VerificationCache.Store | archive/verification/source/cache.py:115-123 | a new key is refused when the cache is full, a known key is replaced, and nothing happens when it is disabled |
| VerificationCache.VerificationCache.WriteFile | archive/verification/source/cache.py:125-147 | a flush makes the file the entries |
| VerificationCache.LimitHoldsIffFileFits | archive/verification/source/cache.py:82-123 | every use of an enabled cache stays within its limit if and only if the file it starts from does |
| VerificationCache.SizeIsBounded | archive/verification/source/cache.py:115-123 | the cache never exceeds the larger of its limit and what its file held |
| VerificationMeaning.CountersAddUp | archive/verification/source/cache.py:98-147 | every look-up of an enabled cache counts once, as a hit or a miss, and so does every flush |
| VerificationMeaning.DisabledCacheIsInert | archive/verification/source/cache.py:98-147 | a disabled cache changes nothing and returns nothing |
| VerificationRunner.VerifyCandidate | archive/verification/source/runner.py:100-200 | one candidate: unsupported language, cached, failed or answered, with the new cache, the new usage and the record |
| VerificationRunner.VerifyAll | archive/verification/source/runner.py:203-229 | the sequential path: budget before every candidate, a flush every twenty, and a final flush unless stopped |
| VerificationRunner.CacheChangesNothing | archive/verification/source/runner.py:100-229 | with any consistent cache the run gives the same verifications, errors, decisions and reasons as without, completes whenever that does, costs no more, and leaves a consistent cache |
| VerificationRunner.RunsAhead | archive/verification/source/runner.py:220-229 | under any budget the cached run gets at least as far as the one without, with the same outcomes |
| VerificationRunner.CacheIsHarmlessIff | archive/verification/source/runner.py:126-140 | a cache in any state changes the outcome of no candidate if and only if every entry it would serve for this model is the model's own valid answer |
| VerificationRunner.OverrunIsLessThanOneCall | archive/verification/source/runner.py:220-226 | a cost beyond the budget comes from the last call made: before it the cost was below the budget, and that call's own cost is the difference |
| VerificationRunner.StopsOnlyAtBudget | archive/verification/source/runner.py:220-226 | a run is stopped if and only if the budget was reached with candidates left |
| VerificationMeaning.RecordsSay | archive/verification/source/runner.py:100-200 | record by record, whatever the consistent cache and the budget: what the model, the validator and the policy say of that candidate, or why it is hidden |
| VerificationMeaning.UsageAddsUp | archive/verification/source/runner.py:100-229 | cost, hits, calls and failures of a run add up over its records |
| VerificationMeaning.RetriesAddUp | archive/verification/source/runner.py:150-166 | schema retries and the successes among them are counted over the answers that were asked for |
| VerificationMeaning.StoppedRunKeepsTwenties | archive/verification/source/runner.py:220-229 | however a run was stopped, the cache file holds every good answer up to the last full twenty |
| VerificationRerun.RerunAsksOnlyTheRest | archive/verification/source/runner.py:126-177 | after a finished run with room enough, a run over the same candidates on its file asks the model only for supported views whose answer was broken or invalid, and serves the others at no cost |
| Lines.JoinOfSplit | ops/bin/kivou_secret_hygiene.py:153-153 | joining the split lines with their endings gives the text back |
| Lines.SplitOfJoin | ops/bin/kivou_secret_hygiene.py:153-153 | splitting joined lines gives them back, for every proper list of lines |
| SecretMeaning.BreaksAre | ops/bin/kivou_secret_hygiene.py:153-153 | the ten characters at which lines end |
| SecretHygiene.ParseValues | ops/bin/kivou_secret_hygiene.py:69-97 | the loop with its two sets returns the parsed values or the one opaque error |
| SecretHygiene.RoundTripIffValid | ops/bin/kivou_secret_hygiene.py:69-103 | parsing printed values gives them back if and only if they are valid: known names, different visible one-line values, and complete or empty as asked |
| SecretHygiene.ParseIsValid | ops/bin/kivou_secret_hygiene.py:84-97 | whatever is parsed is valid |
| SecretMeaning.ParseMeans | ops/bin/kivou_secret_hygiene.py:69-97 | a file is read as these values exactly when it is empty where allowed, or has no NUL, each line assigns one of the four names a visible value, no name or value occurs twice, and all four are there where asked |
| SecretMeaning.CompletePrint | ops/bin/kivou_secret_hygiene.py:99-103 | a complete file prints the four names in their order, one a line |
| SecretHygiene.RewriteTarget | ops/bin/kivou_secret_hygiene.py:152-176 | the loop returns the rewritten text and its number of lines, or the error |
| SecretHygiene.RewritesIffOnceEach | ops/bin/kivou_secret_hygiene.py:165-175 | a rewrite succeeds if and only if each of the four names is assigned exactly once |
| SecretHygiene.RewriteKeepsLinesIff | ops/bin/kivou_secret_hygiene.py:157-171 | the written text has every other line and every ending, and the new values, if and only if no secret stands on a line with another ending than line feed and carriage return |
| SecretHygiene.VerticalTabMergesLines | ops/bin/kivou_secret_hygiene.py:157-171 | the failing case: a file whose first secret ends in a vertical tab is rewritten without an error and has lost that line |
| SecretHygiene.RewriteReplacesSecretsOnly | ops/bin/kivou_secret_hygiene.py:152-176 | for the usual separators: as many lines, other lines and all endings unchanged, each name exactly once with its new value |
| SecretHygiene.RewriteIsIdempotent | ops/bin/kivou_secret_hygiene.py:152-176 | rewriting the written file again changes nothing |

## Left out

- SQL, dialects, locks and timestamps as such: the advisory lock and `BEGIN IMMEDIATE` are atomic steps; the policy record and the look-up of a cycle are two steps each, as their two statements are. A reader's walk along the chain is one step; since the chain only grows at its end, a walk that overlaps an application finds the earlier or the later end.
- The selector, the policy gateway, the circuit breaker, the metrics source and the commercial model are parameters with arbitrary answers; what they decide is not modelled.
- Hashes, HMAC and canonical JSON: a fingerprint is the content it identifies.
- `Decimal` precision and rounding, and the numeric column of the score difference: scores are exact reals, and a replayed insert compares the exact value.
- Derived columns (formula and policy versions, reason codes of candidates and scores) and the order of cells in an allocation vector, which the source fixes by sorting: an allocation is a map.
- The integrity-error branch of recording a selection: within the serialised transaction the index cannot be violated, which `AuthorityChain.GuardedErrorsAreUnreachable` shows for the calls as modelled.
- CycleReplay.AttemptsCommitAtMostOnce: is about attempts one after another; attempts at the same time can commit twice, exactly as `CycleScenarios.FurtherApplicationIff` says.
- CycleReplay.FinalResultsReplay: is about a run on its own; `CycleReports.ReportsReplayIff` covers runs among others.
- LearningProgress.AppliedMovesAreBounded: is about consecutive proposals scored alike, because new metrics may reverse a move.
- The cost source of the metrics, cohort and bounce queries, and click counting: their results are parameters of `ConversionFacts.MetricsOf`.
- The compliance report of the Signal-100 bench, feed profiles, gates, classifiers and all report formatting: each is settled by one branch.
- The ceiling of a quarter of the showcase limit goes through a float in the source; here it is exact.
- Rehearsal.ComparisonIsExact: dates, times, bytes and identifiers are a kind and a canonical text, keys are compared by canonical value, and a fingerprint's digest is the canonical row. Byte, disk and key-length limits, the SQLite file itself and the order of keys in batches are left out; the claims hold for every order and batching.
- The configuration checks, the migration and the backfill of the rehearsal.
- The concurrent path of the verification run, which does not enforce the budget; construction of the view and language detection; latency and token counts; version strings of prompt and schema beyond their part in the key.
- VerificationRunner.OverrunIsLessThanOneCall: costs are exact reals; the source adds floats.
- SecretHygiene.RewriteTarget: expects a value for each of the four names, because its only caller has parsed a complete file (`ops/bin/kivou_secret_hygiene.py:229-234`); without one the source raises a `KeyError`.
- File modes, atomic replacement, terminal input, provider-specific value rules and the journal audit of the secret tool.
- Acquisition, network and browser code, prompts, text classification by regular expressions, and the frontend.
