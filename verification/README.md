# QuantBet: ledgers, protocols and rankings

A Dafny 4.11 model of QuantBet's append-only ledgers and of the state machines that run over
them, with proofs of what every run keeps. `dafny verify dfyconfig.toml` checks all of it.

A repository method is modelled as one atomic step. For registration, settlement, operator actions,
starts and finalizations, snapshots and the shared budget, which lock a row or a key before they
decide, and for methods of one statement, the program ensures that. `sync_new_picks`,
`read_lifecycle`, `ensure_series_batch`, `refresh_inventory` and the performance projections run
several statements without such a lock: that no other session commits in between is assumed. The
compare-and-swap of active models is modelled as two steps, the archive and mirror passes as many.

For every component there is a functional specification of the tables and of each step, a class
whose methods change the tables in place and are proved against that specification, and theorems
over all runs of the specification. What each operation does is also stated in comparisons of the
stored fields alone, without the functions of the specification (the lemmas named `…Exactly`).

| files | component |
|---|---|
| `Settlement` | result classification, the three graders, payouts |
| `Books`, `BooksEffects`, `BooksInvariants`, `BooksTheorems`, `BankrollRepository` | picks, bankroll ledger, settlement chains, operator actions, exposure, the bankroll curve |
| `Archive`, `ArchiveLifecycle`, `ArchiveReader` | hot table, cold batches, the archiving pass, the reader |
| `Mirror` | the watermark-driven mirror of a settlement ledger |
| `KellyLab`, `KellyPortfolio`, `KellyViews`, `KellyReplay`, `KellyLateEvidence`, `KellyFloor`, `KellyRepository` | calibration, staking, drawdown, the point-in-time portfolio, its replay and its floor |
| `QuoteHistory`, `Monitoring`, `MonitoringEffects`, `MonitoringTheorems`, `ClosingTheorems`, `MonitoringRepository` | quotes, pick monitoring and the immutable close |
| `Coverage`, `CoverageTheorems`, `ModelPointer` | the training scheduler and the compare-and-swap of active models |
| `Budget`, `Retry` | daily request budgets and bounded retry over them |
| `BestPrice`, `OneSignal` | ranking and selection that ignore input order |
| `Sorting`, `PrimaryKeys`, `Wrappers` | ordered queries and result types |

## Modelling decisions

- A table is a sequence when the order of its rows matters and a map from its key otherwise. A
  text identifier is a number or a string with the same ordering; digests are injective.
- Times are integers. Probabilities, odds and edges are reals: rounding happens only where the
  program rounds to minor units, and floating-point error is not modelled. Money is an integer,
  with the 64-bit range check of settlement amounts written out.
- An ordered query is a sort by its full key. Every such key ends in a unique identifier, and the
  result is proved to depend only on the set of rows.
- Clock readings, provider replies, shutdown requests, read-backs of the object store and rows
  locked by other sessions are parameters or steps of a run.
- CORRECTION and REVERSAL events are admitted by the schema and read by every projection, but no
  program of the repository writes them. Their ledger delta is assumed to be the new gross return
  minus the prior one, with `settlement_amounts` for the new amounts.
- A KellyLab run is in order when an arriving or rewritten signal qualifies, and an arriving result
  is acquired, no earlier than every decision already frozen, a rewritten signal is not a decided
  one, and new fixture metadata does not move a fixture with signals in or out of scope. Replay is
  proved for all such runs. `KellyLateEvidence.ViewChangesExactly` says exactly which other steps
  change a decided view, and two families of runs show replay failing.
- A fixture observation is stamped when its transaction begins and seen when it commits, so a step
  makes one visible with any earlier stamp. A quote carries its capture time in the same way.

## What the proofs found

- With automatic skips the reservation row continues from the operator's bankroll, not from the
  latest balance, so the balance no longer adds up (`src/h2h/persistence/postgres_pick_registration.py:296-300`
  and `:393-404`). `AutoSkipConservesExactly` and `RunBalancedExactly` give the exact condition,
  `AutoSkipLosesConservation` an input. The operator projection conserves money regardless
  (`OperatorEquityExactly`).
- The bankroll curve has no branch for MANUAL_VOID and reopens a reversed reversal a second time
  (`src/h2h/persistence/postgres_performance.py:189-196`); `ReachableCurve` states the exact gap.
- A reversal adds exposure without a cap check (`ReversalExposure`); the cap theorem covers all
  other steps.
- A settlement row that appears at or below the watermark is never mirrored. While a batch is in
  flight the line is its last row already: a row that lands before it is lost too, unless a crash
  comes before the watermark moves (`LateRowExactly`, `CrashRescues`).
- A refresh rewrites RETRAIN_REQUIRED from a fresh pointer, so a forced retrain that is not claimed
  before the next refresh is lost. A finish has no status guard, so a worker still training the
  scope when the policy changes loses it as well (`RetrainSurvivesExactly`, `LateFinishLosesRetrain`).
  A claim that is released or expires returns as TRAINING_REQUIRED, which the next refresh on a fresh
  pointer makes ACTIVE without any training (`ReturnedClaimIsLost`; `OwedExactly` and
  `ClaimReachesFinishExactly` say in which runs the retrain is still owed or finished).
  The policy change also makes the scope in training claimable again (`PolicyChangeReclaims`).
- Promoting a blocked research signal rewrites its qualification time even after KellyLab has
  decided on it (`src/h2h/persistence/postgres_research_signals.py:188-210`), and a result may be
  recorded after a sync that it preceded; either breaks replay (`PromotionBreaksReplay`,
  `LateObservationBreaksReplay`).
- KellyLab does not set open stakes aside. Under the 1% cap no portfolio decided one pick after the
  other, on results known in time and not corrected since, reaches its floor of one unit
  (`SequentialPlayNeverRuins`); a hundred losses decided together do (`ConcurrentLossesRun`), and no
  portfolio does with fewer losses than its stakes allow (`FloorNeedsLosses`).
- A fixture observation that becomes visible late can overturn the validity of the stored close, which
  then stands in no history (`LateSightingLosesClose`, `CloseInHistoryExactly`).
- The drawdown loop measures falls from the running peak. It misses a greater fall exactly when one
  to a negative balance, from below the peak, exceeds it (`DrawdownExactly`, `FirstNegativeExactly`).
- A failed compare-and-swap can report the very model it expected, even one that was never current
  before its write (`ConflictOnExpectedExactly`, `ExpectedModelArrivesLate`).
- The in-memory request budget restarts whenever the clock's day differs, in either direction
  (`MemoryBoundExactly`).
- docs/RETRY_POLICY.md:9 says a `TransportResponseError` is not retried; the 429 subclass is
  (src/h2h/odds/retry.py:57-62). docs/API_BUDGET.md:7 gives a limit of 7,500 calls; the default is
  75,000 (src/h2h/odds/budget.py:49). The model follows the code.

## Model

| member | source | states |
|---|---|---|
| `BankrollRepository.Bankroll.Bootstrap` | src/h2h/persistence/postgres_pick_registration.py:131-182 | the first positive amount becomes the initial ledger row; repeating it answers the same account, another amount is refused |
| `BankrollRepository.Bankroll.Register` | src/h2h/persistence/postgres_pick_registration.py:184-406 | a request is replayed, refused, rejected by the risk rules or approved; an approval adds the pick, its reservation row and, when configured, its automatic skip, and nothing else |
| `BankrollRepository.Bankroll.SetState` | src/h2h/persistence/operator_pick_state.py:45-167 | every refusal of an operator action, its replay by request id, and the one appended action otherwise |
| `BankrollRepository.Bankroll.SettlePick` | src/h2h/persistence/postgres_result_settlement.py:468-609 | replay, refusal or one NORMAL event with its ledger row: appended exactly when known, reserved, unsettled, stable and gradable, with the grade of the regulation score and its payment |
| `BankrollRepository.Bankroll.VoidPostponed` | scripts/manual_void_postponed_pick.py:23-139 | refusal or one MANUAL_VOID event refunding the stake |
| `BooksEffects.RegisterExactly` | src/h2h/persistence/postgres_pick_registration.py:184-406 | a considered request is rejected with exactly the rules it breaks (fixture taken, per-pick limit, bankroll, cap) and approved exactly when it breaks none and its skip request is free; what is stored, field by field; nothing else changes the tables |
| `BooksEffects.SetStateExactly` | src/h2h/persistence/operator_pick_state.py:45-167 | an action is appended exactly when it is new, well formed, for a known pick and, where it turns a SKIPPED pick with an unresolved reservation PLAYED at or after the newest action, fits under a positive cap; a repeat answers the same action |
| `BooksEffects.SettleExactly` | src/h2h/persistence/postgres_result_settlement.py:551-609 | a settlement is appended exactly when the pick is known and reserved, has no initial event, its result is stable and its record gradable in range; the outcome is what the selection says about the regulation score, and the balance moves by stake × odd halves up, nothing, or the stake |
| `BooksEffects.VoidExactly` | scripts/manual_void_postponed_pick.py:47-134 | a void is appended exactly for a reserved pick without events whose fixture is postponed, and gives the stake back |
| `BankrollRepository.Bankroll.AppendSettlement` | scripts/manual_void_postponed_pick.py:111-134 | one ledger row on the latest balance and one event that owns it |
| `BankrollRepository.Bankroll.CurrentState` | src/h2h/persistence/operator_pick_state.py:169-180 | the state of the newest action by event time, transaction time and event id; PENDING without one |
| `BankrollRepository.Bankroll.Curve` | src/h2h/persistence/postgres_performance.py:164-202 | one point for each ledger row, and on every reachable table a last exposure equal to the summary exposure plus the missed stakes |
| `BooksTheorems.LatestIsNewest` | src/h2h/persistence/operator_pick_state.py:126-138 | the state query picks an action no action of the pick is newer than, whatever order the events arrived in |
| `BooksEffects.StateExactly` | src/h2h/persistence/operator_pick_state.py:169-180 | the state of a pick is that of an action which no action of it follows by event time, then transaction time, then tie; PENDING without one |
| `BooksTheorems.SetStateChecksCap` | src/h2h/persistence/operator_pick_state.py:126-157 | whatever the timestamps, an appended action never brings a skipped unresolved pick back without a cap that holds its stake |
| `BooksTheorems.ExposureCapHolds` | src/h2h/persistence/operator_pick_state.py:126-167 | from at or under the cap, no run of registrations, operator actions, settlements, voids and corrections takes the effective open exposure over the largest cap used |
| `BooksTheorems.ReversalExposure` | src/h2h/persistence/postgres_operator_risk.py:8-32 | a reversal is the unchecked step: it adds exactly the stake of a graded pick that is not SKIPPED |
| `BooksInvariants.EffectiveIsLast` | src/h2h/persistence/postgres_performance.py:39-44 | in a settlement chain the one event without a successor is the last one appended for its pick |
| `BooksInvariants.ResolvedIffLastGraded` | src/h2h/persistence/postgres_operator_risk.py:17-21 | a pick is resolved exactly when its last event carries an outcome |
| `BooksInvariants.RiskExposureByPick` | src/h2h/persistence/postgres_operator_risk.py:8-22 | the sum over reservation rows is the sum of the stakes of the picks at risk |
| `BooksInvariants.RunValid` | src/h2h/persistence/postgres_result_settlement.py:468-609 | every run keeps one pick for each fixture and request, one reservation for each pick, chained events and one ledger row for each event |
| `BooksTheorems.MoneyConserved` | src/h2h/persistence/postgres_performance.py:46-103 | after every history without automatic skips: latest balance + open stakes = initial bankroll + profit of the effective events |
| `BooksTheorems.DriftExactly` | src/h2h/persistence/postgres_pick_registration.py:296-406 | one step moves the balance off the booked amounts exactly when it is an accepted automatic skip, by the gap between the operator bankroll and the latest balance |
| `BooksTheorems.AutoSkipConservesExactly` | src/h2h/persistence/postgres_pick_registration.py:296-406 | after an accepted automatic skip the balance equation holds, however the books stood before, if and only if the picks that are not PLAYED have returned what they took |
| `BooksTheorems.BalanceStays` | src/h2h/persistence/postgres_performance.py:46-103 | until the next accepted automatic skip the balance equation neither breaks nor heals |
| `BooksTheorems.RunBalancedExactly` | src/h2h/persistence/postgres_pick_registration.py:296-406 | after any run the balance equation holds if and only if, at its last accepted automatic skip, the picks that were not PLAYED had returned what they took |
| `BooksTheorems.AutoSkipLosesConservation` | src/h2h/persistence/postgres_pick_registration.py:296-406 | two automatic skips from 100 leave a balance of 90 beside open stakes of 20 |
| `BooksTheorems.OperatorAvailableExactly` | src/h2h/persistence/postgres_pick_registration.py:447-479 | the operator bankroll exceeds the booked sum by the stakes that picks not PLAYED took and have not returned |
| `BooksTheorems.OperatorEquityExactly` | src/h2h/persistence/postgres_performance.py:105-162 | in the operator projection, available + open PLAYED stakes = initial bankroll + profit of PLAYED picks, on every reachable table |
| `BooksTheorems.OperatorExposureExactly` | src/h2h/persistence/postgres_performance.py:137-155 | the reported open exposure exceeds the pending PLAYED stake by the open stakes of picks without an operator action |
| `BooksTheorems.NeverOverdrawn` | src/h2h/persistence/postgres_pick_registration.py:296-376 | registrations, settlements, voids and operator actions never take the balance below zero |
| `BooksTheorems.CurveRefinesSummary` | src/h2h/persistence/postgres_performance.py:164-202 | every step keeps the fold of the curve at the exposure computed from scratch plus exactly the stakes of manual voids and of reversals of reversals |
| `BooksTheorems.ReachableCurve` | src/h2h/persistence/postgres_performance.py:164-202 | over every history from the empty tables the last point of the curve has that exposure |
| `BooksTheorems.ReplayChangesNothing` | src/h2h/persistence/postgres_result_settlement.py:503-521 | repeating any command of the ledger changes nothing |
| `Settlement.ProductionGradesRegulationScore` | src/h2h/domain/fixture_result.py:162-188 | production grades by the regulation score alone: extra time and penalties never matter, and an unsupported status is never graded |
| `Settlement.ClassifiedExactly` | src/h2h/domain/fixture_result.py:162-188 | a record is played exactly when its final score is the one of its last phase and no later phase has a score; voidable or running by its status alone |
| `Settlement.GradersAgreeExactly` | src/h2h/api/research_dashboard.py:221-248 | without overrides the production, KellyLab and research graders agree exactly when the record is not played or the market supports the selection |
| `Settlement.PayoutsAgree` | src/h2h/domain/settlement.py:112-132 | rounding stake × odd and subtracting the stake equals rounding stake × (odd − 1), so the three profit figures are equal |
| `Settlement.RoundHalfUpExactly` | src/h2h/domain/settlement.py:112-132 | a payout is rounded to the one whole number within half a unit, the upper one for a half |
| `Archive.ArchiveLosesNothing` | src/h2h/archive/lifecycle.py:89-140 | over every run, with a crash or a bad upload between any two steps and references appearing at any moment, every accepted row is hot or in a catalogued batch that reads back, and every referenced row is hot |
| `Archive.RunSound` | src/h2h/archive/lifecycle.py:89-140 | the protocol invariant behind it, kept by select, upload, verify, register, delete, mark and crash |
| `Archive.SecondArchiverLosesRow` | src/h2h/archive/repository.py:42-61 | without the advisory lock a second archiver can lose a row |
| `ArchiveLifecycle.BatchFollowsProtocol` | src/h2h/archive/lifecycle.py:97-120 | one turn of the pass is one uninterrupted walk through the crash-safe protocol |
| `ArchiveLifecycle.Lifecycle.ArchiveRows` | src/h2h/archive/service.py:25-97 | an empty batch is refused; otherwise upload, read back and, only on an equal read-back, registration with the window of the timestamps |
| `ArchiveLifecycle.Lifecycle.DeleteArchived` | src/h2h/archive/repository.py:258-272 | exactly the listed rows that no decision references leave the hot table |
| `ArchiveLifecycle.Lifecycle.MarkDeleted` | src/h2h/archive/repository.py:150-177 | the first delete time is kept, the counts are replaced, a missing batch is an error |
| `ArchiveLifecycle.Lifecycle.ArchiveBatch` | src/h2h/archive/lifecycle.py:104-120 | archive, delete and mark one selection |
| `ArchiveLifecycle.Lifecycle.PassBatch` | src/h2h/archive/lifecycle.py:97-125 | one turn takes the next slice of the cold ids and moves the walk to its end |
| `ArchiveLifecycle.Lifecycle.ArchiveColdMarketObservations` | src/h2h/archive/lifecycle.py:89-140 | a pass without crash or new reference moves the first batch_size × max_batches unreferenced ids recorded before now − hot_for, in order, out of the hot table and into the new batches once each, and leaves every other row where it is |
| `ArchiveLifecycle.PassExactly` | src/h2h/archive/repository.py:229-256 | a pass moves only unreferenced rows recorded before now − hot_for, the least ids first, each once and in that order into batches that read back; a row without a timestamp or recorded later stays, in no new batch; a quota not exhausted leaves no movable row |
| `PrimaryKeys.SortedIdsAfter` | src/h2h/archive/repository.py:229-256 | walking on from the k-th id sees exactly the ids after it, so after_id moves strictly forward |
| `ArchiveReader.PruningKeeps` | src/h2h/archive/repository.py:179-208 | window pruning never drops a batch that holds a row stamped inside the window, repeated registrations included |
| `ArchiveReader.ListedExactly` | src/h2h/archive/repository.py:179-208 | a batch is listed exactly when, for each end of the window, it holds no stamped row or one not beyond that end |
| `ArchiveReader.UniqueRows` | src/h2h/archive/repository.py:429-444 | a missing key is an error; otherwise one row for each key, the last one, at the place of the first |
| `ArchiveReader.DeduplicatedExact` | src/h2h/archive/repository.py:429-444 | when a key determines its row, every row comes back exactly once |
| `ArchiveReader.WindowedReadBack` | src/h2h/archive/repository.py:410-444 | in every reachable depot whose objects read back, a windowed read in any batch order returns each covered row once, and every accepted row stamped in the window is returned or still hot |
| `Mirror.MirrorComplete` | src/h2h/archive/lifecycle.py:142-183 | under appends in order, with crashes anywhere, every event at or below the watermark is in a registered batch |
| `Mirror.ExportExactly` | src/h2h/archive/repository.py:308-361 | an export takes rows later than the watermark by time and id, in that order, as many as its limit allows, and leaves no earlier one behind |
| `Mirror.MarkNeverFallsBack` | src/h2h/archive/repository.py:287-306 | the watermark never moves back, in any run |
| `Mirror.DrainedIsMirrored` | src/h2h/archive/repository.py:382-399 | when an export finds nothing the whole ledger is mirrored |
| `Mirror.LateRowExactly` | src/h2h/archive/repository.py:382-399 | at any stage of a pass, a new row keeps the mirror complete in every safe continuation exactly when it lies beyond the frontier, the last row in flight or else the watermark; at or below the watermark it is lost in every continuation, between the two in every one without a crash |
| `Mirror.SafeRunSound` | src/h2h/archive/lifecycle.py:142-183 | rows beyond the frontier keep the mirror complete in any order among themselves, crashes included |
| `Mirror.CrashRescues` | src/h2h/archive/lifecycle.py:162-178 | a crash before the watermark moves gives a row between watermark and frontier a second chance |
| `Mirror.MirrorReadsBackOnce` | src/h2h/archive/repository.py:429-444 | however batches overlap, the de-duplicating reader yields each mirrored event exactly once and nothing else |
| `Mirror.SettlementMirror.AdvanceWatermark` | src/h2h/archive/repository.py:287-306 | the greater of the stored and the given position |
| `Mirror.AdvanceExactly` | src/h2h/archive/repository.py:287-306 | the watermark moves exactly to a position later by time, then id |
| `Mirror.SettlementMirror.MirrorSettlements` | src/h2h/archive/lifecycle.py:142-183 | one pass is export, archive and advance of the protocol; a failed read-back leaves batches and watermark |
| `KellyLab.CalibrationSnapshot` | src/h2h/kellylab.py:109-180 | a non-positive prior is refused; otherwise the mean of the shrunk gaps of the non-empty cohorts, the clamped probability and a report of each dimension |
| `KellyLab.ReportsExplainGap` | src/h2h/kellylab.py:144-168 | the reported dimensions explain the gap: it is the mean contribution of the non-empty ones, each its own gap times its shrinkage |
| `KellyLab.ContributionExact` | src/h2h/kellylab.py:134-156 | a cohort shifts the probability by (wins − expected wins) / (n + prior_n), toward what was observed and by less than one |
| `KellyLab.CalibrationUsable` | src/h2h/kellylab.py:170-180 | the calibrated probability lies strictly between zero and one, and equals the clamped model probability without evidence |
| `KellyViews.CohortExactly` | src/h2h/kellylab.py:79-100 | a cohort holds exactly the won and lost rows of the same market and selection, or that no bucket boundary separates from the candidate, each as often as it stands among the rows |
| `KellyViews.UniformCohort` | src/h2h/kellylab.py:134-156 | a cohort of n rows at one probability p that all won moves the estimate by n(1 − p)/(n + prior_n), one that all lost by −np/(n + prior_n) |
| `KellyViews.CalibratedNearest` | src/h2h/kellylab.py:170-180 | the calibrated probability is the point of [0.01, 0.99] nearest to the shifted one |
| `KellyLab.RawKellyBounded` | src/h2h/kellylab.py:183-191 | the fraction exists exactly on valid inputs, never exceeds the probability, and is positive exactly on a positive expected value |
| `KellyLab.StakeBounded` | src/h2h/kellylab.py:194-224 | the plan raises exactly on invalid inputs; a stake is at most the bankroll and, within half a unit, its cap; a fraction is applied exactly when something is staked |
| `KellyLab.StakePlanExactly` | src/h2h/kellylab.py:183-224 | raw × (odds − 1) = odds × probability − 1 where that is positive and raw is 0 otherwise; the fraction scales it, the cap bounds it, and the stake is that share of the bankroll, halves up |
| `KellyFloor.SequentialPlayNeverRuins` | src/h2h/persistence/postgres_kellylab.py:272-281 | under the 1% cap a sound portfolio decided one pick after the other, on results known in time, keeps its recomputed bankroll at 49 units or more, or at its start if that is less: the floor of one unit never acts |
| `KellyFloor.FloorNeedsLosses` | src/h2h/persistence/postgres_kellylab.py:272-281 | under the 1% cap each lost pick takes at most one percent, rounded half up, of the largest bankroll a pick was frozen on, so the floor cannot act before that many are lost |
| `KellyFloor.ConcurrentLossesRun` | src/h2h/persistence/postgres_kellylab.py:283-414 | for every number of picks decided together and lost there is a run in order whose next pick is frozen on exactly what is left, the floor from a hundred of them on |
| `KellyLab.Drawdown` | src/h2h/persistence/postgres_kellylab.py:523-543 | on every path the loop finds the greatest fall from the running peak |
| `KellyLab.DrawdownExactly` | src/h2h/persistence/postgres_kellylab.py:523-543 | that is the greatest relative fall between any two moments exactly when no fall to a negative balance exceeds it, so always on a path that never goes below zero |
| `KellyLab.FirstNegativeExactly` | src/h2h/persistence/postgres_kellylab.py:537-542 | where the last balance is the first negative one, exactly when every earlier positive balance is the peak |
| `KellyLab.DrawdownBelowZero` | src/h2h/persistence/postgres_kellylab.py:523-543 | a path on which the loop misses the greatest fall |
| `KellyPortfolio.LatestIsGreatest` | src/h2h/persistence/postgres_kellylab.py:205-217 | a view uses the latest settling result acquired before its cutoff, and none only when there is none |
| `KellyViews.EvidenceExactly` | src/h2h/persistence/postgres_kellylab.py:176-235 | a view counts exactly the signals in scope that qualified before the decision, each with the settling result acquired last before it |
| `KellyViews.EvidenceOnce` | src/h2h/persistence/postgres_kellylab.py:176-235 | no signal stands in a view twice |
| `KellyViews.KnownPnlExactly` | src/h2h/persistence/postgres_kellylab.py:237-281 | a pick counts nothing until its result is known before the cutoff; then a win pays stake × (odds − 1) halves up, a loss takes the stake, a void nothing |
| `KellyPortfolio.FreezeNeverRaises` | src/h2h/persistence/postgres_kellylab.py:321-338 | the stake plan never raises inside a sync, and the frozen stake respects the frozen bankroll and the cap |
| `KellyRepository.Portfolio.BankrollBefore` | src/h2h/persistence/postgres_kellylab.py:236-281 | starting bankroll plus the profit known before the cutoff, at least one |
| `KellyRepository.Portfolio.SyncNewPicks` | src/h2h/persistence/postgres_kellylab.py:283-414 | every open candidate in decision order is frozen on its own view or skipped as out of scope; the counts add up |
| `KellyViews.SyncExactly` | src/h2h/persistence/postgres_kellylab.py:283-414 | a sync keeps the picks there are and adds one for each open signal in scope, a copy of its signal at the time it qualified, planned on the evidence and bankroll known before that moment |
| `KellyReplay.SyncSound` | src/h2h/persistence/postgres_kellylab.py:283-414 | a sync keeps every pick rederivable and leaves no eligible signal unpicked |
| `KellyReplay.RunSound` | src/h2h/persistence/postgres_kellylab.py:175-281 | after any run in order every pick ever frozen is still what the tables as they now stand would freeze; picks are only appended |
| `KellyReplay.ReplayEqualsLive` | src/h2h/persistence/postgres_kellylab.py:307-408 | the same arrivals under any two sync schedules freeze the same calibration, bankroll and stake for every signal, and after a last sync the same portfolio |
| `KellyLateEvidence.ViewChangesExactly` | src/h2h/persistence/postgres_kellylab.py:175-281 | for every portfolio whose run was in order so far and every next arrival, in order or not: it changes what a decision at a cutoff is frozen on exactly when it is the new latest settled result of a counted signal with a different result, rewrites or adds a signal that is or becomes known evidence, or moves the fixture of known evidence in or out of scope |
| `KellyLateEvidence.InOrderTouchesNothing` | src/h2h/persistence/postgres_kellylab.py:175-281 | no step in order meets that condition for a decided pick |
| `KellyLateEvidence.SyncKeepsViews` | src/h2h/persistence/postgres_kellylab.py:283-414 | a sync changes no decided view |
| `KellyLateEvidence.ReplayBreaks` | src/h2h/persistence/postgres_kellylab.py:307-340 | whenever the last arrival changes the calibration of an open signal, syncing before it and after it decide that signal differently on the same arrivals |
| `KellyLateEvidence.LateObservationBreaksReplay` | src/h2h/persistence/postgres_kellylab.py:205-217 | two runs from the empty portfolio with the same arrivals: a result acquired before a decision and recorded after its sync leaves another calibration than one recorded before |
| `KellyLateEvidence.PromotionBreaksReplay` | src/h2h/persistence/postgres_research_signals.py:163-216 | likewise for a promotion that requalifies a decided signal after a later decision |
| `MonitoringRepository.Repository.StartPick` | src/h2h/persistence/postgres_pick_monitoring.py:68-113 | an unknown pick, a different policy or a closed pick is refused, a running one replayed, a new one started with its transition |
| `MonitoringEffects.StartExactly` | src/h2h/persistence/postgres_pick_monitoring.py:68-113 | a registered pick without a row starts monitored and due at once; a repeat answers the row while it is open under the same policy |
| `MonitoringRepository.Repository.ClaimPicks` | src/h2h/persistence/postgres_pick_monitoring.py:115-133 | the due and unlocked picks by refresh time, each rescheduled by its own interval |
| `MonitoringEffects.ClaimExactly` | src/h2h/persistence/postgres_pick_monitoring.py:115-133 | a claim takes monitored, due and free picks up to its limit, none due later than one it leaves, and moves each by its own interval |
| `MonitoringRepository.Repository.HasDueRefreshes` | src/h2h/persistence/postgres_pick_monitoring.py:135-143 | true exactly when some monitored pick is due |
| `MonitoringRepository.Repository.FinalizePick` | src/h2h/persistence/postgres_pick_monitoring.py:145-217 | every refusal, the replay of a stored close, and otherwise close, transition and state row together, on the last quote of the pinned series to count before the kickoff |
| `MonitoringEffects.FinalizeExactly` | src/h2h/persistence/postgres_pick_monitoring.py:145-217 | the close is stored exactly when the pick is monitored and its newest known observation has kicked off; it has the pinned series and source, was observed and captured before the cutoff, under an allowed status and before the kickoff known at its capture, and no stored quote with these properties comes after it |
| `MonitoringRepository.Repository.ReadPick` | src/h2h/persistence/postgres_pick_monitoring.py:239-343 | the lifecycle view with, for each checkpoint id, exactly its markers in order |
| `MonitoringEffects.ReadExactly` | src/h2h/persistence/postgres_pick_monitoring.py:239-343 | a read shows exactly the quotes with these properties captured by its moment, in order of capture, the first as opening, the last observed or the stored close as current, and whether that is fresh |
| `MonitoringRepository.Repository.Read` | src/h2h/persistence/postgres_pick_monitoring.py:239-330 | the view of a pick as of a moment |
| `MonitoringTheorems.ClaimedExact` | src/h2h/persistence/postgres_pick_monitoring.py:120-126 | a claim takes due and unlocked picks, each once, as many as the limit allows, the longest overdue first |
| `MonitoringTheorems.MonitoringKeeps` | src/h2h/persistence/postgres_pick_monitoring.py:68-237 | over every run a pick stands where its transition rows lead, is closed exactly when a finalization exists and no refresh is scheduled, and two claims of it are at least its interval apart, so concurrent claims are disjoint |
| `MonitoringTheorems.RunIsLater` | src/h2h/persistence/postgres_pick_monitoring.py:68-237 | states only move forward, policies and finalizations never change, facts are only appended |
| `MonitoringTheorems.ReplaysChangeNothing` | src/h2h/persistence/postgres_pick_monitoring.py:77-156 | a replayed start answers the row until the pick closes, a replayed finalization answers the stored close at any time, and neither changes anything |
| `ClosingTheorems.QueriesExact` | src/h2h/persistence/postgres_pick_monitoring.py:513-586 | the candidate is the greatest valid quote by (observed, captured, id), the opening the least by (captured, observed, id); the history holds every valid quote once and starts with the opening |
| `ClosingTheorems.PointInTimeStable` | src/h2h/persistence/postgres_pick_monitoring.py:513-586 | quotes captured and fixture observations persisted at or after the cutoff change neither candidate nor opening nor history |
| `ClosingTheorems.LateQuoteExactly` | src/h2h/persistence/postgres_pick_monitoring.py:513-586 | a quote stored late changes the history exactly when it is valid, and the candidate exactly when it also comes after it |
| `ClosingTheorems.LateSightingExactly` | src/h2h/persistence/postgres_pick_monitoring.py:513-586 | a fixture observation that becomes visible late changes the history exactly when it overturns the judgement of a stored quote of the window |
| `ClosingTheorems.FinalizeTakesGreatest` | src/h2h/persistence/postgres_pick_monitoring.py:163-193 | the stored close is the greatest valid quote before its cutoff at finalization, and NO_VALID_QUOTE exactly when there is none |
| `ClosingTheorems.CloseInHistoryExactly` | src/h2h/persistence/postgres_pick_monitoring.py:219-237 | in every reachable state the stored close is in the history of its cutoff exactly when observations that became visible late overturned its quote an even number of times |
| `ClosingTheorems.CloseStaysInHistory` | src/h2h/persistence/postgres_pick_monitoring.py:219-237 | in particular it always is when observations are visible from the moment of their stamp and no finalization is stamped ahead of the clock |
| `ClosingTheorems.LateSightingLosesClose` | src/h2h/persistence/postgres_pick_monitoring.py:219-237 | a reachable run in which a postponement stamped before the capture and seen after the close takes the close out of its history |
| `ClosingTheorems.ClosedViewFrozenExactly` | src/h2h/persistence/postgres_pick_monitoring.py:239-343 | the lifecycle of a closed pick reads the same throughout a run, whenever it is read, exactly when no step stores a valid quote of its window or overturns the judgement of one |
| `ClosingTheorems.ClosedViewFrozen` | src/h2h/persistence/postgres_pick_monitoring.py:239-343 | in particular after every run whose later quotes are captured, and whose later observations are stamped, at or after the cutoff |
| `ClosingTheorems.ClosedReadsOk` | src/h2h/persistence/postgres_pick_monitoring.py:245-330 | a closed pick always reads, its current checkpoint is its close and its history starts with its opening |
| `Coverage.Repository.RefreshInventory` | src/h2h/persistence/postgres_model_coverage.py:74-163 | the passes of the refresh come to one update of each row, stated field by field |
| `Coverage.RefreshExactly` | src/h2h/persistence/postgres_model_coverage.py:78-163 | each row after a refresh by comparison of times and fingerprints: a pointer with activated_at ≥ now − freshness makes a required scope ACTIVE without a next attempt, an older one STALE and due now, under the own model and generation of the pointer; forced, missing, failed and pending rows as stated |
| `Coverage.PassesRefresh` | src/h2h/persistence/postgres_model_coverage.py:74-163 | discovery, pointer and schedule updates compose to the case analysis of one row: forced retrain first, then the pointer, then the schedule |
| `Coverage.Repository.RecoverAbandonedClaims` | src/h2h/persistence/postgres_model_coverage.py:165-182 | a non-positive lease is refused; otherwise exactly the expired claims are queued again and counted |
| `Coverage.RecoverExactly` | src/h2h/persistence/postgres_model_coverage.py:165-182 | exactly the pending rows begun before now − lease are queued again, due now |
| `Coverage.Repository.ClaimTrainingScopes` | src/h2h/persistence/postgres_model_coverage.py:184-208 | a non-positive limit is refused; otherwise exactly the selected rows become pending, the longest required of the claimable and unlocked ones |
| `Coverage.ClaimExactly` | src/h2h/persistence/postgres_model_coverage.py:184-208 | a claim takes required, due and free rows whose status asks for training, up to its limit, none required later than one it leaves, and marks each |
| `Coverage.SelectedExact` | src/h2h/persistence/postgres_model_coverage.py:190-196 | a claim takes claimable and unlocked scopes, each once, as many as the limit allows, the longest required first |
| `Coverage.Repository.HasPending` | src/h2h/persistence/postgres_model_coverage.py:417-425 | true exactly when a claim of one scope would return something |
| `CoverageTheorems.PendingEndsExactly` | src/h2h/persistence/postgres_model_coverage.py:126-163 | a pending scope is never taken, and stops being pending exactly under its own finish or release, the expiry of its lease, or a refresh that changes the policy while it is required |
| `CoverageTheorems.ReleaseReturnsClaim` | src/h2h/persistence/postgres_model_coverage.py:319-336 | a release changes the tables exactly when the scope is pending, queues it at once if it is eligible, and touches no other scope |
| `Coverage.ReleaseExactly` | src/h2h/persistence/postgres_model_coverage.py:319-336 | the row of a released claim, field by field |
| `CoverageTheorems.FinishedClaimableExactly` | src/h2h/persistence/postgres_model_coverage.py:338-392 | a finished scope may be claimed again never after an activation, and from its retry time after anything else |
| `Coverage.FinishExactly` | src/h2h/persistence/postgres_model_coverage.py:338-392 | what each ending records of an attempt |
| `CoverageTheorems.ClaimsAreExclusive` | src/h2h/persistence/postgres_model_coverage.py:184-208 | a claimed scope is not claimed again in any run in which none of these happens |
| `CoverageTheorems.SuccessiveClaimsDisjoint` | src/h2h/persistence/postgres_model_coverage.py:190-200 | two claims share no scope |
| `CoverageTheorems.PolicyChangeReclaims` | src/h2h/persistence/postgres_model_coverage.py:145-162 | a policy change hands a pending scope out a second time |
| `CoverageTheorems.RetrainSurvivesExactly` | src/h2h/persistence/postgres_model_coverage.py:126-142 | with a fresh pointer and an unchanged policy, a forced retrain awaits its claim after exactly the runs that hold neither a further refresh nor a finish of the scope nor the claim itself |
| `CoverageTheorems.RefreshLosesRetrain` | src/h2h/persistence/postgres_model_coverage.py:126-142 | a refresh that comes first leaves the scope ACTIVE and never claimable |
| `CoverageTheorems.LateFinishLosesRetrain` | src/h2h/persistence/postgres_model_coverage.py:338-392 | a policy change that reaches a scope in training is undone by the worker that finishes it: the status and claim time for each ending, under the new fingerprint, so that policy does not force it again |
| `CoverageTheorems.OwedExactly` | src/h2h/persistence/postgres_model_coverage.py:126-142 | until a worker finishes the scope, a retrain stays owed exactly while no refresh finds it in the queue, before its claim or after one was given back; such a refresh makes the scope ACTIVE for good, untrained |
| `CoverageTheorems.ClaimReachesFinishExactly` | src/h2h/persistence/postgres_model_coverage.py:165-182 | under an unchanged policy the very claim is still open, and its worker may finish it, after exactly the runs that hold no finish and no release of the scope and no recovery that finds the lease expired |
| `CoverageTheorems.ReturnedClaimIsLost` | src/h2h/persistence/postgres_model_coverage.py:319-336 | a claim that is given back and then refreshed on a fresh pointer is ACTIVE, never claimable and never trained |
| `CoverageTheorems.RefreshedRetrainExactly` | src/h2h/persistence/postgres_model_coverage.py:126-163 | for any pointer: one refresh keeps RETRAIN_REQUIRED exactly without a pointer or under a new policy change, and empties the queue exactly on a fresh pointer |
| `CoverageTheorems.PolicyChangeQueues` | src/h2h/persistence/postgres_model_coverage.py:145-162 | a policy change queues every required scope whatever it was doing |
| `CoverageTheorems.StreakRefinesHistory` | src/h2h/persistence/postgres_model_coverage.py:362-391 | after any run the stored streak is the length of the longest suffix of equal digests among the counted failures since the last activation or policy change |
| `ModelPointer.Repository.CompareAndSwap` | src/h2h/persistence/postgres_model_lifecycle.py:207-260 | the guarded insert or update, any writes of other sessions, and then the read that answers a call that did not win |
| `ModelPointer.WriteExactly` | src/h2h/persistence/postgres_model_lifecycle.py:217-242 | the write wins the next generation of its own scope exactly where the pointer is the expected one and not the target, and changes nothing otherwise |
| `ModelPointer.CallTrichotomy` | src/h2h/persistence/postgres_model_lifecycle.py:207-260 | whatever commits between the two statements, a call succeeds exactly when it won or its target is current when it reads; a conflict names what was read |
| `ModelPointer.ConflictOnExpectedExactly` | src/h2h/persistence/postgres_model_lifecycle.py:256-260 | a conflict reports the expected model exactly when the pointer was elsewhere at the write and the last win before the read elected that model, which is not the target |
| `ModelPointer.ExpectedModelArrivesLate` | src/h2h/persistence/postgres_model_lifecycle.py:256-260 | an input of that kind: the expected model was never current before the write |
| `ModelPointer.GenerationsCountWins` | src/h2h/persistence/postgres_model_lifecycle.py:217-244 | over every interleaving a generation grows by the number of wins and the current model is the last winner |
| `ModelPointer.GenerationNamesWinner` | src/h2h/persistence/postgres_model_lifecycle.py:217-244 | each generation belongs to exactly one winner |
| `ModelPointer.NeighboursDiffer` | src/h2h/persistence/postgres_model_lifecycle.py:227-230 | no generation re-elects the model it replaces |
| `ModelPointer.RetryKeepsGeneration` | src/h2h/persistence/postgres_model_lifecycle.py:245-255 | repeating a win that is still current writes nothing, and answers the pointer while it stays current |
| `ModelPointer.ReturnTripExactly` | src/h2h/persistence/postgres_model_lifecycle.py:227-244 | a swap on a pointer read earlier wins exactly when nothing won since or the model came back; only the generation tells the two apart |
| `Budget.SharedBudget.AcquireCall` | src/h2h/odds/budget.py:154-189 | each refusal in order, and otherwise one more call of the category on that day |
| `Budget.AcquireExactly` | src/h2h/odds/budget.py:154-189 | a call is granted exactly while the day stands below daily − reserve and, for training, below its own limit and below the share kept for operations; it adds one to its own counter |
| `Budget.SharedBudget.Remaining` | src/h2h/odds/budget.py:205-207 | what is left, never negative |
| `Budget.CountersExact` | src/h2h/odds/budget.py:154-189 | the counters of a day are the calls that succeeded on it and stay within the limits |
| `Budget.ReservedCapacity` | src/h2h/odds/budget.py:154-189 | per day: calls never exceed the effective limit, training never exceeds its limit nor cuts into the operational reserve, and another call is refused only once that reserve went to other calls |
| `Budget.UsedIsGranted` | src/h2h/odds/budget.py:89-103 | the count of the stored day never exceeds the calls granted on it, over any clock readings |
| `Budget.DailyBudget.AcquireCall` | src/h2h/odds/budget.py:89-97 | one call within the limit of the stored day, or a refusal |
| `Budget.DailyBudget.RemainingToday` | src/h2h/odds/budget.py:83-87 | reading also starts a new day |
| `Budget.MemoryBoundExactly` | src/h2h/odds/budget.py:89-103 | the in-memory budget keeps its daily bound for every limit if and only if the clock never comes back to a day between two calls on it |
| `Retry.RetryingTransport.GetJson` | src/h2h/odds/retry.py:38-73 | the attempt loop over the budgeted transport: outcome, trace and charges |
| `Retry.FromBounded` | src/h2h/odds/retry.py:49-73 | every call is charged right before, a sleep follows a retryable reply and precedes another attempt, and nothing follows an answer that is not retryable, a refusal or a shutdown |
| `Retry.TraceExactly` | src/h2h/odds/retry.py:38-73 | attempt k meets the shutdown, day and reply of its own turn, and waits backoff × 2^k, at least what a rate limit asks, at most the maximum |
| `Retry.OutcomeExactly` | src/h2h/odds/retry.py:49-73 | the outcome is the body of a success, the failure of any other last reply, a refusal of the budget, or on shutdown the failure before it; a retryable reply ends a request only at the last attempt |
| `Retry.RequestBounded` | src/h2h/odds/budget.py:214-229 | one request charges at most max_attempts units, one for each network call, sleeps at most (max_attempts − 1) × max_backoff, and moves the counters of a day by exactly its charges |
| `Retry.ApiFootballBounded` | src/h2h/application.py:123-131 | the wired client makes at most two charged calls and sleeps at most thirty seconds, whatever the usage |
| `BestPrice.RankBestPrices` | src/h2h/domain/best_price.py:38-81 | the dictionary of groups, ranked and sorted, is the ranking |
| `BestPrice.SetOfExact` | src/h2h/domain/best_price.py:57-68 | a set holds the approved evaluations of its key, each once, the best odd first |
| `BestPrice.PricesInOrder` | src/h2h/domain/best_price.py:57-68 | within a set the higher odd stands first, then the lower bookmaker, then the lower id |
| `BestPrice.RankedPartitions` | src/h2h/domain/best_price.py:49-68 | the sets partition the approved evaluations and each winner has the highest odd of its set |
| `BestPrice.RankedExactly` | src/h2h/domain/best_price.py:49-68 | the ranking holds the evaluations of bookmakers 8, 11 and 34, and those alone |
| `BestPrice.SetsInOrder` | src/h2h/domain/best_price.py:69-81 | the sets stand by the expected value of their winners, then edge, then odd |
| `BestPrice.RankingIgnoresOrder` | src/h2h/domain/best_price.py:49-81 | with distinct ids every permutation of the input gives the same output |
| `BestPrice.FirstWinnerIsGreatest` | src/h2h/domain/value_evaluation.py:206-219 | when a selection shares one model probability the first winner has the greatest expected value of all approved evaluations |
| `OneSignal.OneSignalPerFixture` | src/h2h/api/research_dashboard.py:346-382 | a row without a time is an error; otherwise the projection |
| `OneSignal.ProjectedExact` | src/h2h/api/research_dashboard.py:357-382 | exactly the leading row of each fixture is kept, once, the latest first |
| `OneSignal.KeptIsEarliest` | src/h2h/api/research_dashboard.py:346-382 | the kept row was qualified or first blocked no later than any of its fixture, and among those of that time has the greatest expected value, edge and odds, a missing number being least, and then the least id |
| `OneSignal.ShownLatestFirst` | src/h2h/api/research_dashboard.py:346-382 | the projection shows the row qualified or last blocked latest first |
| `OneSignal.ProjectionIgnoresOrder` | src/h2h/api/research_dashboard.py:346-382 | every permutation of the rows gives the same projection |
| `OneSignal.ProjectionIdempotent` | src/h2h/api/research_dashboard.py:346-382 | projecting the projection changes nothing |
| `QuoteHistory.Repository.EnsureSeriesBatch` | src/h2h/persistence/postgres_quote_history.py:107-143 | the batch commits when every definition is stored exactly as given, and otherwise changes nothing |
| `QuoteHistory.EnsureExactly` | src/h2h/persistence/postgres_quote_history.py:107-143 | a batch commits exactly when no id stands in it twice and no definition shares an id, or fixture, bookmaker, market and selection, with a different one; it then adds the missing ones and nothing else |
| `QuoteHistory.Repository.AppendSnapshots` | src/h2h/persistence/postgres_quote_history.py:144-205 | the batch commits wholly or not at all |
| `QuoteHistory.AppendOneExact` | src/h2h/persistence/postgres_quote_history.py:162-205 | a snapshot is skipped exactly when its id or its observation already answers for it |
| `QuoteHistory.AppendRules` | src/h2h/persistence/postgres_quote_history.py:162-205 | a stored id answers for equal series, odd, time and source and conflicts otherwise; a stored observation under another id answers for an equal odd and conflicts otherwise |
| `QuoteHistory.NoOpExactly` | src/h2h/persistence/postgres_quote_history.py:144-205 | a batch succeeds without effect exactly when every snapshot in it is already held |
| `QuoteHistory.ReplayIsNoOp` | src/h2h/persistence/postgres_quote_history.py:144-205 | a committed batch replays as a no-op exactly when no snapshot of it shares its id with a stored quote of another payload |
| `QuoteHistory.DigestsReplay` | src/h2h/persistence/postgres_quote_history.py:144-205 | in particular when ids name payloads, as digests do |
| `QuoteHistory.SharedIdStillReplays` | src/h2h/persistence/postgres_quote_history.py:144-205 | two snapshots under one id with different payloads still replay when both repeat stored observations |
| `QuoteHistory.HistoryKeeps` | src/h2h/persistence/postgres_quote_history.py:107-205 | over every run ids and observations stay unique, nothing stored is lost or changed, and an observation keeps its first capture time |

## Left out

- The servers, dashboards, authentication, logging, configuration parsing and the composition
  roots, apart from the retry-over-budget wiring: input, output and presentation.
- SQL text, compression and the object-store protocol: tables, locks and objects are abstract, and a
  digest stands for its content.
- Dixon-Coles fitting, the orchestrator and the workers: they only call the steps modelled here.
- Result acquisition and finality delays: whether a result is stable is a parameter of `SettlePick`.
- The competition-scope lists: whether a fixture is in scope is a set that a step changes.
- Closing line value, cohort analytics and the Wilson interval: arithmetic without state.
- The counts, ROI and grouping of the performance summary: only balance, exposure, profit and the
  curve are modelled.
- Decimal scale and float error in odds, probabilities and calibration.
- The database checks that can make a KellyLab insert fail (a decision at or after kickoff, an
  unknown market): signals carry supported markets, odds above one and probabilities inside (0, 1).
- Signals and scopes whose fixture has no observation row: the inner joins drop them, and here every fixture has one.
- The four settlement datasets of the mirror share one model; the row comparison is the same.
- The resolution of a complete market observation from one quote snapshot.
- The provenance fields of snapshots and decisions that no later step reads.
- BankrollRepository.Bankroll.Bootstrap: one account in one currency, so the currency conflict is not modelled.
- BankrollRepository.Bankroll.SettlePick: whether the result is stable is a parameter, and the acquisition state that settling completes is not kept.
- BankrollRepository.Bankroll.VoidPostponed: the latest provider status is a parameter; the currency check and the inspection mode, which writes nothing, are not modelled.
- ArchiveLifecycle.Lifecycle.ArchiveBatch: the store keeps what it is given, as in a pass without a fault; a failed read-back is a step of the protocol and an answer of `ArchiveRows`.
- KellyLab.CalibrationSnapshot: the reports name their dimension but not its bucket label.
- KellyRepository.Portfolio.SyncNewPicks: it reads many times in one transaction without a lock; commits of other sessions in between are not modelled.
- QuoteHistory.Repository.EnsureSeriesBatch: the same holds between its inserts and its reads.
- MonitoringRepository.Repository.Read: the same holds between its reads.
- Coverage.Repository.RefreshInventory: its statements run as one step, and the required scopes are a parameter; discovering them from fixtures and classifying competitions is not modelled.
- BankrollRepository.Bankroll.Register: final-quote verification, currency and eligibility rejections precede the risk rules and are not modelled; a rejected candidate never reaches the ledger.
- KellyReplay.ReplayEqualsLive: covers runs in order only, because the code accepts steps that break replay.
- MonitoringTheorems.MonitoringKeeps: a claim is one step; SKIP LOCKED is the set of rows it must skip.
- Mirror.MirrorComplete: assumes appends in order of time and id, because a late row is not mirrored.
