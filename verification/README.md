# Armchair Analyst: verified core

This project models the decision-making core of the Armchair Analyst client and proves what it
promises:

- **Plan replay** (`LosslessPool.dfy`, `ReplaySpec.dfy`, `LosslessReplay.dfy` and the theorems in
  `ReplayConservation.dfy`, `ReplayNoGain.dfy`, `ReplayReuse.dfy`, `ReplayLimits.dfy`,
  `ReplayCompare.dfy`, `ReplayExamples.dfy`): an integer replay of an execution plan over mutable
  constant-product pools.
- **Endpoint scheduling** (`SmoothOrder.dfy`, `EndpointPool.dfy`): smooth weighted round-robin and
  health-aware failover.
- **Client engine** (`PendingFetches.dfy`, `Engine.dfy`, `LatestSlot.dfy`, `Optimizer.dfy`,
  `ClientSystem.dfy`): the fetch ledger, the reducer, the coalescing mailbox, the self-clocked worker,
  and all of them together under every interleaving.
- **Pool catalog** (`Wire.dfy`, `Catalog.dfy`), **pool-log fold** (`PoolLog.dfy`), **candidate merge**
  (`Vetting.dfy`), **calendar and timestamps** (`Calendar.dfy`, `Timestamp.dfy`, `Text.dfy`).

`Domain.dfy`, `FloorMath.dfy` and `Word256.dfy` hold shared identifiers, floor-division facts and the
saturating words. Objects the program mutates are classes whose methods are proved against functions on
values; the theorems are lemmas about those functions. Code the program only calls (hex parsing, the
reserve arithmetic of one pool, route coverage, the optimizer runner, the request attempt, clocks) is a
function-valued parameter, so each theorem holds whatever it computes. `dafny verify dfyconfig.toml`
checks the whole project.

Four statements of the program's own documentation do not hold as written. The model follows the code
and says when each does hold:

- "the gate never overstates" (`core/crates/client-evm/src/lossless_replay.rs`, lines 17-21): true of the
  output of every plan that reuses pools, if at all, within one and the same stage and each in one
  direction (`ReplayCompare.GateNeverOverstatesReuseInOneStage`); false of a plan that swaps there and
  back through one pool, with the exact condition (`ReplayExamples.ThereAndBackIsSafeExactly`), and of
  one-way reuse over three stages (`ReplayExamples.GateOverstatesOneWayReuse`). What one pool pays in all
  at given amounts is never overstated exactly when no sale of a token comes before a sale paid in it
  (`ReplayReuse.ReuseIsSafeExactlyWhenPaidFirst`), and otherwise by at most what the sales held back
  (`ReplayReuse.ReuseOverstatesByWhatIsHeldBack`);
- a flagged output is called a "conservative lower fidelity bound" (lines 62-70): true of what one pool
  pays in all at given amounts (`ReplayCompare.ClampedRunUnderstates`), and of the output of every plan
  that reuses pools, if at all, only in the first stage that swaps (`ReplayCompare.OutputIsALowerBound`);
  reuse across stages can break it (`ReplayExamples.FlaggedOutputIsNoLowerBound`);
- results are said to "describe the same route, which only `SetRoute` invalidates"
  (`core/crates/aa-client-core/src/state.rs`, lines 524-526): exactly as long as nothing of another route
  is astray (`ClientSystems.MisrecordsExactlyWhatStrays`, `ClientSystems.SettledStepsBelong`); a step
  overtaken by a change of route is recorded under the new one (`ClientSystems.OvertakenStepIsMisrecorded`);
- "the optimizer always grinds the freshest reserves" (`core/crates/aa-client-core/src/optimizer.rs`, lines
  10-14): true while pushes are executed in the order they were emitted, which the effect pool does not
  promise (`ClientSystems.InOrderTheWorkerGetsTheFreshest`, `ClientSystems.OutOfOrderTheWorkerGetsAStaleOne`).

A weighted amount "never overspends" as documented, one rounding at a time; whether a whole stage does is
a matter of its weights, and `ReplayNoGain.NeverOverspendsExactlyWhenWeightsFit` says which.

## Model

| member | source | states |
|---|---|---|
| `ReplayNoGain.OnePoolNeverPays` | core/crates/client-evm/src/lossless_replay.rs:116-254 | A bridge-free plan that trades at one pool only, over any number of stages, both directions, carries, any fee, any limits and even saturating reserves, never returns more of the source than it entered with, provided no stage's scaled weights for a token exceed the scale. |
| `ReplayConservation.TotalsNeverGrow` | core/crates/client-evm/src/lossless_replay.rs:178-254 | Over any multi-pool plan that overspends no token, bridges included, the total of any set of tokens over the wallet and all pool reserves is at the end at most what it was at the start, as long as no bridge leads into the set from outside; and such a replay never fails. |
| `ReplayConservation.TokenTotalNeverGrows` | core/crates/client-evm/src/lossless_replay.rs:178-254 | Without bridges that holds of every token by itself. |
| `ReplayConservation.StepConservesOver` | core/crates/client-evm/src/lossless_replay.rs:224-252 | One step, bridge steps among them, adds to such a set at most what it spends of the set's own tokens out of the stage's wallet. |
| `ReplayConservation.StepRaisesByItsShare` | core/crates/client-evm/src/lossless_replay.rs:224-252 | While nothing saturates a step raises what any set of tokens totals over the next wallet and the reserves by exactly the share it spends, if the token the share lands in is in the set: its own token for a swap, the token led to for a carry or a bridge; a carry to another token raises nothing. |
| `ReplayConservation.TotalsFallByWhatIsUnspent` | core/crates/client-evm/src/lossless_replay.rs:178-254 | Over any plan while nothing saturates, what a set of tokens no bridge crosses totals over the wallet and all reserves falls by exactly what the stages leave unspent of it: no swap, carry or bridge gains or loses anything else. |
| `ReplayExamples.RelayOutputsItsEntry` | core/crates/client-evm/src/lossless_replay.rs:233-241 | Along any chain of carries and bridges that spends each balance whole, the entry comes out as it went in, unflagged. |
| `ReplayExamples.NoStepsNoOutput` | core/crates/client-evm/src/lossless_replay.rs:196-209 | A plan without steps outputs its entry if source and output are one asset, and nothing otherwise. |
| `ReplayConservation.NothingSaturates` | core/crates/client-evm/src/lossless_replay.rs:111-151 | When each token lies in a set of tokens that no bridge leads into from outside and whose opening total fits a word, no saturating addition anywhere in the run saturates, bridges included, and every pool ends with at least the reserve product it opened with. |
| `ReplayConservation.NothingSaturatesWithoutBridges` | core/crates/client-evm/src/lossless_replay.rs:111-151 | Without bridges it is enough that every token's own opening total fits. |
| `ReplayConservation.StepConserves` | core/crates/client-evm/src/lossless_replay.rs:224-252 | One step moves at most its own weighted spend of any token out of the wallet into pools and next wallet. |
| `ReplayConservation.SpendAllBound` | core/crates/client-evm/src/lossless_replay.rs:157-164 | The floored shares a stage takes of one balance never add up to more than the balance, when the scaled weights fit the scale. |
| `ReplaySpec.WeightedAmountIsTheLargestShare` | core/crates/client-evm/src/lossless_replay.rs:160-164 | A share is the largest amount within its weight, in parts of 1,000,000,000, of the balance. |
| `LosslessPools.AfterFeeIsTheLargestKept` | core/crates/client-evm/src/lossless_replay.rs:130-133 | What a fee leaves is the largest amount within the millionths it keeps, and nothing from 100% on. |
| `ReplayNoGain.NeverOverspendsExactlyWhenWeightsFit` | core/crates/client-evm/src/lossless_replay.rs:157-164 | A stage keeps within every balance of a token if and only if its scaled weights for that token sum to at most the scale: "never overspends" is a promise about one step, not about a stage. |
| `ReplayNoGain.OverspendingCarriesGain` | core/crates/client-evm/src/lossless_replay.rs:238-243 | Past that bound value is created: two full-weight carries double the entry. |
| `ReplayReuse.ReuseConsolidates` | core/crates/client-evm/src/lossless_replay.rs:14-16 | At zero fee with no hop clamped, n successive same-direction sales pay at most what one sale of the whole pays, and at most n - 1 units less. |
| `ReplayReuse.SplittingNeverPaysMore` | core/crates/client-evm/src/lossless_replay.rs:14-21 | At any fee, splitting a sale never pays more than the single unclamped sale. |
| `ReplayReuse.ReuseOverstatesByWhatIsHeldBack` | core/crates/client-evm/src/lossless_replay.rs:13-21 | Over any run of swaps through one pool, in any directions, at any fee, limits and reserves: the replay's pool ends at least as deep on both sides as one that accrues only the after-fee input, and overpays each token by at most what the run's sales of that token held back; while nothing saturates, by exactly that less the depth left over. |
| `ReplayReuse.ReuseIsSafeExactlyWhenPaidFirst` | core/crates/client-evm/src/lossless_replay.rs:116-154 | What a pool pays of a token in all, at given amounts, is never more than under after-fee accrual, whatever its reserves, fee and limits and whatever the amounts, if and only if no sale of the token comes before a sale paid in it. |
| `ReplayReuse.ReuseNeverOverstatesUnlessItDrawsOnWhatItHeld` | core/crates/client-evm/src/lossless_replay.rs:116-154 | The same of a given run whenever no sale that held some of the token back comes before one paid in it. |
| `ReplayReuse.OneWayReuseNeverOverstates` | core/crates/client-evm/src/lossless_replay.rs:18-21 | In particular of every run in one direction. |
| `ReplayReuse.RoundTripIsSafeExactly` | core/crates/client-evm/src/lossless_replay.rs:17-21 | A swap and one back overstate if and only if what the first held back tips the second's payout over its next unit, the condition stated on the reserves and amounts. |
| `ReplayReuse.RoundTripOverpays` | core/crates/client-evm/src/lossless_replay.rs:17-21 | They overpay what the first held back at the second's own rate, give or take one unit. |
| `ReplayReuse.RoundTripOverstates` | core/crates/client-evm/src/lossless_replay.rs:17-21 | A concrete round trip pays 892 under the replay's convention and 848 under after-fee accrual, both run through the pool. |
| `ReplayReuse.SecondHopNeverPaysMore` | core/crates/client-evm/src/lossless_replay.rs:19-21 | Hop by hop, the second swap in one direction never pays more than under after-fee accrual. |
| `ReplayReuse.ThirdHopMayPayMore` | core/crates/client-evm/src/lossless_replay.rs:19-21 | A third one can: a concrete run, though its total is no larger. |
| `ReplayReuse.PayoutsAddUp` | core/crates/client-evm/src/lossless_replay.rs:116-154 | One-way payouts sum to exactly what the other reserve lost, under either accrual. |
| `ReplayReuse.OneWaySales` | core/crates/client-evm/src/lossless_replay.rs:111-154 | The pool's own swaps in one direction leave what the two-reserve arithmetic of the splitting bounds leaves, and pay the difference. |
| `ReplayCompare.GateNeverOverstatesReuseInOneStage` | core/crates/client-evm/src/lossless_replay.rs:13-21 | "the gate never overstates" holds of every plan whose reused pools are all reused within one and the same stage, each in one direction: its output is at most that of the same replay with after-fee accrual, whatever the pools, stages, weights, carries and bridges. |
| `ReplayCompare.AccrualNeedsReuse` | core/crates/client-evm/src/lossless_replay.rs:13-21 | A plan that uses each pool once has the same outcome, flag included, under both accruals. |
| `ReplayCompare.ReuseInOneStageNeverOverstates` | core/crates/client-evm/src/lossless_replay.rs:13-21 | Both comparisons in one: over pools with more room before their boundaries and under either accrual the output is at least as large, given the conditions each asks for. |
| `ReplayExamples.ThereAndBackIsSafeExactly` | core/crates/client-evm/src/lossless_replay.rs:13-21 | A plan that swaps everything through a pool and back a stage later overstates if and only if what the swap there held back tips the payout of the swap back over its next unit; the condition is on the pool and the entry. |
| `ReplayExamples.GateOverstatesThereAndBack` | core/crates/client-evm/src/lossless_replay.rs:17-21 | So the claim fails for whole plans: with 1000 entered such a plan outputs 892 where after-fee accrual gives 848. |
| `ReplayExamples.GateOverstatesOneWayReuse` | core/crates/client-evm/src/lossless_replay.rs:17-21 | Reuse in one direction across three stages fails too, with every balance spent: 506 against 469. |
| `ReplayExamples.SellInPartsPays` | core/crates/client-evm/src/lossless_replay.rs:178-263 | The replay of a plan that sells in any number of parts over its stages, and each part's proceeds on a stage later, outputs what its pools pay sale by sale. |
| `ReplayLimits.UnflaggedReplayIsExact` | core/crates/client-evm/src/lossless_replay.rs:62-70 | A replay that raises no tick-limit flag equals the replay of the same plan over pools without any tick boundary, reserves included. |
| `ReplayLimits.FlaggedExactlyWhenClamped` | core/crates/client-evm/src/lossless_replay.rs:134-135 | A replay is flagged if and only if the after-fee input of some swap it ran exceeded the limit of its side. |
| `ReplayLimits.BoundlessReplayIsUnflagged` | core/crates/client-evm/src/lossless_replay.rs:134-135 | Over pools without a boundary no replay is flagged. |
| `ReplayLimits.StepFailsExactly` | core/crates/client-evm/src/lossless_replay.rs:218-222 | A step fails if and only if it has something to swap and its pool is not in the book or does not hold the token, and says which. |
| `ReplayLimits.ClampedHopUnderstates` | core/crates/client-evm/src/lossless_replay.rs:62-70 | A clamped hop pays at most what it would without the boundary, an unclamped hop exactly that. |
| `ReplayCompare.ClampedRunUnderstates` | core/crates/client-evm/src/lossless_replay.rs:62-70 | Over any run of swaps through one pool at given amounts, in any directions, at any fee and even saturating, the pool pays of each token in all at most what it would with no boundary. |
| `ReplayCompare.OutputIsALowerBound` | core/crates/client-evm/src/lossless_replay.rs:62-70 | The output is a lower bound for every plan that reuses pools, if at all, only in the first stage that swaps, whatever its stages, weights, fees, directions, carries and bridges; and it is exact when unflagged. |
| `ReplayCompare.OutputIsALowerBoundWithoutReuse` | core/crates/client-evm/src/lossless_replay.rs:62-70 | In particular for every plan that uses each pool once. |
| `ReplayExamples.FlaggedOutputIsNoLowerBound` | core/crates/client-evm/src/lossless_replay.rs:62-70 | Reuse across stages breaks the stated "conservative lower" bound, with every balance spent: a concrete flagged plan outputs 44 where the unbounded pools give 25. |
| `ReplayLimits.OpensExactlyWhenPoolsResolve` | core/crates/client-evm/src/lossless_replay.rs:183-191 | The book can be built if and only if every pool the plan swaps through resolves; the only fault is `PoolNotFound`. |
| `LosslessPools.PayoutIsTheLargestKeepingTheProduct` | core/crates/client-evm/src/lossless_replay.rs:134-143 | A hop pays the largest amount that leaves the reserve product, over the capped input, no lower than before: both directions. |
| `LosslessPools.ReserveProductNeverFalls` | core/crates/client-evm/src/lossless_replay.rs:145-151 | The reserve product never falls across a swap as long as the after-fee, capped input fits the input-side reserve. |
| `LosslessPools.ReserveProductFallsWhenSaturated` | core/crates/client-evm/src/lossless_replay.rs:145-151 | Without that fit it can fall. |
| `LosslessPools.LosslessPool.Swap` | core/crates/client-evm/src/lossless_replay.rs:116-154 | The in-place swap, every narrowing in range, as the value-level swap the theorems are about; a foreign token changes nothing. |
| `LosslessReplay.BuildPools` | core/crates/client-evm/src/lossless_replay.rs:183-191 | One fresh, unshared pool object per distinct swapped pool, or the first unresolvable one's fault. |
| `LosslessReplay.ReplayStep` | core/crates/client-evm/src/lossless_replay.rs:214-252 | One step in place: zero shares skipped, swaps moving exactly one pool, cross-token carries dropped, bridges passed one to one. |
| `LosslessReplay.ReplayPlanLossless` | core/crates/client-evm/src/lossless_replay.rs:178-263 | The nested loops over stages and steps, with their mutated book, wallet and flag, compute the value-level replay, errors included. |
| `SmoothOrder.SmoothWeightedOrder` | core/crates/client-evm/src/endpoints.rs:511-537 | The loop over running values emits as many picks as the weights total, each going to the largest claim with ties to the last index, a rule stated without running values. |
| `SmoothOrder.GreedyIsUnique` | core/crates/client-evm/src/endpoints.rs:522-526 | That rule leaves no choice: weights and length determine the order. |
| `SmoothOrder.CycleIsExact` | core/crates/client-evm/src/endpoints.rs:511-537 | A whole cycle emits each index exactly `weight` times and returns every running value to zero. |
| `SmoothOrder.NeverAFullTurnAhead` | core/crates/client-evm/src/endpoints.rs:511-537 | In every prefix of length t, total * (n - 1) < t * weight for the count n of any index. |
| `SmoothOrder.RunningValuesStayBounded` | core/crates/client-evm/src/endpoints.rs:512-531 | No running value reaches minus the total or exceeds the total times the number of endpoints, which is what keeps the signed 64-bit values from overflowing. |
| `SmoothOrder.CycleCovers` | core/crates/client-evm/src/endpoints.rs:511-537 | An index is in the cycle if and only if its weight is positive. |
| `SmoothOrder.ClaimsTotal` | core/crates/client-evm/src/endpoints.rs:519-531 | The running values, weights added, always sum to exactly one turn. |
| `SmoothOrder.IndexOfMax` | core/crates/client-evm/src/endpoints.rs:522-526 | The maximum's last index, as the iterator's tie rule has it. |
| `Endpoints.EndpointPool.WithFailover` | core/crates/client-evm/src/endpoints.rs:149-206 | Whatever other requests do to cursor and health before each pick and each report: every ask goes to the pick of its moment, no endpoint is asked twice, every ask before the last failed retryably, the result and its trace are what the last ask settled, and the pool is left as those picks and reports make it. |
| `Endpoints.QuietRequestSettles` | core/crates/client-evm/src/endpoints.rs:171-183 | With no other request running, a request moves the cursor once for each ask, leaves an endpoint that served healthy, one that failed retryably with one failure more and cooling down from its attempt for the backoff of that many, and every other as it was. |
| `Endpoints.JustFailedIsNotAskedFirst` | core/crates/client-evm/src/endpoints.rs:208-265 | Over two requests: an endpoint that failed in the first is not asked first in the second before its cooldown ends, as long as another is ready. |
| `Endpoints.ReadyGoesFirst` | core/crates/client-evm/src/endpoints.rs:208-236 | A pick is ready whenever someone untried in the cycle is. |
| `Endpoints.AsksOnExactly` | core/crates/client-evm/src/endpoints.rs:474-500 | A request goes on to another endpoint if and only if one is left and the error is a transport failure, a JSON-RPC error, an unreadable response, or an HTTP status of 400, 401, 403, 408, 425, 429 or from 500 up. |
| `Endpoints.FailureTellsEveryAsk` | core/crates/client-evm/src/endpoints.rs:149-206 | A failed request reports, for one endpoint, its own error, and for more every ask in order by name and error, and whether it stopped short. |
| `Endpoints.EndpointPool.Report` | core/crates/client-evm/src/endpoints.rs:171-183 | One outcome settles the health of its endpoint in place. |
| `Endpoints.SomeEndpointServes` | core/crates/client-evm/src/endpoints.rs:149-206 | If every failure is retryable and some endpoint would serve, the request is served, from any cursor and health. |
| `Endpoints.EveryEndpointAskedOnce` | core/crates/client-evm/src/endpoints.rs:149-206 | If every endpoint fails retryably, each is asked exactly once and the failure lists them all. |
| `Endpoints.FailsOnlyWhenStopped` | core/crates/client-evm/src/endpoints.rs:162-194 | A request fails if and only if its last ask failed and was either not retryable or the last endpoint left. |
| `Endpoints.EndpointPool.PickExcluding` | core/crates/client-evm/src/endpoints.rs:211-244 | The first untried endpoint in rotation that is not cooling down; else the untried one that cools down soonest, ties to the first; else the cursor's turn. |
| `Endpoints.PickIsUntried` | core/crates/client-evm/src/endpoints.rs:208-244 | As long as the cycle holds an untried endpoint, the pick is untried. |
| `Endpoints.HealthyPickIsTheTurn` | core/crates/client-evm/src/endpoints.rs:211-244 | With nothing tried and every endpoint out of cooldown the pick is the cursor's turn. |
| `Endpoints.AnyWindowTracksTheWeights` | core/crates/client-evm/src/endpoints.rs:211-217 | The turns of one cycle's worth of successive cursors, starting anywhere, give each endpoint exactly its weight. |
| `Endpoints.EndpointPool.NextUntried` | core/crates/client-evm/src/endpoints.rs:166-168 | After any interference a request that has not exhausted the pool gets an endpoint it has not tried. |
| `Endpoints.EndpointPool.New` | core/crates/client-evm/src/endpoints.rs:104-129 | No specs is a fault; otherwise one healthy endpoint per spec, a zero weight counting as one, and the balanced cycle over them. |
| `Endpoints.EndpointPool.Single` | core/crates/client-evm/src/endpoints.rs:133-142 | One endpoint whose turn it always is. |
| `Endpoints.EndpointPool.ReportSuccess` | core/crates/client-evm/src/endpoints.rs:252-257 | Restores one endpoint's health and touches no other. |
| `Endpoints.EndpointPool.ReportFailure` | core/crates/client-evm/src/endpoints.rs:259-265 | Counts the failure, saturating, and benches the endpoint for the backoff of the new count. |
| `Endpoints.BackoffDoublesUpToTheCap` | core/crates/client-evm/src/endpoints.rs:502-507 | The cooldown starts at the base and doubles with each failure until it meets the cap, which it keeps. |
| `Ledgers.NoIdAcceptedTwice` | core/crates/aa-client-core/src/pending.rs:84-93 | Over any run of ensures, accepts and ticks no id is accepted twice, by its own kind or another. |
| `Ledgers.AcceptedIdsIncrease` | core/crates/aa-client-core/src/pending.rs:84-93 | The ids accepted for one kind strictly increase, so a superseded response is never applied after its successor. |
| `Ledgers.IssuedIdsIncrease` | core/crates/aa-client-core/src/pending.rs:65-82 | Ids are minted in strictly increasing order. |
| `Ledgers.AcceptedWereIssued` | core/crates/aa-client-core/src/pending.rs:84-93 | Only an id issued for that kind, or already outstanding for it, is ever accepted. |
| `Ledgers.RetriesExactlyAtTheTtl` | core/crates/aa-client-core/src/pending.rs:25-28 | With no accept in between, two issues of a kind are at least the TTL apart; with no other issue in between, the next is issued if and only if the TTL has elapsed. |
| `Ledgers.KindsDoNotInterfere` | core/crates/aa-client-core/src/pending.rs:41-52 | Responses may answer any request ever issued for their kind, outstanding, superseded or answered before: deleting every other kind's requests and responses leaves a kind's issue and accept outcomes unchanged. |
| `Ledgers.OnlyTheLatestAnswerIsAccepted` | core/crates/aa-client-core/src/pending.rs:14-17 | After any run an answer is accepted if and only if it names the latest request of its kind and that one is still outstanding. |
| `Ledgers.ForgedIdsTellKindsApart` | core/crates/aa-client-core/src/pending.rs:30-33 | An id never issued for its own kind does interfere: the id counter is shared, so one that misses in company hits alone. |
| `Ledgers.ApplyKeepsValid` | core/crates/aa-client-core/src/pending.rs:35-52 | Every operation keeps the recorded ids minted, dispatched in the past and pairwise distinct. |
| `Ledgers.PendingFetches.EnsureInFlight` | core/crates/aa-client-core/src/pending.rs:65-82 | Issues and records a new id unless a fresh request of the kind is outstanding. |
| `Ledgers.PendingFetches.AcceptResponse` | core/crates/aa-client-core/src/pending.rs:84-93 | Frees the slot if and only if it holds exactly that id; a mismatch changes nothing. |
| `Ledgers.PendingFetches.AdvanceClock` | core/crates/aa-client-core/src/pending.rs:60-63 | Moves only the clock. |
| `Engines.TransitionIsSound` | core/crates/aa-client-core/src/state.rs:360-412 | From every sound state every event leads to a sound one, keeps a held catalog, and emits at most one fetch per kind, each recorded under its own new id, a slice asking for exactly the held catalog's pools, a push carrying non-empty covering reserves tagged with the route now in force. |
| `Engines.CatalogIsInstalledOnce` | core/crates/aa-client-core/src/state.rs:466-489 | Over any run from a sound state the catalog is installed at most once and never replaced. |
| `Engines.MetaIsSound` | core/crates/aa-client-core/src/state.rs:466-489 | An accepted catalog arrives only while none is held and always issues its slice fetch at once. |
| `Engines.SliceIsSound` | core/crates/aa-client-core/src/state.rs:491-497 | An accepted slice arrives only while a catalog is held: the arm without one is never taken. |
| `Engines.TickIsSound` | core/crates/aa-client-core/src/state.rs:435-464 | After every tick health and exactly one of catalog and slice are in flight and unexpired: the catalog until it is held, slices from then on. |
| `Engines.TickAsksForWhatIsMissing` | core/crates/aa-client-core/src/state.rs:435-464 | A tick issues exactly the wanted fetches that are not freshly outstanding, and otherwise only moves the clock. |
| `Engines.AppliedSlicesGetNewer` | core/crates/aa-client-core/src/state.rs:370-376 | Over any run, each applied slice was requested later than every slice applied before it. |
| `Engines.TransitionDrivesLedger` | core/crates/aa-client-core/src/state.rs:360-412 | Every event is a fixed short run of ledger operations, so the ledger's theorems hold of the engine. |
| `Engines.StartedIsSound` | core/crates/aa-client-core/src/state.rs:118-129 | The started state is sound when its route carries the session's chain. |
| `Engines.OptimizingExactlySinceASlice` | core/crates/aa-client-core/src/state.rs:491-543 | Over every run from a sound state the engine is optimizing if and only if a productive slice was applied since the route last changed, or it was optimizing already and the route never changed. |
| `Engines.StepIsRecordedExactlySinceASlice` | core/crates/aa-client-core/src/state.rs:545-566 | So after any run a step is recorded if and only if a productive slice was applied since the route last changed, and otherwise changes nothing. |
| `Engines.DisplayIsTheLatest` | core/crates/aa-client-core/src/state.rs:365-402 | Over any run the health on display is that of the last accepted report, and the error the last noticed, by an awaited fetch that failed, a failed effect or a slice that does not project or whose hash does not parse, unless a slice has driven the optimizer since. |
| `Engines.AppState.Reduce` | core/crates/aa-client-core/src/state.rs:360-402 | The mutating reducer computes the transition on values, for every event. |
| `Engines.AppState.Poll` | core/crates/aa-client-core/src/state.rs:440-464 | The tick handler, in place. |
| `Engines.AppState.InstallCatalog` | core/crates/aa-client-core/src/state.rs:470-489 | The catalog handler, in place. |
| `Engines.AppState.ApplySlice` | core/crates/aa-client-core/src/state.rs:492-543 | The slice handler, in place. |
| `Engines.AppState.RecordStep` | core/crates/aa-client-core/src/state.rs:547-566 | The step handler, in place. |
| `Engines.AppState.Retarget` | core/crates/aa-client-core/src/state.rs:416-433 | The retarget handler, in place. |
| `LatestSlots.RunIsCoherent` | core/crates/aa-client-core/src/latest_slot.rs:64-145 | Over all interleavings of sends, takes, sleeps, wake-ups and closes: the taken values are sends in sending order, none twice, and a receiver asleep without notification faces an empty open slot, so no wake-up is lost. |
| `LatestSlots.StepIsCoherent` | core/crates/aa-client-core/src/latest_slot.rs:76-145 | Each critical section keeps that, forgets nothing, and a take returns the newest send only if none returned it before. |
| `LatestSlots.PendingSurvivesClose` | core/crates/aa-client-core/src/latest_slot.rs:138-157 | A value pending at close is delivered, once; then every take reports closed and no send is accepted, for ever. |
| `LatestSlots.WaitTakeIsARun` | core/crates/aa-client-core/src/latest_slot.rs:93-117 | The blocking take is a run of such steps: it ends with the newest untaken value, or closed with nothing left, or asleep with nothing to take. |
| `LatestSlots.LatestSlot.Send` | core/crates/aa-client-core/src/latest_slot.rs:76-90 | Overwrites the pending value unless closed. |
| `LatestSlots.LatestSlot.TryTake` | core/crates/aa-client-core/src/latest_slot.rs:119-136 | Takes what is pending, reports empty or closed otherwise. |
| `LatestSlots.LatestSlot.WaitTake` | core/crates/aa-client-core/src/latest_slot.rs:93-117 | The waiting loop against anything the sending side does during each sleep. |
| `LatestSlots.LatestSlot.CloseSlot` | core/crates/aa-client-core/src/latest_slot.rs:138-145 | Closes without dropping the pending value. |
| `Optimizers.OptimizerWorker.RunWorker` | core/crates/aa-client-core/src/optimizer.rs:72-165 | The nested init and grind loops with their retarget hand-over compute the worker's run turn by turn, to its end. |
| `Optimizers.OptimizerWorker.InitialiseSession` | core/crates/aa-client-core/src/optimizer.rs:82-118 | The init loop: a handed-over snapshot first, route gaps skipped, other init errors reported and fatal. |
| `Optimizers.OptimizerWorker.GrindSession` | core/crates/aa-client-core/src/optimizer.rs:127-163 | The grind loop: same-route reserves stepped, an empty slot continued, another route's snapshot handed back, run errors fatal. |
| `Optimizers.OptimizerWorker.WaitTake` | core/crates/aa-client-core/src/optimizer.rs:88-95 | The blocking take of the init loop: the next snapshot, or the end of the run. |
| `ClientSystems.WorkerOnlyGrindsAdmittedReserves` | core/crates/aa-client-core/src/optimizer.rs:18-21 | In every run of engine, executor, mailbox and worker together: every init and fresh step uses reserves the engine admitted for exactly that session, which is the one initialised last; no snapshot is skipped as unreachable; and pushes are taken in sending order, none twice. |
| `ClientSystems.MoveIsSound` | core/crates/aa-client-core/src/runtime.rs:204-222 | The invariant behind it, kept by every event, every push executed in any order, every worker turn and every close. |
| `ClientSystems.TurnIsSound` | core/crates/aa-client-core/src/optimizer.rs:127-146 | A worker offered only admitted snapshots makes only admitted calls and skips none. |
| `ClientSystems.EverySnapshotTakenIsGiven` | core/crates/aa-client-core/src/optimizer.rs:82-163 | In every run each snapshot the worker takes is given to the runner, once and in that order, save one held to retarget with; so while it is grinding the reserves given last are those of the snapshot taken last. |
| `ClientSystems.EveryCallIsHeardOf` | core/crates/aa-client-core/src/optimizer.rs:97-163 | As long as the engine listens it hears of every call in order, of steps by their results, of failures by stage and message, and of nothing where a snapshot did not cover its route yet; a fatal failure is the last call, and nothing else but a closed, empty mailbox stops the worker. |
| `ClientSystems.InitialisesExactlyOnRetarget` | core/crates/aa-client-core/src/optimizer.rs:127-133 | With a runner and listener that never fail the worker initialises for a session if and only if it is not the one initialised last. |
| `ClientSystems.EngineFoldsItsEvents` | core/crates/aa-client-core/src/runtime.rs:151-154 | The engine of the whole client is always the fold of the events that reached it, the worker's among them in sending order, so the engine's theorems hold of it. |
| `ClientSystems.StepIsMisrecordedExactly` | core/crates/aa-client-core/src/state.rs:545-566 | In every run of the whole client, the worker's next step is recorded under another route than its own if and only if a productive slice was applied since the route last changed and the step's session is not the one in force. |
| `ClientSystems.SettledStepsBelong` | core/crates/aa-client-core/src/state.rs:524-526 | "they describe the same route" holds from any moment with nothing of another route astray, in outbox, mailbox, worker or event queue, for as long as the route is not changed. |
| `ClientSystems.MisrecordsExactlyWhatStrays` | core/crates/aa-client-core/src/state.rs:524-526 | And only then: with a runner and a listener that never fail, an optimizing client can come to misrecord a step without a further change of route if and only if something of another route is astray. |
| `ClientSystems.FirstRouteStepsBelong` | core/crates/aa-client-core/src/state.rs:524-526 | In particular until the first change of route. |
| `ClientSystems.OvertakenStepIsMisrecorded` | core/crates/aa-client-core/src/state.rs:524-526 | It fails after one: whenever both routes are covered, an eight-move run from the start leaves the old route's step about to be recorded as the new route's. |
| `ClientSystems.StepsAreMisrecorded` | core/crates/aa-client-core/src/state.rs:524-526 | A concrete client, pool and slice for which that run happens. |
| `ClientSystems.InOrderTheWorkerGetsTheFreshest` | core/crates/aa-client-core/src/optimizer.rs:10-14 | While pushes are executed in the order they were emitted, the worker takes snapshots in that order, is offered the newest sent, newer than anything taken, and with no push outstanding the newest of all. |
| `ClientSystems.OutOfOrderTheWorkerGetsAStaleOne` | core/crates/aa-client-core/src/optimizer.rs:10-14 | Executed the other way round, two outstanding pushes leave the older one in the mailbox, so "always grinds the freshest reserves" fails. |
| `Calendar.CivilIsTheWalk` | core/crates/aa-token-vetting/src/writer.rs:71-85 | The date computed for a day is the one reached by that many steps through the Gregorian calendar from 1970-01-01. |
| `Calendar.CivilFollowsTheCalendar` | core/crates/aa-token-vetting/src/writer.rs:71-85 | Day d + 1 is the calendar successor of day d, across month ends, leap days and 400-year eras. |
| `Calendar.CivilIsADate` | core/crates/aa-token-vetting/src/writer.rs:71-85 | Every day yields a valid Gregorian date. |
| `Calendar.YearBrackets` | core/crates/aa-token-vetting/src/writer.rs:77-80 | The year found brackets the day of the era, so no unsigned subtraction underflows. |
| `Calendar.DaysRoundTrip` | core/crates/aa-token-vetting/src/writer.rs:71-85 | Days to date and back is the identity. |
| `Calendar.DateRoundTrip` | core/crates/aa-token-vetting/src/writer.rs:71-85 | Date to days and back is the identity, from the epoch on. |
| `Timestamps.LaterSecondsAreLaterMoments` | core/crates/aa-token-vetting/src/writer.rs:59-69 | The timestamp is strictly increasing in (date, time) order. |
| `Timestamps.TimestampReadsBack` | core/crates/aa-token-vetting/src/writer.rs:59-69 | Before the year 10000 a timestamp has the separators of section 5.6 of RFC 3339 in their places, and its digits, read as a date and a time of day, give back exactly its second. |
| `Timestamps.TimestampsSortAsTime` | core/crates/aa-token-vetting/src/writer.rs:59-69 | Before the year 10000 the text sorts exactly as the instants do. |
| `Timestamps.FixedLengthBeforeFiveDigitYears` | core/crates/aa-token-vetting/src/writer.rs:59-69 | The text has RFC 3339's fixed length if and only if the instant is before the year 10000. |
| `Timestamps.SortingIsSafeExactlyBeforeFiveDigitYears` | core/crates/aa-token-vetting/src/writer.rs:59-69 | Text order is time order up to a limit if and only if the limit is before the year 10000. |
| `PoolLogs.DerivePoolState` | core/crates/client-evm/src/pool_log.rs:182-239 | The fold is defined if and only if the run is seeded and no unbounded running liquidity of any segment leaves 128 bits, and then it is the closed form. |
| `PoolLogs.DerivesFromLastAbsolute` | core/crates/client-evm/src/pool_log.rs:166-181 | With a last absolute event the run derives if and only if what came before stayed in range and every running liquidity after fits 128 bits, and then to the event's own price and tick, with the liquidity a swap states or none for an initialisation, plus in-range mints minus in-range burns. |
| `PoolLogs.DeltasDeriveExactly` | core/crates/client-evm/src/pool_log.rs:166-181 | Mints and burns alone derive nothing without a base; from a base they derive if and only if every running liquidity fits, and move the liquidity alone. |
| `PoolLogs.RunningSinceAnchor` | core/crates/client-evm/src/pool_log.rs:166-181 | The same after a base when no absolute event follows. |
| `PoolLogs.UnseededDeltasAreIrrelevant` | core/crates/client-evm/src/pool_log.rs:172-177 | With no base, deltas before the first absolute event are irrelevant. |
| `PoolLogs.FoldsInPieces` | core/crates/client-evm/src/pool_log.rs:163-165 | Folding in two pieces is folding at once: the intermediate state is all the second piece needs. |
| `PoolLogs.FoldStep` | core/crates/client-evm/src/pool_log.rs:186-236 | One fold step agrees with the closed form, checked arithmetic and all. |
| `Vetting.MergeCandidates` | core/crates/aa-token-vetting/src/main.rs:256-284 | One entry per token in first-occurrence order, each optional field the first present value in input order, trust the disjunction; index map and vector agree throughout. |
| `Vetting.MergedFieldsAreTheFirst` | core/crates/aa-token-vetting/src/main.rs:256-284 | Read off the input by position: a merged entry has a value in a field if and only if the first candidate of its token to have the field at all has that value, and is trusted if and only if some candidate of its token is. |
| `Vetting.MergedInFirstOccurrenceOrder` | core/crates/aa-token-vetting/src/main.rs:256-284 | The entries stand in the order in which their tokens first occur. |
| `Vetting.MergeInPieces` | core/crates/aa-token-vetting/src/main.rs:256-284 | Merging a merged list with more candidates is merging everything at once. |
| `Vetting.MergeIsIdempotent` | core/crates/aa-token-vetting/src/main.rs:256-284 | Merging a merged list, or any prefix of one, changes nothing. |
| `Vetting.FillIn` | core/crates/aa-token-vetting/src/main.rs:263-275 | One entry absorbs another: only missing fields are filled, trust is joined. |
| `Vetting.MarkTrustedListings` | core/crates/aa-token-vetting/src/main.rs:286-295 | Flags in place exactly the listed tokens. |
| `Vetting.MarkingCommutesWithMerging` | core/crates/aa-token-vetting/src/main.rs:165-166 | Marking before merging, as the program does, equals marking after. |
| `Catalogs.Parse` | core/crates/aa-client-core/src/lib.rs:113-179 | The loops over tokens and pools compute the entry-by-entry resolution. |
| `Catalogs.ReadDecimals` | core/crates/aa-client-core/src/lib.rs:114-126 | The last usable entry of a token decides its decimals. |
| `Catalogs.CatalogAccountsForEveryEntry` | core/crates/aa-client-core/src/lib.rs:110-113 | Requested plus excluded equals offered, duplicates included, and the request asks for exactly the pools held. |
| `Catalogs.OffersKeepTheirOrder` | core/crates/aa-client-core/src/lib.rs:128-179 | Every offer keeps its place: a usable one among the pools asked for, by its own key, any other among the excluded, by its own fault. |
| `Catalogs.UsableAsOffered` | core/crates/aa-client-core/src/lib.rs:128-171 | An offer is usable for a pool if and only if it identifies it, both tokens parse and both have usable decimals; and then it is held as offered: tokens in its order, its fee and spacing, each token's own decimals. |
| `Catalogs.ExcludedForItsFirstFault` | core/crates/aa-client-core/src/lib.rs:128-171 | An excluded offer names the first of pool, token0 and token1 that does not parse, with its text, and else the first of its tokens without usable decimals. |
| `Catalogs.DecimalsAreTheLast` | core/crates/aa-client-core/src/lib.rs:114-126 | A token's decimals are those of the last entry that names it with at most 36. |
| `Catalogs.ReservesComeFromTheWire` | core/crates/aa-client-core/src/lib.rs:219-249 | From the wire to the optimizer: a complete slice entry of a pool puts forward the reserves with the tokens of its last usable offer in that order, and the value of the reported price, tick and liquidity, the offered fee and each token's own decimals. |
| `Catalogs.PairsMirror` | core/crates/aa-client-core/src/lib.rs:254-258 | Of each pair the second is the first the other way round, tokens, amounts and limits. |
| `Catalogs.HeldWhenUsed` | core/crates/aa-client-core/src/lib.rs:128-172 | A pool is held if and only if some offered entry is usable for it. |
| `Catalogs.LastUsableEntryWins` | core/crates/aa-client-core/src/lib.rs:158-171 | What is held for a pool is its last usable entry. |
| `Catalogs.Project` | core/crates/aa-client-core/src/lib.rs:219-260 | The loop, the sort and the doubling compute the projection, first fault included. |
| `Catalogs.SortIsStable` | core/crates/aa-client-core/src/lib.rs:253-254 | Pools repeated or not, the sort puts them in order, keeps every reserve as often as it came and the reserves of one pool in their order. |
| `Catalogs.StableSortIsUnique` | core/crates/aa-client-core/src/lib.rs:253-254 | Which determines the result: any stable sort gives the same sequence. |
| `Catalogs.ProjectionIsExact` | core/crates/aa-client-core/src/lib.rs:208-218 | On distinct pools: sorted forward and inverse pairs, one for each complete and listed entry and none for any other. |
| `Catalogs.ProjectionIgnoresOrder` | core/crates/aa-client-core/src/lib.rs:214-218 | On distinct pools, two slices with the same entries in any order both fail or both succeed, with the same result. |
| `Catalogs.CollectsWhatContributes` | core/crates/aa-client-core/src/lib.rs:208-213 | A slice is projected if and only if none of its entries is at fault; incomplete and unlisted ones cost only themselves. |

## Left out

- ReplaySpec.WeightedAmount: a weight is the scaled integer the program rounds its 32-bit float to; the float clamp, rounding and `NaN` handling are not modelled.
- ReplayConservation.TokenTotalNeverGrows: stated for plans without bridges, because a bridge moves value between two tokens; `ReplayConservation.TotalsNeverGrow` is the law that covers bridges.
- ReplayCompare.OutputIsALowerBound: one way only; which plans that reuse a pool in later stages still meet the bound is not characterised.
- ReplayCompare.GateNeverOverstatesReuseInOneStage: one way only; of reuse across stages the swap there and back is characterised exactly, other shapes are not.
- ReplayNoGain.OnePoolNeverPays: stated for well-formed swaps, whose two tokens are the pool's; the program never checks a step's output token.
- Ledgers.PendingFetches.EnsureInFlight: ids and the tick clock are unbounded; the program's 64-bit counters wrap.
- Endpoints.EndpointPool.PickExcluding: the cursor is unbounded; the program's word-sized counter wraps.
- Endpoints.EndpointPool.WithFailover: the failure carries the trace as data; its rendering as one log line is not modelled, nor is recovery from a poisoned lock.
- SmoothOrder.SmoothWeightedOrder: running values are unbounded; the bound under which signed 64-bit values suffice is proved instead.
- LatestSlots.LatestSlot.Send: a poisoned lock is not modelled; nothing panics while the lock is held.
- Optimizers.OptimizerWorker.RunWorker: runs end, by a finite script of mailbox offers after which the mailbox is gone.
- Timestamps.LaterSecondsAreLaterMoments: seconds are unbounded.
- The construction of pools from price, tick and liquidity, and tick arithmetic.
- The kernel, block graph and bootstrap state machines, and plan building and the optimizer model itself.
- HTTP, WebSocket and subgraph transport, serialisation, caches, logging, views and command-line handling.
- Decoding of raw logs, and the whitelist file's layout.
