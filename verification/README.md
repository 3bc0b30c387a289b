# Formal model of the arbitrage solver

A cluster is a group of prediction-market questions tied by typed constraints: categorical outcome sets (exactly one
YES, or at most one), threshold ladders, and deterministic implication, exclusion and equivalence edges. Together they
allow a set of worlds Ω, and a basket of legs is an arbitrage only if it pays in every world of Ω. The solver never
works on that definition directly. It interprets the graph once, enumerates worlds or dualises the constraints into a
small LP, splits the graph into clusters, caches enumerations, skips solves it can prove useless, and rewrites the
graph to remove walls it no longer trusts. This project models those fast forms from the source, and proves how each
relates to Ω: for all clusters, all baskets and all runs, or with the exact condition under which it does.

## How it is organised

| theme | modules |
|---|---|
| entities, worlds, constraint meaning | Wrappers, Graph, Omega, Lp |
| the facet LP, weak and strong duality | FacetLp, LpBuilder, FacetExact, Elimination, FacetComplete, FacetDuality, FacetHull |
| the enumerator and the two engines | StateEnumerator, EnumerationExact, EnumerationOwner, EngineParity, EngineVerdict |
| cluster decomposition | ClusterBuilder, Decomposition |
| routing, repair, liveness, one tick, whole runs | Completeness, Routing, RepairExact, SettledSets, SolveCore, Liveness, SolvePrep, TickGates, SolveRuns, WakingCluster |
| skip filter, fingerprints, dedup | SkipFilter, SkipExact, Fingerprint, FingerprintLimits, DedupRuns |
| enumeration cache | EnumCache, KeyExact, Alike, SameOrder, EnumCacheSound, EnumCacheRuns, EnumFinalize, EnumCacheLimits |
| belts over the graph | BeltGraph, GraphRefs, DuplicateGate, DuplicateGateRun, GateExact, DuplicateGateCode, MutexComponents, ContainmentBelt, ContainmentBeltCode, BeltPipeline, BeltExact |
| quotes and legs | PriceCaches, QuoteFeeds, LegBuilder, LegPrices, LegSides |
| divergence sentinel | Detector, DetectorSpreads, DetectorRings, DetectorRingLimits, DetectorTraces, DetectorAlerts, DetectorCode |
| shared retry and limiter | Retry, Limiter |

Objects the source updates in place are classes (outcome sets, clusters, the graph, the caches, the latch, legs,
monitors, the detector, the limiter, the union-find forest); loops that build values are methods with invariants. Each
is proved equal to a specification function, and the theorems are about those functions and about runs of them.
`dafny verify dfyconfig.toml` checks everything.

## Main results

- Meaning. The interpretation equals coherence read straight off the graph (`OmegaIsCoherence`), and the 0/1 points of
  the facet polytope are exactly Ω (`IntegralPointsAreOmega`).
- Facet LP. It never accepts a false arbitrage (`FacetSoundness`). It accepts exactly the baskets that pay on the whole
  facet polytope, for every facet system (`AcceptsIffPaysOnPolytope`), so it agrees with the worlds on all baskets iff
  the polytope is integral (`ExactIffIntegral`); product-shaped clusters are, with duals built explicitly
  (`FacetExactness`), and three mutex edges are not (`TriangleIsOneWay`).
- Enumeration never loses a world, and without hard edges is exactly Ω iff every set is compatible with the sets that
  overwrite its slots (`EnumerationCoversOmega`, `EnumerationExactIff`, with edges `EnumerationExactWithEdges`); the
  projected count bounds |Ω| (`WorldCountBound`).
- The two engines give the same verdict on all baskets iff the enumeration is exactly Ω and the polytope is integral, on
  every enumerated cluster (`EnginesAgreeIff`).
- Decisions, exactly. When a cluster is enumerated, repaired, routed to its facets or refused, and which claims a repair
  lowers (`EnumeratedIff`, `RepairExactly`, `RelaxedExactly`); what a tick poses and when it is too quiet (`QuietIff`,
  `PosedIff`, `PosedForm`); which sides of a market can be bought and that a crossed book makes no arbitrage (`SidesIff`,
  `BothSidesCostMore`); when two clusters share a key (`KeysEqualIff`); what the skip filter's bound is worth
  (`BoundAttained`).
- Decomposition. Ω is the product over clusters and no arbitrage is lost (`OmegaIsProduct`, `NoArbLost`).
- Runs. Liveness demotion, the skip filter, dedup and the enumeration cache agree with working from scratch over every
  run (`TickStatesAreOmega`, `TickStatesExactIff`, `SkipSoundOverRuns`, `RepeatIsOldProblem`, `IncrementalIsFull`).
- Belts. The load pipeline only removes walls (`LoadKeepsWorlds`, `LoadManufacturesNothing`,
  `LoadGuaranteesAgreeing`) and loses no market (`LoadKeepsMarkets`, `GateKeepsMarketsIff`), the containment belt is
  idempotent (`BeltIdempotent`) and nothing flaps back (`NoFlapBack`, `GoneForGood`). What each step takes out,
  and what a collapse keeps, is exact (`CollapsedWorldExtends`, `DropExactly`, `BundledIff`, `BeltedSetIff`, `BeltedEdgeIff`).
- Sentinel and limiter. Exactly when bounded rings lose nothing (`RingsLoseNothing`, `RingsEnoughIff`, on the shipped
  configuration `ShippedLimits`), alerts fire exactly when they should and on pairs that really
  were apart (`AlertIff`, `AlertWasApart`); permits go to callers in order, none idle and none over the cap
  (`GrantsExactly`), and no waiter starves (`EveryWaiterServed`).

## Where the code and its promises part

Where a promise fails, a lemma gives the input and a theorem says when it holds.

- facet-lp.ts, line 40, says both engines describe the same polytope. On overlapping sets they may not: the enumerator
  lets a later set overwrite a shared slot and emits worlds outside Ω, so the facet LP can be the cheaper one, and
  rightly (`OverlapEnginesDiffer`). They agree on all baskets iff no such world is emitted and the polytope is integral
  (`EnginesAgreeIff`, `EnginesAgreeIffCompatible`).
- enum-cache.ts, lines 1-4, says the key encodes exactly what the interpretation consumes. It leaves out set ids, by
  which a hit replays demotions, and set order, on which the enumeration of overlapping sets depends
  (`NewIdMissesDemotion`, `OrderChangesStates`). A hit is right when the sets come in the same order, as loader.ts, line
  196, sees to under stable ids (`ListedAlike`), or are compatible with their slots' owners (`ReplayAgrees`); without
  hard edges a reordering of such a cluster keeps its worlds iff it stays one (`ReorderedIff`). A hit restores the sets
  iff the cached ids still name the same content (`ReplaySetsIff`).
- solve-core.ts, lines 165-166, takes pins as the sign of a contradictory Ω. An Ω that is empty at load has no pins;
  when a slot of its set loses its quote, the tick's demotion can give it a single, pinned state that is solved under
  the hybrid engine (`EmptyOmegaWakesPinned`, `PinnedProblemIsPosed`). A tick pins exactly when its Ω has worlds that all
  agree (`PinsIff`); on clusters with states at load this cannot happen (`NeverPinnedLater`).
- cluster-fingerprint.ts, lines 4-12, prints neither `lastUpdate` nor `agedOut`. Equal prints pose the same problem iff
  all quotes carry positive stamps (`StampsIff`). As lp-builder.ts reads the cache again at its own clock, they do so
  for every feed iff no book can age out in between that another outlives (`LateLegsIff`).
- detector.ts: the rings agree with the full history on all runs iff both thresholds are at most 64 and mids are thinned
  or the burst window is open (`RingsEnoughIff`, with the run that differs in `SomeRunTellsApart`).
- lp-builder.ts: the top of the book has no guard against a YES bid of 1 or more, which the ladder path drops; exactly
  such books yield a free NO leg (`FreeLegIff`, `BidOfOneIsFree`).
- retry.ts, lines 28-29, promises one shared budget when the rate-limit budget is 0. The loop then stops at its first
  retryable failure of any kind (`AttemptsBounded`).
- price-cache.ts, lines 134-135: `markStale` leaves scoping to its caller and itself stales the books of every platform
  (`MarkStale`).

## Model

| member | source | states |
|---|---|---|
| Omega.InterpretCluster | services/arb-solver/src/solver/omega-constraints.ts:49-115 | the loops build exactly the interpretation used everywhere: live slots only, one-slot categorical sets and unknown set types free, Σ=1 only for a set with every slot live and quoted, soft/self/dangling/unknown edges skipped |
| Omega.OmegaIsCoherence | services/arb-solver/src/solver/omega-constraints.ts:49-115 | an assignment satisfies the interpreted constraints iff the graph itself forbids nothing in it: at most one YES per categorical set (exactly one when strictly exhaustive), YES upwards along a ladder, and the three deterministic edge kinds, stated on the raw sets and edges |
| Omega.InterpretCovers | services/arb-solver/src/solver/omega-constraints.ts:57-113 | covered and free questions partition the cluster's questions |
| Omega.ChainIsMonotone | services/arb-solver/src/solver/omega-constraints.ts:75-78 | the rung-by-rung chain constraint equals the pairwise implication order |
| FacetLp.ConstraintsToFacets | services/arb-solver/src/solver/omega-constraints.ts:182-210 | the loop emits exactly the facet list, one facet per set and edge and one per rung step |
| FacetLp.IntegralPointsAreOmega | services/arb-solver/src/solver/omega-constraints.ts:180-210 | the 0/1 points of the facet polytope are exactly the worlds of Ω, overlapping sets and any unquoted questions included |
| FacetLp.BuildFacetRows | services/arb-solver/src/solver/facet-lp.ts:81-148 | the rendering loops produce the rows of the specification: bound dual, signed legs and signed facet duals per question, and the coverage row with its right-hand side |
| FacetLp.RowsWeighted | services/arb-solver/src/solver/facet-lp.ts:97-117 | summing the question rows weighted by any point gives bound duals plus leg gains plus facet duals times facet values, i.e. every term sits in the right row with the right sign |
| FacetLp.WeakDuality | services/arb-solver/src/solver/facet-lp.ts:81-148 | any feasible point of the facet LP pays at least the target (1, or G) at every point of the facet polytope |
| LpBuilder.BuildWorldRows | services/arb-solver/src/solver/lp-builder.ts:269-300 | the nested loops emit exactly one row per world and its right-hand side |
| LpBuilder.RowMeans | services/arb-solver/src/solver/lp-builder.ts:275-300 | a world row holds iff the basket pays the target in that world |
| LpBuilder.RowAsks | services/arb-solver/src/solver/lp-builder.ts:269-300 | a world row asks for one share resolved in the holder's favour in that world, or for as many as the guaranteed payout variable |
| LpBuilder.FacetSoundness | services/arb-solver/src/solver/facet-lp.ts:1-7 | never a false arb: for every cluster shape, a basket the facet LP accepts satisfies the row of every world of Ω |
| FacetExact.StrongDuality | services/arb-solver/src/solver/facet-lp.ts:97-135 | on disjoint sets, disjoint ladders and free questions, duals are constructed explicitly (worst slot for one-hot sets, a carry recurrence for ladders) for every basket that pays in every world |
| FacetExact.CarryAttained | services/arb-solver/src/solver/facet-lp.ts:97-135 | the ladder's carry recurrence equals the loss of some run of rungs ending at the current one |
| FacetExact.CarryIsWorst | services/arb-solver/src/solver/facet-lp.ts:97-135 | and no such run loses more |
| FacetExact.FacetExactness | services/arb-solver/src/solver/facet-lp.ts:1-7 | on product-shaped clusters the facet LP and the world rows accept exactly the same baskets |
| FacetExact.TriangleIsOneWay | services/arb-solver/src/solver/facet-lp.ts:1-7 | three pairwise mutex edges: a basket that every world row accepts and the facet LP rejects |
| FacetComplete.Columns | services/arb-solver/src/solver/facet-lp.ts:97-117 | every non-negative combination of the polytope's inequalities has, per question, exactly the coefficient of the facet LP's row for that question |
| FacetComplete.Totals | services/arb-solver/src/solver/facet-lp.ts:119-131 | and its right-hand side is the coverage row's dual part |
| FacetDuality.AcceptsIffPaysOnPolytope | services/arb-solver/src/solver/facet-lp.ts:81-148 | strong duality with no assumption on sets, ladders or edges: the facet LP accepts a basket iff it pays the target at every point of the facet polytope (duals found by elimination) |
| FacetHull.ExactIffIntegral | services/arb-solver/src/solver/facet-lp.ts:6-7 | the exact condition for exactness: facet LP and world rows of Ω accept the same baskets for all legs iff every point of the polytope is a mixture of worlds |
| FacetHull.ProductShapedIntegral | services/arb-solver/src/solver/facet-lp.ts:6-7 | product-shaped clusters meet that condition |
| EngineVerdict.EnginesAgreeIff | services/arb-solver/src/solver/facet-lp.ts:1-7 | on every enumerated cluster, overlapping sets and hard edges included, the two engines give the same verdict on all baskets iff the enumerated states are exactly Ω and the polytope is integral |
| EngineVerdict.EnginesAgreeIffCompatible | services/arb-solver/src/solver/facet-lp.ts:40 | without hard edges: the engines agree on all baskets iff every set is compatible with the owners of its slots and the polytope is integral |
| StateEnumerator.EnumerateStatesMeta | services/arb-solver/src/solver/state-enumerator.ts:25-77 | the code's enumeration equals the specified product filtered by the edges, with the same drop and empty outcomes |
| StateEnumerator.CategoricalStates | services/arb-solver/src/solver/state-enumerator.ts:86-101 | one state per slot, plus all-NO unless exhaustive |
| StateEnumerator.ThresholdStates | services/arb-solver/src/solver/state-enumerator.ts:104-116 | the k+1 cutoff states, easiest rungs YES first |
| StateEnumerator.CartesianProduct | services/arb-solver/src/solver/state-enumerator.ts:179-200 | the whole product while it stays within the cap, otherwise the first cap + 1 states of the first partial product over it; later groups overwrite shared slots |
| StateEnumerator.ProjectedStateCount | services/arb-solver/src/solver/omega-constraints.ts:118-127 | the loop computes the projected count, infinite past 30 free questions |
| StateEnumerator.ProjectedIsProduct | services/arb-solver/src/solver/omega-constraints.ts:117-127 | the projected count is the exact size of the full product |
| StateEnumerator.PreflightFits | services/arb-solver/src/solver/state-enumerator.ts:59-75 | a cluster that passes the pre-flight test never reaches the product's bail-out or the free-state cap |
| EnumerationExact.EnumeratedIff | services/arb-solver/src/solver/state-enumerator.ts:25-77 | a cluster is enumerated iff it has questions, at most 30 free ones with no more than the cap of combinations, and no more than the cap of merged candidates in all; a dropped one reports that number and whether its free questions alone were too many |
| EnumerationExact.EnumerationCoversOmega | services/arb-solver/src/solver/state-enumerator.ts:25-77 | every world of Ω is among the enumerated states, whatever sets overlap |
| EnumerationExact.WorldCountBound | services/arb-solver/src/solver/omega-constraints.ts:117-127 | any list of distinct worlds of Ω is no longer than the projected count, overlapping sets included |
| EnumerationOwner.ProductSoundIff | services/arb-solver/src/solver/state-enumerator.ts:179-200 | the merged states satisfy all sets iff every set is compatible with the later sets that overwrite its slots |
| EnumerationOwner.EnumerationExactIff | services/arb-solver/src/solver/state-enumerator.ts:25-77 | without hard edges the enumerated states are exactly Ω iff all sets are compatible with their slots' owners |
| EnumerationOwner.EnumerationExactWithEdges | services/arb-solver/src/solver/state-enumerator.ts:25-77 | with hard edges: the enumerated states are exactly Ω iff no merged candidate passes the edges and breaks a set |
| EnumerationOwner.CompatibleIsExact | services/arb-solver/src/solver/state-enumerator.ts:25-77 | with hard edges too, compatible owners make the enumeration exactly Ω |
| EngineParity.EnginesAgree | services/arb-solver/src/solver/facet-lp.ts:1-7 | on an enumerated product-shaped cluster both engines accept the same baskets |
| EngineParity.WorldRowsSound | services/arb-solver/src/solver/lp-builder.ts:269-300 | for every cluster the enumerated rows never accept a basket that fails in a world of Ω |
| EngineParity.OverlapEnginesDiffer | services/arb-solver/src/solver/facet-lp.ts:40 | on two overlapping sets the engines differ: the enumerator adds worlds outside Ω and rejects a basket the facet LP rightly accepts |
| EngineParity.WorldCountExact | services/arb-solver/src/solver/omega-constraints.ts:117-127 | with disjoint sets and no hard edge the projected count is exactly the number of worlds |
| ClusterBuilder.BuildAdjacency | services/arb-solver/src/graph/cluster-builder.ts:96-138 | the adjacency the loops build from edges, suspect pairs and live set slots |
| ClusterBuilder.AdjacencyMeans | services/arb-solver/src/graph/cluster-builder.ts:96-138 | it is symmetric, and a set of nodes is closed under it iff it cuts nothing the graph relates |
| ClusterBuilder.FindComponents | services/arb-solver/src/graph/cluster-builder.ts:147-196 | breadth-first search numbers every node, each component closed, connected from its start question and disjoint from the others |
| ClusterBuilder.BucketEdges | services/arb-solver/src/graph/cluster-builder.ts:198-206 | one pass over the edges equals filtering them once per component |
| ClusterBuilder.BucketSets | services/arb-solver/src/graph/cluster-builder.ts:208-229 | one pass over the sets attaches each to every component its slots touch, once |
| ClusterBuilder.BucketPairs | services/arb-solver/src/graph/cluster-builder.ts:231-239 | one pass over the suspect pairs equals filtering them once per component |
| ClusterBuilder.BuildClusters | services/arb-solver/src/graph/cluster-builder.ts:25-277 | the clusters are the decomposition of the graph, each with its component's questions, edges, sets and pairs, numbered in discovery order: a cluster opens with the first question outside all earlier ones |
| Decomposition.ExactlyOneCluster | services/arb-solver/src/graph/cluster-builder.ts:208-229 | a set touches at most one component; a set with a live slot and an edge with a live end land in exactly that one |
| Decomposition.PairInOneCluster | services/arb-solver/src/graph/cluster-builder.ts:231-239 | a suspect pair of two questions is listed in exactly the cluster that holds both |
| Decomposition.OmegaIsProduct | services/arb-solver/src/graph/cluster-builder.ts:96-264 | an assignment satisfies the whole graph's constraints iff its restriction to every cluster satisfies that cluster's |
| Decomposition.WorstSplits | services/arb-solver/src/graph/cluster-builder.ts:96-264 | a spanning basket's worst payout is the sum of its parts' worst payouts |
| Decomposition.NoArbLost | services/arb-solver/src/graph/cluster-builder.ts:96-264 | if any basket over the whole graph has a guaranteed profit, its part on some cluster has one |
| Decomposition.BasketMeetsRow | services/arb-solver/src/solver/lp-builder.ts:269-300 | the solver's columns meet the row of a world exactly when, as legs of a basket, they pay one share there, or as many as the guaranteed payout bought; without that column they cost the objective |
| SkipFilter.ColStatesOf | services/arb-solver/src/solver/skip-filter.ts:25-34 | the states each column pays in, row by row |
| SkipFilter.BuildCert | services/arb-solver/src/solver/skip-filter.ts:55-71 | a certificate exactly for an optimal min-cost world-row solve with matching duals, holding key, dual sum, duals and columns |
| SkipFilter.DualLowerBound | services/arb-solver/src/solver/skip-filter.ts:74-91 | the bound is the dual sum minus every capped column's penalty; invalid iff some violated column is uncapped |
| SkipExact.NoBoundIff | services/arb-solver/src/solver/skip-filter.ts:74-91 | a bound is missing iff some uncapped column that pays in a row costs less, beyond the tolerance, than the stored duals of its rows |
| SkipExact.BoundAttained | services/arb-solver/src/solver/skip-filter.ts:74-91 | the bound is the cost of the basket that buys all there is of the columns that undercut the duals, plus what it falls short of each row at that row's dual: nothing better can be read off the duals |
| SkipExact.SkipsIff | services/arb-solver/src/solver/skip-filter.ts:110-124 | a tick is passed over iff it is a min-cost problem of the certificate's shape, no uncapped column undercuts, and that basket's value is at least theta and the margin |
| SkipFilter.DecideSkip | services/arb-solver/src/solver/skip-filter.ts:110-124 | skips exactly under its six conditions, and each refusal reason is given exactly in its case |
| SkipFilter.SkipSound | services/arb-solver/src/solver/skip-filter.ts:73-124 | with non-negative stored duals, and no negative cost on a column that pays in no row, a skip means every capped basket meeting this tick's rows costs at least theta, up to EPS times the shares in columns whose violation is tolerated |
| Completeness.CheckOmegaCompleteness | services/arb-solver/src/solver/omega-constraints.ts:140-178 | the loops compute the specified report: incomplete questions and the Σ=1 sets on or one edge from them |
| Completeness.ComputePinnedQuestions | services/arb-solver/src/solver/state-enumerator.ts:159-177 | the pinned questions are exactly those constant over the states |
| Completeness.CompleteMeans | services/arb-solver/src/solver/omega-constraints.ts:135-178 | over states that assign exactly the questions, complete iff every question is YES in one state and NO in another |
| RepairExact.RepairExactly | services/arb-solver/src/solve-core.ts:146-279 | a cluster with states is kept iff it shows every question both ways once exactly its blamed sets are lowered, and then has those sets, their enumeration and their ids; blamed are the categorical Σ=1 sets of at least two slots, all live, with a slot that the first enumeration never shows both ways or that a hard edge joins to such a question. Otherwise it is degenerate and unchanged |
| RepairExact.RelaxedExactly | services/arb-solver/src/solve-core.ts:185-219 | a cluster without states goes to its facets iff it was dropped, the route is on, and it is within both caps; it is then degenerate iff the oracle is there and refuses its facets |
| Routing.DemotionKeepsStates | services/arb-solver/src/solve-core.ts:224-279 | dropping exhaustivity claims keeps every enumerated state, overlapping sets included |
| Routing.RepairTheorem | services/arb-solver/src/solve-core.ts:146-279 | a cluster routed non-degenerate with states shows every question both ways, has the enumeration of its possibly demoted sets, which contains its former states and Ω, and differs from the input only by lowered flags on the reported ids |
| SettledSets.RepairSettled | services/arb-solver/src/solve-core.ts:224-279 | a repair keeps sets compatible with their slots' owners, for two Σ=1 sets over the same slots are lowered together |
| SettledSets.RoutedIsOmega | services/arb-solver/src/solve-core.ts:146-279 | on clusters with such sets, overlapping or not and hard edges included, the states a route keeps are exactly the worlds of the sets it leaves, repaired or not |
| SettledSets.RoutedIsOmegaIff | services/arb-solver/src/solve-core.ts:146-279 | without hard edges the states a route keeps are exactly those worlds iff the sets it leaves are compatible with their slots' owners |
| SolveCore.DemoteCopy | services/arb-solver/src/solve-core.ts:243-248 | demotion makes a fresh copy and changes no existing set object |
| SolveCore.RepairOmegaCompleteness | services/arb-solver/src/solve-core.ts:227-279 | in place: adopts a complete repair, marks an unrepairable cluster degenerate, leaves pins and route alone; new set objects are fresh copies |
| SolveCore.FacetRoute | services/arb-solver/src/solve-core.ts:185-219 | the facet-only route: relaxed iff within both caps, degenerate iff the feasibility check is there and refuses |
| SolveCore.EnumerateAndRouteCluster | services/arb-solver/src/solve-core.ts:146-222 | the cluster's fields end as the value-level decision; nothing but the cluster changes, so shared set objects keep their fields |
| Liveness.MaskNames | services/arb-solver/src/solve-core.ts:386-394 | with distinct ids the mask names exactly the dead Σ=1 sets |
| Liveness.DemotionIsUnquoted | services/arb-solver/src/solver/facet-lp.ts:60-61 | demoting the dead sets and interpreting with the unquoted predicate give the same constraints |
| Liveness.MaskedStatesAreOmega | services/arb-solver/src/solve-core.ts:376-412 | with distinct ids and sets compatible with their slots' owners, overlapping or not and hard edges included, the tick's states are exactly the worlds of Ω with this tick's unquoted questions, also the 0/1 points of the facets built with them |
| Liveness.MaskedStatesExactWithEdges | services/arb-solver/src/solve-core.ts:376-412 | with hard edges the tick's states are exactly this tick's Ω iff no merged candidate passes the edges and breaks a set |
| Liveness.MaskedStatesExactIff | services/arb-solver/src/solve-core.ts:376-412 | without hard edges the tick's states are exactly this tick's Ω iff its sets are so compatible |
| SolvePrep.SolveState.RefreshCert | services/arb-solver/src/solve-core.ts:478-487 | an untrusted result removes the certificate, a trusted one replaces it, others stay |
| SolvePrep.SolveState.ApplyLivenessDemotion | services/arb-solver/src/solve-core.ts:378-412 | re-enumerates exactly when the mask changed, records it, and never touches a relaxed cluster |
| SolvePrep.SolveState.LivenessStep | services/arb-solver/src/solve-core.ts:539-542 | a transition drops the certificate and the fingerprint with it |
| SolvePrep.SolveState.SeenBefore | services/arb-solver/src/solve-core.ts:546-550 | skips on a repeated fingerprint, otherwise stores it |
| SolvePrep.SolveState.PrepareClusterForSolve | services/arb-solver/src/solve-core.ts:504-563 | caches, states and verdict after a tick are those of the step function, on every path and in the code's order |
| SolvePrep.SettleInStep | services/arb-solver/src/solve-core.ts:378-412 | whatever the mask history, the tick leaves the states its dead sets call for |
| TickGates.RefusedTick | services/arb-solver/src/solve-core.ts:515-519 | a tick of a degenerate cluster, or of a relaxed one under the row engine, changes nothing |
| TickGates.QuietIff | services/arb-solver/src/solve-core.ts:528-537 | any other tick stops for lack of quotes iff the cluster has questions and (questions − unquoted) < floor × questions; it then reports the quoted share and changes nothing |
| TickGates.QuotedInFull | services/arb-solver/src/solve-core.ts:528-537 | with every question quoted and a floor of at most 1 no tick is too quiet |
| TickGates.MoreQuotes | services/arb-solver/src/solve-core.ts:528-537 | quoting more questions never turns a tick that was not too quiet into one that is, whatever the caches hold |
| TickGates.TransitionForgets | services/arb-solver/src/solve-core.ts:539-544 | when the dead Σ=1 sets change the tick records them and forgets this cluster's certificate and no other; otherwise states, masks and certificates stay |
| TickGates.FreshTickPoses | services/arb-solver/src/solve-core.ts:518-562 | with nothing cached under its id and its mask in step, a tick with enough quotes poses a problem iff some leg is usable and there are states or an engine that needs none |
| TickGates.PosedIff | services/arb-solver/src/solve-core.ts:518-562 | a tick past those gates reaches a problem iff some leg is usable, there are states or an engine that needs none, no transition just emptied it and it does not repeat the recorded fingerprint; what it records; and only a certificate no transition took can pass it over |
| TickGates.MaskIff | services/arb-solver/src/solve-core.ts:386-394 | the recorded mask holds the id of every categorical Σ=1 set with an unquoted slot, and no other, whatever the ids |
| TickGates.PosedForm | services/arb-solver/src/solve-core.ts:423-439 | a posed problem has the tick's legs as columns and, under the facet engine or on a relaxed or stateless cluster under the hybrid one, the facets of the cluster; otherwise one row per state |
| SolveRuns.EveryRunGood | services/arb-solver/src/solve-core.ts:504-563 | on every run of reloads, ticks and solves: states match masks, solvable clusters showed both values at load, certificates are usable |
| SolveRuns.TickStatesAreOmega | services/arb-solver/src/solve-core.ts:376-412 | after every tick past the gates, an enumerated cluster's mask names its dead sets and its states are those the mask calls for, exactly this tick's Ω whenever its sets are compatible with their slots' owners, though it re-enumerates only on transitions |
| SolveRuns.TickStatesExactIff | services/arb-solver/src/solve-core.ts:376-412 | over every run: a tick's states are exactly the tick's Ω iff no merged candidate passes the edges and breaks a set, and without hard edges iff its sets are compatible with their slots' owners |
| SolveRuns.SkipSoundOverRuns | services/arb-solver/src/solve-core.ts:478-563 | over runs with non-negative duals: when a tick skips on a certificate, every capped basket paying in all this tick's worlds costs at least theta, up to the tolerated EPS |
| SolveRuns.NeverPinnedLater | services/arb-solver/src/solve-core.ts:165-172 | no question of a cluster that had states at load is pinned on a later tick |
| SolveRuns.TickShowsBoth | services/arb-solver/src/solve-core.ts:376-412 | a posed world-row problem of such a cluster shows every question both ways |
| WakingCluster.EmptyOmegaWakesPinned | services/arb-solver/src/solve-core.ts:160-172 | a cluster whose Ω is empty at load is not degenerate, and an unquoted slot later gives it one state that pins everything |
| WakingCluster.PinsIff | services/arb-solver/src/solve-core.ts:160-172 | a tick leaves states that pin a question iff its Ω has a world and all its worlds give that question the same value |
| WakingCluster.PinnedProblemIsPosed | services/arb-solver/src/solve-core.ts:518-562 | under the hybrid engine that pinned state's rows are posed to the solver |
| EnumCache.StructureKeyOf | services/arb-solver/src/graph/enum-cache.ts:39-61 | the code's key: members, set contents without ids, hard non-self edges with symmetric ends ordered |
| KeyExact.KeysEqualIff | services/arb-solver/src/graph/enum-cache.ts:38-61 | two clusters share a key iff they agree in configuration and questions and have, as often each, the same set contents and the same hard edges between different questions, symmetric ones either way round; ids, order and soft edges play no part |
| SameOrder.AlignedState | services/arb-solver/src/solver/state-enumerator.ts:25-77 | equal keys and the same set contents in the same order enumerate the same worlds, overlapping sets included |
| SameOrder.ListedAlike | services/arb-solver/src/graph/loader.ts:196 | sets listed by id under stable ids, several of one content included, come in the same order on every load |
| EnumCacheSound.DecidedAlike | services/arb-solver/src/graph/enum-cache.ts:1-4 | clusters with equal keys and configuration are decided alike, same worlds, pins and flags and twin set contents: when their sets come in the same order, overlapping in any way, or in any order when sets are compatible with their slots' owners on both sides |
| EnumCacheSound.ReorderedIff | services/arb-solver/src/graph/enum-cache.ts:42-47 | without hard edges, once the cached cluster's sets are compatible with their slots' owners, a cluster with the same key enumerates the same worlds iff its sets are too |
| EnumCacheSound.ReplayAgrees | services/arb-solver/src/solve-core.ts:308-326 | a hit on such a cluster gives the worlds, pins and flags of a fresh decision, whatever happened to set ids |
| EnumCacheSound.ReplaySetsIff | services/arb-solver/src/solve-core.ts:314-323 | a hit leaves the sets of a fresh decision iff the cached ids still name sets of the same content |
| EnumCacheRuns.IncrementalIsFull | services/arb-solver/src/solve-core.ts:284-354 | over every run of loads, configuration changes and sweeps, the incremental build gives every cluster the worlds, pins and flags of the full build, and its sets under stable ids; sets may overlap in any way when ids are stable and sets listed by id, and otherwise ids and order may do anything while sets are compatible with their slots' owners |
| EnumCacheRuns.NextLoadHits | services/arb-solver/src/solve-core.ts:304-340 | a cluster that comes back on the next load with its key is not decided again: its decision, cached unless it was a relaxed one without the oracle, survives the sweep and is replayed |
| EnumFinalize.Cache.Sweep | services/arb-solver/src/graph/enum-cache.ts:87-97 | keeps exactly the entries whose key was seen, and counts the rest |
| EnumFinalize.ReplayHit | services/arb-solver/src/solve-core.ts:309-326 | replays a hit onto a fresh cluster object with demoted copies |
| EnumFinalize.BuildCluster | services/arb-solver/src/solve-core.ts:304-340 | serves a hit or decides and stores, never caching a relaxed cluster without the oracle |
| EnumFinalize.FinalizeIncremental | services/arb-solver/src/solve-core.ts:284-354 | the whole pass leaves every cluster as the value-level build decides it and the cache swept |
| EnumCacheLimits.NewIdMissesDemotion | services/arb-solver/src/graph/enum-cache.ts:42-47 | a set reloaded under a new id: the hit replays the old id and leaves the set exhaustive over states that have it demoted |
| EnumCacheLimits.OrderChangesStates | services/arb-solver/src/graph/enum-cache.ts:42-47 | two overlapping sets in the other order: same key, different enumerated worlds |
| BeltGraph.AdmitsIsOmega | services/arb-solver/src/solver/omega-constraints.ts:49-115 | the worlds a graph admits are exactly the Ω of the whole graph |
| BeltGraph.NothingManufactured | services/arb-solver/src/solve-core.ts:72-77 | if a step maps every world to a world, a basket guaranteed after it was guaranteed before |
| BeltGraph.FilterOutcomeSetSlotsToLive | services/arb-solver/src/graph/loader.ts:304-344 | the loop keeps live slots, demotes a Σ=1 set that lost one, drops a set that lost all |
| BeltGraph.FilterEdgesToLiveEndpoints | services/arb-solver/src/graph/loader.ts:293-300 | exactly the edges with both ends live, in order |
| BeltExact.FilteredIff | services/arb-solver/src/graph/loader.ts:304-344 | a set is in the filtered graph iff it is a stored one with a live slot, or without slots, cut down to its live slots in order and still Σ=1 iff it was and lost none |
| BeltGraph.FiltersEnlarge | services/arb-solver/src/graph/loader.ts:293-344 | every world of the stored graph, restricted to live questions, is a world of the filtered one; a ladder that loses a middle rung keeps its order |
| DuplicateGate.DropEnlarges | services/arb-solver/src/graph/duplicate-gate.ts:247-271 | dropping a twin and demoting keeps every world |
| DuplicateGate.CollapseKeepsAgreeing | services/arb-solver/src/graph/duplicate-gate.ts:274-297 | every world in which the twins agree restricts to a world of the collapsed graph |
| DuplicateGate.CollapseKeepsMarkets | services/arb-solver/src/graph/duplicate-gate.ts:274-297 | collapsing two different questions keeps the set of markets |
| GateExact.CollapsedEdge | services/arb-solver/src/graph/duplicate-gate.ts:288-296 | an edge is in the collapsed graph iff it is the image of an edge whose two ends stay different |
| GateExact.CollapsedSlots | services/arb-solver/src/graph/duplicate-gate.ts:279-287 | after a collapse a set lists a once in the twins' stead and every other slot once |
| GateExact.CollapsedMarkets | services/arb-solver/src/graph/duplicate-gate.ts:274-278 | a question owns what it owned, and a also what b owned |
| GateExact.CollapsedWorldExtends | services/arb-solver/src/graph/duplicate-gate.ts:274-297 | nothing else is lost: any world of the collapsed graph, with b resolving as a, respects every edge of the graph as it was but an exclusion of the twins by each other, every set that does not list both, and all a categorical set that lists both says about its other slots and a |
| GateExact.DropExactly | services/arb-solver/src/graph/duplicate-gate.ts:247-271 | Arm D touches exactly the categorical sets that list both twins, takes out of them the twin in fewer slots of the graph, or in a tie the one listed later, and lowers their claim |
| GateExact.OccurrencesAre | services/arb-solver/src/graph/duplicate-gate.ts:128-131 | the count that decides is the number of slots, over all sets, that list the question |
| GateExact.UnionIs | services/arb-solver/src/graph/duplicate-gate.ts:176-183 | the union of pair lists has one of each unordered pair and nothing new |
| GateExact.PairsExactly | services/arb-solver/src/graph/duplicate-gate.ts:152-186 | with partial proofs only, the gated graph's pairs are exactly those it had and the classified ones |
| GateExact.QuestionsLeft | services/arb-solver/src/graph/duplicate-gate.ts:147-170 | part-way through the hits a question is gone exactly when a full proof, both of whose questions were still there, folded it into its twin |
| GateExact.PairsFromHits | services/arb-solver/src/graph/duplicate-gate.ts:152-186 | whatever full and partial proofs there are, the pair list covers exactly what was suspected before and the partial proofs whose two questions were both still there when their turn came |
| DuplicateGateRun.GateKeepsMarkets | services/arb-solver/src/graph/duplicate-gate.ts:118-186 | whatever is collapsed, demoted or dropped, the gated graph has exactly the markets it had, as long as no full proof is of a question with itself |
| DuplicateGateRun.GateKeepsMarketsIff | services/arb-solver/src/graph/duplicate-gate.ts:118-297 | the gate keeps the markets, whatever they are and whatever the classifier says, iff no categorical set lists a question of the graph twice |
| DuplicateGateRun.RepeatedSlotVanishes | services/arb-solver/src/graph/duplicate-gate.ts:118-186 | the boundary of that: a question listed twice in one set and proved to be its own twin would be gone after the gate, with the markets only it had unless another full proof involves it |
| DuplicateGateRun.GateKeepsWorlds | services/arb-solver/src/graph/duplicate-gate.ts:152-167 | for any mixture and order of arms, every world in which the fully proved twins agree survives the gate |
| DuplicateGateRun.HitsSeparate | services/arb-solver/src/graph/duplicate-gate.ts:152-167 | in an Arm D run, pairs separated earlier stay apart while later ones are separated |
| DuplicateGateRun.PartialGate | services/arb-solver/src/graph/duplicate-gate.ts:118-186 | when all of the graph's own hits are Arm D the questions stay, Ω only grows, and no categorical set keeps both ends of a hit |
| DuplicateGateCode.DemoteAndDrop | services/arb-solver/src/graph/duplicate-gate.ts:247-271 | the in-place loop over the sets is the specified drop, and reports exactly whether a Σ=1 claim was lowered |
| DuplicateGateCode.CollapseAB | services/arb-solver/src/graph/duplicate-gate.ts:274-297 | the in-place collapse of markets, question, slots and edges |
| DuplicateGateCode.CollectHits | services/arb-solver/src/graph/duplicate-gate.ts:136-150 | hits are taken per categorical set over ordered slot pairs, before any rewrite |
| DuplicateGateCode.ApplyDuplicatePartitionGate | services/arb-solver/src/graph/duplicate-gate.ts:118-186 | the whole gate in place equals its specification for any classifier, and it reports the suspect pairs, hits, collapses and lowered claims of the pass |
| MutexComponents.Forest.Find | services/arb-solver/src/graph/intra-set-containment-belt.ts:394-407 | returns the root and keeps every node's root through the path shortening |
| MutexComponents.Forest.Union | services/arb-solver/src/graph/intra-set-containment-belt.ts:408-412 | merges exactly the two trees |
| MutexComponents.FindComponents | services/arb-solver/src/graph/intra-set-containment-belt.ts:392-429 | the groups are exactly the connected components of the mutex edges |
| ContainmentBelt.BeltEnlarges | services/arb-solver/src/graph/intra-set-containment-belt.ts:163-341 | whatever the tells and prices, the belt only enlarges Ω |
| ContainmentBelt.BeltIdempotent | services/arb-solver/src/graph/intra-set-containment-belt.ts:162-341 | with distinct edge ids and the same prices a second application changes no set and no edge |
| BeltExact.BeltedSetIff | services/arb-solver/src/graph/intra-set-containment-belt.ts:188-252 | the belt takes out exactly the refuted categorical sets and those sharing an id with one: two live slots give each other away, or the platforms do, or some choice of one bid per slot adds up to more than 1.15 and 1 plus the slack |
| BeltExact.BeltedEdgeIff | services/arb-solver/src/graph/intra-set-containment-belt.ts:257-316 | it takes out exactly the refuted exclusions and edges sharing an id with one: among the questions tied to its ends by exclusions two live ones give each other away, or their bids add up to too much |
| BeltExact.RecordedIff | services/arb-solver/src/graph/intra-set-containment-belt.ts:188-316 | the pairs it records are exactly the telling ones, or all of a set that only its prices or platforms refute, and all of a group its prices refute |
| ContainmentBeltCode.BestBidOf | services/arb-solver/src/graph/intra-set-containment-belt.ts:377-382 | the highest usable bid over a question's markets, none when there is none |
| ContainmentBeltCode.CliqueBidSum | services/arb-solver/src/graph/intra-set-containment-belt.ts:367-389 | the sum of best bids over a clique |
| ContainmentBeltCode.RefutedEdges | services/arb-solver/src/graph/intra-set-containment-belt.ts:257-316 | drops exactly the edges inside refuted components and records their suspect pairs |
| ContainmentBeltCode.ApplyIntraSetContainmentBelt | services/arb-solver/src/graph/intra-set-containment-belt.ts:163-341 | the belt in place: freed sets, dropped edges, recorded pairs and counts as specified, set objects untouched |
| BeltPipeline.ApplyIndependentBundleBelt | services/arb-solver/src/graph/independent-bundle-belt.ts:111-140 | in place: removes exactly the categorical sets that trip the predicate and returns their ids |
| BeltPipeline.RefusesIndependentBundleSet | services/arb-solver/src/graph/independent-bundle-belt.ts:81-94 | the loop is the predicate: two known slots, one native independent, no mutex authority |
| BeltExact.BundledIff | services/arb-solver/src/graph/independent-bundle-belt.ts:81-140 | the bundle belt takes out exactly the categorical sets with two known slots, a native independent one and no claim of exclusion on any, and those sharing an id with one |
| BeltPipeline.BundleEnlarges | services/arb-solver/src/graph/independent-bundle-belt.ts:105-140 | the bundle belt only enlarges Ω |
| BeltPipeline.BundleIdempotent | services/arb-solver/src/graph/independent-bundle-belt.ts:105-140 | a second application refuses nothing |
| BeltPipeline.ContainmentLatch.LatchBeltResult | services/arb-solver/src/graph/intra-set-containment-belt.ts:55-58 | the latch gains exactly the belt's freed ids and suspect pairs, so re-asserted on any later graph it leaves no set the belt freed and no exclusion between questions it paired |
| BeltPipeline.ApplyContainmentLatch | services/arb-solver/src/graph/intra-set-containment-belt.ts:61-96 | in place: removes latched sets and latched mutex edges, unions the pair list, counts both |
| BeltPipeline.LatchEnlarges | services/arb-solver/src/graph/intra-set-containment-belt.ts:61-96 | re-asserting the latch only enlarges Ω |
| BeltExact.LatchedIff | services/arb-solver/src/graph/intra-set-containment-belt.ts:61-96 | re-asserting the latch takes out exactly the latched sets and the exclusions between latched pairs |
| BeltPipeline.LoadKeepsWorlds | services/arb-solver/src/solve-core.ts:62-82 | through live filters, gate, bundle belt, latch and containment belt, every world in which the fully proved twins agree is kept |
| BeltPipeline.LoadKeepsMarkets | services/arb-solver/src/graph/loader.ts:191-213 | no market of a live question is lost in a load whose stored sets list no question twice, whatever classifier, belts and latch do |
| BeltPipeline.LoadGuaranteesAgreeing | services/arb-solver/src/solve-core.ts:72-77 | with full proofs too: what the loaded graph guarantees, every stored world in which the fully proved twins agree pays |
| BeltPipeline.LoadManufacturesNothing | services/arb-solver/src/solve-core.ts:72-77 | when all of the filtered graph's own hits are Arm D, a basket guaranteed on the loaded graph was guaranteed on the stored one |
| BeltPipeline.NoFlapBack | services/arb-solver/src/graph/intra-set-containment-belt.ts:42-96 | over every run the latch only grows: a latched set is in no later graph, a latched pair's mutex edge in none from the next step on, whatever prices say |
| BeltExact.LatchedSetsIff | services/arb-solver/src/graph/intra-set-containment-belt.ts:55-66 | over every run the latch holds exactly the ids of sets that some earlier step found refuted in the graph it started from |
| BeltExact.LatchedPairsIff | services/arb-solver/src/graph/intra-set-containment-belt.ts:55-58 | and exactly the pairs that some earlier step recorded |
| BeltExact.GoneForGood | services/arb-solver/src/graph/intra-set-containment-belt.ts:42-96 | a set found refuted is in no graph handed on from that step on, and the exclusion of a recorded pair in none after it |
| PriceCaches.PriceCache.Track | services/arb-solver/src/clob/price-cache.ts:62-75 | adds a sentinel only for an unseen market |
| PriceCaches.PriceCache.ApplyUpdate | services/arb-solver/src/clob/price-cache.ts:79-132 | writes only its own side's book, keeps the top-of-book clock unless a top field moved, and reports a change exactly as specified |
| QuoteFeeds.FramesShow | services/arb-solver/src/clob/price-cache.ts:102-132 | after a run of real frames the book is the last one, and its top-of-book clock the stamp of the first frame since which the top has not moved |
| QuoteFeeds.BlankFrame | services/arb-solver/src/clob/price-cache.ts:83-100 | a blank frame leaves nothing to trade and no ladder: a live book reads stale since then, any other as never quoted |
| QuoteFeeds.QuotedAgain | services/arb-solver/src/clob/price-cache.ts:102-158 | after a stale mark the next real frame starts the top-of-book clock anew |
| QuoteFeeds.MarkedReads | services/arb-solver/src/clob/price-cache.ts:133-189 | a book marked stale reads at every clock as one with no price and no ladder, stale since the mark |
| QuoteFeeds.ReportedIff | services/arb-solver/src/clob/price-cache.ts:83-132 | a real frame is reported iff the book was missing or never quoted, its top moved, or the second level of a ladder did; a blank one iff it silences a live book |
| QuoteFeeds.ReadIs | services/arb-solver/src/clob/price-cache.ts:160-196 | a read hands out the book as it is unless it is stale, unquoted for longer than one limit or unmoved for longer than the other; then with no price and no ladder, marked if too old |
| QuoteFeeds.FedCanBeBought | services/arb-solver/src/clob/price-cache.ts:102-282 | after a real frame a read within the limits offers YES, and NO into its bid, iff the frame itself does |
| PriceCaches.PriceCache.MarkStale | services/arb-solver/src/clob/price-cache.ts:135-144 | every book of either side goes stale, and no side of any market can be bought from the cache at any clock or limits until it is quoted again |
| PriceCaches.PriceCache.MarkStaleByIds | services/arb-solver/src/clob/price-cache.ts:146-158 | the listed markets' books go stale and neither side of them can be bought; every other market keeps both books as they were |
| PriceCaches.PriceCache.Evict | services/arb-solver/src/clob/price-cache.ts:198-206 | a listed market reads exactly as before at every clock, any other as never tracked |
| LegBuilder.BuildLegVariables | services/arb-solver/src/solver/lp-builder.ts:99-250 | the loops emit exactly the specified legs, tranches, caps and costs, choose the profit-max form iff some leg was split or it is forced, and give nothing when no side is usable |
| LegSides.SidesIff | services/arb-solver/src/clob/price-cache.ts:251-282 | a market gets a YES leg iff its YES book is fresh with a price and size to buy and not mere dust, and a NO leg iff its NO book offers one or its YES bid does, which on a two-sided book takes a bid below the ask, no further than the widest book allowed and not dust |
| LegSides.TopLegs | services/arb-solver/src/solver/lp-builder.ts:99-224 | without a ladder a market's legs are exactly the top of the book: YES at its ask, NO at the NO book's ask or else at what the YES bid leaves of 1, each with its fee, cap and question |
| LegSides.BothSidesCostMore | services/arb-solver/src/clob/price-cache.ts:262-268 | with non-negative fees a market's YES and NO legs priced from one book cost more than 1 together: a crossed book manufactures no arbitrage (with a ladder, if its deeper levels do not cross) |
| LegSides.LadderLegs | services/arb-solver/src/solver/lp-builder.ts:35-53 | with the ladder on, a usable YES side has one leg per level with a price in (0, 1] and a size, up to the cap, each at its own price, fee and size; or the top of the book when no level passes |
| LegSides.LadderNoLegs | services/arb-solver/src/solver/lp-builder.ts:55-88 | the NO side likewise, from its own book's asks or the YES book's bids below 1 |
| LegSides.BuildIff | services/arb-solver/src/solver/lp-builder.ts:99-249 | a build lists the legs of every market; there is none iff nothing can be bought, and it maximises profit iff forced or some side has a second tranche |
| LegSides.ColumnsAre | services/arb-solver/src/solver/lp-builder.ts:222-249 | the problem minimises what the basket costs, less the guaranteed payout when that is a column |
| LegSides.OwnersAre | services/arb-solver/src/solver/lp-builder.ts:99-249 | when every market is listed under one question, a column belongs to its leg's own question |
| LegSides.UnquotedIff | services/arb-solver/src/solver/omega-audit.ts:62-82 | a question is unquoted iff no market of it has a side to buy |
| LegPrices.EveryLegSourced | services/arb-solver/src/solver/lp-builder.ts:119-126 | every leg of every build is one real order of its own market: cost is that order's price plus fee, cap its size; a YES leg buys an offer of a live YES book, a NO leg buys one of a usable NO book or else sells into a bid of the live YES book |
| LegPrices.FreeOnlyAtOne | services/arb-solver/src/solver/lp-builder.ts:125-141 | with non-negative fees a leg costs nothing only when it is a NO sold into a YES bid of 1 or more |
| LegPrices.FreeLegIff | services/arb-solver/src/solver/lp-builder.ts:119-141 | under any non-negative fees a market yields a leg of cost at most 0 iff its NO book is unusable, its live, unsuppressed YES book bids at least 1 plus the fee with positive size, and no ladder tranche is built |
| Fingerprint.ClusterFingerprint | services/arb-solver/src/solver/cluster-fingerprint.ts:13-29 | the loop prints both books of every market of the cluster |
| Fingerprint.EqualPrintsPoseSame | services/arb-solver/src/solver/cluster-fingerprint.ts:4-12 | caches fed with positive times, any two clocks: equal fingerprints give the same legs and the same unquoted questions, hence the same problem |
| Fingerprint.ZeroStampBreaksIt | services/arb-solver/src/solver/cluster-fingerprint.ts:19-24 | without positive timestamps it fails: a book stamped 0 and one stamped later print alike, and only one can be bought |
| FingerprintLimits.StampsIff | services/arb-solver/src/solver/cluster-fingerprint.ts:4-29 | over every feed of tracks, quotes, stale marks and evictions: once some quote stamp is positive, equal fingerprints always give equal legs iff all quote stamps are |
| FingerprintLimits.LateLegsFollow | services/arb-solver/src/solver/lp-builder.ts:115-117 | legs read at a later clock than the fingerprint still follow it as long as no book crosses an age limit in between |
| FingerprintLimits.LateLegsIff | services/arb-solver/src/solver/lp-builder.ts:115-117 | over caches fed up to the clock: legs read later follow the fingerprint on all of them iff there is no delay or no age limit, the delay outlasts the shorter limit so that everything is too old, or the clock has not yet run past it |
| DedupRuns.RepeatIsOldProblem | services/arb-solver/src/solve-core.ts:546-550 | over runs, with legs read at or after the clock of the fingerprint and no book ageing out in between: a repeated fingerprint means an earlier tick of the same cluster passed every gate and dedup with the same legs, unquoted questions and states, and under the same engine posed exactly the problem this tick would pose, to the solver or to the certificate filter |
| DetectorCode.LegState.Feed | services/arb-solver/src/sentinel/detector.ts:396-413 | a tick sets the quote, clears staleness and pushes both rings, dropping the oldest past 64 |
| DetectorCode.LegState.CountUpdatesSince | services/arb-solver/src/sentinel/detector.ts:87-94 | the backward loop counts the newest updates since the cutoff |
| DetectorCode.LegState.Spiked | services/arb-solver/src/sentinel/detector.ts:107-117 | the loop finds a jump within the burst window iff there is one |
| DetectorSpreads.MeasuredIff | services/arb-solver/src/sentinel/detector.ts:125-134 | a pair is measured iff both legs hold a live $0..1 book |
| DetectorSpreads.MutexAbove | services/arb-solver/src/sentinel/detector.ts:136-140 | a live mutex pair is above a threshold of at least 0 iff its two mids exceed 1 + allowance + threshold together |
| DetectorSpreads.EqualAbove | services/arb-solver/src/sentinel/detector.ts:142-149 | a live equal pair is above it iff its mids are that far apart, or on crossable prices one leg bids that much over the other's ask; its sign is mid a minus mid b |
| DetectorSpreads.ActiveIff | services/arb-solver/src/sentinel/detector.ts:98-103 | a leg is active iff live and its last so many updates fall in the window |
| DetectorSpreads.SpikeIff | services/arb-solver/src/sentinel/detector.ts:107-117 | a leg spikes iff live, updated often enough in the burst window, and a mid remembered from it lies at least the minimum move away |
| DetectorSpreads.ObservedIff | services/arb-solver/src/sentinel/detector.ts:187-331 | an evaluation is shown each leg's own spike and activity |
| DetectorSpreads.FedShowsLast | services/arb-solver/src/sentinel/detector.ts:395-398 | a fed leg shows its last quote, not stale, and is live when that was a $0..1 book |
| DetectorSpreads.FedTimes | services/arb-solver/src/sentinel/detector.ts:398-403 | the update ring is the stamps of the last ticks fed, as many as it holds |
| DetectorSpreads.FedMidsAre | services/arb-solver/src/sentinel/detector.ts:405-413 | the mid ring is the middles of the last ticks kept, where the first is kept and then each one at least the gap after the last kept |
| DetectorSpreads.GapIsLeast | services/arb-solver/src/sentinel/detector.ts:349-358 | that gap is the least not below the sample gap that lets 64 mids span twice the burst window |
| DetectorCode.PairMonitor.EvaluateNow | services/arb-solver/src/sentinel/detector.ts:187-228 | one evaluation of the pair's state machine, fields and item as specified |
| DetectorCode.DivergenceDetector.OnTick | services/arb-solver/src/sentinel/detector.ts:385-421 | the whole detector after a tick, and the items in order |
| DetectorCode.DivergenceDetector.MarkStale | services/arb-solver/src/sentinel/detector.ts:424-429 | flags exactly the listed legs |
| DetectorCode.DivergenceDetector.Sweep | services/arb-solver/src/sentinel/detector.ts:437-445 | evaluates exactly the monitors that are not idle |
| DetectorRings.RingsLoseNothing | services/arb-solver/src/sentinel/detector.ts:345-413 | for every run with non-decreasing times and thresholds of at most 64, 64-entry rings fire the same items and hold the same states as unbounded, equally thinned histories |
| DetectorRings.GapSpansBurst | services/arb-solver/src/sentinel/detector.ts:349-358 | 64 thinned mids span twice the burst window |
| DetectorRingLimits.CountAgreesIff | services/arb-solver/src/sentinel/detector.ts:87-103 | a threshold is met alike by ring and whole history, whatever was fed, iff it is at most 64 |
| DetectorRingLimits.SpikeAgreesIff | services/arb-solver/src/sentinel/detector.ts:107-117 | the jump search finds the same in ring and whole history on every thinned history iff mids are thinned or the burst window is open |
| DetectorRingLimits.SomeRunTellsApart | services/arb-solver/src/sentinel/detector.ts:187-228 | whenever one of these conditions fails, a run of ticks and a sweep fires a different item with rings than with the whole history: no longer post-spike, or from a leg that looks inactive |
| DetectorRingLimits.RingsEnoughIff | services/arb-solver/src/sentinel/detector.ts:345-413 | with an open activity window and thresholds a book can reach, whatever the alert windows: the rings fire the same items as the whole history on all runs iff both thresholds are at most 64 and mids are thinned or the burst window is open |
| DetectorRingLimits.ShippedLimits | services/arb-solver/src/sentinel/types.ts:66-83 | the shipped configuration, with any two update thresholds put in: its rings are enough on all runs iff both are at most 64 |
| DetectorTraces.AlertHasHistory | services/arb-solver/src/sentinel/detector.ts:187-331 | every alert follows a breach in an idle monitor, only breached or unmeasurable evaluations, and the full window |
| DetectorAlerts.AlertIff | services/arb-solver/src/sentinel/detector.ts:187-331 | a look alerts iff it is breached or unmeasurable, some earlier breach opened an episode that no look since closed or brought to its window's end, and this one does; the window is the fast one iff the latest spike evidence is of exactly one leg |
| DetectorAlerts.AlertReports | services/arb-solver/src/sentinel/detector.ts:299-331 | an alert reports its time, its episode's opening, the leg that moved last on its own if any, and each leg's activity |
| DetectorAlerts.AlertCounts | services/arb-solver/src/sentinel/detector.ts:299-331 | it also reports its place among the monitor's alerts and the time of the first of them |
| DetectorAlerts.IdleIff | services/arb-solver/src/sentinel/detector.ts:187-237 | a monitor is idle after a look iff it was and the look is no breach, was pending and it is measured and none, or had alerted and it is deeply clear |
| DetectorAlerts.MonitorIsTrace | services/arb-solver/src/sentinel/detector.ts:385-445 | every monitor of every detector run, with rings or without, is where the looks its ticks and sweeps give it have brought it |
| DetectorAlerts.ItemsAreTrace | services/arb-solver/src/sentinel/detector.ts:385-445 | and the items an event fires for a pair are exactly those its new looks fire |
| DetectorAlerts.LegIsFed | services/arb-solver/src/sentinel/detector.ts:385-429 | every leg of every run is the one its own market's books make in order, flagged stale iff marked since the last of them |
| DetectorAlerts.AlertWasApart | services/arb-solver/src/sentinel/detector.ts:119-331 | every alert of every run dates its episode from an event at which both legs were live and the pair really above its threshold, in its own mode |
| DetectorTraces.DeepClearBetween | services/arb-solver/src/sentinel/detector.ts:220-226 | between two alerts the metric was seen below threshold times clearRatio |
| DetectorTraces.CountersExact | services/arb-solver/src/sentinel/detector.ts:300-330 | the alert count is the number of alerts so far and the first alert time that of the first |
| DetectorTraces.SamplesAlwaysSound | services/arb-solver/src/sentinel/detector.ts:275-286 | retained samples start at the opening, stay bounded and at least the current gap apart through every thinning and doubling |
| DetectorAlerts.SamplesSeen | services/arb-solver/src/sentinel/detector.ts:275-286 | every sample of an open episode is the spread of a look really taken, at its time |
| DetectorAlerts.SamplesFilled | services/arb-solver/src/sentinel/detector.ts:275-286 | after every measured look the samples are up to date within the current gap, which has grown only when half the room was used |
| Limiter.GlobalLimiter.Acquire | packages/llm/src/util/rate-limiter.ts:41-49 | takes a free permit or queues the call |
| Limiter.GlobalLimiter.Release | packages/llm/src/util/rate-limiter.ts:51-55 | hands the permit to the oldest waiter, or frees it |
| Limiter.GlobalLimiter.PauseGroup | packages/llm/src/util/rate-limiter.ts:58-70 | the later of the two pause ends |
| Limiter.AlwaysSound | packages/llm/src/util/rate-limiter.ts:27-100 | over all interleavings: in-flight equals permits held and never exceeds the cap, waiters exist only at the cap, grants are first come first served |
| Limiter.GrantsExactly | packages/llm/src/util/rate-limiter.ts:40-55 | on every interleaving the callers granted so far are the first ones that asked, as many as the cap and the permits given back allow, and everybody else waits in order |
| Limiter.PauseNeverShrinks | packages/llm/src/util/rate-limiter.ts:57-70 | the shared pause only moves later |
| Limiter.PausedIs | packages/llm/src/util/rate-limiter.ts:57-70 | and is the latest end any caller asked for |
| Limiter.EveryWaiterServed | packages/llm/src/util/rate-limiter.ts:40-55 | a caller with p ahead of it gets its permit at the (p+1)-th release, and until then the group makes at most (cap+p) times one call's attempts |
| Retry.WithRetry | packages/llm/src/util/retry.ts:155-230 | the loop returns the first success or throws at the first final failure, under two separate budgets |
| Retry.AttemptsBounded | packages/llm/src/util/retry.ts:175-227 | at most maxAttempts + maxRateLimitAttempts − 1 attempts when both are at least 1, one when either is 0 |
| Retry.BoundReached | packages/llm/src/util/retry.ts:175-227 | the bound is reached for every pair of budgets of at least 1 |
| Retry.WhyItStopped | packages/llm/src/util/retry.ts:192-195 | with both budgets at least 1, a call that ends in a retryable failure has spent a whole budget |
| Retry.OwnDelay | packages/llm/src/util/retry.ts:204-215 | without word from the server the delay is within its jitter of half the base doubled per transient failure, up to ten, and the cap, and never below 100 ms |
| Retry.ServerDelay | packages/llm/src/util/retry.ts:204-210 | the server's own delay is never cut short and stretched by no more than the jitter |

## Left out

- Floating point: prices, shares, duals and fees are reals; rounding, NaN and infinities are not modelled.
- HiGHS and the worker pool: an LP is its feasible set and objective, solver duals are data, and the facet feasibility
  check is any function of facets and questions (for the cache theorems, one that does not depend on their order).
- SkipFilter.SkipSound: non-negative stored row duals are a hypothesis, because the code does not check them.
- SkipFilter.BuildCert: the certificate's duals are taken as given, not as optimal for the problem they came from.
- LP text: rows are sequences of coefficients; number formatting and zero-coefficient terms are not modelled.
- Key strings and digests (`structureKey`, `configEpoch`, `structKey`, fingerprints, pair keys) are the structured
  values they encode, assumed to be encoded injectively.
- Title, slug and signature heuristics, the classifier of the duplicate gate, the containment tells and the bundle
  facts: arbitrary functions; the results hold for every choice of them.
- PriceCaches.PriceCache.MarkStale: `Date.now()` is a parameter, here and wherever the source reads the clock.
- Fee curves, platform defaults, environment flags and venue limits: parameters of the leg build; the crossed-book
  rejection is always on, as `rejectCrossedBookEnabled` returns true.
- LegBuilder.BuildLegVariables: the platform and price-source labels of a leg are not modelled.
- FacetHull.ExactIffIntegral: integrality is a property of the cluster's constraints and is not decided here beyond
  product-shaped clusters.
- MutexComponents.FindComponents: the order of the groups is not specified; in the source it decides only the order in which
  suspect pairs are listed.
- The union-find pass of the cluster builder, which only logs, and `buildMarketIndex`, a lookup by market id.
- The full (uncached) finalize loop is represented by the decision of each cluster, not by a second loop.
- ContainmentBeltCode.ApplyIntraSetContainmentBelt: the per-tell hit counters of the result feed only a log line and are
  not modelled; freed ids, pairs and the two removal counts are.
- SolvePrep.SolveState.PrepareClusterForSolve: the option by which a caller supplies its own LP builder is not modelled;
  the problem posed is the one of the configured engine.
- DetectorRingLimits.RingsEnoughIff: for an activity window above 0 and thresholds a book priced 0 to 1 can reach (spread
  below 1, jump size above 0 and at most 1, burst window not negative); outside them only `RingsLoseNothing` is stated.
- EngineVerdict.EnginesAgreeIff: question ids are taken non-negative, as row ids are.
- EnumerationOwner.EnumerationExactWithEdges: whether some candidate slips past the edges is a search over one state per
  set under two-question constraints, so no condition on single pairs of slots is given for it.
- Telemetry counters and log text.
- Detector items: the verdict and the spread summary are computed elsewhere from the reported fields; the last quotes a
  report copies from its legs, and status listings, are not modelled.
- Retry: which errors are retryable and how retry-after headers are parsed; the jittered delay is a function of a drawn
  number.
- Limiter.EveryWaiterServed: counts releases and attempts; that every attempt and every wait ends in time is assumed of
  the callee.
- SQL loading, transactions, sockets, event bus, persistence, timers and subscription to live markets.
- Post-solve audit, execution grades, portfolio extraction, settlement economics and venue adapters: small tables or
  input/output around the core.
