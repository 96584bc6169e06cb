# Verified models of mixle's decision and provenance cores

This project models the parts of mixle where a combinatorial, optimisation or protocol claim is made exactly, and
proves those claims over every input or every run. Arithmetic is over reals and unbounded integers. Where the program
works in place (matrices, arrays, lists of rows, files in a directory, period loops) the model does too: a class or a
method with a loop, tied by its contract to a function of its inputs, about which the lemmas are proved.

| module | file | what it models |
|---|---|---|
| `MaxFlow`, `Closure` | MaxFlow.dfy, Closure.dfy | Edmonds-Karp with its tolerance, the minimum cut read off it, and maximum-weight closure by one cut |
| `ScheduleProgram`, `ScheduleModes`, `RollingLimits` | Scheduling.dfy, Rolling.dfy, RollingLimits.dfy | time-phased schedules as a 0/1 program, solved exactly or window by window, and what the windows miss |
| `Cvar`, `RiskPlan` | Cvar.dfy, RiskPlan.dfy | empirical CVaR, its linear epigraph, and the scenario selection plans built on it |
| `SlackNetwork`, `SlackOptimum`, `Twin` | SlackNetwork.dfy, SlackOptimum.dfy, PipelineTwin.dfy | the slack-augmented flow network and the period-stepped twin |
| `Lloyd` | Lloyd.dfy | the in-place k-means iteration |
| `PairedTest` | PairedTest.dfy | the exact paired test and its validity |
| `RecordAdvice`, `ArtifactDirectory` | RecordAdvice.dfy, ArtifactDirectory.dfy | the record-count advice, and deploying and loading an artifact directory |
| `ArtifactReader` | ArtifactReader.dfy | a load that looks at the directory several times while deploys are at work on it |
| `CapabilityLifecycle` | CapabilityLifecycle.dfy | authorization decisions and lifecycle snapshots |
| `Framing`, `SourceProvenance` | SourceProvenance.dfy | the source digest and the record that travels from checkout to wheel |
| `Base64Url`, `Receipt`, `SoundRelease` | Base64Url.dfy, Receipt.dfy, SoundRelease.dfy | the chain from a wheel's members to the installed files, and that a sound release passes along it |
| `Blending` | Blending.dfy | the blending program and its parcel gates |
| `Outcomes`, `Numbers`, `Sums`, `Vectors`, `Rounding`, `MixedInteger`, `Matrices`, `ByteStrings`, `Characters` | Common.dfy | shared results, sums, linear algebra and bytes |

## What the proofs found

- **Closure is optimal only up to the flow solver's tolerance.** The search ignores residual capacities of at most
  1e-12, so the mask is always precedence-closed but a free item worth 1e-13 is left out (`TinyValueIsMissed`). The
  answer is within `(n+2)^2` tolerances of the best closure (times the power of two by which the values were scaled
  down), and exactly best when the scaled values are whole multiples of one quantum above the tolerance. Without
  precedence it is exactly best iff no scaled value is positive and within the tolerance (`FreeItemsBestIff`). For an
  exact minimum cut the reduction is exact without condition (`ExactMinimumCutIsBest`).
- **The two scheduling modes disagree on malformed pairs.** Exact mode refuses a pair that names no item. Rolling mode
  never validates: a pair whose dependent is no item is ignored, a negative predecessor is dropped, and a predecessor
  beyond the array raises an `IndexError` (`RollingAnswer`). `ModesDisagree` is one item with the pair (5, 0): exact
  mode refuses it, rolling mode schedules the item.
- **Rolling mode can miss everything.** On every chain longer than the window, of items that cost one before an item
  with a reward, it schedules nothing and reports 0, while the optimum is the reward less the costs
  (`FarRewardIsMissed`). The documented case is fifty items, a chain of ten and a reward of 100, whose optimum is 91.
- **A grant in force cannot be revoked through `evolve`.** The guard on replacing an authorization refuses every
  replacement while the grant is in force, its own revoked copy included. The revoked copy can be installed at a time
  exactly when the grant has expired by then (`RevokedCopyInstallable`), when it takes nothing away any more
  (`RevocationComesTooLate`); a grant with no expiry can never be revoked (`RevocableIffItExpires`), never retires
  (`RetirementReachable`), and, once loaded from a record, never allows anything again, because its verified copy is
  refused in the same way (`VerifiedCopyInstallable`). The error text asks for the revocation that the same check
  refuses.
- **A deployed artifact can be unloadable.** The JSON read-back does not check the family that the text decodes to, and
  a pickle is not read back at all. `WhenADeployLoads` states exactly when a finished deploy loads, and
  `JsonNobodyCanLoad` and `PickleNobodyCanLoad` exhibit deploys of each kind that report success and that no reader can
  load, although the documentation promises that a model which cannot be read back takes the other path. Registered
  classes keep their family, because the registry is one-to-one; the family is lost by an instance of a subclass of
  `tuple`, such as a named tuple, which is written as a plain tuple (mixle/utils/serialization.py:979-984).
- **A load beside a redeploy can mix two models.** A load reads the manifest, digests the model file, and then opens
  that file again to decode it, so the bytes decoded need not be the bytes digested. When a redeploy rewrites the file
  in between, the second model is returned under the first deploy's records, even if the second deploy never completes
  (`RacedReadMixes`). This happens exactly when the looks mix (`LoadIsWholeIff`); a load that succeeds is whole exactly
  when the file held the same bytes at both openings (`SuccessfulLoadIsWholeIff`), and it is always whole or refused
  when no deploy works on a model file between them (`QuietLoadIsWhole`). The mixture is disclosed by a note exactly
  when both models have a content hash and the hashes differ (`MixtureIsDisclosedIff`).
- **A remedy that is never used.** In `propose`, the fallback that offers a lower holdout when no other remedy applies
  cannot be reached: the two conditions before it always leave one remedy (`CheckSplit`).
- **Two spellings of one digest.** The wheel's RECORD may spell a digest in any way the lenient decoder accepts
  (`DecodeIsLenient`); the installed RECORD must spell it canonically, which is what makes the chain sound.

## How external parts are modelled

- `branch_and_bound_milp` and `min_cost_flow` are parameters with their contract as a premise (`SolvesBoxed`,
  `SolvesExactly`, `SolvesMinCost`): an answer is feasible and no feasible point is better, and there is an answer
  when one exists. For the schedule the contract is met by `SolveBinary`, which tries every 0/1 vector. The flow and
  cut routines are modelled in full.
- SHA-256, JSON, CSV, pickle and the serialization registry are function parameters. No hash is assumed injective:
  each theorem that needs it assumes only that the two byte strings it compares do not collide. Reading back a written
  manifest or record is likewise assumed only for the text concerned.
- Random draws (scenario values, arrival noise, the initial centres, the nonce of a temporary file), clocks, the
  environment, git and the order of directory listings are parameters, universally quantified.

## Model

| member | source | states |
|---|---|---|
| `MaxFlow.Search` | mixle/relations.py:421-430 | the breadth-first search: discovered nodes form a tree of usable residual arcs, and if the sink is not reached then no usable arc leaves the discovered set |
| `MaxFlow.Bottleneck` | mixle/relations.py:433-437 | the walk back from the sink ends at the source, repeats no node, and its least residual capacity is the bottleneck and exceeds the tolerance |
| `MaxFlow.Augment` | mixle/relations.py:433-444 | one augmentation keeps residuals non-negative, conserves flow at every node but the ends, raises the value by exactly the bottleneck, and keeps every common quantum of the capacities |
| `MaxFlow.FlowAtMostCut` | mixle/relations.py:396-403 | weak duality: no feasible flow exceeds the capacity of any source/sink cut |
| `MaxFlow.NetAcrossCut` | mixle/relations.py:399-401 | the net flow across any cut equals the flow value |
| `MaxFlow.FlowOfResidual` | mixle/relations.py:445-446 | the arc flows read off the final residual matrix are a feasible flow of the returned value, and give the residual back |
| `MaxFlow.ExhaustedCutIsFull` | mixle/relations.py:428-432 | when the search stops, the cut around the reached nodes is full up to n*n tolerances, and exactly full when all capacities are multiples of a quantum above the tolerance |
| `MaxFlow.MaximumFlow` | mixle/relations.py:396-446 | augmenting paths terminate; the answer is a feasible flow, maximum up to the tolerance and exactly maximum on quantized capacities; the refusals are exactly a non-square matrix, a node out of range, or source = sink |
| `MaxFlow.MinimumCut` | mixle/relations.py:449-473 | the reached set is a cut no other cut undercuts by more than n*n tolerances (not at all on quantized capacities), no arc dearer than some cut leaves it, and its edges and capacity are its own |
| `Closure.CutIsForgoneWorth` | mixle/precedence_scheduling.py:59-68 | the cut around a selection costs at least the gains forgone plus the costs paid, and exactly that when the selection is precedence-closed |
| `Closure.ExactMinimumCutIsBest` | mixle/precedence_scheduling.py:59-72 | Picard for an exact minimum cut: it severs no precedence arc and its items are a best closure, for every precedence relation, cycles included |
| `Closure.BigMNeverSevered` | mixle/precedence_scheduling.py:85-108 | the finite big-M is enough for the tolerant solver too: a source side that severs no arc dearer than some cut, up to the tolerance, is closed |
| `Closure.CutToClosure` | mixle/precedence_scheduling.py:59-67 | Picard: if the source side of a closed selection is a cheapest cut up to eps, no closed set is worth more than eps over it (eps = 0 for an exact minimum cut) |
| `Closure.RescalingIsRepresentable` | mixle/precedence_scheduling.py:92-94 | after the power-of-two scaling, the sum of magnitudes is at most the largest double |
| `Closure.BigMIsRepresentable` | mixle/precedence_scheduling.py:92-95 | and the big-M, with its plus one, stays below the least real that rounds to infinity |
| `Closure.RescaledWorth` | mixle/precedence_scheduling.py:89-94 | scaling all values by one power of two scales the worth of every selection by it, so the same selections are optimal |
| `Closure.HalvingsIsScale` | mixle/precedence_scheduling.py:92-94 | an instance is left as given exactly when its magnitudes are at most the largest double over n, and otherwise scaled down by a power of two from 2n up to below 4n |
| `Closure.ScaleIsUnique` | mixle/precedence_scheduling.py:94 | which is one power of two |
| `Closure.MinimumCutIsBest` | mixle/precedence_scheduling.py:95-112 | the items on the source side of the cut the solver returns form a best closure up to its tolerance, and exactly a best closure under a quantum |
| `Closure.BuildNetwork` | mixle/precedence_scheduling.py:96-107 | the matrix filled in place is exactly the closure network, and a pair is refused exactly when it names no item |
| `Closure.MaximumWeightClosure` | mixle/precedence_scheduling.py:56-119 | the mask is always precedence-closed. An instance whose magnitudes are at most the largest double over n is answered as given: worth as much as every closed set up to (n+2)^2 tolerances of 1e-12, exactly optimal when the values share a quantum above the tolerance, and without precedence exactly the items worth more than 1e-12. Any other is answered the same at one scale, the power of two from 2n up to below 4n. The refusals are exactly a value out of range or a bad pair |
| `Closure.FreeItemsBestIff` | mixle/precedence_scheduling.py:108-119 | without precedence the answer is optimal iff no scaled value is positive and within the tolerance |
| `Closure.TinyValueIsMissed` | mixle/precedence_scheduling.py:108-119 | a concrete input that the tolerance makes the program answer sub-optimally: one free item worth 1e-13 is left out |
| `ScheduleProgram.RowsMeanWindow` | mixle/precedence_scheduling.py:172-188 | a vector satisfies all the rows iff each item is scheduled at most once, each period is within its capacity, and at every boundary no predecessor trails |
| `ScheduleProgram.EncodingIsExact` | mixle/precedence_scheduling.py:146-204 | a 0/1 vector satisfies the rows iff it encodes a schedule that is feasible: once each, at most floor(capacity[t]) items in period t, every predecessor scheduled and no later |
| `ScheduleProgram.DecodeEncoding` | mixle/precedence_scheduling.py:198-203 | decoding the first period above one half recovers the schedule a vector encodes |
| `ScheduleProgram.EncodeEncodes` | mixle/precedence_scheduling.py:162-165 | every schedule has a 0/1 encoding |
| `ScheduleProgram.ObjectiveIsNpv` | mixle/precedence_scheduling.py:166-170 | the linear objective at an encoding is the discounted value of the schedule |
| `ScheduleProgram.DiscountCompounds` | mixle/precedence_scheduling.py:166-170 | a value counts in full in period 0 and loses one rate with each period |
| `ScheduleProgram.BuildPrecedenceRows` | mixle/precedence_scheduling.py:122-143 | rows built in place say cumulative(b) <= cumulative(pred) at each boundary, and a pair outside the items is refused |
| `ScheduleProgram.BuildWindowProgram` | mixle/precedence_scheduling.py:165-192 | the rows, limits and objective built in place are those of the window program |
| `ScheduleModes.SolveBinary` | mixle/precedence_scheduling.py:192-193 | the contract the call for 0/1 variables relies on, met by exhaustion: an answer iff some 0/1 vector satisfies the rows, and then one that no other beats |
| `ScheduleModes.OptimumDecodesToBest` | mixle/precedence_scheduling.py:193-204 | an optimal vector decodes to a schedule that no feasible schedule beats, and the optimum is its value |
| `ScheduleModes.EmptyVectorSolves` | mixle/precedence_scheduling.py:194-196 | the infeasibility branch is unreachable: scheduling nothing satisfies every row |
| `ScheduleModes.SolveWindow` | mixle/precedence_scheduling.py:146-204 | one window is solved exactly, in global periods; refused only for a pair outside its items |
| `ScheduleModes.MergeNpv` | mixle/precedence_scheduling.py:325-329 | committing a window adds exactly the window value to the accumulated value |
| `ScheduleModes.CommitFeasible` | mixle/precedence_scheduling.py:310-330 | committing a feasible window keeps the combined schedule feasible one window further on, precedence across windows included |
| `ScheduleModes.CommittedIsBest` | mixle/precedence_scheduling.py:310-330 | what a committed window leaves in the schedule is best for its periods among all ways to schedule the items that were open |
| `ScheduleModes.RolledFurther` | mixle/precedence_scheduling.py:303-330 | and committing a further window leaves every earlier one best |
| `ScheduleModes.BuildLocalPairs` | mixle/precedence_scheduling.py:315-321 | the renumbered pairs are exactly those between two unscheduled items; an index off the array raises |
| `ScheduleModes.RollingHorizon` | mixle/precedence_scheduling.py:299-331 | for every window size the loop ends with a feasible schedule that is, in every window, the best that can be done in that window with the items not scheduled before it, under the pairs between two such items; its accumulated value is its discounted value, non-negative, at most the exact optimum, and optimal when one window covers the horizon; where every window by itself loses, it schedules nothing |
| `ScheduleModes.ScheduleActivities` | mixle/precedence_scheduling.py:213-331 | input checks in order; exact mode is optimal and refuses a pair that names no item; rolling mode is best in every window, of the longest length that holds at most 400 binaries, never validates pairs and fails only on an index off the array |
| `RollingLimits.ChainLosesIn` | mixle/precedence_scheduling.py:249-258 | a chain of items that cost something before a late reward: over any stretch shorter than the chain, at any discount rate, every schedule but the empty one loses |
| `RollingLimits.FarRewardIsMissed` | mixle/precedence_scheduling.py:249-258 | on every such chain longer than the window rolling mode schedules nothing and reports 0, while exact mode earns the reward less the costs, without bound in the reward |
| `RollingLimits.DocumentedChain` | mixle/precedence_scheduling.py:252-256 | the documented instance, fifty items, ten periods and a chain of ten worth 91: rolling mode reports 0 |
| `RollingLimits.ModesDisagree` | mixle/precedence_scheduling.py:276-331 | a concrete pair that names no item: exact mode refuses it, rolling mode ignores it and schedules the item |
| `Cvar.SortSorts` | mixle/stochastic_opt.py:107 | sorting keeps the total and every total excess, and orders the sample |
| `Cvar.TailExcessIsTotal` | mixle/stochastic_opt.py:110-111 | the prefix-sum tail formula is the sum of the positive excesses at its breakpoint, ties included |
| `Cvar.SomeBreakpointIsNoWorse` | mixle/stochastic_opt.py:103-105 | every real threshold is matched or beaten by some sample loss |
| `Cvar.LeastBreakpointIsLeast` | mixle/stochastic_opt.py:103-112 | the least breakpoint value is at most the objective at every real threshold |
| `Cvar.EmpiricalCvarIsMinimum` | mixle/stochastic_opt.py:100-112 | the sorted prefix-sum formula is exactly the minimum of the Rockafellar-Uryasev objective over all real thresholds, attained, for every non-empty sample and alpha in (0,1) |
| `Cvar.MeanAtMostCvar` | mixle/stochastic_opt.py:100-112 | CVaR is never below the mean loss |
| `Cvar.CvarAtMostWorst` | mixle/stochastic_opt.py:100-112 | nor above the worst |
| `Cvar.CvarIsWorstLoss` | mixle/stochastic_opt.py:100-112 | and it is the worst loss where the tail holds at most one scenario |
| `RiskPlan.CvarEpigraph` | mixle/stochastic_opt.py:155-202 | the objective row and constraint rows filled in place are the epigraph of the losses; refusals for an alpha outside (0,1) and for no scenarios |
| `RiskPlan.EpigraphIsCvar` | mixle/stochastic_opt.py:162-163 | for each fixed decision the least value of the objective row over the rows and u >= 0 is exactly the CVaR of its losses, never below and attained |
| `RiskPlan.FeasibleMeansAllowed` | mixle/stochastic_opt.py:332-380 | a point is feasible iff its selection is 0/1, avoids every excluded item, meets every cap (>= caps sign-flipped), and its (eta, u) covers the losses |
| `RiskPlan.ObjectiveMeaning` | mixle/stochastic_opt.py:328-330 | the objective at a point is expected value minus the priced risk |
| `RiskPlan.OptimalPointIsBest` | mixle/stochastic_opt.py:383-388 | the selection decoded from an optimal point has the greatest mean-minus-CVaR of all allowed selections |
| `RiskPlan.BestIsOptimalPoint` | mixle/stochastic_opt.py:383-386 | conversely a best selection extends to an optimal point |
| `RiskPlan.AnswersWhenAllowed` | mixle/stochastic_opt.py:384-385 | the program is reported infeasible exactly when no selection is allowed |
| `RiskPlan.DiscretePlanOfBinary` | mixle/stochastic_opt.py:127-132 | on a 0/1 point the rounding is the identity, and both reported figures are those of the point's own selection |
| `RiskPlan.BuildBounds` | mixle/stochastic_opt.py:332-356 | exclusions overwrite exactly the bounds of the items they name |
| `RiskPlan.BuildCapRows` | mixle/stochastic_opt.py:358-376 | cap rows and limits, or the first malformed cap |
| `RiskPlan.RiskAdjustedPlan` | mixle/stochastic_opt.py:265-389 | the first check that fails, in source order, is the error; otherwise infeasibility iff no selection is allowed, and else a plan whose selection has the greatest merit of all allowed ones, with its own figures |
| `RiskPlan.TwoStageStochasticPlan` | mixle/stochastic_opt.py:205-262 | with valid inputs a plan is always returned, and it is best over all 0/1 selections |
| `RiskPlan.ExpectedValueIsAverage` | mixle/stochastic_opt.py:241 | pricing a selection by mean profits is averaging its value over the scenarios |
| `RiskPlan.PlanObeys` | mixle/stochastic_opt.py:341-380 | a plan selects nothing excluded and keeps every cap in its own sense |
| `RiskPlan.AllowedIff` | mixle/stochastic_opt.py:341-380 | a selection is allowed iff it takes or leaves each item, leaves every excluded one and keeps every cap in its own sense |
| `SlackNetwork.NoNegativeCycle` | mixle/pipeline_twin.py:281-282 | a minimum-cost flow leaves no usable residual cycle of negative cost |
| `SlackNetwork.LoopErasure` | mixle/pipeline_twin.py:91-92 | cutting the loops out of a walk leaves a simple walk of some of its steps |
| `SlackNetwork.SimplePathAtMostCeiling` | mixle/pipeline_twin.py:91-95 | a simple residual path of real arcs costs at most the total magnitude of the real arc costs, whatever the signs |
| `SlackNetwork.CheaperDetour` | mixle/pipeline_twin.py:93-95 | moving a unit off slack onto a real residual walk is a residual cycle of negative cost |
| `SlackNetwork.SlackCarriesOnlyUnroutable` | mixle/pipeline_twin.py:77-102 | in every minimum-cost flow of the augmented network, if some flow goes a -> slack and some goes slack -> b, then a differs from b and no residual walk of real arcs leads from a to b |
| `SlackOptimum.BoundaryIsTight` | mixle/pipeline_twin.py:91-95 | every arc out of the nodes that slack users can still reach is full, and every arc into them is empty |
| `SlackOptimum.SlackIsLeast` | mixle/pipeline_twin.py:77-95 | no feasible flow of the augmented network sends less into slack, or draws less from it, than a minimum-cost one: slack carries exactly the unavoidable remainder |
| `SlackOptimum.SlackNeverBinds` | mixle/pipeline_twin.py:86-90 | in every minimum-cost flow each slack arc, in or out, carries strictly less than the slack capacity |
| `Twin.AugmentWithSlack` | mixle/pipeline_twin.py:72-113 | the extended matrices filled in place, and the balancing supply, are the augmented problem |
| `Twin.AugmentedIsFeasible` | mixle/pipeline_twin.py:75-90 | the augmented problem is balanced and feasible for every supply vector |
| `Twin.DeliveryPlusSlackIsDemand` | mixle/pipeline_twin.py:285-294 | in any feasible flow a node's net delivery plus its net slack inflow is its demand |
| `Twin.ApplyInterventions` | mixle/pipeline_twin.py:175-216 | edits applied in place are, one after another, those whose meaning is given by the rows below; the first failing edit decides the error |
| `Twin.EditsInOrder` | mixle/pipeline_twin.py:179-216 | a scenario is its entries one after another, the first failure ends it, and an entry of no known kind is refused |
| `Twin.ArcIsAdded` | mixle/pipeline_twin.py:180-184 | an added arc gets its capacity and its price and nothing else changes; negative indices count from the back and an index off the array is refused |
| `Twin.NodeIsCutOff` | mixle/pipeline_twin.py:185-190 | a zeroed node loses exactly the arcs that touch it |
| `Twin.MultiplierScalesOne` | mixle/pipeline_twin.py:191-195 | a multiplier scales the supply of its node and changes nothing else |
| `Twin.SpikeRaisesDemand` | mixle/pipeline_twin.py:196-214 | a demand delta is so much more demanded at that node and nothing else; it is refused at a node that is no demand node |
| `Twin.SpikeIsReported` | mixle/pipeline_twin.py:175-323 | two runs whose scenarios differ in a final demand delta report demands that differ by it at that node and nowhere else |
| `Twin.ZeroedNodeLosesAll` | mixle/pipeline_twin.py:185-190 | in every feasible flow of a network with a zeroed node, that node's whole demand goes through slack |
| `Twin.KnockedOutNodeLosesAll` | mixle/pipeline_twin.py:185-190 | a node whose arcs are all knocked out delivers nothing: all of its demand goes through slack |
| `Twin.LostSalesAreSlack` | mixle/pipeline_twin.py:292-296 | lost sales is the sum of the positive net slack inflows of the demand nodes |
| `Twin.ThroughputPlusSlackIsDemand` | mixle/pipeline_twin.py:285-296 | throughput and the net slack inflows of the demand nodes are together what those nodes demand |
| `Twin.NoiseAddsUp` | mixle/pipeline_twin.py:276-279 | a period's supply is the scenario's plus every draw made at the node |
| `Twin.UtilizationIsShare` | mixle/pipeline_twin.py:298-299 | an arc's utilization lies between 0 and 1 and times its capacity is its flow |
| `Twin.FindBottleneck` | mixle/pipeline_twin.py:301-308 | the first real arc in row-major order of greatest utilization, or none |
| `Twin.BusiestIsGreatest` | mixle/pipeline_twin.py:301-308 | the reported bottleneck utilization is the greatest of any real arc, or 0 when there is none |
| `Twin.LostSalesOverRun` | mixle/pipeline_twin.py:275-313 | with disjoint supply and demand nodes each period's lost sales is its slack draw, and the cumulative series is the running total |
| `Twin.SolvePeriods` | mixle/pipeline_twin.py:275-313 | every period is reported from a minimum-cost flow of that period's augmented problem |
| `Twin.PipelineTwin.constructor` | mixle/pipeline_twin.py:124-153 | the twin keeps copies of its arrays, and its node lists as given |
| `Twin.PipelineTwin.Scenario` | mixle/pipeline_twin.py:155-173 | a new twin with one more scenario; the base twin is unchanged |
| `Twin.PipelineTwin.Run` | mixle/pipeline_twin.py:218-323 | the run reports every period against the scenario's network, and fails exactly for a bad period count, an unknown scenario, a failing edit or a listed node off the array; negative node indices count from the end |
| `Lloyd.MeanIsBest` | benchmarks/_bench.py:115-117 | the mean of the members minimises their squared deviation from any reference |
| `Lloyd.NearestAssignmentIsLeast` | benchmarks/_bench.py:112-113 | assigning each point to its nearest centre gives the least total distance of any assignment |
| `Lloyd.MoveLowersAssigned` | benchmarks/_bench.py:114-117 | moving the centres with the assignment kept never raises the assigned total, empty clusters included |
| `Lloyd.PassDescends` | benchmarks/_bench.py:111-117 | one pass never raises the total squared distance to the nearest centre |
| `Lloyd.PassesDescend` | benchmarks/_bench.py:111-118 | nor does any number of passes |
| `Lloyd.Assign` | benchmarks/_bench.py:112-113 | the first centre of least distance, for every point |
| `Lloyd.PassIsPass` | benchmarks/_bench.py:111-117 | one pass puts every centre at the mean of the points whose first nearest centre it is, and leaves a centre with no such points where it is |
| `Lloyd.MoveCenters` | benchmarks/_bench.py:114-117 | centres overwritten in place become exactly one pass |
| `Lloyd.LloydKMeans` | benchmarks/_bench.py:107-118 | the in-place loop goes from the chosen points through exactly max_iter passes, one after another, and ends no higher than after any of them |
| `PairedTest.ClampOnlyWhenEqual` | examples/task_cascade_economics_example.py:57 | the doubled tail exceeds 1 exactly when the counts are equal |
| `PairedTest.PValueFallsWithImbalance` | examples/task_cascade_economics_example.py:53-57 | for a fixed total, a greater imbalance has a strictly smaller p-value |
| `PairedTest.RejectionIsDoubledTail` | examples/task_cascade_economics_example.py:53-57 | the probability of a p-value at or below a level is the doubled tail at the least rejected count |
| `PairedTest.PairedTestIsValid` | examples/task_cascade_economics_example.py:48-57 | for every n and every level in [0,1), Binomial(n, 1/2) gives a p-value at or below the level with probability at most the level |
| `PairedTest.PairedTestIsExact` | examples/task_cascade_economics_example.py:48-57 | at a level that is itself an untied p-value the probability equals the level |
| `RecordAdvice.TrainRowsNeverFall` | mixle/lifecycle.py:1362 | one more record never costs a training row, half-even rounding included |
| `RecordAdvice.RecordsForATrainableSplit` | mixle/lifecycle.py:1352-1366 | the least count from four on whose split is trainable, or 0 iff none up to 100000 is, which is so iff the holdout exceeds 0.999985 |
| `RecordAdvice.CheckSplit` | mixle/lifecycle.py:1480-1517 | a refused split advises only counts that it and every larger count would be accepted at, names a count iff the holdout is at most 0.999985, and offers a lower holdout iff some lower holdout succeeds; the fallback remedy is never needed |
| `ArtifactDirectory.WriteWrites` | mixle/lifecycle.py:749 | a completed write leaves the file with exactly its bytes and every other file alone |
| `ArtifactDirectory.DeployWrites` | mixle/lifecycle.py:643-695 | a deploy that runs through leaves its model file, no file of the other format, and its manifest |
| `ArtifactDirectory.IncompleteSparesManifest` | mixle/lifecycle.py:56-58 | a deploy stopped anywhere before the rename leaves the manifest as it found it |
| `ArtifactDirectory.ManifestIsOfLastCompleted` | mixle/lifecycle.py:53-85 | over any run of deploys, each cut off anywhere, the manifest is that of the last completed deploy, or absent when none completed |
| `ArtifactDirectory.LoadUnderManifest` | mixle/lifecycle.py:829-968 | under a deploy's manifest a load is that deploy's own load, as the row on OwnLoadServes says, or a refusal exactly because the named file is missing or differs |
| `ArtifactDirectory.LoadedIsWhatADeployWrote` | mixle/lifecycle.py:643-695 | over any run of deploys from an empty directory, each cut off between or inside steps, a successful load is that of the last completed deploy's own bytes under its own manifest |
| `ArtifactDirectory.OwnLoadServes` | mixle/lifecycle.py:929-1010 | what that load is: the model is what the deploy's JSON text, or else its pickle, decodes to, the fit record is the deploy's, and the notes are the deploy's in order followed by exactly the disclosures that are due, in order; and which refusal it is otherwise |
| `ArtifactDirectory.LoadServesLastCompleted` | mixle/lifecycle.py:643-1010 | both together: over any run a successful load returns the model that the last completed deploy's bytes decode to, of its family, under its fit record and notes |
| `ArtifactDirectory.LoadsIff` | mixle/lifecycle.py:829-968 | in any directory, whoever wrote it, a load succeeds iff there is a readable manifest of this schema, a known format, a plain name of a file that is there with the recorded digest, enough trust, and bytes that decode to the recorded family |
| `ArtifactDirectory.NothingCompletedNothingLoads` | mixle/lifecycle.py:829-842 | with no completed deploy nothing loads: the manifest is missing |
| `ArtifactDirectory.InterruptedRedeployNeverMixes` | mixle/lifecycle.py:612-616 | a redeploy that does not complete cannot change what loads: the earlier model or a refusal |
| `ArtifactDirectory.UndisturbedReader` | mixle/lifecycle.py:643-695 | a load that falls entirely between two operations of a deploy: the earlier model, the new one, or a refusal |
| `ArtifactDirectory.UninterruptedDeployIsReadable` | mixle/lifecycle.py:612-616 | after an uninterrupted deploy exactly one model file is there and every check before decoding passes |
| `ArtifactDirectory.WhenADeployLoads` | mixle/lifecycle.py:717-766 | a finished deploy loads iff its bytes decode to the deployed family (and a pickle only under exact trust): the one thing the JSON read-back does not check, and for a pickle nothing is checked |
| `ArtifactDirectory.PickleNobodyCanLoad` | mixle/lifecycle.py:755-766 | a concrete deploy that reports success with a pickle no reader can load |
| `ArtifactDirectory.JsonNobodyCanLoad` | mixle/lifecycle.py:746-750 | a deploy, of an instance of any subclass of tuple, that reports success with a JSON text that decodes as a plain tuple, which no reader can load |
| `ArtifactDirectory.Store.WriteTextAtomically` | mixle/lifecycle.py:53-85 | an exception before the rename removes the temporary file and leaves the destination alone; otherwise the destination holds the text; every intermediate state is recorded |
| `ArtifactDirectory.Store.WriteModel` | mixle/lifecycle.py:711-764 | JSON only when its own text decodes again, otherwise a pickle, with the partial pickle left when that fails |
| `ArtifactDirectory.Store.Deploy` | mixle/lifecycle.py:574-708 | the in-place deploy performs exactly its planned operations in order, passing through exactly the recorded states, and fails exactly when the model has no form or the manifest write raises |
| `ArtifactReader.UndisturbedLoad` | mixle/lifecycle.py:829-968 | the four looks of a load at one directory are the load of that directory: a load is atomic only between two operations of the writer |
| `ArtifactReader.WholeOrRefusedIff` | mixle/lifecycle.py:890-958 | whatever the looks at the model file found, torn reads included, a load under a deploy's manifest is that deploy's own load or a refusal iff it is not the case that the deploy's own bytes were digested and bytes that decode to something else were opened |
| `ArtifactReader.SuccessIsWholeIff` | mixle/lifecycle.py:895-958 | a load that succeeds returns the deploy's own model iff the bytes decoded are the bytes digested |
| `ArtifactReader.HistoryAt` | mixle/lifecycle.py:643-695 | after any number of operations of a run of deploys the directory is what some cut of that run leaves |
| `ArtifactReader.LoadOverTime` | mixle/lifecycle.py:843-958 | beside any run of deploys, a load that finds a manifest reads that of the last deploy completed by then, and answers from what its later looks find |
| `ArtifactReader.LoadIsWholeIff` | mixle/lifecycle.py:843-958 | beside any run of deploys, with the writer acting between the looks, the result is the own load of the last deploy completed when the manifest was read, or a refusal, iff the looks do not mix |
| `ArtifactReader.SuccessfulLoadIsWholeIff` | mixle/lifecycle.py:843-958 | and a load that succeeds is that deploy's own iff the model file holds at its second opening the bytes it held at its digest |
| `ArtifactReader.QuietLoadIsWhole` | mixle/lifecycle.py:895-958 | the guard: with no operation on a model file between the digest and the second opening, a load never mixes, whatever the writer does at other times |
| `ArtifactReader.ManifestStageIsQuiet` | mixle/lifecycle.py:53-85 | writing or abandoning a manifest is no operation on a model file |
| `ArtifactReader.RacedReadMixes` | mixle/lifecycle.py:895-958 | without the guard it does, on concrete deploys and an injective codec: the second model under the first deploy's records |
| `ArtifactReader.MixtureIsDisclosedIff` | mixle/lifecycle.py:968-1010 | such a mixture carries the note about content hashes iff both models have one and they differ |
| `ArtifactDirectory.SeenAreCuts` | mixle/lifecycle.py:643-695 | every state seen during a deploy is the state that deploy leaves when cut off there |
| `CapabilityLifecycle.MadeIsValid` | mixle/capability_lifecycle.py:313-354 | what the constructor makes, it accepts and leaves alone |
| `CapabilityLifecycle.MadeIff` | mixle/capability_lifecycle.py:313-354 | exactly which records the constructor accepts |
| `CapabilityLifecycle.RevokesIff` | mixle/capability_lifecycle.py:402-408 | which decisions can be revoked, by whom and when; the copy differs in the revocation alone |
| `CapabilityLifecycle.MarksIff` | mixle/capability_lifecycle.py:391-400 | a valid decision can be marked verified by any verifier with a name; the copy differs in the provenance alone |
| `CapabilityLifecycle.SnapshotReloads` | mixle/capability_lifecycle.py:665-679 | a reloaded snapshot keeps everything but the trust in its decision |
| `CapabilityLifecycle.EvolvesIff` | mixle/capability_lifecycle.py:599-648 | exactly which changes a valid snapshot accepts, and what the next snapshot is |
| `CapabilityLifecycle.TablesMean` | mixle/capability_lifecycle.py:462-532 | which single steps change each of the four dimensions |
| `CapabilityLifecycle.ReloadKeepsAllButTrust` | mixle/capability_lifecycle.py:431-459 | a reloaded decision keeps every field but the trust, and allows nothing by default |
| `CapabilityLifecycle.RevocationTakesEffect` | mixle/capability_lifecycle.py:402-408 | a revocation takes effect from its own time on and changes nothing before it |
| `CapabilityLifecycle.RevisionAndTime` | mixle/capability_lifecycle.py:599-648 | along every run the revision counts the steps and time never goes back |
| `CapabilityLifecycle.MaturityOnlyAdvances` | mixle/capability_lifecycle.py:462-477 | along every run maturity never moves backwards and changes at most five times |
| `CapabilityLifecycle.RetirementAbsorbs` | mixle/capability_lifecycle.py:579-582 | retirement is absorbing, in maturity and operation together |
| `CapabilityLifecycle.PromotionWasEarned` | mixle/capability_lifecycle.py:629-634 | a validated or supported maturity was taken on in a snapshot with a passed evaluation |
| `CapabilityLifecycle.EarnedFromTheStart` | mixle/capability_lifecycle.py:545-555 | from the default snapshot, a promoted snapshot looks back on the pass it was promoted with and the evaluation that passed, and its revision is the length of its history |
| `CapabilityLifecycle.PassWasRunning` | mixle/capability_lifecycle.py:509-516 | a pass follows immediately on a running evaluation |
| `CapabilityLifecycle.StandingBeganAsHypothesis` | mixle/capability_lifecycle.py:518-532 | from an unassessed start every other standing goes back to a hypothesis, for good |
| `CapabilityLifecycle.RefutedComesBackInDoubt` | mixle/capability_lifecycle.py:518-532 | along every run a refuted claim is corroborated again only after it was a hypothesis or contested |
| `CapabilityLifecycle.SupportedWasValidated` | mixle/capability_lifecycle.py:462-477 | along every run support follows directly on validation |
| `CapabilityLifecycle.TroubleFollowsService` | mixle/capability_lifecycle.py:479-504 | degraded or suspended service was starting or available before |
| `CapabilityLifecycle.UnevaluatedCheckNeverFires` | mixle/capability_lifecycle.py:572-578 | the constructor's unevaluated check never fires on an evolution |
| `CapabilityLifecycle.InForceUntilEnd` | mixle/capability_lifecycle.py:356-367 | a decision is in force exactly from the time it was made until its revocation or expiry, whichever is first, if it is a grant |
| `CapabilityLifecycle.AllowsIff` | mixle/capability_lifecycle.py:369-389 | a decision allows a scope iff it is a grant in force, names the scope or "*", and is not merely loaded unless taken on trust |
| `CapabilityLifecycle.MadeAllowsIff` | mixle/capability_lifecycle.py:313-389 | the same in terms of the scopes the record was given, surrounding whitespace aside |
| `CapabilityLifecycle.InForceGrantStays` | mixle/capability_lifecycle.py:635-637 | along every run a grant, with or without an expiry, is the authorization of every later snapshot up to its end |
| `CapabilityLifecycle.EndlessGrantStays` | mixle/capability_lifecycle.py:635-637 | a grant with no expiry and no recorded revocation is the authorization of every later snapshot |
| `CapabilityLifecycle.ReplacedOnlyAfterItsEnd` | mixle/capability_lifecycle.py:635-637 | another decision takes the place of a grant only once the grant has ended |
| `CapabilityLifecycle.RevokedCopyInstallable` | mixle/capability_lifecycle.py:402-408 | the revoked copy of a held grant can be installed at a time iff the grant has expired by then |
| `CapabilityLifecycle.RevocableIffItExpires` | mixle/capability_lifecycle.py:402-408 | so some run installs the revoked copy iff the grant has an expiry |
| `CapabilityLifecycle.RevocationComesTooLate` | mixle/capability_lifecycle.py:369-389 | from the time a revoked copy is installed the grant itself would allow nothing either |
| `CapabilityLifecycle.VerifiedCopyInstallable` | mixle/capability_lifecycle.py:391-400 | a newly verified copy of a held grant can be installed at a time iff the grant has ended by then |
| `CapabilityLifecycle.LoadedGrantNeverAllows` | mixle/capability_lifecycle.py:369-389 | a loaded endless grant allows nothing, in any later snapshot at any time |
| `CapabilityLifecycle.RetirementReachable` | mixle/capability_lifecycle.py:583-585 | from a valid snapshot retirement is reachable iff no endless grant is held |
| `Framing.ParseStream` | setup.py:60-69 | the length-prefixed stream of a list of files decodes to exactly that list |
| `Framing.BigEndianEndsLow` | setup.py:64-67 | a length is written with its most significant byte first |
| `SourceProvenance.PosixInjective` | setup.py:63 | different relative paths have different posix forms |
| `SourceProvenance.PosixExtends` | setup.py:63 | a posix form is its components with a slash between each two |
| `SourceProvenance.ListingOrderIsIrrelevant` | setup.py:48-57 | whatever order the directory is listed in, the selected files and their order are the same |
| `SourceProvenance.SameStreamIffSameFiles` | setup.py:60-69 | two trees are hashed from the same bytes iff their selected files agree in name and content |
| `SourceProvenance.SelectionNotices` | setup.py:48-57 | the selection of two trees is the same iff they agree on every source file: the two root files and every .json, .py or .pyx below the package but the provenance |
| `SourceProvenance.OrderOfPaths` | setup.py:57 | files are ordered by the first path component in which they differ, a directory before what is in it |
| `SourceProvenance.PayloadSays` | setup.py:72-103 | a fresh record holds the hash of the source stream and the number of source files |
| `SourceProvenance.SdistSays` | setup.py:183-204 | a source distribution's record adds the same of the files it packs and changes nothing else |
| `SourceProvenance.WheelNamesOwnCommit` | setup.py:82-87 | a wheel names the declared commit when it is well formed, or else git's, whatever record the tree ships |
| `SourceProvenance.WheelOfNoOrigin` | setup.py:82-87 | with no commit declared or found, in a tree that ships no record, it names the commit unknown |
| `SourceProvenance.ProvenanceIsNotDigested` | setup.py:54-57 | the provenance file is no part of its own digest |
| `SourceProvenance.SourceContentDigest` | setup.py:60-69 | feeding the hash frame by frame computes the digest of the stream |
| `SourceProvenance.CarriedProvenance` | setup.py:106-142 | the record found, iff its form is adoptable and its digest is that of this tree |
| `SourceProvenance.CarriedIffUnchanged` | setup.py:106-142 | a shipped record is adopted iff its commit is well formed and the tree's selected files are exactly those packed |
| `SourceProvenance.BuildRecord` | setup.py:148-177 | the wheel's record: fresh identity with carried digest fields, or the carried record marked as such |
| `SourceProvenance.WheelOfASourceDistribution` | setup.py:164-174 | with no commit of its own, a wheel carries the shipped record iff nothing packed has changed, otherwise its own with an unknown commit |
| `SourceProvenance.PackedDigestIsThisTrees` | setup.py:152-163 | a wheel names a digest of packed files only if it is the digest of the tree it was built from |
| `SourceProvenance.UnchangedReleaseKeepsItsCommit` | setup.py:183-204 | a release tree built from unchanged gives its commit to the wheel |
| `SourceProvenance.Disk.MakeReleaseTree` | setup.py:183-204 | the release tree gets its provenance and the checkout stays byte for byte as it was, even through a hard link |
| `Base64Url.RepadUndoesStrip` | mixle/reproduction.py:530 | stripping the padding and putting it back restores the encoding |
| `Base64Url.DecodeUndoesEncode` | mixle/reproduction.py:312 | encode, strip, re-pad and decode is the identity on every byte string |
| `Base64Url.StrippedIsInjective` | mixle/reproduction.py:312-314 | no two byte strings have the same stripped encoding |
| `Base64Url.DecodeIsLenient` | mixle/reproduction.py:526-533 | the decoder accepts other spellings of the same bytes |
| `Receipt.SourceOfCompiled` | mixle/reproduction.py:181-193 | the name byte-compilation gives a cache file leads back to the module |
| `Receipt.WheelRecordHashes` | mixle/reproduction.py:508-582 | the loops compute the declared hashes or the first refusal, in the order of the checks |
| `Receipt.AcceptedWheelIsCovered` | mixle/reproduction.py:540-582 | an accepted wheel declares the true hash of every file it holds but its single RECORD |
| `Receipt.DeclaredIsHeld` | mixle/reproduction.py:569-576 | every declared hash is that of a file the archive holds |
| `SoundRelease.DeclaredIff` | mixle/reproduction.py:518-539 | the hashes read off the rows are those declared: one row a name, each "sha256=" and a spelling of 32 bytes, in any order |
| `SoundRelease.AcceptedIff` | mixle/reproduction.py:508-582 | a wheel is accepted, and with which hashes, iff it has one RECORD whose rows declare some hashes, have one unhashed row, of a RECORD, and say the truth about every file of the archive |
| `SoundRelease.RowsReadIff` | mixle/reproduction.py:480-505 | a RECORD is read iff every line is blank or has three fields |
| `SoundRelease.BlankSkipped` | mixle/reproduction.py:497-499 | blank lines do not matter |
| `SoundRelease.EscapesIff` | mixle/reproduction.py:563-568 | a name is refused iff it is absolute, names a drive or has a component that steps up |
| `SoundRelease.TrueRecordIsAccepted` | mixle/reproduction.py:508-582 | a wheel whose RECORD lists every file with its digest, and itself without one, is accepted with exactly those digests |
| `Receipt.InstalledContent` | mixle/reproduction.py:242-327 | verified iff every line of the installed RECORD is accounted for and some line is hashed; the entries are exactly the name, digest and size of each hashed file that is there, in order |
| `Receipt.SoundHashesAreTheFiles` | mixle/reproduction.py:303-315 | in a verified installation the digests decoded from RECORD are exactly those of the files |
| `Receipt.SubjectBinding` | mixle/reproduction.py:585-676 | verified iff the running package is the installed one with the wheel's provenance and every wheel entry has the same installed digest; raises iff an installed digest cannot be decoded |
| `Receipt.CompareHashes` | mixle/reproduction.py:661-666 | the comparison that stops after ten mismatches reports none iff there is none |
| `Receipt.BuildReceipt` | mixle/reproduction.py:758-782 | the whole verdict: which of the three errors is raised and when, and otherwise whether the receipt passes, for a wheel, for a source tree and for neither |
| `SoundRelease.SoundReleasePasses` | mixle/reproduction.py:758-782 | a sound release passes: such a wheel, installed as it is with whatever an installer adds, running and with every claim holding, gets a passing receipt |
| `SoundRelease.UnhashedCodeFails` | mixle/reproduction.py:300-301 | one installed line of code, a library or data outside the metadata that has no hash fails the receipt |
| `SoundRelease.ForeignUnhashedFails` | mixle/reproduction.py:298-299 | so does one about something that is not this distribution's |
| `SoundRelease.StrayBytecodeFails` | mixle/reproduction.py:269-297 | so does a cache file whose source is not hashed or does not agree with it |
| `SoundRelease.OtherSourceFails` | mixle/reproduction.py:634-638 | so does a provenance that differs in commit, tree or content |
| `Receipt.RecordsAgreeIffFilesDo` | mixle/reproduction.py:651-668 | given an accepted wheel and a verified installation, the two RECORDs agree iff every hashed file of the wheel is installed with the hash of the archive's member |
| `Receipt.PassingReceiptMeansInstalled` | mixle/reproduction.py:758-782 | a passing receipt means every file of the wheel but its RECORD is installed with the wheel's own bytes, unless the two collide under the hash |
| `Blending.SpecRowsAreExact` | mixle/blending.py:100-126 | for positive demand, draws satisfy the rows and bounds iff they total the demand, respect availability, and every ratio grade lies in its window |
| `Blending.SpecConstraints` | mixle/blending.py:100-126 | the rows and bounds built in the loop are those of the recipe |
| `Blending.GatesAreExact` | mixle/blending.py:129-153 | a 0/1 gate vector exists iff every draw is 0 or between a parcel and the stock |
| `Blending.GatesAreFree` | mixle/blending.py:199 | the gates carry no cost |
| `Blending.MinParcelGates` | mixle/blending.py:129-153 | the padded matrix and gate rows filled in place |
| `Blending.BlendPassesVerification` | mixle/blending.py:82-97 | an exactly feasible blend always passes the check |
| `Blending.AcceptsWhatMakesSense` | mixle/blending.py:42-80 | exactly the inputs that make sense are accepted: a full grade matrix, ordered windows, a stock and a cost a source, a positive demand, and nothing negative |
| `Blending.PlainOptimumIsCheapest` | mixle/blending.py:195-196 | an optimum of the rows is a cheapest blend |
| `Blending.GatedOptimumIsCheapest` | mixle/blending.py:198-200 | an optimum of the gated rows is a cheapest blend among those the parcel floor allows |
| `Blending.BlendToSpec` | mixle/blending.py:156-220 | the cheapest blend, or a refusal exactly when no blend exists; the final check never fails |

## Left out

- MaximumWeightClosure: with precedence, optimality is stated up to the solver's slack, and exactly under a sufficient
  condition on the values; the exact set of such instances on which the tolerance costs nothing depends on the order of
  augmentations. Without precedence the exact condition is given.
- SolveBinary: stands for the solver's contract on 0/1 vectors; branch and bound, continuous variables and the solver's
  integrality tolerance are not modelled.
- MaximumFlow: the O(V E^2) bound on augmentations and infinite or NaN capacities are not modelled.
- LloydKMeans: the seeded draw of distinct points is a parameter; that the draw is distinct is not needed.
- RunNetwork: a scenario's nested dictionaries are one ordered list of edits, so the order of keys within one
  dictionary is the caller's.
- InstalledContent: the summary digest, the list of failures and the count of exempt bytecode are not modelled, nor the
  orphaned files of an installation without metadata.
- SubjectBinding: which mismatches are listed before the suppression of the rest depends on the sort order and is not
  modelled.
- WheelRecordHashes: CSV quoting, archive reading and the text of the errors are not modelled; two refusals about one
  claim (absent, different) are one.
- Deploy: directory creation, permissions, warnings and the list of evidence not exported are inputs or left out; an
  existing plain file at the path is not modelled.
- Load: missing paths, plain files and operating-system errors while reading are not modelled, except a model file that
  is gone when it is opened; a pickle's execution is
  represented only by its being reached under exact trust.
- CarriedProvenance: text decoding of the record is part of the JSON parameter.
- EndlessGrantStays: timestamps are unbounded integers; time zones, parsing and the largest date are not modelled.
- IEEE rounding, overflow and NaN everywhere, except the power-of-two rescaling of closure values; type checks of
  Python arguments (booleans, floats passed as counts) are left out because the types exclude them.
- The infeasible-subset diagnosis of blending, `blend_feasibility` and `build_twin`: diagnostics and argument checks.
- `_code_equal` and recompilation: the comparison of bytecode with its source is a parameter of the installation.
- Digest canonicalisation, schema versions and serialized text of lifecycle records: parsing with no state.
- Concurrent writers: the artifact protocol promises nothing with two of them. Readers beside one writer are covered; a
  manifest is read whole, because it is replaced by one rename.
- EM fitting, samplers, calibration, certificates and the remaining examples: library-backed numerical code.
