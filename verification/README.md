# Verification of the Antares simulator's algorithms

These modules model algorithms of the Antares power system simulator that stand around its solver
calls, and prove what they promise. Real numbers stand for `double`, with exact arithmetic;
horizons, numbers of areas, links, clusters, steps and days are symbolic. Loops over arrays and
vectors are methods with loops; objects whose methods update them are classes; each is proved
against a specification function or predicate, about which the properties are proved as lemmas.

- **Unit commitment** (`SparseRows`, `UnitCommitment`, `CommitmentRules`, `CommitmentCycle`,
  `CommitmentTransitions`, `CommitmentAdjustment`, `CommitmentRounding`). The auxiliary linear program
  of one thermal cluster is built into sparse arrays; its feasible points are exactly the plans that
  obey the rules written out around the cycle of hours; it has one exactly when the bounds allow; the
  adjusted minimum stays inside the old bounds for any correct solver; and a test says when it stays
  the same, and when the new one can be run.
- **Hydro remix** (`HydroRemix`, `RemixOutcomes`). Bisection on a water level: conservation,
  monotonicity, bracket, iteration bound, what every hour gets, optimality of the result, and when it
  moves nothing.
- **Minimum up and down times** (`UpDownSmoothing`, `SmoothedDurations`). The least cover of a guide by
  constant blocks, with the fewest unit-hours over all positions of the blocks; when it keeps the
  duration.
- **Directory walk** (`DirectoryWalk`, `DirectoryTree`, `JobCounter`). An explicit stack refines the
  recursive traversal; what that finds in a tree, and how an abort cuts it short; a shared counter is
  right in every interleaving of the threads.
- **Numbering of variables** (`VariableNumbering`, `NumberingBijection`, `NumberingCount`,
  `NumberingOrder`). The numbering pass is one to one onto its count, in the order of the variables,
  and fits the arrays of the counting pass.
- **Constraint matrix** (`ConstraintMatrix`, `NetworkRows`). Rows appended under growth; chains of
  links; nodal balance rows and the one left out.
- **Loop constraints** (`LoopConstraints`, `LoopSoundness`). Signs around a cycle and hourly bounds;
  when they are sound for every flow that obeys the law of each line, and that they are tight.
- **Reservoirs and budgets** (`Reservoir`, `ReservoirBalance`, `ReservoirRecords`, `ReservoirWeeks`,
  `Disaggregation`, `WeeklyBudgets`). Levels with spills and carried deficits over any sequence of
  weeks, before and after the remix; error-diffusing rounding in proportion; weekly energy budgets.
- **Names, correlation, averages** (`ConstraintNames`, `NameRoundTrip`, `Autocorrelation`,
  `AverageNtc`).

`Sums`, `Reals` and `Rounding` hold what several modules share about finite sums, order and rounding.

## What the code does that its purpose does not suggest

- The flag that decides whether the auxiliary program is solved starts as true and is never
  cleared (`src/solver/optimisation/opt_nombre_min_groupes_demarres_couts_demarrage.cpp`, line 234),
  so the program is always solved; the test in lines 282-334 has no effect. Used as intended, it would be right (`TestIsExactForCounts`, `UnchangedExactlyWhenDerivedPlanKeepsRules`).
- The solution is rounded up hour by hour, whatever that does to the durations: the new minimum can be
  run exactly when it passes that same test (`AdjustedMinimumCanRunExactly`), always when the solution
  runs whole units, and for some clusters never, whatever the solver (`AdjustedMinimumMayNotRun`).
- The remix takes its error branch at the hundredth turn whatever the distance reached then; it
  succeeds exactly when one of the first 99 levels hits the target (`Bisect`, `Converges`), and
  `LastTurnComesTooLate` is a window where only the hundredth does.
- A walk that a handler aborts after the first directory still ends with the statistics not marked
  as aborted (`src/libs/fswalker/fswalker.cpp`, line 382),
  and one whose first directory is skipped ends with them marked as aborted:
  `FlagTellsAbortsExactly`, `FlagMayBeWrong`.
- The pass over the lines of a network stops before the last hour of the year, so phase shifts of
  that hour do not count when the kind of constraint is chosen: an equality constraint may then cut
  off possible flows in that hour (`EqualityMayFailInTheLastHour`), by the exact condition of
  `EqualityIsSoundExactly`.
- A minimum duration that does not divide the horizon leaves blocks that are too short, and levels
  that are not kept: `DurationIsKeptExactlyWhenItDivides`, `SmoothingLeavesItTooShort`.
- The wait that ends a walk is not the last one: extensions may dispatch jobs after it
  (`FirstWaitIsNotFinal`).
- The sum of the inflow patterns of a month is checked against zero, but trailing zero patterns
  still divide by zero; the month is disaggregated under the condition of
  `DivisibleExactlyWhenLastIsPositive`.
- A day's turbining bound exceeds what the turbines can make when that equals the lower bound
  exactly and the upper bound is wider.
- Reservoir levels of areas without heuristic target are computed before the remix and not after
  it, although the remix may move their turbined energy. The records fit when all windows are skipped,
  never when one that is not is uneven (`UnevenWindowBreaksRecords`, `RecordedLevelsMayBeWrong`), and
  nearly otherwise (`EvenWeeksAreNearlyRight`).
- Weekly binding constraints are analysed without time step, and spaces in names come back as stars.

## Model

| member | source | states |
|---|---|---|
| SparseRows.Push | src/solver/optimisation/opt_nombre_min_groupes_demarres_couts_demarrage.cpp:426-429 | one term more in the open row; every finished row and every earlier term is as before |
| SparseRows.EndRow | src/solver/optimisation/opt_nombre_min_groupes_demarres_couts_demarrage.cpp:449-452 | the open terms become the next finished row with its sense; the rows before it are as before |
| SparseRows.RowAtDecodes | src/solver/optimisation/opt_nombre_min_groupes_demarres_couts_demarrage.cpp:421-559 | a reader of row starts, lengths, columns and coefficients finds exactly the row that was written |
| UnitCommitment.NumberVariables | src/solver/optimisation/opt_nombre_min_groupes_demarres_couts_demarrage.cpp:382-417 | four variables per hour, with their columns, bounds, kinds and costs |
| UnitCommitment.EmitBalance | src/solver/optimisation/opt_nombre_min_groupes_demarres_couts_demarrage.cpp:423-452 | the balance row of an hour, cyclic at hour 0 |
| UnitCommitment.EmitOutage | src/solver/optimisation/opt_nombre_min_groupes_demarres_couts_demarrage.cpp:454-470 | the row that keeps outages below stops |
| UnitCommitment.BoundOutages | src/solver/optimisation/opt_nombre_min_groupes_demarres_couts_demarrage.cpp:472-484 | outages are bounded by the loss of available units since the previous hour, cyclically; all other bounds are kept |
| UnitCommitment.EmitUp | src/solver/optimisation/opt_nombre_min_groupes_demarres_couts_demarrage.cpp:486-513 | the minimum up time row, over the wrapped window |
| UnitCommitment.EmitDown | src/solver/optimisation/opt_nombre_min_groupes_demarres_couts_demarrage.cpp:515-535 | the left-hand side and sense of the minimum down time row |
| UnitCommitment.MinDownRhs | src/solver/optimisation/opt_nombre_min_groupes_demarres_couts_demarrage.cpp:536-557 | its right-hand side: the units available before the window plus the gains within it, as `DownRhsIs` restates it |
| UnitCommitment.BuildProgram | src/solver/optimisation/opt_nombre_min_groupes_demarres_couts_demarrage.cpp:339-559 | the arrays hold exactly the four rows of every hour, their right-hand sides, bounds and costs, within the room allocated |
| CommitmentRules.FeasibleMeansRules | src/solver/optimisation/opt_nombre_min_groupes_demarres_couts_demarrage.cpp:419-559 | the feasible points of the arrays as a solver reads them are exactly the plans that obey balance, outage, up time and down time rules and the bounds |
| CommitmentCycle.RulesAreObeyed | src/solver/optimisation/opt_nombre_min_groupes_demarres_couts_demarrage.cpp:419-559 | a plan keeps the rules if and only if it obeys them written out around the cycle of hours: bounds, balance of units, outages, and for each hour both durations against what is available and what was lost |
| CommitmentCycle.FeasibleExactlyWhenObeyed | src/solver/optimisation/opt_nombre_min_groupes_demarres_couts_demarrage.cpp:419-559 | so the feasible points of the emitted arrays are exactly the plans that obey what the rules say of the inputs alone |
| CommitmentRules.UpTimeMeans | src/solver/optimisation/opt_nombre_min_groupes_demarres_couts_demarrage.cpp:486-513 | for balanced plans: the up time row says that the units stopped in the window other than by outage were running when it opened |
| CommitmentRules.DownTimeMeans | src/solver/optimisation/opt_nombre_min_groupes_demarres_couts_demarrage.cpp:515-558 | for balanced plans: the down time row says that the units running before the window and those started within it fit in what is available at the hour plus what was lost within the window |
| CommitmentRules.DownRhsIs | src/solver/optimisation/opt_nombre_min_groupes_demarres_couts_demarrage.cpp:536-557 | the right-hand side is the units available at the hour plus the sum of the losses of the window |
| CommitmentRules.MaximalPlanKeepsRules | src/solver/optimisation/opt_nombre_min_groupes_demarres_couts_demarrage.cpp:382-559 | running every available unit, with starts and outages following availability, obeys every row and bound |
| CommitmentRules.DownRhsCoversAvailable | src/solver/optimisation/opt_gestion_second_membre_couts_demarrage.cpp:79-105 | the right-hand side of the minimum down time row is never below the units available at the hour |
| CommitmentRules.PlanIsNonNegative | src/solver/optimisation/opt_nombre_min_groupes_demarres_couts_demarrage.cpp:486-513 | the up time rows keep every plan from running a negative number of units |
| CommitmentRules.FeasibleExactlyWhenBoundsAllow | src/solver/optimisation/opt_nombre_min_groupes_demarres_couts_demarrage.cpp:339-559 | the program has a solution exactly when no minimum exceeds its maximum and no maximum is negative, whatever the durations |
| CommitmentAdjustment.SolutionIsLeastPlan | src/solver/optimisation/opt_nombre_min_groupes_demarres_couts_demarrage.cpp:569-615 | a cheapest feasible point is a plan with the fewest unit-hours of all plans that obey the rules |
| CommitmentAdjustment.RoundedUpStaysInside | src/solver/optimisation/opt_nombre_min_groupes_demarres_couts_demarrage.cpp:617-623 | rounding such a plan up stays between the old minimum and the maximum; what it does to the durations is said by the next three |
| CommitmentRounding.AdjustedMinimumCanRunExactly | src/solver/optimisation/opt_nombre_min_groupes_demarres_couts_demarrage.cpp:617-623 | some plan that keeps the rules runs exactly the new minimum if and only if it passes the test of the durations |
| CommitmentRounding.WholeUnitsCanRun | src/solver/optimisation/opt_nombre_min_groupes_demarres_couts_demarrage.cpp:617-623 | it does when the solution runs whole units |
| CommitmentRounding.AdjustedMinimumMayNotRun | src/solver/optimisation/opt_nombre_min_groupes_demarres_couts_demarrage.cpp:569-623 | over any horizon of at least 6 hours there is a cluster whose bounds allow a plan and whose new minimum no plan can run, whatever the solver |
| CommitmentAdjustment.AdjustMinimum | src/solver/optimisation/opt_nombre_min_groupes_demarres_couts_demarrage.cpp:334-632 | for any correct solver the new minimum is a least plan rounded up, inside the old bounds, and equal to the old one exactly when the test of the durations foretells it; without a plan it is unchanged |
| CommitmentAdjustment.UnchangedExactlyWhenDerivedPlanKeepsRules | src/solver/optimisation/opt_nombre_min_groupes_demarres_couts_demarrage.cpp:569-623 | a least plan rounded up is the old minimum if and only if the plan made of the old minimum and its derived transitions keeps the rules |
| CommitmentTransitions.DeriveTransitions | src/solver/optimisation/opt_nombre_min_groupes_demarres_couts_demarrage.cpp:236-280 | starts, stops and outages that explain each change of running units: never both starts and stops, outages as many stops as availability explains |
| CommitmentTransitions.DerivedKeepsRulesOfAny | src/solver/optimisation/opt_nombre_min_groupes_demarres_couts_demarrage.cpp:236-280 | if any plan with these units keeps the rules, the one with the derived transitions does |
| CommitmentTransitions.TestDurations | src/solver/optimisation/opt_nombre_min_groupes_demarres_couts_demarrage.cpp:282-334 | the test of both durations on the derived transitions, hour by hour |
| CommitmentTransitions.TestIsExact | src/solver/optimisation/opt_nombre_min_groupes_demarres_couts_demarrage.cpp:282-334 | for units between their bounds the derived plan keeps all the rules if and only if the test passes and, without a minimum up time, no number of units is negative |
| CommitmentTransitions.TestIsExactForCounts | src/solver/optimisation/opt_nombre_min_groupes_demarres_couts_demarrage.cpp:282-334 | for units that are not negative, as all that reach the code, it keeps them if and only if the test passes |
| CommitmentAdjustment.RaiseMaximum | src/solver/optimisation/opt_nombre_min_groupes_demarres_couts_demarrage.cpp:184-197 | maxima below the minimum are raised to it, and available power to what the maximum needs |
| CommitmentAdjustment.AdjustCluster | src/solver/optimisation/opt_nombre_min_groupes_demarres_couts_demarrage.cpp:113-198 | the caller: rounded result, adjustment, and minimum never above maximum afterwards |
| HydroRemix.ServeHour | src/solver/simulation/common-hydro-remix.cpp:136-163 | the three branches give the level poured over the hour's floor, clamped to what the hour can take |
| HydroRemix.Pour | src/solver/simulation/common-hydro-remix.cpp:129-172 | at one level every mixed hour gets its clamped share, the others keep theirs, and the stock is their sum |
| HydroRemix.Collect | src/solver/simulation/common-hydro-remix.cpp:94-120 | which hours are mixed, their floors, the first bracket and the energy to place |
| HydroRemix.StockRises | src/solver/simulation/common-hydro-remix.cpp:129-172 | the stock never falls when the level rises |
| HydroRemix.StockRisesAtMost | src/solver/simulation/common-hydro-remix.cpp:129-172 | it rises by at most the number of hours times the rise |
| HydroRemix.Turn | src/solver/simulation/common-hydro-remix.cpp:125-178 | one turn of the bisection: the target stays in the bracket, whose width is halved, and bounds the distance to the target |
| HydroRemix.Bisect | src/solver/simulation/common-hydro-remix.cpp:125-187 | it succeeds if and only if one of the first 99 levels it pours at places the target to within 0.01, and that is the level it leaves |
| HydroRemix.SmallGapConverges | src/solver/simulation/common-hydro-remix.cpp:125-178 | one of them does when the bracket after 99 turns allows no more than 0.01 |
| HydroRemix.ShortageNeverConverges | src/solver/simulation/common-hydro-remix.cpp:174-187 | none does when the hours lack the room for more than 0.01 of the target |
| HydroRemix.NoShortageWithinMaxPower | src/solver/simulation/common-hydro-remix.cpp:103-120 | the target is within reach when every hour turbines within its maximum power |
| HydroRemix.ReasonableWindowSucceeds | src/solver/simulation/common-hydro-remix.cpp:174-187 | a week whose first bracket spans at most 1e20 and whose hours turbine within their maximum power never takes the error branch |
| HydroRemix.IsSkipped | src/solver/simulation/common-hydro-remix.cpp:73-92 | windows without unsupplied energy, or without movable hydro energy, are left alone |
| HydroRemix.RemixWindow | src/solver/simulation/common-hydro-remix.cpp:73-199 | one window: skipped or poured, all other hours untouched |
| HydroRemix.Remix | src/solver/simulation/common-hydro-remix.cpp:57-203 | every window of the area has the outcome of its own remix, and the status says whether all succeeded |
| HydroRemix.RemixedHourConserves | src/solver/simulation/common-hydro-remix.cpp:132-198 | hydro plus unsupplied energy is unchanged in each hour, neither is negative, and a mixed hour keeps to its maximum power |
| HydroRemix.SkippedExactly | src/solver/simulation/common-hydro-remix.cpp:73-92 | a window is skipped if and only if its unsupplied energy, or its hydro energy of hours without spill, is below 1e-6 |
| HydroRemix.RemixedHourExactly | src/solver/simulation/common-hydro-remix.cpp:94-187 | hours with spill or margin, and hours without energy, keep what they have; every other hour of a window worth it gets what brings its net load to the level, within its energy and its maximum power |
| HydroRemix.FailsExactly | src/solver/simulation/common-hydro-remix.cpp:122-187 | a window fails if and only if it is worth remixing and none of the first 99 levels places its energy to within 0.01 |
| HydroRemix.RemixedWindowConserves | src/solver/simulation/common-hydro-remix.cpp:174-198 | a window succeeds if and only if it is skipped or converges, and then its hydro total changes by at most 0.01 |
| HydroRemix.PouringIsOptimal | src/solver/simulation/common-hydro-remix.cpp:132-172 | among all ways to place the same energy in the mixed hours within their limits, the pouring has the least sum of squared net loads, and is the only one |
| RemixOutcomes.RemixIsNearlyOptimal | src/solver/simulation/common-hydro-remix.cpp:132-187 | no way to place the energy that the window had, its own included, is better than a successful remix by more than the tolerance at twice the level |
| RemixOutcomes.UnmovedExactly | src/solver/simulation/common-hydro-remix.cpp:73-198 | a remix leaves a window as it is if and only if it is skipped or its mixed hours hold what the level pours |
| RemixOutcomes.EvenExactly | src/solver/simulation/common-hydro-remix.cpp:132-163 | they hold what some level pours if and only if no hour is over its limit and none that turbines has a higher net load than one with room left |
| RemixOutcomes.EvenWindowHardlyMoves | src/solver/simulation/common-hydro-remix.cpp:132-198 | in such a window, and in a skipped one, a successful remix moves at most 0.01 in all |
| RemixOutcomes.LastTurnComesTooLate | src/solver/simulation/common-hydro-remix.cpp:174-187 | a window that misses the target 99 times and is refused although the hundredth turn hits it |
| UpDownSmoothing.CoverAt | src/solver/optimisation/opt_calcul_des_pmin_MUT_MDT.cpp:39-93 | each hour gets the largest guide value of its block, zero at least; the cost is the sum of the excess over the guide |
| UpDownSmoothing.PeaksAreLeastCover | src/solver/optimisation/opt_calcul_des_pmin_MUT_MDT.cpp:39-93 | that is the pointwise least sequence above the guide and zero that is constant on every block |
| UpDownSmoothing.LeastCoverIsCheapest | src/solver/optimisation/opt_calcul_des_pmin_MUT_MDT.cpp:158-164 | so no cover for the same position of the blocks costs less |
| UpDownSmoothing.Smooth | src/solver/optimisation/opt_calcul_des_pmin_MUT_MDT.cpp:142-174 | the result is the least cover of the first position such that no cover of any position costs less, or no position costs less than 1e80 |
| UpDownSmoothing.BlocksHaveTheDurationExactlyWhenItDivides | src/solver/optimisation/opt_calcul_des_pmin_MUT_MDT.cpp:142-159 | all cyclic blocks have exactly the minimum duration if and only if it divides the horizon |
| UpDownSmoothing.CoversKeepTheDuration | src/solver/optimisation/opt_calcul_des_pmin_MUT_MDT.cpp:142-174 | then every hour lies in a run of at least that many cyclically consecutive hours at the same level |
| SmoothedDurations.DurationIsKeptExactlyWhenItDivides | src/solver/optimisation/opt_calcul_des_pmin_MUT_MDT.cpp:142-174 | all that smoothing makes of any guide keeps the duration if and only if it divides the horizon |
| SmoothedDurations.SmoothingLeavesItTooShort | src/solver/optimisation/opt_calcul_des_pmin_MUT_MDT.cpp:142-174 | otherwise, a guide of which smoothing makes itself, with a level kept for too short |
| SmoothedDurations.SmoothedRunsLeast | src/solver/optimisation/opt_calcul_des_pmin_MUT_MDT.cpp:142-174 | the result runs no more unit-hours than any sequence above the guide in blocks of the duration, and one of the duration or of what the horizon leaves, from any hour within that one on; it is such a sequence, and those that begin earlier run more |
| SmoothedDurations.NotSmoothedExactly | src/solver/optimisation/opt_calcul_des_pmin_MUT_MDT.cpp:142-174 | no position is kept if and only if all such sequences run at least 1e80 unit-hours more than the guide |
| SmoothedDurations.SmoothedRunsLeastInEqualBlocks | src/solver/optimisation/opt_calcul_des_pmin_MUT_MDT.cpp:142-174 | with a duration that divides the horizon, it runs no more than any sequence above the guide that is constant on cyclic blocks of the duration from any hour on |
| UpDownSmoothing.GuideCurve | src/solver/optimisation/opt_calcul_des_pmin_MUT_MDT.cpp:127-140 | the number of units each production needs, none when it is negligible |
| UpDownSmoothing.RaiseMinimum | src/solver/optimisation/opt_calcul_des_pmin_MUT_MDT.cpp:176-185 | minimum power is raised to that of the units and capped by the available power |
| UpDownSmoothing.SmoothCluster | src/solver/optimisation/opt_calcul_des_pmin_MUT_MDT.cpp:115-186 | one cluster, left alone when a unit has no minimum power or no position is affordable |
| DirectoryWalk.WalkerThread.OnDirectoryEnter | src/libs/fswalker/fswalker.cpp:187-223 | handlers are asked in turn; the directory is entered, skipped or aborts the walk by the first verdict other than to continue |
| DirectoryWalk.WalkerThread.OnDirectoryLeave | src/libs/fswalker/fswalker.cpp:225-230 | the top directory is popped |
| DirectoryWalk.WalkerThread.TriggerFileEvent | src/libs/fswalker/fswalker.cpp:255-296 | the file is counted and batched; a full batch is dispatched and a new one begun |
| DirectoryWalk.WalkerThread.Scan | src/libs/fswalker/fswalker.cpp:314-360 | the entries of the top directory up to the first that is entered, keeping the events so far and the stack in step with the recursive traversal |
| DirectoryWalk.WalkerThread.Leave | src/libs/fswalker/fswalker.cpp:362-368 | exhausted directories are popped without changing what is left to traverse |
| DirectoryWalk.WalkerThread.Walk | src/libs/fswalker/fswalker.cpp:298-384 | the handlers are told exactly what the recursive traversal tells them, in order; both counts are exact; the jobs concatenate to the files found, all of 100 files but possibly a last nonempty one; the aborted flag ends up false exactly when the first directory is entered |
| DirectoryWalk.FlagTellsAbortsExactly | src/libs/fswalker/fswalker.cpp:298-384 | that flag says whether a handler asked to abort if and only if the first directory is aborted, or is entered and no directory below it is aborted |
| DirectoryWalk.FlagMayBeWrong | src/libs/fswalker/fswalker.cpp:298-384 | a skipped first directory, and an abort below the first directory |
| DirectoryTree.VerdictDecides | src/libs/fswalker/fswalker.cpp:187-223 | the verdict on a directory is that of the first handler that does not continue, or to continue |
| DirectoryTree.DirectoryIsFound | src/libs/fswalker/fswalker.cpp:298-384 | when no handler aborts, the traversal finds exactly the files of the directories that all handlers admit, in the order of the listings, and counts those directories |
| DirectoryTree.AbortCutsShort | src/libs/fswalker/fswalker.cpp:298-384 | a handler that aborts only cuts the traversal short: it ends with that answer, and what comes before is what would come had it skipped the directory instead |
| DirectoryTree.WalkTree | src/libs/fswalker/fswalker.cpp:298-384 | the walker, when no handler aborts: jobs of 100 files but for the last one that concatenate to those files, and both counts |
| JobCounter.IJob.DecrementCounter | src/libs/fswalker/job.cpp:32-40 | gives the count back once and forgets the counter |
| JobCounter.IJob.Destroy | src/libs/fswalker/job.cpp:42-47 | gives the count back if that has not been done |
| JobCounter.DispatchToDestruction | src/libs/fswalker/job.cpp:32-47 | from dispatch to destruction a job leaves the counter as it was, however often it decrements by hand |
| JobCounter.StepKeepsInvariant | src/libs/fswalker/fswalker.cpp:386-435 | every step of every thread keeps the counter equal to the number of outstanding jobs |
| JobCounter.CounterCountsOutstandingJobs | src/libs/fswalker/fswalker.cpp:427-435 | so in every interleaving; no job gives its count back twice, a destroyed one did exactly once |
| JobCounter.WaitFindsNone | src/libs/fswalker/fswalker.cpp:386-425 | after a wait that ended without a stop request no job is outstanding or being dispatched |
| JobCounter.WaitIsFinal | src/libs/fswalker/fswalker.cpp:229-253 | after the wait that follows the extensions that holds for ever |
| JobCounter.FirstWaitIsNotFinal | src/libs/fswalker/fswalker.cpp:241-249 | after the wait that ends the walk it does not |
| VariableNumbering.Numbering.NumberStep | src/solver/optimisation/opt_construction_variables_optimisees_lineaire.cpp:43-231 | the variables of one step: links with and without hurdle costs, clusters, storages, supply and hydro under each smoothing mode |
| VariableNumbering.Numbering.NumberWaters | src/solver/optimisation/opt_construction_variables_optimisees_lineaire.cpp:233-262 | final stock and layers of the areas with water values |
| VariableNumbering.Numbering.NumberAllStartUps | src/solver/optimisation/opt_construction_variables_couts_demarrages.cpp:48-110 | the four start-up variables per cluster and step |
| VariableNumbering.Numbering.Number | src/solver/optimisation/opt_construction_variables_optimisees_lineaire.cpp:36-273 | the whole pass: the table and the count are those of its list of requests |
| NumberingBijection.CleanIsBijection | src/solver/optimisation/opt_construction_variables_optimisees_lineaire.cpp:43-264 | if no place is asked for twice, places and numbers below the count correspond one to one |
| NumberingBijection.NumbersAreABijection | src/solver/optimisation/opt_construction_variables_optimisees_lineaire.cpp:43-270 | no place is asked for twice, under every option, so the numbering is one to one onto 0 to N-1 |
| NumberingCount.NumberedExactlyWhenPresent | src/solver/optimisation/opt_construction_variables_optimisees_lineaire.cpp:43-270 | a place has a number exactly when the options give the study that variable |
| NumberingCount.NumberedCount | src/solver/optimisation/opt_construction_variables_optimisees_lineaire.cpp:43-270 | the number of variables in closed form |
| NumberingCount.CountVariables | src/solver/optimisation/opt_decompte_variables_et_contraintes.cpp:47-263 | the counting pass returns the numbering pass's count plus two per step and link without hurdle costs |
| NumberingCount.NumbersFitTheArrays | src/solver/optimisation/opt_decompte_variables_et_contraintes.cpp:47-263 | so every number given is a valid index of the arrays sized by the counting pass |
| NumberingOrder.NumbersFollowTheOrder | src/solver/optimisation/opt_construction_variables_optimisees_lineaire.cpp:36-273 | of two variables the one that comes first in the order of the pass (steps, then links, supply and hydro of each area; then stocks; then start-ups) has the lower number, so every single number is determined |
| NumberingOrder.OrderIsStrict | src/solver/optimisation/opt_construction_variables_optimisees_lineaire.cpp:36-273 | that order, stated of the inputs alone, never holds both ways |
| NumberingOrder.NumberStudy | src/solver/optimisation/opt_construction_variables_optimisees_lineaire.cpp:36-273 | the pass run from an empty table: exactly the variables that the options give have a number, one to one onto 0 to N-1, in that order, N in closed form |
| ConstraintMatrix.Problem.constructor | src/solver/optimisation/opt_alloc_probleme_a_optimiser.cpp:57-61 | the arrays as allocated, the growth increment a tenth of them |
| ConstraintMatrix.Problem.Grow | src/solver/optimisation/opt_alloc_probleme_a_optimiser.cpp:165-180 | larger arrays with the same content |
| ConstraintMatrix.Problem.LoadConstraint | src/solver/optimisation/opt_construction_matrice_des_contraintes_outils.cpp:34-60 | the row appended decodes to the terms supplied, earlier rows are untouched, and a place stays free |
| ConstraintMatrix.BufferedAt | src/solver/optimisation/opt_construction_matrice_des_contraintes_outils.cpp:40-52 | the terms of a row are those of the two buffers, in order |
| ConstraintMatrix.ExpectedTerms | src/solver/optimisation/opt_alloc_probleme_a_optimiser.cpp:92-135 | the number of terms expected for the sizes of a study; the growth increment is positive for every study |
| NetworkRows.ChainLinks | src/solver/optimisation/opt_chainage_intercos.cpp:33-52 | following the chains lists the links of each area, latest first, for origins and for destinations |
| NetworkRows.LinksAtExactly | src/solver/optimisation/opt_chainage_intercos.cpp:33-52 | each chain holds every link of its area exactly once and no other |
| NetworkRows.AddChain | src/solver/optimisation/opt_construction_matrice_des_contraintes_cas_quadratique.cpp:51-80 | the traversal of a chain ends and adds one signed term per link with a variable |
| NetworkRows.FillRow | src/solver/optimisation/opt_construction_matrice_des_contraintes_cas_quadratique.cpp:47-80 | outgoing links with coefficient 1, then incoming ones with -1 |
| NetworkRows.BuildNodalRows | src/solver/optimisation/opt_construction_matrice_des_contraintes_cas_quadratique.cpp:35-84 | the balance row of every area but the last, under the number of the area |
| NetworkRows.NodalRowIsNetOutflow | src/solver/optimisation/opt_construction_matrice_des_contraintes_cas_quadratique.cpp:47-80 | a row evaluates to the area's outflow minus its inflow |
| NetworkRows.NodalTermsExactly | src/solver/optimisation/opt_construction_matrice_des_contraintes_cas_quadratique.cpp:47-80 | a row holds a term if and only if it is that of a link with a variable, 1 when it leaves the area and -1 when it enters it |
| NetworkRows.OutflowsCancel | src/solver/optimisation/opt_construction_matrice_des_contraintes_cas_quadratique.cpp:35-84 | net outflows of all areas sum to zero |
| NetworkRows.LastRowIsRedundant | src/solver/optimisation/opt_construction_matrice_des_contraintes_cas_quadratique.cpp:35-47 | a flow satisfying the rows emitted balances the last area too if and only if the balances sum to zero |
| LoopConstraints.Signs | src/solver/constraints-builder/cbuilder.h:142-177 | the signs are, up to one factor, the directions in which the round crosses the lines |
| LoopConstraints.ConsecutiveDirections | src/solver/constraints-builder/cbuilder.h:161-172 | the two comparisons of consecutive lines tell equal from opposite directions, and one of them always holds |
| LoopConstraints.DropsCancel | src/solver/constraints-builder/cbuilder.h:142-177 | with these signs the potential drops around the loop cancel |
| LoopConstraints.HourOf | src/solver/constraints-builder/create.cpp:74-127 | the impedances, weights and sums of one hour; the law of a line they are sound for is stated with impedance times flow less loop flow, less the phase shift |
| LoopConstraints.StateList.GetState | src/solver/constraints-builder/cbuilder.h:182-198 | the state with these impedances, added at the end if there was none; the others are kept |
| LoopConstraints.StoreHour | src/solver/constraints-builder/create.cpp:129-140 | the hour is stored in the state of its impedances and all hours stored before stay right |
| LoopConstraints.BuildLoop | src/solver/constraints-builder/create.cpp:57-144 | every hour is held by exactly one set of impedances with its weights and bounds; other calendars are refused |
| LoopSoundness.PhysicalFlowsAreWithinBounds | src/solver/constraints-builder/create.cpp:92-136 | two-sided constraints hold for every flow that obeys the law of each line |
| LoopSoundness.BoundsAreReached | src/solver/constraints-builder/create.cpp:92-136 | and nothing tighter would be: on a loop with an impedance in that hour, every value between the two second members is that of some flow that obeys the law of each line |
| LoopSoundness.EqualityIsSoundExactly | src/solver/constraints-builder/create.cpp:83-91 | the equality holds for every such flow if and only if: on a loop with an impedance in that hour, phase shifts are ignored or fixed; on one without, it asks for zero, or no phase shifts within their ranges cancel |
| LoopConstraints.UpdateLine | src/solver/constraints-builder/cbuilder.cpp:168-196 | fails exactly on a phase shift range that is the wrong way round before the last hour; otherwise whether impedances change, and whether shifts are fixed before the last hour |
| LoopSoundness.BuiltBoundsAreSound | src/solver/constraints-builder/create.cpp:57-144 | with two-sided constraints no state built for a loop cuts off a flow that obeys the line laws, in any hour |
| LoopSoundness.BuiltEqualityIsSoundExactly | src/solver/constraints-builder/create.cpp:57-144 | with equality constraints there is one state, it cuts off no such flow before the last hour, and in any hour it does exactly by the condition above |
| LoopSoundness.EqualityMayFailInTheLastHour | src/solver/constraints-builder/cbuilder.cpp:176-196 | over any horizon, a loop of three lines whose equality cuts off possible flows in the last hour |
| Reservoir.ComputeTimeStepLevel.Run | src/solver/simulation/sim_structure_probleme_economique.h:376-394 | one hour: level, spill and deficit, the deficit added to the inflow |
| Reservoir.ComputeTimeStepLevel.PrepareNextStep | src/solver/simulation/sim_structure_probleme_economique.h:396-401 | the deficit is taken off the next inflow |
| Reservoir.ComputingHydroLevels | src/solver/simulation/common-hydro-levels.cpp:42-88 | which call computes an area; levels in percent, corrected inflows and spills of the whole week |
| Reservoir.LastLevel | src/solver/simulation/common-hydro-levels.cpp:139-157 | the level handed to the next week is the one the week ended with: the percentage on record loses nothing |
| ReservoirWeeks.RunWeek | src/solver/simulation/adequacy.cpp:204-213 | guard, levels, remix, levels and next level: the turbining is that of the remix, window by window; the levels are those of the remixed turbining for areas with a heuristic target and of the one before for the others; the week fails exactly when some window is neither skipped nor converges |
| ReservoirRecords.RecordsBalanceAfterRemixExactly | src/solver/simulation/adequacy.cpp:204-213 | for an area without heuristic target: levels, corrected inflows and spills on record balance with the turbining on record if and only if each window is skipped or holds what is poured already |
| ReservoirRecords.UnevenWindowBreaksRecords | src/solver/simulation/adequacy.cpp:204-213 | they never do when some window is neither skipped nor even |
| ReservoirRecords.SkippedWindowsKeepRecords | src/solver/simulation/adequacy.cpp:204-213 | they do when all are skipped |
| ReservoirRecords.EvenWeeksAreNearlyRight | src/solver/simulation/adequacy.cpp:204-213 | when each is skipped or even and succeeds, levels on record are right to 0.01 per window |
| ReservoirRecords.LevelsStayClose | src/solver/simulation/common-hydro-levels.cpp:42-88 | levels for two turbinings differ by no more than the turbinings up to then |
| ReservoirRecords.StatesFitExactly | src/solver/simulation/common-hydro-levels.cpp:42-88 | levels and deficits are those of another turbining if and only if every hour in which it differs fills the reservoir either way |
| ReservoirRecords.LevelsFitExactly | src/solver/simulation/common-hydro-levels.cpp:42-88 | the same for levels alone, in a week that never empties the reservoir |
| ReservoirRecords.LevelsFitNoOtherTurbining | src/solver/simulation/common-hydro-levels.cpp:42-88 | in a week that neither empties nor fills it, the levels fit no other turbining |
| ReservoirRecords.RecordedLevelsMayBeWrong | src/solver/simulation/adequacy.cpp:204-213 | a week and its remix after which the recorded level is 4 where that of the recorded turbining is 5; no outcome of its remix has records that balance |
| ReservoirWeeks.RunWeeks | src/solver/simulation/sim_calcul_economique.cpp:455-478 | any number of weeks run one after the other: each starts from the level the previous one ended with; the initial level is refused in the first week or never; and the run ends unless it is refused or the remix of some week fails |
| Reservoir.LevelsStayWithinCapacity | src/solver/simulation/sim_structure_probleme_economique.h:380-393 | levels never leave [0, capacity] |
| Reservoir.HourBalances | src/solver/simulation/sim_structure_probleme_economique.h:376-401 | each hour balances exactly with the corrected inflow and the spill |
| Reservoir.CorrectionsOnlyAddTheLastDeficit | src/solver/simulation/sim_structure_probleme_economique.h:388-401 | over any first hours the corrected inflows exceed the original ones by the last deficit only |
| Reservoir.CorrectionSettlesTheWeek | src/solver/simulation/common-hydro-levels.cpp:79-87 | computing again with the corrected inflows changes nothing and no hour is short |
| Reservoir.LevelFromNetFlows | src/solver/simulation/sim_structure_probleme_economique.h:376-401 | the level of any hour without recursion: the least of what is left since each hour the reservoir may have been full, or zero |
| ReservoirBalance.RecordsAreRightExactly | src/solver/simulation/common-hydro-levels.cpp:63-87 | levels, inflows and spills on record are those of the computation if and only if every hour balances: it ends between zero and the capacity with what it held, spills what is above, and is lent energy only if it ends empty |
| Reservoir.OnlyTheFirstWeekCanBeRefused | src/solver/simulation/sim_calcul_economique.cpp:455-478 | over any weeks the two initial level errors never occur if and only if the first level is valid |
| Disaggregation.DivisibleExactlyWhenLastIsPositive | src/solver/ts-generator/hydro.cpp:228-232 | no value is divided by zero if and only if the last weight is positive |
| Disaggregation.PositiveSumIsNotEnough | src/solver/ts-generator/hydro.cpp:228-232 | a positive sum alone does not ensure that |
| Disaggregation.SpreadOverHours | src/solver/ts-generator/hydro.cpp:241-251 | run-of-river values of the hours, each the proportional share of what is left, rounded; the error is carried over |
| Disaggregation.SpreadOverDays | src/solver/ts-generator/hydro.cpp:258-267 | storage values of the days, in the same way |
| Disaggregation.HoursWeighAsDays | src/solver/ts-generator/hydro.cpp:241-251 | the hours of the remaining days weigh as much as those days, so the sum of the days serves both loops |
| Disaggregation.DisaggregateMonth | src/solver/ts-generator/hydro.cpp:219-267 | both series of the month in proportion to the pattern (see `SpreadIsInProportion`), or a refusal that changes nothing exactly when the pattern sums to less than 1e-6 |
| Disaggregation.SpreadIsExact | src/solver/ts-generator/hydro.cpp:237-267 | no value is negative, the remainder stays above -1/2 before the last value, and the total differs from the energy by at most 1/2, so it is the energy rounded unless that is a tie |
| Disaggregation.SpreadIsInProportion | src/solver/ts-generator/hydro.cpp:237-267 | each value is within 1/2 of the share that its weight has, among the weights from it on, in the energy not given before it |
| Disaggregation.MonthIsExact | src/solver/ts-generator/hydro.cpp:239-267 | for both series of a month, and for their sum within 1 |
| WeeklyBudgets.LeewayBudgets | src/solver/simulation/sim_calcul_economique.cpp:709-768 | upper and lower bounds of turbined energy of each day |
| WeeklyBudgets.LeewayBudgetsExactly | src/solver/simulation/sim_calcul_economique.cpp:709-768 | of the inputs alone: each day's own bound in the proportion in which the water covers the week, and the lower target under it |
| WeeklyBudgets.TurbinedBudgetIsExact | src/solver/simulation/sim_calcul_economique.cpp:744-765 | the daily upper bounds sum to the lesser of the widest week and the water available, which leaves the reservoir at or above its floor if it can be |
| WeeklyBudgets.DailyBoundsAreOrdered | src/solver/simulation/sim_calcul_economique.cpp:744-768 | lower bounds never exceed upper ones, and the week never widens a day's own bound |
| WeeklyBudgets.WidestRespectsCapabilityExactly | src/solver/simulation/sim_calcul_economique.cpp:728-739 | a day's own upper bound is within what the turbines can make, except exactly when that equals the lower bound and the upper one is wider |
| WeeklyBudgets.WidestMayExceedCapability | src/solver/simulation/sim_calcul_economique.cpp:732-739 | such a day |
| WeeklyBudgets.ScaledIsTheProportionalShare | src/solver/simulation/sim_calcul_economique.cpp:744-765 | the cut is the only allocation proportional to the days' own bounds with that sum |
| WeeklyBudgets.PumpingBudgets | src/solver/simulation/sim_calcul_economique.cpp:841-907 | upper bounds of pumped energy of each day |
| WeeklyBudgets.PumpingBudgetsExactly | src/solver/simulation/sim_calcul_economique.cpp:841-907 | of the inputs alone: each day's own bound in the proportion in which the room covers what the week would store |
| WeeklyBudgets.PumpedBudgetIsExact | src/solver/simulation/sim_calcul_economique.cpp:873-906 | times the pumping ratio they sum to the lesser of what the pumps can store and the room left |
| WeeklyBudgets.PumpingStaysUnderTheTop | src/solver/simulation/sim_calcul_economique.cpp:884-900 | so pumping alone never takes the reservoir over its top |
| ConstraintNames.FindIsFirst | src/solver/infeasible-problem-analysis/constraint.cpp:26 | the search for a separator finds the first one |
| ConstraintNames.Constraint.ExtractItems | src/solver/infeasible-problem-analysis/constraint.cpp:17-38 | terminates and appends the items of the name |
| NameRoundTrip.SplitOfJoin | src/solver/infeasible-problem-analysis/constraint.cpp:17-38 | items without separator that are not empty and do not end with a colon come apart as they were joined |
| NameRoundTrip.ItemsAreWhole | src/solver/infeasible-problem-analysis/constraint.cpp:24-36 | whatever the name, every item found is of that kind |
| NameRoundTrip.PrintedParts | src/solver/infeasible-problem-analysis/constraint-slack-analysis.cpp:50-58 | the slack of a printed constraint is its parts and the side, joined |
| NameRoundTrip.BindingRoundTrip | src/solver/infeasible-problem-analysis/constraint.cpp:98-149 | type, name, absence of an area and time step of a binding constraint are recovered |
| NameRoundTrip.BindingNameRecoveredExactly | src/solver/infeasible-problem-analysis/constraint.cpp:138-149 | its name is recovered if and only if it is not empty, holds no double colon and does not end with a colon |
| NameRoundTrip.AreaRoundTrip | src/solver/infeasible-problem-analysis/constraint.cpp:87-136 | type, area and time step of fictitious loads and hydro levels are recovered |
| NameRoundTrip.AreaNameRecoveredExactly | src/solver/infeasible-problem-analysis/constraint.cpp:53-96 | the area is recovered if and only if it is not empty and holds neither a double colon nor a closing bracket |
| NameRoundTrip.ReportBindingConstraint | src/solver/infeasible-problem-analysis/constraint-slack-analysis.cpp:50-58 | a binding constraint named at its place, its slack taken apart: the report gives its name if and only if that is whole, and then also its type and time step |
| NameRoundTrip.ReportAreaConstraint | src/solver/infeasible-problem-analysis/constraint-slack-analysis.cpp:50-58 | a fictitious load or hydro level named at its place, its slack taken apart: the report gives its area if and only if that can stand in brackets, and then also its type and time step |
| NameRoundTrip.NumbersRoundTrip | src/solver/optimisation/opt_rename_problem.h:136-139 | a time step is read back as the number printed |
| Autocorrelation.AutocorrAverage | src/analyzer/atsp/misc.cpp:324-349 | the ratio of the two double sums, with negative factors taken as 0 |
| Autocorrelation.CrossOfTheSameGroupIsOwn | src/analyzer/atsp/misc.cpp:331-346 | at distance 0 the full square and the doubled triangle with the diagonal agree |
| Autocorrelation.CrossMoves | src/analyzer/atsp/misc.cpp:331-336 | what moving the second group one step further changes |
| Autocorrelation.CrossInClosedForm | src/analyzer/atsp/misc.cpp:324-336 | the double sum in closed form, for any factor, group size and distance |
| Autocorrelation.AverageIsACorrelation | src/analyzer/atsp/misc.cpp:324-349 | 1 at distance 0, never growing with the distance, between 0 and 1 |
| Autocorrelation.AverageStaysWithinOneExactly | src/analyzer/atsp/misc.cpp:324-349 | it stays between 0 and 1 if and only if the factor is at most 1 or the distance is 0 |
| AverageNtc.YearsWeightSum | src/libs/antares/study/parameters.cpp:1201-1229 | the divisor: never zero |
| AverageNtc.WeightSumMatchesExactly | src/libs/antares/study/parameters.cpp:1201-1229 | when it is the sum of the weights that are counted |
| AverageNtc.WeightsBySeries | src/solver/simulation/common-eco-adq.cpp:435-444 | gathering the weights by series loses nothing, for any hour |
| AverageNtc.RetrieveAverageNTC | src/solver/simulation/common-eco-adq.cpp:422-463 | the average is the weighted average over the active years |
| AverageNtc.AverageIsSumOverDivisor | src/solver/simulation/common-eco-adq.cpp:422-463 | that average is the sum over the active years of weight times the capacity of the series the year uses, over the sum of their weights, 1 if that is 0, or the number of years without playlist |
| AverageNtc.AverageIsBetween | src/solver/simulation/common-eco-adq.cpp:446-461 | it lies between the least and the largest capacity used when weights are not negative and match the divisor |
| AverageNtc.ConstantCapacityAveragesToItselfExactly | src/solver/simulation/common-eco-adq.cpp:446-461 | a constant nonzero capacity averages to itself if and only if the divisor is the sum of the weights counted |
| AverageNtc.AverageIsBetweenExactly | src/solver/simulation/common-eco-adq.cpp:446-461 | with weights that are not negative, all averages lie between the least and the largest capacity used if and only if the divisor is that sum |
| AverageNtc.WeightlessPlaylistAveragesToNothing | src/solver/simulation/common-eco-adq.cpp:458-461 | a playlist that weighs nothing averages to 0 whatever the capacities |

## Left out

- Floating point: rounding, infinities and NaN are not modelled; comparisons with a tolerance are
  those of the code, that of `Math::Zero` being 1e-6.
- Solvers: the simplex solver is a function of the program with the contract of `Solves`; the other
  solvers and their files are not part of the model.
- UnitCommitment.BuildProgram: takes minimum durations of at most the horizon, as the wrapped
  indices of the code do; the initial solution vector and the allocation of working arrays that
  only the solver reads are left out.
- SparseRows.Push: the arrays of the auxiliary program are local vectors of one function and are
  modelled as a value that is replaced at each write.
- CommitmentAdjustment.AdjustCluster: the warnings printed when the result is out of bounds, and the
  variant with integer variables, are left out.
- HydroRemix.Remix: one area with given hourly margins; reading load and margins, the log message
  and the exception of the caller are left out. The window length is any positive number of hours.
- HydroRemix.ReasonableWindowSucceeds: the bound 1e20 on the first bracket and the limits on turbined
  energy make it a sufficient condition; the exact one is that of `Bisect`.
- UpDownSmoothing.Smooth: minimum durations are at least 1; a duration of 0 makes the code loop
  for ever.
- DirectoryWalk.WalkerThread.Walk: the file system is a finite tree in listing order and handlers
  depend on path and emptiness only; waiting while the queue is full, and stop requests from other
  threads, are left out, so handing over a file never fails; copying strings is not modelled.
- JobCounter.WaitIsFinal: jobs dispatch further jobs only while they run, and extensions only while
  they are finalized; waiting times are left out.
- VariableNumbering.Numbering.Number: the correspondence tables are one map keyed by place; types,
  names and integrality of the variables are left out.
- NumberingBijection.NumbersAreABijection: clusters and storages are numbered over the study without
  repetition, as the indices the pass reads are.
- NumberingCount.CountVariables: the constraint half of the counting pass is left out.
- ConstraintMatrix.Problem.LoadConstraint: a zero increment is covered as long as the row fits; beyond
  that the code would write past its arrays.
- NetworkRows.BuildNodalRows: links join two different areas; right-hand sides and names are left out.
- LoopConstraints.Signs: loops go through each area once, as the mesh search yields them; that search
  is not part of this model.
- LoopSoundness.BuiltEqualityIsSoundExactly: lines in alternating current, as the code asks of loops,
  whose summaries are those of `UpdateLine`.
- LoopConstraints.UpdateLine: the check of loop flows against transfer capacities, and the average
  impedance, are left out.
- ReservoirWeeks.RunWeek: one area with a reservoir of positive capacity, whose turbined and unsupplied
  energy and maximum power are not negative.
- Reservoir.ComputingHydroLevels: an hour that does not spill keeps the overflow recorded before it.
- Disaggregation.DisaggregateMonth: the drawing of the monthly energy and its clamping are left out;
  the energy is not negative and the run-of-river share is between 0 and 1.
- WeeklyBudgets.LeewayBudgets: the choice among the modes of the week, and the plain bounds of the
  other modes, are left out; the days of the week are given in order.
- ConstraintNames.Constraint.ExtractItems: names are sequences of characters; the pattern that selects
  constraints and the printed report are left out.
- Autocorrelation.AutocorrAverage: groups hold at least one value.
- AverageNtc.RetrieveAverageNTC: at least one year is simulated and every series has a value for
  every hour.
- Simulation loops, cost and bound tables, file formats, logs and the command line: left out, as they
  would only add copies and simple branches.
