# Radiopath: a model of its hard cores

This project models the parts of Radiopath in which state, loops and arithmetic interact, and proves what they
promise.

- **The job queue** (`JobTable`, `JobProtocol`, `JobLeases`, `JobWork`, `JobRuns`, `JobSteps`, `JobStore`,
  `JobWaits`). Requests, workers, the janitor and edits run SQL statements against one table in any order. Each
  statement is one step of a state machine; the store, the worker and the waiting request are also written as methods,
  whose log of statements is a run of that machine, and between whose statements anything else may happen. Without any
  assumption on time the table is an exact cache of what jobs compute to, work and quotas are bounded. When workers
  meet their deadlines a job has at most one live holder and a finished job is final.
- **Terrain analysis of the irregular terrain model** (`LeastSquares`, `OrderStatistics`, `TerrainIrregularity`,
  `Horizons`, `QuickPfl`, `RoughPaths`, `PathHeights`). The incremental fit is the unique optimum. Its laws follow
  from that: tilting, scaling and reversing the profile. With the mirrored horizon scan and resampler they make the
  path parameters reciprocal, under a condition on ties that is shown to be needed.
- **Exchange sorts of the HF model** (`ExchangeSort`, `HfModes`). Two nested loops over the full range sort; the proof
  is a two-phase invariant for any length. Mode ranking, signal and interferer lists and the control point rest on it.
- **Rasters, tiles and legends** (`Merge`, `Hgt`, `TileCache`, `Legend`, `MarginRaster`, `MapTiles`). Merging loses no
  pixel, the tile cache holds exactly the most recent tiles and is invisible while the files are steady, stored
  margins render alike exactly for whole-dB legends, stitched maps show each pixel of the wrapped world.
- **Limits over time** (`RateLimits`, `Sessions`). A sharp bound on admitted hits, cleaning that no answer can tell,
  and what sliding expiry guarantees.
- **Piecewise geometry** (`CanopyPath`, `Antenna`). Length in canopy is conserved and mirrored; patterns are resampled
  within bounds, and sector parameters are the inverse of sectors exactly where they can be.

`GoMath`, `Decimals`, `Multisets`, `Timeline` and `Options` hold arithmetic, number texts, rearrangements, runs in
time and the option type. Code that changes state is modelled by classes and by methods over arrays; what it promises
is proved of the functions and predicates that specify it.

Conventions: floating-point numbers are exact reals and NaN is `None`. `exp` and `sqrt` are parameters with the few
laws each theorem names. Times are integers in microseconds. Every SQL statement is atomic, ids are not used again and
the clock does not go back. A hash stands for its preimage. PNG encoding is taken to be invertible and a map tile to
be 256 by 256 pixels. Two or more rasters that `Merge` joins have boxes with some extent, as every computed one has.
Profiles start at distance 0.

What the code does and its comments or tests do not say:

- `jobWaits.forget` drops the channel although other waiters may share it (internal/web/jobs.go:172-178);
  `JobWaits.WokenExactly` says when a waiter is woken. The others rely on their poll.
- The time window of the HF model is divided by 1000 although both sides are said to be in ms
  (internal/hf/circuit_reliability.go:427-428); the model follows the code.
- The merge cap is met only by grids of certain proportions (`Merge.CapKeptExactly`, `Merge.CapExceeded`); the case in
  the test for the cap is one of them.
- `runJob` may return a failed job without an error.
- A legend with a threshold of -127 or between whole dB renders differently from stored margins
  (`MarginRaster.RenderingPreserved`), and is accepted.
- On ties the horizon distance goes to the sample nearest the transmitter, so `quickPfl` need not be reciprocal there
  (`QuickPfl.ReciprocalExactly`, `QuickPfl.NotReciprocal`). Over rough terrain only the one direction is stated
  (`QuickPfl.Reciprocal`, `QuickPfl.RoughReciprocal`): unequal insets may still give equal fits by chance.
- A fixed window admits up to 2 max - 1 hits in an interval of its length.

## Model

| member | source | states |
|---|---|---|
| JobTable.HashIdentifies | internal/store/jobs.go:54-58 | the hashed text names one kind and one input, so that rows with equal hashes are the same job |
| JobTable.CoverageInputIdentifies | internal/store/jobs.go:165 | the input made for a coverage names it, so two coverages never share a job |
| JobTable.OldestExists | internal/store/jobs.go:122-129 | among claimable rows there is always one queued first, so the claim finds a row whenever one is claimable |
| JobProtocol.StepSound | internal/store/jobs.go:60-191 | every statement, whoever runs it, keeps one row per owner and hash, keeps what each row is, and keeps rows and held jobs in agreement |
| JobProtocol.RowUntouched | internal/store/jobs.go:120-191 | a row not claimed, not written by its holder and not queued again stays exactly as it is, or goes |
| JobProtocol.StepCached | internal/store/jobs.go:91-150 | no statement puts into a short job any result but the one its own kind and input compute to |
| JobProtocol.CacheIsExact | internal/web/jobs.go:44-46 | over any interleaving of requests, workers, crashes, takeovers, late writers, requeues, cleaning and edits, a finished short job carries exactly the computed result; no lease is assumed |
| JobProtocol.CacheFromStart | internal/web/jobs.go:44-46 | the same for every table reached from an empty one |
| JobLeases.ClaimMissesHolds | internal/store/jobs.go:120-129 | a claim never hits a job in the hands of a live worker: deadline plus write budget is less than the time to staleness |
| JobLeases.StepIntact | internal/worker/worker.go:20-29 | through every event a surviving hold keeps its row as claimed, or the row goes |
| JobLeases.LeaseExclusion | internal/worker/worker.go:44-134 | in every state reached in time at most one live worker holds a job, whose row is gone or running as claimed |
| JobLeases.OneHolder | internal/worker/worker.go:20-29 | from an empty table, two workers never hold one job, and the held row carries the name and start time of its holder |
| JobLeases.FinalExactly | internal/store/jobs.go:131-143 | a finished job is safe from every enabled statement, deadlines or not, exactly when no live worker holds it |
| JobLeases.DoneForGood | internal/store/jobs.go:131-143 | and then over any run: its row stays as it is, or goes for good |
| JobLeases.DoneIsFinal | internal/worker/worker.go:20-29 | while deadlines are met no live worker holds a finished job, so it is final |
| JobLeases.DeliveryCounts | internal/worker/worker.go:126-133 | a worker that delivers in time finds its job gone or turns it from running, under its own name, to done |
| JobLeases.LateWriterUndoes | internal/store/jobs.go:138-143 | without deadlines that condition can fail: a run in which a late worker turns a finished job into a failed one |
| JobWork.BoundedWork | internal/worker/worker.go:75-81 | until it is queued again a job is computed at most as often as its attempts leave, never more than maxAttempts - 1 times, whatever fails |
| JobWork.BoundedOvertaking | internal/store/jobs.go:120-129 | while a job waits, no more computations of its class start than the jobs queued no later have left; true of every interleaving |
| JobWork.BoundedOvertakings | internal/worker/worker.go:75-81 | when giving up directly follows the last claim, a waiting job is overtaken by at most the remaining claims of the jobs ahead of it |
| JobWork.QuotaHolds | internal/store/jobs.go:74-98 | with at most c requests of an owner and class between the quota statement and the insert, never more than limit + c - 1 of its jobs are active |
| JobRuns.LogEvolves | internal/store/jobs.go:60-191 | along any run ids are not used again, and a row that stays is still the same job |
| JobRuns.LogWaits | internal/worker/worker.go:93-134 | what others do leaves the permit of a request and the hold of a worker as they are |
| JobSteps.EnqueuedLast | internal/store/jobs.go:91-96 | a request that meets no live job of its own leaves one waiting, untried and without traces of an earlier try, behind every other job |
| JobSteps.EnqueuedTwice | internal/store/jobs.go:91-99 | one that meets a live job changes nothing |
| JobSteps.ClaimedUntilStale | internal/store/jobs.go:120-129 | a claimed job can be claimed again exactly when it is stale; its place in the queue stays |
| JobSteps.RequeuedWaits | internal/store/jobs.go:145-150 | a running job put back is claimable for its class at every time and stale limit, at its old place, its attempts kept; a row in another state stays |
| JobSteps.ClaimedAndRequeued | internal/store/jobs.go:120-150 | over a claim and its return only the attempt is counted |
| JobSteps.CompletedUntilOld | internal/store/jobs.go:113-136 | a completed job has its result, is never claimable, and is cleaned away exactly when older than the age |
| JobSteps.FailedUntilAsked | internal/store/jobs.go:113-143 | a failed job has its message, is never claimable, and is cleaned away exactly when older than the age |
| JobSteps.CoverageCompleted | internal/store/jobs.go:169-191 | a completed coverage job is done, never claimable, and never cleaned away |
| JobSteps.CleaningSpares | internal/store/jobs.go:113-118 | cleaning takes no waiting or running job and no coverage job |
| JobSteps.ReplacedExactly | internal/store/jobs.go:162 | queueing a coverage drops its finished and failed jobs and nothing else |
| JobSteps.EditedExactly | internal/store/coverages.go:190 | editing a coverage drops its jobs but the running one and nothing else |
| JobStore.Store.Existing | internal/store/jobs.go:64-66 | finds the row of owner and hash, or none has it |
| JobStore.Store.CheckQuota | internal/store/jobs.go:74-90 | refuses exactly by the counts of the table it sees, quota before queue; otherwise the request may go on to its insert |
| JobStore.Store.Upsert | internal/store/jobs.go:91-96 | one enqueue event: a row inserted, or a failed one queued again from attempt 0; none comes back exactly when a live one is in the way |
| JobStore.Store.EnqueueJob | internal/store/jobs.go:60-106 | its own events are none, when it finds a job at once or is refused by the table as it is, or the quota check and the insert; the answer is the job queued, or what the table has for the hash when a live job was in the way; always of the caller's own owner, kind and input |
| JobStore.Store.ClaimJob | internal/store/jobs.go:120-129 | one claim event on a claimable row queued no later than any other; not found only when no row is claimable, and then nothing happens |
| JobStore.Store.FinishJob | internal/store/jobs.go:131-136 | one completion event with the result computed from the job as claimed |
| JobStore.Store.FailJob | internal/store/jobs.go:138-143 | one failure event, whatever state the row is in |
| JobStore.Store.RequeueJob | internal/store/jobs.go:145-150 | one requeue event, which moves only a running row |
| JobStore.Store.FinishCoverageJob | internal/store/jobs.go:169-191 | one completion event, or the row left alone when the coverage is gone |
| JobStore.Store.DeleteFinishedJobs | internal/store/jobs.go:113-118 | one cleaning event: exactly the old finished and failed short jobs go |
| JobStore.Store.EnqueueCoverage | internal/store/jobs.go:152-167 | a foreign coverage changes nothing; otherwise the finished job of the coverage is dropped, and what follows in the log is that of EnqueueJob |
| JobStore.Store.Interfere | internal/store/jobs.go:60-191 | everything others may do between two statements, as events of the protocol that are not the actor's |
| JobStore.Store.RunShort | internal/worker/worker.go:93-134 | exactly one event of its own, the last of the log: requeue on shutdown, failure, or the result computed from the job as claimed |
| JobStore.Store.WorkerRound | internal/worker/worker.go:52-90 | its own events are none, when nothing is claimable, or the claim of the oldest job and one end of it: given up at the last attempt, requeued, failed or completed with the computed result |
| JobStore.Store.RunWorker | internal/worker/worker.go:44-91 | any number of rounds: claims, each followed by one end |
| JobStore.Store.RunJob | internal/web/jobs.go:44-69 | an answer without error is the caller's own finished job, of the same owner, kind and JSON value, and a result in it is what that computes to |
| JobWaits.WokenExactly | internal/web/jobs.go:140-178 | over any run of waiting, notifying and giving up, the channel of a job is closed exactly when a notification comes before any of its waiters gives up |
| JobWaits.ClosedOnce | internal/web/jobs.go:162-170 | over any run no channel is closed twice, and those closed are exactly the ones notified |
| JobWaits.Waits.Wait | internal/web/jobs.go:147-160 | waiters of one job share one open channel, and jobs do not share |
| JobWaits.Waits.Done | internal/web/jobs.go:162-170 | closes the channel registered for the job, which is open, and no other |
| LeastSquares.LinearLeastSquaresFit | internal/itm/linear_least_squares_fit.go:4-36 | the two results are the ends, over the whole profile, of a line that no other line beats on the chosen samples with half weight at both ends |
| LeastSquares.FitBeats | internal/itm/linear_least_squares_fit.go:15-35 | no line has a smaller weighted sum of squares, and only the fit itself has the same |
| LeastSquares.OptimalIsFit | internal/itm/linear_least_squares_fit.go:15-35 | being optimal determines the line |
| LeastSquares.StraightReproduced | internal/itm/linear_least_squares_fit.go:4-36 | a profile straight over the chosen samples is reproduced exactly and continued to both ends |
| LeastSquares.MomentsClosed | internal/itm/linear_least_squares_fit.go:31-32 | the weighted sum of t is 0 and of t squared L(L^2 + 2)/12, which the closed formula needs |
| LeastSquares.FitRangeUsable | internal/itm/linear_least_squares_fit.go:7-13 | any two distances in order that meet the profile choose at least two samples of it, around both distances |
| LeastSquares.FitRangeTight | internal/itm/linear_least_squares_fit.go:7-13 | the range reaches both distances and at most a step beyond either |
| LeastSquares.FitLocal | internal/itm/linear_least_squares_fit.go:4-36 | samples more than a step outside the distances do not change the fitted line |
| LeastSquares.FitBoth | internal/itm/linear_least_squares_fit.go:4-36 | nor the two heights returned |
| LeastSquares.FitRangeMirrors | internal/itm/linear_least_squares_fit.go:7-13 | seen from the other end the clamping chooses the same samples |
| LeastSquares.FitTilts | internal/itm/linear_least_squares_fit.go:4-36 | a straight line added to the profile is added to the fit |
| LeastSquares.FitScales | internal/itm/linear_least_squares_fit.go:4-36 | scaling the profile scales the fit |
| LeastSquares.FitMirrors | internal/itm/linear_least_squares_fit.go:4-36 | seen from the other end the fit is the same line |
| OrderStatistics.SortDownSorts | internal/itm/compute_delta_h.go:56 | the sorted residuals descend and are a permutation |
| OrderStatistics.SortDownReversed | internal/itm/compute_delta_h.go:56 | sorting forgets the order of the samples |
| OrderStatistics.SortDownSelects | internal/itm/compute_delta_h.go:56-58 | the p-th entry from either end is the p-th highest and the p-th lowest value, by counting |
| OrderStatistics.SortDownScaled | internal/itm/compute_delta_h.go:56 | sorting commutes with a factor, and a negative one exchanges the ends |
| TerrainIrregularity.ComputeDeltaH | internal/itm/compute_delta_h.go:10-66 | every index is in range and the loops compute the spread of the detrended resampled terrain |
| TerrainIrregularity.ResampleLoop | internal/itm/compute_delta_h.go:31-43 | the moving offset reads, for each sample, the cell of the profile that its position is in |
| TerrainIrregularity.Detrend | internal/itm/compute_delta_h.go:45-54 | the loop that steps down the fitted line subtracts it |
| TerrainIrregularity.ResampledBetween | internal/itm/compute_delta_h.go:34-43 | every resampled height lies between two neighbouring samples around its position |
| TerrainIrregularity.DeltaHTilts | internal/itm/compute_delta_h.go:46-60 | a straight line added to the terrain changes nothing |
| TerrainIrregularity.DeltaHScales | internal/itm/compute_delta_h.go:46-65 | scaling the terrain by g scales the result by the absolute value of g |
| TerrainIrregularity.DeltaHNonNegative | internal/itm/compute_delta_h.go:56-65 | the result is never negative |
| TerrainIrregularity.DeltaHIsInterdecile | internal/itm/compute_delta_h.go:19-23 | delta_h times the path factor is the p-th highest less the p-th lowest of the 10 p - 5 residuals, p from 4 to 25 |
| TerrainIrregularity.TenthOfRange | internal/itm/compute_delta_h.go:19-20 | p is a tenth of the range and of 8 samples more, within its limits |
| TerrainIrregularity.PathFactorGrows | internal/itm/compute_delta_h.go:62-63 | the scaling to an infinite path falls from five with the distance |
| TerrainIrregularity.DeltaHMirrors | internal/itm/compute_delta_h.go:10-66 | the result is the same from either end |
| Horizons.FindHorizons | internal/itm/find_horizons.go:5-41 | each horizon is a highest angle of the whole profile, the first one scanned, with its distance from its own terminal |
| Horizons.TxScanFirst | internal/itm/find_horizons.go:24-34 | the transmitter scan returns the first highest sample, the far end before all |
| Horizons.RxScanFirst | internal/itm/find_horizons.go:24-39 | so does the receiver scan, from the transmitter's side |
| Horizons.HorizonMirrors | internal/itm/find_horizons.go:14-40 | seen in the other role a terminal has the same horizon angle always, and the same distance exactly when no tie decides it |
| Horizons.SightIsMutual | internal/itm/find_horizons.go:14-40 | each terminal is the other's horizon exactly when the ray between the antennas clears every sample with the bulge of the earth, so either both see each other or neither does |
| Horizons.HorizonTie | internal/itm/find_horizons.go:31-39 | for every curvature of the earth a profile with two hills at the highest angle, of which either direction takes the first |
| QuickPfl.CallsInRange | internal/itm/quick_pfl.go:20-57 | every distance quickPfl passes to the fit and to delta_h is in order and on the profile |
| QuickPfl.QuickPfl | internal/itm/quick_pfl.go:7-59 | the arrays written in place hold the path parameters of both branches |
| QuickPfl.RoughTerrain | internal/itm/quick_pfl.go:32-49 | the rewriting loops of the rough-terrain branch, both ends |
| QuickPfl.TakeoffReciprocal | internal/itm/quick_pfl.go:17-18 | takeoff angles swap on every path |
| PathHeights.TakeoffIsHighest | internal/itm/quick_pfl.go:17-18 | takeoff angles are the highest angle of each terminal; horizons apart are returned as seen |
| PathHeights.TransmitterHeight | internal/itm/quick_pfl.go:20-21 | horizons apart: the height over the line along the terrain from 15 antenna heights or a tenth of the horizon distance to nine tenths of it; no other terrain matters |
| PathHeights.ReceiverHeight | internal/itm/quick_pfl.go:56-57 | the same from the receiver's end |
| PathHeights.RoughHeights | internal/itm/quick_pfl.go:27-30 | over rough terrain both heights start from one line between the insets of both ends |
| PathHeights.StraightIsSmooth | internal/itm/compute_delta_h.go:10-66 | terrain straight between the distances has delta_h 0, whatever lies further out |
| PathHeights.PathIrregularity | internal/itm/quick_pfl.go:20-23 | so the path's delta_h is that of the terrain between the insets |
| RoughPaths.RoughReaches | internal/itm/quick_pfl.go:32-44 | heights are never lowered, and the two horizons returned reach at least from one terminal to the other; exactly that far when they fell short over smooth ground |
| RoughPaths.HeightsKept | internal/itm/quick_pfl.go:29-57 | on every path the effective heights are no lower than the antennas |
| RoughPaths.HorizonsMeet | internal/itm/quick_pfl.go:32-44 | in the rough-terrain branch the horizons returned meet or overlap |
| RoughPaths.OwnHorizons | internal/itm/quick_pfl.go:32-49 | each horizon and angle is that of its own height, and both heights are raised by one factor |
| RoughPaths.RoughPathIs | internal/itm/quick_pfl.go:27-49 | so it is in the path parameters |
| RoughPaths.SmoothHorizon | internal/itm/quick_pfl.go:33-48 | over smooth ground horizon and angle are those of a smooth earth |
| RoughPaths.RoughHorizonNearer | internal/itm/quick_pfl.go:33-48 | irregular terrain brings the horizon nearer and raises it |
| QuickPfl.Reciprocal | internal/itm/quick_pfl.go:7-59 | with the profile reversed and the antennas exchanged all parameters of the two ends swap, delta_h and the distance stay, when both horizons are unique |
| QuickPfl.ReciprocalExactly | internal/itm/quick_pfl.go:50-58 | in the branch that returns the horizons found, unique horizons are exactly the condition |
| QuickPfl.RoughReciprocal | internal/itm/quick_pfl.go:20-49 | over rough terrain ties do no harm as long as the insets taken from the horizons agree |
| QuickPfl.NotReciprocal | internal/itm/quick_pfl.go:7-59 | for every curvature of the earth a path that is not reciprocal |
| ExchangeSort.InnerStep | internal/hf/circuit_reliability.go:300-312 | what one exchange of the two full-range loops keeps |
| ExchangeSort.LoopsSort | internal/hf/circuit_reliability.go:299-327 | the two loops over the full range turn a sequence of any length into a descending permutation of it |
| HfModes.ModeSort | internal/hf/circuit_reliability.go:287-328 | the first entries are exactly the existing modes, by strength descending or delay ascending; the rest keep notIndex |
| HfModes.NumberOfModes | internal/hf/circuit_reliability.go:330-344 | the number of existing modes |
| HfModes.Partition | internal/hf/circuit_reliability.go:432-447 | signals and interferers are disjoint and together the existing modes |
| HfModes.FirstRanks | internal/hf/circuit_reliability.go:412-430 | the first of each ranking is a strongest and an earliest mode |
| HfModes.PowerOfSignals | internal/hf/circuit_reliability.go:432-454 | the sum of powers is positive exactly when a mode is a signal |
| HfModes.OneSignal | internal/hf/circuit_reliability.go:439-457 | with exactly one signal mode the signal is that mode's strength with the gain and frequency terms |
| HfModes.AddedMode | internal/hf/circuit_reliability.go:433-454 | one more signal mode adds its power and does not lower the signal of others; the first one lowers it exactly when it is below the smallest level of -307 dB |
| HfModes.WiderLimits | internal/hf/circuit_reliability.go:438-440 | wider limits never take power away |
| HfModes.DelaysAreNew | internal/hf/circuit_reliability.go:372-398 | earlier delays play no part for the modes that exist from the first one on, the others keep theirs |
| HfModes.SignalAndInterferers | internal/hf/circuit_reliability.go:351-479 | both lists ascend with notIndex last and hold, once each, the modes on either side of the amplitude and delay limits of a dominant and an earliest mode; the signal is the level of the summed power of the first list, the smallest level when that is empty; above 9000 km or below two modes both lists are empty and the signal is Pr |
| HfModes.SortIndices | internal/hf/circuit_reliability.go:466-476 | one pair of loops sorts both lists |
| HfModes.SmallestCPfoF2 | internal/hf/median_skywave_field_strength_short.go:521-547 | the index returned is 1 to 4 and its foF2 is lowest among them |
| Merge.Merge | internal/coverage/merge.go:8-58 | no usable input gives the empty raster, one is returned as it is, more are merged: tight bounds, the finest grid of the inputs or its capped size, and in each pixel the highest margin any covering input has there, NaN only without any |
| Merge.CellSampled | internal/coverage/merge.go:40-49 | on an axis whose output cells are no larger, every input cell holds the centre of an output cell, through the clamping at the far edge |
| Merge.LosesNoPixel | internal/coverage/merge.go:38-56 | below the cap every pixel of every input is read by an output pixel, so its margin is there, or a higher one |
| Merge.MergedUnique | internal/coverage/merge.go:23-56 | the merge is determined by which rasters are given |
| Merge.OrderIndependent | internal/coverage/merge.go:9-56 | no order of the inputs, usable or skipped, matters |
| Merge.OneGridMerge | internal/coverage/merge.go:23-56 | rasters on one grid merge to that grid, each pixel the highest of that pixel |
| Merge.CornersRead | internal/coverage/merge.go:44-49 | the first row is the northernmost and the first column the westernmost, the far edges belong to the last ones |
| Merge.CentresAdvance | internal/coverage/merge.go:40-43 | rows go south and columns east, a cell at a time, from half a cell inside |
| Merge.CapKeptExactly | internal/coverage/merge.go:33-36 | a grid over the cap is reduced to the cap exactly when a grid of its proportions fills the cap |
| Merge.CapNearlyKept | internal/coverage/merge.go:33-36 | in any case a capped grid is below the cap without its last row and column |
| Merge.CapExceeded | internal/coverage/merge.go:23-36 | two rasters of 2000 by 2000 pixels that merge to 3001 by 3000, over the cap |
| Merge.OverCap | internal/coverage/merge.go:8-58 | Merge accepts them and returns that |
| Hgt.CornerRead | internal/dem/hgt.go:32-42 | a tile name reads back as its corner |
| Hgt.NamesSquareDegree | internal/dem/hgt.go:31-42 | two positions have one tile name exactly when they are in one square degree |
| Hgt.ParseTile | internal/dem/hgt.go:45-52 | accepts exactly the square grids of at least two by two samples |
| Hgt.SampleBetween | internal/dem/hgt.go:68-93 | reads inside the tile; void exactly when a corner is void, otherwise between the corners |
| Hgt.SamplePlane | internal/dem/hgt.go:68-93 | a sloping plane is reproduced exactly everywhere |
| Hgt.SampleAtPoint | internal/dem/hgt.go:68-93 | at a grid point the height is the sample there |
| Hgt.RowsFromNorth | internal/dem/hgt.go:70 | row r lies r steps below the northern edge of the tile |
| Hgt.ColumnsFromWest | internal/dem/hgt.go:71 | column c lies c steps from the western edge |
| Hgt.SampleReads | internal/dem/hgt.go:58-65 | a height written as two bytes, the high one first, reads back as itself, and the lowest one as a void |
| Hgt.SpacingIs | internal/dem/hgt.go:54-55 | the spacing is that of side - 1 steps to the degree |
| Hgt.NamesNorth | internal/dem/hgt.go:31-42 | names on the northern half |
| Hgt.NamesSouth | internal/dem/hgt.go:31-42 | names on the southern half |
| TileCache.RecencyIs | internal/dem/cache.go:38-59 | what recency means: exactly the names called, once each, ordered by their last calls |
| TileCache.HeldIsRecent | internal/dem/cache.go:38-59 | after any calls, whatever load answered to each, the list holds exactly the most recent n of the names whose calls were answered |
| TileCache.HeldIsLoaded | internal/dem/cache.go:47-52 | a tile held is the one its last load answered |
| TileCache.Cache.Get | internal/dem/cache.go:38-59 | list and map are what the calls make of them; the answer is the tile held, or that of load at this moment; an error changes nothing |
| TileCache.AskCovers | internal/dem/cache.go:38-59 | one call to a smaller and a larger cache keeps the larger one holding what the smaller does, in the same order |
| TileCache.HeldIsSteady | internal/dem/cache.go:47-52 | as long as load answers with the tiles in the files or not at all, only those are held |
| TileCache.Cache.Evict | internal/dem/cache.go:53-57 | entries leave the back until max are left, the first ones stay |
| TileCache.LargerMissesNoMore | internal/dem/cache.go:38-59 | a larger cache holds what a smaller one does and never misses more, on any calls and whatever load answers to each |
| TileCache.Elevation | internal/dem/cache.go:76-85 | the height in the tile held or loaded; with steady files it is the height in the file, whatever was asked before |
| Legend.ColourReads | internal/plot/plot.go:211-229 | a colour written as #rrggbb reads back, opaque |
| Legend.HexIsLower | internal/plot/plot.go:211-212 | the text is # and six digits, none a capital |
| Legend.NewLegend | internal/plot/plot.go:125-150 | succeeds exactly for 1 to 8 distinct thresholds in range with readable colours; the bins are those given, strictly from high to low |
| Legend.OrderOfBins | internal/plot/plot.go:143-149 | the order in which bins are given does not matter |
| Legend.LegendOr | internal/plot/plot.go:152-162 | the legend of the stored values, or the default one |
| Legend.StoredLegend | internal/plot/plot.go:152-180 | thresholds and colours of a legend read back as that legend |
| Legend.FindBin | internal/plot/plot.go:195-206 | the loop finds the first bin reached |
| Legend.HighestReached | internal/plot/plot.go:195-206 | a margin is in the bin of the highest threshold it reaches, in none below all |
| Legend.SameBin | internal/plot/plot.go:195-206 | two margins share a bin exactly when they reach the same thresholds |
| MarginRaster.MarginPicture | internal/plot/plot.go:266-283 | one grey value per pixel, none for NaN |
| MarginRaster.DecodeRaster | internal/plot/plot.go:285-320 | the margins of a grey picture, the thresholds of a paletted one, an error for any other |
| MarginRaster.StoredAndRead | internal/plot/plot.go:266-320 | storing and reading gives whole dB from -127 to 127, and NaN where it was |
| MarginRaster.ReadAndStored | internal/plot/plot.go:266-320 | storing what was read writes the same picture |
| MarginRaster.Paint | internal/plot/plot.go:237-264 | each pixel has the index of its bin, or of the cross |
| MarginRaster.PaletteColours | internal/plot/plot.go:239-243 | the indices stand for the colours of the bins, clear and black |
| MarginRaster.CrossIs | internal/plot/plot.go:254-259 | the cross is the nine marks each way around the centre |
| MarginRaster.RenderingPreserved | internal/plot/plot.go:196-320 | a legend renders every coverage alike from memory and from storage exactly when its thresholds are whole dB not below -126 |
| MarginRaster.PalettedRenders | internal/plot/plot.go:307-315 | a paletted picture renders to itself in the default legend |
| MarginRaster.RenderRaster | internal/web/legend.go:72-82 | what is rendered from stored margins and a stored legend, end to end |
| RateLimits.Limits.RateHit | internal/store/ratelimit.go:8-17 | a hit returns one more than counting at that moment would |
| RateLimits.CleaningUnseenExactly | internal/store/ratelimit.go:27-31 | cleaning changes no later answer of any run exactly when no window is longer than a day |
| RateLimits.RateLimited | internal/store/ratelimit.go:8-17 | no closed interval as long as the window holds more than 2 max - 1 admitted hits, in any run, cleaning included |
| RateLimits.LimitReached | internal/store/ratelimit.go:8-17 | the bound is reached for every limit and window |
| Sessions.SessionStore.SessionUser | internal/store/users.go:208-225 | answers by the expiry found, and moves the expiry of a live session to its target unless it is within an hour of it |
| Sessions.SessionStore.DeleteOtherSessions | internal/store/users.go:233-237 | removes the other sessions of the user and counts them |
| Sessions.SessionStore.DeleteExpiredSessions | internal/store/users.go:245-249 | removes and counts exactly the expired ones |
| Sessions.AgeCapped | internal/store/users.go:208-225 | no expiry passes the creation plus the maximum age |
| Sessions.NoneAfterMaxAge | internal/store/users.go:208-225 | so no session answers at or after its maximum age |
| Sessions.ExpiredForGood | internal/store/users.go:208-225 | an expired session never answers again |
| Sessions.LivesInUse | internal/store/users.go:208-225 | used at gaps shorter than idle minus an hour, a session answers every use up to an hour before its maximum age |
| Sessions.SessionLives | internal/store/users.go:200-225 | the same from the creation of the session on |
| Sessions.GapTooLong | internal/store/users.go:208-225 | a gap of exactly idle minus an hour can end it |
| CanopyPath.StretchIs | internal/link/vegetation.go:46-57 | the stretch of a segment is where the interpolated gap is negative |
| CanopyPath.CanopyPath | internal/link/vegetation.go:32-62 | the lengths in canopy before and after mid-path, all of it towards A when fully blocked |
| CanopyPath.LengthConserved | internal/link/vegetation.go:45-61 | both lengths add up to the length in canopy, and neither exceeds half the path |
| CanopyPath.BlockedLength | internal/link/vegetation.go:38-44 | a fully blocked path is in canopy all along |
| CanopyPath.BlockedToA | internal/link/vegetation.go:42-44 | and all of it counts towards A |
| CanopyPath.TurnedLengths | internal/link/vegetation.go:32-62 | turning the path round exchanges the lengths exactly when it is not fully blocked or has no length |
| MapTiles.Fit | internal/tiles/static.go:28-37 | the highest zoom up to 19 that holds the bounds, else 0, centred; the corners are pad pixels inside exactly when the bounds fit |
| MapTiles.FitsBelow | internal/tiles/static.go:29-37 | bounds that fit at a zoom fit at all lower ones |
| MapTiles.Eastward | internal/tiles/static.go:22-26 | pixels begin at longitude -180, grow eastward, and repeat every 360 degrees |
| MapTiles.TileOfColumn | internal/tiles/static.go:69 | the wrapped tile column has the wrapped pixel |
| MapTiles.InOneTile | internal/tiles/static.go:64-68 | each pixel inside the world vertically is in exactly one tile visited, the others in none |
| MapTiles.Static | internal/tiles/static.go:59-86 | every pixel shows the world pixel (x mod 256n, y), and nothing above and below the world; it fails exactly when a tile it goes through cannot be had |
| MapTiles.CutAndStitched | internal/tiles/static.go:59-86 | a picture cut into tiles and stitched is shown again, repeated sideways |
| Antenna.WrapIs | internal/antenna/antenna.go:173 | every angle is brought into [0, 360) by whole turns |
| Antenna.Search | internal/antenna/antenna.go:190 | the first sample beyond an angle |
| Antenna.At | internal/antenna/antenna.go:180-197 | each degree lies between two neighbours round the circle and on the line between them |
| Antenna.Resample | internal/antenna/antenna.go:162-199 | refuses values that are not finite; else the pattern is the straight lines between sorted samples, the lowest value as reference |
| Antenna.ResampledWithin | internal/antenna/antenna.go:178-198 | every value is between 0 and the spread of the samples |
| Antenna.AtSample | internal/antenna/antenna.go:178-198 | the pattern goes through every sample that is alone at a whole degree |
| Antenna.ResampleOwn | internal/antenna/antenna.go:162-199 | resampling a pattern with its reference changes nothing |
| Antenna.FindFront | internal/antenna/antenna.go:55-62 | the largest attenuation, at least 0 |
| Antenna.AttenuationWithin | internal/antenna/antenna.go:41-53 | every attenuation is between 0 and the front-to-back ratio |
| Antenna.AttenuationRepeats | internal/antenna/antenna.go:46-52 | whole turns make no difference |
| Antenna.LobeWithin | internal/antenna/antenna.go:31-39 | a lobe attenuates no less than either pattern and no more than the worse can |
| Antenna.LobeAdds | internal/antenna/antenna.go:31-39 | up to the limit the two patterns add |
| Antenna.Sector | internal/antenna/antenna.go:200-215 | the quadratic lobe cut off at the ratio, or no attenuation for invalid values |
| Antenna.SectorMirrors | internal/antenna/antenna.go:207-213 | a sector is the same to either side of boresight |
| Antenna.HalfPower | internal/antenna/antenna.go:212 | the beamwidth is that between the points 3 dB down |
| Antenna.SectorParams | internal/antenna/antenna.go:217-231 | the parameters of the widest offset below the ratio, rounded to thousandths |
| Antenna.ThousandthsClose | internal/antenna/antenna.go:226 | rounding moves a parameter by at most half a thousandth |
| Antenna.SectorInverse | internal/antenna/antenna.go:217-231 | before rounding the beamwidth comes back exactly when the lobe exceeds one degree before the cut, the ratio exactly when the lobe reaches it; otherwise 360 degrees and the attenuation at the back |

## Left out

- IEEE rounding: all arithmetic is exact, so results at the last digit, overflow and infinities are not covered.
- The formulas of P.533, P.372 and the rest of the irregular terrain model: tables and polynomials without structural laws.
- HfModes.SignalAndInterferers: the trigonometry of the delay of a mode is a parameter, a function of reflection height and number of hops.
- HTTP handlers, SVG, PDF, mail, S3, Redis, metrics, the command line and the web client: plumbing.
- SHA-256 collisions, and the jsonb normalisation of inputs between hashing and computing.
- Row locks: with SKIP LOCKED a claim running beside another may take the next oldest job; statements here are atomic.
- Notifications to workers: a worker's waiting for a wake-up or poll has no effect on the table.
- `runCoverage` computes and renders a coverage; only its statements on the jobs table are events here. A stored raster need not match parameters edited while it was computed.
- The cap on queued jobs is no invariant: requeueing and concurrent requests exceed it, so only the quota statement is modelled.
- The users and coverages tables apart from the rows they take with them, tokens, shares and the mark when a user was last seen.
- JobStore.Store.RunShort: a last write that fails is an event of the protocol, not a path of the method.
- QuickPfl.Reciprocal: over rough terrain no exact condition is stated, as heights may agree by chance where the insets do not.
- JobStore.Store.RunJob: the registry of wait channels changes only by this request while it waits; the runs of the registry are in JobWaits.
- The map of wait channels is not always emptied; nothing is claimed of its size.
- Merge.Merge: two or more usable rasters of which one has no extent make the code divide by zero; what becomes of the infinite sizes is not modelled.
- MapTiles.Fit: the Mercator projection is an arbitrary function of latitude, so nothing is said about where on the map a latitude lies.
- MapTiles.Static: fetching, caching and decoding of single tiles; a tile is there or it is not.
- Antenna.Resample: angles that are not numbers; the order of samples of one angle is left open, as the sort leaves it.
- The parser of antenna files, label texts of legends, and `Trim` and `MetresPerPixel` of a view: easy members.
- Error counts, truncation counts and error texts of coverage results, which a merge drops.
