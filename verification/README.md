# Dedalus autonomy core: a verified model

Dedalus is a drone autonomy stack. This project models the parts of it that carry state from one
moment to the next and proves what they promise: the layered obstacle maps (level 0 evidence,
level 1 traversability, level 2 planning map, level 3 distance field), the local flight grid, the
two mission controllers, the event relay of the viewer, the MAVLink frame encoders and the
configuration loader. `dafny verify dfyconfig.toml` checks everything.

Numbers are exact: `real` for the source's `float` and `double`, unbounded `int` for its integers,
bit vectors where the source works on bits. `sqrt` is any function with `d >= 0` and `d * d = x`;
`sigmoid` is any function with positive values. Clocks, sensors, sockets and the database appear as
parameters that may take any value. Loops over hash containers choose their next element freely, so
nothing depends on a hash order.

How the files fit together:

- `DistanceTransform`, `DistanceField`: the line transform `dt1d` on arrays, and the three passes
  that turn it into a 3D Euclidean distance transform.
- `EsdfSpec`, `EsdfWindow`, `LocalEsdf`: what the distance map should answer (a scan of all
  occupied voxels), the geometry of a recomputed window, and the map that is patched in place.
- `KeyedVector`: a dense vector of keyed values with its index, shared by the level 0, 1 and 2 maps.
- `PlanningSpec`, `CellStore`, `PlanningMap`: one tick of the planning map on values; its buckets;
  and the class that keeps vector, index and buckets in step.
- `PlanningEvidence`: what the evidence of a tick adds up to in one cell.
- `RayMarch`: the voxel walk. `Replica`: delta snapshots. `FlushProtocol`: persistence with a flush
  running beside the main loop. `Reload`: re-entering a region meanwhile.
- `Traversability`: incremental recomputation with a round-robin sweep. `TraversabilityEvidence`: what
  its evidence adds up to and how cells are classified.
- `EvidenceSpec`, `EvidenceHistory`, `ObstacleMap`: evidence compaction, its conservation laws, and
  what a cell remembers.
- `FlightMap`: inflation of the flight grid and the trajectory check.
- `Lifecycle`, `LifecycleHistory`, `TrajectoryController`, `ObjectController`: the mission state
  machines; what every run guarantees; and each tick told from what was seen before it.
- `EventStream`, `SseRelay`: frames, their decoding, and the writer with pending tails.
- `Mavlink`: the checksum and both packet encoders.
- `ConfigFiles`, `ConfigLoader`: include files, their meaning and the recursive loader.
- `Grid`, `Wrappers`: shared geometry and the option type.

Places where the code does not do what its comments or documents say. The model follows the code;
each comes with the exact condition under which the promise does hold and a case in which it fails:

- Incremental distance updates are described as equivalent to a full recompute in the affected
  region (`src/avoidance/local_esdf_map_incremental.cpp:5-9`). The erased box is larger than the
  recomputed block, and obstacles just outside the block are not seen from inside it:
  `LocalEsdf.IncrementalIsExactIff`, `LocalEsdf.IncrementalLosesObstacle`.
- A flush deletes after it upserts and a rewrite does not take a key out of the deletion set, so a
  cell cleared and hit again within one flush window is lost from the database:
  `FlushProtocol.OverlayIsTruthIff`, `FlushProtocol.SameTickResurrectionIsLost`.
- Re-entering a region is described as picking up the last value
  (`src/avoidance/mission_local_planning_map_spatial.cpp:14-18`). The load walks table rows only, so
  a new cell that was not flushed yet does not come back, and it looks at neither the deletion set
  nor the batch in flight, so a cleared cell does: `Reload.LoadIsCurrentIff`,
  `Reload.FreshCellIsNotReloaded`, `Reload.LoadRevivesCleared`.
- A snapshot since 0 is meant to be full; cells loaded from the database carry write number 0 and
  are left out of it: `Replica.FullSnapshotIsComplete`, `Replica.LoadedCellIsMissing`.
- A finish request is drawn as leading straight home (`docs/mission_state_machine.md:29`, for the
  trajectory controller). In the object controller a step that ends on the same tick goes first:
  `ObjectController.FinishLeavesAtOnceIff`, `ObjectController.FinishWaitsForStep`.

Two smaller observations: the two passes of the traversability recompute test occupancy differently
and agree exactly for positive thresholds (`Traversability.PassesAgreeIff`), and the risk score of
an obstacle-map cell is decayed but never raised, so it is always 0 (`EvidenceSpec.Scored`).

## Model

| member | source | states |
|---|---|---|
| `DistanceTransform.Transform1D` | src/avoidance/compute_esdf.cpp:54-89 | every entry of `g` is the least of (q-p)^2 s^2 + f[p] over reachable p, or the sentinel when none is reachable; nothing past n is written |
| `DistanceTransform.PushRoot` | src/avoidance/compute_esdf.cpp:59-76 | popping overtaken roots and pushing q extends the stacked lower envelope by q |
| `DistanceTransform.BuildEnvelope` | src/avoidance/compute_esdf.cpp:56-76 | the finished stack is the lower envelope of the whole line: roots and breakpoints strictly increase and each root is lowest on its stretch |
| `DistanceTransform.ReadEnvelope` | src/avoidance/compute_esdf.cpp:83-88 | one left-to-right walk of the stack yields the transform at every index |
| `DistanceTransform.CrossSplits` | src/avoidance/compute_esdf.cpp:62-70 | left of the crossing the earlier parabola is lower, right of it the later one, both as equivalences |
| `DistanceTransform.PoppedIsOvertaken` | src/avoidance/compute_esdf.cpp:63-70 | a root whose breakpoint is not left of its crossing with q is nowhere strictly lowest any more |
| `DistanceTransform.PushExtendsEnvelope` | src/avoidance/compute_esdf.cpp:72-75 | pushing q at a crossing right of the last breakpoint gives the envelope of one more root |
| `DistanceTransform.EnvelopeGivesTransform` | src/avoidance/compute_esdf.cpp:84-88 | the root whose stretch holds x gives the brute-force minimum at x |
| `DistanceField.Separable` | src/avoidance/compute_esdf.cpp:187-249 | squared anisotropic distance splits into one axis' share and the rest, and what the next pass sees is what this one saw on the line |
| `DistanceField.PassIsExact` | src/avoidance/compute_esdf.cpp:187-249 | a line transform takes exact distances of one stage to exact distances of the next |
| `DistanceField.FlatInjective` | src/avoidance/compute_esdf.cpp:154-172 | distinct voxels have distinct row-major positions |
| `DistanceField.TransformLine` | src/avoidance/compute_esdf.cpp:194-206 | gather, transform, scatter changes exactly one grid line, into its transform |
| `DistanceField.Pass` | src/avoidance/compute_esdf.cpp:187-249 | one pass over the whole grid raises the stage of every voxel |
| `DistanceField.SquaredField` | src/avoidance/compute_esdf.cpp:182-249 | after X, Y and Z every voxel holds its exact least squared distance to an occupied voxel, or the sentinel if there is none |
| `DistanceField.SentinelBoundIsNeeded` | src/avoidance/compute_esdf.cpp:187-249 | with spacings at the sentinel a grid loses its obstacle, so the size hypothesis is needed |
| `EsdfSpec.ScanAnswerUnique` | src/avoidance/local_esdf_map.cpp:40-46 | the reference scan determines one answer per voxel |
| `EsdfSpec.ClearMeansNothingNearer` | src/avoidance/local_esdf_map.cpp:123-125 | for 0 < r <= d0, clear means exactly that no occupied voxel centre is nearer than r |
| `EsdfSpec.ShellAnswersScan` | src/avoidance/compute_esdf.cpp:269-333 | storing the root of the squared field below d0, and the interior value for occupied voxels, answers as the scan |
| `EsdfSpec.BallIsEnough` | src/avoidance/local_esdf_map_incremental.cpp:52-60 | a voxel whose d0-ball lies in the block is answered from the block as from all of level 2 |
| `EsdfSpec.BlockAnswerIsExactIff` | src/avoidance/local_esdf_map_incremental.cpp:57-60 | a recomputed voxel is exact if and only if it is occupied or no nearer obstacle was left outside the block |
| `EsdfSpec.BlockNeverUnderReports` | src/avoidance/local_esdf_map_incremental.cpp:57-60 | a recomputed free voxel never reports less than the true truncated distance |
| `EsdfSpec.ErasedAnswerIsExactIff` | src/avoidance/local_esdf_map_incremental.cpp:70-80 | an erased and not recomputed voxel is exact if and only if it is free and nothing occupied is within d0 |
| `EsdfWindow.BlockInsideErasedBox` | src/avoidance/local_esdf_map_incremental.cpp:62-80 | no stale cell survives inside the recomputed block |
| `EsdfWindow.BlockCoversWidenedBox` | src/avoidance/compute_esdf.cpp:117-136 | the snapped block covers the dirty box widened by d0 on every side |
| `EsdfWindow.DirtyVoxelHasItsBall` | src/avoidance/local_esdf_map_incremental.cpp:44-56 | the voxel of every dirty position has its whole d0-ball in the block |
| `EsdfWindow.TubeVoxelHasItsBall` | src/avoidance/local_esdf_map_incremental.cpp:98-118 | the voxel of every centre within the tube has its whole d0-ball in the block |
| `EsdfWindow.ErasedRingIsThin` | src/avoidance/local_esdf_map_incremental.cpp:62-80 | the erased ring outside the block is at most one voxel wide below and two above |
| `EsdfWindow.BoundsOf` | src/avoidance/local_esdf_map_incremental.cpp:44-49 | the bounding box holds every position |
| `EsdfWindow.BoundsAreLeast` | src/avoidance/local_esdf_map_incremental.cpp:44-49 | the bounding box is the least box that does |
| `LocalEsdf.FillOccupancy` | src/avoidance/compute_esdf.cpp:144-180 | the occupancy grid marks exactly the block voxels that hold an occupied planning cell, for any coarser sample spacing |
| `LocalEsdf.StoreShell` | src/avoidance/compute_esdf.cpp:251-333 | one entry per shell voxel, keyed through its centre, and no other |
| `LocalEsdf.FieldIsSquaredTo` | src/avoidance/compute_esdf.cpp:145-180 | the block's field, read in global voxels, is the field of the occupied voxels in the block |
| `LocalEsdf.ComputeEsdf` | src/avoidance/compute_esdf.cpp:95-336 | the computed map answers every voxel of its block as a scan of the occupied voxels of the block |
| `LocalEsdf.BoundingBox` | src/avoidance/local_esdf_map_incremental.cpp:43-49 | the min/max loop computes the bounding box |
| `LocalEsdf.EraseAndMergePatches` | src/avoidance/local_esdf_map_incremental.cpp:62-85 | erasing the box and merging the block answers the block afresh, leaves cells outside the box untouched and leaves none in the ring between |
| `LocalEsdf.LocalEsdfMap.PatchWindow` | src/avoidance/local_esdf_map_incremental.cpp:57-86 | the same for the map object, keeping every stored cell at the centre of its key |
| `LocalEsdf.LocalEsdfMap.PatchedQueryIsScan` | src/avoidance/local_esdf_map.cpp:40-46 | where the d0-ball lies in a recomputed block, `query` answers as a scan of all level 2, -0.5 in an occupied voxel, and for r <= d0 `is_clear` holds exactly when nothing occupied is nearer than r |
| `LocalEsdf.LocalEsdfMap.UpdateIncremental` | src/avoidance/local_esdf_map_incremental.cpp:33-86 | afterwards every reported voxel answers as a scan of all level 2; every free voxel within d0 of a reported obstacle answers no more than its distance; and an answer that was exact, with every change reported, stays exact if and only if `StaysExact` holds; nothing reported, no change |
| `LocalEsdf.LocalEsdfMap.UpdateTube` | src/avoidance/local_esdf_map_incremental.cpp:90-140 | afterwards every voxel whose centre is within the radius of a waypoint answers as a scan of all level 2; no waypoint, no change |
| `LocalEsdf.DirtyVoxelsAreExact` | src/avoidance/local_esdf_map_incremental.cpp:33-86 | after an update every voxel of a dirty position answers as a scan of all level 2 |
| `LocalEsdf.NewObstacleIsSeen` | src/avoidance/local_esdf_map_incremental.cpp:33-86 | every free voxel within d0 of an obstacle at a reported position answers no more than its distance from it |
| `LocalEsdf.TubeIsExact` | src/avoidance/local_esdf_map_incremental.cpp:90-140 | the margins of the tube window make every voxel of the tube exact |
| `LocalEsdf.OutsideErasedIsFar` | src/avoidance/local_esdf_map_incremental.cpp:62-80 | a voxel outside the erased box is not within d0 of any changed voxel |
| `LocalEsdf.IncrementalIsExactIff` | src/avoidance/local_esdf_map_incremental.cpp:5-9 | for every voxel, the exact condition under which an exact map stays exact: in the block, not shadowed from outside; in the erased ring, free with nothing within d0; elsewhere always |
| `LocalEsdf.IncrementalLosesObstacle` | src/avoidance/local_esdf_map_incremental.cpp:33-86 | a concrete update that erases an occupied voxel and over-reports another |
| `Grid.KeyOfCentre` | src/avoidance/mission_local_planning_map.cpp:99-114 | a key survives the round trip through its centre |
| `Grid.FloorDivMono` | src/avoidance/mission_local_planning_map.cpp:99-106 | keys are monotone in the coordinate |
| `CellStore.FloorDivPos` | src/avoidance/mission_local_planning_map.cpp:29-33 | the division built from truncation is floor division for negative operands too |
| `KeyedVector.SwapPopRemoves` | src/avoidance/mission_local_planning_map.cpp:238-252 | swap-and-pop removes exactly one key and keeps vector and index one-to-one |
| `CellStore.BucketInsertKeeps` | src/avoidance/mission_local_planning_map.cpp:84-86 | every key stays in its own bucket and no other |
| `CellStore.BucketRemoveKeeps` | src/avoidance/mission_local_planning_map.cpp:88-97 | the same for removal, and no empty bucket remains |
| `CellStore.BoxBracketsBuckets` | src/avoidance/mission_local_planning_map_query.cpp:127-133 | the buckets of the box corners bracket the bucket of every key whose centre is in the box |
| `PlanningSpec.ObserveAllKeepsTickInvariant` | src/avoidance/mission_local_planning_map.cpp:134-203 | inside a tick every live cell is stamped now, unchanged since the start, or marked by the zero sentinel and listed for the sweep |
| `PlanningSpec.UpdatedIsWellFormed` | src/avoidance/mission_local_planning_map.cpp:116-223 | after any tick, duplicates and resurrection included, no sentinel cell remains, every cell sits at the centre of its key, and an unstamped cell is unchanged |
| `PlanningEvidence.TickIsLocal` | src/avoidance/mission_local_planning_map.cpp:134-203 | what a tick makes of a cell depends only on the evidence for its key, in order, however it is interleaved |
| `PlanningEvidence.HitsAccumulate` | src/avoidance/mission_local_planning_map.cpp:147-182 | any number of occupied or mixed cells at or above the minimum score leaves the log-odds at the summed evidence cut off once at the maximum, with matching score, count, stamp and centre |
| `PlanningEvidence.HitsConfidence` | src/avoidance/mission_local_planning_map.cpp:147-182 | the confidence is the greatest of the hits' and the one before |
| `PlanningEvidence.IgnoredEvidence` | src/avoidance/mission_local_planning_map.cpp:134-147 | unknown and stale cells, weak occupied cells, and free cells where nothing is remembered change nothing |
| `PlanningEvidence.FreesAccumulate` | src/avoidance/mission_local_planning_map.cpp:183-203 | free evidence sums likewise, cut off once at the minimum, with the zero sentinel exactly below the threshold |
| `PlanningEvidence.ForgottenIff` | src/avoidance/mission_local_planning_map.cpp:183-208 | a cell a tick sees only free is removed if and only if the summed evidence takes it below the eviction threshold |
| `PlanningMap.MissionLocalPlanningMap.constructor` | src/avoidance/mission_local_planning_map.cpp:37-51 | starts empty with bad configuration values replaced |
| `ObstacleMap.MissionLocalObstacleMap.constructor` | src/avoidance/mission_local_obstacle_map.cpp:57-65 | starts empty with bad cell sizes replaced |
| `PlanningMap.MissionLocalPlanningMap.RemoveCellByKey` | src/avoidance/mission_local_planning_map.cpp:238-252 | removes the key if present; vector, index and buckets stay in step |
| `PlanningMap.MissionLocalPlanningMap.ObserveCell` | src/avoidance/mission_local_planning_map.cpp:134-203 | one evidence cell acts on the containers as on the map of live cells |
| `PlanningMap.MissionLocalPlanningMap.EvictClearedCells` | src/avoidance/mission_local_planning_map.cpp:225-236 | removes exactly the candidates whose score is still the sentinel |
| `PlanningMap.MissionLocalPlanningMap.UpdateFromTraversability` | src/avoidance/mission_local_planning_map.cpp:116-223 | a whole tick follows the value-level tick: live cells, dirty rows, evicted keys, sequence number |
| `PlanningMap.MissionLocalPlanningMap.MarkForFlush` | src/avoidance/mission_local_planning_map.cpp:211-222 | last write per key wins; cleared keys leave the dirty rows and join the deletions |
| `PlanningMap.MissionLocalPlanningMap.DrainForFlush` | src/avoidance/mission_local_planning_map_sqlite.cpp:299-313 | hands over both sets and leaves them empty |
| `PlanningMap.MissionLocalPlanningMap.Reset` | src/avoidance/mission_local_planning_map.cpp:270-276 | empties the containers together |
| `PlanningMap.MissionLocalPlanningMap.Snapshot` | src/avoidance/mission_local_planning_map.cpp:254-268 | exactly the cells written after a sequence number, as many as there are such keys |
| `PlanningMap.MissionLocalPlanningMap.OccupiedCellsInBox` | src/avoidance/mission_local_planning_map_query.cpp:126-159 | exactly the cells a scan of every cell with the score and containment tests would return, each once, for every box |
| `PlanningMap.MissionLocalPlanningMap.QueryOccupiedTsInBox` | src/avoidance/mission_local_planning_map_query.cpp:174-181 | exactly the centres and stamps of the matching cells |
| `PlanningMap.MissionLocalPlanningMap.RayCast` | src/avoidance/mission_local_planning_map_query.cpp:40-122 | on points origin + (t / u) dir, with u the length of dir: a miss means none with 0 <= t <= range is strictly inside an occupied voxel; a hit is an occupied voxel that holds such a point, none before it being strictly inside an occupied voxel; a zero direction hits nothing; it terminates |
| `RayMarch.OnlyCurrentUntilCrossing` | src/avoidance/mission_local_planning_map_query.cpp:96-121 | until the next crossing the ray meets no interior but that of the current voxel |
| `RayMarch.AdvanceTracks` | src/avoidance/mission_local_planning_map_query.cpp:96-121 | a step stays on the ray and uses up one of the crossings left within range |
| `RayMarch.ClearExtends` | src/avoidance/mission_local_planning_map_query.cpp:96-121 | stepping out of a free voxel extends the stretch known to be clear |
| `RayMarch.ClearMeansFree` | src/avoidance/mission_local_planning_map_query.cpp:43-48 | clear slabs along the normalised ray mean free points along the given direction |
| `PlanningMap.MissionLocalPlanningMap.EvictFarCells` | src/avoidance/mission_local_planning_map_spatial.cpp:57-74 | keeps exactly the cells within the radius; the flush sets are untouched |
| `PlanningMap.MissionLocalPlanningMap.DistSqIsEuclidean` | src/avoidance/mission_local_planning_map_spatial.cpp:46-51 | the distance is the sum of the squares along the three axes |
| `PlanningSpec.WindowIsHorizon` | src/avoidance/mission_local_planning_map_spatial.cpp:94-103 | the window holds every voxel of a position within the horizon, and none whose centre is more than half a voxel further |
| `PlanningMap.MissionLocalPlanningMap.LoadWindowFromDb` | src/avoidance/mission_local_planning_map_spatial.cpp:78-155 | adds exactly the selected rows not in memory, an unflushed value winning over the row, and reports exactly those |
| `PlanningMap.MissionLocalPlanningMap.SlideWindow` | src/avoidance/mission_local_planning_map_spatial.cpp:159-182 | slides if and only if a database is open and the vehicle moved a quarter horizon; then evicts beyond two horizons and loads |
| `Replica.RunStamps` | src/avoidance/mission_local_planning_map.cpp:116-223 | after any run of ticks a live cell was stamped after the start or is what it was |
| `Replica.DeltaRestoresAgreement` | src/avoidance/mission_local_planning_map.cpp:254-268 | a replica that agreed on all live cells agrees again after merging one later delta, whatever ticks came between |
| `Replica.FullSnapshotIsComplete` | src/avoidance/mission_local_planning_map.cpp:254-268 | a snapshot since 0 is complete if and only if no live cell has write number 0 |
| `Replica.LoadedCellIsMissing` | src/avoidance/mission_local_planning_map_spatial.cpp:148-151 | a cell that a load brought in is live, yet absent from every snapshot since any sequence number |
| `FlushProtocol.CommitRows` | src/avoidance/mission_local_planning_map_sqlite.cpp:327-382 | the row-by-row statements, in any order, upsert everything and then delete |
| `FlushProtocol.TickAtKey` | src/avoidance/mission_local_planning_map.cpp:211-222 | what a tick does to one key's dirty row and eviction mark |
| `FlushProtocol.StepTracks` | src/avoidance/mission_local_planning_map_sqlite.cpp:293-383 | every step of every interleaving keeps the overlaid database right at every key that is not lost, and a lost key is missing from it |
| `FlushProtocol.OverlayIsTruthIff` | src/avoidance/mission_local_planning_map_sqlite.cpp:293-383 | after any run the database with the batch in flight and the marked sets laid over it holds the last written value of a key, or its absence, if and only if the key is not lost |
| `FlushProtocol.NothingLost` | src/avoidance/mission_local_planning_map.cpp:211-222 | no key is lost when none is rewritten after its eviction within a flush window |
| `FlushProtocol.FlushedTableIsTruth` | src/avoidance/mission_local_planning_map_sqlite.cpp:293-383 | then a final drain and commit leaves the table equal to the last written values |
| `FlushProtocol.SameTickResurrectionIsLost` | src/avoidance/mission_local_planning_map.cpp:134-222 | hit, free, hit on one cell in one tick: live in memory, absent from the flushed table |
| `Reload.LoadIsCurrentIff` | src/avoidance/mission_local_planning_map_spatial.cpp:78-155 | after every run and for every key of the window not in memory: the load leaves the last written score, confidence and count, or nothing if there is none, if and only if the row it selects is current (the key is marked dirty, or nothing about it is queued, or what is queued last agrees with the row; a key queued for deletion only if it is lost and its recorded row agrees), or it selects none and the key has no value; lost keys and keys without a row that passes the score filter included |
| `Reload.LoadRevivesCleared` | src/avoidance/mission_local_planning_map_spatial.cpp:78-155 | a cleared, not yet flushed cell comes back with the next load |
| `Reload.FreshCellIsNotReloaded` | src/avoidance/mission_local_planning_map_spatial.cpp:105-155 | a created, not yet flushed cell that leaves the window is not brought back by any load, although its value is marked dirty |
| `Reload.LostRowIsUnrecoverable` | src/avoidance/mission_local_planning_map.cpp:211-222 | two runs leave map, table and flight equal although the rows last written differ, so lost keys can only be told apart by their history |
| `Traversability.OccupiedMeansThreshold` | src/avoidance/mission_local_traversability_map.cpp:33-38 | the normalised occupied test is the threshold test for positive thresholds |
| `Traversability.PassesAgreeIff` | src/avoidance/mission_local_traversability_map.cpp:33-38 | the two passes' tests agree on all scores if and only if the threshold is positive |
| `Traversability.OnlyAgeDependsOnTime` | src/avoidance/mission_local_traversability_map.cpp:475-526 | scores do not depend on when they are recomputed; the state only through going stale |
| `TraversabilityEvidence.WritesAreLocal` | src/avoidance/mission_local_traversability_map.cpp:170-235 | what becomes of a cell depends only on the writes to its key, in order |
| `TraversabilityEvidence.FreeStepsAccumulate` | src/avoidance/mission_local_traversability_map.cpp:340-349 | any number of free ray steps leaves max(prior - summed confidence * decrement, -max) and the scores alone |
| `TraversabilityEvidence.FreeStepsCreateNothing` | src/avoidance/mission_local_traversability_map.cpp:332-340 | free ray steps never create a cell |
| `TraversabilityEvidence.HitsAccumulate` | src/avoidance/mission_local_traversability_map.cpp:207-285 | merges and spreads leave min(prior + summed confidence * increment, max), from zero for a new cell |
| `TraversabilityEvidence.ScoresArePeaks` | src/avoidance/mission_local_traversability_map.cpp:207-219 | free score, and merged score without log-odds, are running maxima within [0, max] |
| `TraversabilityEvidence.StampIsLatest` | src/avoidance/mission_local_traversability_map.cpp:204-204 | the stamp is the latest of the prior one and those of the writes |
| `TraversabilityEvidence.StateMeans` | src/avoidance/mission_local_traversability_map.cpp:484-513 | Occupied, Mixed, ObservedFree, Stale and Unknown, each if and only if: score against threshold, sign of the log-odds or free score, and age |
| `TraversabilityEvidence.ScoresMean` | src/avoidance/mission_local_traversability_map.cpp:486-518 | graded scores lie in [0, 1]; unknown is 0 exactly when a threshold is met; contested evidence is volatile, uncontested stable, none unknown |
| `TraversabilityEvidence.AgeMeans` | src/avoidance/mission_local_traversability_map.cpp:493-499 | the age score is the age as a share of the stale limit, 1 from the limit on |
| `Traversability.SweepCoversMap` | src/avoidance/mission_local_traversability_map.cpp:458-468 | at N cells and budget K >= 1, any n updates with n K >= N revisit every cell, from every cursor |
| `Traversability.MissionLocalTraversabilityMap.Apply` | src/avoidance/mission_local_traversability_map.cpp:170-235 | one write changes the evidence of its cell only and reports exactly that cell as touched |
| `Traversability.MissionLocalTraversabilityMap.Sweep` | src/avoidance/mission_local_traversability_map.cpp:458-468 | picks the next slice and moves the cursor past it |
| `Traversability.MissionLocalTraversabilityMap.Recompute` | src/avoidance/mission_local_traversability_map.cpp:475-526 | rederives one cell and its membership of the occupied set, nothing else |
| `Traversability.MissionLocalTraversabilityMap.RecomputeAll` | src/avoidance/mission_local_traversability_map.cpp:475-526 | in any order, leaves every cell and the occupied set up to date |
| `Traversability.MissionLocalTraversabilityMap.Update` | src/avoidance/mission_local_traversability_map.cpp:137-436 | after every update each cell's derived fields are those of a full pass at the time recorded for it and the occupied set is exact; the cells visited are exactly those the evidence wrote and the swept slice |
| `Traversability.MissionLocalTraversabilityMap.UpdateRepeatedly` | src/avoidance/mission_local_traversability_map.cpp:137-436 | any n consecutive updates that leave the map at N cells with n K >= N recompute every cell at the time of one of them |
| `EvidenceSpec.LockingIsRetroactive` | src/avoidance/mission_local_obstacle_map.cpp:191-199 | what was accepted before the map frame was known is what the final frame would accept |
| `EvidenceSpec.FirstNameLocks` | src/avoidance/mission_local_obstacle_map.cpp:154-156 | the first frame named, by the map or a finite item, locks it for good |
| `EvidenceSpec.AcceptedMembers` | src/avoidance/mission_local_obstacle_map.cpp:185-203 | exactly the finite items without a frame or with the locked one are accepted, under their voxel's key |
| `EvidenceSpec.NothingDropped` | src/avoidance/mission_local_obstacle_map.cpp:185-203 | a batch whose items all fit is accepted whole and in order |
| `EvidenceSpec.DigestMeans` | src/avoidance/mission_local_obstacle_map.cpp:206-235 | a compacted update holds the counts, strongest confidences, height range and last item of all evidence of its key |
| `EvidenceSpec.DecayKeepsScored` | src/avoidance/mission_local_obstacle_map.cpp:94-112 | decay keeps scores in [0, max] and the flags equal to the threshold tests |
| `EvidenceSpec.MergeScores` | src/avoidance/mission_local_obstacle_map.cpp:261-294 | merging keeps scores in [0, max] and the flags equal to the threshold tests |
| `EvidenceSpec.UpdateAccounts` | src/avoidance/mission_local_obstacle_map.cpp:243-295 | after any update each cell's counters are the evidence ever accepted for its key, and its duplicates that number less the updates that touched it |
| `EvidenceSpec.DecayAccounts` | src/avoidance/mission_local_obstacle_map.cpp:94-112 | decay leaves all of that accounting intact |
| `EvidenceHistory.UpdateSums` | src/avoidance/mission_local_obstacle_map.cpp:279-291 | over updates without decay every score is the sum of hit score times strongest confidence of its polarity, batch by batch, capped at the maximum |
| `EvidenceHistory.UpdateRecords` | src/avoidance/mission_local_obstacle_map.cpp:266-289 | confidence, height range, source and all four time stamps are those of all evidence ever accepted for the key |
| `EvidenceHistory.SilentCellsFade` | src/avoidance/mission_local_obstacle_map.cpp:94-112 | cells without evidence in a batch lose exactly rate times elapsed time from each score, cut at 0, and nothing else |
| `EvidenceHistory.DecaysAdd` | src/avoidance/mission_local_obstacle_map.cpp:94-112 | decay depends only on the time passed, not on how often it is applied |
| `ObstacleMap.CompactionIsExact` | src/avoidance/mission_local_obstacle_map.cpp:243-295 | compacting through the index and merging digest by digest is the key-by-key update |
| `ObstacleMap.CompactedCount` | src/avoidance/mission_local_obstacle_map.cpp:237-241 | one digest per distinct key of the accepted evidence, none empty |
| `ObstacleMap.BatchKeepsOneFrame` | src/avoidance/mission_local_obstacle_map.cpp:191-199 | a batch never mixes a second map frame into the map |
| `ObstacleMap.MissionLocalObstacleMap.DecayTo` | src/avoidance/mission_local_obstacle_map.cpp:94-112 | every cell is decayed by the elapsed time, and all invariants stay |
| `ObstacleMap.MissionLocalObstacleMap.Compact` | src/avoidance/mission_local_obstacle_map.cpp:182-235 | accepts exactly the finite items compatible with the frame finally locked, and compacts them per key |
| `ObstacleMap.MissionLocalObstacleMap.MergeAll` | src/avoidance/mission_local_obstacle_map.cpp:243-295 | adds every digest's size to the summed counts and its surplus to the summed duplicates; new plus updated is the number of digests |
| `ObstacleMap.MissionLocalObstacleMap.RefreshSummary` | src/avoidance/mission_local_obstacle_map.cpp:114-131 | counts observed, occupied and free cells |
| `ObstacleMap.MissionLocalObstacleMap.Update` | src/avoidance/mission_local_obstacle_map.cpp:150-304 | the map follows the key-by-key update of the decayed map; over every run counters, scores, confidence, range and stamps are those of all evidence accepted since reset; summed duplicates are that less what was compacted; new + updated = compacted; other cells fade by rate times elapsed time |
| `ObstacleMap.MissionLocalObstacleMap.DrainDelta` | src/avoidance/mission_local_obstacle_map.cpp:306-321 | exactly the cells touched since the last drain, each once |
| `ObstacleMap.MissionLocalObstacleMap.Reset` | src/avoidance/mission_local_obstacle_map.cpp:323-330 | starts a new history |
| `FlightMap.LocalFlightMap.ClassifyCells` | src/avoidance/local_flight_map_ingest.cpp:121-128 | a cell is occupied exactly when a score reaches its threshold; no cell stays blocked |
| `FlightMap.LocalFlightMap.StampDisc` | src/avoidance/local_flight_map_ingest.cpp:152-164 | blocks exactly the in-grid disc around one cell and no other |
| `FlightMap.LocalFlightMap.InflateBlockedCells` | src/avoidance/local_flight_map_ingest.cpp:130-165 | the blocked cells are exactly the dilation of the occupied cells by the inflation disc |
| `FlightMap.ExclusionZoneIsBlocked` | src/avoidance/local_flight_map.cpp:175-198 | every cell whose centre is within vehicle radius plus margin of an occupied centre is in the dilation |
| `FlightMap.BlockedIsNear` | src/avoidance/local_flight_map.cpp:193-198 | a blocked centre is within the exclusion radius and less than one cell more of an occupied centre |
| `FlightMap.OnCellIff` | src/avoidance/local_flight_map.cpp:139-155 | a position is on a cell if and only if it is within the ranges and in the cell's half-open square |
| `FlightMap.CellOfCentre` | src/avoidance/local_flight_map.cpp:139-181 | a cell survives the round trip through its centre |
| `FlightMap.GridCoversRanges` | src/avoidance/local_flight_map.cpp:24-53 | the grid built from the ranges holds exactly the positions within them |
| `FlightMap.FlatInjective` | src/avoidance/local_flight_map.cpp:171-173 | distinct cells have distinct positions |
| `FlightMap.Evaluate` | src/avoidance/trajectory_safety_evaluator.cpp:64-105 | blocked if and only if some sample hits a blocked cell, with the least such index and the right count; invalid queries are not blocked |
| `FlightMap.BlockedMeansDilation` | src/avoidance/trajectory_safety_evaluator.cpp:8-40 | on an inflated grid a sample hits a blocked cell if and only if it lies on the grid and in the dilation |
| `Lifecycle.EveryRunIsSafe` | src/behavior/trajectory_mission_controller_tick.cpp:44-208 | in every run ranks never go back, Execute is entered only at gate height, Takeoff and Land are sent at most once, Arms are spaced by the retry interval, no velocity from Land on, only Disarm in Complete, Abort silent and permanent |
| `Lifecycle.TickEffect` | src/behavior/object_behavior_mission_controller_tick.cpp:35-193 | one tick of either controller is safe and keeps the sent flags and timers truthful |
| `LifecycleHistory.EveryRunFollows` | src/behavior/trajectory_mission_controller_tick.cpp:44-208 | in every run of either controller, tick by tick and in terms of what was seen before: each phase is left if and only if, and to where, and each command sent if and only if -- abort recovery goes home in the air, Takeoff, Land and Disarm are sent exactly when due |
| `LifecycleHistory.TickFollows` | src/behavior/object_behavior_mission_controller_tick.cpp:35-193 | one tick does what the history says, and the fields go on telling the history |
| `LifecycleHistory.CompleteOnlyOnGround` | src/behavior/trajectory_mission_controller_tick.cpp:97-172 | Complete is entered only at or below landing height, or from Prepare on a finish request with disarmed telemetry |
| `TrajectoryController.AdvancedKeepsClock` | src/behavior/trajectory_mission_controller.cpp:103-108 | advancing conserves elapsed time and stops in the segment the clock is in |
| `TrajectoryController.ElapseNeverNegative` | src/behavior/trajectory_mission_controller_tick.cpp:58-59 | a clock that jumps back does not move the trajectory |
| `TrajectoryController.TrajectoryFollowsClock` | src/behavior/trajectory_mission_controller_tick.cpp:124-141 | however the ticks fall, the position is the one the wall clock says, and completion comes at the first tick at or after the total duration |
| `TrajectoryController.EntersAtStart` | src/behavior/trajectory_mission_controller_tick.cpp:102-107 | the tick that enters ExecuteMission starts the trajectory from its beginning |
| `TrajectoryController.RunFollowsClock` | src/behavior/trajectory_mission_controller_tick.cpp:124-141 | in runs of the whole controller from entering ExecuteMission the place is that position and GoHome is entered at exactly that tick |
| `TrajectoryController.TrajectoryMissionController.AdvanceSegmentIfNeeded` | src/behavior/trajectory_mission_controller.cpp:103-108 | the loop computes the advanced position |
| `TrajectoryController.TrajectoryMissionController.Tick` | src/behavior/trajectory_mission_controller_tick.cpp:44-208 | the whole run so far is safe and follows its history; ExecuteMission is left if and only if finish is requested or the trajectory is over, GoHome if and only if the vehicle is within half a metre of where the first tick was or has no speed |
| `ObjectController.StepEventsAlternate` | src/behavior/object_behavior_mission_controller_tick_execute.cpp:29-199 | in every sequence run the step events are start 0, complete 0, start 1, ..., start i with i the index, always in range |
| `ObjectController.ExecuteDecides` | src/behavior/object_behavior_mission_controller_tick_execute.cpp:29-199 | one execute tick spelled out: a step ends, the phase is left, and each once-only event is sent, if and only if |
| `ObjectController.FinishLeavesAtOnceIff` | src/behavior/object_behavior_mission_controller_tick_execute.cpp:98-150 | a finish request leaves in the same tick if and only if no step that is not the last ends on it |
| `ObjectController.FinishWaitsForStep` | src/behavior/object_behavior_mission_controller_tick_execute.cpp:98-128 | a mission in which the request only completes a step |
| `ObjectController.FinishLeavesSoon` | src/behavior/object_behavior_mission_controller_tick_execute.cpp:98-199 | a persistent finish request leaves within max(1, number of steps) ticks |
| `ObjectController.FinishGoesHomeSoon` | src/behavior/object_behavior_mission_controller_tick.cpp:121-123 | in runs of the whole controller a persistent finish request reaches GoHome within max(1, number of steps) ticks, staying in ExecuteMission until then |
| `ObjectController.WrapAngle` | src/behavior/object_behavior_mission_controller_sequence.cpp:56-62 | the two loops bring an angle into [-pi, pi] by whole turns |
| `ObjectController.ObjectBehaviorMissionController.UpdateOrbit` | src/behavior/object_behavior_mission_controller_sequence.cpp:36-71 | orbit progress grows by the turn in the active step's direction, never backwards and by at most half an orbit a tick, and is done at that step's count |
| `ObjectController.ObjectBehaviorMissionController.UpdateFrameInterval` | src/behavior/object_behavior_mission_controller_tick_execute.cpp:229-249 | the estimate moves from its old value towards a plausible observed gap and past neither, stays below 30 s, and ignores implausible gaps |
| `ObjectController.EstimateWithinGaps` | src/behavior/object_behavior_mission_controller_tick_execute.cpp:229-249 | over every run the estimate stays within the range of the plausible gaps seen |
| `ObjectController.EstimateConverges` | src/behavior/object_behavior_mission_controller_tick_execute.cpp:229-249 | at a steady frame rate the error after n frames is 0.7^n times the first error |
| `ObjectController.ObjectBehaviorMissionController.TickExecute` | src/behavior/object_behavior_mission_controller_tick_execute.cpp:29-199 | one execute tick follows the value-level step; a new step starts with orbit tracking reset |
| `ObjectController.ObjectBehaviorMissionController.Tick` | src/behavior/object_behavior_mission_controller_tick.cpp:35-193 | the whole run so far is safe and follows its history; GoHome is left if and only if the vehicle is at gate height within half a metre of where the first tick was, five at slow frame rates |
| `EventStream.FrameDecodes` | apps/dedalus_viewer.cpp:477-490 | a frame decodes to exactly its event and leaves the decoder at a frame boundary |
| `EventStream.EventTypeFound` | apps/dedalus_viewer.cpp:467-474 | the event type is the text between the first type tag and the next quote |
| `EventStream.EventTypeMissing` | apps/dedalus_viewer.cpp:467-474 | without tag or closing quote the type is "event" |
| `EventStream.TrimmedKeeps` | apps/dedalus_viewer.cpp:478-481 | exactly the line breaks at the end are taken off |
| `EventStream.StreamDecodes` | apps/dedalus_viewer.cpp:467-490 | round trip: decoding the frames of any lines without inner line breaks gives back their events |
| `EventStream.PrefixDecodes` | apps/dedalus_viewer.cpp:467-490 | what has been decoded from the bytes sent so far is a prefix of those events, all of them when nothing is pending |
| `SseRelay.SharedQueue.Push` | apps/dedalus_viewer.cpp:80-88 | a full queue drops its oldest line and counts it |
| `SseRelay.SharedQueue.Pop` | apps/dedalus_viewer.cpp:92-100 | lines leave in order; every pushed line is popped, waiting or counted as dropped |
| `SseRelay.Relay.Join` | apps/dedalus_viewer.cpp:859-865 | a client joins with nothing sent and nothing pending |
| `SseRelay.Serve` | apps/dedalus_viewer.cpp:896-926 | for any answers of the kernel, sent bytes plus tail stay whole frames of a subsequence of the offered lines; the connection is lost if and only if a send fails or the tail passes the cap |
| `SseRelay.Relay.Offer` | apps/dedalus_viewer.cpp:894-926 | serving one client leaves every other client's stream alone |
| `SseRelay.Relay.OfferAll` | apps/dedalus_viewer.cpp:893-927 | every client is offered the line once |
| `SseRelay.Relay.WriteLine` | apps/dedalus_viewer.cpp:886-936 | every surviving client's stream stays intact and within the cap; exactly the refused clients are closed |
| `SseRelay.Viewer.WriterTurn` | apps/dedalus_viewer.cpp:888-936 | one turn of the writer loop pops a line and offers it: each client has been offered exactly the lines popped since it joined |
| `SseRelay.Viewer.Receive` | apps/dedalus_viewer.cpp:80-88 | a line coming in disturbs no client |
| `SseRelay.Viewer.Accept` | apps/dedalus_viewer.cpp:859-865 | a joining client starts at the current end of the popped lines |
| `SseRelay.Viewer.ClientSeesPoppedLines` | apps/dedalus_viewer.cpp:876-937 | over every run a live client's sent bytes and tail are whole frames of a subsequence of the lines popped since it joined, and decode to a prefix of their events |
| `SseRelay.ClientDecodesItsLines` | apps/dedalus_viewer.cpp:876-937 | what a client decodes is a prefix of the events of its lines, which are a subsequence of those offered |
| `Mavlink.AccumulateDivides` | src/behavior/px4_mavlink_command_sink.cpp:119-127 | the byte step equals eight steps of reflected division by 0x8408 (Appendix C of RFC 1662) |
| `Mavlink.ChecksumIsDivision` | src/behavior/px4_mavlink_command_sink.cpp:129-139 | for messages of every length the checksum is bit-serial division |
| `Mavlink.RegistersStayApart` | src/behavior/px4_mavlink_command_sink.cpp:119-127 | one byte never merges two different registers |
| `Mavlink.PairsDiverge` | src/behavior/px4_mavlink_command_sink.cpp:119-127 | two bytes fed to one register are determined by the result |
| `Mavlink.DamageChangesChecksum` | src/behavior/px4_mavlink_command_sink.cpp:129-139 | messages that differ within one byte or two adjacent bytes never share a checksum |
| `Mavlink.MavlinkCrc` | src/behavior/px4_mavlink_command_sink.cpp:129-139 | the version 1 checksum is the register of header, payload and extra byte |
| `Mavlink.MavlinkCrcX25` | src/behavior/mavlink_gimbal_pointing_sink.cpp:134-141 | the version 2 checksum is the same function |
| `Mavlink.PacketV1` | src/behavior/px4_mavlink_command_sink.cpp:160-187 | refuses exactly the payloads over 255 bytes, else magic, body and checksum low byte first |
| `Mavlink.PacketV2` | src/behavior/mavlink_gimbal_pointing_sink.cpp:174-205 | the same for version 2 with its nine header bytes |
| `Mavlink.SealedLayout` | src/behavior/px4_mavlink_command_sink.cpp:129-187 | a packet is magic byte, body, and the division of body and extra byte started at 0xFFFF, low byte first |
| `Mavlink.CheckValue` | src/behavior/px4_mavlink_command_sink.cpp:119-139 | the digits 1 to 9 give the published check value 0x6F91 |
| `Mavlink.DamagedPacketIsRejected` | src/behavior/px4_mavlink_command_sink.cpp:160-187 | a packet damaged in one or two adjacent body bytes fails the checksum test |
| `ConfigFiles.LineRoundTrip` | src/runtime/config_loader.cpp:823-845 | a quoted assignment reads back as written |
| `ConfigFiles.LineReadsBack` | src/runtime/config_loader.cpp:826-844 | every line with a colon: blanks and comment are dropped, one pair of matching quotes taken off, empty key or value malformed, include told apart |
| `ConfigFiles.BlankLine` | src/runtime/config_loader.cpp:826-829 | a line of blanks or of a comment says nothing |
| `ConfigFiles.NoColonIsMalformed` | src/runtime/config_loader.cpp:830-833 | a line without a colon is malformed |
| `ConfigFiles.ParseFromTop` | src/runtime/config_loader.cpp:819-845 | includes and own keys keep the order of their lines, and the first malformed line is the one reported |
| `ConfigFiles.ExpansionUnique` | src/runtime/config_loader.cpp:847-866 | a file has at most one meaning |
| `ConfigFiles.MeaningBoundsWalks` | src/runtime/config_loader.cpp:847-855 | a file with a meaning of depth n has only include chains of at most n files, all well formed |
| `ConfigFiles.CycleHasNoMeaning` | src/runtime/config_loader.cpp:801-805 | a file from which a cycle can be reached means nothing |
| `ConfigFiles.DiamondIsAccepted` | src/runtime/config_loader.cpp:797-867 | a file included along two chains is no cycle and is applied once per chain |
| `ConfigFiles.LastAssignmentWins` | src/runtime/config_loader.cpp:857-865 | the last assignment of a key decides, so own keys override includes |
| `ConfigLoader.Loader.Split` | src/runtime/config_loader.cpp:823-845 | the line loop collects includes and own keys, or stops at the first malformed line |
| `ConfigLoader.Loader.ApplyOwn` | src/runtime/config_loader.cpp:857-864 | applies the keys in order or reports the first one rejected |
| `ConfigLoader.Loader.LoadFile` | src/runtime/config_loader.cpp:797-867 | terminates; on success the stack is as before and the configuration has taken the includes' meanings in order, then the own keys; on failure no meaning could be taken and a chain of includes leads to the fault |
| `ConfigLoader.Loader.LoadEach` | src/runtime/config_loader.cpp:847-855 | the same for a list of files, each on top of the ones before |
| `ConfigLoader.Loader.LoadApp` | src/runtime/config_loader.cpp:891-903 | succeeds if and only if the files have a meaning the configuration can take; with readable files and accepted keys in reach it fails if and only if a cycle is in reach |

## Left out

- Floating-point rounding, infinities, not-a-number arithmetic, integer wrap-around and hash functions: arithmetic is exact, a non-finite evidence point is a flag on the item.
- DistanceField.SquaredField: assumes that no squared distance read by a later pass reaches the sentinel 1e20, which `SentinelBoundIsNeeded` shows cannot be dropped.
- LocalEsdf.FillOccupancy: the per-voxel time stamps are not modelled.
- LocalEsdf.StoreShell: gradients and time stamps of stored cells are not modelled.
- LocalEsdf.LocalEsdfMap.PatchWindow: assumes matching resolution, as the two updates below.
- LocalEsdf.ComputeEsdf: assumes the same bound and a squared truncation radius of at most 1e20; the entries' gradients and time stamps are not modelled.
- LocalEsdf.LocalEsdfMap.UpdateIncremental: assumes that the map was made at the resolution the planning map would give it again, and a truncation radius that is not negative.
- LocalEsdf.LocalEsdfMap.UpdateTube: assumes the same, and a tube radius that is not negative.
- `repulsion`, distance-map snapshots, polar risk, follow and circle velocities, yaw and camera pointing: clamps and trigonometry with little else to state.
- SQLite itself, the vote and method tables, `remove_mission`, saving and loading map files, and the load at `open_db`: the database is a map from key to row; a commit happens whole.
- FlushProtocol.StepTracks: the time-stamp column of a row is not modelled.
- Traversability.MissionLocalTraversabilityMap.Apply: the capped counters, confidence and first-observed stamp are not modelled.
- Traversability.MissionLocalTraversabilityMap.Update: the ray geometry that chooses which cells the evidence stages write is a parameter (any sequence of writes); the capped counters and the clearance and cost blend of the second pass are not modelled.
- FlightMap.Evaluate: the minimum clearance in metres is not modelled.
- SseRelay.Relay.Join: the whole frames sent at connection time, before joining, are not modelled.
- SseRelay.Relay.WriteLine: sockets are arbitrary send results; the whole frames sent at connection time, HTTP routing, static files and threads are not modelled.
- Mission controllers: velocity values, target selection and status strings; the selector's report and the step geometry are parameters, and both controllers hold their shared lifecycle fields as one record value.
- ObstacleMap.MissionLocalObstacleMap.Update: the source kind and cell size fields are not modelled.
- Evidence splatting and decay of the flight grid, clearance metres and the summary counters: easy next to the rest.
- ConfigLoader.Loader.LoadApp: key parsing is any function that accepts or rejects an assignment, path resolution any function to canonical names; environment overrides and provider validation are not modelled.
- Perception, ghost targets, JSON and OSD rendering, artifact writers, profiler, provider registry, scripts and other applications: plumbing.
