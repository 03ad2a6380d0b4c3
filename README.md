# phystem core, modelled in Dafny

A Dafny model of the discrete core of phystem, a simulator of self-propelled
particles and of active rings (deformable polygons of particles). The model
covers the C++ ring/particle engine's bookkeeping and the small Python data
structures, collectors and configuration validators around it. Each module
below follows one part of the program. Every operation carries a contract,
and lemmas prove the properties the program relies on.

- `grid.dfy`, `windows.dfy`, `windows_lib.dfy`: the uniform spatial grids
  (`WindowsManager`, `WindowsManagerRing` and the older square-space
  `WindowsManager`). They cover the cell of a point, the row-major cell list,
  the four-cell half-stencil, the per-cell slot lists with their `capacity`
  counters, and rebuilds gated by `update_freq`.
- `ring_pool.dfy`: the slot pool of the C++ `Ring` solver. It covers the
  `mask`, the compacted `rings_ids`, the active count, the unique-id counter,
  `add_ring`/`remove_ring`, `load_checkpoint`, and the Stokes-regime creation
  and removal of rings.
- `invasions.dfy`: the resolved-invasion hysteresis list of
  `collision_forces`.
- `ring_forces.dfy`: the excluded-volume and spring pair forces, the
  periodic wrap, the shoelace area, the continuous ring reconstruction and
  the Stokes wall clamp.
- `in_pol.dfy`, `scan_cover.dfy`: `InPolChecker`. It covers the even-odd
  point-in-polygon test, the reusable collision buffers, the
  frequency-gated rescans, and exactly which ring pairs a rescan visits.
- `self_propelling.dfy`: the particle solver's pair force, its all-pairs
  traversal, the snap wrap at the border and `mean_vel`.
- `data_types.dfy`: the ragged point buffer `ArraySizeAware` (both
  versions) and the index split of `MultFileList`.
- `cell_grids.dfy`, `ring_utils.dfy`, `rings_quantities.dfy`: cell
  coordinates, counts, sums and means on grids, the circle masks, the
  adjacency builders, the centres and velocities of rings, their areas, and
  the ring density.
- `data_utils.dfy`, `timer.dfy`: `conv_arr`/`mean_arr` and the
  execution-time buffers.
- Collectors:
  - `delta.dfy`, `neighbors.dfy`, `delta_input.dfy`, `solid_liquid.dfy`: the
    delta, neighbour-table and solid-liquid collectors;
  - `invasion.dfy`: the invasion collector;
  - `creation_rate.dfy`: the creation-rate collector;
  - `density_vel.dfy`: the density/velocity collector;
  - `quantity_pos.dfy`: the position-quantity collectors.
- `ring_configs.dfy`, `dynamic_cfgs.dfy`, `run_config.dfy`: the
  configuration validators and derivations (`RingCfg` in three versions,
  `IntegrationCfg`, `CollectDataCfg`, `SaveCfg` in three versions).
- `creators.dfy`: the initial-configuration creators.
- `extreme_pars.dfy`: the extreme-parameter generator.
- `runge_kutta.dfy`: Butcher tables and the Runge-Kutta loops.
- `numeric.dfy`, `wrappers.dfy`: shared numeric conventions and the
  Option/Result types.

Modelling conventions:

- Positions, forces and times are `real`.
- Rounding follows the source explicitly:
  - the C++ `(int)` cast and numpy `astype(int)` truncate toward zero
    (`Numeric.Trunc`);
  - `np.floor` is `.Floor`;
  - Python `round` rounds half to even (`Numeric.RoundHalfEven`).
- numpy's negative indexing, broadcasting and boolean masks are written out
  where the code relies on them.
- Square roots, trigonometric functions, the random number generator and
  the clock become parameters of the operations that use them.
- An exception the source raises is an `Err` of the `Result` the operation
  returns.
- OpenMP loops are modelled sequentially.

Where two copies of a file disagree, both are modelled. By default the model
follows the code. Two cases are modelled as corrected, with the code as
written kept alongside; both are listed under Findings:

- The density/velocity collector's constructor clocks start at the step
  count, as the build copy's `setup` does, not at the simulated time.
- The ring pool's Stokes removal fixes its loop bound on entry, as the
  parallel loop does.

## Model

| member | source | states |
|---|---|---|
| Grid.CellIndexSpec | src/phystem/cpp/src/windows_manager.h:106-113 | a coordinate inside the space gets an index in [0, n) whose cell interval holds its offset; only the far border itself is clamped into the last cell |
| Grid.NextIsMod | src/phystem/cpp/src/windows_manager.h:92-94 | the successor `(j+1) % n` of an in-range index is the wrap-to-zero successor |
| Grid.Stencil | src/phystem/cpp/src/windows_manager.h:89-103 | four stencil entries, each inside the grid when the cell is |
| Grid.StencilInGrid | src/phystem/cpp/src/windows_manager.h:89-103 | the stencil is east, south, south-east and south-west, each wrapped, and in range |
| Grid.StencilCoversOnce | src/phystem/cpp/src/windows_manager.h:89-103 | on grids of at least 3x3, two distinct Moore neighbours appear in exactly one of each other's stencils; non-neighbours in neither |
| Grid.StencilDistinct | src/phystem/cpp/src/windows_manager.h:89-103 | on grids of at least 3x3 the four stencil cells are distinct and never the cell itself |
| Grid.RowMajorAt | src/phystem/cpp/src/windows_manager.h:76-82 | entry k of `windows_ids` is a grid cell (i, j) with k == i*nc + j |
| Grid.RowMajorLength | src/phystem/cpp/src/windows_manager.h:207-211 | `windows_ids` has nr*nc entries |
| Grid.RowMajorIndexOf | src/phystem/cpp/src/windows_manager.h:207-211 | every grid cell (i, j) is listed, at index i*nc + j |
| Grid.BucketMembership | src/phystem/cpp/src/windows_manager.h:122-130 | a cell's members are exactly the inserted items aimed at that cell |
| Grid.BucketLength | src/phystem/cpp/src/windows_manager.h:122-130 | a cell's count equals the number of insertions aimed at it |
| Grid.BucketOfIncreasing | lib/phystem/cpp/src/windows_manager.h:80-88 | items inserted in increasing order stay increasing inside each cell, and every member was inserted |
| Grid.GatherMembership | src/phystem/cpp/src/windows_manager.h:250-279 | reading the listed cells yields exactly the inserted items whose cell is listed |
| Grid.WriteSlot | src/phystem/cpp/src/windows_manager.h:122-130 | slot `capacity` is overwritten when it exists, otherwise the list grows by one; other slots are kept |
| Windows.CellIndexOfMidpoint | src/phystem/cpp/src/windows_manager.h:107-113 | a coordinate half a cell past the start of cell k is placed in cell k |
| Windows.ColCenterInColumn | src/phystem/cpp/src/windows_manager.h:83-85 | the stored centre of column j lies in column j |
| Windows.RowCenterInRow | src/phystem/cpp/src/windows_manager.h:237-240 | the ring grid's centre of row i lies in row i as `update_entity` counts rows |
| Windows.RowCenterAsWrittenMirrored | src/phystem/cpp/src/windows_manager.h:77-78 | the point grid's centre stored for row i lies in row numRows-1-i |
| Windows.RowCenterAsWrittenCounterexample | src/phystem/cpp/src/windows_manager.h:77 | on a 2-row grid of height 2, row 0's stored centre lies in row 1 |
| Windows.BuildWindowsIds | src/phystem/cpp/src/windows_manager.h:76-82 | the loop lists every cell in row-major order |
| Windows.BuildStencils | src/phystem/cpp/src/windows_manager.h:89-103 | the loop stores, for every cell, its half-stencil |
| Windows.BuildCenters | src/phystem/cpp/src/windows_manager.h:75-87 | the loop stores each cell's (column centre, row centre) |
| Windows.RowCenters | src/phystem/cpp/src/windows_manager.h:236-240 | one row centre per row, each given by the ring grid's formula |
| Windows.RowCentersAsWritten | src/phystem/cpp/src/windows_manager.h:75-78 | one row centre per row as the point grid stores it, which is the bottom-counted centre of the mirrored row numRows-1-i |
| Windows.InsidePointInGrid | src/phystem/cpp/src/windows_manager.h:106-113 | a point of the closed space rectangle gets a cell of the grid |
| Windows.LocateCell | src/phystem/cpp/src/windows_manager.h:107-113 | row and column are the truncated, border-clamped cell indices of the point |
| Windows.ZeroCounts | src/phystem/cpp/src/windows_manager.h:134-138 | every count becomes zero, storage is kept, and the counts sum to zero |
| Windows.InsertSlot | src/phystem/cpp/src/windows_manager.h:122-130 | the id is written at slot `capacity` of its cell and that count grows by one; no other cell changes |
| Windows.WindowsManager.constructor | src/phystem/cpp/src/windows_manager.h:56-104 | zero counts, row-major `windows_ids`, half-stencils, `num_points / cells` preallocated slots, and cell centres as written: the column centre, and the row centre counted from the top (`RowCenterYAsWritten`) |
| Windows.WindowsManager.UpdatePoint | src/phystem/cpp/src/windows_manager.h:106-131 | the point's cell gains the id at its end and its count by one; nothing else changes |
| Windows.WindowsManager.UpdateWindowMembers | src/phystem/cpp/src/windows_manager.h:133-146 | every cell holds exactly the active ids whose point lies in it, in order, and the counts sum to `num_active` |
| Windows.WindowsManager.MembersAreActiveIdsOfCell | src/phystem/cpp/src/windows_manager.h:141-145 | after a rebuild an id is in cell (i, j) iff it is active and its point lies in (i, j) |
| Windows.RebuildSchedule | src/phystem/cpp/src/windows_manager.h:329-335 | after k calls the counter is ((k-1) mod f) + 1, and call k+1 rebuilds iff f divides k |
| Windows.WindowsManagerRing.constructor | src/phystem/cpp/src/windows_manager.h:180-248 | zero counts, row-major ids, centres counted from the bottom and `num_points / cells` preallocated slots |
| Windows.WindowsManagerRing.UpdateEntity | src/phystem/cpp/src/windows_manager.h:293-327 | every vertex (e, p) is appended to its cell in vertex order and the counts grow by `num_points` |
| Windows.WindowsManagerRing.UpdateWindowMembers | src/phystem/cpp/src/windows_manager.h:329-352 | a gated call only advances the counter; a rebuild fills each cell with exactly the active vertices in it, counts summing to active x points |
| Windows.WindowsManagerRing.Rebuild | src/phystem/cpp/src/windows_manager.h:337-351 | counts cleared, then the listed rings inserted in order; each cell holds its vertices |
| Windows.WindowsManagerRing.GetWindowElements | src/phystem/cpp/src/windows_manager.h:281-291 | the first `capacity` entries of the cell |
| Windows.WindowsManagerRing.GetWindowPointElements | src/phystem/cpp/src/windows_manager.h:250-279 | the point's cell's members, then those of its four stencil cells in order |
| WindowsLib.WindowsManager.constructor | lib/phystem/cpp/src/windows_manager.h:28-62 | cell sizes from the square space, zero counts, row-major ids, half-stencils and preallocated slots |
| WindowsLib.WindowsManager.UpdateWindowMembers | lib/phystem/cpp/src/windows_manager.h:64-90 | each cell holds exactly the ids 0..n-1 whose point lies in it, and the counts sum to `num_points` |
| WindowsLib.WindowsManager.RebuiltCellsSorted | lib/phystem/cpp/src/windows_manager.h:80-88 | after a rebuild each cell lists its ids in increasing order, and an id is listed iff its point lies there |
| RingPool.UniqueId.constructor | src/phystem/cpp/src/solvers/ring.h:87-91 | the counter starts at zero |
| RingPool.UniqueId.NewId | src/phystem/cpp/src/solvers/ring.h:93-96 | `new_id` increments the maximum and returns the new maximum, so successive ids are 1, 2, 3, ... |
| RingPool.ActiveSlotsSpec | src/phystem/cpp/src/solvers/ring.h:635-650 | the slots `recalculate_rings_ids` lists are exactly the used slots, ascending, and their number is the count of true mask entries |
| RingPool.FirstFree | src/phystem/cpp/src/solvers/ring.h:657-658 | the slot `add_ring` takes is unused and every lower slot is used; with none found, every slot is used |
| RingPool.FirstFreeCount | src/phystem/cpp/src/solvers/ring.h:657-681 | `add_ring` finds no slot exactly when every slot is used |
| RingPool.ScatterOutside | src/phystem/cpp/src/solvers/ring.h:622-630 | slots not listed in the checkpoint keep their values |
| RingPool.ScatterLast | src/phystem/cpp/src/solvers/ring.h:622-630 | a listed slot holds the value of the last checkpoint entry naming it |
| RingPool.ScatterFrom | src/phystem/cpp/src/solvers/ring.h:622-630 | every listed slot holds one of the checkpoint's values |
| RingPool.LoadedMask | src/phystem/cpp/src/solvers/ring.h:618-628 | clearing the mask and then marking the listed slots makes exactly the listed slots used |
| RingPool.WriteCheckpoint | src/phystem/cpp/src/solvers/ring.h:622-630 | the copy loop writes each saved position, angle and unique id to its listed slot, marks it used and puts the listed ids, in order, at the front of `rings_ids` |
| RingPool.RemovalSweep | src/phystem/cpp/src/solvers/ring.h:1562-1592 | a listed used slot is cleared exactly when its centre x exceeds the border; the used count drops by the number of clearings |
| RingPool.SweepRereadBoundHalf | src/phystem/cpp/src/solvers/ring.h:1563-1587 | read sequentially, with the bound re-read after every removal, a list of rings all past the border loses only its first half (rounded up) |
| RingPool.SweepRereadBoundMissesRing | src/phystem/cpp/src/solvers/ring.h:1563-1587 | two rings both past the border: the sequential reading removes only the first |
| RingPool.RingPool.constructor | src/phystem/cpp/src/solvers/ring.h:298-330 | the pool has `num_max_rings` slots when positive, else one per initial ring; initial ring i sits in slot i with unique id i+1 and rings_ids[i] == i; later slots are unused; the active count is the initial ring count |
| RingPool.RingPool.PrefixMask | src/phystem/cpp/src/solvers/ring.h:318-330 | a mask true exactly on the first k slots has k used slots, namely 0, ..., k-1 |
| RingPool.RingPool.RecalculateRingsIds | src/phystem/cpp/src/solvers/ring.h:635-650 | afterwards the first `num_active_rings` ids are the used slots ascending, the count is their number, the flag is cleared and nothing else changes |
| RingPool.RingPool.AddRing | src/phystem/cpp/src/solvers/ring.h:652-682 | the lowest free slot gets the template ring, the creation angle and a fresh unique id, becomes used, the count grows and the flag is raised; with no free slot nothing changes; the count invariant and unique-id distinctness are preserved |
| RingPool.RingPool.RemoveRing | src/phystem/cpp/src/solvers/ring.h:684-688 | the slot is freed, the active count drops by one and the flag is raised; nothing else changes |
| RingPool.RingPool.LoadCheckpoint | src/phystem/cpp/src/solvers/ring.h:614-633 | exactly the listed slots are used, each with the saved data of its last entry; `rings_ids` starts with the listed ids; the counter's maximum is the largest saved unique id, so every stored unique id is at most the maximum |
| RingPool.RingPool.RemovePastBorder | src/phystem/cpp/src/solvers/ring.h:1586-1596 | afterwards exactly the previously used slots whose centre x is at most the border are used and the id list is compact again; distinct unique ids stay distinct |
| RingPool.RingPool.CreateRings | src/phystem/cpp/src/solvers/ring.h:1997-2003 | the number of created rings is the number of requests; the mask, positions, angles, unique ids and id counter become `CreatedSlots` of the old ones (one `add_ring(i)` per request i, in order); the id list is unchanged; the used count grows by the number of requests capped by the free slots |
| RingPool.AddStep | src/phystem/cpp/src/solvers/ring.h:652-682 | one `add_ring` on the slot state keeps every per-slot array as long as the mask |
| RingPool.CreatedSlots | src/phystem/cpp/src/solvers/ring.h:1997-2003 | the slot state after the creation loop keeps every per-slot array as long as the mask |
| RingPool.CreatedKeepsUsed | src/phystem/cpp/src/solvers/ring.h:652-682 | creating rings never touches a slot already in use: it stays used with its ring, angle and unique id |
| RingPool.CreatedCounter | src/phystem/cpp/src/solvers/ring.h:652-682 | creating rings never frees a slot, and the unique-id counter grows by exactly the number of slots filled |
| RingPool.RingPool.CreateStep | src/phystem/cpp/src/solvers/ring.h:2000-2002 | one round of the creation loop: a set request i counts one creation and applies `AddStep` with template i to the slot state; an unset request changes nothing |
| RingPool.CreationRequests | src/phystem/cpp/src/solvers/ring.h:1975-1995 | candidate ring i is requested exactly when none of its listed cells holds a positive count |
| RingForces.WrapSpec | src/phystem/cpp/src/solvers/ring.h:719-723 | the wrap moves a coordinate by at most one whole period, leaves it alone within half a period, and brings anything within one and a half periods into [-size/2, size/2] |
| RingForces.WrapOdd | src/phystem/cpp/src/solvers/ring.h:719-723 | wrapping commutes with negation, so the wrapped q - p is minus the wrapped p - q |
| RingForces.PeriodicDiffOdd | src/phystem/cpp/src/solvers/ring.h:702-726 | the difference `periodic_dist` leaves behind is odd in its argument in every regime (unchanged under stokes, wrapped otherwise) |
| RingForces.ExcludedVolScalar | src/phystem/cpp/src/solvers/ring.h:754-765 | within `max_dist`, the pair scalar is attractive (non-positive) beyond the diameter and repulsive (non-negative) inside it, zero exactly at the diameter, and reaches `-adh_force` exactly at `max_dist` |
| RingForces.TotalAddAt | src/phystem/cpp/src/solvers/ring.h:786-788 | adding a force to one entry of the force matrix adds it to the total force |
| RingForces.PairKeepsTotal | src/phystem/cpp/src/solvers/ring.h:786-794 | adding f to one entry and -f to any entry leaves the total force unchanged |
| RingForces.RingForces.constructor | src/phystem/cpp/src/solvers/ring.h:309-310 | the force matrix starts as zero vectors, one row per slot and one vector per particle |
| RingForces.RingForces.ExcludedVolForce | src/phystem/cpp/src/solvers/ring.h:728-795 | a pair beyond `max_dist` adds nothing; otherwise the excluded-volume force along the wrapped difference is added to p and, with the third law, its negation to the other vertex, which keeps the total force |
| RingForces.RingForces.SpringEnd | src/phystem/cpp/src/solvers/ring.h:842-843 | the spring's second vertex is in range and is vertex 0 exactly for the last spring |
| RingForces.RingForces.SpringForce2 | src/phystem/cpp/src/solvers/ring.h:841-876 | the spring to the next vertex adds its force to the first vertex and subtracts it from the second, using the per-spring constant for invaginated rings; the total force is kept |
| RingForces.RingForces.SpringRestoring | src/phystem/cpp/src/solvers/ring.h:867-870 | with a positive constant, a stretched spring pulls the first vertex towards the second and a compressed one pushes it away |
| RingForces.CalcArea | src/phystem/cpp/src/solvers/ring.h:907-921 | `calc_area` computes the shoelace area: half the cyclic sum of cross products |
| RingForces.ChainCrossTranslate | src/phystem/cpp/src/solvers/ring.h:910-914 | translating the chain changes its cross sum only by a telescoping boundary term |
| RingForces.ShoelaceTranslation | src/phystem/cpp/src/solvers/ring.h:907-921 | the area is independent of where the polygon sits |
| RingForces.CalcDifferences | src/phystem/cpp/src/solvers/ring.h:885-905 | entry i is the wrapped difference from vertex i to the next, the last one to vertex 0 |
| RingForces.PeriodsIsProduct | src/phystem/cpp/src/solvers/ring.h:719-723 | the periods dropped by repeated wrapping add up to an integer multiple of the period |
| RingForces.OffsetIsPeriods | src/phystem/cpp/src/solvers/ring.h:964-975 | what the wrapped steps have dropped up to vertex i is a whole number of periods on each axis |
| RingForces.CalcContinuousPos | src/phystem/cpp/src/solvers/ring.h:964-975 | the continuous ring starts at the stored first vertex, each step is the wrapped (short) difference, and each vertex is its stored position shifted by whole periods |
| RingForces.ChainLattice | src/phystem/cpp/src/solvers/ring.h:967-972 | any chain built from the wrapped differences is the stored ring shifted back by the dropped offsets |
| RingForces.StokesChainIsRing | src/phystem/cpp/src/solvers/ring.h:715-717 | in the stokes regime nothing is dropped, so the continuous ring is the stored ring |
| RingForces.StokesClampSpec | src/phystem/cpp/src/solvers/ring.h:1406-1420 | after the wall clamp no vertex outside a wall moves further out, each velocity component is kept or zeroed, a vertex inside the walls keeps its velocity, and clamping twice is clamping once |
| Invasions.InsertSpec | src/phystem/cpp/src/solvers/ring.h:50 | inserting into an ordered list keeps it ordered and adds exactly the element |
| Invasions.SortAscSpec | src/phystem/cpp/src/solvers/ring.h:50 | the sort of `remove_by_indices` returns an ordered permutation of the indices |
| Invasions.SortAscOfSorted | src/phystem/cpp/src/solvers/ring.h:50 | sorting an ordered list changes nothing |
| Invasions.EraseAt | src/phystem/cpp/src/solvers/ring.h:60-64 | erasing after the node before index i removes exactly the element at i and keeps the rest in order |
| Invasions.KeepAgree | src/phystem/cpp/src/solvers/ring.h:46-66 | what is kept depends only on which in-range positions are listed |
| Invasions.EraseDescendingKeeps | src/phystem/cpp/src/solvers/ring.h:58-65 | erasing distinct in-range positions from the largest down keeps exactly the unlisted elements, in order |
| Invasions.RemoveByIndicesFails | src/phystem/cpp/src/solvers/ring.h:52-56 | `remove_by_indices` throws `out_of_range` exactly when some index is at or beyond `max_size`, before erasing anything |
| Invasions.RemoveByIndicesKeeps | src/phystem/cpp/src/solvers/ring.h:46-66 | with distinct in-range indices, `remove_by_indices` leaves exactly the unlisted elements in their order |
| Invasions.RemoveIds | src/phystem/cpp/src/solvers/ring.h:46-66 | the sort, check and erase loops compute `remove_by_indices` |
| Invasions.EraseRepeated | src/phystem/cpp/src/solvers/ring.h:58-65 | erasing the same index k once per element after the first k leaves exactly the first k elements |
| Invasions.AddCollision | src/phystem/cpp/src/solvers/ring.h:108-110 | `add_collision` pushes the record to the front with zero elapsed steps and keeps the rest |
| Invasions.AddCollisionInOrder | src/phystem/cpp/src/solvers/ring.h:108-110 | pushing a fresh entry keeps the resolved list ordered by age from the front |
| Invasions.FirstExpired | src/phystem/cpp/src/solvers/ring.h:1196 | the first position whose elapsed count exceeds `steps_after_resolved`, every earlier one within it |
| Invasions.SweepShape | src/phystem/cpp/src/solvers/ring.h:1193-1224 | on an age-ordered list the second pass keeps a prefix and queues the kept count once per expired entry |
| Invasions.SweepRemovesExpired | src/phystem/cpp/src/solvers/ring.h:1193-1228 | the queued indices, though all equal to the kept count, erase exactly the expired entries; the rest stay age-ordered and at most `steps_after_resolved + 1` old |
| Invasions.SweepKeptMembers | src/phystem/cpp/src/solvers/ring.h:1195-1224 | an entry survives the sweep exactly when it has not expired, and comes back one step older |
| Invasions.SweepOutcome | src/phystem/cpp/src/solvers/ring.h:1193-1228 | on an age-ordered list that fits `max_size` the removal succeeds and leaves the surviving entries, aged and ordered |
| Invasions.Lifetime | src/phystem/cpp/src/solvers/ring.h:1193-1228 | a freshly resolved invasion is still listed after each of the first `steps_after_resolved + 1` calls, t steps old, and is gone after the next |
| Invasions.NeighbourIds | src/phystem/cpp/src/solvers/ring.h:1167-1168 | the neighbours used for the normal are the cyclic successor and predecessor, both in range |
| Invasions.Cols | src/phystem/cpp/src/solvers/ring.h:1201 | the collision records of the resolved entries, in order |
| Invasions.PushedInOrder | src/phystem/cpp/src/solvers/ring.h:1153-1156 | pushing the newly resolved records keeps the list age-ordered |
| Invasions.PushedCols | src/phystem/cpp/src/solvers/ring.h:1153-1156 | pushed records still name vertices of the position and force matrices |
| Invasions.StillInvading | src/phystem/cpp/src/solvers/ring.h:1143-1191 | the records that get the corrective force are among the records examined |
| Invasions.NewlyResolved | src/phystem/cpp/src/solvers/ring.h:1153-1157 | the records that get resolved are among the records examined |
| Invasions.FlagsAfter | src/phystem/cpp/src/solvers/ring.h:1145-1154 | after the first pass, a record is resolved exactly when it was before or was examined and found outside |
| Invasions.RecordedInRange | src/phystem/cpp/src/solvers/ring.h:1143-1191 | forced and resolved records name vertices in range |
| Invasions.SweepKeptCols | src/phystem/cpp/src/solvers/ring.h:1195-1224 | entries kept by the sweep name vertices the list already named |
| Invasions.RingInvasions.constructor | src/phystem/cpp/src/solvers/ring.h:99-106 | the resolved list starts empty |
| Invasions.RingInvasions.AddForcesElsewhere | src/phystem/cpp/src/solvers/ring.h:1189-1190 | a vertex no record names keeps its force |
| Invasions.RingInvasions.AddForcesAppend | src/phystem/cpp/src/solvers/ring.h:1189-1220 | the invasion forces of two record lists add up in sequence |
| Invasions.RingInvasions.FirstPassSpec | src/phystem/cpp/src/solvers/ring.h:1143-1191 | the first pass flags exactly the records found outside, pushes them in record order and adds the force for exactly those still inside |
| Invasions.RingInvasions.ScanRecords | src/phystem/cpp/src/solvers/ring.h:1143-1191 | the first-pass loop computes those flags, that list and those forces |
| Invasions.RingInvasions.TestRecords | src/phystem/cpp/src/solvers/ring.h:1143-1191 | the detector's flags, the resolved list and the force matrix become the first pass's results; the detector's records are untouched |
| Invasions.RingInvasions.SecondPassList | src/phystem/cpp/src/solvers/ring.h:1193-1224 | the second pass ages exactly the entries it keeps and queues the kept count at each expired one |
| Invasions.RingInvasions.SecondPassForces | src/phystem/cpp/src/solvers/ring.h:1201-1220 | the second pass adds the force of each kept entry, in list order |
| Invasions.RingInvasions.AgeResolved | src/phystem/cpp/src/solvers/ring.h:1193-1224 | the second-pass loop ages the list in place, returns the queued indices and adds the kept entries' forces |
| Invasions.RingInvasions.RemoveExpired | src/phystem/cpp/src/solvers/ring.h:1226-1228 | the queued indices are removed, or the exception is reported with the list left aged; on an ordered list that fits, exactly the expired entries go |
| Invasions.RingInvasions.CollisionForces | src/phystem/cpp/src/solvers/ring.h:1142-1229 | `collision_forces` as a whole: forces for still-invading records and for surviving resolved entries, newly resolved records pushed, expired entries removed; on an ordered list the survivors stay ordered and at most `steps_after_resolved + 1` old |
| InPol.CrossingLeftOfEdge | lib/phystem/cpp/src/in_pol_checker.h:74-77 | an edge toggles the parity only if the point lies left of one of its ends |
| InPol.RightOfVerticesOutside | lib/phystem/cpp/src/in_pol_checker.h:63-89 | a point right of (or level with) every vertex is outside |
| InPol.AboveVerticesOutside | lib/phystem/cpp/src/in_pol_checker.h:63-89 | a point at or above every vertex is outside: no edge straddles its horizontal line |
| InPol.CrossingsShifted | lib/phystem/cpp/src/in_pol_checker.h:69-86 | moving polygon and point together leaves the crossing count unchanged |
| InPol.InsideShifted | lib/phystem/cpp/src/in_pol_checker.h:63-89 | the inside test depends only on where the point is relative to the polygon |
| InPol.VertexHitsMembers | lib/phystem/cpp/src/in_pol_checker.h:99-129 | a record of `check_intersection(pol, other)` names a vertex of pol inside other, and every such vertex is recorded |
| InPol.ScanStep | lib/phystem/cpp/src/in_pol_checker.h:99-129 | one more call appends its records, points and fresh flags to the log |
| InPol.ScanHitsIn | lib/phystem/cpp/src/in_pol_checker.h:149-174 | every record produced by the scan names an existing vertex |
| InPol.LayoutShape | lib/phystem/cpp/src/in_pol_checker.h:149-151 | the visiting order and the neighbour lists the scan uses have the grid's shape |
| InPol.OccupantsFromItems | lib/phystem/cpp/src/in_pol_checker.h:144 | after the window rebuild, every cell member is an active ring id |
| InPol.Unresolved | lib/phystem/cpp/src/in_pol_checker.h:117-120 | fresh records are all unresolved |
| InPol.CheckerSchedule | lib/phystem/cpp/src/in_pol_checker.h:56-142 | starting from the constructor's counter of 1, the (k+1)-th `update` recomputes exactly when k+1 is a multiple of `update_freq` |
| InPol.InPolChecker.constructor | lib/phystem/cpp/src/in_pol_checker.h:46-61 | the square grid of `num_col_windows` cells a side over the space, the vertex count of ring 0, counter 1, no forces pending and empty buffers |
| InPol.InPolChecker.IsInsidePol | lib/phystem/cpp/src/in_pol_checker.h:63-89 | the loop computes the crossing-parity test over the closed polygon |
| InPol.InPolChecker.CheckIntersection | lib/phystem/cpp/src/in_pol_checker.h:99-129 | every vertex of pol inside other is recorded, in vertex order, unresolved, after the earlier records |
| InPol.InPolChecker.Record | lib/phystem/cpp/src/in_pol_checker.h:107-126 | the critical section puts the point and record in the next slot, reused or appended, and advances both counts |
| InPol.InPolChecker.Update | lib/phystem/cpp/src/in_pol_checker.h:131-175 | disabled: nothing changes; otherwise the `update_freq` gate; on a pass the windows are rebuilt from the active centres of mass and the buffers hold exactly the records of the scan's calls, all unresolved |
| InPol.InPolChecker.CheckPairs | lib/phystem/cpp/src/in_pol_checker.h:157-161 | ring pol against each window member in order, both directions each time |
| InPol.InPolChecker.CheckNeighbours | lib/phystem/cpp/src/in_pol_checker.h:163-172 | ring pol against every member of each listed neighbour cell, in list order |
| InPol.InPolChecker.CheckMembers | lib/phystem/cpp/src/in_pol_checker.h:154-173 | each member of a cell against the later members of that cell, then against the neighbour cells' members |
| InPol.InPolChecker.ScanWindows | lib/phystem/cpp/src/in_pol_checker.h:149-174 | the scan over the visiting order leaves exactly the records of its calls in the buffers |
| ScanCover.PairsWithHas | lib/phystem/cpp/src/in_pol_checker.h:157-161 | each pair of a ring with a listed member is called in both orders |
| ScanCover.PairsWithWitness | lib/phystem/cpp/src/in_pol_checker.h:157-161 | every call of the pair loop involves the ring and one listed member |
| ScanCover.StencilCallsHas | lib/phystem/cpp/src/in_pol_checker.h:163-172 | a pair with a member of any listed neighbour cell is among the neighbour calls |
| ScanCover.StencilCallsWitness | lib/phystem/cpp/src/in_pol_checker.h:163-172 | every neighbour call comes from one of the listed neighbour cells |
| ScanCover.MemberCallsHas | lib/phystem/cpp/src/in_pol_checker.h:154-173 | the calls a member makes are among the cell's calls |
| ScanCover.MemberCallsWitness | lib/phystem/cpp/src/in_pol_checker.h:154-173 | every call of a cell comes from one of its members |
| ScanCover.ScanCallsHas | lib/phystem/cpp/src/in_pol_checker.h:149-174 | the calls made for a visited cell are among the scan's calls |
| ScanCover.ScanCallsWitness | lib/phystem/cpp/src/in_pol_checker.h:149-174 | every call of the scan comes from one visited cell |
| ScanCover.ScannedBoth | lib/phystem/cpp/src/in_pol_checker.h:154-172 | a member paired with a later member of its cell or with a member of a neighbour cell is called in both orders |
| ScanCover.ScanChecksAdjacent | lib/phystem/cpp/src/in_pol_checker.h:149-174 | every pair of occupants of one cell, or of two touching cells, is checked in both orders |
| ScanCover.ScanCallsAreAdjacent | lib/phystem/cpp/src/in_pol_checker.h:149-174 | every call of the scan is such a pair |
| ScanCover.ScanCallsExactlyAdjacent | lib/phystem/cpp/src/in_pol_checker.h:149-174 | the scan's calls are exactly the ordered pairs of occupants of one cell (distinct slots) or of touching cells |
| ScanCover.ScanHitsMembers | lib/phystem/cpp/src/in_pol_checker.h:99-129 | a record is left exactly when its vertex exists and lies inside the other ring of a call made in that order |
| ScanCover.ScanLogExactly | lib/phystem/cpp/src/in_pol_checker.h:131-175 | after a rebuilding `update`, a record is present exactly when its vertex lies inside the other ring and the two rings occupy one cell or touching cells |
| SelfPropelling.ForceScalarSign | lib/phystem/cpp/src/solvers/self_propelling.h:155-160 | with non-negative constants and 0 < r_eq < max_r the scalar pushes the pair apart below r_eq and pulls it together from r_eq on |
| SelfPropelling.ForceScalarValues | lib/phystem/cpp/src/solvers/self_propelling.h:155-160 | the scalar is the full repulsion at distance 0, zero at r_eq and the full attraction at max_r |
| SelfPropelling.PushPairTotal | lib/phystem/cpp/src/solvers/self_propelling.h:162-166 | adding f to one particle and -f to another leaves the total force |
| SelfPropelling.PairStepSpec | lib/phystem/cpp/src/solvers/self_propelling.h:116-169 | `calc_force` changes nothing beyond max_r; below 1e-6 it counts one superposition and pushes the pair apart along x by the full repulsion; it only touches the two particles and always keeps the total force |
| SelfPropelling.RowPairs | lib/phystem/cpp/src/solvers/self_propelling.h:258-260 | row i of the double loop visits (i, j) for j = i+1 .. n-1 in order |
| SelfPropelling.PairsBelowHas | lib/phystem/cpp/src/solvers/self_propelling.h:256-292 | after i rounds every pair (a, b) with a < i and a < b < n has been visited |
| SelfPropelling.PairsBelowOrdered | lib/phystem/cpp/src/solvers/self_propelling.h:256-292 | the visits come in strictly increasing lexicographic order |
| SelfPropelling.AllPairsExactlyOnce | lib/phystem/cpp/src/solvers/self_propelling.h:256-292 | `update_normal` calls `calc_force` for exactly the pairs i < j < n, each once |
| SelfPropelling.ApplyPairsTotal | lib/phystem/cpp/src/solvers/self_propelling.h:116-169 | any sequence of pair calls keeps the total force and never lowers the superposition count |
| SelfPropelling.SnapWrapSpec | lib/phystem/cpp/src/solvers/self_propelling.h:320-325 | the border snap leaves a coordinate inside the square alone, sends one past a border to the opposite border, and so keeps every coordinate in [-size/2, size/2] |
| SelfPropelling.SumUnitAtRest | lib/phystem/cpp/src/solvers/self_propelling.h:342-343 | a particle at rest adds nothing to the polarisation sum |
| SelfPropelling.SumUnitAllAtRest | lib/phystem/cpp/src/solvers/self_propelling.h:337-350 | a system entirely at rest has polarisation sum zero |
| SelfPropelling.CallsToBoth | lib/phystem/cpp/src/solvers/self_propelling.h:189-201 | the one-way calls of a member against a list are, up to order, the detector's two-way pairs |
| SelfPropelling.StencilBoth | lib/phystem/cpp/src/solvers/self_propelling.h:194-201 | the neighbour calls are, up to order, the detector's neighbour calls |
| SelfPropelling.MemberBoth | lib/phystem/cpp/src/solvers/self_propelling.h:186-202 | a cell's calls are, up to order, the detector's calls for that cell |
| SelfPropelling.ScanBoth | lib/phystem/cpp/src/solvers/self_propelling.h:181-204 | the scan of `update_windows` visits, up to pair order, exactly what the invasion detector's scan visits |
| SelfPropelling.ScanForcesExactlyAdjacent | lib/phystem/cpp/src/solvers/self_propelling.h:181-204 | on a grid of at least 3x3 cells a force is computed, in one order or the other, for exactly the pairs sharing a cell or in touching cells |
| SelfPropelling.StencilGridShape | lib/phystem/cpp/src/solvers/self_propelling.h:68 | the row-major order and half stencils the windows manager builds name cells of the grid |
| SelfPropelling.OccupantsOf | lib/phystem/cpp/src/solvers/self_propelling.h:186-188 | every member of a cell is a particle index |
| SelfPropelling.ApplyPairsSnoc | lib/phystem/cpp/src/solvers/self_propelling.h:116-169 | one more pair call acts on the state the earlier calls left |
| SelfPropelling.SelfPropelling.constructor | lib/phystem/cpp/src/solvers/self_propelling.h:57-114 | positions and velocities are copied, the headings come from the initial angles, the force buffer is zero and a square grid of `num_col_windows` cells a side covers the space |
| SelfPropelling.SelfPropelling.CalcForce | lib/phystem/cpp/src/solvers/self_propelling.h:116-169 | the pair call on the buffer and the counter; positions and velocities are untouched |
| SelfPropelling.SelfPropelling.Advance | lib/phystem/cpp/src/solvers/self_propelling.h:294-334 | each position moves by dt times the old velocity and is snapped into the square, the velocity is self-propulsion along the old heading plus mobility times the force, the heading is replaced and the force entry is cleared |
| SelfPropelling.SelfPropelling.CalcRow | lib/phystem/cpp/src/solvers/self_propelling.h:258-291 | row i of the double loop makes the calls (i, j), j > i, in order |
| SelfPropelling.SelfPropelling.CalcPairs | lib/phystem/cpp/src/solvers/self_propelling.h:256-292 | the double loop makes every pair call i < j < n in order |
| SelfPropelling.SelfPropelling.UpdateNormal | lib/phystem/cpp/src/solvers/self_propelling.h:248-335 | the counter restarts, every pair gets one call, the collected forces sum to zero and each particle advances with its force |
| SelfPropelling.SelfPropelling.ForceStep | lib/phystem/cpp/src/solvers/self_propelling.h:200 | one more pair call on the state the earlier calls left |
| SelfPropelling.SelfPropelling.ForceRun | lib/phystem/cpp/src/solvers/self_propelling.h:189-192 | the particle against a run of cell members, in slot order |
| SelfPropelling.SelfPropelling.ForceCell | lib/phystem/cpp/src/solvers/self_propelling.h:196-201 | the particle against every member of one cell |
| SelfPropelling.SelfPropelling.ForceNeighbours | lib/phystem/cpp/src/solvers/self_propelling.h:194-202 | the particle against every member of each neighbour cell, in list order |
| SelfPropelling.SelfPropelling.ForceMember | lib/phystem/cpp/src/solvers/self_propelling.h:187-202 | one member against the later members of its cell, then the neighbour cells |
| SelfPropelling.SelfPropelling.ForceMembers | lib/phystem/cpp/src/solvers/self_propelling.h:186-203 | every member of the cell in slot order |
| SelfPropelling.SelfPropelling.ForceScan | lib/phystem/cpp/src/solvers/self_propelling.h:181-204 | the scan over the visiting order makes exactly the scan's calls |
| SelfPropelling.SelfPropelling.WindowForces | lib/phystem/cpp/src/solvers/self_propelling.h:171-204 | the windows are rebuilt from the current positions and one pair call is made per visited pair |
| SelfPropelling.SelfPropelling.UpdateWindows | lib/phystem/cpp/src/solvers/self_propelling.h:171-246 | the counter restarts, the force pass runs over the rebuilt windows, the collected forces sum to zero, and each particle advances and stays in the square |
| SelfPropelling.SelfPropelling.MeanVel | lib/phystem/cpp/src/solvers/self_propelling.h:337-350 | the length of the sum of unit velocities of moving particles, divided by all n |
| DataTypes.PyIndex | src/phystem/data_utils/data_types.py:68 | Python indexing of a length-n sequence reaches a position exactly for keys in [-n, n), the key itself or the key plus n |
| DataTypes.WriteRowsSpec | src/phystem/data_utils/data_types.py:34 | `data[id, :n] = x` replaces the first n rows by x, keeps the rest and keeps the slot's shape |
| DataTypes.ArraySizeAware.GetItem | src/phystem/data_utils/data_types.py:65-68 | keys at or past `num_points` raise IndexError; a recorded key reads the recorded prefix of its slot |
| DataTypes.ArraySizeAware.constructor | src/phystem/data_utils/data_types.py:7-22 | the data and counts are zeros, no point is recorded and every non-negative key raises IndexError |
| DataTypes.ArraySizeAware.Empty | src/phystem/data_utils/data_types.py:85-87 | `empty()` has capacity zero and is full from the start |
| DataTypes.ArraySizeAware.Update | src/phystem/data_utils/data_types.py:32-35 | the first rows of slot id become x and its count becomes |x|; no other slot changes; a missing id or rows that do not fit raise and change nothing |
| DataTypes.ArraySizeAware.Add | src/phystem/data_utils/data_types.py:24-35 | the outcome is that of `update(current_id, x)`: IndexError exactly when the buffer is full, ValueError when x has more rows than a slot and is not a single broadcast row, and then the buffer is unchanged; otherwise only slot `current_id` is written (its first rows become x when x fits, and its count becomes |x|), `current_id` advances, a fitting x reads back as x, and earlier points read as before |
| DataTypes.ArraySizeAware.AddMultiple | src/phystem/data_utils/data_types.py:37-53 | the block's points and counts go to the next slots and read back as their recorded prefixes, and `current_id` advances by the block size; a block that does not fit raises and changes nothing |
| DataTypes.ArraySizeAware.Reset | src/phystem/data_utils/data_types.py:55-58 | data and counts back to zero, no point recorded, every key raises |
| DataTypes.ArraySizeAware.Strip | src/phystem/data_utils/data_types.py:60-63 | both arrays are cut to the recorded points; the buffer is then full and each recorded point reads as before |
| DataTypes.GetIds | src/phystem/data_utils/data_types.py:136-139 | the file and position of an item satisfy id == file*per + pos with 0 <= pos < per; per == 0 raises ZeroDivisionError |
| DataTypes.GetIdsUnique | src/phystem/data_utils/data_types.py:136-139 | the split is the only one with a position in [0, per) |
| DataTypes.ConcatLength | src/phystem/data_utils/data_types.py:110-168 | `__len__` is the number of items the files hold when every file but the last is full |
| DataTypes.ConcatAt | src/phystem/data_utils/data_types.py:141-144 | position p of file f is item f*per + p of the concatenated list |
| DataTypes.GetItemFindsItem | src/phystem/data_utils/data_types.py:136-144 | for every key below `len`, `self[key]` names an existing file and position holding the key-th item of the list |
| LegacyDataTypes.ArraySizeAware.GetItem | src/phystem/systems/ring/collectors/data_types.py:27-28 | only a key outside the capacity raises; any other key reads the recorded prefix of the slot Python indexing reaches |
| LegacyDataTypes.ArraySizeAware.constructor | src/phystem/systems/ring/collectors/data_types.py:4-7 | zeros with no point recorded; every slot already reads as an empty point |
| LegacyDataTypes.ArraySizeAware.Update | src/phystem/systems/ring/collectors/data_types.py:13-16 | as in the newer buffer: slot id gets x and count |x|, nothing else changes |
| LegacyDataTypes.ArraySizeAware.Add | src/phystem/systems/ring/collectors/data_types.py:9-16 | the same outcome as `update(current_id, x)`: IndexError exactly when full, ValueError for more rows than a slot other than one broadcast row, the buffer unchanged on either; otherwise only slot `current_id` and its count are written, and a fitting x reads back as x |
| LegacyDataTypes.ArraySizeAware.Reset | src/phystem/systems/ring/collectors/data_types.py:18-21 | data and counts back to zero; every slot reads as an empty point |
| LegacyDataTypes.ArraySizeAware.Strip | src/phystem/systems/ring/collectors/data_types.py:23-25 | both arrays cut to the recorded points; the buffer is then full and recorded points read as before |
| CellGrids.RegularGrid.CellSize | src/phystem/data_utils/grids.py:152-162 | the cell width and height are positive and tile the grid: num_cols cells of width cover the length, num_rows cells of height cover the height |
| CellGrids.Clamp | src/phystem/data_utils/grids.py:189-193 | the out-of-bounds rule keeps in-range indices, yields the shape exactly for indices at or past it and -1 exactly for negative ones |
| CellGrids.FloorLocates | src/phystem/systems/ring/utils.py:646-647 | the floored quotient k of an offset by the cell size satisfies k*size <= offset < (k+1)*size |
| CellGrids.AxisFloorSpec | src/phystem/systems/ring/utils.py:646-653 | on one axis the floored, clamped coordinate is -1 exactly before the grid, the shape exactly from the far border on, and otherwise the cell whose half-open interval holds the offset |
| CellGrids.CoordFloorSpec | src/phystem/systems/ring/utils.py:643-663 | `coords` with `check_out_of_bounds` locates every point: each component marks before/past the grid exactly, and an in-grid coordinate names the cell containing the point |
| CellGrids.CoordTruncFromCorner | src/phystem/data_utils/grids.py:183-193 | for points not before the grid on either axis, the truncating `coords` equals the floored one, so it locates those points |
| CellGrids.CoordTruncLeftOfGrid | src/phystem/data_utils/grids.py:186-187 | counterexample: on a 2 x 2 grid the truncating `coords` puts (-1.5, 0.5), which lies left of the grid, into column 0, where the floored version gives -1 |
| CellGrids.Select | src/phystem/data_utils/grids.py:54-55 | boolean-mask selection keeps only elements satisfying the mask, and every such element with its full multiplicity |
| CellGrids.SelectSame | src/phystem/systems/ring/quantities/grids.py:48-56 | two masks that agree on every element select the same sequence |
| CellGrids.FiltersAgree | src/phystem/systems/ring/quantities/grids.py:48-56 | on clamped coordinates the border-dropping `filter_coords` and the in-range `filter_coords` of the data utilities select the same sequence, and all of it lies in the grid |
| CellGrids.Count | src/phystem/data_utils/grids.py:57-69 | `count` raises IndexError exactly when some coordinate cannot index the grid, and otherwise returns an num_rows x num_cols table |
| CellGrids.CountInGrid | src/phystem/systems/ring/quantities/grids.py:58-71 | on in-grid coordinates the count of each cell (transposed to row, column) is the number of coordinates naming that cell |
| CellGrids.CountFiltered | src/phystem/data_utils/grids.py:47-69 | counting what `filter_coords` keeps gives, for each cell, the number of input coordinates naming it |
| CellGrids.SumByCell | src/phystem/data_utils/grids.py:71-102 | `sum_by_cell` raises IndexError exactly when a coordinate is not indexable or has no value, and otherwise holds in every cell the sum of the values whose coordinate reaches it |
| CellGrids.SumByCellByDim | src/phystem/systems/ring/quantities/grids.py:73-105 | the ring-quantities `sum_by_cell`: the same error condition and the same per-cell sums, laid out dimension first |
| CellGrids.MeanCell | src/phystem/data_utils/grids.py:116-118 | where the count is positive each component times the count gives back the sum; elsewhere the sum is left unchanged |
| CellGrids.MeanByCell | src/phystem/data_utils/grids.py:104-120 | `mean_by_cell` raises IndexError exactly when `sum_by_cell` does, when there are no values, or when a given count grid is not shaped like the grid; otherwise it divides each cell's sum by its given or computed count where that is positive and leaves it elsewhere |
| CellGrids.MeanByCellByDim | src/phystem/systems/ring/quantities/grids.py:107-119 | the ring-quantities `mean_by_cell`: IndexError exactly when its `sum_by_cell` fails or a given count grid is not shaped like the grid (no values is not an error); otherwise component k of each [k][row][col] entry is the cell's sum component divided by its given or computed count where that is positive |
| CellGrids.NoHitsZeroSum | src/phystem/data_utils/grids.py:96-100 | a cell no coordinate reaches sums to the zero vector |
| CellGrids.CellSumComponent | src/phystem/data_utils/grids.py:230-233 | summing one component of the values alone gives that component of the joint per-cell sum |
| CellGrids.MeanComponent | src/phystem/data_utils/grids.py:230-234 | the property the file's self-test checks: the per-cell mean of one component equals that component of the joint per-cell mean |
| CellGrids.HitsInGrid | src/phystem/data_utils/grids.py:57-69 | on in-grid coordinates the number of values added to a cell equals the number of coordinates naming it |
| CellGrids.MeanByCellInGrid | src/phystem/data_utils/grids.py:104-120 | for in-grid coordinates without given counts, an empty cell's mean is the zero vector and a non-empty cell's mean times its count is its sum |
| CellGrids.MeanByCellByDimInGrid | src/phystem/systems/ring/quantities/grids.py:92-119 | for in-grid coordinates without given counts, each component of a ring-quantities mean cell is 0 when `count` sees the cell empty and, times that count, is the same component of the dimension-first sum otherwise |
| CellGrids.Mask | src/phystem/data_utils/grids.py:126-143 | the cell mask has one entry per cell, [row][col], holding the per-cell test |
| CellGrids.SqBetween | src/phystem/data_utils/grids.py:132-136 | for a point between two edges, its squared distance to the centre along that axis is at most the larger of the edge values |
| CellGrids.AllCornersInsideCell | src/phystem/data_utils/grids.py:122-143 | a cell with every corner strictly inside the circle lies wholly inside it, so a false mask entry with d1..d4 all below the radius is a cell entirely inside the circle |
| RingUtils.TimeToNumDt | src/phystem/systems/ring/utils.py:221-230 | raises ZeroDivisionError exactly for a zero dt; for dt > 0 the result n satisfies n*dt >= time > (n-1)*dt |
| RingUtils.TimeToNumDtLeast | src/phystem/systems/ring/utils.py:221-230 | the result is the least step count covering the interval: any m with m*dt >= time is at least it |
| RingUtils.AdjustShape | src/phystem/systems/ring/utils.py:286-300 | succeeds exactly for rank expected or expected+1, raising otherwise; the result has rank expected+1, the same number of elements and the same trailing axes |
| RingUtils.SimplifyShape | src/phystem/systems/ring/utils.py:302-305 | raises IndexError exactly for a zero-rank array and TypeError exactly for shape `[1]` (a reshape to no axes); otherwise keeps the element count and either keeps the shape or drops one leading axis of length 1 |
| RingUtils.SimplifyUndoesAdjust | src/phystem/systems/ring/utils.py:286-305 | simplifying an adjusted array of the expected rank gives back its original shape, except that a zero-rank array adjusts to shape `[1]`, whose simplification raises TypeError |
| RingUtils.CountLayer | src/phystem/systems/ring/utils.py:352-363 | the per-layer count grid is widened by two rows and two columns |
| RingUtils.DropTwo | src/phystem/systems/ring/utils.py:331-333 | Python's `s[:-2]`: all but the last two elements, empty for shorter sequences |
| RingUtils.RemoveCellsOutOfBounds | src/phystem/systems/ring/utils.py:324-333 | drops the last two rows and the last two columns of a layer |
| RingUtils.RemoveCellsOutOfBoundsLayers | src/phystem/systems/ring/utils.py:330-331 | with many layers, drops the same border cells from every layer |
| RingUtils.CountLayerSpec | src/phystem/systems/ring/utils.py:335-371 | on clamped coordinates the widened count never raises and each cell, including the border cells for -1 and the shape, holds the number of coordinates naming it |
| RingUtils.RemovedCountSpec | src/phystem/systems/ring/utils.py:363-366 | after removing the out-of-bounds cells the count is a num_rows x num_cols grid where each cell holds the number of coordinates naming it |
| RingUtils.CircleMask | src/phystem/systems/ring/utils.py:494-531 | raises ValueError exactly for a mode other than outside, inside and intersect; otherwise returns one entry per cell |
| RingUtils.CircleMaskPartition | src/phystem/systems/ring/utils.py:524-531 | every cell is in exactly one of the outside, inside and intersect masks |
| RingUtils.InsideMaskSound | src/phystem/systems/ring/utils.py:526-527 | every point of a cell the inside mask marks lies strictly inside the circle |
| RingUtils.IntersectCircleMaskIsOutside | src/phystem/data_utils/grids.py:122-143 | the grids modules' `intersect_circle_mask` is the outside mode of `circle_mask` |
| RingUtils.CoordsOfLayer | src/phystem/systems/ring/utils.py:643-658 | one layer: each point gets its floored, optionally clamped cell, one coordinate per point |
| RingUtils.Coords | src/phystem/systems/ring/utils.py:637-663 | raises exactly for point arrays of a rank other than 2 or 3; the result is flat exactly when simplification is asked for and there is one layer |
| RingUtils.CoordsAt | src/phystem/systems/ring/utils.py:637-663 | coordinate i of layer k of the result is the floored, clamped cell of point i of layer k |
| RingUtils.CoordsSpec | src/phystem/systems/ring/utils.py:610-663 | with `check_out_of_bounds` every coordinate locates its point: in [-1, shape], -1 and shape marking points before and past the grid, in-grid values naming the containing cell |
| RingUtils.NeighborsAll | src/phystem/systems/ring/utils.py:743-756 | raises IndexError exactly when an endpoint cannot index the list; otherwise node k's list is, in link order, the other endpoint of each link touching k |
| RingUtils.LinksIds | src/phystem/systems/ring/utils.py:758-771 | raises IndexError exactly when an endpoint cannot index the list; otherwise node k's list is, in order, the index of each link touching k |
| RingUtils.NeighsMatchLinkIds | src/phystem/systems/ring/utils.py:743-771 | the two lists of a node line up entry by entry: neighbour m is the other endpoint of the link whose index is entry m of the link-id list, and that link touches the node |
| RingUtils.InNeighs | src/phystem/systems/ring/utils.py:752-755 | b is in a's neighbour list exactly when some link joins a and b in either direction |
| RingUtils.NeighborsSymmetric | src/phystem/systems/ring/utils.py:752-755 | b is a neighbour of a exactly when a is a neighbour of b |
| RingUtils.NeighLengthsStep | src/phystem/systems/ring/utils.py:753-755 | each link adds one entry to the list of each of its endpoints |
| RingUtils.NeighborsTotal | src/phystem/systems/ring/utils.py:743-756 | the neighbour list lengths add up to twice the number of links |
| RingUtils.NeighborsList | src/phystem/systems/ring/utils.py:773-788 | for each pid, in order, the second endpoints of the links starting at pid followed by the first endpoints of the links ending at pid |
| RingUtils.NeighborsListAgrees | src/phystem/systems/ring/utils.py:743-788 | for node ids, `neighbors_list` finds the same neighbours of a node as `neighbors_all`, as a multiset |
| RingsQuantities.Mean | src/phystem/systems/ring/rings_quantities.py:28 | the ring's mean point times its particle count is the sum of its positions |
| RingsQuantities.GetCm | src/phystem/systems/ring/rings_quantities.py:5-28 | one centre of mass per ring, whose particle count times it is the sum of that ring's positions |
| RingsQuantities.GetVelCm | src/phystem/systems/ring/rings_quantities.py:30-42 | one mean velocity per ring, whose particle count times it is the sum of that ring's velocities |
| RingsQuantities.CmTranslate | src/phystem/systems/ring/rings_quantities.py:28 | moving every particle of a ring by t moves its centre of mass by t |
| RingsQuantities.CmOfCoincident | src/phystem/systems/ring/rings_quantities.py:28 | a ring whose particles all sit at p has its centre of mass at p |
| RingsQuantities.Inter | src/phystem/systems/ring/utils.py:194 | the ids kept are exactly those in both lists, none more often than in the first |
| RingsQuantities.CommonIdsSpec | src/phystem/systems/ring/utils.py:188-194 | the common ids of lists with unique ids are strictly increasing and are exactly the ids found in both lists |
| RingsQuantities.SameRings | src/phystem/systems/ring/utils.py:173-201 | the two aligned frames and the common ids have one entry per common id, the ids increasing and exactly those in both frames, and the k-th entry of each frame is the element carrying the k-th common id |
| RingsQuantities.ScaledDiff | src/phystem/systems/ring/rings_quantities.py:58 | each particle's velocity is its displacement between the frames over dt |
| RingsQuantities.SumScaledDiff | src/phystem/systems/ring/rings_quantities.py:58-59 | the sum of the per-particle velocities is the difference of the position sums over dt |
| RingsQuantities.MeanScaledDiff | src/phystem/systems/ring/rings_quantities.py:58-59 | the mean of the per-particle velocities is the displacement of the centre of mass over dt |
| RingsQuantities.GetVelCmFromPos | src/phystem/systems/ring/rings_quantities.py:44-60 | the frames are the ones `same_rings` aligns, and each common ring's returned velocity is the displacement of its centre of mass over dt |
| RingsQuantities.GetDistPb | src/phystem/systems/ring/rings_quantities.py:72-84 | one periodic difference per point pair |
| RingsQuantities.GetDistPbSpec | src/phystem/systems/ring/rings_quantities.py:77-84 | a component more than half its period away is moved by one period towards zero and other components are kept; for positive periods the result differs from the raw difference by whole periods and lies within half a period when the raw one is within one and a half |
| RingsQuantities.GetDistPbSwap | src/phystem/systems/ring/rings_quantities.py:72-84 | swapping the two frames negates the periodic difference |
| RingsQuantities.GetArea | build/lib/phystem/systems/ring/rings_quantities.py:94-110 | `get_area` raises IndexError exactly when some ring has no particles and otherwise gives every ring its shoelace area |
| RingsQuantities.Centres | src/phystem/systems/ring/utils.py:273-279 | the cell centres along an axis are the midpoints of consecutive edges |
| RingsQuantities.InObstacleMask | build/lib/phystem/systems/ring/rings_quantities.py:112-115 | one mask entry per cell, [row][col] |
| RingsQuantities.SqLess | build/lib/phystem/systems/ring/rings_quantities.py:115 | for nonnegative values, comparing squares is comparing the values |
| RingsQuantities.InObstacleMaskSpec | build/lib/phystem/systems/ring/rings_quantities.py:112-115 | a cell is marked exactly when its centre is strictly closer to the obstacle centre than the absolute radius |
| RingsQuantities.EdgesStep | src/phystem/systems/ring/utils.py:587-597 | consecutive edges of a regular grid are one cell size apart |
| RingsQuantities.InsideCircleMaskInObstacle | build/lib/phystem/systems/ring/rings_quantities.py:119-124 | every cell the commented-out inside `circle_mask` would mark is in the obstacle mask |
| RingsQuantities.AxisUnique | src/phystem/systems/ring/utils.py:646-647 | two cells of one axis that both hold an offset are the same cell |
| RingsQuantities.LocatesUnique | src/phystem/systems/ring/utils.py:610-663 | a point is located by exactly one coordinate |
| RingsQuantities.CoordsCountLocated | src/phystem/systems/ring/utils.py:610-663 | the floored coordinates name each cell as often as that cell locates a point |
| RingsQuantities.DensityFromCm | src/phystem/systems/ring/rings_quantities.py:94-105 | the unfiltered `get_from_cm` holds in every widened cell, the out-of-grid markers included, the number of ring centres that cell locates |
| RingsQuantities.CellArea | src/phystem/systems/ring/utils.py:282-284 | every cell of a regular grid has the same positive area |
| RingsQuantities.KeptCounts | build/lib/phystem/systems/ring/rings_quantities.py:216-217 | after removing the out-of-grid cells, the count is a num_rows x num_cols table holding each cell's number of ring centres |
| RingsQuantities.DensityFromCmPerArea | build/lib/phystem/systems/ring/rings_quantities.py:207-218 | each cell's density is its number of ring centres over the cell area |
| RingsQuantities.DivideBy | build/lib/phystem/systems/ring/rings_quantities.py:218 | each entry divided by the area, the shape kept |
| RingsQuantities.DensityFromPos | src/phystem/systems/ring/rings_quantities.py:107-115 | `get_from_pos` drops the density it computes and yields None |
| DataUtils.FullConvZero | build/lib/phystem/data_utils/utils.py:13 | an entry of the full convolution whose kernel misses every element is zero |
| DataUtils.FullConvWindow | build/lib/phystem/data_utils/utils.py:13 | an entry of the full convolution with k ones is the sum of the elements under the kernel |
| DataUtils.ConvArr | build/lib/phystem/data_utils/utils.py:3-13 | `conv_arr` fails with ValueError exactly for an empty series or a non-positive kernel; for k up to the length it returns n-k+1 entries, entry i the sum of the k elements from i, and for a longer kernel k-n+1 copies of the total |
| DataUtils.SlidingStep | build/lib/phystem/data_utils/utils.py:3-13 | consecutive sliding sums differ by the element leaving and the element entering the window |
| DataUtils.EveryKth | build/lib/phystem/data_utils/utils.py:29 | the mask `arange(n) % k == 0` keeps ceil(n/k) entries, entry j being element j*k |
| DataUtils.BlockMeans | build/lib/phystem/data_utils/utils.py:27-30 | `mean_arr` with r = 1 fails as `conv_arr` does; otherwise it returns the means of the n/k consecutive non-overlapping blocks of k elements, or the total over k for a kernel longer than the series |
| DataUtils.ConvSelfTest | build/lib/phystem/data_utils/utils.py:46-51 | the file's self-test: `conv_arr([1..5], 3)` is [6, 9, 12] |
| DataUtils.MeanSelfTest | build/lib/phystem/data_utils/utils.py:53-55 | the file's self-test: `mean_arr([1..5], 2)` is [1.5, 3.5] |
| DataUtils.GrowRound | build/lib/phystem/data_utils/utils.py:39-40 | a window size of at least one grown by r >= 1 rounds to at least one element |
| DataUtils.GrowingMeansBound | build/lib/phystem/data_utils/utils.py:31-43 | the growing-window walk yields at most one mean per remaining element, so every window lies inside the series |
| DataUtils.GrowingAtOneStep | build/lib/phystem/data_utils/utils.py:36-41 | with r = 1 each step of the walk takes the next k elements and stops once they would pass the end |
| DataUtils.GrowingAtOneLength | build/lib/phystem/data_utils/utils.py:36-41 | with r = 1 the walk yields (n - start)/k means |
| DataUtils.GrowingAtOneAt | build/lib/phystem/data_utils/utils.py:36-41 | with r = 1 mean j of the walk is the mean of block j |
| DataUtils.BlocksAgree | build/lib/phystem/data_utils/utils.py:16-43 | the two branches of `mean_arr` agree: the walk with r = 1 gives exactly the block means of the r = 1 branch |
| DataUtils.MeanArr | build/lib/phystem/data_utils/utils.py:16-43 | `mean_arr`: the block means for r = 1, and for r > 1 the windows growing by the factor r, each sum over the rounded window size, laid end to end until one would pass the end |
| Timer.RotateWrite | src/phystem/utils/timer.py:16-20 | after a write at the cursor, the buffer read from the next cursor position is the previous reading with its oldest sample dropped and the new one appended |
| Timer.SumZeros | src/phystem/utils/timer.py:7 | the zero-initialised slots sum to zero |
| Timer.FuncTimes.constructor | src/phystem/utils/timer.py:5-9 | a timer with n zeroed slots, the cursor at 0 and not yet full |
| Timer.FuncTimes.Record | src/phystem/utils/timer.py:11-20 | `decorator` stores the duration in milliseconds at the cursor and advances it modulo the number of slots, turning full at the first wrap; with no slots it raises IndexError; the buffer keeps holding the most recent samples |
| Timer.FuncTimes.MeanTime | src/phystem/utils/timer.py:22-29 | `mean_time` is the mean of the most recent samples (all slots once full, the filled ones before), and 0 before any sample |
| Timer.RecentBounded | src/phystem/utils/timer.py:22-29 | the mean runs over every slot once full, else over the filled ones |
| Timer.TimeIt.constructor | src/phystem/utils/timer.py:32-37 | the registry starts empty |
| Timer.TimeIt.AddTimer | src/phystem/utils/timer.py:41-44 | `add_timer` raises for a name already present (and numpy for a negative size); otherwise it adds a fresh timer under the name and keeps every other timer |
| Timer.TimeIt.Register | src/phystem/utils/timer.py:38-39 | the constructor's loop succeeds exactly when the names are distinct, new and (when any) the size is nonnegative, and then registers them all |
| Timer.TimeIt.Record | src/phystem/utils/timer.py:46-47 | `decorator(name)` raises KeyError for an unknown name, raises IndexError exactly when the named timer has no slots (its history then unchanged), and otherwise appends the duration to that timer alone |
| Timer.TimeIt.MeanTime | src/phystem/utils/timer.py:49-50 | `mean_time(name)` raises KeyError exactly for an unknown name and otherwise is that timer's mean |
| Delta.InStrip | src/phystem/systems/ring/collectors/delta.py:138-151 | the strip mask keeps a subsequence of the listed rings, all of them ring slots |
| Delta.InStripMembers | src/phystem/systems/ring/collectors/delta.py:138-151 | the mask keeps exactly the listed rings whose centre lies strictly inside the strip |
| Delta.Xs | src/phystem/systems/ring/collectors/delta.py:165 | the x coordinates of the listed rings' centres, one per ring |
| Delta.Untracked | src/phystem/systems/ring/collectors/delta.py:154-158 | the untracked candidates are a subsequence of the candidates |
| Delta.UntrackedMembers | src/phystem/systems/ring/collectors/delta.py:154-158 | a candidate survives exactly when no tracked group holds it |
| Delta.UntrackedInRange | src/phystem/systems/ring/collectors/delta.py:154-158 | the untracked candidates are still ring slots |
| Delta.FinishedIdx | src/phystem/systems/ring/collectors/delta.py:192-199 | the indices `check` collects are strictly ascending and in range |
| Delta.FinishedIdxMembers | src/phystem/systems/ring/collectors/delta.py:192-199 | an index is collected exactly when its group's mean x has reached its `end_x` |
| Delta.Repeat | src/phystem/systems/ring/collectors/delta.py:224 | n copies of the time |
| Delta.KeepUnfinished | src/phystem/systems/ring/collectors/delta.py:192-226 | after the finished groups are removed from a prefix, none of the groups left is finished |
| Delta.KeepUnfinishedAll | src/phystem/systems/ring/collectors/delta.py:188-226 | after `check` removes the finished groups, none of the remaining groups is finished |
| Delta.TrackingList.constructor | src/phystem/systems/ring/collectors/delta.py:13-18 | the five lists start empty |
| Delta.TrackingList.Size | src/phystem/systems/ring/collectors/delta.py:44-46 | `size` is the common length of the five parallel lists |
| Delta.TrackingList.IdExists | src/phystem/systems/ring/collectors/delta.py:20-24 | `id_exists` holds exactly when some tracked group contains the id |
| Delta.TrackingList.Add | src/phystem/systems/ring/collectors/delta.py:26-31 | `add` appends one element to each of the five lists, which stay of equal length |
| Delta.TrackingList.Remove | src/phystem/systems/ring/collectors/delta.py:33-39 | `remove` deletes the listed positions from every list, so each list keeps exactly its other elements in their relative order |
| Delta.TrackingList.UntrackedOf | src/phystem/systems/ring/collectors/delta.py:154-158 | the loop of `start` keeps, in order, the candidates `id_exists` rejects |
| Delta.SortedIndexes | src/phystem/systems/ring/collectors/delta.py:34 | sorting distinct in-range indices gives a strictly ascending list of the same indices |
| Delta.ErasedKeeps | src/phystem/systems/ring/collectors/delta.py:34-39 | erasing the sorted positions largest first from all five lists keeps exactly the other elements of each |
| Delta.KeepsAll | src/phystem/systems/ring/collectors/delta.py:34-35 | erasing sorted distinct positions from the largest down keeps exactly the elements at the other positions, in order |
| Delta.DeltaCol.constructor | src/phystem/systems/ring/collectors/delta.py:49-99 | the strip is `xlims` widened by `xtol` ring diameters on each side; both clocks start at the solver time, in the starting state, with nothing tracked |
| Delta.DeltaCol.NewIdsMembers | src/phystem/systems/ring/collectors/delta.py:133-162 | a ring is selected exactly when it is active, inside both strips and not yet tracked |
| Delta.DeltaCol.Start | src/phystem/systems/ring/collectors/delta.py:133-186 | `start` returns false with nothing changed when no active ring is in both strips untracked; otherwise it appends exactly one group, with `end_x` its mean x plus `wait_dist`, logs the time and advances `data_point_id` |
| Delta.DeltaCol.Select | src/phystem/systems/ring/collectors/delta.py:134-158 | the selection half of `start` returns the untracked centre rings and the rings of the extended strip |
| Delta.DeltaCol.Begin | src/phystem/systems/ring/collectors/delta.py:160-181 | the recording half of `start` appends the selected group with its `end_x`, logs the time and advances `data_point_id` |
| Delta.DeltaCol.Check | src/phystem/systems/ring/collectors/delta.py:188-226 | `check` removes exactly the groups whose mean x has reached `end_x`, keeping the others in order, logs the time once per removed group, and leaves no finished group |
| Delta.DeltaCol.Scan | src/phystem/systems/ring/collectors/delta.py:192-224 | the loop of `check` collects the finished groups' indices in ascending order and appends the time once for each |
| Delta.DeltaCol.Collect | src/phystem/systems/ring/collectors/delta.py:116-128 | in waiting, a due start (nothing tracked, or `start_dt` passed) switches to starting, and otherwise `check` runs once `check_dt` has passed and leaves the old groups minus the finished ones (`CheckedFrom`); in starting, a successful `start` appends the new group to the old lists (`StartedFrom`), records the time and switches to waiting; a skipped or failed `start` leaves the tracking lists unchanged |
| NeighborTable.Neighbors.RingsNeighs | examples/ring/input_pars/delta_col.py:25-26 | `rings_neighs(i)` is the first `neigh_count[i]` entries of row i |
| NeighborTable.Neighbors.Dists | examples/ring/input_pars/delta_col.py:28-29 | `dists(i)` is the first `neigh_count[i]` distances of row i |
| NeighborTable.Neighbors.constructor | examples/ring/input_pars/delta_col.py:17-23 | a zeroed table of the given shape with no row in use |
| NeighborTable.Neighbors.Update | examples/ring/input_pars/delta_col.py:31-38 | `update(i)` writes the neighbours and distances at the head of row i and nothing else, records their number, marks the row and counts it; afterwards `rings_neighs(i)` and `dists(i)` return exactly them and every other row reads as before; a row past the table raises IndexError and a list longer than a row ValueError, with nothing written |
| NeighborTable.Neighbors.Reset | examples/ring/input_pars/delta_col.py:40-42 | `reset` clears the row mask and the row counter and keeps the stored rows and counts |
| NeighborTable.Ratios | examples/ring/input_pars/delta_col.py:448-451 | one term d0^2/d^2 per neighbour |
| NeighborTable.RingDelta | examples/ring/input_pars/delta_col.py:447-453 | delta is finite exactly when the ring has neighbours and none sits on its centre |
| NeighborTable.RingDeltaUndisturbed | examples/ring/input_pars/delta_col.py:447-453 | a ring whose neighbours are all at their recorded distance has delta exactly zero |
| NeighborTable.RingDeltaAtMostOne | examples/ring/input_pars/delta_col.py:447-453 | delta never exceeds one |
| NeighborTable.RingDeltaNonNeg | examples/ring/input_pars/delta_col.py:447-453 | delta is not negative when no neighbour came closer than its recorded distance |
| DeltaInput.PopIndex | examples/ring/input_pars/delta_col.py:57-61 | `list.pop(idx)` reaches a position exactly for -n <= idx < n, counting negative indices from the end |
| DeltaInput.TrackingInfo.constructor | examples/ring/input_pars/delta_col.py:45-49 | the four lists start empty |
| DeltaInput.TrackingInfo.Size | examples/ring/input_pars/delta_col.py:66-68 | `size` is the common length of the four parallel lists |
| DeltaInput.TrackingInfo.Add | examples/ring/input_pars/delta_col.py:51-55 | `add` appends one element to each of the four lists, which stay of equal length |
| DeltaInput.TrackingInfo.Remove | examples/ring/input_pars/delta_col.py:57-61 | `remove(idx)` pops the same position from every list; a position outside the lists raises IndexError with nothing changed |
| DeltaInput.Fresh | examples/ring/input_pars/delta_col.py:160-171 | the rings the loop adds are a subsequence of the candidates |
| DeltaInput.FreshMembers | examples/ring/input_pars/delta_col.py:161-162 | a candidate is added exactly when it was not already tracked |
| DeltaInput.FreshKeepsDistinct | examples/ring/input_pars/delta_col.py:161-170 | the additions keep the tracked ids distinct: each ring is tracked at most once |
| DeltaInput.Candidates | examples/ring/input_pars/delta_col.py:149-158 | the centre candidates are ring slots |
| DeltaInput.Ends | examples/ring/input_pars/delta_col.py:168 | the `end_x` of each added ring is its x plus `wait_dist` |
| DeltaInput.FreshStep | examples/ring/input_pars/delta_col.py:161-162 | one more candidate is appended exactly when neither the tracked ids nor the earlier additions hold it |
| DeltaInput.DeltaCol.constructor | examples/ring/input_pars/delta_col.py:100-113 | the strip is `xlims` widened by one ring diameter on each side, with nothing tracked |
| DeltaInput.DeltaCol.Start | examples/ring/input_pars/delta_col.py:146-180 | `start` adds every untracked centre candidate with its unique id, its x plus `wait_dist` and the data point id; it returns false with nothing added when there is none, and otherwise advances the data point id |
| DeltaInput.DeltaCol.Track | examples/ring/input_pars/delta_col.py:160-171 | the loop of `start` appends to the four lists exactly the fresh candidates and their data |
| DeltaInput.CalcDelta | examples/ring/input_pars/delta_col.py:447-453 | `calc_delta` is finite exactly when row i has neighbours and none sits on the ring's centre, and then is one minus the sum of d0^2/d^2 over the neighbour count |
| SolidLiquid.RegionMask | examples/ring/solid_liquid/pipeline.py:103-108 | a slot is in the mask exactly when it is active and its centre lies strictly inside the extended strip |
| SolidLiquid.Masked | examples/ring/solid_liquid/pipeline.py:110 | the mask selects as many centres as it has true entries |
| SolidLiquid.InCenter | examples/ring/solid_liquid/pipeline.py:111 | a selected centre is marked exactly when it lies strictly inside the centre strip |
| SolidLiquid.CenterDeltas | examples/ring/solid_liquid/pipeline.py:138-150 | one delta per centre ring among the selected ones |
| SolidLiquid.AnyCount | examples/ring/solid_liquid/pipeline.py:113-114 | when some selected ring is in the centre the count `finish` divides by is positive |
| SolidLiquid.SumOpt | examples/ring/solid_liquid/pipeline.py:148 | the running total is finite exactly when every term is |
| SolidLiquid.SumOptValue | examples/ring/solid_liquid/pipeline.py:133-148 | finite terms add up as reals |
| SolidLiquid.MeanDelta | examples/ring/solid_liquid/pipeline.py:152 | the appended mean is finite exactly when every centre delta is |
| SolidLiquid.CenterDeltasAtMostOne | examples/ring/solid_liquid/pipeline.py:142-147 | every centre delta is at most one |
| SolidLiquid.CenterDeltasZero | examples/ring/solid_liquid/pipeline.py:142-147 | centre rings whose neighbours all kept their recorded distance have delta zero |
| SolidLiquid.MeanDeltaAtMostOne | examples/ring/solid_liquid/pipeline.py:131-152 | a finite mean delta of a measurement is at most one |
| SolidLiquid.MeanDeltaUndisturbed | examples/ring/solid_liquid/pipeline.py:131-152 | a measurement over which no centre ring moved relative to its neighbours gives mean delta zero |
| SolidLiquid.Collector.constructor | examples/ring/solid_liquid/pipeline.py:46-85 | the strip is `xlims` widened by two ring diameters on each side; the table has 10 neighbours per row; the collector starts in the starting state with init time -1, no active slot marked and no delta |
| SolidLiquid.Collector.Start | examples/ring/solid_liquid/pipeline.py:100-129 | `start` marks exactly the active slots, selects the active rings of the extended strip and the centre ones among them, returns false when no selected ring is in the centre, and otherwise stores row i of the neighbour search in table row i (raising when a row is refused) |
| SolidLiquid.Collector.Fill | examples/ring/solid_liquid/pipeline.py:120-124 | the `update` loop stores every neighbour row and its distances, and fails exactly when some row overflows the table |
| SolidLiquid.Collector.Total | examples/ring/solid_liquid/pipeline.py:133-150 | the loop of `finish` computes the sum of the centre deltas, not finite once one of them is not |
| SolidLiquid.Collector.Measure | examples/ring/solid_liquid/pipeline.py:131-152 | the value `finish` appends: the mean of the centre deltas on the current centres of the stored selection |
| SolidLiquid.Collector.Finish | examples/ring/solid_liquid/pipeline.py:131-153 | `finish` appends the mean delta of the centre rings and resets the neighbour table |
| SolidLiquid.Collector.Collect | examples/ring/solid_liquid/pipeline.py:87-98 | while waiting, once more than `wait_time` has passed, it appends one delta and returns to starting, and never starts; while starting, a successful `start` records the init time, appends it to `times` and begins waiting |
| InvasionCollector.Pair | build/lib/phystem/systems/ring/collectors/invasion.py:64 | the sorted tuple of a collision is ordered and holds exactly its two ring ids |
| InvasionCollector.SamePair | build/lib/phystem/systems/ring/collectors/invasion.py:64-65 | two collisions give the same tuple exactly when they involve the same two rings |
| InvasionCollector.PairsOfSnoc | build/lib/phystem/systems/ring/collectors/invasion.py:63-65 | each collision adds its own pair to the set |
| InvasionCollector.PairsAtMostCollisions | build/lib/phystem/systems/ring/collectors/invasion.py:61-66 | there are never more distinct pairs than collisions |
| InvasionCollector.SwapInvariant | build/lib/phystem/systems/ring/collectors/invasion.py:63-66 | exchanging the two rings of any of the collisions changes no pair, so the count is unchanged |
| InvasionCollector.CountUniqueInvasions | build/lib/phystem/systems/ring/collectors/invasion.py:61-66 | `count_unique_invasions` is the number of distinct unordered ring pairs among the collisions, at most the number of collisions |
| InvasionCollector.UnresolvedAreas | build/lib/phystem/systems/ring/collectors/invasion.py:51-55 | at most one area per slot of `is_col_resolved` |
| InvasionCollector.UnresolvedAreasCount | build/lib/phystem/systems/ring/collectors/invasion.py:51-56 | one area is recorded for each unresolved slot, so their number is the buffer size minus the resolved count |
| InvasionCollector.InvasionCol.constructor | build/lib/phystem/systems/ring/collectors/invasion.py:18-25 | `setup` leaves the five histories empty and counts from the solver's current step |
| InvasionCollector.InvasionCol.Unresolved | build/lib/phystem/systems/ring/collectors/invasion.py:51-55 | the loop over `is_col_resolved` records, in order, the area of the ring of each unresolved collision |
| InvasionCollector.InvasionCol.Collect | build/lib/phystem/systems/ring/collectors/invasion.py:34-57 | `collect` does nothing until `freq_dt` steps have passed since the last collection; then it records the step and appends exactly one entry to each of the five histories: the live count, the live points, the distinct pairs among the live collisions, the time and the unresolved areas |
| CreationRate.NumPoints | src/phystem/systems/ring/collectors/creation_rate.py:25-26 | the number of buckets is the truncated quotient; a zero step raises ZeroDivisionError and a negative count ValueError |
| CreationRate.NumPointsSteps | src/phystem/systems/ring/collectors/creation_rate.py:25 | with positive durations the count is the number of whole steps that fit in `collect_time` |
| CreationRate.CopyPrefix | src/phystem/systems/ring/collectors/creation_rate.py:81-83 | `a[:len(src)] = src` replaces the prefix and keeps the rest; a longer source raises ValueError with nothing written, except a one-element source, which numpy broadcasts onto the empty slice of an empty array |
| CreationRate.Loaded | src/phystem/systems/ring/collectors/creation_rate.py:78-83 | the reloaded array has `num_points` entries: the saved values then zeros when they fit, all zeros otherwise |
| CreationRate.Zeros | src/phystem/systems/ring/collectors/creation_rate.py:32-34 | n zeros |
| CreationRate.CreationRateCol.constructor | src/phystem/systems/ring/collectors/creation_rate.py:10-34 | the configuration is stored, the wait is not done, `last_time` is the solver time, `point_id` is 0, and the three arrays hold `num_points` zeros |
| CreationRate.CreationRateCol.Collect | src/phystem/systems/ring/collectors/creation_rate.py:37-57 | calls before `wait_time` are ignored, later ones mark the wait done; inside the collection window and while a bucket is left the created rings are added to the current bucket, which is closed (time and active count stored, `point_id` advanced) once `collect_dt` has passed; the total created count grows by exactly what was added |
| CreationRate.CreationRateCol.LoadAutosave | src/phystem/systems/ring/collectors/creation_rate.py:73-83 | the saved fields are restored and each saved array is copied into the prefix of a fresh array of `num_points` zeros; it raises exactly when a saved array is longer than that and not a single broadcast element |
| DensityVel.CheckPeriods | src/phystem/systems/ring/collectors/density_vel.py:81-82 | the only check: it raises ValueError exactly when a velocity period is given without a frame period |
| DensityVel.StrictlyDue | src/phystem/systems/ring/collectors/density_vel.py:232-242 | with no period the quantity is never due |
| DensityVel.Due | src/phystem/systems/ring/collectors/density_vel.py:223-230 | with no period the velocity is never due |
| DensityVel.InclusiveVersusStrict | src/phystem/systems/ring/collectors/density_vel.py:228-242 | at exactly one period after the last sample the velocity (`>=`) is due while density and polarity (`>`) are not |
| DensityVel.InitialLastTimeAsWrittenFiresEarly | src/phystem/systems/ring/collectors/density_vel.py:102-104 | counterexample: with the clocks started at `solver.time` (50) while periods are compared in steps (5000 already taken), a density sample with a period of 100 steps is due one step later |
| DensityVel.InitialLastTimeWaits | build/lib/phystem/systems/ring/collectors/density_vel.py:110-112 | with the clocks started at `num_time_steps`, as `setup` does, no sample is due before its full period has elapsed since construction |
| DensityVel.Pair | src/phystem/systems/ring/collectors/density_vel.py:251-257 | one velocity data point pairs each ring's first centroid with its second |
| DensityVel.DenVelCol.constructor | build/lib/phystem/systems/ring/collectors/density_vel.py:91-118 | the configuration is stored, the three clocks start at the step count, frame 0, and no data point or time yet |
| DensityVel.DenVelCol.ToCollectVel | build/lib/phystem/systems/ring/collectors/density_vel.py:228-235 | with no velocity period the velocity is never due |
| DensityVel.DenVelCol.Collect | build/lib/phystem/systems/ring/collectors/density_vel.py:160-222 | `collect` changes nothing before the transient, with nothing due, or when a needed region holds no active ring; otherwise each due quantity restarts its clock and appends its time and data point (density: the region's centroids; polarity: its rings' angles; velocity: a first snapshot of the region in frame 0, or the same rings' second snapshot completing a data point in frame 1), and the frame toggles |
| DensityVel.DenVelCol.RecordDen | src/phystem/systems/ring/collectors/density_vel.py:186-188 | `col_density` restarts the density clock and appends the time and the centroids, leaving the other quantities alone |
| DensityVel.DenVelCol.RecordPol | src/phystem/systems/ring/collectors/density_vel.py:195-197 | `col_polarity` restarts the polarity clock and appends the time and the angles, leaving the other quantities alone |
| DensityVel.DenVelCol.RecordVel | src/phystem/systems/ring/collectors/density_vel.py:204-213 | `col_vel` in frame 0 stores the region's rings and centroids and restarts the clock; in frame 1 it pairs them with the same rings' current centroids as one data point; the frame toggles |
| DensityVel.DenVelCol.TrimVelTimes | src/phystem/systems/ring/collectors/density_vel.py:275-277 | `save`'s loop drops exactly the first-sample time of an unfinished velocity point, leaving one first-sample time per completed point |
| QuantityPos.ColFor | src/phystem/systems/ring/collectors/quantity_pos/collectors.py:104-109 | each configuration type is mapped to its own collector class, and to no other |
| QuantityPos.ColForNames | src/phystem/systems/ring/collectors/quantity_pos/collectors.py:6-109 | two configurations share a collector class exactly when they share a data-file name |
| QuantityPos.CountCmsPositive | src/phystem/systems/ring/collectors/quantity_pos/root_collector.py:23-27 | the search for a `CmsCfg` finds one exactly when the list holds at least one |
| QuantityPos.WithCmsSpec | src/phystem/systems/ring/collectors/quantity_pos/root_collector.py:23-30 | the completed list extends the given one by at most one entry, always holds a `CmsCfg`, adds one only when none was there, and completing twice is completing once |
| QuantityPos.AddCmsIfMissing | src/phystem/systems/ring/collectors/quantity_pos/root_collector.py:23-30 | the constructor's search loop and append produce the completed configuration list |
| QuantityPos.Extent | src/phystem/systems/ring/collectors/quantity_pos/root_collector.py:37-44 | a region extent never exceeds the space's; "all" gives the space's extent and a smaller finite range keeps its own |
| QuantityPos.NumMaxRings | src/phystem/systems/ring/collectors/quantity_pos/root_collector.py:35-46 | the capacity per point raises ZeroDivisionError exactly when the equilibrium area is zero and is otherwise 1.2 times the clipped region area over the equilibrium area, truncated |
| QuantityPos.GetCheckType | src/phystem/systems/ring/collectors/quantity_pos/base.py:108-119 | the check type is "both", "only_x", "only_y" or "none" exactly according to the two flags |
| QuantityPos.Masked | src/phystem/systems/ring/collectors/quantity_pos/root_collector.py:91-100 | masking keeps at most the given ids, all of them valid ring slots |
| QuantityPos.Centres | src/phystem/systems/ring/collectors/quantity_pos/root_collector.py:89 | `cms[ids]` has one centre per id, the centre of that ring |
| QuantityPos.MaskedMembers | src/phystem/systems/ring/collectors/quantity_pos/root_collector.py:91-111 | a ring is kept by the mask exactly when it is one of the given ids and its centre lies strictly inside the limits the check type names |
| QuantityPos.MaskedAll | src/phystem/systems/ring/collectors/quantity_pos/root_collector.py:91-100 | when every centre passes, the mask keeps all the ids in their order |
| QuantityPos.RegionIdsSpec | src/phystem/systems/ring/collectors/quantity_pos/root_collector.py:80-111 | the ids in the region are exactly the active rings whose centre passes the check; with "all" limits on both axes they are all the active ids, in order |
| QuantityPos.NewPoint | src/phystem/systems/ring/collectors/quantity_pos/collectors.py:12-101 | every element of the point a collector adds has the configuration's number of dimensions |
| QuantityPos.StepQSpec | src/phystem/systems/ring/collectors/quantity_pos/root_collector.py:121-128 | a collector's turn keeps its state well formed, raises exactly when a point is added to a zero-capacity buffer (IndexError) or has more elements than a slot (ValueError), and otherwise extends the recorded points by exactly the point added, whether or not the buffer was saved |
| QuantityPos.CollectQSpec | src/phystem/systems/ring/collectors/quantity_pos/collectors.py:12-101 | `collect` raises exactly as the buffer's `add` does, and otherwise appends the new point to the buffer (none on the velocity collector's first frame) and leaves the file count alone |
| QuantityPos.FullBufferFlushed | src/phystem/systems/ring/collectors/quantity_pos/root_collector.py:125-128 | a turn that fills the buffer saves it as the next file, advances `file_id` and empties the buffer |
| QuantityPos.VelocityFrames | src/phystem/systems/ring/collectors/quantity_pos/collectors.py:54-75 | `last_point_completed` flips on exactly the velocity collector's collecting turns; a first frame stores the selected ids and centres and adds no point; a second frame adds, for each stored ring, its first centre next to its current centre |
| QuantityPos.Turns | src/phystem/systems/ring/collectors/quantity_pos/root_collector.py:121-128 | one turn result per managed collector |
| QuantityPos.TurnsAt | src/phystem/systems/ring/collectors/quantity_pos/root_collector.py:121-128 | the i-th turn is the i-th collector's own step |
| QuantityPos.Thread | src/phystem/systems/ring/collectors/quantity_pos/root_collector.py:121-128 | running the turns in order leaves one state per collector |
| QuantityPos.ThreadDone | src/phystem/systems/ring/collectors/quantity_pos/root_collector.py:121-128 | the loop ends normally exactly when no turn raises, and then every collector holds its new state |
| QuantityPos.FirstErr | src/phystem/systems/ring/collectors/quantity_pos/root_collector.py:121-128 | the first raising turn is one that raises and every turn before it succeeded |
| QuantityPos.ThreadRaised | src/phystem/systems/ring/collectors/quantity_pos/root_collector.py:121-128 | when a turn raises, the collectors before it hold their new states, it and the ones after are unchanged, and its exception is the call's |
| QuantityPos.Values | src/phystem/systems/ring/collectors/quantity_pos/root_collector.py:121-128 | the results of turns that all succeeded, one per turn in order |
| QuantityPos.TakenIsThread | src/phystem/systems/ring/collectors/quantity_pos/root_collector.py:121-128 | the description of the loop's outcome determines it: it is exactly the in-order threading of the turns |
| QuantityPos.StepAllOk | src/phystem/systems/ring/collectors/quantity_pos/root_collector.py:121-128 | the root's loop leaves every collector well formed |
| QuantityPos.ThreadTaken | src/phystem/systems/ring/collectors/quantity_pos/root_collector.py:121-128 | the in-order threading of the turns satisfies the description of the loop |
| QuantityPos.StepAllSpec | src/phystem/systems/ring/collectors/quantity_pos/root_collector.py:113-128 | a pair of collector states and outcome satisfies the description of the loop exactly when it is the root's loop's result |
| QuantityPos.QuantityCol.constructor | src/phystem/systems/ring/collectors/quantity_pos/base.py:153-168 | a managed collector starts with an empty buffer of the given capacity and point size, file 0 and velocity frame 0 |
| QuantityPos.QuantityCol.Add | src/phystem/data_utils/data_types.py:24-35 | `data.add` succeeds exactly as the buffer model says and then stores its new state; on failure the state is unchanged |
| QuantityPos.QuantityCol.Step | src/phystem/systems/ring/collectors/quantity_pos/root_collector.py:121-128 | a collector's turn changes its state exactly as the turn function says, stays well formed, and leaves the state unchanged when it raises |
| QuantityPos.QuantityPosCol.constructor | src/phystem/systems/ring/collectors/quantity_pos/root_collector.py:14-55 | the root collector completes its configuration list with a `CmsCfg`, checks both axes, starts counting at the solver's current step and creates one fresh collector per configuration |
| QuantityPos.QuantityPosCol.TakeTurn | src/phystem/systems/ring/collectors/quantity_pos/root_collector.py:121-128 | one collector's turn changes that collector's state alone, to the turn's result, or nothing when it raises |
| QuantityPos.QuantityPosCol.TakeTurns | src/phystem/systems/ring/collectors/quantity_pos/root_collector.py:121-128 | the loop over the collectors leaves the states and outcome the root's loop function gives |
| QuantityPos.QuantityPosCol.Environment | src/phystem/systems/ring/collectors/quantity_pos/root_collector.py:113-119 | what every collector is handed: the selection is computed only when it is time |
| QuantityPos.QuantityPosCol.Collect | src/phystem/systems/ring/collectors/quantity_pos/root_collector.py:113-132 | the collectors take their turns as the loop function says; if none raised and it is time, the time is appended and `col_last_time` becomes the current step, and otherwise both are unchanged |
| QuantityPos.QuantityPosCol.Record | src/phystem/systems/ring/collectors/quantity_pos/root_collector.py:130-132 | the bookkeeping appends the time and stores the current step as the last collection |
| RingConfigs.ParsePotential | src/phystem/systems/ring/configs.py:17-19 | a name is accepted exactly when it is one of the four potentials' names, and any other name raises ValueError |
| RingConfigs.PotentialRoundTrip | src/phystem/systems/ring/configs.py:17-19 | every potential's name is accepted as that potential, so the four names are distinct |
| RingConfigs.CheckArea | src/phystem/systems/ring/configs.py:17-42 | validation raises ValueError for an unknown potential, Exception when both `p0` and `area0` are missing, ValueError for a missing constant, succeeds in every other case, and replaces the unused parameters by -1 |
| RingConfigs.CheckAreaComplete | src/phystem/systems/ring/configs.py:17-42 | a known potential with `p0` or `area0` and the constants it needs always validates, to that potential |
| RingConfigs.AreaFromP0 | src/phystem/systems/ring/configs.py:71-73 | `(perimeter / p0)**2` raises ZeroDivisionError exactly when `p0` is zero and is otherwise non-negative |
| RingConfigs.P0FromArea | src/phystem/systems/ring/configs.py:71-75 | `perimeter / area0**.5` raises ZeroDivisionError exactly when the square root is zero |
| RingConfigs.P0FromAreaDefined | src/phystem/systems/ring/configs.py:71-75 | for a non-negative `area0`, only `area0 == 0` raises |
| RingConfigs.AreaFromP0Consistent | src/phystem/systems/ring/configs.py:71-73 | the `area0` derived from `p0` satisfies `p0**2 * area0 == perimeter**2` |
| RingConfigs.P0FromAreaConsistent | src/phystem/systems/ring/configs.py:71-75 | the `p0` derived from a positive `area0` exists and satisfies `p0**2 * area0 == perimeter**2` |
| RingConfigs.P0RoundTrip | src/phystem/systems/ring/configs.py:71-75 | deriving `area0` from `p0` and then `p0` back gives `p0` when `perimeter / p0` is positive and `-p0` when it is negative |
| RingConfigs.AreaRoundTrip | src/phystem/systems/ring/configs.py:71-75 | deriving `p0` from a positive `area0` and then `area0` back gives `area0` |
| RingConfigs.CppArgs | src/phystem/systems/ring/configs.py:96-116 | every entry handed to the C++ configuration holds the field of its name, and the potential's name parses back to it |
| RingConfigs.RingCfg.constructor | src/phystem/systems/ring/configs.py:44-66 | the validated values are stored unchanged and at least one of `p0`, `area0` is known |
| RingConfigs.RingCfg.AdjustAreaPars | src/phystem/systems/ring/configs.py:68-75 | only the target-area potentials are adjusted: a missing `area0` is derived from `p0`, otherwise `p0` is rederived from `area0`; the division errors propagate and afterwards both are known |
| RingConfigs.RingCfg.Set | src/phystem/systems/ring/configs.py:77-78 | `set` always raises |
| RingConfigs.RingCfg.CppConstructorArgs | src/phystem/systems/ring/configs.py:96-116 | the stored potential, `p0` and `area0` reach the C++ side unchanged |
| RingConfigs.AdjustedConsistent | src/phystem/systems/ring/configs.py:68-75 | after a successful adjustment the pair satisfies `p0**2 * area0 == perimeter**2` |
| RingConfigs.LegacyRingCfg.constructor | lib/phystem/systems/ring/configs.py:11-32 | the older configuration stores its potential name, diameter, `p0` and `area0` as given |
| RingConfigs.LegacyRingCfg.AdjustAreaPars | lib/phystem/systems/ring/configs.py:34-40 | only the potential named exactly "target_area" is adjusted, deriving the missing `area0` or rederiving `p0` |
| RingConfigs.LegacyRingCfg.Set | lib/phystem/systems/ring/configs.py:42-43 | `set` always raises |
| RingConfigs.NewLegacyRingCfg | lib/phystem/systems/ring/configs.py:11-32 | the older constructor raises Exception exactly when both `p0` and `area0` are missing, and otherwise stores them |
| RingConfigs.NewRingCfg | src/phystem/systems/ring/configs.py:14-66 | the constructor raises exactly the validation's error, and otherwise stores the validated parameters |
| RingConfigs.ProcessScalarInput | src/phystem/systems/ring/configs.py:188-192 | a number becomes a list of that number once per ring (empty for a non-positive count); a list is returned as it is |
| RingConfigs.ProcessScalarInputIdempotent | src/phystem/systems/ring/configs.py:188-192 | processing an already processed input changes nothing |
| RingConfigs.NullStokesCfg | src/phystem/systems/ring/configs.py:143-154 | the null Stokes configuration has every physical parameter (obstacle radius and position, lengths, forces) zero and ring capacity -1 |
| RingConfigs.PoolWithNullStokes | src/phystem/cpp/src/solvers/ring.h:297-304 | with the null Stokes configuration the solver's pool holds exactly the initial rings, all active |
| DynamicCfgs.DynamicRingCfg.Raw | src/phystem/systems/ring/configs/dynamic_cfgs.py:98-128 | the plain assignments of the constructor store the given values, before any property setter runs |
| DynamicCfgs.DynamicRingCfg.SetP0 | src/phystem/systems/ring/configs/dynamic_cfgs.py:134-137 | the `p0` setter stores `p0` and replaces `area0` by `(num_particles * spring_r / p0)**2`; a zero `p0` raises ZeroDivisionError with `p0` already stored; on success `p0**2 * area0 == perimeter**2` |
| DynamicCfgs.DynamicRingCfg.SetArea0 | src/phystem/systems/ring/configs/dynamic_cfgs.py:143-146 | the `area0` setter stores `area0` and replaces `p0` by `num_particles * spring_r / area0**.5`; a zero root raises with `area0` already stored; on success with a non-negative `area0` the pair is consistent |
| DynamicCfgs.DynamicRingCfg.ChangeNumParticles | src/phystem/systems/ring/configs/dynamic_cfgs.py:152-166 | a `fix` other than "p0" and "area0" raises ValueError and changes nothing; otherwise the count is stored and the other parameter reassigned through its setter; fixing a non-zero `p0` keeps it up to sign, fixing a positive `area0` keeps it exactly, and the pair is consistent afterwards |
| DynamicCfgs.DynamicRingCfg.KeepP0 | src/phystem/systems/ring/configs/dynamic_cfgs.py:163-164 | assigning `area0 = get_area0(n)` through the setter rederives `p0`, equal to the old one up to the sign of `perimeter / p0` |
| DynamicCfgs.DynamicRingCfg.KeepArea0 | src/phystem/systems/ring/configs/dynamic_cfgs.py:165-166 | assigning `p0 = get_p0(n)` through the setter rederives a positive `area0` exactly |
| DynamicCfgs.DynamicRingCfg.CppConstructorArgs | src/phystem/systems/ring/configs/dynamic_cfgs.py:264-284 | the current `p0` and `area0` and the configured potential are what the C++ solver receives |
| DynamicCfgs.NewDynamicRingCfg | src/phystem/systems/ring/configs/dynamic_cfgs.py:71-128 | the constructor raises the validation's error; a given `p0` goes through its setter (deriving `area0`, consistent) and wins over `area0`, otherwise `area0` goes through its own; "auto" takes the minimal anti-invasion force |
| DynamicCfgs.FormatArea0 | src/phystem/systems/ring/configs/dynamic_cfgs.py:89-106 | under "format" the sentinel `p0 = -1` goes through the setter, so the stored `area0` is the squared perimeter, not -1 |
| RunConfig.Or | src/phystem/systems/ring/run_config.py:48-50 | an optional argument takes the given value, or its default when left out |
| RunConfig.IntegrationTypeValue | src/phystem/systems/ring/run_config.py:29-32 | each integration scheme has a value among 0, 1 and 2 |
| RunConfig.IntegrationTypeOf | src/phystem/systems/ring/run_config.py:29-32 | looking a scheme up by value finds one exactly for 0, 1 and 2 |
| RunConfig.IntegrationTypeRoundTrip | src/phystem/systems/ring/run_config.py:29-32 | each scheme is found again by its value, so the three values are distinct |
| RunConfig.NewInPolCheckerCfg | src/phystem/systems/ring/run_config.py:34-39 | the checker configuration stores its fields and is disabled only when asked to be |
| RunConfig.NewIntegrationCfg | src/phystem/systems/ring/run_config.py:47-59 | the windowed update without a window configuration raises ValueError, and that is the only error; otherwise every argument is stored, with euler, C++ and the plain periodic update as defaults |
| RunConfig.NewLegacyIntegrationCfg | lib/phystem/core/run_config.py:97-113 | the older integration configuration stores `dt`, with C++ and the normal update as defaults |
| RunConfig.NewCollectDataCfg | src/phystem/core/run_config.py:152-203 | a pipeline must be given directly or by id (ValueError otherwise); a given id wins and is resolved with `get_func`, whose absence raises TypeError; the final time and id are stored |
| RunConfig.CollectIdWins | src/phystem/core/run_config.py:152-203 | when an id is given, the stored pipeline does not depend on the `func` argument |
| RunConfig.StepsPerFrame | src/phystem/core/run_config.py:367-373 | steps per frame are at least one; below one step the count is one and `dt` becomes `speed / fps`, otherwise it is `speed / fps / dt` rounded half to even; a zero `fps` or `dt` raises ZeroDivisionError |
| RunConfig.FrameTimeMatchesSpeed | lib/physical_system/configs.py:100-114 | with the new `dt` in effect a frame lasts exactly `speed / fps` of simulated time when the speed is too slow, and within half a step of it otherwise |
| RunConfig.FrameTimeKeepingDtTooLong | src/phystem/core/run_config.py:348-373 | as written, a too slow speed keeps the integrator's `dt` for the final time, so each frame lasts longer than `speed / fps` |
| RunConfig.FrameTimeKeepingDtExample | src/phystem/core/run_config.py:348-373 | at speed 1, 30 fps and `dt = 0.1`, a second of video covers 3 time units as written, and 1 with the new `dt` in effect |
| RunConfig.SpeedOf | src/phystem/core/run_config.py:337-343 | a given speed is kept; without one, `duration` and `tf` are required (ValueError) and the speed is `tf / duration`, a zero duration raising ZeroDivisionError |
| RunConfig.FramesOf | src/phystem/core/run_config.py:351-365 | a given duration wins and gives `int(duration * fps)` frames; otherwise `tf` is kept, a given frame count rescales the steps per frame and the frames are otherwise `int(tf / steps / dt)`; only a zero frame count or `dt` in the `tf` branch raises |
| RunConfig.FramesCoverTf | src/phystem/core/run_config.py:351-365 | with a duration or a frame count the final time is frames x steps x `dt` exactly; otherwise the frame count is the whole part of `tf / steps / dt` |
| RunConfig.SaveCfg.constructor | src/phystem/core/run_config.py:343-348 | the video configuration starts with the integrator's `dt`, the fps and the speed, and nothing derived yet |
| RunConfig.SaveCfg.SetNumStepsFrame | src/phystem/core/run_config.py:367-373 | the stored steps per frame are the derived count, and the new `dt`, if any, is stored on the video configuration |
| RunConfig.SaveCfg.SetFrames | src/phystem/core/run_config.py:351-365 | the derived frame count, steps, final time and duration are stored |
| RunConfig.NewSaveCfg | src/phystem/core/run_config.py:290-373 | the newest video configuration raises ValueError without `duration` and `tf`, raises the speed's, the steps' or the frames' error, and otherwise stores the speed, the new `dt` and the frames derived with the integrator's `dt` |
| RunConfig.NewLegacySaveCfg | lib/phystem/core/run_config.py:287-351 | the older video configuration requires a speed and takes no frame count; otherwise as the newest |
| RunConfig.NewOldestSaveCfg | lib/physical_system/configs.py:89-114 | the oldest video configuration computes the final time with the new `dt` when the speed is too slow |
| Creators.NewCreatorCfg | src/phystem/systems/ring/creators.py:43-91 | the configuration stores its counts and centres; a scalar radius or angle is repeated once per ring (none for a non-positive count) and a list is kept |
| Creators.EmptyCreatorCfg | src/phystem/systems/ring/creators.py:74-83 | the null configuration has no rings, no particle count and empty lists |
| Creators.RingAt | src/phystem/systems/ring/creators.py:131-134 | a ring has one particle per angle sample (and a grid ring one point per point of the base ring) |
| Creators.Rings | src/phystem/systems/ring/creators.py:124-137 | one ring per entry |
| Creators.Create | src/phystem/systems/ring/creators.py:113-139 | a missing particle count raises TypeError, a zero one ZeroDivisionError, an angle grid of the wrong size Exception, a too short radius, centre or angle list IndexError, and otherwise ring k is the circle of radius `r[k]` about `center[k]` with polarisation `angle[k]`; no rings gives empty data |
| Creators.CreateEmpty | src/phystem/systems/ring/creators.py:74-83 | the null configuration creates no rings |
| Creators.RingOnCircle | src/phystem/systems/ring/creators.py:126-134 | every particle of a created ring lies at distance `abs(r)` from the ring's centre |
| Creators.GetSpaceCfg | src/phystem/systems/ring/creators.py:181-185 | each side of the space is the number of grid cells times a ring diameter plus the spacing |
| Creators.Column | src/phystem/systems/ring/creators.py:206-208 | the inner loop produces one ring per row |
| Creators.Columns | src/phystem/systems/ring/creators.py:204-208 | the nested loops produce `num_x * num_y` rings |
| Creators.ColumnsAt | src/phystem/systems/ring/creators.py:204-208 | ring (i, j) is at position `i * num_y + j`: the order is i-major |
| Creators.Shifted | src/phystem/systems/ring/creators.py:214 | moving a ring keeps its number of points |
| Creators.CreateGrid | src/phystem/systems/ring/creators.py:198-217 | a non-positive `num_x` or `num_y` raises ValueError (the empty list of rings cannot be shifted by the centre point); otherwise ring (i, j) is the scaled base ring at its grid centre relative to the centre of the space, i-major, and the polarisations are the draws times two pi |
| Creators.BuildColumns | src/phystem/systems/ring/creators.py:203-208 | the nested loops append exactly the i-major sequence of uncentred rings |
| Creators.CenterAll | src/phystem/systems/ring/creators.py:210-214 | every ring is moved by minus the centre of the space |
| Creators.GridLayoutOf | src/phystem/systems/ring/creators.py:198-214 | the centred rings are laid out on the grid, ring (i, j) at position `i * num_y + j` |
| Creators.GridRingAt | src/phystem/systems/ring/creators.py:198-214 | ring (i, j) of the result is the scaled base ring placed at the centre of grid cell (i, j) |
| Creators.CenteredRing | src/phystem/systems/ring/creators.py:205-214 | centring the uncentred ring (i, j) places it at the grid centre of (i, j) |
| Creators.GridCentersInside | src/phystem/systems/ring/creators.py:181-214 | every grid ring's centre lies strictly inside the space `get_space_cfg` describes, when a diameter plus spacing is positive |
| Creators.CellInside | src/phystem/systems/ring/creators.py:205-212 | the centre of cell i of n cells of width w lies strictly inside `(-n w / 2, n w / 2)` |
| Creators.ConfigToCreatorBijective | src/phystem/systems/ring/creators.py:369-373 | each configuration type selects its own creator, and every creator is selected by exactly one type |
| ExtremePars.AllKeysAreTheCombinations | examples/ring/extreme_pars/extreme_pars.py:58-59 | the keys `generate` visits are exactly the eight combinations of 0 and 1 |
| ExtremePars.GetOr | examples/ring/extreme_pars/extreme_pars.py:24-25 | `dict.get(name, {})`: the entry when present, otherwise the empty configuration |
| ExtremePars.MergeUpTo | examples/ring/extreme_pars/extreme_pars.py:71-83 | the only error of the merge is the KeyError of a missing extreme level |
| ExtremePars.MergeDefined | examples/ring/extreme_pars/extreme_pars.py:58-85 | once every extreme has both levels, every combination merges without error |
| ExtremePars.ExtrasWin | examples/ring/extreme_pars/extreme_pars.py:77-83 | each of the key's extra overrides is in the merged configuration with its own value |
| ExtremePars.LaterExtremeWins | examples/ring/extreme_pars/extreme_pars.py:73-83 | without an extra for it, an attribute takes the value of the last extreme, in the order align, den, force, that overrides it |
| ExtremePars.MergeKeys | examples/ring/extreme_pars/extreme_pars.py:71-83 | every merged attribute comes from one of the extremes or from the extras |
| ExtremePars.ExtremeConfigs.constructor | examples/ring/extreme_pars/extreme_pars.py:5-13 | the collection starts with the base configuration, no configurations, no extras and the three empty extremes |
| ExtremePars.ExtremeConfigs.AddExtreme | examples/ring/extreme_pars/extreme_pars.py:18-25 | the "high" overrides are stored at level 1 and the "low" ones at level 0, a missing dictionary or entry counting as empty; a name other than the three raises KeyError and changes nothing |
| ExtremePars.ExtremeConfigs.AddExtra | examples/ring/extreme_pars/extreme_pars.py:27-37 | the key's extras are stored, a missing dictionary counting as empty |
| ExtremePars.ExtremeConfigs.Get | examples/ring/extreme_pars/extreme_pars.py:39-41 | `get` returns the stored configurations of the key, and raises KeyError exactly when there are none |
| ExtremePars.ExtremeConfigs.Add | examples/ring/extreme_pars/extreme_pars.py:43-50 | the key's configuration is a copy of the base with the overrides set on it: every override has its value and every other base attribute keeps its own |
| ExtremePars.ExtremeConfigs.Merge | examples/ring/extreme_pars/extreme_pars.py:71-83 | the merge loop for one key computes the merge function |
| ExtremePars.ExtremeConfigs.Generate | examples/ring/extreme_pars/extreme_pars.py:57-85 | configured keys are left as they were, only the eight combinations are added, each gets the base with its merged overrides, and a missing extreme level raises KeyError exactly when some unconfigured key needs it; the KeyError comes at the first combination whose merge fails, with every combination before it already generated and no other added (`FailedAt`) |
| ExtremePars.StoreKeeps | examples/ring/extreme_pars/extreme_pars.py:60-85 | storing the configuration of one key keeps what was generated for the keys before it |
| ExtremePars.MergeStopped | examples/ring/extreme_pars/extreme_pars.py:73-76 | a merge that meets a missing extreme level fails |
| ExtremePars.MergeErrStays | examples/ring/extreme_pars/extreme_pars.py:73-83 | a merge that fails at some extreme fails as a whole |
| RungeKutta.Broadcast | lib/phystem/utils/runge_kutta.py:26 | `q_values[i, :i] = row` copies a row of length i, broadcasts a row of length one, and raises ValueError for any other length |
| RungeKutta.TableRow | lib/phystem/utils/runge_kutta.py:21-26 | every row of the table has `order` entries |
| RungeKutta.BuildTable | lib/phystem/utils/runge_kutta.py:18-27 | building the table raises ValueError exactly when some input row cannot be broadcast into its place |
| RungeKutta.ButcherTableShape | lib/phystem/utils/runge_kutta.py:18-27 | a built table is `order x order` with `order = len(q_values) + 1`, strictly lower triangular, row i starts with input row i - 1, and `p_values[i]` is the sum of row i (0 for row 0) |
| RungeKutta.BuiltWellFormed | lib/phystem/utils/runge_kutta.py:18-27 | with one weight per stage a built table is square with one `p` and one `a` per stage |
| RungeKutta.NewButcherTable | lib/phystem/utils/runge_kutta.py:18-27 | the constructor's loop on zero-initialised arrays yields the table the definition describes, or its ValueError |
| RungeKutta.ArraysHoldTable | lib/phystem/utils/runge_kutta.py:21-27 | the filled arrays, read back, are the described table |
| RungeKutta.StoreRow | lib/phystem/utils/runge_kutta.py:26-27 | one iteration writes the row into the first i entries of row i and its sum into `p_values[i]`, changing nothing else |
| RungeKutta.FillRow | lib/phystem/utils/runge_kutta.py:26 | the slice assignment writes the row into the first i entries of row i and changes nothing else |
| RungeKutta.RowPrefix | lib/phystem/utils/runge_kutta.py:26-27 | the first n entries of a row of the array, in order |
| RungeKutta.FilledRowSum | lib/phystem/utils/runge_kutta.py:27 | a row holding the input row and then zeros sums to the input row's sum |
| RungeKutta.ArrayRows | lib/phystem/utils/runge_kutta.py:21-27 | the array read back row by row |
| RungeKutta.RowSum | lib/phystem/utils/runge_kutta.py:27 | `q_values[i].sum()` is the sum of row i |
| RungeKutta.Rk2Tables | lib/phystem/utils/runge_kutta.py:64-80 | Ralston's, Heun's and the midpoint table are well formed and meet the second-order conditions: weights sum to 1 and `sum a p = 1/2` |
| RungeKutta.TwoStage | lib/phystem/utils/runge_kutta.py:18-27 | every two-stage table whose weights sum to 1 and with `a_1 q_10 = 1/2` meets the second-order conditions |
| RungeKutta.Rk4Tables | lib/phystem/utils/runge_kutta.py:82-94 | the 3/8 and the classic tables are well formed and meet the order conditions up to fourth order listed in the model |
| RungeKutta.FourStage | lib/phystem/utils/runge_kutta.py:18-27 | a four-stage table built from full rows meeting those conditions has them as a table |
| RungeKutta.FourOrder | lib/phystem/utils/runge_kutta.py:18-27 | the conditions, written out on the rows and `p` values, are the table's |
| RungeKutta.FourTable | lib/phystem/utils/runge_kutta.py:18-27 | a table built from three full rows has those rows below the diagonal, zeros elsewhere, and `p` the row sums |
| RungeKutta.AddV | lib/phystem/utils/runge_kutta.py:212-215 | adding two states keeps the dimension |
| RungeKutta.ScaleV | lib/phystem/utils/runge_kutta.py:212-215 | scaling a state keeps the dimension |
| RungeKutta.Combo | lib/phystem/utils/runge_kutta.py:212 | `k_matrix[:, :n].dot(c[:n])` has the state's dimension |
| RungeKutta.Stages | lib/phystem/utils/runge_kutta.py:209-213 | the first n stages each have the state's dimension |
| RungeKutta.RkStep | lib/phystem/utils/runge_kutta.py:215 | one step keeps the state's dimension |
| RungeKutta.ComputeStages | lib/phystem/utils/runge_kutta.py:209-213 | the stage loop computes `k_0 = f(x, t)` and `k_i = f(x + dt sum_j q_ij k_j, t + p_i dt)` in order |
| RungeKutta.ConstantRate | lib/phystem/utils/runge_kutta.py:209-215 | with a constant derivative c, a table whose weights sum to one advances the state by exactly `dt * c` |
| RungeKutta.StagesConstant | lib/phystem/utils/runge_kutta.py:209-213 | with a constant derivative every stage equals it |
| RungeKutta.WeightedConstant | lib/phystem/utils/runge_kutta.py:215 | a weighted sum of equal stages is the common value times the sum of the weights |
| RungeKutta.RkGeral | lib/phystem/utils/runge_kutta.py:195-218 | `rk_geral` starts at `x0`, time 0; times are multiples of `dt`, each state is one step from the one before, every step starts before `tf` and the last time reaches `tf`; with `tf <= 0` no step is taken |
| RungeKutta.LoopBound | lib/phystem/utils/runge_kutta.py:202-218 | the number of steps taken before `tf` is bounded by `tf / dt` |
| RungeKutta.RkSolver.constructor | build/lib/phystem/core/solvers.py:93-101 | the solver keeps the caller's state array, starts at time 0, and allocates a zero stage matrix of shape `(x.size, order)` |
| RungeKutta.RkSolver.Update | build/lib/phystem/core/solvers.py:107-117 | `update` stores the stages in `k_matrix`, advances the state array in place by one step and the time by exactly `dt` |
| RungeKutta.RkSolver.StoreStages | build/lib/phystem/core/solvers.py:110-113 | column i of `k_matrix` holds stage i |
| RungeKutta.TimeAfterUpdates | build/lib/phystem/core/solvers.py:117 | after n updates the time is `n * dt` |

## Left out

### Arithmetic and external calls

- Floating point: every quantity is an exact real. NaN, overflow and rounding error are not modelled, nor are the 32-bit floats of the buffers and the C++ `float` force constants.
- `sqrt`, `cos`, `sin`, `acos`, `asin` and `tan` are parameters (a distance, a root, an angle's cosine and sine). Their values are not computed.
- Random numbers are parameters: `rand()`/`srand` in the solvers, `np.random.random` in `RectangularGridCreator.create`.
- OpenMP parallel loops, atomics and critical sections are modelled sequentially, because Dafny has no shared-memory concurrency.
- File, pickle and yaml output, autosave, checkpoint files, the wall clock and progress bars are outside the model. Collector `save` methods are reduced to the data they would write.
- The Voronoi/Delaunay neighbour search (`calc_edges`) and `get_ring_radius` are parameters, because they are scipy or transcendental numerics.
- `fsolve`-based code is not modelled, because it is numerical root finding. This covers `InvaginationCreator`, `invasion_equilibrium_config`, the `equilibrium_*` helpers and `DynamicCfgs` methods such as `get_equilibrium_area`, `get_min_inv_force`, `get_max_k_adh` and `will_invade`.
- DynamicCfgs.NewDynamicRingCfg: "auto" `k_invasion` receives the value of `get_min_inv_force` as the parameter `minInvForce`, because that value needs `acos` and `tan`.
- DynamicCfgs.DynamicRingCfg.Raw: `p0` and `area0` hold 0 until the first setter runs. The Python object has no attribute yet at that point.
- DynamicCfgs.DynamicRingCfg.SetArea0: a negative `area0`, whose Python square root is complex, is left to the `root` parameter. The consistency of `p0` and `area0` is proved only for a non-negative `area0`.

### Effects on other objects

- RingPool.RingPool.AddRing does not model the three calls that end `add_ring` (`ring.h:673-675`): `calc_ring_center_mass(i)`, which recomputes the new ring's centre of mass, `windows_manager.update_entity(i)`, which inserts its vertices into the ring grid, and `in_pol_checker.windows_manager.update_point(i)`, which inserts its centre into the invasion checker's grid. The pool has no centre-of-mass array and no windows managers. The grid insertions are modelled on their own as `Windows.WindowsManagerRing.UpdateEntity` and `Windows.WindowsManager.UpdatePoint`.
- RingPool.RingPool.RemovePastBorder models only the removal test at `ring.h:1586-1596`. The Stokes integration in the same loop (`ring.h:1562-1584`), which moves every vertex by its velocity and turns the heading of each ring that is not removed, is not modelled: the positions and angles are left unchanged. The centres of mass tested are a parameter, as the source tests the stored `center_mass`, which this loop does not update.

### Points outside the grid

In the C++ grids a point outside the space gives a row or column outside the grid, and the window arrays are then indexed out of range, which is undefined behaviour. Nothing in the source guards against it. The members below require every point they place to fall in the grid, and do not model that case.

- Windows.WindowsManager.UpdatePoint requires the point's cell to be in the grid (`InGrid`).
- Windows.WindowsManager.UpdateWindowMembers requires every active point's cell to be in the grid (`Placeable`).
- Windows.WindowsManagerRing.UpdateEntity requires every vertex of the ring to fall in the grid (`EntityPlaceable`).
- Windows.WindowsManagerRing.UpdateWindowMembers and Windows.WindowsManagerRing.Rebuild require every vertex of every active ring to fall in the grid (`RingsPlaceable`).
- Windows.WindowsManagerRing.GetWindowPointElements requires the queried point's cell to be in the grid (`InGrid`).
- WindowsLib.WindowsManager.UpdateWindowMembers requires every point's cell to be in the grid.
- InPol.InPolChecker.Update requires every active centre of mass to fall in the checker's grid (`Placeable`).

### Code paths the source does not use or that always fail

- Code under `#if DEBUG` is not modelled, because release builds do not compile it. This includes the `sum_forces_matrix_debug` copy in `self_propelling.h:329`, whose index typo only affects debug output.
- `TrackingInfo.get` and the old `DeltaCol.check` are not modelled, because each raises on every call: `getattr` without `self`, and iteration over an int.
- QuantityPos.QuantityPosCol.constructor: the buffer capacity is a parameter. `root_collector.py:51` passes six arguments to the seven-parameter `QuantityCol.__init__`, so the constructor as written always raises TypeError.
- QuantityPos.NewPoint stores the polarity and area points as n one-element rows, the shape the (n, 1) buffer slot has. The source passes a 1-D array of n values (`collectors.py:85`, 100), and `data_types.py:34` writes it into the (n, 1) slot, which numpy refuses with ValueError for any n other than 1. The model therefore promises a stored point where the source, as written, raises for n >= 2 (and for n = 0). It describes the evident intended behaviour: one value per selected ring.

### Deliberately narrow contracts

- RungeKutta.RkGeral requires `dt > 0` or `tf <= 0`. With `tf <= 0` the loop takes no step whatever `dt` is, and the model covers that case. With `dt <= 0` and `tf > 0` the time never reaches `tf` and the source's loop never ends.
- RungeKutta.RkGeral requires a well-formed Butcher table (`WellFormed`: `order >= 1`, an `order x order` matrix and one `p` and one `a` per stage). `ButcherTable` builds such a table when it is given one weight per stage (`BuiltWellFormed`); numpy's behaviour on other shapes is not modelled.
- RungeKutta.RkGeral and RungeKutta.RkSolver.Update require a derivative that keeps the state's dimension (`KeepsDim`). numpy broadcasting of other shapes is not modelled.
- DataUtils.MeanArr requires nothing when `r == 1`, and `r > 1` and `k >= 1` otherwise. For `r < 1`, or `k < 1`, the rounded window size can shrink to zero, and the source's loop then never ends unless the window has already passed the end. The calls of that kind that do end on a short series (`r = 0.5`, `k = 4` on five elements yields one mean) are not modelled.
- CellGrids.MeanByCell and CellGrids.MeanByCellByDim take a given count grid as nested sequences, so only a two-axis count can be passed. A count with another number of axes, which numpy would index or broadcast differently, is not modelled. A count with no rows when the grid has no rows is accepted whatever its column count.
- Delta.TrackingList.Remove requires distinct in-range indices: that is what every caller passes, and numpy deletion of repeated indices is not modelled.
- CreationRate.CreationRateCol.constructor requires `NumPoints(...)` to succeed. `CreationRate.NumPoints` states the cases in which the source raises.
- DensityVel.DenVelCol.constructor requires `CheckPeriods` to succeed. `DensityVel.CheckPeriods` states the case in which the source raises.
- DensityVel: the splitting of the data buffers into files (`save_data`, `is_full`, the buffer reset) and the metadata save are not modelled. The model keeps every data point in one sequence.
- DensityVel.DenVelCol.Collect: with the buffers left out, the errors of their `add` are left out too. Each point slot holds `num_max_rings = int(l*h/area_eq*1.2)` rows (`build/lib/phystem/systems/ring/collectors/density_vel.py:105`, buffers built at 121-131). When the region holds more rings than that, other than exactly one, `add` raises ValueError (`density_vel.py:251`, 262, 266), while the model appends the point. The polarity point is a 1-D array written into one-column rows, which raises ValueError unless exactly one ring is selected. The model does not capture that either.

### Not modelled at all

- RingUtils: `get_out_mask`/`remove_out_of_bounds` (`src/phystem/systems/ring/utils.py:307-322`) and that file's `sum_by_cell`/`mean_by_cell` (373-493). Both grids modules' versions of `sum_by_cell` and `mean_by_cell` (`src/phystem/data_utils/grids.py` and `src/phystem/systems/ring/quantities/grids.py`) are modelled in `CellGrids`.
- Delta: `save_final_close` and the saving of group data.
- SolidLiquid: the table size estimate, which only sizes a numpy buffer.
- Plotting and display are not modelled: `info`, `__str__` of `ButcherTable`, `ExtremeConfigs.save` and the plot helpers.
- The `rk45` and `rk_geral_pv` step control and `get_k` are not modelled, because they are adaptive floating-point schemes.
- RunConfig.NewCollectDataCfg keeps only `tf`, the pipeline and its id. The checkpoint, folder and pipeline-configuration arguments are stored without checks and are not modelled.
- `MultFileList` iteration and file loading are not modelled. Only the index split and the length are modelled.

## Findings

| source | as written | input that shows it | evidently intended | confidence | as-written member | corrected member |
|---|---|---|---|---|---|---|
| src/phystem/cpp/src/windows_manager.h:77 | the stored centre of row i is `height/2 + h(0.5 - (i+1))`, counting rows from the top, while `update_point` (108) counts them from the bottom | two rows, height 2, centre 0: row 0's stored centre is y = 0.5, which falls in row 1 | row i's centre lies in row i | medium, not executed | Windows.RowCenterAsWrittenCounterexample | Windows.RowCenterInRow |
| src/phystem/cpp/src/solvers/ring.h:1563-1596 | the removal loop re-reads `num_active_rings`, which `remove_ring` decrements, so run sequentially it stops early | two active rings, both past the border: only the first is removed | every active ring past `remove_border` is removed | low, not executed (the loop is an OpenMP loop, whose bound is fixed on entry) | RingPool.SweepRereadBoundMissesRing | RingPool.RingPool.RemovePastBorder |
| src/phystem/data_utils/grids.py:186-187 | `coords` truncates the cell offset with `astype(int)` | the point (-1.5, 0.5) on a 2 x 2 grid of side 2 centred at 0 gets column 0, not -1 | floor, as `src/phystem/systems/ring/utils.py:643-653` does, so points left of the grid get -1 | medium, not executed | CellGrids.CoordTruncLeftOfGrid | CellGrids.CoordFloorSpec |
| src/phystem/systems/ring/collectors/density_vel.py:102-104 | the sampling clocks start at `solver.time` but are compared with `num_time_steps` | built at time 50, step 5000 (dt = 0.01), with a period of 100 steps: a sample is taken at step 5001 | clocks start at the step count, as the build copy's `setup` does | high, not executed | DensityVel.InitialLastTimeAsWrittenFiresEarly | DensityVel.InitialLastTimeWaits |
| src/phystem/core/run_config.py:367-373 | for too slow a speed the new `dt = speed / fps` is stored on the video configuration, while `tf` (351-354) and the run use the integrator's `dt` | speed 1, 30 fps, dt 0.1: one second of video covers 3 time units instead of 1 | the new `dt` is used, as the oldest version (`lib/physical_system/configs.py:100-114`) does | medium, not executed | RunConfig.FrameTimeKeepingDtExample | RunConfig.FrameTimeMatchesSpeed |
