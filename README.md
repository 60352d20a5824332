# Parsa greedy block partitioning, modelled in Dafny

This project models the greedy vertex partitioner of `src/graph_partition/parsa.cc`.
It partitions the left-hand ("U") vertices of a bipartite graph. The graph
arrives in blocks. Each block is given twice: as a row-major view (the V
neighbours of every U vertex) and as a column-major view (the U neighbours of
every V vertex). Both are compressed sparse layouts of offsets and indices.
The partitioner keeps, for each of its `k` partitions:

- a coverage bitmap over the V universe `[0, vSize)`, which persists from
  block to block;
- a cost table, giving every U vertex of the block a replication cost: the
  number of its neighbours that the partition does not cover yet.

Position `i` of the pass over a block serves partition `i % k`. It takes the
cheapest still-eligible vertex of that partition's table, with the smallest
index on a tie. It marks the vertex placed and records the partition in the
placement map. Then it updates the tables and the coverage: the vertex leaves
every table, the partition covers the vertex's neighbours, and every
unplaced U vertex adjacent to a newly covered V vertex loses one unit of cost
per edge. Before a block is partitioned, its column ids are reduced modulo
`vSize`.

The files and modules:

- `graph.dfy` (`Graph`): the two views, the same-edges predicate
  `BlockPair` (with multiplicities, since the modulo reduction can repeat an
  id in a row), the cost function `Uncovered` and the marking function
  `CoverWith`.
- `cost_table.dfy` (`CostTables`): the minimum query as a function and a
  `CostTable` class with `Init`, `MinIdx`, `Remove` and `DecrAndSort`.
- `greedy.dfy` (`Greedy`): the pass written as a function, `GreedyPass`.
  This is the reference the object is proved to follow. Its lemmas cover
  picks, permutation and coverage.
- `balance.dfy` (`Balance`): round-robin counting and the floor/ceiling
  share.
- `tracking.dfy` (`CostTracking`): tables that track the coverage, and the
  per-position state of a run with its start, step and end lemmas.
- `parsa.dfy` (`ParsaEngine`): the `Parsa` class holding the tables (a
  sequence of `CostTable` objects), the coverage bitmaps (an `array2<bool>`,
  one row per partition) and the placed bitmap (an `array<bool>`). It has
  `InitCost`, `UpdateCostAndNeighborSet`, `PartitionU` and the in-place
  reduction `ReduceColumnIds`.
- `scenario.dfy` (`Scenario`): the four-vertex example block.
- `findings.dfy` (`AsWritten`): the two defects listed under Findings,
  modelled as written.

How the model reads the code:

- The table behind `cost_[k]` and the bitmap behind `neighbor_set_[k]` are
  declared in `parsa.h` and `base/bitmap.h`. Those files are not part of
  this model. The table is therefore modelled abstractly: a cost per index,
  an eligibility mark per index, and a minimum query with the
  smallest-index tie-break. `minIdx` requires some eligible index; the pass
  always has one.
- Line 82 reads the bitmap as `neighbor[...]` and line 102 as
  `neighbor.assigned_V[...]`. Both are read as the one coverage bitmap of
  the partition.
- Several names are misspelled and are read as intended: `parsa::` on line
  5, `assiggned_U_` on line 63, `Parse::` on line 72 and `sdt::vector` on
  line 77.
- Lines 77 and 92 are defects (see Findings). The model resets the cost
  vector per partition, and it decrements the table of `partition`.
- A narrative description of the four-vertex example block says vertex 0 is
  the first pick. The code's minimum query picks vertex 1, the only vertex
  with one uncovered neighbour. The model follows the code; see
  `Scenario.FirstPickIsOne`.
- `CHECK_GT(n, 0)` on line 28 becomes a precondition of `ReduceColumnIds`,
  and so does a positive `V_size`.

## Model

| member | source | states |
|---|---|---|
| Graph.Neighbours | src/graph_partition/parsa.cc:81 | the neighbour list of row `i` is the index range `row_os[i] .. row_os[i+1]`, so its length is the offset difference |
| Graph.Uncovered | src/graph_partition/parsa.cc:80-84 | a vertex's cost (its uncovered neighbours, counted with multiplicity) never exceeds its neighbour count |
| Graph.UncoveredZero | src/graph_partition/parsa.cc:82 | a row costs 0 exactly when every neighbour is covered |
| Graph.UncoveredSetBit | src/graph_partition/parsa.cc:102-107 | covering one uncovered V vertex lowers a row's cost by exactly the number of times the row lists it |
| Graph.UncoveredAntitone | src/graph_partition/parsa.cc:103 | a cost never rises when the coverage grows |
| Graph.CoverWithSnoc | src/graph_partition/parsa.cc:100-103 | covering one more listed vertex sets exactly that vertex's bit |
| Graph.CoverWithGrows | src/graph_partition/parsa.cc:103 | covering a row keeps every old bit and sets the bit of each listed vertex |
| Graph.CoverWithClearsRow | src/graph_partition/parsa.cc:100-103 | once a vertex's own neighbours are covered, it costs nothing in that partition |
| CostTables.MinEligibleUpTo | src/graph_partition/parsa.cc:62 | the prefix scan answers the table size (none eligible) or an index inside the prefix |
| CostTables.MinEligibleUpToSpec | src/graph_partition/parsa.cc:62 | the prefix scan answers the table size exactly when no index of the prefix is eligible; otherwise it answers the prefix's eligible minimum with the smallest-index tie-break |
| CostTables.MinEligibleSpec | src/graph_partition/parsa.cc:62 | the minimum query answers the table size exactly when nothing is eligible; otherwise it answers an eligible index of least cost, and the smallest such index |
| CostTables.MinIdxUnique | src/graph_partition/parsa.cc:62 | the tie-break makes the answer unique, so the pick is deterministic |
| CostTables.MinEligibleAgrees | src/graph_partition/parsa.cc:62 | the answer depends only on the costs of eligible indices |
| CostTables.CostTable.Init | src/graph_partition/parsa.cc:85 | `init` loads exactly the given costs and makes every index eligible |
| CostTables.CostTable.MinIdx | src/graph_partition/parsa.cc:62 | `minIdx`, given some eligible index, returns an eligible index of least cost and the smallest one on a tie; the answer is the query function's |
| CostTables.CostTable.Remove | src/graph_partition/parsa.cc:98 | `remove` clears exactly the index's eligibility and leaves the costs alone |
| CostTables.CostTable.DecrAndSort | src/graph_partition/parsa.cc:107 | `decrAndSort` lowers exactly that index's cost by one and leaves the eligibility alone |
| Greedy.NonePlaced | src/graph_partition/parsa.cc:52-53 | the cleared and resized `assigned_U_` has `n` clear bits |
| Greedy.CountTrue | src/graph_partition/parsa.cc:63 | the number of placed vertices is at most the block size |
| Greedy.CountTrueAll | src/graph_partition/parsa.cc:57-63 | all `n` vertices are placed exactly when the count of placed ones is `n` |
| Greedy.CountTrueNone | src/graph_partition/parsa.cc:52-53 | a bitmap with no bit set counts zero |
| Greedy.CountTrueSet | src/graph_partition/parsa.cc:63 | setting the bit of an unplaced vertex raises the count by one |
| Greedy.SomeUnassigned | src/graph_partition/parsa.cc:57-62 | before position `n`, fewer than `n` vertices are placed, so some table still has an eligible vertex |
| Greedy.PickIsUnplaced | src/graph_partition/parsa.cc:62-63 | a pick inside the block is never an already placed vertex |
| Greedy.PickUnplaced | src/graph_partition/parsa.cc:62-63 | while a vertex is unplaced, the pick is an unplaced vertex of the block |
| Greedy.GreedyPassLength | src/graph_partition/parsa.cc:57-68 | from position `i` with `i` vertices placed, the pass makes exactly one pick per remaining position |
| Greedy.GreedyPassPicksFresh | src/graph_partition/parsa.cc:62-63 | the pass picks only vertices that were unplaced before it |
| Greedy.GreedyPassPicksOnce | src/graph_partition/parsa.cc:62-63 | the pass picks no vertex twice, because a picked vertex leaves every table |
| Greedy.GreedyPassPicksAll | src/graph_partition/parsa.cc:57-64 | from position `i` with `i` vertices placed, the pass picks every unplaced vertex |
| Greedy.FullPassPermutes | src/graph_partition/parsa.cc:57-68 | a pass over a block with nothing placed orders all `n` vertices: each one once, none outside `[0, n)` |
| Greedy.GreedyPassCoverage | src/graph_partition/parsa.cc:91-103 | the coverage after the pass is the old coverage plus, in each partition, the neighbours of the vertices placed there; bits are only ever set |
| Greedy.AbsorbOnlyGrows | src/graph_partition/parsa.cc:100-103 | one update keeps every old bit, covers all of `Ui`'s neighbours in the chosen partition, and leaves every other partition's bitmap unchanged |
| Balance.RoundRobin | src/graph_partition/parsa.cc:57-61 | the number of positions `j < n` with `j % k == s` is at most `n` |
| Balance.RoundRobinClosedForm | src/graph_partition/parsa.cc:57-61 | partition `s` is served at `n / k` positions, plus one when `s < n % k` |
| Balance.RoundRobinBalanced | src/graph_partition/parsa.cc:57-61 | every partition is served at floor(n/k) or ceil(n/k) positions |
| Balance.FairShareBounds | src/graph_partition/parsa.cc:57-64 | under the round-robin share, every partition holds floor(n/k) or ceil(n/k) vertices |
| Balance.Tally | src/graph_partition/parsa.cc:64 | the number of placed vertices mapped to `s` is at most the block size |
| Balance.TallyAssign | src/graph_partition/parsa.cc:63-64 | placing an unplaced vertex in `t` adds one to `t`'s tally and changes no other tally |
| Balance.TallyAll | src/graph_partition/parsa.cc:64 | with every vertex placed, the tally of `s` is the number of map entries equal to `s` |
| Balance.TallyNone | src/graph_partition/parsa.cc:52-53 | with nothing placed, every tally is zero |
| CostTracking.Lowered | src/graph_partition/parsa.cc:100-108 | lowering keeps one entry per vertex |
| CostTracking.LoweredTracks | src/graph_partition/parsa.cc:100-108 | costs that count a vertex's uncovered neighbours still count them once lowered by what the new coverage removes, and so stay non-negative |
| CostTracking.TrackedNonNegative | src/graph_partition/parsa.cc:100-108 | a tracking table has no negative cost for an unplaced vertex |
| CostTracking.LoweredStep | src/graph_partition/parsa.cc:101-108 | covering one uncovered `Vj` and decrementing each unplaced U neighbour of `Vj` once per edge (placed ones skipped) is exactly the lowering to the new coverage |
| CostTracking.TrackedPick | src/graph_partition/parsa.cc:61-62 | a table tracking partition `i % k`'s coverage answers `minIdx` with the reference pass's pick |
| CostTracking.UnassignedPlace | src/graph_partition/parsa.cc:98 | placing a vertex clears exactly its eligibility |
| CostTracking.OnPassStart | src/graph_partition/parsa.cc:50-54 | a run that has made no picks is on its way to the pass it starts |
| CostTracking.OnPassAdvance | src/graph_partition/parsa.cc:61-67 | making the pass's own pick and absorbing its neighbours keeps the run on its way |
| CostTracking.OnPassDone | src/graph_partition/parsa.cc:57-68 | a run that has reached the end has made exactly the pass's picks and reached its coverage |
| CostTracking.PassStateStart | src/graph_partition/parsa.cc:50-54 | freshly loaded tables, all eligible, with nothing placed, form the run state at position 0 |
| CostTracking.PassStateEligible | src/graph_partition/parsa.cc:57-62 | while positions remain, every table has an eligible vertex, so `minIdx` is defined |
| CostTracking.PassStateStep | src/graph_partition/parsa.cc:57-67 | one position (pick by `minIdx`, mark, map to `i % k`, update) keeps every invariant: tables track coverage and eligibility is the unplaced set, the picks follow the pass, the map is in range and each partition has its round-robin share |
| CostTracking.MadeInOrderStep | src/graph_partition/parsa.cc:63-64 | placing an unplaced vertex at the next position in `i % k` extends the placement facts |
| CostTracking.PassStateDone | src/graph_partition/parsa.cc:57-68 | after all `n` positions every vertex is placed and mapped into `[0, k)`, the map follows the pass, the coverage is the pass's, and partition `s` holds `n / k` vertices plus one when `s < n % k` |
| ParsaEngine.Parsa.InitCost | src/graph_partition/parsa.cc:72-87 | after `initCost`, table `s` holds for every vertex its number of neighbours uncovered by partition `s`, all eligible (cost vector reset per partition, see Findings) |
| ParsaEngine.Parsa.RowCosts | src/graph_partition/parsa.cc:80-84 | the loop over the block's rows yields the uncovered-neighbour count of every vertex |
| ParsaEngine.Parsa.RowCost | src/graph_partition/parsa.cc:81-83 | the inner loop over one row's offsets counts the neighbours whose coverage bit is clear |
| ParsaEngine.Parsa.UpdateCostAndNeighborSet | src/graph_partition/parsa.cc:89-110 | `Ui` leaves every table; the chosen partition covers `Ui`'s neighbours and the other partitions are unchanged; the chosen table is lowered by what the new coverage removes; the other tables keep their costs |
| ParsaEngine.Parsa.RemoveEverywhere | src/graph_partition/parsa.cc:98 | `Ui` leaves the minimum query of every table and no cost changes |
| ParsaEngine.Parsa.CoverRow | src/graph_partition/parsa.cc:100-109 | the loop over `Ui`'s neighbours covers them in the chosen partition, leaves other partitions alone and lowers the table to the new coverage |
| ParsaEngine.Parsa.CoverVertex | src/graph_partition/parsa.cc:101-108 | an already covered `Vj` changes nothing; a newly covered one sets its bit and keeps the table at the lowering to the new coverage |
| ParsaEngine.Parsa.DecrementColumn | src/graph_partition/parsa.cc:104-108 | every unplaced U neighbour of `Vj` loses exactly its edge multiplicity; placed ones, `Ui` included, are skipped |
| ParsaEngine.Parsa.Place | src/graph_partition/parsa.cc:63-67 | the bit of `Ui` is set, `map_U[Ui]` becomes the partition, and the update follows |
| ParsaEngine.Parsa.StartBlock | src/graph_partition/parsa.cc:50-54 | the map has `n` entries, `assigned_U_` is `n` clear bits, every table is loaded with the uncovered counts, and the coverage is untouched |
| ParsaEngine.Parsa.PartitionU | src/graph_partition/parsa.cc:47-69 | `map_U` has `n` entries; every vertex ends up placed and mapped into `[0, k)`; the vertex picked at position `i` goes to `i % k` and the picks are the reference greedy pass's; partition `s` gets `n / k` vertices plus one when `s < n % k`; the coverage becomes the pass's |
| ParsaEngine.Parsa.RunPass | src/graph_partition/parsa.cc:57-68 | the position loop takes the run state from position 0 to the end and yields `PartitionU`'s outcome |
| ParsaEngine.Parsa.PassDone | src/graph_partition/parsa.cc:57-68 | the end-of-pass facts, read on the object's arrays |
| ParsaEngine.Parsa.Step | src/graph_partition/parsa.cc:61-67 | one loop iteration moves the object's state from position `i` to position `i + 1` of the run |
| ParsaEngine.Parsa.ReduceColumnIds | src/graph_partition/parsa.cc:28-32 | every column id, in place, becomes its old value mod `V_size` |
| ParsaEngine.Reduced | src/graph_partition/parsa.cc:30-32 | every reduced id is below `V_size` |
| ParsaEngine.ReducedInRange | src/graph_partition/parsa.cc:30-32 | after the reduction every row-major id lies in the V universe |
| ParsaEngine.ReducedIdempotent | src/graph_partition/parsa.cc:30-32 | ids already in range are kept, so a second reduction changes nothing |
| Scenario.FirstPickIsOne | src/graph_partition/parsa.cc:61-62 | on the four-vertex example block the costs start at 2, 1, 2, 2 and position 0 picks U1 |
| AsWritten.CumulativeCosts | src/graph_partition/parsa.cc:77-85 | as written, table `s` receives at least its own count (it is the sum over partitions up to `s`) |
| AsWritten.CumulativeCostsOverCount | src/graph_partition/parsa.cc:77-85 | on a one-edge block with nothing covered, table 1 receives cost 2 where partition 1's count is 1 |
| AsWritten.UpdateAsWritten | src/graph_partition/parsa.cc:92-107 | as written, only table `Ui` is decremented; every other table, the chosen partition's included, is unchanged |
| AsWritten.UpdateAsWrittenLosesTrack | src/graph_partition/parsa.cc:92-107 | on the example block, after U1 is placed in partition 0, table 0 no longer counts U0's uncovered neighbours |

## Left out

- `Parsa::partition()` (lines 5-16) is left out. The reader thread, its
  detach and the hand-off through `data_buf_` are concurrency. The model
  starts at one call of `partitionU` per block.
- `loadInputGraph` (lines 18-44) is left out apart from the reduction loop.
  Reading the matrices, `toColMajor`, the matrix info settings, `memSize`
  and the push to `data_buf_` are I/O and foreign library calls. The
  column-major view is an input; `BlockPair` requires it to encode the
  row-major view's edges.
- The `CHECK_GT(n, 0)` abort on line 28 is not modelled as a path. It is a
  precondition of `ReduceColumnIds`, beside `vSize > 0` (the modulo needs
  a non-zero `V_size`).
- The cost table's internals are not modelled: the re-sort strategy behind
  `decrAndSort` and any priority structure. `MinIdx` is a linear scan with
  the abstract contract: least cost, then smallest index.
- `ParsaEngine.Parsa.constructor`: the source's constructor and
  configuration are not part of the core. The model's constructor sets up
  `k` tables and `k` clear bitmap rows.
- Integer widths are not modelled. Costs are unbounded `int`, and ids and
  offsets are `nat`, with no 32-bit `int` or 64-bit `size_t` and `Key`
  limits. For a block whose costs fit, nothing wraps.
- `AsWritten.CumulativeCosts`: its contract states only the lower bound
  (at least the partition's own count). The exact over-count is exhibited
  by `AsWritten.CumulativeCostsOverCount`.
- `AsWritten.UpdateAsWritten`: it requires `Ui < k`. For `Ui >= k`, line 92
  indexes `cost_` out of range, and that behaviour is undefined.

## Findings

| source | as written | input that shows it | evidently intended | confidence | as-written member | corrected member |
|---|---|---|---|---|---|---|
| src/graph_partition/parsa.cc:77-85 | one `cost` vector is declared before the partition loop and never cleared, so table `k` receives the sum of the counts of partitions `0..k` | one U vertex with the single neighbour V0, two partitions, nothing covered: table 1 gets cost 2, but U0 has 1 uncovered neighbour | each table gets its own partition's uncovered-neighbour counts (the comment on line 71) | high, not executed | AsWritten.CumulativeCostsOverCount | ParsaEngine.Parsa.InitCost |
| src/graph_partition/parsa.cc:92 | the decrements of lines 104-107 go to `cost_[Ui]`, a table indexed by a vertex id | the four-vertex example block, two partitions, nothing covered: U1 is placed in partition 0, table 1 is lowered and table 0 still charges U0 for V1 | the decrements go to `cost_[partition]`, the table of the partition whose coverage grew, so that every table keeps counting uncovered neighbours | high, not executed | AsWritten.UpdateAsWrittenLosesTrack | ParsaEngine.Parsa.UpdateCostAndNeighborSet |
