# Multi-objective neighbour selection (DEG / GPS pools), in Dafny

This project models the two headers of the DEG repository that choose
neighbours for a multi-vector graph index:

- `include/multi_vector_deg.h` holds three parts:
  - the weight lattice (`generateWeightCombinations`, `getWeightCombinationIndex`, `getWeightIndex`);
  - the neighbour record `MultiVectorDEGNeighbor`, with its per-weight pruning bitmap;
  - the layered pool `MultiVectorDEG` and the queue `MultiVectorDEGSkylineQueue`.
- `include/multi_vector_gps.h` holds three parts:
  - the plain record `MultiVectorNeighbor`;
  - the pool `MultiVectorGPS`;
  - the queue `MultiVectorSkylineQueue`, with its 2-D convex-hull pass.

A record has an id and a vector of distances, one per objective; lower is
better. Record `q` *dominates* `p` when `q` is no worse in every objective
and strictly better in one. `findSkyline` splits a batch, in input order,
into two parts:

- the skyline: the records that no record with a different id dominates;
- the rest: every other record.

`initNeighbor` peels a batch into Pareto layers, taking one skyline per
round, until nothing is left. Each record is tagged with its round.
`updateNeighbor` re-peels the sorted pool, but stops once the pool holds M
records.

Files, one module each:

- `Points.dfy`: lexicographic order (`operator<`), dominance, and sum of distances.
- `Neighbors.dfy`: the `MultiVectorNeighbor` value and the five-point example from the tests.
- `Skyline.dfy`: `findSkyline`. The four copies in the headers differ only in record type, so it is modelled once, generic in the record type. It is a validation loop and a partition loop, proved against `Front`/`Rest`.
- `Sorting.dfy`: `std::sort` by `operator<`, as an insertion sort proved sorted and a permutation.
- `Layering.dfy`: layer peeling. `Peel` and `PeelCapped` are its specification. `PeelRounds` and `PeelRoundsCapped` are the while loops.
- `WeightLattice.dfy`: the backtracking generator, the index lookup and the base-11 index.
- `Bitmap.dfy`: the bit arithmetic of the pruning words.
- `Deg.dfy`: `MultiVectorDEGNeighbor` as a class over `array<bv64>`, and the classes `MultiVectorDeg` and `DegSkylineQueue`.
- `Gps.dfy`: the classes `MultiVectorGps` and `SkylineQueue`, and the hull.
- `Wrappers.dfy`: `Option`, `Result` and `Status`. C++ exceptions become `Err`/`Failed` values carrying `InvalidArgument` or `OutOfRange`.

Units and types in the model:

- Distances and cross products are integers.
- Weights are integer tenths, so a weight vector is a composition of 10.
- `SIZE_MAX` as a not-found value becomes `None`.

## Model

| member | source | states |
|---|---|---|
| Points.LexLessIrreflexive | include/multi_vector_deg.h:219-230 | `operator<` (lexicographic; a proper prefix is smaller) is irreflexive |
| Points.LexLessTransitive | include/multi_vector_gps.h:67-78 | `operator<` is transitive |
| Points.LexLessTotal | include/multi_vector_gps.h:67-78 | any two distance vectors are equal or ordered one way by `operator<` |
| Points.EqualityAgreesWithOrder | include/multi_vector_deg.h:247-259 | records equal under `operator==` (same id and distances) are unordered by `operator<`; records unordered by `operator<` have equal distances |
| Points.DominatesLowersSum | include/multi_vector_deg.h:460-479 | a dominating vector has a strictly smaller sum, so dominance chains are finite |
| Points.DominanceIsStrictOrder | include/multi_vector_gps.h:243-263 | the dominance test is irreflexive, asymmetric and transitive |
| Neighbors.GetDistance | include/multi_vector_gps.h:53-60 | `getDistance(dim)` is the dim-th distance, and out_of_range exactly when dim is past the end |
| Neighbors.FirstFlagged | include/multi_vector_gps.h:659-685 | the position of the first flagged record, or none when no record is flagged |
| Neighbors.FivePointExample | tests/test_multi_vector_deg.cpp:145-173 | for (10,20),(5,30),(15,10),(8,15),(20,25) the skyline is ids 1,2,3 and the rest is ids 0,4 |
| Skyline.CheckDims | include/multi_vector_gps.h:224-230 | the validation loop succeeds exactly when every record has D distances |
| Skyline.DominatesCheck | include/multi_vector_gps.h:243-258 | the inner per-objective loop computes dominance (no worse everywhere, better somewhere) |
| Skyline.IsSkylinePoint | include/multi_vector_deg.h:454-481 | the middle loop accepts a record exactly when no record with a different id dominates it |
| Skyline.Split | include/multi_vector_gps.h:233-274 | the partition loop appends, in input order, the undominated records to the skyline and the others to the rest |
| Skyline.FindSkyline | include/multi_vector_deg.h:429-493 | empty input changes nothing; a record of the wrong length gives invalid_argument before anything is appended; otherwise skyline and rest grow by `Front`/`Rest` |
| Skyline.KeepMembers | include/multi_vector_gps.h:233-274 | a record lands in the skyline iff it is undominated, and in the rest iff it is dominated |
| Skyline.SkylinePartition | include/multi_vector_gps.h:212-276 | skyline plus rest is a permutation of the input, and membership is decided by dominance |
| Skyline.KeepDropPartition | include/multi_vector_gps.h:233-274 | every scanned record goes to exactly one output |
| Skyline.DescendToSkyline | include/multi_vector_deg.h:450-491 | every record is in the skyline or dominated by a skyline record |
| Skyline.SkylineNonEmpty | include/multi_vector_deg.h:509-523 | a non-empty batch has a non-empty skyline, so each round of a peel removes a record |
| Skyline.SkylineSingleton | tests/test_multi_vector_gps.cpp:437-453 | a single record is its own skyline and leaves an empty rest |
| Skyline.RestDominatedBySkyline | include/multi_vector_gps.h:233-274 | every record of the rest is dominated by a skyline record |
| Skyline.SkylineIsAntichain | include/multi_vector_gps.h:233-274 | with distinct ids, no skyline record dominates another |
| Skyline.RestHasDim | include/multi_vector_deg.h:509-512 | the rest of a validated batch is still valid, so later rounds cannot fail validation |
| Skyline.HasDimPermutation | include/multi_vector_deg.h:544-548 | validation does not depend on the order of the pool |
| Sorting.SortByDistCorrect | include/multi_vector_gps.h:309 | the sort's result is sorted by `operator<` and a permutation of its input |
| Sorting.InsertSorted | include/multi_vector_gps.h:309 | one insertion step keeps the list sorted and adds exactly the new record |
| Sorting.MapSubMultiset | include/multi_vector_gps.h:321-350 | a sub-multiset of records stays a sub-multiset under any view of the records |
| Layering.PeelPartition | include/multi_vector_gps.h:285-314 | the layers of a peel are non-empty, no more than the records, and together a permutation of the input |
| Layering.PeelOnion | include/multi_vector_gps.h:285-314 | every record of layer l > 0 is dominated by a record of layer l - 1 |
| Layering.PeelNoDominance | include/multi_vector_gps.h:285-314 | a batch in which no record dominates another (distinct ids) peels into one layer |
| Layering.PeelChain | include/multi_vector_gps.h:285-314 | a dominance chain with distinct ids peels into one layer per record |
| Layering.PeelSorted | include/multi_vector_gps.h:321-350 | peeling a sorted list gives sorted layers (the partition keeps input order) |
| Layering.PeelCappedIsPrefix | include/multi_vector_gps.h:333-347 | the capped peel is a prefix of the full peel |
| Layering.PeelCappedSubMultiset | include/multi_vector_gps.h:333-347 | the capped peel keeps a sub-multiset of the pool |
| Layering.PeelCappedStartsBelow | include/multi_vector_gps.h:333 | every round of the capped peel starts with fewer than M records placed |
| Layering.PeelCappedFull | include/multi_vector_gps.h:333 | if the capped peel drops any record, at least M records were placed |
| Layering.PeelCappedAll | include/multi_vector_gps.h:333 | when the whole pool fits in M, the capped peel is the full peel |
| Layering.PeelCappedSorted | include/multi_vector_gps.h:321-350 | capped layers of a sorted pool are sorted |
| Layering.RelayerViews | include/multi_vector_gps.h:297-300 | tagging records with their round changes no view that ignores the tag |
| Layering.RelayerLayers | include/multi_vector_gps.h:297-300 | the tagged records' layers never decrease and lie below the round count |
| Layering.RelayerSortedWithinLayers | include/multi_vector_gps.h:338-341 | within one layer, the tagged records follow `operator<` |
| Layering.PeelRound | include/multi_vector_gps.h:294-305 | one round appends its skyline, tagged with the round, and continues with a strictly smaller rest |
| Layering.PeelRounds | include/multi_vector_gps.h:285-314 | the peeling while loop appends every layer, tagged, counts the rounds and leaves the last skyline |
| Layering.PeelRoundsCapped | include/multi_vector_gps.h:321-350 | the capped while loop builds exactly the capped peel, counts its rounds and leaves the last skyline |
| WeightLattice.Backtrack | include/multi_vector_deg.h:51-87 | the backtracker appends to `result`, in order, every completion of `current` whose tenths sum to 10 |
| WeightLattice.GenerateWeightCombinations | include/multi_vector_deg.h:32-96 | the generated table is the lattice of D-vectors of tenths summing to 10, after sort and unique |
| WeightLattice.CompositionsMembers | include/multi_vector_deg.h:51-87 | a vector is generated iff it has D entries summing to 10 |
| WeightLattice.CompositionsStrictlySorted | include/multi_vector_deg.h:92-93 | the backtracker's output is already strictly increasing under `operator<` |
| WeightLattice.SortSortedIdentity | include/multi_vector_deg.h:92 | sorting an already sorted table leaves it unchanged |
| WeightLattice.DedupIdentity | include/multi_vector_deg.h:93 | `unique` leaves a table without adjacent duplicates unchanged |
| WeightLattice.LatticeSpec | include/multi_vector_deg.h:32-96 | the table holds exactly the D-vectors of tenths summing to 10, sorted and duplicate-free; for D = 1 it is [[10]] |
| WeightLattice.LatticeSizes | tests/test_multi_vector_deg.cpp:75-105 | the table has 1, 11, 66 and 286 entries for D = 1..4 |
| WeightLattice.CompositionsSizes | include/multi_vector_deg.h:51-87 | the number of compositions of t into 1..4 parts is 1, t+1, (t+1)(t+2)/2 and (t+1)(t+2)(t+3)/6 |
| WeightLattice.FirstIndex | include/multi_vector_deg.h:372-389 | the position found is the first entry equal to the vector; none when it is absent |
| WeightLattice.LookupRoundTrip | include/multi_vector_deg.h:356-390 | looking up any table entry returns its own position |
| WeightLattice.LookupFindsExactlyTheLattice | include/multi_vector_deg.h:356-390 | a D-vector is found iff its tenths sum to 10 |
| WeightLattice.GetWeightCombinationIndex | include/multi_vector_deg.h:106-115 | the loop computes the base-11 numeral of the tenths digits |
| WeightLattice.NumeralBound | include/multi_vector_deg.h:99-115 | with digits 0..10, the index of a D-vector is below 11^D |
| WeightLattice.NumeralInjective | include/multi_vector_deg.h:99-115 | for equal-length vectors with digits 0..10, equal indices imply equal vectors |
| Bitmap.WriteFrame | include/multi_vector_deg.h:180-196 | writing bit i reads back as written, and every other bit reads as before |
| Bitmap.OnZero | include/multi_vector_deg.h:142-150 | a zero word has no weight combination pruned |
| Deg.DegNeighbor.constructor | include/multi_vector_deg.h:142-150 | a new record has ceil(n/64) zero words, so nothing is pruned |
| Deg.DegNeighbor.GetDistance | include/multi_vector_deg.h:166-173 | the dim-th distance, or out_of_range past the end |
| Deg.DegNeighbor.IsPruned | include/multi_vector_deg.h:203-212 | the state of weight combination i; out_of_range exactly when i >= n |
| Deg.DegNeighbor.SetPruned | include/multi_vector_deg.h:180-196 | out_of_range with no change when i >= n; otherwise isPruned(i) reads back the new state and no other combination or word changes |
| Deg.CoreIds | include/multi_vector_deg.h:582-597 | the id scan over records agrees with `HasId` on their values |
| Deg.EmplaceRounds | include/multi_vector_deg.h:509-523 | the DEG peeling loop emplaces fresh records with clear bitmaps that are exactly the tagged layers, and counts the rounds |
| Deg.EmplaceRoundsCapped | include/multi_vector_deg.h:546-560 | the DEG capped loop emplaces fresh records with clear bitmaps that are exactly the tagged capped layers, flags kept |
| Deg.MultiVectorDeg.Default | include/multi_vector_deg.h:296-299 | two objectives, M = 0, empty pool and pending list, and the table for D = 2 |
| Deg.MultiVectorDeg.Create | include/multi_vector_deg.h:308-322 | invalid_argument unless 1 <= D <= 8; otherwise an empty pool storing M, D and the table for D |
| Deg.MultiVectorDeg.InitializeWeightCombinations | include/multi_vector_deg.h:327-331 | the table becomes the lattice for the current D, and its size is recorded |
| Deg.MultiVectorDeg.SetNumDimensions | include/multi_vector_deg.h:396-408 | invalid_argument with no change outside 1..8; otherwise D and its table are replaced |
| Deg.MultiVectorDeg.GetWeightIndex | include/multi_vector_deg.h:356-390 | not found on a length mismatch; otherwise the first table position equal to the (tenths) vector |
| Deg.MultiVectorDeg.InitNeighbor | include/multi_vector_deg.h:502-527 | invalid_argument with no change on a bad length; otherwise the pool becomes the sorted old pool plus one fresh, flagged, clear record per input point tagged with its round, the round count is stored, the input is emptied and the pending list is the last skyline |
| Deg.MultiVectorDeg.UpdateNeighbor | include/multi_vector_deg.h:534-563 | a bad stored record leaves the pool empty with invalid_argument; otherwise the pool is the capped re-peel of the sorted old pool, rebuilt with clear bitmaps and the old flags, and the pending list is the last skyline |
| Deg.MultiVectorDeg.Insert | include/multi_vector_deg.h:571-601 | invalid_argument on a length mismatch; a no-op for an id already pooled or pending; otherwise one fresh flagged layer-0 record is appended to the pending list; the pool never changes |
| Deg.MultiVectorDeg.Clear | include/multi_vector_deg.h:633-639 | pool and pending list empty, layer count 0, everything else kept |
| Deg.MultiVectorDeg.CalculatePruningStatus | include/multi_vector_deg.h:650-659 | false for an index outside the table, the record's bit otherwise, out_of_range when the record has fewer bits than the table |
| Deg.MultiVectorDeg.SetPruningStatus | include/multi_vector_deg.h:668-676 | out_of_range for an index outside the table, otherwise setPruned, after which calculatePruningStatus reports the new state and every other bitmap word is unchanged |
| Deg.MultiVectorDeg.RebuiltUnpruned | include/multi_vector_deg.h:553 | a record the pool emplaced reports no combination pruned |
| Deg.DegSkylineQueue.Default | include/multi_vector_deg.h:697-699 | two objectives, M = 0, an empty queue, and no weight combinations counted (the table is not generated) |
| Deg.DegSkylineQueue.Create | include/multi_vector_deg.h:706-722 | invalid_argument unless 1 <= D <= 8; otherwise an empty queue storing M, D and the table size |
| Deg.DegSkylineQueue.InitQueue | include/multi_vector_deg.h:799-821 | like initNeighbor, but the new records are appended in peeling order with no sort and no pending list |
| Deg.DegInitNeighborPool | include/multi_vector_deg.h:502-527 | after initNeighbor the pool is sorted and is the old records plus the new; the new ones carry each input point once, flagged, with non-decreasing layers below the round count |
| Deg.DegUpdateNeighborPool | include/multi_vector_deg.h:534-563 | after updateNeighbor the records are a sub-multiset of the old pool; if any was dropped, at least M remain; if the old pool fits in M, none is dropped |
| Deg.DegUpdateNeighborOrder | include/multi_vector_deg.h:534-563 | after updateNeighbor layers never decrease, and within a layer records follow `operator<` |
| Gps.InsertPending | include/multi_vector_gps.h:369-387 | the two id scans and the append: the pending list is unchanged when the id is known, and grows by one flagged layer-0 record otherwise |
| Gps.MultiVectorGps.Default | include/multi_vector_gps.h:145-147 | two objectives, M = 0, empty pool and pending list |
| Gps.MultiVectorGps.Create | include/multi_vector_gps.h:156-166 | invalid_argument only for D < 1, with no upper bound; otherwise an empty pool storing M and D |
| Gps.MultiVectorGps.Copy | include/multi_vector_gps.h:172-178 | the copy keeps M, the layer count and D, and starts with empty pool and pending list |
| Gps.MultiVectorGps.SetNumDimensions | include/multi_vector_gps.h:184-191 | invalid_argument with no change for D < 1; otherwise D is replaced |
| Gps.MultiVectorGps.InitNeighbor | include/multi_vector_gps.h:285-314 | invalid_argument with no change on a bad length; otherwise the pool is the sorted old pool plus the tagged layers, the round count is stored, the input is emptied and the pending list is the last skyline |
| Gps.MultiVectorGps.UpdateNeighbor | include/multi_vector_gps.h:321-350 | the pool is moved out first, so a bad stored record leaves it empty with invalid_argument; otherwise it is the capped re-peel of the sorted old pool, flags kept, and the pending list is the last skyline |
| Gps.MultiVectorGps.Insert | include/multi_vector_gps.h:358-388 | invalid_argument on a length mismatch; a no-op for a known id; otherwise one flagged layer-0 record is appended to the pending list; the pool never changes |
| Gps.MultiVectorGps.Clear | include/multi_vector_gps.h:420-426 | pool and pending list empty, layer count 0 |
| Gps.InitNeighborPool | include/multi_vector_gps.h:285-314 | after initNeighbor the pool is sorted and holds the old records plus each input point once, flagged, with non-decreasing layers below the round count |
| Gps.FreshTagsFlagged | include/multi_vector_gps.h:297-300 | every record initNeighbor places is flagged |
| Gps.AntichainInitNeighbor | tests/test_multi_vector_gps.cpp:271-287 | a batch with no dominance (distinct ids) gives one layer holding every record, in input order |
| Gps.UpdateNeighborPool | include/multi_vector_gps.h:321-350 | after updateNeighbor the records are a sub-multiset of the old pool up to their layer; if any was dropped at least M remain; if the old pool fits in M none is dropped |
| Gps.UpdateNeighborOrder | include/multi_vector_gps.h:321-350 | after updateNeighbor layers never decrease, and within a layer records follow `operator<` |
| Gps.FirstFlaggedSlot | include/multi_vector_gps.h:659-685 | `nk` becomes twice the position of the first flagged record placed, or stays as it was when none is flagged |
| Gps.ConvexPush | include/multi_vector_gps.h:535-541 | pushing a point after the pops keeps `cross > 0` for every three consecutive hull points |
| Gps.KeptPopsExactlyTheFailures | include/multi_vector_gps.h:535-540 | `Kept(hull, p)`, the stack height where the pops for `p` stop, keeps at least one point of a non-empty stack; its top two turn with `cross > 0` against `p`, and every height above it failed the test |
| Gps.PopsResult | include/multi_vector_gps.h:535-540 | after the pops for `p`: stack plus rest is a permutation of what came in, the old rest stays in front, and exactly the failed turns were popped |
| Gps.KeptConvex | include/multi_vector_gps.h:535-541 | on a convex stack, the pops for `p` then its push leave the stack convex |
| Gps.PushEnds | include/multi_vector_gps.h:535-541 | after the pops and the push, `p` is on top and the bottom point is the old one, or `p` when the stack was empty |
| Gps.ChainSnoc | include/multi_vector_gps.h:533-542 | the reference pass `Chain` over one more point is the pops for that point followed by its push, and `ChainPopped` grows by the popped tops in pop order |
| Gps.ChainMultiset | include/multi_vector_gps.h:523-543 | the reference pass loses nothing: hull plus rest is a permutation of the starting hull, rest and points |
| Gps.ChainConvex | include/multi_vector_gps.h:523-543 | the reference pass keeps a convex hull convex |
| Gps.ChainEnds | include/multi_vector_gps.h:523-543 | after the reference pass the last point taken is on top, and the bottom is the starting hull's first point, or the first point taken when the hull started empty |
| Gps.ChainResult | include/multi_vector_gps.h:523-543 | the whole reference pass: nothing lost, the old rest kept in front, convexity kept, both ends in place |
| Gps.SkylineQueue.Default | include/multi_vector_gps.h:446-448 | two objectives, M = 0, an empty queue |
| Gps.SkylineQueue.Create | include/multi_vector_gps.h:455-463 | invalid_argument only for D < 1; otherwise an empty queue storing M and D |
| Gps.SkylineQueue.Copy | include/multi_vector_gps.h:469-473 | the copy keeps M, the layer count and D, with an empty pool |
| Gps.SkylineQueue.SetNumDimensions | include/multi_vector_gps.h:479-486 | invalid_argument with no change for D < 1; otherwise D is replaced |
| Gps.SkylineQueue.Cross | include/multi_vector_gps.h:505-514 | invalid_argument unless D = 2; otherwise (A1 - O1)(B0 - O0) - (A0 - O0)(B1 - O1), exactly as written |
| Gps.SkylineQueue.PopNonLeft | include/multi_vector_gps.h:535-540 | the pop loop keeps the prefix `hull[..Kept(hull, p)]`: every popped top failed `cross <= 0` against the two points below it on the stack, the kept top two turn with `cross > 0`, and the popped tops reach the rest in pop order (top first); nothing is lost |
| Gps.SkylineQueue.AddToHull | include/multi_vector_gps.h:533-542 | one step is exactly the pops for the point then its push; hull plus rest stays a permutation of what came in, the hull stays convex and ends with the new point |
| Gps.SkylineQueue.FindConvexHull | include/multi_vector_gps.h:523-543 | invalid_argument with no change unless D = 2; otherwise the hull is exactly `Chain(hull, points)` and the rest is `remain` followed by `ChainPopped(hull, points)`, so hull plus rest is a permutation of the inputs, the hull stays convex, and the first and last input points stay in the hull |
| Gps.SkylineQueue.InitQueue | include/multi_vector_gps.h:552-574 | invalid_argument with no change on a bad length; otherwise the tagged layers are appended in peeling order and the rounds counted |
| Gps.SkylineQueue.UpdateNeighbor | include/multi_vector_gps.h:652-693 | the pool is moved out first, so a bad stored record leaves it empty with invalid_argument; otherwise the capped re-peel of the sorted old pool, flags kept; `nk` is twice the new position of the first flagged record placed, unchanged when none is |
| Gps.SkylineQueue.Clear | include/multi_vector_gps.h:725-729 | pool empty, layer count 0 |

## Left out

- Locking: every `std::mutex`/`lock_guard` is left out. Each method is one atomic sequential call.
- Floating point is left out:
  - distances are integers;
  - weights are integer tenths;
  - the cross product is exact.
- `getWeightIndex` snaps a float vector to tenths with `std::round` and 0.001 tolerances. The model takes the tenths as given.
- The generator's `w += 0.1f` accumulation and its range checks are left out. In integers those checks always hold.
- NaN and rounding artefacts are out of scope.
- WeightLattice.GetWeightCombinationIndex: the index is an unbounded natural. The `size_t` wrap-around of the C++ loop is not modelled. It cannot happen for D <= 8, since 11^8 fits.
- Inert state is left out:
  - `Q_` and the `s` constructor argument;
  - the `nn_*`/`rnn_*` fields;
  - `reserve`/`capacity` calls.
- The getters are left out. They are `getPool`, `getNumLayer`, `getPoolSize`, `getDimension`, `getNumDimensions`, `getWeightCombinations` and `getNumWeightCombinations`. They only read fields the model exposes.
- `operator>` and `operator!=` are the mirror and the negation of `operator<`/`operator==`, so they are not separate members.
- The default constructors of the two record types are left out. Nothing in the core uses a default record.
- Sorting.SortByDist: `std::sort` is not stable. The model fixes one order for equal keys: an insertion sort. `Layering.PeelSorted`, `Gps.UpdateNeighborOrder` and `Deg.DegUpdateNeighborOrder` use only what `Sorting.SortByDistCorrect` proves (sorted, and a permutation), so they hold for any sorted permutation. The contracts that name `SortByDist` fix the model's tie order, and so does the `nk` of `Gps.SkylineQueue.UpdateNeighbor`: `operator<` ignores id and flag, so for two records with equal distances, one flagged and one not, `std::sort` may report either position.
- The `std::function` closure of the backtracker is written as a recursive method.
- Throwing constructors become static `Create` methods that return a `Result`. The underlying constructors are `Default`, `Make` and `Copy`.
- Validation in the peels: the C++ calls `findSkyline` each round, and each call validates lengths. The model validates once, before the first round. Every later round works on a subset of the first, so later validation cannot fail. This is proved by `Skyline.RestHasDim`.
- Deg.MultiVectorDeg.InitNeighbor: the C++ copies records into `outlier_`; in the model the pools and `outlier_` hold shared references to record objects. The records `pool_` receives are always new objects. After `initNeighbor`, `outlier_` shares objects with the input. After `updateNeighbor`, `outlier_` holds the old pool's record objects, which the new pool no longer holds. A caller who kept one of those objects, and calls `setPruningStatus` on it, changes the model's `outlier_` record; the C++ `outlier_` holds copies, which would not change.
- Gps.SkylineQueue.UpdateNeighbor: the C++ updates `k` and `nk` while placing records. The model computes `nk` after the loop from the placed records (`Gps.FirstFlaggedSlot`), which gives the same final value.
- Gps.SkylineQueue.Cross: with D = 2, a record with fewer than two distances would read past its vector in C++ (undefined behaviour). `Cross` and `FindConvexHull` require two distances per record instead.
- Printing, timing, random point generation and the test scaffolding are not part of this model. `tests/` and `examples/` serve only as sources of expected values.
