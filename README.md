# Complete-linkage clustering of labelled points

A Dafny model of `main.c`, a small C program that clusters 2-D labelled
points agglomeratively. Each point starts as its own cluster. The program
then repeatedly finds the two clusters whose complete-linkage distance
(the largest distance between a point of one and a point of the other) is
smallest, merges the second into the first and removes the second, until
the requested number of clusters is left.

The model follows the program's structure:

- `objects.dfy` (`Objects`): points (`struct obj_t`), the id comparator
  `obj_sort_compar` and the point distance `obj_distance`.
- `sorting.dfy` (`Sorting`): ordering by identifier, which is what
  `sort_cluster` produces.
- `cluster.dfy` (`Clusters`): the growable cluster container
  (`struct cluster_t`) as a class with `size`, `capacity` and the buffer
  `obj`, its in-place operations `init_cluster`, `clear_cluster`,
  `resize_cluster`, `append_cluster` and `sort_cluster`, and
  `merge_clusters`.
- `linkage.dfy` (`Linkage`): `cluster_distance`, the nested loop that
  keeps the largest pair distance, proved equal to the maximum over all
  cross pairs.
- `registry.dfy` (`Registry`): the array of clusters `main` works on and
  its number of live slots, as the class `ClusterArray`. It covers the singleton construction of
  `load_clusters`, the swap-remove `remove_cluster`, the merge of two live
  slots and the release loop at the end of `main`. `Total` is the multiset
  of all points held.
- `neighbours.dfy` (`Neighbours`): `find_neighbours` as written, which
  starts from the sentinel distance 1000, and the same scan with an
  explicit "no candidate yet" state. Both are specified by the first
  minimal pair (`IsFirstMin`): the pair of smallest linkage distance that
  the scan meets first, which every registry of two or more clusters has.
- `driver.dfy` (`Driver`): the `while (count != number)` loop of `main`
  and `main` itself without input and output. `Agglomerate` is a
  reference definition of the whole clustering on values: repeat a round
  on the first minimal pair until `number` clusters are left. The loop is
  proved to end with the same clusters as `Agglomerate`, each holding the
  same points, and a worked example of four points computes
  `Agglomerate` outright.

Distances are squared Euclidean distances over integer coordinates. The
square root is monotone, so every maximum and every strict comparison the
program makes is unchanged. The sentinel 1000 accordingly becomes
1000 * 1000.

## Model

| member | source | states |
|---|---|---|
| Objects.Compare | main.c:245-253 | the comparator's result is -1, 0 or 1, negative exactly when the first id is smaller, zero exactly when the ids are equal, positive exactly when it is larger |
| Objects.CompareIsTotalPreorder | main.c:245-253 | the comparator is antisymmetric in sign, reflexive, total and transitive, as `qsort` requires |
| Objects.Distance | main.c:201-206 | the (squared) point distance is non-negative and zero exactly when the coordinates coincide |
| Objects.DistanceSymmetric | main.c:201-206 | the point distance does not depend on argument order |
| Sorting.Insert | main.c:255-259 | inserting into a sorted sequence yields a sorted sequence one longer, holding the old points plus the new one |
| Sorting.SortById | main.c:255-259 | the sorted result is ordered by id, has the same length and is a permutation of the input |
| Sorting.SortByIdOfSorted | main.c:255-259 | the reference sort `SortById` returns a sequence that is already ordered by id unchanged (`qsort` itself may swap points of equal id) |
| Clusters.Cluster.constructor | main.c:130-137 | a fresh cluster of `init_cluster(c, cap)` is valid, empty, with capacity `cap` and a fresh buffer |
| Clusters.Cluster.Init | main.c:130-137 | re-initialising makes the cluster valid and empty with capacity `cap` and a fresh buffer |
| Clusters.Cluster.Clear | main.c:139-142 | clearing leaves a valid empty cluster of capacity 0 |
| Clusters.Cluster.Resize | main.c:146-165 | success exactly when the capacity already suffices or the allocation succeeds; the capacity grows to `newCap` only when it was smaller and the allocation succeeded, never shrinks, and the points held are kept |
| Clusters.Cluster.Append | main.c:167-174 | the point is added after the existing ones, the size grows by one, and the capacity grows by exactly one only when the cluster was full |
| Clusters.Cluster.Sort | main.c:255-259 | the points end up ordered by id and are a permutation of those held before |
| Clusters.MergeClusters | main.c:176-186 | the first cluster ends up sorted, holding its own points plus those of the second (as a multiset), its size is the sum of both sizes, its capacity the larger of its old capacity and its new size, and the second cluster is untouched |
| Linkage.RowMax | main.c:217-222 | the running maximum over one row starts at 0 and is never negative |
| Linkage.LinkageDistance | main.c:215-225 | the running maximum over all pairs starts at 0 and is never negative |
| Linkage.RowMaxBound | main.c:217-222 | every distance in a row is at most the row maximum |
| Linkage.RowMaxAttained | main.c:217-222 | a non-empty row attains its maximum |
| Linkage.LinkageBound | main.c:215-225 | every cross pair lies within the linkage distance |
| Linkage.LinkageAttained | main.c:215-225 | for non-empty clusters some cross pair attains the linkage distance |
| Linkage.LinkageIsMax | main.c:208-226 | for non-empty clusters the linkage distance is the maximum over the cross pairs, and it is the only value that is |
| Linkage.LinkageSymmetric | main.c:208-226 | the linkage distance of two clusters does not depend on their order |
| Linkage.LinkagePerm | main.c:208-226 | the linkage distance depends only on which points each cluster holds, not on their order, so sorting a merged cluster changes no later distance |
| Linkage.LinkageSingletons | main.c:208-226 | two single-point clusters lie exactly their points' distance apart |
| Linkage.LinkageEmpty | main.c:215 | with no cross pairs the result is the start value 0 |
| Linkage.ClusterDistance | main.c:208-226 | for two valid non-empty clusters, the nested scan returns the maximum of the point distances over all cross pairs |
| Registry.SwapRemove | main.c:188-199 | removal shortens the registry by one, puts the last cluster into the vacated slot and keeps every other slot |
| Registry.Singletons | main.c:115-124 | the loaded registry has one singleton cluster per input point, in input order |
| Registry.TotalUpdate | main.c:89 | replacing one cluster changes the registry's points by exactly the points taken out and put in |
| Registry.TotalSwapRemove | main.c:188-199 | swap-remove loses exactly the points of the removed cluster |
| Registry.TotalSingletons | main.c:115-124 | the loaded registry holds exactly the input points |
| Registry.TotalSingle | main.c:87 | a registry of one cluster holds that cluster's points and nothing else |
| Registry.NewSingleton | main.c:118-123 | one loaded slot is a fresh valid cluster of size and capacity 1 holding the point read |
| Registry.ClusterArray.Load | main.c:104-128 | the loaded registry is valid, has as many slots as points, and each slot is a cluster of size and capacity 1 holding its point, in input order |
| Registry.ClusterArray.RemoveCluster | main.c:188-199 | the returned count is one less; the live clusters become the swap-remove of the old ones; the removed cluster is cleared and the vacated last slot holds a fresh empty cluster of capacity 0 |
| Registry.ClusterArray.Merge | main.c:89 | only slot `first` changes, to a sorted cluster holding the points of both slots, with capacity the larger of its old capacity and its new size; every other live cluster keeps its points, capacity and buffer; the slots and the count stay |
| Registry.ClusterArray.Release | main.c:95-97 | after the release loop every live cluster is empty with capacity 0, and the slots and the count stay |
| Neighbours.ScanStep | main.c:234-239 | visiting one pair with the strict `<` update keeps the scan state: the held pair is the first minimal pair among those visited |
| Neighbours.ScanFirst | main.c:232-239 | the first pair visited, (0, 1), is the first minimal pair among those visited |
| Neighbours.ScanNextRow | main.c:232-233 | moving to the next row visits nothing new |
| Neighbours.FirstMinUnique | main.c:235 | with the strict `<` update there is only one first minimal pair, so ties are broken deterministically |
| Neighbours.ScanReaches | main.c:232-239 | continuing a scan that holds a candidate pair to its end shows that the registry has a first minimal pair |
| Neighbours.FirstMinExists | main.c:228-243 | every registry of two or more clusters has a first minimal pair |
| Neighbours.FirstMinPairIsFirstMin | main.c:228-243 | the pair chosen by the reference search is the first minimal pair |
| Neighbours.FirstMinSame | main.c:234-239 | registries whose clusters hold the same points slot by slot, in any order, have the same first minimal pair |
| Neighbours.SentinelHarmlessIff | main.c:231 | some pair lies below the sentinel exactly when the first minimal pair does |
| Neighbours.SlotDistance | main.c:234 | the distance measured for two live non-empty slots is their linkage distance |
| Neighbours.FindNeighbours | main.c:228-243 | when some pair lies below the sentinel, the result is the first minimal pair (first < second); otherwise the out-parameters keep the values passed in |
| Neighbours.FindNearestPair | main.c:228-243 | for two or more non-empty clusters, the scan with an explicit "no candidate yet" state always returns the first minimal pair |
| Neighbours.FarApartKeepsStalePair | main.c:231 | two clusters 2000 apart: no pair lies below the sentinel, so the as-written search returns its stale inputs, although (0, 1) is the first minimal pair |
| Driver.AfterRound | main.c:89-90 | after a round the registry is one shorter, slot `first` holds the merged cluster, slot `second` the former last cluster, and the others are kept |
| Driver.RoundPreserves | main.c:88-90 | a round keeps every cluster non-empty, keeps every cluster sorted, and keeps the multiset of all points |
| Driver.RoundTotal | main.c:89-90 | a round moves points between clusters and loses none |
| Driver.AfterRoundSame | main.c:89-90 | a round on two registries with the same points slot by slot, merging into clusters with the same points, again gives registries with the same points slot by slot |
| Driver.Agglomerate | main.c:86-91 | the reference clustering that repeats rounds on the first minimal pair ends with exactly `number` clusters |
| Driver.AgglomerateFirstMin | main.c:88-90 | when (`first`, `second`) is the first minimal pair, the reference merges exactly that pair in its next round |
| Driver.AgglomerateSame | main.c:86-91 | the reference clustering of two registries with the same points slot by slot gives clusters with the same points slot by slot |
| Driver.AgglomerateStep | main.c:86-91 | a round on the first minimal pair, with the merged points in any order, keeps the registry on the reference clustering's path |
| Driver.ReachedStep | main.c:88-90 | one more round on the first minimal pair keeps the loop invariant: non-empty, sorted, all points kept and still on the reference path |
| Driver.ReachedDone | main.c:87 | when the loop stops, the registry is non-empty, keeps all points and sortedness, and matches the reference clustering slot by slot |
| Driver.Round | main.c:88-90 | one iteration of the loop body shortens the registry by one and keeps the loop invariant |
| Driver.MergeRound | main.c:89-90 | merge then remove: the count drops by one, the registry becomes `AfterRound` of a sorted cluster of the points of both slots, and no point is lost |
| Driver.ClusterStep | main.c:88-90 | one round merges the first minimal pair of the registry before the round and removes its second cluster, keeping non-emptiness, sortedness and all points |
| Driver.RunClustering | main.c:86-91 | the loop ends with exactly `number` clusters after exactly `count - number` rounds, keeps every cluster non-empty and sorted, loses no point, changes nothing when `number` equals the count, and leaves slot by slot the points of the reference clustering `Agglomerate` |
| Driver.Clustering | main.c:77-102 | from the loaded points, the loop leaves `number` non-empty clusters sorted by id that together hold exactly the input points; `number` equal to the point count leaves the singletons, and `number == 1` leaves one sorted cluster of all points; slot by slot the clusters hold the points of the reference clustering `Agglomerate`; no points and target 0 give an empty registry |
| Driver.ExampleFirstRound | main.c:86-91 | on points 1 (0, 0), 2 (1, 0), 3 (0, 1), 4 (5, 5) the first round merges clusters 0 and 1 and moves cluster 3 into slot 1 |
| Driver.ExampleSecondRound | main.c:86-91 | on the registry after the first round, the second round merges clusters 0 and 2 and two clusters are left |
| Driver.ExampleClustering | main.c:77-102 | the four example points clustered down to two give the sorted cluster of points 1, 2, 3 and the cluster of point 4 |

## Left out

- Reading the input file and the command-line arguments (`main.c:80-84`, `main.c:108-116`, `main.c:125`): the points and the target are parameters.
- Registry.ClusterArray.Load: the `malloc` of the cluster array (`main.c:113`) always succeeds, so the array always has one slot per point. On failure the source writes through a NULL pointer at `main.c:118-123`, which the model cannot express.
- Printing (`print_cluster`, `print_clusters`, `main.c:93`): the result is the registry value that would be printed.
- Floating point: coordinates are integers and distances are squared, so `sqrtf`/`powf` rounding is not modelled.
- Integer width: identifiers, coordinates and counts are unbounded integers; overflow of `int` is not modelled.
- `free(clusters)` (`main.c:99`) and the freeing of buffers: dropping a reference stands for `free`; memory leaks and double frees are not modelled.
- The debug macros (`main.c:14-34`) and the unused `CLUSTER_CHUNK` constant (`main.c:144`): they do not affect what is computed.
- Clusters.Cluster.Sort: states only that the result is sorted by id and a permutation, which is all `qsort` promises; the order `qsort` leaves among equal ids is not modelled.
- Clusters.Cluster.constructor and Clusters.Cluster.Init: the `malloc` in `init_cluster` (`main.c:136`) always succeeds, so a cluster of capacity `cap` always owns a buffer of `cap` slots; the same holds for `Registry.NewSingleton` and `Registry.ClusterArray.Load`. The source keeps capacity `cap` with a NULL buffer on failure and `load_clusters` then writes through it (`main.c:121`), which is outside what the model can express.
- Clusters.Cluster.Append: calls `Resize` with a successful allocation. The source ignores a failed `realloc` and then writes past the buffer, which is outside what the model can express.
- Driver.Clustering: requires `1 <= number <= count`, or no points and target 0, where the loop does not run. Any other target never meets the loop's exit condition. With two or more points the loop comes down to one cluster, whose `find_neighbours` scan visits no pair and leaves the previous round's `second`, at least 1; `remove_cluster(clusters, 1, second)` then fails `assert(idx < narr)` at `main.c:190` and aborts. With one point the stale pair is (0, 0) from `main.c:86`, and `merge_clusters(&clusters[0], &clusters[0])` does not end. With no points `assert(narr > 0)` at `main.c:229` aborts. Built with `NDEBUG` the asserts vanish and the behaviour is undefined. The model follows none of these runs.
- Driver.ClusterStep, Driver.RunClustering, Driver.Clustering: use `FindNearestPair`, the search with an explicit "no candidate yet" state, in place of the sentinel search (see Findings). The sentinel search gives the same pair whenever some pair lies closer than the sentinel (`SentinelHarmlessIff`); the `Agglomerate` clauses of `RunClustering` and `Clustering` rest on this substitution.
- Driver.Clustering: does not run the release loop; `Registry.ClusterArray.Release` models it separately, because the result is what is printed before the release.

## Findings

| source | as written | input that shows it | evidently intended | confidence | as-written member | corrected member |
|---|---|---|---|---|---|---|
| main.c:231 | `find_neighbours` starts from the smallest distance 1000, so if no pair of clusters lies closer than 1000 it never writes `first` and `second`; on the first round `main` then merges `clusters[0]` with itself, whose append loop does not end | points `1 0 0` and `2 2000 0` with target 1 | the first pair scanned always becomes the first candidate, so the first minimal pair is returned whatever the distances | not executed | Neighbours.FarApartKeepsStalePair | Neighbours.FindNearestPair |
