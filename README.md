# DBSCAN in muster's `cluster::density`, modelled in Dafny

This project models the density-based clusterer of muster's `src/density.h`,
DBSCAN as described by Ester et al. The class `cluster::density` keeps a label
per object in `cluster_ids`. A label is `UNCLASSIFIED` (0), `NOISE` (1), or a
real cluster id from `FIRST_CLUSTER` (2) upwards. The class also keeps a list of
medoids, one per cluster (the object the cluster was grown from), and the
counters `current_cluster_id_` and `total_clusters_`. There are three
operations:

- **`dbscan`** labels every object `UNCLASSIFIED`. It then scans the objects in
  index order and calls `expand_cluster` on each object still `UNCLASSIFIED`.
  Each successful expansion records a medoid and advances both counters.
- **`expand_cluster`** marks the seed `NOISE` when its neighbourhood is smaller
  than `min_points_`. Otherwise it labels the whole neighbourhood with the
  current id and works through a worklist. Each worklist member that is core
  (one whose neighbourhood has at least `min_points_` members) claims every
  neighbour that is still `UNCLASSIFIED` or `NOISE`. Neighbours that were
  `UNCLASSIFIED` are appended to the worklist.
- **`epsilon_range_query`** is a linear scan. It returns the object itself and
  every index whose distance from it is below `epsilon_`, in ascending order.

The model is imperative, like the source. `Cluster.Density` is a class with the
six state fields. Its methods reassign the fields and state the new state in
their postconditions:

- `cluster_ids` and `medoid_ids` are `seq<nat>` fields.
- The worklist is a `seq<nat>` with a read cursor. It may grow while it is being
  read.
- The six source loops (src/density.h:93, 97, 135, 147, 159, 184) stay loops, with their invariants.

Value-level ghost predicates describe the state part way through each loop:
`ClaimProgress`, `Expanding` and `Scanned`. Lemmas prove that one step keeps
them. `Clustered` is what the driver guarantees at the end.

Files:

- `index_lists.dfy` (module `IndexLists`): ascending and duplicate-free index lists.
- `labels.dfy` (module `Labels`): the label constants and the count of `UNCLASSIFIED` labels.
- `neighbourhood.dfy` (module `Neighbourhood`): the neighbour relation, neighbourhoods, core objects.
- `density.dfy` (module `Cluster`): the class `Density` and its invariants.
- `scenarios.dfy` (module `Scenarios`): whole runs whose outcome follows from `Dbscan`'s contract alone.

The objects are a sequence of a type parameter `T`. The metric is a function
`(T, T) -> real` passed to each operation, as the template parameter `D` is in
the source.

## Model

| member | source | states |
|---|---|---|
| Cluster.Density.EpsilonRangeQuery | src/density.h:181-197 | The result is `Neighbours` of the object. It is strictly ascending and contains the object itself. Every element is an index below N. Any index `j` is in it exactly when `j` is the object or its distance from the object is below epsilon. No state changes. |
| Neighbourhood.NeighboursBelowSpec | src/density.h:184-194 | After scanning the first `n` indices, the list is strictly ascending and holds only indices below `n`. An index below `n` is in it exactly when it is near the object. |
| Neighbourhood.NeighboursSpec | src/density.h:181-197 | The full neighbourhood is strictly ascending, in range, and contains the object. It holds exactly the near indices, whether or not the metric gives 0 for an object and itself. |
| Neighbourhood.NeighboursUnique | src/density.h:184-194 | Any strictly ascending, in-range list of exactly the near indices is the neighbourhood. The query result is therefore unique. |
| IndexLists.AscendingUnique | src/density.h:184-194 | Two strictly ascending lists with the same elements are equal. |
| Labels.CountUnclassified | src/density.h:62-66 | The number of `UNCLASSIFIED` labels is at most the number of labels. It is 0 exactly when no label is `UNCLASSIFIED`. |
| Labels.CountUnclassifiedUpdate | src/density.h:165-170 | Overwriting one label changes the count by exactly the change in that one label's "is `UNCLASSIFIED`" status. |
| Labels.CountUnclassifiedBound | src/density.h:133-144 | A strictly ascending list of classified indices plus the `UNCLASSIFIED` labels together are at most N. This bounds the seed list plus the remaining `UNCLASSIFIED` labels below N. |
| Cluster.Density.ExpandCluster | src/density.h:123-178 | Returns true exactly when the seed is core. On false, the only change is the seed set to `NOISE`, and the returned worklist is empty. On true, `Expanded` holds for the returned final worklist. The worklist has no repeats, is shorter than N, and every member carries the current id. A label becomes the current id exactly when it is in the seed's neighbourhood, or was `UNCLASSIFIED` or `NOISE` and is in the neighbourhood of a core worklist member; every other label is kept. An index is on the worklist exactly when it is a neighbour of the seed other than the seed, or was `UNCLASSIFIED` and is in a core worklist member's neighbourhood. Each member is a neighbour of the seed or of a core member earlier in the list. Every core member's neighbours carry real ids, and every changed label is in a core object's neighbourhood. |
| Cluster.FloodLabels | src/density.h:133-175 | After labelling the neighbourhood and running the worklist phase, each label is the current id exactly where the seed's neighbourhood or a core worklist member claimed an `UNCLASSIFIED` or `NOISE` label; every other label is kept. |
| Cluster.FloodOrder | src/density.h:133-175 | Each final worklist member is not the seed. It is a neighbour of the seed, or was `UNCLASSIFIED` and is claimed by a core member. Each member is a neighbour of the seed or of a core member before it. |
| Cluster.FloodMembers | src/density.h:133-175 | An index is on the final worklist exactly when it is a non-seed neighbour of the seed, or was `UNCLASSIFIED` and is in a core member's neighbourhood. |
| Cluster.FloodExpanded | src/density.h:133-175 | The two phases of the flood fill from a core seed together establish every part of `Expanded`, including that each changed label is in a core object's neighbourhood. |
| Cluster.Density.LabelNeighbourhood | src/density.h:133-144 | Every index of the neighbourhood gets the current id, unconditionally, and no other label changes. The returned list is the neighbourhood without the seed. It stays strictly ascending and is one shorter when the seed was in it. |
| Cluster.Density.ExpandWorklist | src/density.h:146-175 | When the worklist is exhausted, `Expanding` holds with the cursor at its end. The worklist extends the initial seeds with indices that were `UNCLASSIFIED` at the start. It has no repeats, every member carries the current id, and it holds every index that left `UNCLASSIFIED`. Only the current id was written, and only over `UNCLASSIFIED` or `NOISE`. Every core member has a fully claimed neighbourhood. Every changed label is in the neighbourhood of a core member of this worklist, and every appended member is in the neighbourhood of a core member before it. The worklist length plus the `UNCLASSIFIED` count is a constant below N, which is why the loop terminates. |
| Cluster.Density.ProcessMember | src/density.h:151-174 | The worklist keeps its prefix. When the member at the cursor is core, its whole neighbourhood is claimed: each `UNCLASSIFIED` or `NOISE` neighbour gets the current id and every other label is kept. Exactly its neighbours that were `UNCLASSIFIED` are appended. When it is not core, labels and worklist are unchanged. Either way `Expanding` holds with the cursor one further on. |
| Cluster.Density.ClaimNeighbours | src/density.h:159-172 | Each neighbour that was `UNCLASSIFIED` or `NOISE` gets the current id; every other label is unchanged. The worklist keeps its prefix and gains exactly the neighbours that were `UNCLASSIFIED`, so it has no repeats. The number of labels still `UNCLASSIFIED` drops by exactly the number appended. |
| Cluster.ClaimSkip | src/density.h:165-166 | A neighbour that already holds a real id is left alone and not queued, and the claim loop's invariant carries over. |
| Cluster.ClaimNoise | src/density.h:165-170 | A `NOISE` neighbour is relabelled with the current id but not queued, and the invariant carries over. |
| Cluster.ClaimFresh | src/density.h:165-170 | An `UNCLASSIFIED` neighbour is relabelled and appended to the worklist, and the invariant carries over, including the count. |
| Cluster.QueueFresh | src/density.h:167-169 | Appending an `UNCLASSIFIED` neighbour keeps the worklist free of repeats and keeps the prefix. It preserves "every member classified" and "every `UNCLASSIFIED` neighbour seen so far is queued". |
| Cluster.ExpandStep | src/density.h:155-172 | A core member's claimed neighbourhood keeps every part of `Expanding`. |
| Cluster.WorklistShapeStep | src/density.h:165-171 | Appending the newly claimed neighbours keeps these facts: the worklist has no repeats, extends the seeds by indices `UNCLASSIFIED` at the start, is labelled with the current id, it holds every index that left `UNCLASSIFIED`, and its length plus the `UNCLASSIFIED` count is the fixed budget. |
| Cluster.OnlyClaimsStep | src/density.h:165-171 | The worklist phase writes only the current id, and only over `UNCLASSIFIED` or `NOISE`; real ids stay unchanged. |
| Cluster.ProcessedClaimedStep | src/density.h:155-172 | After a core member is processed, none of its neighbours is `UNCLASSIFIED` or `NOISE`, and members processed earlier keep that property. |
| Cluster.ClaimedByGrow | src/density.h:165-171 | A claim by one of the first `k` worklist members remains a claim by one of the first `k'` members, for any `k' >= k` and any extension of the worklist. |
| Cluster.JustifiedStep | src/density.h:155-172 | After a core member claims its neighbourhood, every label changed since the start is in the neighbourhood of a processed core member. Every appended member is in the neighbourhood of a core member before it. |
| Cluster.ExpandSkip | src/density.h:157 | A worklist member that is not core changes nothing, and `Expanding` holds with the cursor one further on. |
| Cluster.Density.Dbscan | src/density.h:88-106 | Sets epsilon and minPoints. Leaves `Clustered`: one label per object, none `UNCLASSIFIED`; every label `NOISE` or in [`FIRST_CLUSTER`, `currentClusterId`); `totalClusters == |medoidIds| == currentClusterId - FIRST_CLUSTER`; medoids strictly ascending and core; `NOISE` exactly at objects no core object reaches; no cluster exactly when no object is core; each cluster lies inside every set that holds its medoid and contains every neighbour of each core object in it; and, when the neighbour relation is symmetric, each medoid keeps its own cluster's id and neighbouring core objects share an id. |
| Cluster.Density.ScanObject | src/density.h:97-105 | One step of the driver keeps the scan invariant. No label returns to `UNCLASSIFIED`. An already classified object changes nothing. A non-core unclassified object becomes `NOISE` and nothing else changes. A core unclassified object appends itself to the medoids and advances both counters by one, and `Expanded` holds for the returned worklist with the old id; otherwise medoids and counters stay. |
| Cluster.Density.constructor | src/density.h:71 | The starting state the driver needs: no labels, no medoids, `currentClusterId == FIRST_CLUSTER`, `totalClusters == 0`. |
| Cluster.ScanStart | src/density.h:93-95 | All labels `UNCLASSIFIED` satisfy the scan invariant before the first index. |
| Cluster.ScanClassified | src/density.h:98 | An index already classified is skipped and the invariant advances. |
| Cluster.ScanNoise | src/density.h:128-131 | Marking a non-core seed `NOISE` keeps the invariant. Under symmetry, core objects still share ids with their core neighbours. |
| Cluster.NoiseKeepsClaimed | src/density.h:128-131 | Marking a non-core `UNCLASSIFIED` object `NOISE` keeps every classified core object's neighbourhood fully claimed. |
| Cluster.NoiseKeepsWithin | src/density.h:128-131 | Marking an object `NOISE` keeps every cluster inside the closed sets that hold its medoid. |
| Cluster.NoiseKeepsSymmetric | src/density.h:128-131 | Marking a non-core object past every medoid `NOISE` keeps, under a symmetric neighbour relation, each medoid's own id and the shared ids of neighbouring core objects. |
| Cluster.ScanCluster | src/density.h:99-103 | A successful expansion plus the recorded medoid and incremented counters keep the invariant. In particular, labels stay below the next id, medoids stay ascending and core, and noise stays non-core. |
| Cluster.ScanClusterWithin | src/density.h:99-103 | After an expansion from a core seed, every cluster, the new one included, lies inside every set closed under core neighbourhoods that holds its medoid. |
| Cluster.WorklistWithin | src/density.h:146-175 | When every worklist member is a neighbour of the core seed or of an earlier core member, every member lies in each set closed under core neighbourhoods that holds the seed. |
| Cluster.ExpandedWithin | src/density.h:123-178 | A flood fill from a core seed stays inside any set closed under core neighbourhoods that holds the seed: every worklist member is in it and no label outside it changes. |
| Cluster.ClassifiedCoresKept | src/density.h:133-144 | When the neighbour relation is symmetric, an expansion does not relabel a core object that was already classified. |
| Cluster.ScanClusterSymmetric | src/density.h:99-103 | When the neighbour relation is symmetric, after an expansion every medoid, the new one included, still carries the id of the cluster it seeded, and neighbouring classified core objects share their id. |
| Cluster.ScanCoresConnected | src/density.h:99-103 | When the neighbour relation is symmetric and classified core objects keep their ids, after an expansion any classified core object and any core object in its neighbourhood share an id. |
| Cluster.ScanNoiseExact | src/density.h:97-105 | After the scan, every label is `NOISE` or a real id below the next id. A label is `NOISE` exactly when no core object has that object in its neighbourhood. |
| Cluster.ScanNoCore | src/density.h:97-105 | After the scan, no cluster has been formed exactly when no object is core. |
| Cluster.ScanComplete | src/density.h:97-105 | The finished scan establishes `Clustered`. |
| Cluster.ClusteredSeparates | src/density.h:97-105 | If the indices split into two sets, each closed under core neighbourhoods, then an object in only one of them and an object in only the other never share a real cluster id. |
| Cluster.ClusteredConnected | src/density.h:97-105 | When the neighbour relation is symmetric, a finished clustering gives neighbouring core objects the same id and gives medoid `c` the id `FIRST_CLUSTER + c`. |
| Neighbourhood.SymmetricNear | src/density.h:190 | A metric that gives the same distance both ways makes the neighbour relation symmetric, at every epsilon. |
| Scenarios.RunIsolated | src/density.h:97-105 | If every two distinct objects are at least epsilon apart and minPoints is 2, every object ends `NOISE` and no cluster forms. |
| Scenarios.AllCloseOutcome | src/density.h:97-105 | Any labelling that the driver's guarantee allows for minPoints 1 and objects all closer than epsilon has exactly one cluster, and every object carries `FIRST_CLUSTER`. |
| Scenarios.RunAllClose | src/density.h:97-105 | With minPoints 1 and every ordered pair closer than epsilon, a non-empty input forms exactly one cluster, and every object carries `FIRST_CLUSTER`. |
| Scenarios.LineNeighbourhood | src/density.h:181-197 | The neighbourhoods of the points 0, 1, 2, 10, 11, 20 at epsilon 2 are {0,1}, {0,1,2}, {1,2}, {3,4}, {3,4} and {5}. |
| Scenarios.LineOutcome | src/density.h:97-105 | Any labelling that the driver's guarantee allows for those points makes 20 `NOISE`. It puts 0, 1 and 2 in one real cluster and 10 and 11 in one real cluster. |
| Scenarios.LineClosed | src/density.h:181-197 | At epsilon 2 and minPoints 2, the points 0, 1, 2 and the points 10, 11, 20 each contain every neighbour of each core point in them. |
| Scenarios.TwoGroups | src/density.h:97-105 | Labels grouped as 0, 1, 2 / 10, 11 / `NOISE`, with distinct ids, ascending medoids among the first five points, and medoid `c` carrying id `FIRST_CLUSTER + c`, are exactly [2, 2, 2, 3, 3, `NOISE`] with two clusters. |
| Scenarios.LineSeparated | src/density.h:97-105 | In the line example, when each cluster lies inside the closed sets holding its medoid, points 0 and 10 carry different ids. |
| Scenarios.LineResult | src/density.h:97-105 | Any labelling that the driver's guarantee allows for the line example, given its symmetric metric, is [2, 2, 2, 3, 3, `NOISE`] with two clusters. |
| Scenarios.RunLine | src/density.h:88-106 | Running the driver on the points 0, 1, 2, 10, 11, 20 with epsilon 2 and minPoints 2 gives exactly the labels [2, 2, 2, 3, 3, `NOISE`] and two clusters. |

## Left out

- Random number generator members `random_` and `rng_` (src/density.h:109-114) and the boost random include: the algorithm never uses them.
- The constructor's body, the destructor and the `partition` base class (src/density.h:52, 71, 74): their bodies are in files that are not part of this model.
  - `Cluster.Density.constructor` gives the state the driver needs. `Dbscan` requires that state.
  - The constructor's `num_objects` argument is not modelled.
  - `dbscan` appends labels rather than resizing them, so a non-empty starting vector would misalign every index. The model requires an empty one instead of modelling that case.
- `Cluster.Density.ExpandCluster` requires `|clusterIds| == |objects|`: the source indexes labels by object index and would go out of bounds otherwise. It also requires `currentClusterId >= FIRST_CLUSTER`; with id 0 (`UNCLASSIFIED`) a claimed neighbour would stay `UNCLASSIFIED` and be queued again whenever a core object reached it, so the worklist could grow forever; with id 1 the cluster's members would read as `NOISE`. `Dbscan` always calls it in that state.
- IEEE double arithmetic for distances and `epsilon_`: the model uses mathematical reals, so NaN and rounding are not modelled.
- Metric failures (exceptions thrown by the metric): the metric is a total Dafny function.
- Metric properties:
  - The code does not assume symmetry or that an object is at distance 0 from itself, because it adds the object to its own neighbourhood explicitly.
  - DBSCAN is usually stated with `dist(x, x) == 0`, which would give self-inclusion through the distance test. The code does not rely on that, and neither does the model.
  - Facts that need symmetry (medoids keep their own id; neighbouring core objects share an id) are stated under `NearSymmetricOn`, the neighbour relation holding both ways, as an explicit hypothesis. `SymmetricNear` derives it from a metric that is symmetric on the objects.
- Parameter validation: the source does not check `epsilon > 0` or `min_points >= 1`, and neither does the model.
- `size_t` overflow of the counters and labels: the model uses unbounded naturals. A counter cannot exceed N + 2, so no wrap-around is reachable for inputs that fit in memory.
- `std::list` erase during iteration (src/density.h:140): modelled as building the list without the seed. The order of the remaining neighbours is kept.
- `cluster_ids` as a `std::vector` updated in place: modelled as a `seq<nat>` field that is reassigned. A single owner means no aliasing to model.
- The worklist's exact order is stated only as "prefix kept, new indices appended". The order in which neighbours are appended is not stated further.
- `bic.h`, `dissimilarity.h`, `random.h` and `<iostream>`: not part of this model.
- The O(N²) metric-call count: not a behavioural property.
- `Cluster.Density.Dbscan` states cluster separation through sets closed under core neighbourhoods: a cluster never leaves such a set around its medoid. Density-reachability chains are not defined explicitly.
