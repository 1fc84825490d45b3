# Verified model of the space and ventilation analysis back end

This project models, in Dafny, the core of a Python back end. The back end
takes a voxelised CAD model and turns it into spaces, openings between them,
a connectivity graph and air-change-per-hour (ACH) rates. The model states
and proves what each stage does:

- **Space detection** (`SpaceDetection`, `space_detector.dfy`). Exterior air is removed by flood-filling the empty cells from the grid boundary. A 6-connected breadth-first flood fill mutates an `array3<bool>` in place. Connected components at or above the minimum volume become spaces `space_000`, `space_001`, …. Adjacency comes from touching voxels. Fragmented spaces are merged, and the adjacency graph is rebuilt afterwards.
- **Topology** (`Topology`, `topology.dfy`). This builds the space graph from openings:
  - a one-sided opening gets the exterior appended to its own `connects`;
  - edges are weighted by area;
  - a repeated opening on a pair is merged into the existing edge.

  It also covers centrality scores, the repair edges that tie cut-off components to the exterior, isolated spaces, paths to the exterior, the ranking queries, and the opening-status graph.
- **Ventilation** (`Ventilation`, `ventilation.dfy`). This covers:
  - the path bookkeeping of the ACH calculator;
  - the base-rate rule table, area and decay weighting, and clamping;
  - pairwise smoothing of neighbouring rates;
  - normalised contributions;
  - the closed-opening penalty;
  - the ACH category thresholds.
- **Openings** (`Openings`, `OpeningDetection`, `openings.dfy`, `opening_detection.dfy`). This covers the interface voxels between two spaces, their clusters, one opening per cluster numbered `opening_001`, `opening_002`, …, the door/passage decision table, door states, the openings of one space, and the connectivity graph of the openings.
- **Output** (`SpaceDataOutput`, `space_data_output.dfy`). This covers the processed records of spaces, openings and ventilation paths, the box geometry for visualisation, and the consistency check of a finished data set.
- **Configuration** (`Config`, `config.dfy`). This is the two-level key/value store with `get`, `set` and `get_all`, the recursive merge of a loaded file into the defaults, and the singleton accessor.
- **Geometry helpers** (`GeometryUtils`, `geometry_utils.dfy`). This covers the skeleton graph under 26-connectivity, the degree classification and junction filter, point bucketing, the connectivity argument check, the guard and swap of the opening features, and the ray-casting parity rule.
- **Voxelizer** (`Voxelization`, `voxelization.dfy`). This covers the choice between a uniform grid and the octree, the refinement-voxel filter, region refinement, and the octree as linked node objects, with subdivision and leaf collection.
- **Format parser** (`FormatParsing`, `format_parser.dfy`). This covers dispatch on the file extension, the STEP entity count, and the export format check.

Shared modules:

| Module | File | What it holds |
|---|---|---|
| `Wrappers` | `wrappers.dfy` | `Option` and `Result` |
| `Numbers` | `numbers.dfy` | sums, extrema and powers over exact reals |
| `Strings` | `strings.dfy` | `{n:03d}`, ASCII case mapping and substring search |
| `Sorting` | `sorting.dfy` | the stable key sort of `list.sort` |
| `Grid` | `grid.dfy` | cells, face adjacency and paths of open cells |
| `Graphs` | `graphs.dfy` | undirected graphs as networkx keeps them, reachability by breadth-first search, and connected components |

How the Python code is represented:

- Code that changes state stays imperative: a class with `modifies` clauses and loops with invariants. Each such method is proved against a function that specifies it, and the lemmas beside that function state what the source promises.
- Python errors (KeyError, TypeError, ValueError, ZeroDivisionError, FileNotFoundError) are modelled with `Result` where the model's inputs can trigger them. Spaces and openings reach the topology builder and the ACH calculator as records that always carry `id` (and openings `type`). So the KeyError those two modules would raise for a missing key is not modelled (see "## Left out").
- Numbers are exact reals. No stated property depends on floating-point rounding.
- Results of numeric and CAD libraries are inputs or function parameters, treated as oracles:
  - component labelling and DBSCAN labels;
  - centrality measures and simple paths;
  - `mesh.contains`;
  - hull measurements and the area exponent;
  - uuid-based IDs, random subsampling, available memory, and whether a file exists.

## Model

| member | source | states |
|---|---|---|
| SpaceDetection.SpaceDetector.FloodFill3D | api/src/space_analysis/space_detector.py:194-237 | `_flood_fill_3d` in place: afterwards a cell is True exactly when it was True and is not 6-connected to the start through the old True cells, so a False start changes nothing and no cell outside the region changes |
| SpaceDetection.SpaceDetector.OpenNeighbours | api/src/space_analysis/space_detector.py:231-237 | the cells pushed for one popped cell are at most six in-bounds True face neighbours, and every in-bounds True face neighbour is pushed |
| SpaceDetection.SpaceDetector.RemoveExternalSpace | api/src/space_analysis/space_detector.py:149-192 | returns a fresh grid of the same shape (the input is not modified) in which a cell is True exactly when it was empty and no used seed reaches it; the seeds are exactly the empty boundary cells, at most `max_seed_points` of them used |
| SpaceDetection.SpaceDetector.FloodSeed | api/src/space_analysis/space_detector.py:188-189 | one flood of the seed loop extends the set of cleared cells from the first `i` seeds used to the first `i + 1` |
| SpaceDetection.FloodWithinRemaining | api/src/space_analysis/space_detector.py:188-189 | flooding from a later seed inside what earlier floods left clears the same cells as flooding the original empty cells would |
| SpaceDetection.ReachedPrefix | api/src/space_analysis/space_detector.py:188-189 | a cell is reached from the first `i + 1` seeds exactly when it is reached from the first `i` or connected to seed `i` |
| SpaceDetection.SeedsInBox | api/src/space_analysis/space_detector.py:175-181 | every seed taken from the boundary mask lies inside the grid |
| SpaceDetection.SpaceDetector.Invert | api/src/space_analysis/space_detector.py:74 | `~voxel_grid`: a fresh grid of the same shape holding the negation of every cell, whose True cells are the grid's empty cells |
| SpaceDetection.SpaceDetector.SpacesOf | api/src/space_analysis/space_detector.py:92-124 | the filtering loop yields exactly the specification list of spaces built from the components |
| SpaceDetection.KeptComponentsExactly | api/src/space_analysis/space_detector.py:95-102 | a component is kept exactly when it is one of the components and its volume `len · size³` is at least `min_space_volume` |
| SpaceDetection.SpacesFromComponentsAppend | api/src/space_analysis/space_detector.py:95-124 | one more component appends one more space exactly when it is large enough, numbered by the count of spaces before it |
| SpaceDetection.DetectedSpaceFields | api/src/space_analysis/space_detector.py:97-128 | the `k`-th detected space is named `space_` plus `k` in three digits, holds the `k`-th kept component as its voxels and voxel count, has that component's volume (at least the minimum), type `unknown` and no `merged_from` |
| SpaceDetection.DetectedIdsDistinct | api/src/space_analysis/space_detector.py:114-116 | detected space IDs are pairwise distinct |
| SpaceDetection.SpaceDetector.DetectSpaces | api/src/space_analysis/space_detector.py:50-147 | a missing grid returns no spaces and changes nothing; otherwise the interior grid is the boundary flood of the inverted grid, the spaces are the filtered components and the adjacency graph is rebuilt from them |
| SpaceDetection.SpaceDetector.TouchingEdges | api/src/space_analysis/space_detector.py:253-284 | the edge set collected by the pair scan is exactly the set of touching pairs |
| SpaceDetection.SpaceDetector.TouchingRow | api/src/space_analysis/space_detector.py:265-284 | scanning one space against all others adds exactly that row's touching pairs |
| SpaceDetection.SpaceDetector.DetectSpaceAdjacency | api/src/space_analysis/space_detector.py:239-286 | replaces the adjacency graph by one node per space and the touching pairs as edges; the spaces are unchanged |
| SpaceDetection.AdjacentIff | api/src/space_analysis/space_detector.py:265-321 | two spaces are adjacent exactly when they are different, one centre lies within the other's search radius and some voxels of the two are at squared index distance at most 2 |
| SpaceDetection.Lookup | api/src/space_analysis/space_detector.py:341-342 | `next(...)` finds a space of the list with the requested ID |
| SpaceDetection.ShouldMergeSymmetric | api/src/space_analysis/space_detector.py:344-355 | the estimated separation test gives the same answer for either order of the pair |
| SpaceDetection.ShouldMergeMonotone | api/src/space_analysis/space_detector.py:355 | a larger `space_merge_distance` merges every pair a smaller one merges |
| SpaceDetection.MergePairs | api/src/space_analysis/space_detector.py:337-356 | the merge pairs are adjacency edges, in edge order, between listed spaces |
| SpaceDetection.SpaceDetector.MergeCandidates | api/src/space_analysis/space_detector.py:333-356 | the edge loop collects exactly the merge pairs |
| SpaceDetection.MergeGraphNodes | api/src/space_analysis/space_detector.py:358-360 | a node of the merge graph is exactly an endpoint of some pair |
| SpaceDetection.MergeGraphEdges | api/src/space_analysis/space_detector.py:358-360 | an edge of the merge graph is exactly some pair |
| SpaceDetection.MergeGraphIsPassingAdjacency | api/src/space_analysis/space_detector.py:337-360 | when the edge order lists every adjacency edge once, the merge graph joins two spaces exactly when they are adjacent and pass the merge test, in whichever direction networkx lists the edge |
| SpaceDetection.AdjacentPassingMerged | api/src/space_analysis/space_detector.py:337-378 | two distinct adjacent spaces that pass the merge test end up in one merged group |
| SpaceDetection.ComponentsIffPairs | api/src/space_analysis/space_detector.py:362-367 | there are components exactly when there is a merge pair, so the early return happens exactly when nothing passed the test |
| SpaceDetection.Members | api/src/space_analysis/space_detector.py:381 | the spaces to merge are exactly the listed spaces whose ID is in the component |
| SpaceDetection.Unmerged | api/src/space_analysis/space_detector.py:392 | the unmerged spaces are exactly the listed spaces whose ID is not merged |
| SpaceDetection.UnmergedDistinct | api/src/space_analysis/space_detector.py:392 | filtering keeps IDs distinct |
| SpaceDetection.SpaceDetector.ConcatVoxels | api/src/space_analysis/space_detector.py:415-418 | the `extend` loop yields the concatenation of the members' voxel lists |
| SpaceDetection.SpaceDetector.MergeSpaces | api/src/space_analysis/space_detector.py:402-450 | `_merge_spaces` returns the merged space of the group, whose voxels are non-empty |
| SpaceDetection.MergedSpaceVoxels | api/src/space_analysis/space_detector.py:420-447 | the merged voxels are the deduplicated union of the members' voxels in sorted order, counted by `voxel_count`; `merged_from` lists the member IDs in order and the type is `merged` |
| SpaceDetection.MergedSpaceBounds | api/src/space_analysis/space_detector.py:427-431 | the merged bounding box encloses every member voxel index |
| SpaceDetection.MergedSpaceVolume | api/src/space_analysis/space_detector.py:424 | the merged volume is the sum of the member volumes, hence at least each non-negative member's volume |
| SpaceDetection.GroupMembersHaveVoxels | api/src/space_analysis/space_detector.py:376-382 | a component of the merge graph picks at least one space, so the merge has voxels |
| SpaceDetection.LargeGroupsAreComponents | api/src/space_analysis/space_detector.py:376-378 | the groups merged are exactly the components of more than one space, pairwise disjoint |
| SpaceDetection.LargeComponentsListed | api/src/space_analysis/space_detector.py:363-378 | every component of more than one space is among the groups merged |
| SpaceDetection.DistinctAfterMerge | api/src/space_analysis/space_detector.py:392-413 | with fresh merged IDs, the unmerged spaces followed by the merged ones have distinct IDs |
| SpaceDetection.MergeResultValid | api/src/space_analysis/space_detector.py:392-395 | the space list after a merge has distinct IDs and every space has voxels |
| SpaceDetection.SpaceDetector.MergeGroups | api/src/space_analysis/space_detector.py:376-389 | the group loop merges exactly the components of more than one space, each with the next fresh ID, and records exactly the IDs of their members |
| SpaceDetection.SpaceDetector.PlanMerge | api/src/space_analysis/space_detector.py:358-395 | nothing is merged exactly when no pair passed the test; otherwise the result is the unmerged spaces followed by one merged space per large component, with distinct IDs |
| SpaceDetection.SpaceDetector.MergeFragmentedSpaces | api/src/space_analysis/space_detector.py:323-400 | over an edge order listing every adjacency edge once: at most one space or no merge pair leaves spaces and graph unchanged; otherwise the spaces become the unmerged ones followed by the merged ones and the graph is rebuilt from the old one; with more than one space, every two distinct adjacent spaces passing the merge test share a merged group |
| SpaceDetection.SpaceDetector.SpacesLinked | api/src/space_analysis/space_detector.py:468-494 | the four-way test links two spaces exactly when a source of one (itself when unmerged) was adjacent to a source of the other |
| SpaceDetection.SpaceDetector.LinkedEdges | api/src/space_analysis/space_detector.py:464-494 | the pair loop collects exactly the linked pairs |
| SpaceDetection.SpaceDetector.UpdateAdjacencyAfterMerge | api/src/space_analysis/space_detector.py:452-496 | the adjacency graph becomes one node per current space with exactly the linked pairs; the spaces are unchanged |
| SpaceDetection.AdjacentAfterMergeIff | api/src/space_analysis/space_detector.py:464-494 | after a merge two spaces are adjacent exactly when some source of one was adjacent to some source of the other; two unmerged spaces are adjacent exactly when they were before |
| SpaceDetection.LinkedPairOnlyFromSources | api/src/space_analysis/space_detector.py:464-494 | with distinct IDs a pair of current spaces is linked only through their own sources |
| SpaceDetection.SpaceDetector.constructor | api/src/space_analysis/space_detector.py:33-48 | the configured thresholds, no spaces and an empty adjacency graph |
| Topology.RememberLast | api/src/ventilation/topology_builder.py:63-73 | the record kept for a space ID is the last record listed with that ID |
| Topology.BaseGraph | api/src/ventilation/topology_builder.py:60-86 | before any opening the graph holds exactly the space IDs and `space_exterior`, and no edge |
| Topology.Completed | api/src/ventilation/topology_builder.py:89-94 | a one-entry `connects` list gets `space_exterior` appended; any other list is left as it is |
| Topology.CompletedIdempotent | api/src/ventilation/topology_builder.py:93-94 | completing a list twice is completing it once |
| Topology.OpeningWeight | api/src/ventilation/topology_builder.py:108-117 | the weight is positive: the inverse of a positive area, 10 for an area that is not positive, 1 when there is no area |
| Topology.OpeningEdges | api/src/ventilation/topology_builder.py:88-155 | after the opening loop a pair is an edge exactly when some opening with two existing endpoints names it, and its data summarise those openings in order |
| Topology.OpeningEdgeAt | api/src/ventilation/topology_builder.py:88-155 | the same, for one pair |
| Topology.SummarySnoc | api/src/ventilation/topology_builder.py:119-155 | a first opening on a pair creates the edge with count 1; a repeated one appends its ID and type, sets `count` to the new list length and keeps the smaller weight |
| Topology.OpeningEdgesConsistent | api/src/ventilation/topology_builder.py:119-155 | every opening edge has `count` equal to the length of its openings and types lists, a positive weight, and is not a repair edge |
| Topology.CompleteOpening | api/src/ventilation/topology_builder.py:89-94 | the opening's own `connects` list is completed in place (the caller sees it) and nothing else about it changes |
| Topology.AddOpeningEdges | api/src/ventilation/topology_builder.py:88-155 | the edge loop completes every opening in place and adds exactly the edges of the completed openings |
| Topology.BuildGraph | api/src/ventilation/topology_builder.py:60-155 | the graph before scoring has the spaces, the exterior and the completed openings' edges; the properties hold each space's last record |
| Topology.AddSpaces | api/src/ventilation/topology_builder.py:63-73 | the space loop adds each space ID once and records the space |
| Topology.Scores | api/src/ventilation/topology_builder.py:182-192 | there is a centrality score for exactly the graph's nodes |
| Topology.ScoreBounds | api/src/ventilation/topology_builder.py:187-191 | with non-negative measures every centrality score lies between 0 and 1 |
| Topology.NodeScores | api/src/ventilation/topology_builder.py:182-192 | the node loop computes exactly the score map |
| Topology.TopologyBuilder.CalculateTopologyProperties | api/src/ventilation/topology_builder.py:166-192 | corrected: stores the zero-safe score of every node and changes nothing else; wherever the written score does not raise, the stored scores are the written ones |
| Topology.ScoresAsWritten | api/src/ventilation/topology_builder.py:187-191 | the score as written raises ZeroDivisionError exactly when the largest betweenness, closeness or degree is 0 |
| Topology.ScoresAgree | api/src/ventilation/topology_builder.py:187-191 | where the written score does not raise it equals the corrected score |
| Topology.NoOpeningsRaises | api/src/ventilation/topology_builder.py:187-191 | a model whose openings make no edge (one space and no opening, say) has every degree 0, so the written score raises |
| Topology.LargestSpace | api/src/ventilation/topology_builder.py:216-224 | the inner loop finds no space exactly when no space of the component has a positive volume; otherwise it finds one of strictly largest positive volume |
| Topology.RepairAdd | api/src/ventilation/topology_builder.py:226-238 | tying the largest space of a cut-off component to the exterior keeps the repair invariant for the next component |
| Topology.RepairDone | api/src/ventilation/topology_builder.py:213-238 | once every component is visited the graph is repaired: each cut-off component with positive volume has exactly one repair edge (weight 2, marked repair) from a largest space to the exterior, and no other edge is added |
| Topology.SingleComponentRepaired | api/src/ventilation/topology_builder.py:201 | with a single component nothing is added |
| Topology.RepairEdges | api/src/ventilation/topology_builder.py:199-238 | the repair loop over the components returns a well-formed repaired graph |
| Topology.TopologyBuilder.ValidateTopology | api/src/ventilation/topology_builder.py:194-239 | repairs the stored graph and changes nothing else |
| Topology.RepairedReachesExterior | api/src/ventilation/topology_builder.py:213-238 | after the repair every space whose component has a positive volume (and no empty ID) reaches the exterior |
| Topology.RepairEdgesTouchExterior | api/src/ventilation/topology_builder.py:231-238 | every repair edge ends at the exterior, is marked as repair and starts in a component that could not reach it |
| Topology.CutOffNodes | api/src/ventilation/topology_builder.py:248-265 | a node is listed exactly when it is a node, not exterior, with no path to any exterior node |
| Topology.FindIsolatedSpaces | api/src/ventilation/topology_builder.py:241-267 | the loop returns exactly the cut-off nodes, in node order |
| Topology.ReachesAny | api/src/ventilation/topology_builder.py:257-261 | whether the node has a path to some exterior node: true exactly when one exists |
| Topology.IsolatedHaveNoVolume | api/src/ventilation/topology_builder.py:213-267 | a space still isolated after the repair had no positive volume in its component (or an empty ID) |
| Topology.TopologyBuilder.Install | api/src/ventilation/topology_builder.py:157-164 | corrected: after the graph is built it is stored with `space_exterior` as the exterior node, given the zero-safe scores, repaired and its isolated spaces reported |
| Topology.TopologyBuilder.BuildTopology | api/src/ventilation/topology_builder.py:45-164 | corrected: `space_exterior` is always a node and the only exterior node; each opening's list is completed in place; the scores are the zero-safe scores of the unrepaired graph; the stored graph is the repaired one; the isolated spaces are exactly its cut-off nodes |
| Topology.RouteRecord | api/src/ventilation/topology_builder.py:297-316 | the record of a route has that route, `length = len(route) - 1`, the sum of its edge weights and the openings of its edges in order |
| Topology.RouteStep | api/src/ventilation/topology_builder.py:304-309 | one more edge adds its weight to the total and its openings to the list |
| Topology.SliceLength | api/src/ventilation/topology_builder.py:297 | `all_paths[:max_paths]` keeps `min(n, stop)` routes for a non-negative stop and Python's negative-stop count otherwise |
| Topology.RouteRecords | api/src/ventilation/topology_builder.py:297-318 | one record per route kept, in order, each with the facts of its route |
| Topology.SortedPathsKeep | api/src/ventilation/topology_builder.py:323 | sorting the records keeps one record per kept route and their facts |
| Topology.FindPathToExterior | api/src/ventilation/topology_builder.py:269-326 | an unknown space or one with no path out gets no paths; otherwise one record per kept route, sorted by ascending weight, each with its length, weight and openings |
| Topology.ImportantSpaces | api/src/ventilation/topology_builder.py:400-420 | at most five spaces, in descending score order |
| Topology.ImportantAreTop | api/src/ventilation/topology_builder.py:407-418 | the important spaces are non-exterior nodes, all of them when there are fewer than five, and no node left out scores higher than one chosen |
| Topology.CriticalConnections | api/src/ventilation/topology_builder.py:380-398 | exactly `min(10, edges)` edges of the graph, in descending betweenness order, and no edge left out has a higher betweenness than one chosen |
| Topology.ClosedWeight | api/src/ventilation/topology_builder.py:493-500 | an edge's weight is multiplied by 10 once for each closed opening on it |
| Topology.OpeningStatusGraph | api/src/ventilation/topology_builder.py:478-502 | the copy has the same nodes and edges and each edge reweighted for its closed openings; the original graph is a value and is not changed |
| Topology.StatusAllOpen | api/src/ventilation/topology_builder.py:493-500 | with no closed opening the status graph equals the graph |
| Topology.ReweightedNotLower | api/src/ventilation/topology_builder.py:500 | closing openings never lowers a positive weight |
| Topology.TopologyBuilder.constructor | api/src/ventilation/topology_builder.py:34-43 | no graph yet, no exterior nodes and no space properties |
| Ventilation.OpeningType | src/ventilation/ach_calculator.py:156-157 | the type recorded is the first listed type other than `repair`, or `unknown` when every type is `repair` |
| Ventilation.EstimatedArea | src/ventilation/ach_calculator.py:161 | the estimated area is positive: the inverse of a positive edge weight, else 1 |
| Ventilation.EdgeInfos | src/ventilation/ach_calculator.py:155-168 | one entry per opening of the edge, in order, with that type and that area |
| Ventilation.AppendEdgeInfos | src/ventilation/ach_calculator.py:155-168 | the inner loop appends the edge's entries and keeps the running area total equal to the sum of the areas |
| Ventilation.PathRecord | src/ventilation/ach_calculator.py:139-187 | the loop over a route's edges builds the path record of that route |
| Ventilation.ViaIsRouteOpenings | src/ventilation/ach_calculator.py:146-178 | the `via` list names the openings of the route's edges, edge by edge |
| Ventilation.RecordsTo | src/ventilation/ach_calculator.py:130-187 | the records to one exterior node are those of its first five routes, in order |
| Ventilation.TailPathFacts | src/ventilation/ach_calculator.py:120-187 | every record one exterior node contributes starts at the space, ends at that node, has `length = len(route) - 1` between 1 and 6, the sum of its edge weights as weight and `path_decay^(length-1)` as decay |
| Ventilation.AtMostFivePerExterior | src/ventilation/ach_calculator.py:120-187 | each exterior node listed once gets at most five paths, and a node not listed gets none |
| Ventilation.TailFacts | src/ventilation/ach_calculator.py:130-187 | one exterior node contributes at most five records, all to that node |
| Ventilation.FindVentilationPaths | src/ventilation/ach_calculator.py:104-195 | the result is an error exactly when networkx raises (an unknown node); otherwise the collected records sorted by ascending weight, each satisfying the path facts |
| Ventilation.SpacePaths | src/ventilation/ach_calculator.py:74-79 | the paths of one space, as above, none of negative weight |
| Ventilation.BaseAch | src/ventilation/ach_calculator.py:226-234 | the base rate is `high_ach` for one edge, the mean of `medium_ach_range` for two and the mean of `low_ach_range` otherwise |
| Ventilation.InverseWeights | src/ventilation/ach_calculator.py:317 | each path weight becomes the positive `1 / (weight + 0.1)` |
| Ventilation.SharesSumToOne | src/ventilation/ach_calculator.py:318-325 | positive weights give shares in (0, 1] that sum to one |
| Ventilation.ShareBounds | src/ventilation/ach_calculator.py:323 | each share of positive weights lies in (0, 1] |
| Ventilation.WeightedMeanWithin | src/ventilation/ach_calculator.py:254 | a mean whose weights are non-negative and sum to one lies between the least and the greatest value |
| Ventilation.Contributions | src/ventilation/ach_calculator.py:221-247 | one contribution per path, `base · area factor · decay` |
| Ventilation.Clamp | src/ventilation/ach_calculator.py:261 | `max(lo, min(x, hi))` is at least `lo`, at most `hi` when `lo <= hi`, and `x` itself when `x` is already in range |
| Ventilation.SpaceAch | src/ventilation/ach_calculator.py:197-263 | no paths give `low_ach_range[0]`; every rate lies in [`low_ach_range[0]`, `high_ach`] |
| Ventilation.SpaceAchIsMean | src/ventilation/ach_calculator.py:251-261 | when every contribution is already in range the clamp changes nothing: the rate is the weighted mean and lies between the least and greatest contribution |
| Ventilation.SmoothPairEffect | src/ventilation/ach_calculator.py:276-298 | an edge touching `space_exterior…`, or joining rates at most 5 apart, changes nothing; otherwise each rate moves 30% towards the average, the higher down and the lower up, the pair's sum is kept, the gap shrinks to 70% and every other rate is unchanged |
| Ventilation.SmoothAllKeeps | src/ventilation/ach_calculator.py:276-279 | the rate of an exterior-prefixed node, or of a node no edge names, is never touched |
| Ventilation.SmoothAllKeys | src/ventilation/ach_calculator.py:282-298 | smoothing keeps every rate key and adds only endpoints of edges |
| Ventilation.CollectPaths | src/ventilation/ach_calculator.py:63-87 | the space loop stops exactly where networkx raises; without an error the path table holds every space's paths, and the rate table is the rate of each space's paths |
| Ventilation.AchCalculator.CalculateAchRates | src/ventilation/ach_calculator.py:46-102 | succeeds exactly when no space raises; then the paths are the path table and the rates are the per-space rates smoothed over every edge of the graph, each once, in the order networkx lists them |
| Ventilation.AchCalculator.ValidateAchRates | src/ventilation/ach_calculator.py:265-298 | the rates are smoothed edge by edge, in edge order; the paths are untouched |
| Ventilation.PathKeyInjective | src/ventilation/ach_calculator.py:324 | distinct path positions get distinct keys `path_1`, `path_2`, … |
| Ventilation.AchCalculator.CalculateVentilationContributions | src/ventilation/ach_calculator.py:300-327 | nothing for a space without paths; otherwise the keys are exactly `path_1` … `path_n` and each value is that path's share of the inverse weights |
| Ventilation.PathsAffected | src/ventilation/ach_calculator.py:345-356 | the scan finds an opening closed exactly when some opening on some path of the space is closed |
| Ventilation.CutClosed | src/ventilation/ach_calculator.py:340-364 | the loop over the spaces cuts to 70% exactly the rates of spaces with a closed opening on some path, once each, and copies the rest |
| Ventilation.AchCalculator.UpdateAchForOpeningState | src/ventilation/ach_calculator.py:329-364 | returns the copy of the rates with each affected space cut once to 70%; the calculator's own rates are not changed |
| Ventilation.AchCategory | src/ventilation/ach_calculator.py:366-381 | `high` exactly from `medium_ach_range[1]` up, `medium` exactly from `low_ach_range[1]` below that, and `low` exactly below both |
| Ventilation.AchCalculator.constructor | src/ventilation/ach_calculator.py:29-44 | the configured parameters, and no rates or paths yet |
| Openings.Opening.constructor | src/space_analysis/opening_detector.py:155-169 | a new opening record for one cluster: empty ID, type `unknown`, no endpoints, state `open`, and the cluster's voxels and measured features |
| OpeningDetection.NearestSqDist | src/space_analysis/opening_detector.py:187-200 | the nearest-voxel query: none exactly when the other space has no voxel, otherwise a squared distance attained by some voxel and at most that of every voxel |
| OpeningDetection.UnitDistanceIsFaceAdjacent | src/space_analysis/opening_detector.py:194 | integer voxels at distance 1 are exactly the voxels that share a face |
| OpeningDetection.NearestAtOneMeaning | src/space_analysis/opening_detector.py:193-195 | a voxel's nearest voxel of the other space is at distance 1 exactly when no voxel of it coincides with this one and some voxel of it shares a face with this one |
| OpeningDetection.BoundaryMembers | src/space_analysis/opening_detector.py:191-195 | the kept voxels are exactly those whose nearest neighbour is at distance 1 |
| OpeningDetection.BoundaryVoxels | src/space_analysis/opening_detector.py:191-201 | one pass over a space keeps exactly its boundary voxels, in order |
| OpeningDetection.FindSpaceInterface | src/space_analysis/opening_detector.py:175-213 | the interface is space 1's boundary voxels followed by space 2's |
| OpeningDetection.InterfaceMembers | src/space_analysis/opening_detector.py:175-213 | a voxel is on the interface exactly when it belongs to one space and its nearest voxel of the other is at distance 1 |
| OpeningDetection.ClusterOfMembers | src/space_analysis/opening_detector.py:246 | a cluster holds exactly the voxels carrying its label |
| OpeningDetection.ClustersFacts | src/space_analysis/opening_detector.py:225-252 | no voxels give no clusters; every kept cluster has at least 3 voxels of one non-noise label; every label with at least 3 voxels gives a cluster; noise (-1) is never kept |
| OpeningDetection.ClusterInterfaceVoxels | src/space_analysis/opening_detector.py:215-252 | the label loop keeps exactly those clusters |
| OpeningDetection.Classify | src/space_analysis/opening_detector.py:265-276 | the type is one of the three; `standard_door` when small and tall; `wide_door` exactly when that rule fails and the area is within the wide limit with width below 3; `passage` exactly when both fail and the area exceeds the wide limit or the aspect ratio reaches the passage ratio |
| OpeningDetection.LargeIsPassage | src/space_analysis/opening_detector.py:265-276 | with ordered limits, an area above the wide limit always gives `passage`, and a narrow opening within it a door type |
| OpeningDetection.DoorNames | src/space_analysis/opening_detector.py:295 | of the three types, exactly the two door types contain `door` |
| OpeningDetection.Classified | src/space_analysis/opening_detector.py:258-276 | classification changes only the type, and it is the decision table's type for the measured features |
| OpeningDetection.ClassifyEach | src/space_analysis/opening_detector.py:258-276 | the loop classifies every opening in place |
| OpeningDetection.OpeningDetector.ClassifyOpenings | src/space_analysis/opening_detector.py:254-276 | every opening gets the type the decision table gives and nothing else changes |
| OpeningDetection.DoorOpened | src/space_analysis/opening_detector.py:295-296 | an opening whose type contains `door` is set open; any other is unchanged |
| OpeningDetection.DoorsOpened | src/space_analysis/opening_detector.py:294-296 | every opening is treated by that rule, in order |
| OpeningDetection.OpenDoors | src/space_analysis/opening_detector.py:294-296 | the loop opens every door in place |
| OpeningDetection.OpeningDetector.DetectDoorStates | src/space_analysis/opening_detector.py:278-296 | no voxel grid changes nothing; otherwise exactly the doors are set open |
| OpeningDetection.FindSpaceMeaning | src/space_analysis/opening_detector.py:83-84 | `next(...)` finds nothing exactly when no space has the ID, and otherwise the first one that has it |
| OpeningDetection.Detect | src/space_analysis/opening_detector.py:144-171 | one opening per cluster, in order, joining the two spaces, with the cluster's measured features |
| OpeningDetection.DetectClusters | src/space_analysis/opening_detector.py:144-173 | the cluster loop builds those openings |
| OpeningDetection.DetectBetween | src/space_analysis/opening_detector.py:112-173 | `_detect_openings_between_spaces`: the openings of the clusters of the two spaces' interface |
| OpeningDetection.DetectEdge | src/space_analysis/opening_detector.py:83-89 | an edge naming a space that is not listed fails (StopIteration); otherwise it yields the openings between its two spaces |
| OpeningDetection.Detections | src/space_analysis/opening_detector.py:81-96 | the search over the edges fails exactly when some edge names a space that is not listed |
| OpeningDetection.FirstMissing | src/space_analysis/opening_detector.py:81-96 | the first edge naming a space that is not listed, every edge before it naming listed spaces; the edge count exactly when there is none |
| OpeningDetection.DetectAll | src/space_analysis/opening_detector.py:81-96 | the edge loop fails exactly when some edge names a missing space, keeping the openings of the edges before the first such edge; otherwise it collects every edge's openings in order |
| OpeningDetection.OpeningIdsDistinct | src/space_analysis/opening_detector.py:94 | `opening_{n:03d}` IDs are equal exactly when the numbers are |
| OpeningDetection.NewOpening | src/space_analysis/opening_detector.py:93-96 | a new opening object with the next ID and the edge's two spaces as `connects` |
| OpeningDetection.NewOpenings | src/space_analysis/opening_detector.py:92-96 | the openings of one edge are new distinct objects numbered consecutively from the running count |
| OpeningDetection.AppendOpening | src/space_analysis/opening_detector.py:96 | appending adds one new opening and keeps the list's earlier entries and its distinctness |
| OpeningDetection.DetectNumbered | src/space_analysis/opening_detector.py:79-96 | IDs run `opening_001`, `opening_002`, … across all edges in order, or across the edges before the first missing space, each opening on new objects |
| OpeningDetection.DetectedRecordsFacts | src/space_analysis/opening_detector.py:79-101 | the `k`-th opening has ID `opening_{k+1:03d}`, joins its edge's two spaces, is open, keeps its cluster's voxels and area, and has the decision table's type |
| OpeningDetection.DetectAndClassify | src/space_analysis/opening_detector.py:79-101 | the openings of all edges, numbered from 1 and classified; failing exactly on a missing space, with the unclassified openings of the edges before it |
| OpeningDetection.DetectOpeningsIn | src/space_analysis/opening_detector.py:67-101 | no grid or no spaces give an empty list; otherwise it succeeds exactly when every edge names listed spaces, with the numbered, classified openings; StopIteration leaves the numbered, unclassified openings of the edges before the first missing space |
| OpeningDetection.OpeningDetector.DetectOpenings | src/space_analysis/opening_detector.py:50-110 | the stored list is emptied first; no grid or no spaces leave it empty; otherwise it becomes the numbered, classified openings of every edge, or, when `next` raises StopIteration, the numbered, unclassified openings of the edges before the first one naming an unlisted space |
| OpeningDetection.NamingMeaning | src/space_analysis/opening_detector.py:371-374 | the positions the comprehension keeps are ascending and are exactly those whose `connects` contains the space ID |
| OpeningDetection.ForSpace | src/space_analysis/opening_detector.py:371-374 | the `k`-th opening listed is the opening at the `k`-th position naming the space, so the result is exactly the openings naming it, each once and in their original order |
| OpeningDetection.OpeningDetector.OpeningsForSpace | src/space_analysis/opening_detector.py:361-374 | `get_openings_for_space` returns the stored openings that name the space, each once and in their stored order |
| OpeningDetection.Connectivity | src/space_analysis/opening_detector.py:383-408 | the graph is built exactly when every opening names two spaces |
| OpeningDetection.ConnectivityFails | src/space_analysis/opening_detector.py:387 | an opening that does not name exactly two spaces makes the unpacking raise ValueError |
| OpeningDetection.ConnectivityNodes | src/space_analysis/opening_detector.py:386-406 | the graph is well formed and its nodes are exactly the spaces the openings name |
| OpeningDetection.ConnectivityEdges | src/space_analysis/opening_detector.py:386-406 | a pair is an edge exactly when some opening joins it; its `openings` are the IDs of those openings in order, its `count` their number and its `type` the first one's type |
| OpeningDetection.OpeningDetector.ConnectivityGraph | src/space_analysis/opening_detector.py:376-408 | the loop over the openings builds exactly that graph, or fails as above |
| OpeningDetection.OpeningDetector.constructor | src/space_analysis/opening_detector.py:34-47 | the configured limits and no openings yet |
| SpaceDataOutput.PathsOfMeaning | src/data_output/space_data_generator.py:162 | `ventilation_paths.get(id, [])`: no paths for a space without an entry, otherwise the paths of its entry |
| SpaceDataOutput.InfoOf | src/data_output/space_data_generator.py:161-171 | no ventilation info exactly when there are no paths; otherwise `primaryPath` copies the first path's route, via and length, and `pathCount` is the number of paths |
| SpaceDataOutput.ProcessSpace | src/data_output/space_data_generator.py:152-187 | one processed space: its ID, no connections yet, its rate or 0, no ventilation info exactly when it has no paths, otherwise `primaryPath` is the route, via and length of its first path and `pathCount` is their number; type, volume and bounding box fall back to `unknown`, 0 and the origin |
| SpaceDataOutput.ProcessSpaces | src/data_output/space_data_generator.py:149-191 | succeeds exactly when every space has an `id` (otherwise KeyError), with one processed space per input space, in order |
| SpaceDataOutput.Inverses | src/data_output/space_data_generator.py:249-253 | each raw contribution times `weight + 0.1` is 1 |
| SpaceDataOutput.Contributions | src/data_output/space_data_generator.py:256 | one normalised share per path when the total is positive, none otherwise |
| SpaceDataOutput.Zip | src/data_output/space_data_generator.py:259 | `zip` stops at the shorter list |
| SpaceDataOutput.PathContributions | src/data_output/space_data_generator.py:246-253 | the loop fails exactly on a weight of -0.1 (ZeroDivisionError); otherwise it yields the raw contributions and their sum |
| SpaceDataOutput.ZipPaths | src/data_output/space_data_generator.py:259-264 | the loop pairs each path's route and via with its share, as `zip` does |
| SpaceDataOutput.SpacePaths | src/data_output/space_data_generator.py:243-264 | one space's output paths are its paths with their normalised shares, or a division by zero |
| SpaceDataOutput.ProcessVentilationPaths | src/data_output/space_data_generator.py:239-273 | the loop over the path table yields the reference result: an error exactly when some weight is -0.1, and otherwise the kept entries |
| SpaceDataOutput.EntriesMeaning | src/data_output/space_data_generator.py:241-271 | the output lists exactly the table's entries whose paths are kept, in order, each with its paths zipped with their shares |
| SpaceDataOutput.EntriesListKept | src/data_output/space_data_generator.py:256-271 | a space is listed exactly when one of its entries has raw contributions with a positive total |
| SpaceDataOutput.EmptyNotKept | src/data_output/space_data_generator.py:256-267 | a space with an empty path list is omitted |
| SpaceDataOutput.EntryPathsInOrder | src/data_output/space_data_generator.py:259-271 | every listed path keeps its route and via, in input order, with its normalised share |
| SpaceDataOutput.ContributionsSumToOne | src/data_output/space_data_generator.py:251-256 | with weights above -0.1 and at least one path, each share lies in (0, 1] and the shares add up to 1 |
| SpaceDataOutput.ContributionResistance | src/data_output/space_data_generator.py:251-256 | share times `weight + 0.1` is the same for every path: one over the total |
| SpaceDataOutput.ContributionOrder | src/data_output/space_data_generator.py:251-256 | a lighter path gets the larger share, and only a lighter one |
| SpaceDataOutput.ProcessOpening | src/data_output/space_data_generator.py:207-214 | one processed opening: its ID and `connects`, with type, position, area and state falling back to `unknown`, the origin, 0 and `open` |
| SpaceDataOutput.ProcessOpeningsAsWritten | src/data_output/space_data_generator.py:203-227 | as written: it succeeds exactly when no opening lacks an `id` or names a space, and otherwise fails at the first such opening with KeyError or TypeError |
| SpaceDataOutput.DoorRaisesAsWritten | src/data_output/space_data_generator.py:219-221 | a single door between two spaces already raises TypeError |
| SpaceDataOutput.FirstWithId | src/data_output/space_data_generator.py:221-225 | the inner loop's `break`: none exactly when no space has the ID, otherwise the first that has it |
| SpaceDataOutput.FindSpace | src/data_output/space_data_generator.py:221-225 | the search loop stops at that first space |
| SpaceDataOutput.LinkOpening | src/data_output/space_data_generator.py:219-225 | the loop over one opening's `connects` appends its ID to each named space not already holding it |
| SpaceDataOutput.ProcessOpenings | src/data_output/space_data_generator.py:203-227 | corrected: the openings in order and the processed spaces with their connections filled in, failing only on a missing `id` |
| SpaceDataOutput.LinkOpeningsMeaning | src/data_output/space_data_generator.py:219-225 | only connections change, old ones stay, no ID is added twice, and an ID is added exactly to the first space of each ID that an opening with that ID names |
| SpaceDataOutput.DoorLinksBothSpaces | src/data_output/space_data_generator.py:219-225 | corrected, the same door appears in both spaces' connections |
| SpaceDataOutput.CheckConnects | src/data_output/space_data_generator.py:438-441 | the innermost loop reports each named space that is neither known nor exterior |
| SpaceDataOutput.CheckSpaces | src/data_output/space_data_generator.py:396-420 | the space loop produces the reference scan's errors, warnings and collected IDs |
| SpaceDataOutput.CheckConnections | src/data_output/space_data_generator.py:423-441 | the connection loop produces the reference scan's errors |
| SpaceDataOutput.ValidateSpaceData | src/data_output/space_data_generator.py:392-448 | the report is the reference one, and `is_valid` holds exactly when there is no error |
| SpaceDataOutput.SpaceIdsCollected | src/data_output/space_data_generator.py:397-408 | `space_ids` ends up holding the ID of every space that has one |
| SpaceDataOutput.ReportErrors | src/data_output/space_data_generator.py:392-448 | the errors are exactly those of the spaces, then those of the connections |
| SpaceDataOutput.SpaceErrorsReported | src/data_output/space_data_generator.py:401-408 | `space without ID` is reported exactly when some space lacks one, a duplicate ID exactly when two spaces share it |
| SpaceDataOutput.ConnectionErrorsReported | src/data_output/space_data_generator.py:428-441 | the same for connections, and an unknown space is reported exactly when a connection names it and it is neither a space ID nor exterior |
| SpaceDataOutput.WarningsReported | src/data_output/space_data_generator.py:411-420 | a volume warning exactly for a volume at or below 0, an ACH warning exactly for a rate below 0 or above 20 |
| SpaceDataOutput.ValidIff | src/data_output/space_data_generator.py:444-448 | `is_valid` holds exactly for a consistent data set: IDs present and unique, every named space known or exterior |
| SpaceDataOutput.ValidityIgnoresWarnings | src/data_output/space_data_generator.py:409-447 | volumes and rates never change validity |
| SpaceDataOutput.BoxVertices | src/data_output/space_data_generator.py:295-304 | 8 vertices, vertex `k` taking x, y, z from max exactly where bits 0, 1, 2 of `k` are set; the first is the min, the last the max |
| SpaceDataOutput.CubeFaces | src/data_output/space_data_generator.py:307-314 | 6 faces: bottom and top, front and back, left and right, each the 4 vertices at one end of one axis |
| SpaceDataOutput.SimplifiedGeometry | src/data_output/space_data_generator.py:285-323 | the geometry exists exactly when every space has an `id`, a space without one raising KeyError; it holds at most one box per space |
| SpaceDataOutput.GeometryKeys | src/data_output/space_data_generator.py:285-323 | its keys are exactly the spaces' IDs |
| SpaceDataOutput.GeometryLastWins | src/data_output/space_data_generator.py:317-321 | an ID maps to the box of the last space carrying it |
| SpaceDataOutput.VisualBoxesCollapse | src/data_output/space_data_generator.py:350-362 | as written, every exported box collapses to the origin, whatever the bounding boxes |
| SpaceDataOutput.RoomExportedAtOrigin | src/data_output/space_data_generator.py:350-362 | the room from (0, 0, 0) to (10, 10, 6) is exported at the origin; read from `boundingBox` it reaches (10, 10, 6) |
| SpaceDataOutput.VisualBoxesSpanBoundingBox | src/data_output/space_data_generator.py:350-362 | corrected, each exported box spans its space's bounding box |
| Config.Contents | src/config.py:20-72 | a map of section objects and its contents have the same section names |
| Config.Materialize | src/config.py:20-72 | fresh, pairwise distinct section objects holding the given contents |
| Config.MakeDefaults | src/config.py:20-72 | `DEFAULT_CONFIG`: fresh, distinct sections holding the default values |
| Config.CopySections | src/config.py:85 | a deep copy: fresh, distinct sections with the same entries |
| Config.MergeMeaning | src/config.py:190-194 | a key is in the merge exactly when it is in the target or the source; target-only keys keep their values; a dict meeting a dict is merged recursively; any other source value overwrites |
| Config.MergeCovers | src/config.py:182-194 | after the merge the target holds everything the source says |
| Config.MergeIdempotent | src/config.py:190-194 | merging the same source twice gives what merging it once gave |
| Config.MergeSelf | src/config.py:190-194 | merging a dict into itself changes nothing |
| Config.MergeIntoEmpty | src/config.py:190-194 | merging into an empty dict yields the source |
| Config.MergeNothing | src/config.py:190-194 | merging an empty source keeps the target |
| Config.MergeStep | src/config.py:190-194 | handling one more source key extends the partial merge by that key |
| Config.UpdateRecursive | src/config.py:182-194 | the key loop leaves the section holding the recursive merge of its old entries with the source |
| Config.Config.constructor | src/config.py:78-86 | as written: `DEFAULT_CONFIG.copy()` copies only the top-level map, so the configuration's sections are the defaults' own objects |
| Config.Config.Isolated | src/config.py:78-86 | corrected: sections of its own, fresh, holding the defaults' contents |
| Config.Config.Get | src/config.py:134-156 | nothing exactly when the section is missing or the given key is missing from it; the whole section exactly when no key is given; otherwise the stored value |
| Config.Config.Set | src/config.py:158-171 | the section is created empty when absent, the key then reads back as the value, and no other section or key changes |
| Config.Config.GetAll | src/config.py:173-180 | a copy of the top-level map with the same keys whose sections are the configuration's own objects |
| Config.SetLeaksIntoDefaults | src/config.py:85 | as written, `set("voxelization", "base_voxel_size", 0.75)` rewrites the defaults too |
| Config.SetKeepsDefaults | src/config.py:167-170 | with its own sections, the same `set` reads back 0.75 and leaves the defaults untouched |
| Config.Registry.constructor | src/config.py:205 | no instance exists before the first call |
| Config.Registry.GetConfig | src/config.py:207-220 | as written: the first call creates the instance with the given path, its sections the defaults' own objects; every later call returns that same instance and ignores its path |
| Config.GetConfigTwice | src/config.py:207-220 | two calls give one object, configured by the first call's path |
| GeometryUtils.VoxelizePoints | src/utils/geometry_utils.py:207-233 | every point index lies in the bucket of its voxel (floor of coordinate over size), buckets list indices in ascending order, each voxel appears once in insertion order, and each centre is its voxel's index times the size plus half a voxel |
| GeometryUtils.AddPoint | src/utils/geometry_utils.py:223-228 | one step of the loop: point `i` is appended to its voxel's bucket, which is created when new |
| GeometryUtils.OneBucketPerPoint | src/utils/geometry_utils.py:219-228 | a point index lies in a bucket exactly when that bucket is its own voxel's, and no voxel is listed twice |
| GeometryUtils.PointInsideItsVoxel | src/utils/geometry_utils.py:219-231 | a point lies in the half-open cube of its voxel on every axis |
| GeometryUtils.Span | src/utils/geometry_utils.py:367-373 | `max - min` is non-negative and bounds every difference of two values |
| GeometryUtils.Oriented | src/utils/geometry_utils.py:376-377 | after the swap the width is at least the height, and the pair is the same two values |
| GeometryUtils.AspectRatio | src/utils/geometry_utils.py:380 | with a positive height, the ratio times the height is the width (so at least 1 once oriented); otherwise 0 |
| GeometryUtils.Circularity | src/utils/geometry_utils.py:383 | with a positive perimeter, circularity times its square is `4 pi area`; otherwise 0 |
| GeometryUtils.ComputeOpeningFeatures | src/utils/geometry_utils.py:303-390 | fewer than 3 vertices give all-zero features; otherwise the given area and perimeter, `0 <= height <= width` with {width, height} the two spans of the projected outline, and the ratio and circularity above |
| GeometryUtils.RayCasting | src/utils/geometry_utils.py:434-452 | a point is inside exactly when an odd number of rays has an odd intersection count, which by `HitsParity` is when the total count is odd |
| GeometryUtils.HitsParity | src/utils/geometry_utils.py:436-452 | the total of the counts is odd exactly when an odd number of them are odd |
| GeometryUtils.StructureRank | src/utils/geometry_utils.py:467-477 | connectivity 6, 18 and 26 are accepted; any other value raises ValueError |
| GeometryUtils.StructureMatchesConnectivity | src/utils/geometry_utils.py:467-475 | the structuring element chosen for 6, 18 or 26 has exactly that many neighbours |
| GeometryUtils.Offset | src/utils/geometry_utils.py:584-586 | each step of the nested loops visits an offset with every component in {-1, 0, 1} |
| GeometryUtils.OffsetIndex | src/utils/geometry_utils.py:584-588 | every such offset is visited at exactly one step, and that step is the skipped centre exactly for (0, 0, 0) |
| GeometryUtils.NeighbourDistance | src/utils/geometry_utils.py:598 | the squared length of a neighbour offset is symmetric and lies between 1 and 3 |
| GeometryUtils.FirstIndex | src/utils/geometry_utils.py:595 | `np.where(...)[0][0]`: the first node at the given voxel |
| GeometryUtils.NeighboursStep | src/utils/geometry_utils.py:582-601 | every neighbouring pair of skeleton voxels is reached by the loops |
| GeometryUtils.CreateGraphFromSkeleton | src/utils/geometry_utils.py:565-603 | node `i` is the `i`-th skeleton voxel with position `origin + coord * size`; the edges are exactly the pairs of distinct voxels touching under 26-connectivity, each weighted by its length |
| GeometryUtils.SkeletonEdgeIff | src/utils/geometry_utils.py:582-601 | edges are undirected, join `a` and `b` exactly when they are distinct touching voxels, and span a squared distance of 1 to 3 |
| GeometryUtils.ClassOf | src/utils/geometry_utils.py:619-629 | degree 1 is an endpoint, above 2 a junction, and 0 or 2 a passage point |
| GeometryUtils.ClassifySkeletonPoints | src/utils/geometry_utils.py:606-631 | one label per node, each the label of its degree |
| GeometryUtils.SpecialPoints | src/utils/geometry_utils.py:646-647 | exactly the junctions and endpoints, in node order |
| GeometryUtils.ContainsOtherJunction | src/utils/geometry_utils.py:661-665 | the scan finds a junction exactly when `path[1:-1]` holds one |
| GeometryUtils.PathsFromStart | src/utils/geometry_utils.py:655-668 | the inner loop keeps the routes of one start with every later special point |
| GeometryUtils.ExtractPathsBetweenJunctions | src/utils/geometry_utils.py:634-670 | the paths are the reference selection over every pair of special points, in order |
| GeometryUtils.SortedConcat | src/utils/geometry_utils.py:654-655 | pairs of one start followed by pairs of later starts stay in lexicographic order |
| GeometryUtils.AscendingPairs | src/utils/geometry_utils.py:654-655 | in an ascending list, the pairs enumerated are exactly the ascending pairs of its members |
| GeometryUtils.PairsConsideredOnce | src/utils/geometry_utils.py:654-655 | every unordered pair of distinct special points is considered once, as (earlier, later) |
| GeometryUtils.ExtractedPaths | src/utils/geometry_utils.py:654-668 | a path is extracted exactly when it is the route between two special points and no junction lies strictly inside it |
| Voxelization.Ceil | src/model_processing/voxelizer.py:114 | `ceil(x)`: the least integer at or above `x` |
| Voxelization.GridCoversBox | src/model_processing/voxelizer.py:111-114 | the grid shape covers the bounding box on every axis with less than one voxel to spare |
| Voxelization.OctreeFallback | src/model_processing/voxelizer.py:120-125 | the octree is chosen exactly when the estimate (cells × 3 × 8 bytes) exceeds 80% of the available memory or the configured maximum, and it stays chosen when either bound gets lower |
| Voxelization.RefinementVoxels | src/model_processing/voxelizer.py:149-154 | a voxel is refined exactly when some refinement point falls in it and it lies inside the grid |
| Voxelization.Voxelizer.constructor | src/model_processing/voxelizer.py:60-80 | the configured voxel sizes, and no grids yet |
| Voxelization.Voxelizer.InitGrids | src/model_processing/voxelizer.py:106-131 | fresh grids of the given shape with the origin at the box's low corner: every voxel empty and of the base size |
| Voxelization.Linspace | src/model_processing/voxelizer.py:326-328 | `np.linspace`: `n` values starting at `start`, evenly spaced up to `stop` |
| Voxelization.LinspaceBetween | src/model_processing/voxelizer.py:326-328 | with `start <= stop`, every value lies between them |
| Voxelization.MeshPoints | src/model_processing/voxelizer.py:330-331 | the flattened `meshgrid` has one point per combination of axis values |
| Voxelization.MeshPointAt | src/model_processing/voxelizer.py:330-331 | every mesh point takes its coordinates from the three axes |
| Voxelization.SampleAxis | src/model_processing/voxelizer.py:313-328 | one sample per subdivision step on each axis |
| Voxelization.SamplesInsideVoxel | src/model_processing/voxelizer.py:322-331 | every sample point of a voxel lies inside that voxel |
| Voxelization.ContainsAll | src/model_processing/voxelizer.py:334 | `mesh.contains` answers for each point in turn |
| Voxelization.Voxelizer.RefineRegions | src/model_processing/voxelizer.py:302-345 | a voxel's size becomes the minimum exactly when it is a refinement voxel that is occupied and whose samples are partly but not wholly inside the mesh; every other size stays, and the occupancy grid is untouched |
| Voxelization.CornersInside | src/model_processing/voxelizer.py:416-432 | `mesh.contains` for the 8 corners of the node, in the order of the corner table |
| Voxelization.BuildChildren | src/model_processing/voxelizer.py:445-470 | the first `n` children of a subdivided node, one per octant |
| Voxelization.BuildChild | src/model_processing/voxelizer.py:457-470 | a child exists only below the depth limit, and child `k` is the tree built from octant `k` at half the size, one level down, unoccupied at first |
| Voxelization.BuildFollowsRules | src/model_processing/voxelizer.py:400-470 | every node of a built tree obeys the rule: at the limit a leaf keeping its occupancy; all or no corners inside a leaf occupied exactly when some are; otherwise an occupied inner node with 8 children |
| Voxelization.BuildDepthBounded | src/model_processing/voxelizer.py:410-463 | a tree built within the depth limit never grows deeper than it |
| Voxelization.PreOrder | src/model_processing/voxelizer.py:501-503 | the pre-order listing starts with the node itself |
| Voxelization.OccupiedLeaves | src/model_processing/voxelizer.py:494-500 | at most one voxel per node |
| Voxelization.LeafVoxelsInPreOrder | src/model_processing/voxelizer.py:486-503 | in a tree whose leaves have no children, the collected voxels are exactly its occupied leaves in pre-order |
| Voxelization.LeafVoxelsWithinDepth | src/model_processing/voxelizer.py:486-503 | no collected voxel lies deeper than the depth limit |
| Voxelization.OctreeNode.constructor | src/model_processing/voxelizer.py:45-55 | a node with the given centre, size, level and flags and no children |
| Voxelization.BuildOctree | src/model_processing/voxelizer.py:400-470 | `_build_octree` grows the node in place into the tree the subdivision rule builds from its centre, size, level and initial occupancy |
| Voxelization.AddChild | src/model_processing/voxelizer.py:457-470 | one turn of the child loop appends the next child, built, and leaves the node's own fields alone |
| Voxelization.CollectLeafVoxels | src/model_processing/voxelizer.py:486-503 | appends to the list exactly the voxels of the subtree's occupied leaves, children in order |
| Voxelization.OctreeToVoxels | src/model_processing/voxelizer.py:472-484 | the voxels of the whole tree's occupied leaves |
| Voxelization.RootHalfSize | src/model_processing/voxelizer.py:367-371 | the root cube's edge is at least every extent of the box and equal to one of them |
| Voxelization.VoxelizeOctree | src/model_processing/voxelizer.py:352-398 | a fresh root around the box's centre, of half its largest extent, occupied at level 0, built by the rule; the voxels are its occupied leaves |
| Voxelization.OctreeVoxels | src/model_processing/voxelizer.py:374-387 | the octree's voxels are the built tree's occupied leaves in pre-order, none deeper than the depth limit |
| FormatParsing.LastIndexOf | api/src/model_processing/format_parser.py:88 | `rfind`: -1 or a position holding the character, with none after it |
| FormatParsing.NoneAfterLast | api/src/model_processing/format_parser.py:88 | nothing after the last occurrence is that character |
| FormatParsing.SplitExtJoin | api/src/model_processing/format_parser.py:88 | `os.path.splitext` puts the path back together |
| FormatParsing.SplitExtShape | api/src/model_processing/format_parser.py:88 | a non-empty extension is one dot followed by neither a dot nor a separator |
| FormatParsing.SplitExtStem | api/src/model_processing/format_parser.py:88 | before a non-empty extension the last component holds something other than dots (a leading-dot name has no extension) |
| FormatParsing.Basename | api/src/model_processing/format_parser.py:102 | `os.path.basename` is a suffix of the path without a separator, preceded by a separator unless it is the whole path: exactly the part after the last separator |
| FormatParsing.ParseFile | api/src/model_processing/format_parser.py:73-108 | a missing file raises FileNotFoundError first; an extension outside the table raises ValueError; otherwise the table's parser runs, its failure is passed on, and its result gains the path, base name, size and the extension without its dot as format |
| FormatParsing.SharedParsers | api/src/model_processing/format_parser.py:63-71 | seven extensions, of which `.step`/`.stp` share the STEP parser and `.iges`/`.igs` the IGES parser, and no others do |
| FormatParsing.ParsedFormat | api/src/model_processing/format_parser.py:88-103 | a parsed file's format is one of the seven extensions without its dot, matched whatever the case of its letters |
| FormatParsing.ExtensionIgnoresCase | api/src/model_processing/format_parser.py:88 | changing the case of letters in the path leaves the looked-up extension alone |
| FormatParsing.Category | api/src/model_processing/format_parser.py:393-400 | a line without `=` counts for nothing; any other counts for at most one of space, door, window and wall |
| FormatParsing.CountOf | api/src/model_processing/format_parser.py:392-400 | a category is counted at most once per line |
| FormatParsing.Examined | api/src/model_processing/format_parser.py:389-390 | the first thousand lines are read, or all of a shorter file |
| FormatParsing.ExtractStepSemantics | api/src/model_processing/format_parser.py:376-404 | an unreadable file gives no entities; otherwise a category is present exactly when some examined line counts for it, with that number of lines |
| FormatParsing.CountsBounded | api/src/model_processing/format_parser.py:392-400 | the four counts add up to at most the number of lines, and no other category is ever counted |
| FormatParsing.SemanticsBounded | api/src/model_processing/format_parser.py:389-400 | all counts together never exceed 1000 |
| FormatParsing.CategoryIgnoresCase | api/src/model_processing/format_parser.py:393-400 | the category of a line does not depend on the case of its letters |
| FormatParsing.ExportWriter | api/src/model_processing/format_parser.py:466-488 | the lower-cased format must be stl, step or iges, else ValueError; stl writes ASCII and step uses the AP203 schema |
| FormatParsing.ExportNarrowerThanParse | api/src/model_processing/format_parser.py:466-488 | `stp` and `igs` are read but not written, while `STEP` and `Stl` are written |
| Graphs.AddNode | api/src/ventilation/topology_builder.py:64-86 | `add_node` adds the node once and leaves the edges and well-formedness alone |
| Graphs.AddEdge | api/src/ventilation/topology_builder.py:141-147 | `add_edge` sets the pair's attributes and adds missing endpoints, keeping the graph well formed |
| Graphs.ReachableFrom | api/src/ventilation/topology_builder.py:259 | the search collects exactly the nodes reachable from the start |
| Graphs.HasPath | api/src/ventilation/topology_builder.py:259 | `nx.has_path` holds exactly when the two nodes are joined by a path |
| Graphs.ReachSetIsComponent | api/src/ventilation/topology_builder.py:199 | the set reached from a node is a connected component holding it |
| Graphs.ComponentsMeet | api/src/ventilation/topology_builder.py:199 | two components that share a node are one and the same |
| Graphs.ConnectedComponents | api/src/space_analysis/space_detector.py:363 | `nx.connected_components`: pairwise disjoint components covering every node, none for an empty graph |
| Graphs.ComponentOf | api/src/ventilation/topology_builder.py:199 | every node lies in one of the components found |
| Strings.Format03Value | api/src/space_analysis/space_detector.py:116 | `{n:03d}` denotes the counter itself |
| Strings.Format03Injective | src/space_analysis/opening_detector.py:94 | distinct counters give distinct `{n:03d}` texts |
| Strings.PrefixedCounterInjective | api/src/space_analysis/space_detector.py:116 | a fixed prefix followed by the formatted counter identifies the counter, so generated IDs never collide |
| Strings.ToLower | api/src/model_processing/format_parser.py:88 | `lower()` maps each ASCII letter to its lower case and keeps the length |
| Strings.ToUpper | api/src/model_processing/format_parser.py:393 | `upper()` maps each ASCII letter to its upper case and keeps the length |
| Sorting.InsertKeepsOrder | api/src/ventilation/topology_builder.py:326 | one insertion step places the new item after every item with its key, so each key's items keep their order |
| Sorting.SortBy | api/src/ventilation/topology_builder.py:326 | `sort(key=...)`: a permutation of the input in ascending key order, and stable: for every key, the items with that key appear in their input order |
| Sorting.WithNegatedKey | api/src/ventilation/topology_builder.py:414 | negating both the key and the value picks out the same items in the same order |
| Sorting.SortByDescending | api/src/ventilation/topology_builder.py:414 | `sorted(..., reverse=True)`: a permutation in descending key order, and stable as Python's reverse sort is: for every key, the items with that key appear in their input order |
| Sorting.TopRanked | api/src/ventilation/topology_builder.py:414-418 | the first `n` of that order hold every element ranked above one left out |

## Left out

- Foreign CAD and mesh libraries are not modelled: OpenCASCADE shape conversion, shape properties and distances, ray intersections, and the bodies of the STEP, IGES, STL, OBJ and IFC parsers. A parser is a function parameter of `FormatParsing.ParseFile`, and `mesh.contains` is a function parameter of the voxelizer.
- Numeric library routines are inputs, because they are floating-point numerics from libraries outside this model:
  - component labelling, including the 18- and 26-connected structures;
  - DBSCAN cluster labels and KD-tree queries (stated by their meaning, the least distance);
  - ConvexHull, PCA and curvature, so the outline's spans, area and perimeter are inputs;
  - networkx betweenness and closeness;
  - simple and shortest paths, stated by the properties the back end relies on (routes along edges from the space to the exterior, at most 6 edges, no repeated node).
- `extract_opening_features` (src/space_analysis/opening_detector.py:298-359) is not modelled, because it is numeric geometry. The features of a cluster are given.
- `Ventilation.SpaceAch`: the area factor `total_opening_area ** opening_influence` is a real power, so it is an uninterpreted function parameter. Only its use in the weighting is modelled.
- Nondeterminism is not modelled:
  - the random subsampling of boundary seeds is an arbitrary subset, at most `max_seed_points` long;
  - the uuid-based merged IDs come from a `freshId` parameter. `SpaceDetection.SpaceDetector.MergeFragmentedSpaces` requires that parameter to give IDs that are distinct from each other and from the existing ones.
- `Voxelization.Voxelizer.constructor` requires positive voxel sizes, and `Voxelization.RefinementVoxels` and `GeometryUtils.VoxelizePoints` require a positive voxel size. With a size of 0 the Python code does not produce a usable result, and that path is not modelled. At src/model_processing/voxelizer.py:313, `int(self.base_voxel_size / self.min_voxel_size)` raises ZeroDivisionError. The numpy divisions at src/utils/geometry_utils.py:219 and src/model_processing/voxelizer.py:114 and 152 do not raise; they yield inf or nan with a warning, and the indices computed from them are meaningless.
- `Voxelization.Voxelizer.RefineRegions` requires its refinement voxels inside the grid. `voxelize` only ever passes it such voxels.
- `Voxelization.OctreeFallback` takes the available memory as a parameter instead of probing it with `psutil`. The GPU path and its CUDA source are left out. So is `_voxelize_cpu`, whose per-voxel containment test is a mesh query.
- `Voxelization.BuildOctree` follows the code as written: a node stopped by the depth or size limit keeps the occupancy its constructor gave it. Children start unoccupied, so a limit leaf below the root is never collected, while a root stopped at once is. This is modelled and stated, not corrected.
- `GeometryUtils.CreateGraphFromSkeleton` requires distinct voxel coordinates, which `np.where` always yields.
- `GeometryUtils.RayCasting` takes the per-ray intersection counts as input.
- The remaining body of `find_connected_components`, after the connectivity check, is not modelled.
- `Ventilation.AchCalculator.CalculateAchRates` requires positive edge weights. The topology builder only produces such weights (`1/area`, 10, 1, 2 and their multiples by 10). It also requires the path oracle to meet the properties above.
- `SpaceDetection.SpaceDetector.DetectSpaces` requires non-empty components, as labelling produces.
- `FormatParsing.ParseFile` takes the file's existence and size as inputs. `os.path.abspath` is not modelled, so the path is taken as already absolute.
- `FormatParsing.ExportWriter` does not model `os.makedirs`, which runs before the format check.
- Python's `lower()` and `upper()` are Unicode-aware. The model maps ASCII letters only.
- File, HTTP and CLI plumbing is not modelled: `save_voxel_grid`, `load_voxel_grid`, `save_space_data`, the file writing of `export_for_visualization`, `Config.load_config`, `save_config`, `_ensure_directories`, temporary files, `api/index.py`, `src/main.py`, the import probe, logging and elapsed times.
- `generate_space_data` and `_generate_metadata` are not modelled. They only assemble the processed parts with a timestamp and configuration values.
- `calculate_space_connectivity` and `evaluate_topology_resilience` (api/src/ventilation/topology_builder.py:330-378, 422-476) are not modelled. They only report networkx measures.
- `Topology.AddSpaces`: a space record always has an `id`, so the KeyError that `space["id"]` raises at api/src/ventilation/topology_builder.py:65 and 74 for a space without one is not modelled. The space detector always sets `id` (api/src/space_analysis/space_detector.py:121 and 438).
- `Topology.AddOpeningEdges`: an opening record always has an `id` and a `type`, so the KeyError that `opening["id"]` and `opening["type"]` raise at api/src/ventilation/topology_builder.py:127, 137, 143 and 146 is not modelled. The opening detector always sets both (src/space_analysis/opening_detector.py:94 and 156-157).
- `Topology.BuildGraph`: for the same reasons, it never fails on a space without `id` or an opening without `id` or `type`, where the source raises KeyError.
- `Topology.TopologyBuilder.BuildTopology`: the same KeyError is not modelled. It builds its graph through `BuildGraph` from records that always carry those keys.
- `Ventilation.AchCalculator.CalculateAchRates`: the spaces are given by their IDs, so the KeyError that `space["id"]` raises at src/ventilation/ach_calculator.py:67 and 71 for a space without one is not modelled. "Succeeds exactly when no space raises" refers only to networkx's NodeNotFound.
- `Topology.TopologyBuilder.CalculateTopologyProperties` uses the corrected score of the Findings table. When a maximum is 0 the source raises ZeroDivisionError and this member scores that measure 0. `Topology.ScoresAsWritten` models the raising version.
- `Topology.TopologyBuilder.Install` scores with the corrected score, so it does not raise ZeroDivisionError where `build_topology` does.
- `Topology.TopologyBuilder.BuildTopology` scores with the corrected score. For a model whose openings make no edge, such as one space and no opening, the source raises ZeroDivisionError, while this member succeeds.
- The skeleton edge weight is stated through its square, `dx² + dy² + dz²`, between 1 and 3. The square root is left out.

## Findings

| source | as written | input that shows it | evidently intended | confidence | as-written member | corrected member |
|---|---|---|---|---|---|---|
| src/data_output/space_data_generator.py:219-225 | the inner loop iterates `self._process_spaces`, a bound method, so any opening with a non-empty `connects` raises TypeError | one door with `connects = ["space_001", "space_002"]` | iterate the processed spaces and append the opening ID to each space it connects | not executed | SpaceDataOutput.ProcessOpeningsAsWritten, SpaceDataOutput.DoorRaisesAsWritten | SpaceDataOutput.ProcessOpenings, SpaceDataOutput.LinkOpeningsMeaning, SpaceDataOutput.DoorLinksBothSpaces |
| api/src/ventilation/topology_builder.py:187-191 | the centrality score divides by the largest betweenness, closeness and degree, so it raises ZeroDivisionError whenever one of them is 0 | one space and no opening: every degree is 0 | a zero maximum contributes 0 to the score | not executed | Topology.ScoresAsWritten, Topology.NoOpeningsRaises | Topology.Scores, Topology.ScoreBounds, Topology.ScoresAgree |
| src/config.py:85 | `DEFAULT_CONFIG.copy()` is shallow, so `set` on an existing section rewrites the defaults | `set("voxelization", "base_voxel_size", 0.75)` | a configuration with sections of its own, leaving the defaults untouched | not executed | Config.Config.constructor, Config.SetLeaksIntoDefaults | Config.Config.Isolated, Config.SetKeepsDefaults |
| src/data_output/space_data_generator.py:350-362 | `export_for_visualization` passes processed spaces, which keep their box under `boundingBox`, to a builder reading `bbox_min` and `bbox_max`, so every exported box collapses to the origin | a room from (0, 0, 0) to (10, 10, 6) | boxes spanning each space's bounding box | not executed | SpaceDataOutput.VisualBoxesCollapse, SpaceDataOutput.RoomExportedAtOrigin | SpaceDataOutput.VisualBoxesSpanBoundingBox |
