# Verification of DeltaINT: planning, sketching, routing and telemetry recovery

DeltaINT reduces the cost of in-band network telemetry: switches report a state only when it has changed. The
repository holds the systems it is built into and compared with. This project models their algorithms in Dafny and
proves what they are for. `dafny verify dfyconfig.toml` checks everything.

**Path planning** (`Lists`, `ArcSets`, `Adjacency`, `Dijkstra`, `FarthestPath`, `Graph`, `Euler`, `Splicing`,
`PlannerState`, `EvenComponents`, `FewestTrails`, `PlannerLog`, `Planner`, `Dfls`). `find_path` covers all links of a
network by probe paths that share no link: it splits what is left into components, peels trails between odd nodes, and splices Euler
circuits into paths already queued. A network is a symmetric set of arcs; a trail is a node sequence whose links are
distinct. The main theorem is the contract of `FindPath`: when it succeeds (exactly characterised, connectedness is not
assumed), every link is used once and no split into trails has fewer. A ghost log of its turns says which component
each turn takes and which path it walks there, balanced or not. `hierholzer` removes from the list it iterates; the
model keeps the list iterator's meaning, index 0 and then index 1 of the changed list, and proves that parity makes it
work. `Dfls` does the same for the competing planner and compares the two.

**Topologies** (`RandomTopo`, `SpineLeaf`). The random networks of the planning experiments, for every outcome of the
coins, and the spine-leaf fabric with its ready-made paths.

**Quantile sketch** (`Powers`, `KllSorting`, `KllSketch`, `KllInvariant`, `KllQueries`, `Kll`). The KLL sketch as
classes over the heap, with the random offset left open, lazy and eager. Ghost fields `inserted` and `inherited`
record the inserted items and the error taken over from merged sketches.

**Routing** (`RoutingGraph`, `RoutingTables`, `Routing`). Breadth-first search from each host that never relays over a
host, all equal-cost next hops, path metrics in 64-bit arithmetic, forwarding tables keyed by 32-bit addresses, and
taking a link down.

**State protocol** (`DeltaSwitch`, `DeltaWire`, `DeltaReceiver`, `DeltaProtocol`, `DeltaHistory`,
`DeltaLastHop`). Hash-indexed sketches with eviction on the switches, the variable-length header, and the receiver that fills in what was omitted. A run is any sequence of two
events: a packet of some flow passes one of its hops, or the oldest packet of a flow arrives. Hops of different flows
and of successive packets interleave freely; packets of one flow stay in order and none is lost. The invariant is that an
owned bucket equals what the receiver will know once everything in transit has arrived.

**Source routes** (`Topology`, `Controller`, `SourceRoute`). Port numbers from two loop orders, port lists for paths, and
the 68 bytes that carry them.

**Trace filters** (`TraceFilter`, `TraceShorthand`). Filter expressions as character strings: scanning, bracket
matching, recursive parsing, printing, and the flow and queue shorthands.

**Approximation** (`Approximation`). Latencies rounded to powers and delta suppression, over the reals.

## Notes on the code and its documentation

- The comment of `depth_first_search` assumes a connected graph (`optimal_find_path_balance.py:95`). The code is also
  right on others; its second loop never finds a node (`Stragglers`).
- `judge`, `F2` and `my_path` use degrees measured once per turn (`optimal_find_path_balance.py:347`)
  while `F3` changes the graph. The model measures them at the same point and proves that they are still right for the
  components not yet handled.
- The comment in `dint_receive.py:39` calls the overlap of last-hop fields consistent. `LastHopExact` says when they are
  recovered: exactly when the packet reports the field, or the report of any flow that counts has the same value.
  `LastHopRecovers` is the case of fields that are the same for all flows; `LastHopMixes` gives runs from the initial
  state where the latency, the device number or the egress port is another flow's.
- `trace_filter.hpp:385-391` prints leaves as `[offset]op value`, which the parser never reads (`PrintedFails`). Since a
  filter without a root accepts every trace, the round trip holds exactly for filters that accept every trace
  (`PrintedRoundTrip`). For text with leaves written as base expressions it always holds (`StrParses`).
- `topo_generate.py:56` asks for a multiple of 3 switches. The paths are also right for a remainder of 2; for a remainder
  of 1, beyond a single switch, the last ones lead to a switch that does not exist (`GenSpineLeaf`).

## Preconditions

- The matrix of `FindPath` has rows no longer than itself and a zero diagonal: `add_edge` lists a self-loop once, so that
  the second `remove` of the link fails where it is taken, and on a matrix as `[[1]]` nothing is ever taken and the main
  loop does not end. The matrix need not be symmetric or connected.
- `DFLSPathPlan` takes a symmetric 0/1 matrix with zero diagonal.
- `CalculateRoute` starts without next hops for its host, as after `nextHop.clear()`. Links are up at both ends or at
  none, bandwidths are not 0, and tables are for at most 2^24 nodes, up to which addresses differ.
- `RunsRecover`: routes are fixed, visit no switch twice and have at most 256 hops (the hop number is one byte of the key);
  states fit their fields on the wire. The hash function is any function, reduced modulo the width of the sketch.
- `sscanf` and `sprintf` are parameters: numbers printed are read back (`ReadsBack`).

## Model

| member | source | states |
|---|---|---|
| `Planner.FindPath` | INTPath-DINT/Euler trail-based path planning algorithm/algorithm/optimal_find_path_balance.py:333-389 | For every network matrix without self-loops: a result exists if and only if at most one connected component has links but no odd node (so always on a connected network, where otherwise `path_iden` would find nothing); the result is a set of trails that use every link exactly once, there are half as many as odd nodes, plus one for a component without odd nodes, and no split of the links into trails is smaller; and its turns are the ones of the code: a circuit over the first component without odd nodes, spliced into the first queued path that meets it, or else a pass that peels one path from every component, each path being the one the balanced or the unbalanced planner takes from the links then left |
| `FewestTrails.Bound` | INTPath-DINT/Euler trail-based path planning algorithm/algorithm/optimal_find_path_balance.py:333-389 | Any split of a network into trails has at least (odd nodes)/2 trails, and one more when some component has no odd node |
| `ArcSets.OddNodesBoundTrails` | INTPath-DINT/Euler trail-based path planning algorithm/algorithm/optimal_find_path_balance.py:333-389 | Twice the number of trails of a split is at least the number of odd nodes |
| `EvenComponents.ConnectedIsOneEven` | INTPath-DINT/Euler trail-based path planning algorithm/algorithm/optimal_find_path_balance.py:346-372 | A connected network meets the condition of `FindPath`, and has an even component just when it has links but no odd node: the number of trails is max(1, odd nodes / 2) |
| `Planner.BuildGraph` | INTPath-DINT/Euler trail-based path planning algorithm/algorithm/optimal_find_path_balance.py:336-341 | The graph object has exactly the links of the matrix, in both directions |
| `Planner.Turn` | INTPath-DINT/Euler trail-based path planning algorithm/algorithm/optimal_find_path_balance.py:346-385 | Each turn of the main loop keeps: queue plus remaining links are the network, every queued path is a trail between two odd nodes or the one allowed circuit, each component left meets a queued path; it removes links; it fails only on a network with two components without odd nodes |
| `Planner.SpliceCircuit` | INTPath-DINT/Euler trail-based path planning algorithm/algorithm/optimal_find_path_balance.py:352-364 | A component without odd nodes is walked as a circuit from a node it shares with a queued path, and spliced into it; nothing shared is found exactly when the original network has a second such component |
| `Planner.PeelOne` | INTPath-DINT/Euler trail-based path planning algorithm/algorithm/optimal_find_path_balance.py:373-385 | From a component with odd nodes a trail inside the component between two different odd nodes is taken: with two odd nodes all its links; with more a shortest path between odd nodes, such that balanced no two odd nodes, otherwise no odd node seen from its end, are farther apart; the `break` branch is never reached |
| `Planner.PeelAll` | INTPath-DINT/Euler trail-based path planning algorithm/algorithm/optimal_find_path_balance.py:373-385 | One pass over all components queues one such path from each in order, chosen from the links left by the earlier ones, keeps the bookkeeping with degrees measured before the pass, and ends with every component met by a queued path |
| `Planner.PathIden` | INTPath-DINT/Euler trail-based path planning algorithm/algorithm/optimal_find_path_balance.py:318-323 | The first node of the component that is on a queued path, the first path it is on, and the queue without that path; nothing exactly when no path meets the component |
| `Planner.Verification` | INTPath-DINT/Euler trail-based path planning algorithm/algorithm/optimal_find_path_balance.py:325-331 | A split into trails empties a copy of the network |
| `EvenComponents.CircuitApart` | INTPath-DINT/Euler trail-based path planning algorithm/algorithm/optimal_find_path_balance.py:346-372 | After the first circuit any other component without odd nodes is out of its reach |
| `EvenComponents.SecondEven` | INTPath-DINT/Euler trail-based path planning algorithm/algorithm/optimal_find_path_balance.py:352-353 | A component without odd nodes that no queued path meets is a second one in the original network |
| `EvenComponents.OnlyEven` | INTPath-DINT/Euler trail-based path planning algorithm/algorithm/optimal_find_path_balance.py:346-372 | When all components are met, the network had at most one without odd nodes |
| `PlannerState.QueueTrail` | INTPath-DINT/Euler trail-based path planning algorithm/algorithm/optimal_find_path_balance.py:381-385 | Queueing a trail between two odd nodes keeps the count of paths tied to the odd nodes that remain |
| `PlannerState.QueueSplice` | INTPath-DINT/Euler trail-based path planning algorithm/algorithm/optimal_find_path_balance.py:362-364 | Splicing a circuit into a queued path keeps links, trails and count |
| `Splicing.AddPath` | INTPath-DINT/Euler trail-based path planning algorithm/algorithm/optimal_find_path_balance.py:182-187 | The insertion loop gives the first path up to the shared node, the circuit, and the rest of the first path |
| `Splicing.SpliceTrail` | INTPath-DINT/Euler trail-based path planning algorithm/algorithm/optimal_find_path_balance.py:182-187 | Splicing a circuit into a trail that meets it gives one trail with the links of both and the same ends |
| `Euler.Run` | INTPath-DINT/Euler trail-based path planning algorithm/algorithm/optimal_find_path_balance.py:288-316 | `euler` refuses exactly graphs with more than two odd nodes; otherwise, from whatever node it starts, the walk uses every link within reach of its start exactly once and ends at the other odd node, or at the start when there is none, if and only if the start is odd or no odd node is within its reach; a start that it chooses itself always is |
| `Euler.Hierholzer.Visit` | INTPath-DINT/Euler trail-based path planning algorithm/algorithm/optimal_find_path_balance.py:291-301 | The recursion that removes from the list it iterates appends a trail from the node to its partner over exactly the links within reach, and leaves no link at any node it appended |
| `Euler.Hierholzer.Advance` | INTPath-DINT/Euler trail-based path planning algorithm/algorithm/optimal_find_path_balance.py:295-301 | One turn of that loop at a position of the list already changed: it takes links; started where parity allows, it ends with the list of the node empty, or, at index 0 only, with an even list of at least two |
| `Euler.Hierholzer.FirstReturn` | INTPath-DINT/Euler trail-based path planning algorithm/algorithm/optimal_find_path_balance.py:295-301 | Back from the first recursion there is an entry at index 1 exactly when the node has links left, and what is left is even |
| `Euler.BareTrailIsComponent` | INTPath-DINT/Euler trail-based path planning algorithm/algorithm/optimal_find_path_balance.py:288-316 | A trail whose nodes have no link left has used everything within reach of its start |
| `Euler.OddDegreeNodes` | INTPath-DINT/Euler trail-based path planning algorithm/algorithm/optimal_find_path_balance.py:223-228 | The odd nodes, each once |
| `PlannerGraph.Graph.AddEdge` | INTPath-DINT/Euler trail-based path planning algorithm/algorithm/optimal_find_path_balance.py:25-31 | Exactly one link is added, and adding it again changes nothing |
| `PlannerGraph.Graph.NotNullNode` | INTPath-DINT/Euler trail-based path planning algorithm/algorithm/optimal_find_path_balance.py:36-40 | `A` holds exactly the nodes that have a link |
| `PlannerGraph.Graph.Degrees` | INTPath-DINT/Euler trail-based path planning algorithm/algorithm/optimal_find_path_balance.py:42-46 | `degree` holds the degree of every node, at its number minus one |
| `PlannerGraph.Graph.F1` | INTPath-DINT/Euler trail-based path planning algorithm/algorithm/optimal_find_path_balance.py:56-68 | The linked nodes are split into disjoint connected components |
| `PlannerGraph.Graph.DepthFirstSearch` | INTPath-DINT/Euler trail-based path planning algorithm/algorithm/optimal_find_path_balance.py:95-114 | The visiting order is the connected component of the root, each node once |
| `PlannerGraph.Graph.Stragglers` | INTPath-DINT/Euler trail-based path planning algorithm/algorithm/optimal_find_path_balance.py:108-112 | The second loop of the search never finds anything: no unvisited node has a visited neighbour |
| `PlannerGraph.Graph.Judge` | INTPath-DINT/Euler trail-based path planning algorithm/algorithm/optimal_find_path_balance.py:70-80 | The first component without odd nodes, or 0 when each has one |
| `PlannerGraph.Graph.F2` | INTPath-DINT/Euler trail-based path planning algorithm/algorithm/optimal_find_path_balance.py:82-87 | The number of odd nodes of a component |
| `PlannerGraph.Graph.F3` | INTPath-DINT/Euler trail-based path planning algorithm/algorithm/optimal_find_path_balance.py:89-93 | Exactly the links of the path are taken out, in both directions |
| `PlannerGraph.Graph.MyPath` | INTPath-DINT/Euler trail-based path planning algorithm/algorithm/optimal_find_path_balance.py:116-137 | A shortest path between two different odd nodes of the component; balanced, no two odd nodes are farther apart |
| `FarthestPath.Balanced` | INTPath-DINT/Euler trail-based path planning algorithm/algorithm/optimal_find_path_balance.py:129-137 | Over all odd start nodes the longest of the farthest shortest paths |
| `FarthestPath.Unbalanced` | INTPath-DINT/Euler trail-based path planning algorithm/algorithm/optimal_find_path_unbalance.py:126-133 | Whichever odd start node is drawn, a shortest path to an odd node farthest from it |
| `Adjacency.RemoveTrail` | INTPath-DINT/Euler trail-based path planning algorithm/algorithm/optimal_find_path_balance.py:89-92 | The two `remove` calls for every link of a trail succeed and take out exactly the links of the trail |
| `ArcSets.OddAfterTrail` | INTPath-DINT/Euler trail-based path planning algorithm/algorithm/optimal_find_path_balance.py:89-93 | Removing a trail between two odd nodes lowers the number of odd nodes by exactly two; removing a circuit changes none; no trail lowers it by more |
| `ArcSets.TrailParity` | INTPath-DINT/Euler trail-based path planning algorithm/algorithm/optimal_find_path_balance.py:89-93 | Removing a trail flips the parity of its two ends and of no other node |
| `ArcSets.Handshake` | INTPath-DINT/Euler trail-based path planning algorithm/algorithm/optimal_find_path_balance.py:291-304 | A set of nodes that no link leaves holds an even number of odd nodes |
| `ArcSets.ReachableByWalk` | INTPath-DINT/Euler trail-based path planning algorithm/algorithm/optimal_find_path_balance.py:95-114 | Connectedness by closed sets is the existence of a walk |
| `Adjacency.ListLengthIsDegree` | INTPath-DINT/Euler trail-based path planning algorithm/algorithm/optimal_find_path_balance.py:42-46 | The length of an adjacency list is the degree of its node |
| `Dijkstra.Run` | INTPath-DINT/Euler trail-based path planning algorithm/algorithm/optimal_find_path_balance.py:139-171 | For any edge weights that are natural numbers, 0 included: the distances are the lengths of the shortest routes, and following the predecessors ends at the start with such a route |
| `Dijkstra.RelaxStep` | INTPath-DINT/Euler trail-based path planning algorithm/algorithm/optimal_find_path_balance.py:156-157 | One relaxation inside the loop keeps all that the search is proved by: distances that are lengths of routes, settled nodes final, every edge of a settled node relaxed, predecessors settled before their node |
| `Dijkstra.RelaxedIsLowerBound` | INTPath-DINT/Euler trail-based path planning algorithm/algorithm/optimal_find_path_balance.py:139-171 | Relaxed distances are at most the length of every route |
| `Dijkstra.DescendIsRoute` | INTPath-DINT/Euler trail-based path planning algorithm/algorithm/optimal_find_path_balance.py:162-168 | A chain of predecessors is a route of exactly its distance |
| `FarthestPath.DijkstraPath` | INTPath-DINT/Euler trail-based path planning algorithm/algorithm/optimal_find_path_balance.py:123-135 | On unit weights a traced path is a shortest trail in the network |
| `Dfls.DFLSPathPlan` | INTPath-DINT/DFS-based path planning algorithm/DFLSPathPlan.py:7-27 | Terminates with every link within reach of the first node consumed exactly once; the count is the number of calls that found no unused link and the size of a split of those links into trails; the walk always takes the unused link to the least node and goes back along its stack at a dead end, which fixes the count |
| `Dfls.DflsState.Run` | INTPath-DINT/DFS-based path planning algorithm/DFLSPathPlan.py:12-25 | One call of the recursion: the trails written down so far stay a split of the consumed links, and no link is left at a node it consumed a link of; the paths it counts are those that such a walk opens |
| `Dfls.DflsState.Take` | INTPath-DINT/DFS-based path planning algorithm/DFLSPathPlan.py:21-24 | Clearing the two entries of a link extends the open trail or opens a new one |
| `Dfls.BooksExtend` | INTPath-DINT/DFS-based path planning algorithm/DFLSPathPlan.py:20-24 | A link taken at the end of the open trail extends it and keeps the books |
| `Dfls.AllSpent` | INTPath-DINT/DFS-based path planning algorithm/DFLSPathPlan.py:9-27 | When nothing is left at any node reached, the consumed links are all links within reach |
| `Dfls.Compete` | INTPath-DINT/DFS-based path planning algorithm/DFLSPathPlan.py:7-27 | On every connected network with a link at the first node `find_path` needs no more paths than `DFLSPathPlan` counts |
| `RandomTopo.CreateRandomTopo` | INTPath-DINT/DFS-based path planning algorithm/randomTopo.py:7-36 | For every outcome of the coins: a symmetric 0/1 matrix with zero diagonal, connected, with a link at every node when there are several; all drawn links are kept, and exactly a chain through the first nodes of the unconnected parts is added; `find_path` can plan it; the count is the number of odd nodes and is even |
| `RandomTopo.Generator.Draw` | INTPath-DINT/DFS-based path planning algorithm/randomTopo.py:12-16 | The drawn links are exactly those whose coin shows 1, in both directions |
| `RandomTopo.Generator.DFS` | INTPath-DINT/DFS-based path planning algorithm/randomTopo.py:18-22 | A call marks nodes within reach of its start, with all their neighbours |
| `RandomTopo.Generator.Search` | INTPath-DINT/DFS-based path planning algorithm/randomTopo.py:24-28 | The list holds the first node of every part, no two of them connected, and all nodes are within reach of one |
| `RandomTopo.Generator.Join` | INTPath-DINT/DFS-based path planning algorithm/randomTopo.py:30-32 | The links between consecutive entries of the list are added and no other |
| `RandomTopo.JoinsApart` | INTPath-DINT/DFS-based path planning algorithm/randomTopo.py:30-32 | A link is added only between nodes that the drawn links do not connect |
| `RandomTopo.OddRowsAreOdd` | INTPath-DINT/DFS-based path planning algorithm/randomTopo.py:60-68 | In a network matrix the rows with an odd sum are the nodes of odd degree, an even number |
| `RandomTopo.CalOddNum` | INTPath-DINT/DFS-based path planning algorithm/randomTopo.py:60-68 | The number of rows with an odd sum |
| `SpineLeaf.GenSpineLeaf` | INTPath-DINT/system/controller/topo_generate.py:56-88 | Every spine is linked with every leaf and the leaves have hosts; the paths use every link exactly once, each routable and from host to host, k * k of them for 3k switches; the paths stay on the graph if and only if the number of switches leaves no remainder 1 or is 1, and otherwise they are those for one more leaf |
| `SpineLeaf.PathsFit` | INTPath-DINT/system/controller/topo_generate.py:77-86 | Some path leaves the graph exactly when there is a spine and the number of leaves is odd |
| `Kll.KLL.Make` | Mininet-DINT/kll.py:12-23 | A sketch exists exactly for k > 0 and 0.5 < c <= 1, and starts empty, sound and below its size limit |
| `Kll.KLL.Grow` | Mininet-DINT/kll.py:25-28 | An empty compactor is added on top; the size limit does not fall |
| `Kll.KLL.Limit` | Mininet-DINT/kll.py:28-32 | `maxSize` is the sum of the capacities of all heights |
| `KllSketch.CapacityIs` | Mininet-DINT/kll.py:30-32 | The capacity of a height is one more than the least integer that reaches c to the power of its depth, times k |
| `KllSketch.SpaceBound` | Mininet-DINT/kll.py:28-32 | The size limit is below k / (1 - c) + 2H for c below 1, and exactly (k + 1) H for c = 1 |
| `Kll.KLL.Update` | Mininet-DINT/kll.py:34-39 | The assertion size < maxSize holds after every update, lazy or eager; the sketch stays sound for the items inserted so far; a pass is made exactly when the sketch is full by then, otherwise the item is appended and nothing else changes |
| `Kll.KLL.Compress` | Mininet-DINT/kll.py:41-48 | A lazy pass compacts exactly the lowest height at or over its capacity, an eager one every height that is at or over its capacity by then; size never grows, and shrinks whenever some height is; the limit never falls |
| `Kll.KLL.CompactHeight` | Mininet-DINT/kll.py:43-46 | One compaction moves every second item of a height up, whatever the random offset, and strictly lowers the size |
| `Kll.KLL.Merge` | Mininet-DINT/kll.py:50-59 | The levels are joined height by height and then passes are made as long as the sketch is full; it terminates with size < maxSize, sound for the items of both sketches; the height stays logarithmic when the other sketch has k at least as large |
| `Kll.KLL.RankOf` | Mininet-DINT/kll.py:61-67 | `rank` is off from the true count by at most 2^h for every compaction at height h |
| `Kll.KLL.Ranks` | Mininet-DINT/kll.py:82-92 | The list is the running totals of the sorted weighted items |
| `Kll.KLL.Cdf` | Mininet-DINT/kll.py:69-80 | The list is those totals as shares of the total weight |
| `Kll.KLL.Feed` | Mininet-DINT/kll.py:34-48 | After any run of updates: weights add up to the number of items, every rank is within the compaction error, 2^h * numCompaction * (capacity - 1) <= n at every height, and (k+1) * 2^(H-2) <= n from two heights on; and the size is below k / (1 - c) + 2H, or (k + 1) H for c = 1 |
| `Kll.Compactor.Compact` | Mininet-DINT/kll.py:100-119 | Emits every second of the sorted items from the offset, keeps the last of an odd number, and alternates the offset after an odd number of compactions |
| `KllSketch.KeptIsLargest` | Mininet-DINT/kll.py:106-119 | No item is lost before every second one is dropped, and the item left behind is a largest one |
| `KllSketch.StepWeight` | Mininet-DINT/kll.py:41-46 | A compaction keeps the total weight and removes half of the height's items |
| `KllSketch.StepRank` | Mininet-DINT/kll.py:43-46 | A compaction at height h moves every rank by at most 2^h |
| `KllSketch.StepAbove` | Mininet-DINT/kll.py:43-46 | The weight above a height changes only by compactions at that height, by 2^h for each item compacted |
| `KllSketch.MaxSizeGrows` | Mininet-DINT/kll.py:25-32 | A new height raises the size limit by at least two |
| `KllSketch.FullHasOver` | Mininet-DINT/kll.py:37-43 | Below capacity everywhere means below the size limit, so a full sketch has a height to compact |
| `KllInvariant.StepSound` | Mininet-DINT/kll.py:41-48 | A compaction keeps the rank error, the weight and the bounds on the number of compactions |
| `KllInvariant.GrowSound` | Mininet-DINT/kll.py:25-28 | Growing keeps them although all capacities below the top shrink |
| `KllInvariant.JoinSound` | Mininet-DINT/kll.py:50-55 | Merging keeps them for the items of both sketches, the other's compactions counted as inherited error |
| `KllInvariant.StepHeight` | Mininet-DINT/kll.py:41-48 | A new height is opened only when there are enough items for the logarithmic bound |
| `KllInvariant.CompactionBound` | Mininet-DINT/kll.py:30-46 | 2^h * numCompaction_h * (capacity(h) - 1) is at most the number of inserted items |
| `KllInvariant.SoundGuarantees` | Mininet-DINT/kll.py:34-48 | The four promises about a run of updates follow from the invariant |
| `KllQueries.RanksAgree` | Mininet-DINT/kll.py:82-92 | `ranks` is in order in both columns, lists every item held, and its last entry for a value carries `rank` of that value |
| `KllQueries.CdfAgrees` | Mininet-DINT/kll.py:69-80 | `cdf` is non-decreasing, ends at exactly 1, and its last entry for a value is `rank` over the total weight |
| `KllQueries.ErrorBound` | Mininet-DINT/kll.py:30-67 | `rank` differs from the true count by at most n times the sum over the heights of 1 / (capacity - 1), for a sketch that nothing was merged into |
| `KllQueries.MergedErrorBound` | Mininet-DINT/kll.py:50-67 | For a sketch merged from two such sketches the error is at most the number of all items times its own sum of inverse capacities, plus the number of the other's items times the other's sum |
| `KllSorting.AnySort` | Mininet-DINT/kll.py:106 | A sorted permutation of the items is what the model sorts them to: any correct sort gives the same compaction |
| `Routing.Router.CalculateRoute` | HPCC-DINT/simulation/scratch/third.cc:218-264 | The search finds the exact hop distances over walks that only switches relay; the next hops of every node are exactly its up neighbours one hop closer that are the host or a switch, each once; delay and transmission delay are the sums over the links of one and the same shortest path modulo 2^64, bandwidth is the narrowest of its links; entries of other hosts are untouched |
| `Routing.Router.Explore` | HPCC-DINT/simulation/scratch/third.cc:236-256 | One interface in the search keeps distances, metrics and next hops right for what has been followed so far |
| `Routing.Router.CalculateRoutes` | HPCC-DINT/simulation/scratch/third.cc:265-272 | From empty next hops, all hosts get right next hops and metrics, and nothing else gets any |
| `Routing.Router.SetRoutingEntries` | HPCC-DINT/simulation/scratch/third.cc:274-296 | Every table gets, for the address of every destination, the interface indices of its next hops in order, after those it had for that address; entries for addresses of no node are not described |
| `Routing.Router.TakeDownLink` | HPCC-DINT/simulation/scratch/third.cc:299-316 | Nothing happens when the link is down or absent; otherwise the network is the one without that link, and next hops, metrics and tables are right for it |
| `RoutingGraph.DistancesUnique` | HPCC-DINT/simulation/scratch/third.cc:218-252 | There is only one right map of distances |
| `RoutingGraph.HopsUnique` | HPCC-DINT/simulation/scratch/third.cc:253-256 | Two right lists of next hops differ in order only |
| `RoutingGraph.HopExists` | HPCC-DINT/simulation/scratch/third.cc:236-256 | Every node that reaches the host and is not the host has a next hop |
| `RoutingGraph.RoutesReachHost` | HPCC-DINT/simulation/scratch/third.cc:218-256 | Whatever next hops are chosen, the distance falls by one per step, only switches are passed, and the host is reached after exactly dis[x] steps |
| `RoutingGraph.AlongCosts` | HPCC-DINT/simulation/scratch/third.cc:243-246 | What accumulates along a walk is the sum of the delays, the sum of the sending times, and the least bandwidth of its links |
| `Routing.SearchDistances` | HPCC-DINT/simulation/scratch/third.cc:234-252 | When the whole queue is expanded the distances are the shortest ones |
| `Routing.RoutesUnique` | HPCC-DINT/simulation/scratch/third.cc:299-305 | Next hops that are right for a network are the same up to order, so those after a cut are the ones computed from scratch |
| `Routing.CutRoutes` | HPCC-DINT/simulation/scratch/third.cc:299-305 | After the cut no next hop uses the link in either direction |
| `Routing.Forwarding` | HPCC-DINT/simulation/scratch/third.cc:274-296 | Every table entry for a host is the index of an up interface to a node one hop closer, and every node that reaches the host has an entry |
| `RoutingTables.CutUp` | HPCC-DINT/simulation/scratch/third.cc:299-303 | Cutting takes away that link in both directions and nothing else |
| `RoutingTables.AddressesDistinct` | HPCC-DINT/simulation/scratch/third.cc:155-157 | Addresses of two nodes coincide exactly when the node numbers do modulo 2^24 |
| `RoutingTables.NodeIdRoundTrip` | HPCC-DINT/simulation/scratch/third.cc:155-161 | The node number comes back from its address exactly when it is below 65536 |
| `DeltaProtocol.RunsRecover` | INTPath-DINT/system/packet/dint_receive.py:59-123 | In every run, for any hash function and any interleaving of flows over fixed routes without repeated switch, an arriving packet is parsed, no omitted field lacks an entry, and for every hop but the last one all fields, for the last one the ingress port, are exactly the switch's outputs (latency times 128), each true or within its threshold; at every hop exactly those fields were omitted that had a recorded state within the threshold |
| `DeltaHistory.ReportsByHistory` | INTPath-DINT/system/controller/measurement_accuracy.py:39-65 | In every run a packet omits a field at a hop if and only if what the earlier events left recorded there, computed from the events alone, is within the threshold of its state; then the recorded state stays, otherwise the state is reported and recorded |
| `DeltaHistory.RunHeld` | INTPath-DINT/system/controller/measurement_accuracy.py:58-65 | What a switch has recorded for a flow after any run: the outputs of the last packet of the flow, unless another flow of its column passed since |
| `DeltaProtocol.PassKeepsInv` | INTPath-DINT/system/controller/measurement_accuracy.py:107-114 | A packet at a switch keeps the agreement of every owned bucket with what the receiver will know, also where it evicts other flows |
| `DeltaProtocol.PassAgreesHere` | INTPath-DINT/system/controller/measurement_accuracy.py:107-114 | At the hop itself: what is omitted is recorded and known to the receiver by then |
| `DeltaProtocol.PassAgreesThere` | INTPath-DINT/system/controller/measurement_accuracy.py:58-65 | For every other flow and hop: the bucket is untouched or evicted |
| `DeltaProtocol.ArriveKeepsInv` | INTPath-DINT/system/packet/dint_receive.py:59-123 | An arrival keeps the agreement |
| `DeltaProtocol.ArriveRight` | INTPath-DINT/system/packet/dint_receive.py:59-123 | An arriving packet is read as it was written and every omitted field is filled in right |
| `DeltaProtocol.RunKeepsInv` | INTPath-DINT/system/controller/measurement_accuracy.py:107-114 | The agreement holds after every run |
| `DeltaProtocol.StartInv` | INTPath-DINT/system/controller/measurement_accuracy.py:21-31 | The agreement holds for the initial sketches, even for a flow whose key is the -1 of an empty bucket |
| `DeltaLastHop.LastHopExact` | INTPath-DINT/system/packet/dint_receive.py:63-123 | In every run and for every arrival of a flow with a route, device number, egress port and latency of the last hop are the ones its switch recorded if and only if the packet reports them, or the report that counts has that value: of all last-hop reports that arrived before, whatever the flow, the first one for device number and egress port, the latest one for the latency |
| `DeltaLastHop.LastHopFilledIn` | INTPath-DINT/system/packet/dint_receive.py:63-123 | What is filled in there is exactly that: the reported value, or else the report that counts, and there always is one |
| `DeltaLastHop.RunTor` | INTPath-DINT/system/packet/dint_receive.py:63-123 | What the receiver keeps of the last switch is the report that counts, after any run |
| `DeltaLastHop.LastHopRecovers` | INTPath-DINT/system/packet/dint_receive.py:63-107 | A field of the last hop that is the same for all flows, as device number and egress port are at one receiver, is recovered although it is not kept apart by flow |
| `DeltaLastHop.LastHopMixes` | INTPath-DINT/system/packet/dint_receive.py:63-123 | Runs from the initial state where the last hop is not recovered: flows f and g in different columns report and arrive, then an omitted latency of f is filled in as that of g, and an omitted device number or egress port of g as that of f |
| `DeltaProtocol.FillHopsRight` | INTPath-DINT/system/packet/dint_receive.py:59-123 | When all omitted fields have right entries the whole packet is filled in right and exactly the entries of its hops are renewed |
| `DeltaSwitch.LoadAfterStore` | INTPath-DINT/system/controller/measurement_accuracy.py:39-46 | After a flow is stored it is found with what was stored, flows of the same column are evicted, others are untouched, for any number of rows |
| `DeltaSwitch.ReportOrRecorded` | INTPath-DINT/system/controller/measurement_accuracy.py:48-56 | A field is reported as it is, or recorded already and within its threshold |
| `DeltaSwitch.OmittedExactly` | INTPath-DINT/system/controller/measurement_accuracy.py:48-56 | A field is omitted exactly when the flow owns a bucket with a recorded state within the threshold, which then stays recorded; otherwise the current state is reported and recorded |
| `DeltaSwitch.LoadFirst` | INTPath-DINT/system/controller/measurement_accuracy.py:39-46 | What is loaded is what the first bucket of the flow holds in its column, and nothing exactly when it owns none |
| `DeltaSwitch.PassedOnce` | INTPath-DINT/system/controller/measurement_accuracy.py:107-114 | On a path without repeated switch every hop sees its sketch as the packet found it |
| `DeltaSwitch.Switches.constructor` | INTPath-DINT/system/controller/measurement_accuracy.py:21-31 | All buckets start as -1 |
| `DeltaSwitch.Switches.StateLoad` | INTPath-DINT/system/controller/measurement_accuracy.py:39-46 | The states of the first bucket the flow owns |
| `DeltaSwitch.Switches.DeltaCalc` | INTPath-DINT/system/controller/measurement_accuracy.py:48-56 | The recorded state where it is not -1 and within the threshold, the current one elsewhere |
| `DeltaSwitch.Switches.StateUpdate` | INTPath-DINT/system/controller/measurement_accuracy.py:58-65 | The bucket of the flow is overwritten in every row, no other bucket changes |
| `DeltaSwitch.Switches.Packet` | INTPath-DINT/system/controller/measurement_accuracy.py:107-114 | The hop loop: outputs and sketches after each hop |
| `DeltaWire.IntProcess` | INTPath-DINT/system/packet/dint_parse.py:34-77 | The loop returns the headers that the bytes hold, or ends by `exit` or by the exception of `struct.unpack` |
| `DeltaWire.WireRoundTrip` | INTPath-DINT/system/packet/dint_parse.py:34-77 | Any list of headers whose fields fit is read back as it was written, latency times 128 |
| `DeltaWire.HeaderRoundTrip` | INTPath-DINT/system/packet/dint_parse.py:38-74 | One header is read back whatever follows it |
| `DeltaWire.ReadIsWritten` | INTPath-DINT/system/packet/dint_parse.py:38-74 | Whatever is read was written that way, but for the low four bits of the bitmap |
| `DeltaWire.Layout` | INTPath-DINT/system/packet/dint_parse.py:38-74 | Which bit of the first byte stands for which field, the order of the fields, and the four bytes of the latency, highest first, times 128 |
| `DeltaReceiver.Receiver.RecoverDevice` | INTPath-DINT/system/packet/dint_receive.py:63-79 | Device number: value, entry, or what is known of the last switch; exit without any |
| `DeltaReceiver.Receiver.RecoverIport` | INTPath-DINT/system/packet/dint_receive.py:80-90 | Ingress port: value or entry; exit without any |
| `DeltaReceiver.Receiver.RecoverEport` | INTPath-DINT/system/packet/dint_receive.py:91-107 | Egress port, like the device number |
| `DeltaReceiver.Receiver.RecoverTimedelta` | INTPath-DINT/system/packet/dint_receive.py:108-123 | Latency: the last one of any flow at the last hop, no exit when there is no entry |
| `DeltaReceiver.Receiver.RecoverHop` | INTPath-DINT/system/packet/dint_receive.py:61-126 | All fields of one hop in order, ending the run where the code does |
| `DeltaReceiver.Receiver.Receive` | INTPath-DINT/system/packet/dint_receive.py:59-126 | The hops of a packet from the first to the last |
| `Topology.SamePorts` | INTPath-DINT/system/controller/topoMaker.py:53-63 | Every device sees its links in the same order in the controller and in the emulated network, although the two make the links in different orders |
| `Topology.PeersAreLinked` | INTPath-DINT/system/controller/app.py:148-161 | The devices behind the ports of a device are exactly those it is linked to |
| `Controller.Device.AddLink` | INTPath-DINT/system/controller/device.py:41-44 | The next port, numbered from 1, leads to the device |
| `Controller.Ctrl.constructor` | INTPath-DINT/system/controller/app.py:133-146 | A switch for every node and a host where the list says so, without ports |
| `Controller.Ctrl.GenLinks` | INTPath-DINT/system/controller/app.py:148-161 | The ports of all devices are those that the links give, switch links first |
| `Controller.Ctrl.GetDevPortByName` | INTPath-DINT/system/controller/app.py:174-193 | The first port of a switch or a host that leads to the device, none when there is none; the exception exactly for a host that is not there |
| `Controller.Ctrl.PortsList` | INTPath-DINT/system/controller/app.py:370-373 | One port per hop of the path and the one to its last host |
| `Controller.Ctrl.TraversePaths` | INTPath-DINT/system/controller/app.py:363-379 | Every start node gets one port list and one address for each of its paths, in the order of the paths: for path i from it, behind those of the earlier paths from it, the ports of path i and the host of its last switch; the call fails exactly when some path ends at a switch without host |
| `Controller.MakeSwitchTopo` | INTPath-DINT/system/controller/topoMaker.py:53-63 | The links that the loops make from the controller's ports, switch by switch |
| `Controller.EmitAll` | INTPath-DINT/system/controller/topoMaker.py:53-63 | The ports of a switch give its links to later switches and to its host, each once |
| `Controller.PathHasPorts` | INTPath-DINT/system/controller/app.py:370-373 | A path gets a port for every hop if and only if consecutive switches are linked and the last has a host |
| `Controller.PathFollowed` | INTPath-DINT/system/controller/app.py:370-373 | Following the ports in the emulated network visits exactly the switches of the path and the last one's host |
| `SourceRoute.Content` | INTPath-DINT/system/packet/sendint.py:173-181 | The reversed port list is encoded hop by hop |
| `SourceRoute.PortByte` | INTPath-DINT/system/packet/sendint.py:119-130 | A port takes one byte, its number minus one, exactly up to 256 |
| `SourceRoute.ContentLength` | INTPath-DINT/system/packet/sendint.py:103-117 | The content has 68 bytes if and only if there are at most 63 hops and the action id is below 2^31 |
| `SourceRoute.ContentRecovered` | INTPath-DINT/system/packet/sendint.py:103-130 | Ports and action id come back from the 68 bytes, and all other bytes are 0 |
| `SourceRoute.ProbeVisitsPath` | INTPath-DINT/system/packet/sendint.py:103-130 | With at most 256 switches and 63 hops, a packet that takes its ports from the bytes visits exactly the path |
| `TraceFilter.StrParses` | HPCC-DINT/analysis/trace_filter.hpp:238-319 | For every expression whose leaves are base expressions, parsing its bracketed text gives a tree that accepts the same traces |
| `TraceFilter.PrintedFails` | HPCC-DINT/analysis/trace_filter.hpp:382-391 | What `str` prints of a tree never parses, as a leaf is printed with its offset in brackets |
| `TraceFilter.PrintedRoundTrip` | HPCC-DINT/analysis/trace_filter.hpp:173-177 | A filter and the one parsed from its print accept the same traces if and only if the filter accepts every trace, as a missing root does |
| `TraceFilter.StripOuterBracket` | HPCC-DINT/analysis/trace_filter.hpp:320-346 | The result is what taking off enclosing brackets, with the spaces around them, leads to, and is itself not enclosed by a bracket and the one that closes it |
| `TraceFilter.StripPeels` | HPCC-DINT/analysis/trace_filter.hpp:320-346 | That describes one text only: it is the result if and only if it can be peeled to and is not enclosed |
| `TraceFilter.FindClose` | HPCC-DINT/analysis/trace_filter.hpp:284-291 | The loop finds the bracket that closes, or the end of the text |
| `TraceFilter.SkipSpace` | HPCC-DINT/analysis/trace_filter.hpp:184-187 | The first index that is no space |
| `TraceFilter.CloseAfter` | HPCC-DINT/analysis/trace_filter.hpp:284-291 | The bracket found after balanced text is the matching one |
| `TraceFilter.ScanText` | HPCC-DINT/analysis/trace_filter.hpp:238-251 | A written base expression is scanned as field, operator and value, also where one operator starts like another |
| `TraceFilter.ScanSpaced` | HPCC-DINT/analysis/trace_filter.hpp:238-251 | The same with any spaces before and after each part |
| `TraceFilter.CharClasses` | HPCC-DINT/analysis/trace_filter.hpp:184-187 | Which characters are spaces, values and fields |
| `TraceFilter.LeafMeans` | HPCC-DINT/analysis/trace_filter.hpp:188-236 | A base expression accepts exactly the traces whose field compares so with the value cut to the bits of the field, each of the six operators in its own way |
| `TraceFilter.UnknownField` | HPCC-DINT/analysis/trace_filter.hpp:243-255 | Any other field that is no shorthand is refused |
| `TraceFilter.ParseJoin` | HPCC-DINT/analysis/trace_filter.hpp:277-316 | `(a)&b` and `(a)`, bar, `b` are parsed as a, the operator, and all of b |
| `TraceFilter.ParseTextJoin` | HPCC-DINT/analysis/trace_filter.hpp:259-316 | A base expression, an operator and b: the same, so both operators bind to the right alike |
| `TraceFilter.ParseBracketed` | HPCC-DINT/analysis/trace_filter.hpp:240-241 | Brackets around balanced text do not change what is parsed |
| `TraceShorthand.FlowShorthands` | HPCC-DINT/analysis/trace_filter.hpp:347-365 | `flow` accepts exactly the traces of the flow, `rflow` those of the reverse flow, `biflow` exactly those that `flow` or `rflow` accepts |
| `TraceShorthand.FlowShorthandsParse` | HPCC-DINT/analysis/trace_filter.hpp:347-365 | The flow shorthands are parsed exactly with `=` and a value of four numbers |
| `TraceShorthand.QueueShorthand` | HPCC-DINT/analysis/trace_filter.hpp:366-378 | `queue` is parsed exactly with `=` and three numbers, and accepts exactly the traces of the queue |
| `Approximation.ChosenWithin` | Mininet-DINT/generate_delay_results_DINT.py:241-255 | The chosen power is within ap * x of x |
| `Approximation.ChosenNearest` | Mininet-DINT/generate_delay_results_DINT.py:241-263 | No power of (1+ap)^2 for another exponent is nearer to x, and of two as near the lower one is chosen |
| `Approximation.NearestUnique` | Mininet-DINT/generate_delay_results_DINT.py:241-263 | That names one power only |
| `Approximation.Log` | Mininet-DINT/generate_delay_results_DINT.py:241-242 | The integer part of the logarithm to the base (1+ap)^2 |
| `Approximation.LogUnique` | Mininet-DINT/generate_delay_results_DINT.py:241-242 | There is only one such number |
| `Approximation.Recorder.Store` | Mininet-DINT/generate_delay_results_DINT.py:227-274 | A stored value is 0 for 0, otherwise within ap * x + 1 + threshold of x; it is the last one when the nearest power, rounded down, is within the threshold of it, and otherwise that power |
| `Approximation.Recorder.Packet` | Mininet-DINT/generate_delay_results_DINT.py:212-277 | The same for every hop and every error of a packet, all errors sharing the last values |

## Left out

- The `num_fleury` counter that `find_path` returns beside the paths, and the graph generators and `fleury`, which it never calls.
- Iteration over dictionaries follows the order of insertion or of the node numbers; maps keyed by pointers in the routing code are walked in the order of the node numbers.
- Routing.Router.CalculateRoute: the three maps of pairs are one map of records; entries of nodes that have become unreachable stay as they are, as in the code.
- Routing.Router.TakeDownLink: reading `nbr2if[a][b]` of two nodes that are not neighbours creates a default entry that is down; the model returns without one. Redistributing queue pairs and taking the devices down belong to the simulator.
- KLL items are integers, and capacities are computed over the reals: the rounding of floating-point powers is not modelled.
- Kll.KLL.Merge: a merged sketch carries the rank error of the other one as a ghost total, so the bound of `RankOf` after a merge counts the other's compactions at their own heights.
- Kll.KLL.Merge, also: two different sketches share no compactor.
- The P4 programs of the switches are not part of this model; `measurement_accuracy.py` states the switch side, and the wire format is the inverse of the receiver's parser, a field's bit being set exactly when the field is not suppressed.
- Switch behaviour that would make the last hop's omitted latency right for every flow would be in a P4 program; the model has the switches of `measurement_accuracy.py`.
- The bandwidth counters, the strings for link-down and gray-failure detection, the relative errors and the percentiles.
- After `exit` or an exception the receiver takes nothing more; the model returns that outcome and the state at that moment.
- Source routes: names of devices are values instead of strings such as `s3`, an address is the number of its host, and a port that was not found ends the sender by an exception that is not modelled.
- Mininet itself, which numbers the ports of a switch in the order its links are added, and the OVS bridges added for hosts.
- Trace filters: the regular expressions are replaced by a scanner for field, operator and value with the same matches; nodes are values, so allocation and `clear` are not modelled; text that `sscanf` cannot read gives some number.
- `genFatTree`, which nothing calls, and `createRandomTopoWithFixedOdds`, which may draw for ever.
- RandomTopo.CreateRandomTopo: `random.randint` is a parameter, one coin for each pair of rows.
- Floating-point logarithms and powers are exact reals; the counters of bits and the sampling are left out.
- Sockets, redis, files, subprocesses, plotting, the simulator's devices and event scheduling, and command-line handling.
