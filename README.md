# Route planner core, modelled in Dafny

This project models the core of a small C++ route planner that loads an
OpenStreetMap extract into a road graph and answers shortest-route queries
under three weighting modes. The modes are pure distance, time at the posted
speed limit, and time under "learned" crowd-sourced speed adjustments with
rush-hour derating.

The model covers the following parts of the program.

- **The road graph** (`class Graph` of `src/graph.h`, `src/graph.cpp`):
  - a class with the two maps the C++ class keeps, the node table and the
    adjacency lists;
  - `addNode`, `addEdge` (with its speed-limit table), `getNode`,
    `getEdges`, `nodeCount`, `edgeCount`;
  - the crowd-learning pass `applyLearnedPatterns`;
  - the cost model (`getTimeAdjustedSpeed`, `calculateEdgeWeight`);
  - `dijkstra`, including its path reconstruction and its distance and
    time totals.
- **The OSM loader** (`parseOSM` of `src/osm_parser.cpp`): the
  line-by-line state machine that turns `<node` lines into `addNode` calls
  and each closed highway `<way>` into two opposite `addEdge` calls per
  pair of consecutive known nodes.

Files and modules:

| file | module | contents |
|---|---|---|
| `wrappers.dfy` | `Wrappers` | `Option` |
| `roads.dfy` | `Roads` | `Node`, `Edge`, `RouteMode`, `RouteResult`, mode names |
| `cost_model.dfy` | `CostModel` | rush hours, time-adjusted speed, edge weight per mode |
| `road_network.dfy` | `RoadNetwork` | the graph's contents as a value (`Network`): speed table, `WithNode`/`WithEdge`, edge totals, and the network built by a sequence of `addNode`/`addEdge` calls (`Replay`) |
| `walks.dfy` | `Walks` | walks through the graph and their weight under a mode and hour |
| `search.dfy` | `ShortestPaths` | the search loop with its invariant, path reconstruction, and the reported totals |
| `learned_patterns.dfy` | `LearnedPatterns` | the multiplier rewrite of one edge and what the whole pass preserves |
| `graph.dfy` | `RoadGraph` | `class Graph` and its operations |
| `osm_text.dfy` | `OsmText` | `std::string::find` and the tag-value extraction |
| `osm_parser.dfy` | `OsmParser` | the parser state, `Step`/`Scan` as its specification, and the imperative `ParseOsm` |

## How each part is specified

**Graph state.** `Graph.Snapshot()` gives the graph's current contents as a
`Network` value. Each method states its new state against the value-level
function of the same operation. For example, `AddEdge` ends in
`WithEdge(old(Snapshot()), …)`. The invariant `WellFormed` says three things:
- every node is stored under its own id;
- every edge's speed limit comes from the speed table;
- every multiplier is positive.

Every mutating operation preserves it.

**Dijkstra.** The method is proved against walks through the network
(`Walks.IsWalk`, `Walks.WalkWeight`). Its contract states:
- the path is empty exactly when no walk leads from start to end;
- otherwise the path is a walk from start to end through distinct nodes,
  and no other walk weighs less under the chosen mode and hour.

The reported totals follow the source's second pass: for each leg, the
first stored edge to the next node (`ReportedDistance`, `ReportedTime`).
When no node has two edges to the same neighbour, these totals equal the
path's Distance weight and its Learned weight.

**Crowd learning.** The random generator is a parameter `draw: nat -> real`:
the n-th number the generator would return. An edge takes a number only
when its road type is tested by one of the three checks, because the
short-circuit `&&` skips the draw otherwise. `ApplyLearnedPatterns`
returns how many numbers were drawn and, as ghost output, which edge took
which number. It proves the following:
- every edge is rewritten by `Learn` with its own number;
- distinct edges take distinct numbers;
- within a list, later edges take later numbers, and each list's numbers
  form one unbroken block, as the nested loop draws them;
- only multipliers change;
- walks, edge counts, and Distance and SpeedLimit weights are therefore
  unchanged.

**Loader.** The loader is specified by `Scan`, the calls the file's lines
issue in order. `ParseOsm` issues exactly those calls on a `Graph` and
returns `Scan`'s counters. Lemmas state what each kind of line does to the
parser state (`Step*`) and what the edges of a closed way are
(`WayEdgesShape`, `WayEdgesComplete`). Over the whole file they show:
- every loaded edge joins two loaded nodes (`ScanKeepsClosed`);
- loaded lengths are non-negative when the distance function is
  (`ScanKeepsNonNegative`);
- in a graph loaded from scratch, every id with outgoing edges is a node
  (`LoadedOriginsAreNodes`);
- the node counter is the number of `addNode` calls issued
  (`ScanCountsNodes`).

**A worked example of the cost formulas.** A -> B and B -> C are 1000 m of
motorway each, and A -> C is 2500 m of residential street. At noon the
motorway detour takes 72 s under SpeedLimit and the direct road 225 s, so
both Distance and SpeedLimit weigh [A, B, C] lower
(`DemonstrationWeights`).

## Model

| member | source | states |
|---|---|---|
| Roads.ModeName | src/graph.cpp:147-157 | each mode has its fixed, non-empty display name |
| CostModel.IsRushHour | src/graph.cpp:98-101 | hours 7-9 and 17-19, both inclusive |
| CostModel.MetersPerSecond | src/graph.cpp:126 | the km/h to m/s conversion: the result times 3.6 is the input, and it is positive for a positive speed |
| CostModel.RushFactor | src/graph.cpp:103-112 | the rush-hour speed factor is between 0.4 and 1.0 |
| CostModel.TimeAdjustedSpeed | src/graph.cpp:95-115 | outside 7-9 and 17-19 the speed is the posted one; a positive posted speed is never raised and stays positive |
| CostModel.EdgeWeight | src/graph.cpp:118-136 | the weight is non-negative for a non-negative length; Distance mode weighs the length itself |
| CostModel.RushDerating | src/graph.cpp:98-112 | in rush hour, motorway/trunk speeds are times 0.4, primary times 0.6, secondary/tertiary times 0.8; link types, residential, living_street and unclassified are unchanged |
| CostModel.DefaultHourNeverDerates | src/graph.h:54-56 | the default query hour 12 is outside both rush windows, so speeds are the posted ones |
| CostModel.StaticModesIgnoreHour | src/graph.cpp:120-126 | Distance and SpeedLimit weights depend on neither the hour nor the crowd multiplier |
| CostModel.NormalMultiplierMatchesSpeedLimit | src/graph.cpp:124-133 | with multiplier 1.0 off-peak, Learned and SpeedLimit weights coincide |
| CostModel.LearnedOffPeak | src/graph.cpp:128-133 | off-peak, the Learned weight is distance / (speed × multiplier × 1000 / 3600) |
| CostModel.RushHourChangesLearnedWeight | src/graph.cpp:95-133 | for a positive length, the rush-hour Learned weight is strictly larger than off-peak exactly for derated road types, and equal otherwise |
| RoadNetwork.SpeedLimitFor | src/graph.cpp:14-29 | every posted speed is between 20 and 100 km/h |
| RoadNetwork.SpeedTable | src/graph.cpp:15-29 | the speed table row by row; unknown, default and misspelled types get 50 |
| RoadNetwork.WithNode | src/graph.cpp:8-10 | addNode stores the node under its id, overwriting any earlier one; other nodes and all edges are unchanged |
| RoadNetwork.NewEdge | src/graph.cpp:31 | a new edge has the table speed and multiplier 1.0 |
| RoadNetwork.WithEdge | src/graph.cpp:12-32 | addEdge appends the new edge at the end of the origin's list, creating it if needed; nothing else changes |
| RoadNetwork.WithNodeKeepsWellFormed | src/graph.cpp:8-10 | addNode keeps the graph well-formed |
| RoadNetwork.WithEdgeKeepsWellFormed | src/graph.cpp:12-32 | addEdge keeps the graph well-formed |
| RoadNetwork.WithNodeCount | src/graph.h:61 | nodeCount grows by one exactly when the id is new |
| RoadNetwork.SumLengthsRemove | src/graph.cpp:44-50 | the edge total does not depend on the order the lists are visited |
| RoadNetwork.WithEdgeCount | src/graph.cpp:31 | addEdge raises the edge total by exactly one |
| RoadNetwork.ReplayAppend | src/osm_parser.cpp:44-118 | issuing two batches of calls one after the other is issuing their concatenation |
| RoadNetwork.NodeIdsMeaning | src/graph.cpp:8-10 | an id is among the node ids of a history exactly when some addNode call carries it |
| RoadNetwork.ReplayNodeIds | src/graph.cpp:8-10 | after a history, the node ids are the old ones plus every id given to addNode |
| RoadNetwork.BuiltNodeCount | src/graph.h:61 | the node count of a graph built from scratch is the number of distinct addNode ids |
| RoadNetwork.ReplayEdgeSources | src/graph.cpp:39-42 | getEdges finds a list exactly for the old origins and every origin given to addEdge |
| RoadNetwork.ReplayEdgeCount | src/graph.cpp:44-50 | after a history, the edge total is the old one plus the number of addEdge calls |
| RoadNetwork.ReplayLastWriteWins | src/graph.cpp:9 | a node holds the coordinates of the last addNode call for its id, or its old value if there was none |
| RoadNetwork.ReplayKeepsWellFormed | src/graph.cpp:8-32 | any history of calls keeps the graph well-formed |
| Walks.StepIsEdgeWeight | src/graph.cpp:186 | a walk step costs calculateEdgeWeight of the edge it takes, and that edge is drivable |
| Walks.StepNonNegative | src/graph.cpp:186 | with non-negative lengths every step weighs at least 0 |
| Walks.WalkWeightNonNegative | src/graph.cpp:187 | with non-negative lengths every walk weighs at least 0 |
| Walks.WalkExtend | src/graph.cpp:187 | extending a walk by an edge adds that edge's weight |
| Walks.WalkPrefix | src/graph.cpp:187 | dropping a walk's last step leaves a walk lighter by that step's weight |
| Walks.WalkPrepend | src/graph.cpp:187 | putting an edge in front of a walk adds that edge's weight |
| Walks.TrivialWalk | src/graph.cpp:165 | the one-node walk weighs 0 |
| Walks.Reverse | src/graph.cpp:209 | reversing keeps the length |
| Walks.ReverseIndex | src/graph.cpp:209 | position i of the reversed sequence holds position n-1-i of the original |
| ShortestPaths.MinIndex | src/graph.cpp:167-173 | the queue's top is an entry below all others in the pair order of std::greater |
| ShortestPaths.Frontier | src/graph.cpp:171-196 | every walk from the start to an unsettled node passes through a queued entry no heavier than the walk |
| ShortestPaths.PopOptimal | src/graph.cpp:172-181 | a top entry that is not stale carries its node's current label, and that label is optimal |
| ShortestPaths.PopStale | src/graph.cpp:179-181 | dropping a stale top keeps the search invariant |
| ShortestPaths.Settle | src/graph.cpp:172-183 | settling the top's node keeps the search invariant |
| ShortestPaths.Exhausted | src/graph.cpp:199-201 | when the queue empties before the target is popped, the target's label is infinite and no walk reaches it |
| ShortestPaths.RelaxKeeps | src/graph.cpp:189 | an edge that does not improve its head leaves the invariant intact |
| ShortestPaths.RelaxImproves | src/graph.cpp:189-193 | updating the label, predecessor and queue for an improving edge keeps the invariant |
| ShortestPaths.InitInv | src/graph.cpp:159-169 | every node at infinity except the start at 0 and queued satisfies the invariant |
| ShortestPaths.Search | src/graph.cpp:159-196 | after the loop the labels are walk weights with a predecessor tree; a finite target label is optimal over all walks; an infinite one means no walk reaches it |
| ShortestPaths.RelaxAll | src/graph.cpp:183-195 | relaxing every edge out of the settled node restores the invariant |
| ShortestPaths.TrailDistinct | src/graph.cpp:203-209 | following predecessors back from the target never revisits a node |
| ShortestPaths.Reconstruct | src/graph.cpp:203-209 | the rebuilt path is a walk from start to target through distinct nodes whose weight is the target's label; start = target gives [start] |
| ShortestPaths.FirstIndexTo | src/graph.cpp:215-223 | the scan finds the first edge into the next node, or reports that there is none |
| ShortestPaths.FirstIndexToIs | src/graph.cpp:215-223 | an edge into the next node with none before it is the one the scan finds |
| ShortestPaths.At | src/graph.cpp:179 | `distances[id]` reads the stored label, or 0.0 for an id never stored, as `operator[]` does |
| ShortestPaths.TravelTime | src/graph.cpp:220-221 | the time charged for an edge is its Learned weight at the query hour, whatever the route's mode; non-negative for a non-negative length |
| ShortestPaths.LegDistance | src/graph.cpp:213-223 | non-negative when all lengths are; non-zero only when some edge leads from a to b |
| ShortestPaths.LegTime | src/graph.cpp:213-225 | non-negative when all lengths are; non-zero only when some edge leads from a to b |
| ShortestPaths.ReportedDistance | src/graph.cpp:211-226 | the reported distance is 0 for a one-node path and never negative when all lengths are non-negative |
| ShortestPaths.ReportedTime | src/graph.cpp:211-226 | the reported time is 0 for a one-node path and never negative when all lengths are non-negative |
| ShortestPaths.ReportedSnoc | src/graph.cpp:211-226 | the reported totals grow by one leg per path step |
| ShortestPaths.AddLeg | src/graph.cpp:213-225 | one leg adds the first matching edge's length and its learned-speed time, or nothing when there is no such edge |
| ShortestPaths.Totals | src/graph.cpp:211-226 | the loop's totals are the reported distance and time of the path |
| ShortestPaths.DistanceOfFirstEdgeWalk | src/graph.cpp:217 | when every step takes the first edge to its successor, the reported distance is the walk's Distance weight |
| ShortestPaths.TimeOfFirstEdgeWalk | src/graph.cpp:220-221 | when every step takes the first edge to its successor, the reported time is the walk's Learned weight at the query hour |
| ShortestPaths.FirstEdgesOfWalk | src/graph.cpp:215-216 | with no parallel edges, every step of a walk takes the first edge to its successor |
| LearnedPatterns.TakesDraw | src/graph.cpp:70-82 | the road types whose test reaches `dis(gen)` past the short-circuit `&&`: motorway, trunk, primary, secondary, residential |
| LearnedPatterns.Learn | src/graph.cpp:69-85 | a learned edge differs only in its multiplier, which is the old one, 0.6, 1.4 or 1.2 |
| LearnedPatterns.LearnThresholds | src/graph.cpp:70-85 | motorway/trunk become 0.6 below 0.05, primary/secondary 1.4 below 0.03, residential 1.2 below 0.02; other types never change |
| LearnedPatterns.NumberingExtend | src/graph.cpp:70-82 | the next drawn number goes to a new edge and keeps the numbering injective |
| LearnedPatterns.InListOrderExtend | src/graph.cpp:68 | numbering the next position of a list with a number above all earlier ones keeps the list order |
| LearnedPatterns.InListOrderFrame | src/graph.cpp:67 | numbers given to another list's edges leave this list's order intact |
| LearnedPatterns.ListsInBlocksExtend | src/graph.cpp:67-68 | numbering one more list with numbers above all earlier ones keeps every list's numbers in one block |
| LearnedPatterns.ListsTakeSeparateBlocks | src/graph.cpp:67-73 | lists [motorway, motorway] and [motorway] with draws 0.5, 0.01, 0.5: in either visiting order the low draw goes to the two-edge list and the single edge is unchanged |
| LearnedPatterns.ListTakesDrawsInOrder | src/graph.cpp:68-73 | two motorway edges drawing 0.01 then 0.5: the first is congested, the second unchanged |
| LearnedPatterns.LearnedPrefixStep | src/graph.cpp:68-86 | one more edge of a list processed keeps the per-edge learning record |
| LearnedPatterns.LearnKeepsEdgeOk | src/graph.cpp:71-83 | a rewritten edge still has its table speed and a positive multiplier |
| LearnedPatterns.LearnedIsSameRoads | src/graph.cpp:67-87 | after the pass, the same edges lie in the same places, and only multipliers differ |
| LearnedPatterns.SameRoadsKeepsShape | src/graph.cpp:67-87 | the pass keeps the graph well-formed and the edge count unchanged |
| LearnedPatterns.SameRoadsSameWalks | src/graph.cpp:67-87 | the pass keeps exactly the same walks |
| LearnedPatterns.SameRoadsSameStaticWeights | src/graph.cpp:120-126 | the pass changes no walk's Distance or SpeedLimit weight |
| RoadGraph.Graph.constructor | src/graph.h:37-40 | a new graph is empty and well-formed |
| RoadGraph.Graph.AddNode | src/graph.cpp:8-10 | the node is stored under its id and getNode returns it; nodeCount grows exactly when the id is new; well-formedness is kept |
| RoadGraph.Graph.AddEdge | src/graph.cpp:12-32 | getEdges(from) is the old list plus the new edge; the edge count grows by one; well-formedness is kept |
| RoadGraph.Graph.GetNode | src/graph.cpp:34-37 | present exactly when the id is stored, and then it is that node with that id |
| RoadGraph.Graph.GetEdges | src/graph.cpp:39-42 | present exactly when a list is stored for the id, and then it is that list of well-formed edges |
| RoadGraph.Graph.NodeCount | src/graph.h:61 | the number of distinct node ids |
| RoadGraph.Graph.EdgeCount | src/graph.cpp:44-50 | the total of all adjacency-list lengths |
| RoadGraph.Graph.ApplyLearnedPatterns | src/graph.cpp:59-92 | nodes and origins are unchanged; each edge is rewritten by Learn with its own drawn number; numbers are injective and below the count drawn; within each list, later edges take later numbers, and each list's numbers form one unbroken block (`ListsInBlocks`); the graph stays well-formed with the same roads and edge count |
| RoadGraph.Graph.Dijkstra | src/graph.cpp:139-229 | mode and mode name as given; empty path exactly when the end is unreachable, with zero totals; otherwise a minimum-weight walk from start to end through distinct nodes; totals are the first-edge sums, which are the walk's Distance and Learned weights when there are no parallel edges; start = end gives [start] |
| RoadGraph.LearnEdges | src/graph.cpp:68-86 | every edge of one list is learned with its own new number; the new numbers are the next ones drawn, taken in list order; earlier numbers are kept, and lists already in blocks stay in blocks |
| RoadGraph.LearnEdge | src/graph.cpp:69-85 | an edge of a tested type draws exactly one number and is rewritten by Learn; any other edge draws none and is unchanged |
| RoadGraph.DemonstrationWeights | src/graph.cpp:118-127 | a worked example: two 1000 m motorway edges weigh 2000 m / 72 s against 2500 m / 225 s for one residential edge |
| OsmText.FindFrom | src/osm_parser.cpp:50-52 | find returns the first occurrence at or after the start position, or none when there is none |
| OsmText.TagValue | src/osm_parser.cpp:79-85 | the value holds no quote and sits, as `v="value"`, at the first `v="` of the line; no value when `v="` or the closing quote after it is missing |
| OsmText.TagValueTakesFirst | src/osm_parser.cpp:79-83 | on a line with two values the first one is read |
| OsmText.TagValueWitness | src/osm_parser.cpp:79-85 | the text between `v="` and the next quote, with its delimiters, is an occurrence in the line |
| OsmParser.NodeLine | src/osm_parser.cpp:46-59 | a line yields an addNode call exactly when it contains `<node`, `id="`, `lat="` and `lon="`, with the id read at the first `id="` |
| OsmParser.WayEdges | src/osm_parser.cpp:99-109 | a way of n references issues at most 2(n-1) calls |
| OsmParser.Closing | src/osm_parser.cpp:97-117 | the closing check changes only the in-way flag and the way counter, which grows by at most one; `</way>` always leaves the way; other lines change nothing |
| OsmParser.ClosingEdges | src/osm_parser.cpp:97-109 | edges are issued only on a `</way>` line of a highway with at least two references, and come in pairs |
| OsmParser.Step | src/osm_parser.cpp:45-117 | a line's own addNode call comes before its edges; each counter grows by at most one per line |
| OsmParser.Scan | src/osm_parser.cpp:44-118 | neither counter exceeds the number of lines |
| OsmParser.StepCountsNodes | src/osm_parser.cpp:59-60 | the node counter of a line grows by exactly the number of addNode calls the line issues |
| OsmParser.ScanCountsNodes | src/osm_parser.cpp:41-60 | the node counter the loader returns is the number of addNode calls it issued |
| OsmParser.LoadedOriginsAreNodes | src/osm_parser.cpp:100-107 | in a graph loaded from scratch every id with an edge list, and every edge's head, is a node |
| OsmParser.StepNodeLine | src/osm_parser.cpp:46-66 | a line adds a node exactly when it contains `<node`, `id="`, `lat="` and `lon="`, and the node counter counts it |
| OsmParser.StepOpensWay | src/osm_parser.cpp:69-74 | `<way` enters a way with no highway tag, type "unclassified" and no nodes |
| OsmParser.StepOutsideWay | src/osm_parser.cpp:76-95 | outside a way, tag and node-reference lines change nothing |
| OsmParser.StepTagsWay | src/osm_parser.cpp:76-86 | inside a way, a highway tag marks it and takes the tag's value as type when there is one |
| OsmParser.StepAddsRef | src/osm_parser.cpp:88-95 | inside a way, an `<nd ref=` line appends its id after the earlier ones |
| OsmParser.StepClosesWay | src/osm_parser.cpp:97-117 | `</way>` always leaves the way; it counts the way only for a highway with at least two references, and otherwise issues no edge |
| OsmParser.WayEdgesShape | src/osm_parser.cpp:98-109 | a way's calls are addEdge calls of its type between known, consecutive references, in mirrored pairs with equal lengths |
| OsmParser.WayEdgesComplete | src/osm_parser.cpp:99-109 | every pair of consecutive known references gets both directed edges, one right after the other, with the computed distance |
| OsmParser.WayEdgesSnoc | src/osm_parser.cpp:99-109 | the calls of one more reference are the earlier calls followed by the new pair's |
| OsmParser.StepKeepsClosed | src/osm_parser.cpp:44-118 | after any line, every edge still joins two stored nodes |
| OsmParser.ScanKeepsClosed | src/osm_parser.cpp:44-118 | loading a file into a graph whose edges join nodes keeps that property |
| OsmParser.StepDistances | src/osm_parser.cpp:104-107 | with a non-negative distance function, every edge a line adds has a non-negative length |
| OsmParser.WayEdgesDistances | src/osm_parser.cpp:104-107 | with a non-negative distance function, every edge a way adds has a non-negative length |
| OsmParser.ReplayNonNegative | src/osm_parser.cpp:106-107 | issuing calls with non-negative lengths keeps all lengths non-negative |
| OsmParser.ScanKeepsNonNegative | src/osm_parser.cpp:104-107 | with a non-negative distance function the loaded graph has only non-negative lengths, as the search needs |
| OsmParser.ParseOsm | src/osm_parser.cpp:26-125 | fails exactly when the file cannot be opened, then leaving the graph unchanged; otherwise it issues exactly Scan's calls in order and returns Scan's node and way counters |
| OsmParser.ParseLine | src/osm_parser.cpp:45-117 | one loop iteration issues Step's calls and leaves Step's state |
| OsmParser.ReadNode | src/osm_parser.cpp:46-66 | the node check issues the line's addNode call, if any, and counts it |
| OsmParser.TrackWay | src/osm_parser.cpp:69-95 | the way, tag and reference checks, in order |
| OsmParser.CloseWay | src/osm_parser.cpp:97-117 | the closing check issues the way's edges against the nodes known at that point and updates the state |
| OsmParser.EmitWay | src/osm_parser.cpp:99-109 | the edge loop issues exactly the way's calls, in order |

## Left out

- Console output is not modelled: `printStats`, the learning summary and its two counters `shortcuts_found` and `congestion_points` (only printed), and the loader's progress and summary messages. These are output only.
- `haversineDistance` (src/osm_parser.cpp:13-24) needs trigonometry on doubles. It is a parameter of the loader (`Readers.distance`).
- `sscanf` is a parameter (`Readers.id`, `Readers.coord`). The uninitialised variable left behind when `sscanf` fails to read a number is not modelled.
- `std::random_device` and `std::mt19937` are replaced by a parameter `draw`, the stream of numbers the generator would return.
- Doubles are modelled as exact reals. Rounding, NaN and overflow are not modelled. Infinity appears only as the search's "unreached" label.
- `long long` ids are unbounded integers. The `int` counters of the loader and the `size_t` counts never wrap in the model.
- Iteration order of `std::unordered_map` (in `edgeCount`, `applyLearnedPatterns` and the search's initialisation) is an arbitrary choice. Each contract holds for every order. Which edge takes which random number depends on this order, so the model records it rather than fixing it.
- The binary heap behind `std::priority_queue` is modelled as a sequence whose top is a least entry in the pair order. An entry is a (distance, id) pair, so two equal entries are the same value and the order among them cannot change the result.
- `operator[]` on `distances` and `previous` inserts a default entry on a read of a missing key. The model reads the same default (0.0) without growing the map.
- RoadGraph.Graph.Dijkstra: requires both ids to be nodes. For an end id that is not a node, the source's reconstruction loop follows default predecessors. The interactive query checks both ids with `getNode` (src/main.cpp:261). The sample route (src/main.cpp:220-226) takes ids that have outgoing edges (src/main.cpp:152-174); in a graph loaded from scratch every such id is a node (`LoadedOriginsAreNodes`), and `applyLearnedPatterns` keeps nodes and origins.
- RoadGraph.Graph.Dijkstra: requires every edge length to be non-negative. `addEdge` does not check this, but the loader only stores haversine distances (see `ScanKeepsNonNegative`).
- RoadGraph.Graph.Dijkstra: the returned path is shown to be a walk of least weight, not to equal the exact path the C++ heap order would produce when several walks tie.
- RoadGraph.Graph.ApplyLearnedPatterns: stated for any number stream. The probabilities 0.05, 0.03 and 0.02 appear only as thresholds.
- Reading the file is modelled as an optional sequence of lines. `None` means the file cannot be opened. Line splitting by `std::getline` is not modelled.
- `src/main.cpp` (the interactive menu, route comparison printout and JSON export) and `src/osm_parser.h` are not part of this model. The parser class has no state, so `parseOSM` is a module-level method.
