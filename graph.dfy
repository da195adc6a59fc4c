/**
 * The road graph of src/graph.h and src/graph.cpp: a node table and an
 * adjacency table that the loader fills in place, the crowd-learning pass
 * that rewrites edge multipliers in place, and the route query.
 *
 * `Snapshot()` is the graph's current value as a `Network`; every
 * operation is stated against the functions of RoadNetwork, LearnedPatterns
 * and ShortestPaths on that value.
 */
module RoadGraph {
  import opened Wrappers
  import opened Roads
  import opened CostModel
  import opened RoadNetwork
  import opened Walks
  import opened LearnedPatterns
  import opened ShortestPaths

  class Graph {
    /** Nodes by OSM id (std::unordered_map<long long, Node>). */
    var nodes: map<int, Node>
    /** Outgoing edges by source id, in insertion order. */
    var adjacency: map<int, seq<Edge>>

    function Snapshot(): Network
      reads this
    {
      Network(nodes, adjacency)
    }

    ghost predicate Valid()
      reads this
    {
      WellFormed(Snapshot())
    }

    constructor ()
      ensures Snapshot() == Empty && Valid()
    {
      nodes := map[];
      adjacency := map[];
    }

    /** addNode: the node is stored under its id, replacing any earlier one. */
    method AddNode(id: int, lat: real, lon: real)
      modifies this
      ensures Snapshot() == WithNode(old(Snapshot()), id, lat, lon)
      ensures GetNode(id) == Some(Node(id, lat, lon))
      ensures NodeCount() == old(NodeCount()) + (if id in old(nodes) then 0 else 1)
      ensures old(Valid()) ==> Valid()
    {
      if Valid() {
        WithNodeKeepsWellFormed(Snapshot(), id, lat, lon);
      }
      WithNodeCount(Snapshot(), id, lat, lon);
      nodes := nodes[id := Node(id, lat, lon)];
    }

    /**
     * addEdge: appends a directed edge whose speed limit comes from the
     * road-type table and whose crowd multiplier is 1.0. Neither end has to
     * be a node.
     */
    method AddEdge(from: int, to: int, distance: real, roadType: string := "unclassified")
      modifies this
      ensures Snapshot() == WithEdge(old(Snapshot()), from, to, distance, roadType)
      ensures GetEdges(from) == Some(old(EdgesFrom(adjacency, from)) + [NewEdge(to, distance, roadType)])
      ensures TotalEdges(adjacency) == old(TotalEdges(adjacency)) + 1
      ensures old(Valid()) ==> Valid()
    {
      if Valid() {
        WithEdgeKeepsWellFormed(Snapshot(), from, to, distance, roadType);
      }
      WithEdgeCount(Snapshot(), from, to, distance, roadType);
      var speedLimit := SpeedLimitFor(roadType);
      adjacency := adjacency[from := EdgesFrom(adjacency, from) + [Edge(to, distance, speedLimit, roadType, 1.0)]];
    }

    /** getNode: the node stored under `id`, none when there is none. */
    function GetNode(id: int): (r: Option<Node>)
      reads this
      ensures r.Some? <==> id in nodes
      ensures r.Some? ==> r.value == nodes[id]
      ensures r.Some? && Valid() ==> r.value.id == id
    {
      if id in nodes then Some(nodes[id]) else None
    }

    /** getEdges: the edges leaving `id`, none when no edge was ever added from it. */
    function GetEdges(id: int): (r: Option<seq<Edge>>)
      reads this
      ensures r.Some? <==> id in adjacency
      ensures r.Some? ==> r.value == adjacency[id]
      ensures r.Some? && Valid() ==> forall i | 0 <= i < |r.value| :: EdgeOk(r.value[i])
    {
      if id in adjacency then Some(adjacency[id]) else None
    }

    /** nodeCount: the number of distinct node ids (see RoadNetwork.BuiltNodeCount for a loaded graph). */
    function NodeCount(): (n: nat)
      reads this
      ensures n == |nodes.Keys|
    {
      |nodes|
    }

    /** edgeCount: the lengths of all adjacency lists added up; specified by RoadNetwork.TotalEdges. */
    method EdgeCount() returns (count: nat)
      ensures count == TotalEdges(adjacency)
    {
      count := 0;
      var remaining := adjacency.Keys;
      while remaining != {}
        invariant remaining <= adjacency.Keys
        invariant count + SumLengths(adjacency, remaining) == TotalEdges(adjacency)
        decreases |remaining|
      {
        assert exists k :: k in remaining by {
          if forall k :: k !in remaining { assert false; }
        }
        var k :| k in remaining;
        SumLengthsRemove(adjacency, remaining, k);
        count := count + |adjacency[k]|;
        remaining := remaining - {k};
      }
    }

    /**
     * applyLearnedPatterns: every edge of a congestion-prone or shortcut-prone
     * road type takes one number from `draw` (the generator's output, in
     * order) and a low enough number rewrites its crowd multiplier.
     * `draws` is how many numbers were taken; `slot` says which edge took
     * which one.
     */
    method ApplyLearnedPatterns(draw: nat -> real) returns (draws: nat, ghost slot: map<(int, nat), nat>)
      modifies this
      ensures nodes == old(nodes) && adjacency.Keys == old(adjacency).Keys
      ensures forall k | k in adjacency :: LearnedList(old(adjacency)[k], adjacency[k], slot, k, draw)
      ensures Numbering(slot, draws)
      ensures forall k | k in adjacency :: InListOrder(slot, k)
      ensures ListsInBlocks(slot)
      ensures old(Valid()) ==> Valid() && SameRoads(old(Snapshot()), Snapshot())
      ensures old(Valid()) ==> TotalEdges(adjacency) == old(TotalEdges(adjacency))
    {
      draws, slot := 0, map[];
      var remaining := adjacency.Keys;
      while remaining != {}
        invariant nodes == old(nodes) && adjacency.Keys == old(adjacency).Keys && remaining <= adjacency.Keys
        invariant forall k | k in remaining :: adjacency[k] == old(adjacency)[k]
        invariant forall k | k in adjacency && k !in remaining :: LearnedList(old(adjacency)[k], adjacency[k], slot, k, draw)
        invariant forall p | p in slot :: p.0 !in remaining
        invariant Numbering(slot, draws)
        invariant forall k | k in adjacency && k !in remaining :: InListOrder(slot, k)
        invariant ListsInBlocks(slot)
        decreases |remaining|
      {
        assert exists k :: k in remaining by {
          if forall k :: k !in remaining { assert false; }
        }
        var k :| k in remaining;
        ghost var slot0 := slot;
        var learned;
        learned, draws, slot := LearnEdges(k, adjacency[k], draw, draws, slot);
        forall k' | k' in adjacency && k' !in remaining
          ensures LearnedList(old(adjacency)[k'], adjacency[k'], slot, k', draw)
        {
          LearnedListFrame(old(adjacency)[k'], adjacency[k'], slot0, slot, k', draw);
          InListOrderFrame(slot0, slot, k');
        }
        adjacency := adjacency[k := learned];
        remaining := remaining - {k};
      }
      if old(Valid()) {
        LearnedIsSameRoads(old(Snapshot()), Snapshot(), slot, draw);
        SameRoadsKeepsShape(old(Snapshot()), Snapshot());
      }
    }

    /**
     * dijkstra: the route from `startId` to `endId` under `mode` at
     * `hourOfDay`, with its length and estimated travel time. `steps` names
     * the edge taken at every step of the path (ghost).
     */
    method Dijkstra(startId: int, endId: int, mode: RouteMode := SpeedLimit, hourOfDay: int := 12)
      returns (result: RouteResult, ghost steps: seq<nat>)
      requires Valid() && NonNegative(Snapshot())
      requires startId in nodes && endId in nodes
      ensures result.mode == mode && result.modeName == ModeName(mode)
      ensures result.path == [] <==> !Reaches(Snapshot(), startId, endId)
      ensures result.path == [] ==> result.totalDistance == 0.0 && result.estimatedTime == 0.0
      ensures result.path != [] ==>
                && IsWalk(Snapshot(), result.path, steps)
                && result.path[0] == startId && Last(result.path) == endId
                && Distinct(result.path)
                && forall w, ws | IsWalk(Snapshot(), w, ws) && w[0] == startId && Last(w) == endId ::
                     WalkWeight(Metric(Snapshot(), mode, hourOfDay), result.path, steps)
                       <= WalkWeight(Metric(Snapshot(), mode, hourOfDay), w, ws)
      ensures result.path != [] ==>
                && result.totalDistance == ReportedDistance(Snapshot(), result.path)
                && result.estimatedTime == ReportedTime(Snapshot(), hourOfDay, result.path)
      ensures result.path != [] && NoParallelEdges(Snapshot()) ==>
                && result.totalDistance == WalkWeight(Metric(Snapshot(), Distance, hourOfDay), result.path, steps)
                && result.estimatedTime == WalkWeight(Metric(Snapshot(), Learned, hourOfDay), result.path, steps)
      ensures startId == endId ==> result.path == [startId]
    {
      var m := Metric(Snapshot(), mode, hourOfDay);
      result := RouteResult([], 0.0, 0.0, mode, ModeName(mode));
      steps := [];
      var dist, prev, via, rank := Search(m, startId, endId);
      if dist[endId].Infinite? {
        return;
      }
      var path;
      path, steps := Reconstruct(m, startId, endId, dist, prev, via, rank);
      var totalDistance, estimatedTime := Totals(m.net, hourOfDay, path);
      result := result.(path := path, totalDistance := totalDistance, estimatedTime := estimatedTime);
      if NoParallelEdges(m.net) {
        FirstEdgesOfWalk(m.net, path, steps);
        DistanceOfFirstEdgeWalk(m.net, hourOfDay, path, steps);
        TimeOfFirstEdgeWalk(m.net, hourOfDay, path, steps);
      }
    }
  }

  /**
   * The inner loop of applyLearnedPatterns (src/graph.cpp:68-86): the edges
   * leaving `k`, one by one; the edges that draw take the next numbers.
   */
  method LearnEdges(k: int, edges: seq<Edge>, draw: nat -> real, draws0: nat, ghost slot0: map<(int, nat), nat>)
    returns (learned: seq<Edge>, draws: nat, ghost slot: map<(int, nat), nat>)
    requires forall p | p in slot0 :: p.0 != k
    requires Numbering(slot0, draws0)
    ensures LearnedList(edges, learned, slot, k, draw)
    ensures forall p | p in slot0 :: p in slot && slot[p] == slot0[p]
    ensures forall p | p in slot && p !in slot0 :: p.0 == k
    ensures Numbering(slot, draws)
    ensures draws0 <= draws && forall p | p in slot && p !in slot0 :: draws0 <= slot[p]
    ensures InListOrder(slot, k)
    ensures ListsInBlocks(slot0) ==> ListsInBlocks(slot)
  {
    learned, draws, slot := edges, draws0, slot0;
    var j := 0;
    while j < |edges|
      invariant LearnedPrefix(edges, learned, slot0, slot, k, j, draws, draw)
      invariant draws0 <= draws && forall p | p in slot && p !in slot0 :: draws0 <= slot[p]
      invariant InListOrder(slot, k)
    {
      assert learned[j] == learned[j..][0] == edges[j];
      var edge, next := LearnEdge(learned[j], draw, draws);
      LearnedPrefixStep(edges, learned, slot0, slot, k, j, draws, draw, edge, next);
      if next != draws {
        forall p | p in slot && p.0 == k
          ensures p.1 < j && slot[p] < draws
        {
          assert p !in slot0;
        }
        InListOrderExtend(slot, k, j, draws);
        slot := slot[(k, j) := draws];
      }
      draws := next;
      learned := learned[j := edge];
      j := j + 1;
    }
    LearnedPrefixDone(edges, learned, slot0, slot, k, draws, draw);
    if ListsInBlocks(slot0) {
      ListsInBlocksExtend(slot0, slot, k, draws0);
    }
  }

  /**
   * One edge of applyLearnedPatterns (src/graph.cpp:70-85): the three
   * checks in order, each drawing a number only when the road type
   * matches. Returns the edge as rewritten and the count of numbers drawn so far.
   */
  method LearnEdge(edge: Edge, draw: nat -> real, draws0: nat) returns (learned: Edge, draws: nat)
    ensures TakesDraw(edge) ==> draws == draws0 + 1 && learned == Learn(edge, draw(draws0))
    ensures !TakesDraw(edge) ==> draws == draws0 && learned == edge
  {
    learned, draws := edge, draws0;
    if learned.roadType == "motorway" || learned.roadType == "trunk" {
      var d := draw(draws);
      draws := draws + 1;
      if d < 0.05 {
        learned := learned.(crowdMultiplier := 0.6);
      }
    }
    if learned.roadType == "primary" || learned.roadType == "secondary" {
      var d := draw(draws);
      draws := draws + 1;
      if d < 0.03 {
        learned := learned.(crowdMultiplier := 1.4);
      }
    }
    if learned.roadType == "residential" {
      var d := draw(draws);
      draws := draws + 1;
      if d < 0.02 {
        learned := learned.(crowdMultiplier := 1.2);
      }
    }
  }

  /**
   * A worked example of the cost formulas: A -> B and B -> C are 1000 m of
   * motorway, A -> C is 2500 m of residential street. The motorway detour
   * is both shorter (2000 m < 2500 m) and faster at noon under SpeedLimit
   * (72 s < 225 s), so both modes weigh [A, B, C] lower.
   */
  lemma DemonstrationWeights()
    ensures var ab, bc, ac := NewEdge(2, 1000.0, "motorway"), NewEdge(3, 1000.0, "motorway"), NewEdge(3, 2500.0, "residential");
      && EdgeWeight(ab, Distance, 12) + EdgeWeight(bc, Distance, 12) == 2000.0
      && EdgeWeight(ac, Distance, 12) == 2500.0
      && EdgeWeight(ab, SpeedLimit, 12) + EdgeWeight(bc, SpeedLimit, 12) == 72.0
      && EdgeWeight(ac, SpeedLimit, 12) == 225.0
  {
    SpeedTable();
  }
}
