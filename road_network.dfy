/**
 * The road-network store as a value (the two maps of class Graph in
 * src/graph.h and the state changes addNode/addEdge of src/graph.cpp), the
 * speed-limit table, and a history view: a network built by a sequence of
 * addNode/addEdge calls, as the map reader issues them.
 */
module RoadNetwork {
  import opened Wrappers
  import opened Roads

  /** id -> node, and id -> outgoing edges in insertion order. */
  datatype Network = Network(nodes: map<int, Node>, adjacency: map<int, seq<Edge>>)

  const Empty: Network := Network(map[], map[])

  /** The posted speed (km/h) a new edge receives from its road type; unknown types get 50. */
  function SpeedLimitFor(roadType: string): (kmh: real)
    ensures 20.0 <= kmh <= 100.0
  {
    if roadType == "motorway" || roadType == "motorway_link" then 100.0
    else if roadType == "trunk" || roadType == "trunk_link" then 80.0
    else if roadType == "primary" || roadType == "primary_link" then 65.0
    else if roadType == "secondary" then 55.0
    else if roadType == "tertiary" || roadType == "residential" then 40.0
    else if roadType == "living_street" then 20.0
    else 50.0
  }

  /** The speed table, row by row; the default road type of addEdge falls through to 50 km/h. */
  lemma SpeedTable()
    ensures SpeedLimitFor("motorway") == 100.0 && SpeedLimitFor("motorway_link") == 100.0
    ensures SpeedLimitFor("trunk") == 80.0 && SpeedLimitFor("trunk_link") == 80.0
    ensures SpeedLimitFor("primary") == 65.0 && SpeedLimitFor("primary_link") == 65.0
    ensures SpeedLimitFor("secondary") == 55.0
    ensures SpeedLimitFor("tertiary") == 40.0 && SpeedLimitFor("residential") == 40.0
    ensures SpeedLimitFor("living_street") == 20.0
    ensures SpeedLimitFor("unclassified") == 50.0
    ensures SpeedLimitFor("motorway-link") == 50.0 && SpeedLimitFor("Motorway") == 50.0
  {
  }

  /** Every edge's speed comes from the table and its multiplier is positive; nodes sit under their own id. */
  ghost predicate WellFormed(net: Network)
  {
    && (forall id | id in net.nodes :: net.nodes[id].id == id)
    && (forall from, k | from in net.adjacency && 0 <= k < |net.adjacency[from]| ::
          EdgeOk(net.adjacency[from][k]))
  }

  predicate EdgeOk(e: Edge)
  {
    e.speedLimit == SpeedLimitFor(e.roadType) && e.crowdMultiplier > 0.0
  }

  lemma EdgeOkIsDrivable(e: Edge)
    requires EdgeOk(e)
    ensures Drivable(e)
  {
  }

  /** No edge has a negative length (the search's precondition; addEdge itself does not check it). */
  ghost predicate NonNegative(net: Network)
  {
    forall from, k | from in net.adjacency && 0 <= k < |net.adjacency[from]| ::
      net.adjacency[from][k].distance >= 0.0
  }

  /** The edges leaving `id`, empty when none were ever added. */
  function EdgesFrom(adjacency: map<int, seq<Edge>>, id: int): seq<Edge>
  {
    if id in adjacency then adjacency[id] else []
  }

  /** addNode: insert or overwrite (last write wins). */
  function WithNode(net: Network, id: int, lat: real, lon: real): (r: Network)
    ensures r.adjacency == net.adjacency
    ensures r.nodes.Keys == net.nodes.Keys + {id}
    ensures r.nodes[id] == Node(id, lat, lon)
    ensures forall other | other in net.nodes && other != id :: r.nodes[other] == net.nodes[other]
  {
    net.(nodes := net.nodes[id := Node(id, lat, lon)])
  }

  /** The edge addEdge creates: speed from the table, multiplier 1.0. */
  function NewEdge(to: int, distance: real, roadType: string): (e: Edge)
    ensures EdgeOk(e) && e.crowdMultiplier == 1.0
  {
    Edge(to, distance, SpeedLimitFor(roadType), roadType, 1.0)
  }

  /** addEdge: append one edge at the end of `from`'s list (creating the list if needed). */
  function WithEdge(net: Network, from: int, to: int, distance: real, roadType: string): (r: Network)
    ensures r.nodes == net.nodes
    ensures r.adjacency.Keys == net.adjacency.Keys + {from}
    ensures r.adjacency[from] == EdgesFrom(net.adjacency, from) + [NewEdge(to, distance, roadType)]
    ensures forall other | other in net.adjacency && other != from ::
              r.adjacency[other] == net.adjacency[other]
  {
    net.(adjacency := net.adjacency[from := EdgesFrom(net.adjacency, from) + [NewEdge(to, distance, roadType)]])
  }

  lemma WithNodeKeepsWellFormed(net: Network, id: int, lat: real, lon: real)
    requires WellFormed(net)
    ensures WellFormed(WithNode(net, id, lat, lon))
  {
  }

  lemma WithEdgeKeepsWellFormed(net: Network, from: int, to: int, distance: real, roadType: string)
    requires WellFormed(net)
    ensures WellFormed(WithEdge(net, from, to, distance, roadType))
  {
    var r := WithEdge(net, from, to, distance, roadType);
    forall f, k | f in r.adjacency && 0 <= k < |r.adjacency[f]|
      ensures EdgeOk(r.adjacency[f][k])
    {
      if f == from && k == |r.adjacency[f]| - 1 {
      } else if f == from {
        assert r.adjacency[f][k] == net.adjacency[f][k];
      }
    }
  }

  /** nodeCount grows by one exactly when the id is new. */
  lemma WithNodeCount(net: Network, id: int, lat: real, lon: real)
    ensures |WithNode(net, id, lat, lon).nodes| == if id in net.nodes then |net.nodes| else |net.nodes| + 1
  {
  }

  // ---------------------------------------------------------------------
  // Counting edges: the sum of the adjacency-list lengths, in any key order.

  /** Some element of a non-empty set (which one is left open). */
  ghost function Pick(s: set<int>): (x: int)
    requires s != {}
    ensures x in s
  {
    assert exists y :: y in s by { if forall y :: y !in s { assert false; } }
    var y :| y in s; y
  }

  ghost function SumLengths(adjacency: map<int, seq<Edge>>, keys: set<int>): nat
    requires keys <= adjacency.Keys
    decreases keys
  {
    if keys == {} then 0
    else
      var k := Pick(keys);
      |adjacency[k]| + SumLengths(adjacency, keys - {k})
  }

  /** The number of edges stored, summed over all adjacency lists (the specification of Graph.EdgeCount). */
  ghost function TotalEdges(adjacency: map<int, seq<Edge>>): nat
  {
    SumLengths(adjacency, adjacency.Keys)
  }

  /** The sum does not depend on which key is taken out first. */
  lemma {:induction false} SumLengthsRemove(adjacency: map<int, seq<Edge>>, keys: set<int>, k: int)
    requires keys <= adjacency.Keys && k in keys
    ensures SumLengths(adjacency, keys) == |adjacency[k]| + SumLengths(adjacency, keys - {k})
    decreases keys
  {
    var j := Pick(keys);
    if j != k {
      SumLengthsRemove(adjacency, keys - {j}, k);
      SumLengthsRemove(adjacency, keys - {k}, j);
      assert keys - {j} - {k} == keys - {k} - {j};
    }
  }

  /** Two maps that agree on `keys` have the same sum over them. */
  lemma {:induction false} SumLengthsAgree(a: map<int, seq<Edge>>, b: map<int, seq<Edge>>, keys: set<int>)
    requires keys <= a.Keys && keys <= b.Keys
    requires forall k | k in keys :: |a[k]| == |b[k]|
    ensures SumLengths(a, keys) == SumLengths(b, keys)
    decreases keys
  {
    if keys != {} {
      var k := Pick(keys);
      SumLengthsRemove(a, keys, k);
      SumLengthsRemove(b, keys, k);
      SumLengthsAgree(a, b, keys - {k});
    }
  }

  /** addEdge raises the edge count by exactly one. */
  lemma {:induction false} WithEdgeCount(net: Network, from: int, to: int, distance: real, roadType: string)
    ensures TotalEdges(WithEdge(net, from, to, distance, roadType).adjacency) == TotalEdges(net.adjacency) + 1
  {
    var a := net.adjacency;
    var b := WithEdge(net, from, to, distance, roadType).adjacency;
    var rest := a.Keys - {from};
    assert b.Keys - {from} == rest;
    SumLengthsRemove(b, b.Keys, from);
    SumLengthsAgree(a, b, rest);
    if from in a {
      SumLengthsRemove(a, a.Keys, from);
    } else {
      assert a.Keys == rest;
    }
  }

  // ---------------------------------------------------------------------
  // Building a network by a sequence of calls.

  datatype Call =
    | AddNodeCall(id: int, lat: real, lon: real)
    | AddEdgeCall(from: int, to: int, distance: real, roadType: string)

  function Apply(net: Network, c: Call): Network
  {
    match c
    case AddNodeCall(id, lat, lon) => WithNode(net, id, lat, lon)
    case AddEdgeCall(from, to, distance, roadType) => WithEdge(net, from, to, distance, roadType)
  }

  /** The network after issuing `calls` in order. */
  function Replay(net: Network, calls: seq<Call>): Network
    decreases |calls|
  {
    if calls == [] then net
    else Apply(Replay(net, calls[..|calls| - 1]), calls[|calls| - 1])
  }

  /** Issuing two batches of calls one after the other. */
  lemma {:induction false} ReplayAppend(net: Network, a: seq<Call>, b: seq<Call>)
    ensures Replay(net, a + b) == Replay(Replay(net, a), b)
    decreases |b|
  {
    if b != [] {
      var n := |b| - 1;
      assert (a + b)[..|a + b| - 1] == a + b[..n];
      ReplayAppend(net, a, b[..n]);
    } else {
      assert a + b == a;
    }
  }

  /** The ids given to addNode calls. */
  function NodeIds(calls: seq<Call>): set<int>
    decreases |calls|
  {
    if calls == [] then {}
    else
      var c := calls[|calls| - 1];
      NodeIds(calls[..|calls| - 1]) + (if c.AddNodeCall? then {c.id} else {})
  }

  /** The origins given to addEdge calls. */
  function EdgeSources(calls: seq<Call>): set<int>
    decreases |calls|
  {
    if calls == [] then {}
    else
      var c := calls[|calls| - 1];
      EdgeSources(calls[..|calls| - 1]) + (if c.AddEdgeCall? then {c.from} else {})
  }

  /** An id is in NodeIds exactly when some addNode call carries it. */
  lemma {:induction false} NodeIdsMeaning(calls: seq<Call>, id: int)
    ensures id in NodeIds(calls) <==> exists i :: 0 <= i < |calls| && calls[i].AddNodeCall? && calls[i].id == id
    decreases |calls|
  {
    if calls != [] {
      var n := |calls| - 1;
      NodeIdsMeaning(calls[..n], id);
      if id in NodeIds(calls[..n]) {
        var i :| 0 <= i < n && calls[..n][i].AddNodeCall? && calls[..n][i].id == id;
        assert calls[i] == calls[..n][i];
      }
      if exists i :: 0 <= i < |calls| && calls[i].AddNodeCall? && calls[i].id == id {
        var i :| 0 <= i < |calls| && calls[i].AddNodeCall? && calls[i].id == id;
        if i < n {
          assert calls[..n][i] == calls[i];
        }
      }
    }
  }

  /** The number of addEdge calls. */
  function EdgeCallCount(calls: seq<Call>): nat
    decreases |calls|
  {
    if calls == [] then 0
    else EdgeCallCount(calls[..|calls| - 1]) + (if calls[|calls| - 1].AddEdgeCall? then 1 else 0)
  }

  /** The node stored for `id` by the last addNode call with that id, if any. */
  function LastNodeCall(calls: seq<Call>, id: int): Option<Node>
    decreases |calls|
  {
    if calls == [] then None
    else
      var c := calls[|calls| - 1];
      if c.AddNodeCall? && c.id == id then Some(Node(id, c.lat, c.lon))
      else LastNodeCall(calls[..|calls| - 1], id)
  }

  /**
   * Node ids after a history: the old ones plus every id passed to addNode,
   * so nodeCount of a network built from scratch is the number of distinct ids.
   */
  lemma {:induction false} ReplayNodeIds(net: Network, calls: seq<Call>)
    ensures Replay(net, calls).nodes.Keys == net.nodes.Keys + NodeIds(calls)
    decreases |calls|
  {
    if calls != [] {
      var n := |calls| - 1;
      ReplayNodeIds(net, calls[..n]);
    }
  }

  lemma BuiltNodeCount(calls: seq<Call>)
    ensures |Replay(Empty, calls).nodes| == |NodeIds(calls)|
  {
    ReplayNodeIds(Empty, calls);
    assert Replay(Empty, calls).nodes.Keys == NodeIds(calls);
  }

  /** getEdges(id) is present exactly for the old origins and those given to addEdge. */
  lemma {:induction false} ReplayEdgeSources(net: Network, calls: seq<Call>)
    ensures Replay(net, calls).adjacency.Keys == net.adjacency.Keys + EdgeSources(calls)
    decreases |calls|
  {
    if calls != [] {
      var n := |calls| - 1;
      ReplayEdgeSources(net, calls[..n]);
    }
  }

  /** edgeCount after a history: the old count plus one per addEdge call. */
  lemma {:induction false} ReplayEdgeCount(net: Network, calls: seq<Call>)
    ensures TotalEdges(Replay(net, calls).adjacency) == TotalEdges(net.adjacency) + EdgeCallCount(calls)
    decreases |calls|
  {
    if calls != [] {
      var n := |calls| - 1;
      ReplayEdgeCount(net, calls[..n]);
      match calls[n]
      case AddEdgeCall(from, to, distance, roadType) =>
        WithEdgeCount(Replay(net, calls[..n]), from, to, distance, roadType);
      case AddNodeCall(_, _, _) =>
    }
  }

  /** Last write wins: a node holds the coordinates of the last addNode call for its id. */
  lemma {:induction false} ReplayLastWriteWins(net: Network, calls: seq<Call>, id: int)
    ensures LastNodeCall(calls, id).Some? ==>
              id in Replay(net, calls).nodes && Replay(net, calls).nodes[id] == LastNodeCall(calls, id).value
    ensures LastNodeCall(calls, id).None? && id in net.nodes ==>
              id in Replay(net, calls).nodes && Replay(net, calls).nodes[id] == net.nodes[id]
    decreases |calls|
  {
    if calls != [] {
      ReplayLastWriteWins(net, calls[..|calls| - 1], id);
    }
  }

  /** Every network built from a well-formed one by calls is well-formed. */
  lemma {:induction false} ReplayKeepsWellFormed(net: Network, calls: seq<Call>)
    requires WellFormed(net)
    ensures WellFormed(Replay(net, calls))
    decreases |calls|
  {
    if calls != [] {
      var n := |calls| - 1;
      ReplayKeepsWellFormed(net, calls[..n]);
      match calls[n]
      case AddEdgeCall(from, to, distance, roadType) =>
        WithEdgeKeepsWellFormed(Replay(net, calls[..n]), from, to, distance, roadType);
      case AddNodeCall(id, lat, lon) =>
        WithNodeKeepsWellFormed(Replay(net, calls[..n]), id, lat, lon);
    }
  }
}
