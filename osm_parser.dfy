/**
 * The OSM loader of src/osm_parser.cpp (parseOSM): a line-by-line state
 * machine over the file that records `<node` lines as nodes and turns
 * every highway `<way>` into a pair of opposite edges per consecutive pair
 * of known nodes.
 *
 * The specification is `Scan`, which replays the lines and yields the
 * graph calls (`Call`) they issue and the parser state they leave; the
 * imperative `ParseOsm` issues those calls on a `Graph`. Number parsing
 * (sscanf) and the great-circle distance are parameters (`Readers`).
 */
module OsmParser {
  import opened Wrappers
  import opened Roads
  import opened RoadNetwork
  import opened OsmText
  import opened RoadGraph

  /**
   * What the loader cannot compute here: the integer and the real that
   * sscanf reads at the start of a string, and haversineDistance.
   */
  datatype Readers = Readers(id: string -> int, coord: string -> real,
                             distance: (real, real, real, real) -> real)

  /** The loop's variables: the way being read and the two counters. */
  datatype ParserState = ParserState(inWay: bool, isHighway: bool, highwayType: string,
                                     wayNodes: seq<int>, nodeCount: nat, wayCount: nat)

  const Initial: ParserState := ParserState(false, false, "unclassified", [], 0, 0)

  const NodeOpen: string := "<node"
  const IdAttr: string := "id=\""
  const LatAttr: string := "lat=\""
  const LonAttr: string := "lon=\""
  const WayOpen: string := "<way"
  const HighwayTag: string := "<tag k=\"highway\""
  const NodeRef: string := "<nd ref="
  const RefAttr: string := "ref=\""
  const WayClose: string := "</way>"

  // ---------------------------------------------------------------------
  // One line.

  /** A `<node` line with its id, lat and lon attributes becomes an addNode call. */
  function NodeLine(line: string, rd: Readers): (r: Option<Call>)
    ensures r.Some? <==> Contains(line, NodeOpen) && Contains(line, IdAttr) && Contains(line, LatAttr) && Contains(line, LonAttr)
    ensures r.Some? ==> r.value.AddNodeCall? && r.value.id == rd.id(line[Find(line, IdAttr).value..])
  {
    if !Contains(line, NodeOpen) then None
    else
      match (Find(line, IdAttr), Find(line, LatAttr), Find(line, LonAttr))
      case (Some(i), Some(a), Some(o)) => Some(AddNodeCall(rd.id(line[i..]), rd.coord(line[a..]), rd.coord(line[o..])))
      case _ => None
  }

  /** The two edges for consecutive way nodes a, b: both directions, if both are known nodes. */
  function PairEdges(nodes: map<int, Node>, roadType: string, a: int, b: int, rd: Readers): seq<Call>
  {
    if a in nodes && b in nodes then
      var d := rd.distance(nodes[a].lat, nodes[a].lon, nodes[b].lat, nodes[b].lon);
      [AddEdgeCall(a, b, d, roadType), AddEdgeCall(b, a, d, roadType)]
    else []
  }

  /** The calls a closed highway way issues, pair by pair in order (src/osm_parser.cpp:99-109). */
  function WayEdges(nodes: map<int, Node>, roadType: string, refs: seq<int>, rd: Readers): (r: seq<Call>)
    ensures |refs| >= 1 ==> |r| <= 2 * (|refs| - 1)
    decreases |refs|
  {
    if |refs| < 2 then []
    else WayEdges(nodes, roadType, refs[..|refs| - 1], rd) + PairEdges(nodes, roadType, refs[|refs| - 2], refs[|refs| - 1], rd)
  }

  /** The way-opening check: a `<way` line starts a fresh way. */
  function Opened(st: ParserState, line: string): ParserState
  {
    if Contains(line, WayOpen) then st.(inWay := true, isHighway := false, highwayType := "unclassified", wayNodes := [])
    else st
  }

  /** The highway-tag check: inside a way, the tag marks it a highway and may name its type. */
  function Tagged(st: ParserState, line: string): ParserState
  {
    if st.inWay && Contains(line, HighwayTag) then
      st.(isHighway := true, highwayType := match TagValue(line) case Some(v) => v case None => st.highwayType)
    else st
  }

  /** The node-reference check: inside a way, an `<nd ref=` line appends its id. */
  function Referenced(st: ParserState, line: string, rd: Readers): ParserState
  {
    if st.inWay && Contains(line, NodeRef) then
      match Find(line, RefAttr)
      case Some(r) => st.(wayNodes := st.wayNodes + [rd.id(line[r..])])
      case None => st
    else st
  }

  /** Whether a closing way issues its edges and counts as a way. */
  predicate Emits(st: ParserState)
  {
    st.isHighway && |st.wayNodes| >= 2
  }

  /** The addNode call of a node line, if it is one. */
  function NodeCalls(line: string, rd: Readers): (calls: seq<Call>)
    ensures |calls| <= 1
  {
    match NodeLine(line, rd)
    case Some(c) => [c]
    case None => []
  }

  /** The way-closing check: `</way>` leaves the way and counts it if it issues edges. */
  function Closing(st: ParserState, line: string): (r: ParserState)
    ensures r == st.(inWay := r.inWay, wayCount := r.wayCount)
    ensures st.wayCount <= r.wayCount <= st.wayCount + 1
    ensures Contains(line, WayClose) ==> !r.inWay
    ensures !Contains(line, WayClose) ==> r == st
  {
    if Contains(line, WayClose) then st.(inWay := false, wayCount := st.wayCount + (if Emits(st) then 1 else 0))
    else st
  }

  /** The edges issued by the way-closing check, against the nodes known at that point. */
  function ClosingEdges(nodes: map<int, Node>, st: ParserState, line: string, rd: Readers): (r: seq<Call>)
    ensures r != [] ==> Contains(line, WayClose) && Emits(st)
    ensures |r| % 2 == 0
  {
    if Contains(line, WayClose) && Emits(st) then
      WayEdgesShape(nodes, st.highwayType, st.wayNodes, rd);
      WayEdges(nodes, st.highwayType, st.wayNodes, rd)
    else []
  }

  /** The checks that follow the node check, in order. */
  function Track(st: ParserState, line: string, rd: Readers): (r: ParserState)
    ensures r.nodeCount == st.nodeCount && r.wayCount == st.wayCount
  {
    Referenced(Tagged(Opened(st, line), line), line, rd)
  }

  /**
   * One line of the loop (src/osm_parser.cpp:44-118): the five checks in
   * order, against the nodes of the graph as it stands (`net`). Yields the
   * state after the line and the calls it issues.
   */
  function Step(net: Network, st: ParserState, line: string, rd: Readers): (r: (ParserState, seq<Call>))
    ensures NodeCalls(line, rd) <= r.1
    ensures st.nodeCount <= r.0.nodeCount <= st.nodeCount + 1
    ensures st.wayCount <= r.0.wayCount <= st.wayCount + 1
  {
    (Closing(Tracked(st, line, rd), line), StepCalls(net, st, line, rd))
  }

  /** The state the way-closing check sees: the node counter updated, then the way checks. */
  function Tracked(st: ParserState, line: string, rd: Readers): ParserState
  {
    Track(st.(nodeCount := st.nodeCount + |NodeCalls(line, rd)|), line, rd)
  }

  /** The calls one line issues: its own node, then the edges of the way it closes. */
  function StepCalls(net: Network, st: ParserState, line: string, rd: Readers): seq<Call>
  {
    NodeCalls(line, rd) + ClosingEdges(Replay(net, NodeCalls(line, rd)).nodes, Tracked(st, line, rd), line, rd)
  }

  /** The whole file from `net` and the initial state: final state and every call issued, in order. */
  function Scan(net: Network, lines: seq<string>, rd: Readers): (r: (ParserState, seq<Call>))
    ensures r.0.nodeCount <= |lines| && r.0.wayCount <= |lines|
    decreases |lines|
  {
    if lines == [] then (Initial, [])
    else
      var (st, calls) := Scan(net, lines[..|lines| - 1], rd);
      var (st', more) := Step(Replay(net, calls), st, lines[|lines| - 1], rd);
      (st', calls + more)
  }

  // ---------------------------------------------------------------------
  // Properties of one line.

  /** A `<node` line is recorded exactly when it carries id, lat and lon; the counter counts it. */
  lemma StepNodeLine(net: Network, st: ParserState, line: string, rd: Readers)
    ensures var (st', calls) := Step(net, st, line, rd);
      && ((exists i | 0 <= i < |calls| :: calls[i].AddNodeCall?) <==>
            Contains(line, NodeOpen) && Contains(line, IdAttr) && Contains(line, LatAttr) && Contains(line, LonAttr))
      && st'.nodeCount == st.nodeCount + (if Contains(line, NodeOpen) && Contains(line, IdAttr)
                                            && Contains(line, LatAttr) && Contains(line, LonAttr) then 1 else 0)
  {
    var nodeCalls := NodeCalls(line, rd);
    var s := Tracked(st, line, rd);
    var edges := ClosingEdges(Replay(net, nodeCalls).nodes, s, line, rd);
    var calls := nodeCalls + edges;
    assert Step(net, st, line, rd) == (Closing(s, line), calls);
    WayEdgesShape(Replay(net, nodeCalls).nodes, s.highwayType, s.wayNodes, rd);
    forall i | |nodeCalls| <= i < |calls|
      ensures !calls[i].AddNodeCall?
    {
      assert calls[i] == edges[i - |nodeCalls|];
    }
    if nodeCalls != [] {
      assert calls[0] == nodeCalls[0];
    }
  }

  /**
   * A `<way` line resets the way: inside it afterwards (unless the same line
   * closes it), no highway tag seen, type "unclassified", no nodes yet,
   * except for what the same line itself adds.
   */
  lemma StepOpensWay(net: Network, st: ParserState, line: string, rd: Readers)
    requires Contains(line, WayOpen)
    requires !Contains(line, HighwayTag) && !Contains(line, NodeRef) && !Contains(line, WayClose)
    ensures var (st', _) := Step(net, st, line, rd);
      st'.inWay && !st'.isHighway && st'.highwayType == "unclassified" && st'.wayNodes == []
  {
  }

  /**
   * Outside a way (and on a line that does not open one) highway tags and
   * node references change nothing.
   */
  lemma StepOutsideWay(net: Network, st: ParserState, line: string, rd: Readers)
    requires !st.inWay && !Contains(line, WayOpen)
    ensures var (st', calls) := Step(net, st, line, rd);
      && !st'.inWay && st'.isHighway == st.isHighway && st'.highwayType == st.highwayType
      && st'.wayNodes == st.wayNodes && st'.wayCount == st.wayCount + (if Contains(line, WayClose) && Emits(st) then 1 else 0)
  {
  }

  /** Inside a way, a highway tag marks it and sets its type to the tag's value, when it has one. */
  lemma StepTagsWay(net: Network, st: ParserState, line: string, rd: Readers)
    requires st.inWay && !Contains(line, WayOpen) && !Contains(line, WayClose)
    requires Contains(line, HighwayTag)
    ensures var (st', _) := Step(net, st, line, rd);
      && st'.inWay && st'.isHighway
      && st'.highwayType == (if TagValue(line).Some? then TagValue(line).value else st.highwayType)
  {
  }

  /** Inside a way, an `<nd ref="` line appends the id it carries, after those read before. */
  lemma StepAddsRef(net: Network, st: ParserState, line: string, rd: Readers)
    requires st.inWay && !Contains(line, WayOpen) && !Contains(line, WayClose)
    requires Contains(line, NodeRef) && Contains(line, RefAttr)
    ensures var (st', _) := Step(net, st, line, rd);
      st'.inWay && st'.wayNodes == st.wayNodes + [rd.id(line[Find(line, RefAttr).value..])]
  {
  }

  /**
   * `</way>` always leaves the way. It issues edges and counts the way only
   * for a highway with at least two node references; otherwise the line
   * issues at most its own node.
   */
  lemma StepClosesWay(net: Network, st: ParserState, line: string, rd: Readers)
    requires Contains(line, WayClose)
    ensures var (st', calls) := Step(net, st, line, rd);
      var s := Track(st, line, rd);
      && !st'.inWay
      && st'.wayCount == st.wayCount + (if Emits(s) then 1 else 0)
      && (!Emits(s) ==> calls == NodeCalls(line, rd))
  {
    var nodeCalls := NodeCalls(line, rd);
    assert Tracked(st, line, rd) == Track(st, line, rd).(nodeCount := st.nodeCount + |nodeCalls|);
    assert nodeCalls + [] == nodeCalls;
  }

  // ---------------------------------------------------------------------
  // The edges of a way.

  /** An edge joins two ways nodes that follow each other, in one direction or the other. */
  predicate Consecutive(refs: seq<int>, a: int, b: int)
  {
    exists j | 0 <= j < |refs| - 1 :: (refs[j] == a && refs[j + 1] == b) || (refs[j] == b && refs[j + 1] == a)
  }

  /**
   * Every call a way issues is an addEdge of the way's type between two
   * consecutive references that are both known nodes; the calls come in
   * pairs a -> b, b -> a of equal length.
   */
  lemma {:induction false} WayEdgesShape(nodes: map<int, Node>, roadType: string, refs: seq<int>, rd: Readers)
    ensures var calls := WayEdges(nodes, roadType, refs, rd);
      && |calls| % 2 == 0
      && (forall i | 0 <= i < |calls| ::
            && calls[i].AddEdgeCall? && calls[i].roadType == roadType
            && calls[i].from in nodes && calls[i].to in nodes
            && Consecutive(refs, calls[i].from, calls[i].to))
      && (forall i | 0 <= i < |calls| / 2 ::
            calls[2 * i + 1] == AddEdgeCall(calls[2 * i].to, calls[2 * i].from, calls[2 * i].distance, roadType))
    decreases |refs|
  {
    if |refs| >= 2 {
      var n := |refs|;
      var prefix := refs[..n - 1];
      WayEdgesShape(nodes, roadType, prefix, rd);
      var front := WayEdges(nodes, roadType, prefix, rd);
      var back := PairEdges(nodes, roadType, refs[n - 2], refs[n - 1], rd);
      var calls := front + back;
      forall i | 0 <= i < |calls|
        ensures Consecutive(refs, calls[i].from, calls[i].to)
      {
        if i < |front| {
          var a, b := front[i].from, front[i].to;
          assert Consecutive(prefix, a, b);
          var j :| 0 <= j < |prefix| - 1 && ((prefix[j] == a && prefix[j + 1] == b) || (prefix[j] == b && prefix[j + 1] == a));
          assert refs[j] == prefix[j] && refs[j + 1] == prefix[j + 1];
        } else {
          assert refs[n - 2] == refs[n - 2];
        }
      }
      forall i | 0 <= i < |calls| / 2
        ensures calls[2 * i + 1] == AddEdgeCall(calls[2 * i].to, calls[2 * i].from, calls[2 * i].distance, roadType)
      {
        if 2 * i < |front| {
          assert calls[2 * i] == front[2 * i] && calls[2 * i + 1] == front[2 * i + 1];
        } else {
          assert calls[2 * i] == back[0] && calls[2 * i + 1] == back[1];
        }
      }
    }
  }

  /** The distance the loader computes between two known nodes. */
  function NodeDistance(nodes: map<int, Node>, a: int, b: int, rd: Readers): real
    requires a in nodes && b in nodes
  {
    rd.distance(nodes[a].lat, nodes[a].lon, nodes[b].lat, nodes[b].lon)
  }

  /** `calls` holds the two directed edges between a and b, one right after the other. */
  predicate BothWays(calls: seq<Call>, a: int, b: int, d: real, roadType: string)
  {
    exists i | 0 <= i < |calls| - 1 ::
      calls[i] == AddEdgeCall(a, b, d, roadType) && calls[i + 1] == AddEdgeCall(b, a, d, roadType)
  }

  /** Every pair of consecutive known nodes gets its two edges, one right after the other. */
  lemma {:induction false} WayEdgesComplete(nodes: map<int, Node>, roadType: string, refs: seq<int>, rd: Readers, j: nat)
    requires j + 1 < |refs| && refs[j] in nodes && refs[j + 1] in nodes
    ensures BothWays(WayEdges(nodes, roadType, refs, rd), refs[j], refs[j + 1], NodeDistance(nodes, refs[j], refs[j + 1], rd), roadType)
    decreases |refs|
  {
    var n := |refs|;
    var prefix := refs[..n - 1];
    var front := WayEdges(nodes, roadType, prefix, rd);
    var calls := WayEdges(nodes, roadType, refs, rd);
    var a, b := refs[j], refs[j + 1];
    var d := NodeDistance(nodes, a, b, rd);
    if j + 2 == n {
      var back := PairEdges(nodes, roadType, a, b, rd);
      assert calls == front + back;
      var i := |front|;
      assert calls[i] == AddEdgeCall(a, b, d, roadType) && calls[i + 1] == AddEdgeCall(b, a, d, roadType);
    } else {
      assert prefix[j] == a && prefix[j + 1] == b;
      WayEdgesComplete(nodes, roadType, prefix, rd, j);
      var i :| 0 <= i < |front| - 1 &&
        front[i] == AddEdgeCall(a, b, d, roadType) && front[i + 1] == AddEdgeCall(b, a, d, roadType);
      assert calls == front + PairEdges(nodes, roadType, refs[n - 2], refs[n - 1], rd);
      assert calls[i] == front[i] && calls[i + 1] == front[i + 1];
    }
  }

  /** The edge calls of the first i + 2 references: those of the first i + 1, then pair i. */
  lemma WayEdgesSnoc(nodes: map<int, Node>, roadType: string, refs: seq<int>, rd: Readers, i: nat)
    requires i + 1 < |refs|
    ensures WayEdges(nodes, roadType, refs[..i + 2], rd)
            == WayEdges(nodes, roadType, refs[..i + 1], rd) + PairEdges(nodes, roadType, refs[i], refs[i + 1], rd)
  {
    assert refs[..i + 2][..i + 1] == refs[..i + 1];
  }

  // ---------------------------------------------------------------------
  // Properties of the whole file.

  /** Every edge starts and ends at a node. */
  ghost predicate Closed(net: Network)
  {
    forall a | a in net.adjacency ::
      a in net.nodes && forall k | 0 <= k < |net.adjacency[a]| :: net.adjacency[a][k].to in net.nodes
  }

  /** Calls whose edges join nodes of `net` keep it closed (addNode only adds nodes). */
  lemma {:induction false} ReplayKeepsClosed(net: Network, calls: seq<Call>)
    requires Closed(net)
    requires forall i | 0 <= i < |calls| :: calls[i].AddEdgeCall? ==> calls[i].from in net.nodes && calls[i].to in net.nodes
    ensures Closed(Replay(net, calls))
    ensures net.nodes.Keys <= Replay(net, calls).nodes.Keys
    decreases |calls|
  {
    if calls != [] {
      var n := |calls| - 1;
      ReplayKeepsClosed(net, calls[..n]);
      var before := Replay(net, calls[..n]);
      match calls[n]
      case AddNodeCall(id, lat, lon) =>
      case AddEdgeCall(from, to, distance, roadType) =>
        var after := WithEdge(before, from, to, distance, roadType);
        forall a | a in after.adjacency
          ensures a in after.nodes && forall k | 0 <= k < |after.adjacency[a]| :: after.adjacency[a][k].to in after.nodes
        {
          if a == from {
            forall k | 0 <= k < |after.adjacency[a]|
              ensures after.adjacency[a][k].to in after.nodes
            {
              if k < |EdgesFrom(before.adjacency, from)| {
                assert after.adjacency[a][k] == before.adjacency[a][k];
              }
            }
          }
        }
    }
  }

  /** The calls one line issues keep a closed network closed. */
  lemma StepKeepsClosed(net: Network, st: ParserState, line: string, rd: Readers)
    requires Closed(net)
    ensures Closed(Replay(net, Step(net, st, line, rd).1))
  {
    var nodeCalls := NodeCalls(line, rd);
    var s := Tracked(st, line, rd);
    var mid := Replay(net, nodeCalls);
    var edges := ClosingEdges(mid.nodes, s, line, rd);
    assert Step(net, st, line, rd).1 == nodeCalls + edges;
    ReplayKeepsClosed(net, nodeCalls);
    WayEdgesShape(mid.nodes, s.highwayType, s.wayNodes, rd);
    ReplayKeepsClosed(mid, edges);
    ReplayAppend(net, nodeCalls, edges);
  }

  /**
   * Loading a file into a graph whose edges all join nodes keeps it so: the
   * loader never creates an edge to or from an id that is not yet a node.
   */
  lemma {:induction false} ScanKeepsClosed(net: Network, lines: seq<string>, rd: Readers)
    requires Closed(net)
    ensures Closed(Replay(net, Scan(net, lines, rd).1))
    decreases |lines|
  {
    if lines != [] {
      var n := |lines| - 1;
      ScanKeepsClosed(net, lines[..n], rd);
      var (st, calls) := Scan(net, lines[..n], rd);
      StepKeepsClosed(Replay(net, calls), st, lines[n], rd);
      ReplayAppend(net, calls, Step(Replay(net, calls), st, lines[n], rd).1);
    }
  }

  /**
   * In a graph loaded from scratch, every id with an edge list, and every
   * edge's head, is a node: an id with outgoing edges is a valid route end.
   */
  lemma LoadedOriginsAreNodes(lines: seq<string>, rd: Readers)
    ensures var net := Replay(Empty, Scan(Empty, lines, rd).1);
      forall a | a in net.adjacency :: a in net.nodes
        && forall k | 0 <= k < |net.adjacency[a]| :: net.adjacency[a][k].to in net.nodes
  {
    ScanKeepsClosed(Empty, lines, rd);
  }

  /** The addEdge calls of two batches, counted together. */
  lemma {:induction false} EdgeCallCountAppend(a: seq<Call>, b: seq<Call>)
    ensures EdgeCallCount(a + b) == EdgeCallCount(a) + EdgeCallCount(b)
    decreases |b|
  {
    if b != [] {
      var n := |b| - 1;
      assert (a + b)[..|a + b| - 1] == a + b[..n];
      EdgeCallCountAppend(a, b[..n]);
    } else {
      assert a + b == a;
    }
  }

  /** A batch of addEdge calls only. */
  lemma {:induction false} EdgeCallCountAll(calls: seq<Call>)
    requires forall i | 0 <= i < |calls| :: calls[i].AddEdgeCall?
    ensures EdgeCallCount(calls) == |calls|
    decreases |calls|
  {
    if calls != [] {
      EdgeCallCountAll(calls[..|calls| - 1]);
    }
  }

  /** The node counter of one line grows by the number of addNode calls the line issues. */
  lemma StepCountsNodes(net: Network, st: ParserState, line: string, rd: Readers)
    ensures var (st', calls) := Step(net, st, line, rd);
      st'.nodeCount + EdgeCallCount(calls) == st.nodeCount + |calls|
  {
    var nodeCalls := NodeCalls(line, rd);
    var s := Tracked(st, line, rd);
    var nodes := Replay(net, nodeCalls).nodes;
    var edges := ClosingEdges(nodes, s, line, rd);
    assert Step(net, st, line, rd) == (Closing(s, line), nodeCalls + edges);
    WayEdgesShape(nodes, s.highwayType, s.wayNodes, rd);
    assert forall i | 0 <= i < |edges| :: edges[i].AddEdgeCall?;
    EdgeCallCountAll(edges);
    EdgeCallCountAppend(nodeCalls, edges);
    assert EdgeCallCount(nodeCalls) == 0 by {
      if nodeCalls != [] {
        assert nodeCalls[..0] == [];
      }
    }
  }

  /** The node counter parseOSM reports is the number of addNode calls it issued. */
  lemma {:induction false} ScanCountsNodes(net: Network, lines: seq<string>, rd: Readers)
    ensures var (st, calls) := Scan(net, lines, rd);
      st.nodeCount + EdgeCallCount(calls) == |calls|
    decreases |lines|
  {
    if lines != [] {
      var n := |lines| - 1;
      ScanCountsNodes(net, lines[..n], rd);
      var (st, calls) := Scan(net, lines[..n], rd);
      StepCountsNodes(Replay(net, calls), st, lines[n], rd);
      EdgeCallCountAppend(calls, Step(Replay(net, calls), st, lines[n], rd).1);
    }
  }

  /** With a non-negative distance function every loaded edge has a non-negative length. */
  lemma {:induction false} ScanKeepsNonNegative(net: Network, lines: seq<string>, rd: Readers)
    requires NonNegative(net)
    requires forall a, b, c, d :: rd.distance(a, b, c, d) >= 0.0
    ensures NonNegative(Replay(net, Scan(net, lines, rd).1))
    decreases |lines|
  {
    if lines != [] {
      var n := |lines| - 1;
      ScanKeepsNonNegative(net, lines[..n], rd);
      var (st, calls) := Scan(net, lines[..n], rd);
      var (st', more) := Step(Replay(net, calls), st, lines[n], rd);
      StepDistances(Replay(net, calls), st, lines[n], rd);
      ReplayNonNegative(Replay(net, calls), more);
      ReplayAppend(net, calls, more);
    }
  }

  /** Every addEdge call has a non-negative length. */
  predicate NonNegativeCalls(calls: seq<Call>)
  {
    forall i | 0 <= i < |calls| && calls[i].AddEdgeCall? :: calls[i].distance >= 0.0
  }

  lemma NonNegativeCallsAppend(a: seq<Call>, b: seq<Call>)
    requires NonNegativeCalls(a) && NonNegativeCalls(b)
    ensures NonNegativeCalls(a + b)
  {
    forall i | 0 <= i < |a + b| && (a + b)[i].AddEdgeCall?
      ensures (a + b)[i].distance >= 0.0
    {
      if i >= |a| {
        assert (a + b)[i] == b[i - |a|];
      }
    }
  }

  /** Every addEdge call a line issues carries a distance computed by `rd.distance`. */
  lemma StepDistances(net: Network, st: ParserState, line: string, rd: Readers)
    requires forall a, b, c, d :: rd.distance(a, b, c, d) >= 0.0
    ensures NonNegativeCalls(Step(net, st, line, rd).1)
  {
    var nodeCalls := NodeCalls(line, rd);
    var s := Tracked(st, line, rd);
    var nodes := Replay(net, nodeCalls).nodes;
    WayEdgesDistances(nodes, s.highwayType, s.wayNodes, rd);
    var edges := ClosingEdges(nodes, s, line, rd);
    assert Step(net, st, line, rd).1 == nodeCalls + edges;
    assert NonNegativeCalls(edges);
    assert NonNegativeCalls(nodeCalls);
    NonNegativeCallsAppend(nodeCalls, edges);
  }

  lemma {:induction false} WayEdgesDistances(nodes: map<int, Node>, roadType: string, refs: seq<int>, rd: Readers)
    requires forall a, b, c, d :: rd.distance(a, b, c, d) >= 0.0
    ensures NonNegativeCalls(WayEdges(nodes, roadType, refs, rd))
    decreases |refs|
  {
    if |refs| >= 2 {
      var n := |refs|;
      WayEdgesDistances(nodes, roadType, refs[..n - 1], rd);
      var back := PairEdges(nodes, roadType, refs[n - 2], refs[n - 1], rd);
      if back != [] {
        var d := NodeDistance(nodes, refs[n - 2], refs[n - 1], rd);
        assert d >= 0.0;
        assert back == [AddEdgeCall(refs[n - 2], refs[n - 1], d, roadType), AddEdgeCall(refs[n - 1], refs[n - 2], d, roadType)];
      }
      NonNegativeCallsAppend(WayEdges(nodes, roadType, refs[..n - 1], rd), back);
    }
  }

  /** Calls whose edges have non-negative lengths keep a network's lengths non-negative. */
  lemma {:induction false} ReplayNonNegative(net: Network, calls: seq<Call>)
    requires NonNegative(net) && NonNegativeCalls(calls)
    ensures NonNegative(Replay(net, calls))
    decreases |calls|
  {
    if calls != [] {
      var n := |calls| - 1;
      assert NonNegativeCalls(calls[..n]) by {
        forall i | 0 <= i < n && calls[..n][i].AddEdgeCall?
          ensures calls[..n][i].distance >= 0.0
        {
          assert calls[..n][i] == calls[i];
        }
      }
      ReplayNonNegative(net, calls[..n]);
      var before := Replay(net, calls[..n]);
      match calls[n]
      case AddNodeCall(id, lat, lon) =>
      case AddEdgeCall(from, to, distance, roadType) =>
        var after := WithEdge(before, from, to, distance, roadType);
        forall a, k | a in after.adjacency && 0 <= k < |after.adjacency[a]|
          ensures after.adjacency[a][k].distance >= 0.0
        {
          if a != from || k < |EdgesFrom(before.adjacency, from)| {
            assert after.adjacency[a][k] == before.adjacency[a][k];
          }
        }
    }
  }

  /** The scan of one more line: the step of that line from where the scan so far left off. */
  lemma ScanSnoc(net: Network, lines: seq<string>, i: nat, rd: Readers)
    requires i < |lines|
    ensures var (st, calls) := Scan(net, lines[..i], rd);
      var (st', more) := Step(Replay(net, calls), st, lines[i], rd);
      Scan(net, lines[..i + 1], rd) == (st', calls + more)
  {
    assert lines[..i + 1][..i] == lines[..i];
  }

  /** Issuing one more call. */
  lemma ReplaySnoc(net: Network, calls: seq<Call>, c: Call)
    ensures Replay(net, calls + [c]) == Apply(Replay(net, calls), c)
  {
    assert (calls + [c])[..|calls|] == calls;
  }

  /** Issuing the two edges of a pair. */
  lemma ReplayTwoEdges(net: Network, calls: seq<Call>, a: int, b: int, d: real, t: string)
    ensures Replay(net, calls + [AddEdgeCall(a, b, d, t), AddEdgeCall(b, a, d, t)])
            == WithEdge(WithEdge(Replay(net, calls), a, b, d, t), b, a, d, t)
  {
    var e1, e2 := AddEdgeCall(a, b, d, t), AddEdgeCall(b, a, d, t);
    assert calls + [e1, e2] == (calls + [e1]) + [e2];
    ReplaySnoc(net, calls, e1);
    ReplaySnoc(net, calls + [e1], e2);
  }

  // ---------------------------------------------------------------------
  // The loader.

  /**
   * parseOSM: `file` is the file's lines, none when it cannot be opened
   * (then nothing changes and the result is false). Otherwise every line is
   * processed in order and the graph receives exactly the calls of `Scan`.
   * The counters are those printed at the end.
   */
  method ParseOsm(file: Option<seq<string>>, graph: Graph, rd: Readers)
    returns (ok: bool, nodeCount: nat, wayCount: nat, ghost calls: seq<Call>)
    modifies graph
    ensures ok <==> file.Some?
    ensures file.None? ==> graph.Snapshot() == old(graph.Snapshot())
    ensures file.Some? ==>
              && calls == Scan(old(graph.Snapshot()), file.value, rd).1
              && graph.Snapshot() == Replay(old(graph.Snapshot()), calls)
              && nodeCount == Scan(old(graph.Snapshot()), file.value, rd).0.nodeCount
              && wayCount == Scan(old(graph.Snapshot()), file.value, rd).0.wayCount
  {
    calls := [];
    nodeCount, wayCount := 0, 0;
    if file.None? {
      return false, nodeCount, wayCount, calls;
    }
    var lines := file.value;
    ghost var net0 := graph.Snapshot();
    var st := Initial;
    var i := 0;
    while i < |lines|
      invariant i <= |lines|
      invariant (st, calls) == Scan(net0, lines[..i], rd)
      invariant graph.Snapshot() == Replay(net0, calls)
    {
      ScanSnoc(net0, lines, i, rd);
      ghost var more;
      st, more := ParseLine(graph, st, lines[i], rd);
      ReplayAppend(net0, calls, more);
      calls := calls + more;
      i := i + 1;
    }
    assert lines[..|lines|] == lines;
    return true, st.nodeCount, st.wayCount, calls;
  }

  /** The body of the line loop (src/osm_parser.cpp:45-117), issuing its calls on `graph`. */
  method ParseLine(graph: Graph, st: ParserState, line: string, rd: Readers)
    returns (st': ParserState, ghost calls: seq<Call>)
    modifies graph
    ensures (st', calls) == Step(old(graph.Snapshot()), st, line, rd)
    ensures graph.Snapshot() == Replay(old(graph.Snapshot()), calls)
  {
    st', calls := ReadNode(graph, st, line, rd);
    st' := TrackWay(st', line, rd);
    ghost var edges;
    st', edges := CloseWay(graph, st', line, rd);
    ReplayAppend(old(graph.Snapshot()), calls, edges);
    calls := calls + edges;
  }

  /** The node check (src/osm_parser.cpp:46-66). */
  method ReadNode(graph: Graph, st: ParserState, line: string, rd: Readers)
    returns (st': ParserState, ghost calls: seq<Call>)
    modifies graph
    ensures calls == NodeCalls(line, rd)
    ensures st' == st.(nodeCount := st.nodeCount + |calls|)
    ensures graph.Snapshot() == Replay(old(graph.Snapshot()), calls)
  {
    st', calls := st, [];
    if Contains(line, NodeOpen) {
      var idPos, latPos, lonPos := Find(line, IdAttr), Find(line, LatAttr), Find(line, LonAttr);
      if idPos.Some? && latPos.Some? && lonPos.Some? {
        var id, lat, lon := rd.id(line[idPos.value..]), rd.coord(line[latPos.value..]), rd.coord(line[lonPos.value..]);
        graph.AddNode(id, lat, lon);
        calls := [AddNodeCall(id, lat, lon)];
        st' := st'.(nodeCount := st'.nodeCount + 1);
        assert calls[..0] == [];
      }
    }
  }

  /** The way, tag and node-reference checks (src/osm_parser.cpp:69-95). */
  method TrackWay(st: ParserState, line: string, rd: Readers) returns (st': ParserState)
    ensures st' == Track(st, line, rd)
  {
    st' := st;
    if Contains(line, WayOpen) {
      st' := st'.(inWay := true, isHighway := false, highwayType := "unclassified", wayNodes := []);
    }
    if st'.inWay && Contains(line, HighwayTag) {
      st' := st'.(isHighway := true);
      var value := TagValue(line);
      if value.Some? {
        st' := st'.(highwayType := value.value);
      }
    }
    if st'.inWay && Contains(line, NodeRef) {
      var refPos := Find(line, RefAttr);
      if refPos.Some? {
        st' := st'.(wayNodes := st'.wayNodes + [rd.id(line[refPos.value..])]);
      }
    }
  }

  /** The way-closing check (src/osm_parser.cpp:97-117). */
  method CloseWay(graph: Graph, st: ParserState, line: string, rd: Readers)
    returns (st': ParserState, ghost calls: seq<Call>)
    modifies graph
    ensures st' == Closing(st, line)
    ensures calls == ClosingEdges(old(graph.nodes), st, line, rd)
    ensures graph.Snapshot() == Replay(old(graph.Snapshot()), calls)
  {
    st', calls := st, [];
    if Contains(line, WayClose) {
      if st'.isHighway && |st'.wayNodes| >= 2 {
        calls := EmitWay(graph, st'.highwayType, st'.wayNodes, rd);
        st' := st'.(wayCount := st'.wayCount + 1);
      }
      st' := st'.(inWay := false);
    }
  }

  /** The edge loop of a closed highway way (src/osm_parser.cpp:99-109). */
  method EmitWay(graph: Graph, roadType: string, refs: seq<int>, rd: Readers) returns (ghost calls: seq<Call>)
    modifies graph
    ensures calls == WayEdges(old(graph.nodes), roadType, refs, rd)
    ensures graph.Snapshot() == Replay(old(graph.Snapshot()), calls)
  {
    calls := [];
    if |refs| < 2 {
      return;
    }
    var i := 0;
    while i < |refs| - 1
      invariant i <= |refs| - 1
      invariant graph.nodes == old(graph.nodes)
      invariant calls == WayEdges(old(graph.nodes), roadType, refs[..i + 1], rd)
      invariant graph.Snapshot() == Replay(old(graph.Snapshot()), calls)
    {
      WayEdgesSnoc(graph.nodes, roadType, refs, rd, i);
      var node1, node2 := graph.GetNode(refs[i]), graph.GetNode(refs[i + 1]);
      if node1.Some? && node2.Some? {
        var dist := rd.distance(node1.value.lat, node1.value.lon, node2.value.lat, node2.value.lon);
        ReplayTwoEdges(old(graph.Snapshot()), calls, refs[i], refs[i + 1], dist, roadType);
        graph.AddEdge(refs[i], refs[i + 1], dist, roadType);
        graph.AddEdge(refs[i + 1], refs[i], dist, roadType);
        calls := calls + [AddEdgeCall(refs[i], refs[i + 1], dist, roadType), AddEdgeCall(refs[i + 1], refs[i], dist, roadType)];
      }
      i := i + 1;
    }
    assert refs[..|refs|] == refs;
  }
}
