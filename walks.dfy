/**
 * Walks through the road network and their weight under one routing mode
 * at one hour of the day: the yardstick against which the route search of
 * src/graph.cpp (dijkstra) is measured.
 *
 * A walk lists its nodes and, for every step, which edge of the origin's
 * adjacency list it takes (parallel edges may weigh differently). Only
 * walks through node ids count: the search never labels an id that is not
 * a node.
 */
module Walks {
  import opened Roads
  import opened CostModel
  import opened RoadNetwork

  /** A network weighed under one routing mode at one hour of the day. */
  datatype Metric = Metric(net: Network, mode: RouteMode, hour: int)
  {
    /**
     * The weight of the k-th edge leaving `from`. An edge without positive
     * speeds (never present in a well-formed network) weighs nothing.
     */
    function Step(from: int, k: nat): real
      requires from in net.adjacency && k < |net.adjacency[from]|
    {
      var e := net.adjacency[from][k];
      if Drivable(e) then EdgeWeight(e, mode, hour) else 0.0
    }
  }

  /** In a well-formed network a step weighs what calculateEdgeWeight says. */
  lemma StepIsEdgeWeight(m: Metric, from: int, k: nat)
    requires WellFormed(m.net)
    requires from in m.net.adjacency && k < |m.net.adjacency[from]|
    ensures Drivable(m.net.adjacency[from][k])
    ensures m.Step(from, k) == EdgeWeight(m.net.adjacency[from][k], m.mode, m.hour)
  {
    EdgeOkIsDrivable(m.net.adjacency[from][k]);
  }

  lemma StepNonNegative(m: Metric, from: int, k: nat)
    requires NonNegative(m.net)
    requires from in m.net.adjacency && k < |m.net.adjacency[from]|
    ensures m.Step(from, k) >= 0.0
  {
  }

  /** `w` is a walk along edges `ws` (ws[i] indexes the edge from w[i] to w[i + 1]). */
  predicate IsWalk(net: Network, w: seq<int>, ws: seq<nat>)
  {
    && |w| == |ws| + 1
    && (forall i | 0 <= i < |w| :: w[i] in net.nodes)
    && (forall i | 0 <= i < |ws| ::
          w[i] in net.adjacency && ws[i] < |net.adjacency[w[i]]| && net.adjacency[w[i]][ws[i]].to == w[i + 1])
  }

  function Last(w: seq<int>): int
    requires |w| > 0
  {
    w[|w| - 1]
  }

  /** The sum of the step weights. */
  function WalkWeight(m: Metric, w: seq<int>, ws: seq<nat>): real
    requires IsWalk(m.net, w, ws)
    decreases |ws|
  {
    if |ws| == 0 then 0.0
    else WalkWeight(m, w[..|w| - 1], ws[..|ws| - 1]) + m.Step(w[|w| - 2], ws[|ws| - 1])
  }

  /** A walk through distinct nodes. */
  predicate Distinct(w: seq<int>)
  {
    forall i, j | 0 <= i < j < |w| :: w[i] != w[j]
  }

  /** With no negative edge, no walk weighs less than nothing. */
  lemma {:induction false} WalkWeightNonNegative(m: Metric, w: seq<int>, ws: seq<nat>)
    requires NonNegative(m.net) && IsWalk(m.net, w, ws)
    ensures WalkWeight(m, w, ws) >= 0.0
    decreases |ws|
  {
    if |ws| > 0 {
      WalkWeightNonNegative(m, w[..|w| - 1], ws[..|ws| - 1]);
      StepNonNegative(m, w[|w| - 2], ws[|ws| - 1]);
    }
  }

  /** Following one more edge out of the last node extends a walk by that edge's weight. */
  lemma WalkExtend(m: Metric, w: seq<int>, ws: seq<nat>, k: nat, v: int)
    requires IsWalk(m.net, w, ws)
    requires Last(w) in m.net.adjacency && k < |m.net.adjacency[Last(w)]|
    requires m.net.adjacency[Last(w)][k].to == v && v in m.net.nodes
    ensures IsWalk(m.net, w + [v], ws + [k])
    ensures WalkWeight(m, w + [v], ws + [k]) == WalkWeight(m, w, ws) + m.Step(Last(w), k)
  {
    assert (w + [v])[..|w|] == w;
    assert (ws + [k])[..|ws|] == ws;
  }

  /** Dropping the last step of a walk leaves a walk. */
  lemma WalkPrefix(m: Metric, w: seq<int>, ws: seq<nat>)
    requires IsWalk(m.net, w, ws) && |ws| > 0
    ensures IsWalk(m.net, w[..|w| - 1], ws[..|ws| - 1])
    ensures Last(w[..|w| - 1]) in m.net.adjacency && ws[|ws| - 1] < |m.net.adjacency[Last(w[..|w| - 1])]|
    ensures m.net.adjacency[Last(w[..|w| - 1])][ws[|ws| - 1]].to == Last(w)
    ensures WalkWeight(m, w, ws) == WalkWeight(m, w[..|w| - 1], ws[..|ws| - 1]) + m.Step(Last(w[..|w| - 1]), ws[|ws| - 1])
  {
  }

  /** Taking one edge before a walk gives a walk. */
  lemma PrependIsWalk(net: Network, u: int, k: nat, w: seq<int>, ws: seq<nat>)
    requires IsWalk(net, w, ws) && u in net.nodes
    requires u in net.adjacency && k < |net.adjacency[u]| && net.adjacency[u][k].to == w[0]
    ensures IsWalk(net, [u] + w, [k] + ws)
  {
    var w', ws' := [u] + w, [k] + ws;
    forall i | 0 <= i < |ws'|
      ensures w'[i] in net.adjacency && ws'[i] < |net.adjacency[w'[i]]| && net.adjacency[w'[i]][ws'[i]].to == w'[i + 1]
    {
      if i > 0 {
        assert w'[i] == w[i - 1] && ws'[i] == ws[i - 1] && w'[i + 1] == w[i];
      }
    }
  }

  /** ... and weighs that edge more. */
  lemma {:induction false} WalkPrepend(m: Metric, u: int, k: nat, w: seq<int>, ws: seq<nat>)
    requires IsWalk(m.net, w, ws) && u in m.net.nodes
    requires u in m.net.adjacency && k < |m.net.adjacency[u]| && m.net.adjacency[u][k].to == w[0]
    ensures IsWalk(m.net, [u] + w, [k] + ws)
    ensures WalkWeight(m, [u] + w, [k] + ws) == m.Step(u, k) + WalkWeight(m, w, ws)
    decreases |ws|
  {
    PrependIsWalk(m.net, u, k, w, ws);
    if |ws| > 0 {
      var p, ps := w[..|w| - 1], ws[..|ws| - 1];
      WalkPrefix(m, w, ws);
      WalkPrepend(m, u, k, p, ps);
      var w', ws' := [u] + w, [k] + ws;
      assert w'[..|w'| - 1] == [u] + p;
      assert ws'[..|ws'| - 1] == [k] + ps;
      assert w'[|w'| - 2] == w[|w| - 2];
    }
  }

  /** The walk that stays put. */
  lemma TrivialWalk(m: Metric, v: int)
    requires v in m.net.nodes
    ensures IsWalk(m.net, [v], []) && WalkWeight(m, [v], []) == 0.0
  {
  }

  /** `s` read backwards; std::reverse on the reconstructed path. */
  function Reverse(s: seq<int>): (r: seq<int>)
    ensures |r| == |s|
    decreases |s|
  {
    if s == [] then [] else [s[|s| - 1]] + Reverse(s[..|s| - 1])
  }

  lemma ReverseSnoc(s: seq<int>, x: int)
    ensures Reverse(s + [x]) == [x] + Reverse(s)
  {
    assert (s + [x])[..|s|] == s;
  }

  /** Position i of the reversed sequence holds position |s| - 1 - i. */
  lemma {:induction false} ReverseIndex(s: seq<int>, i: int)
    requires 0 <= i < |s|
    ensures Reverse(s)[i] == s[|s| - 1 - i]
    decreases |s|
  {
    if i > 0 {
      ReverseIndex(s[..|s| - 1], i - 1);
    }
  }
}
