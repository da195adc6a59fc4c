/**
 * The route search of src/graph.cpp (dijkstra): label-setting search with a
 * priority queue and lazy deletion, path reconstruction through the
 * predecessor map, and the distance/time totals of the reported path.
 *
 * Labels that the source keeps as doubles with +infinity for "unreached"
 * are `Label`s here. The priority queue is represented by its contents;
 * its top is the least (distance, id) pair, as std::greater orders pairs.
 */
module ShortestPaths {
  import opened Wrappers
  import opened Roads
  import opened CostModel
  import opened RoadNetwork
  import opened Walks

  datatype Label = Finite(value: real) | Infinite

  /** A queue entry: tentative distance and node id. */
  type Entry = (real, int)

  /** `a` is not greater than `b` in the lexicographic order of std::pair. */
  predicate EntryBelow(a: Entry, b: Entry)
  {
    a.0 < b.0 || (a.0 == b.0 && a.1 <= b.1)
  }

  /** The position of the queue's top: an entry below all others. */
  function MinIndex(pq: seq<Entry>): (i: nat)
    requires |pq| > 0
    ensures i < |pq|
    ensures forall j | 0 <= j < |pq| :: EntryBelow(pq[i], pq[j])
    decreases |pq|
  {
    if |pq| == 1 then 0
    else
      var i := MinIndex(pq[..|pq| - 1]);
      assert forall j | 0 <= j < |pq| - 1 :: pq[..|pq| - 1][j] == pq[j];
      if EntryBelow(pq[i], pq[|pq| - 1]) then i else |pq| - 1
  }

  function Remove(pq: seq<Entry>, i: nat): (r: seq<Entry>)
    requires i < |pq|
    ensures |r| == |pq| - 1
  {
    pq[..i] + pq[i + 1..]
  }

  /** `distances[id]` as std::unordered_map::operator[] reads it: 0.0 for an id never stored. */
  function At(dist: map<int, Label>, id: int): Label
  {
    if id in dist then dist[id] else Finite(0.0)
  }

  /** `x < l` with infinity above every real. */
  predicate Below(x: real, l: Label)
  {
    l.Infinite? || x < l.value
  }

  /** `x > l` with infinity above every real. */
  predicate Above(x: real, l: Label)
  {
    l.Finite? && x > l.value
  }

  // ---------------------------------------------------------------------
  // The search invariant.

  ghost predicate Labels(m: Metric, start: int, dist: map<int, Label>)
  {
    && dist.Keys == m.net.nodes.Keys
    && start in dist && dist[start] == Finite(0.0)
    && (forall v | v in dist && dist[v].Finite? :: dist[v].value >= 0.0)
  }

  /** Settled nodes carry their settling order, below `|rank|`, and a finite label. */
  ghost predicate Settled(dist: map<int, Label>, rank: map<int, nat>)
  {
    forall v | v in rank :: v in dist && dist[v].Finite? && rank[v] < |rank|
  }

  /**
   * v's label is reached from its settled predecessor prev[v] over edge
   * via[v]; a settled node was settled after its predecessor.
   */
  ghost predicate TreeEdge(m: Metric, dist: map<int, Label>, prev: map<int, int>, via: map<int, nat>,
                           rank: map<int, nat>, v: int)
    requires v in prev
  {
    var p := prev[v];
    && v in dist && dist[v].Finite?
    && p in rank && p in dist && dist[p].Finite?
    && v in via && p in m.net.adjacency && via[v] < |m.net.adjacency[p]|
    && m.net.adjacency[p][via[v]].to == v
    && dist[v].value == dist[p].value + m.Step(p, via[v])
    && (v in rank ==> rank[p] < rank[v])
  }

  ghost predicate Tree(m: Metric, start: int, dist: map<int, Label>, prev: map<int, int>,
                       via: map<int, nat>, rank: map<int, nat>)
  {
    && (forall v | v in dist && dist[v].Finite? && v != start :: v in prev)
    && (forall v | v in prev :: TreeEdge(m, dist, prev, via, rank, v))
  }

  /** The k-th edge out of u cannot improve its head's label. */
  ghost predicate EdgeRelaxed(m: Metric, dist: map<int, Label>, u: int, k: nat)
  {
    && u in m.net.adjacency && k < |m.net.adjacency[u]|
    && u in dist && dist[u].Finite?
    && var to := m.net.adjacency[u][k].to;
       to in dist ==> dist[to].Finite? && dist[to].value <= dist[u].value + m.Step(u, k)
  }

  /** The first `n` edges out of u are relaxed. */
  ghost predicate RelaxedUpTo(m: Metric, dist: map<int, Label>, u: int, n: nat)
  {
    forall k: nat | k < n && k < |EdgesFrom(m.net.adjacency, u)| :: EdgeRelaxed(m, dist, u, k)
  }

  /** Every settled node's edges are relaxed, except the node `cur` in progress, up to `upto`. */
  ghost predicate AllRelaxed(m: Metric, dist: map<int, Label>, rank: map<int, nat>, cur: int, upto: nat)
  {
    forall u | u in rank :: RelaxedUpTo(m, dist, u, Quota(m, u, cur, upto))
  }

  /** How many of u's edges are relaxed: `upto` for the node in progress, all for the others. */
  function Quota(m: Metric, u: int, cur: int, upto: nat): nat
  {
    if u == cur then upto else |EdgesFrom(m.net.adjacency, u)|
  }

  /** u's label is no more than the weight of any walk from start to u. */
  ghost predicate OptimalAt(m: Metric, start: int, dist: map<int, Label>, u: int)
  {
    && u in dist && dist[u].Finite?
    && forall w, ws | IsWalk(m.net, w, ws) && w[0] == start && Last(w) == u ::
         dist[u].value <= WalkWeight(m, w, ws)
  }

  ghost predicate Optimal(m: Metric, start: int, dist: map<int, Label>, rank: map<int, nat>)
  {
    forall u | u in rank :: OptimalAt(m, start, dist, u)
  }

  /** An entry never undercuts its node's label, and a settled node's entries are stale. */
  ghost predicate EntrySound(dist: map<int, Label>, rank: map<int, nat>, e: Entry)
  {
    && e.1 in dist && dist[e.1].Finite? && dist[e.1].value <= e.0
    && (e.1 in rank ==> dist[e.1].value < e.0)
  }

  ghost predicate QueueSound(dist: map<int, Label>, rank: map<int, nat>, pq: seq<Entry>)
  {
    forall i | 0 <= i < |pq| :: EntrySound(dist, rank, pq[i])
  }

  /** Every reached, unsettled node is queued with its current label. */
  ghost predicate QueueComplete(dist: map<int, Label>, rank: map<int, nat>, pq: seq<Entry>)
  {
    forall v | v in dist && dist[v].Finite? && v !in rank :: (dist[v].value, v) in pq
  }

  /** The entry carrying a node's current label. */
  ghost predicate Current(dist: map<int, Label>, e: Entry)
  {
    e.1 in dist && dist[e.1] == Finite(e.0)
  }

  /** No current entry is queued twice. */
  ghost predicate QueueSingle(dist: map<int, Label>, pq: seq<Entry>)
  {
    forall i, j | 0 <= i < j < |pq| && pq[i] == pq[j] :: !Current(dist, pq[i])
  }

  /** Settled labels lie at or below `floor`, queued entries at or above it. */
  ghost predicate Floor(dist: map<int, Label>, rank: map<int, nat>, pq: seq<Entry>, floor: real)
  {
    && (forall v | v in rank && v in dist && dist[v].Finite? :: dist[v].value <= floor)
    && (forall i | 0 <= i < |pq| :: floor <= pq[i].0)
  }

  ghost predicate Inv(m: Metric, start: int, target: int, dist: map<int, Label>, prev: map<int, int>,
                      via: map<int, nat>, rank: map<int, nat>, pq: seq<Entry>, floor: real,
                      cur: int, upto: nat)
  {
    && Labels(m, start, dist)
    && Settled(dist, rank)
    && Tree(m, start, dist, prev, via, rank)
    && AllRelaxed(m, dist, rank, cur, upto)
    && Optimal(m, start, dist, rank)
    && QueueSound(dist, rank, pq)
    && QueueComplete(dist, rank, pq)
    && QueueSingle(dist, pq)
    && Floor(dist, rank, pq, floor)
    && target !in rank
  }

  /** The well-formedness the search relies on. */
  ghost predicate Searchable(m: Metric, start: int, target: int)
  {
    WellFormed(m.net) && NonNegative(m.net) && start in m.net.nodes && target in m.net.nodes
  }

  /** Some walk leads from start to end. */
  ghost predicate Reaches(net: Network, start: int, end: int)
  {
    exists w, ws :: IsWalk(net, w, ws) && w[0] == start && Last(w) == end
  }

  // ---------------------------------------------------------------------
  // Queue membership.

  lemma InAt(pq: seq<Entry>, i: int, x: Entry)
    requires 0 <= i < |pq| && pq[i] == x
    ensures x in pq
  {
  }

  lemma IndexOf(pq: seq<Entry>, x: Entry) returns (i: nat)
    requires x in pq
    ensures i < |pq| && pq[i] == x
  {
    i :| 0 <= i < |pq| && pq[i] == x;
  }

  /** An entry other than the removed one stays queued. */
  lemma RemoveKeeps(pq: seq<Entry>, i: nat, x: Entry)
    requires i < |pq| && x in pq && x != pq[i]
    ensures x in Remove(pq, i)
  {
    var j := IndexOf(pq, x);
    var r := Remove(pq, i);
    if j < i {
      assert r[j] == x;
      InAt(r, j, x);
    } else {
      assert r[j - 1] == x;
      InAt(r, j - 1, x);
    }
  }

  /** Positions of the queue after removing position i. */
  lemma RemoveIndex(pq: seq<Entry>, i: nat, j: nat)
    requires i < |pq| && j < |pq| - 1
    ensures Remove(pq, i)[j] == if j < i then pq[j] else pq[j + 1]
  {
  }

  // ---------------------------------------------------------------------
  // The frontier: a walk from start either ends at a settled node or is
  // outweighed by some queued entry.

  lemma {:induction false} Frontier(m: Metric, start: int, target: int, dist: map<int, Label>,
                                    rank: map<int, nat>, pq: seq<Entry>, w: seq<int>, ws: seq<nat>)
    returns (e: Entry)
    requires NonNegative(m.net)
    requires Labels(m, start, dist) && Settled(dist, rank)
    requires AllRelaxed(m, dist, rank, target, 0) && target !in rank
    requires Optimal(m, start, dist, rank) && QueueComplete(dist, rank, pq)
    requires IsWalk(m.net, w, ws) && w[0] == start
    ensures Last(w) !in rank ==> e in pq && e.0 <= WalkWeight(m, w, ws)
    decreases |ws|
  {
    e := (0.0, start);
    var v := Last(w);
    if v in rank {
      return;
    }
    if |ws| == 0 {
      assert v == start;
      assert (dist[start].value, start) in pq;
    } else {
      var p, ps := w[..|w| - 1], ws[..|ws| - 1];
      WalkPrefix(m, w, ws);
      var u, k := Last(p), ws[|ws| - 1];
      StepNonNegative(m, u, k);
      if u in rank {
        assert OptimalAt(m, start, dist, u);
        assert p[0] == start;
        assert dist[u].value <= WalkWeight(m, p, ps);
        assert RelaxedUpTo(m, dist, u, |EdgesFrom(m.net.adjacency, u)|);
        assert EdgeRelaxed(m, dist, u, k);
        assert v in dist;
        e := (dist[v].value, v);
      } else {
        e := Frontier(m, start, target, dist, rank, pq, p, ps);
      }
    }
  }

  // ---------------------------------------------------------------------
  // The search step by step.

  /**
   * The queue's top, for a node not yet settled, carries that node's label,
   * and the label is optimal.
   */
  lemma PopOptimal(m: Metric, start: int, target: int, dist: map<int, Label>, prev: map<int, int>,
                   via: map<int, nat>, rank: map<int, nat>, pq: seq<Entry>, floor: real, i: nat)
    requires NonNegative(m.net)
    requires Inv(m, start, target, dist, prev, via, rank, pq, floor, target, 0)
    requires i < |pq| && forall j | 0 <= j < |pq| :: EntryBelow(pq[i], pq[j])
    requires pq[i].1 !in rank
    ensures Current(dist, pq[i])
    ensures OptimalAt(m, start, dist, pq[i].1)
  {
    var d, u := pq[i].0, pq[i].1;
    assert EntrySound(dist, rank, pq[i]);
    var j := IndexOf(pq, (dist[u].value, u));
    assert EntryBelow(pq[i], pq[j]);
    forall w, ws | IsWalk(m.net, w, ws) && w[0] == start && Last(w) == u
      ensures dist[u].value <= WalkWeight(m, w, ws)
    {
      var e := Frontier(m, start, target, dist, rank, pq, w, ws);
      var k := IndexOf(pq, e);
      assert EntryBelow(pq[i], pq[k]);
    }
  }

  /** Removing the top keeps the queue sound, single and above the new floor. */
  lemma RemoveTop(dist: map<int, Label>, rank: map<int, nat>, pq: seq<Entry>, floor: real, i: nat)
    requires QueueSound(dist, rank, pq) && QueueSingle(dist, pq) && Floor(dist, rank, pq, floor)
    requires i < |pq| && forall j | 0 <= j < |pq| :: EntryBelow(pq[i], pq[j])
    ensures QueueSound(dist, rank, Remove(pq, i))
    ensures QueueSingle(dist, Remove(pq, i))
    ensures Floor(dist, rank, Remove(pq, i), pq[i].0)
  {
    var r := Remove(pq, i);
    forall j | 0 <= j < |r|
      ensures EntrySound(dist, rank, r[j]) && pq[i].0 <= r[j].0
    {
      RemoveIndex(pq, i, j);
      if j < i {
        assert EntryBelow(pq[i], pq[j]);
      } else {
        assert EntryBelow(pq[i], pq[j + 1]);
      }
    }
    forall a, b | 0 <= a < b < |r| && r[a] == r[b]
      ensures !Current(dist, r[a])
    {
      RemoveIndex(pq, i, a);
      RemoveIndex(pq, i, b);
      var a', b' := if a < i then a else a + 1, if b < i then b else b + 1;
      assert r[a] == pq[a'] && r[b] == pq[b'] && a' < b';
    }
  }

  /** A stale top (its node settled, or its distance above the label) is simply dropped. */
  lemma PopStale(m: Metric, start: int, target: int, dist: map<int, Label>, prev: map<int, int>,
                 via: map<int, nat>, rank: map<int, nat>, pq: seq<Entry>, floor: real, i: nat)
    requires Inv(m, start, target, dist, prev, via, rank, pq, floor, target, 0)
    requires i < |pq| && forall j | 0 <= j < |pq| :: EntryBelow(pq[i], pq[j])
    requires !Current(dist, pq[i])
    ensures Inv(m, start, target, dist, prev, via, rank, Remove(pq, i), pq[i].0, target, 0)
  {
    RemoveTop(dist, rank, pq, floor, i);
    forall v | v in dist && dist[v].Finite? && v !in rank
      ensures (dist[v].value, v) in Remove(pq, i)
    {
      RemoveKeeps(pq, i, (dist[v].value, v));
    }
  }

  /** Settling the top's node: it gets the next rank and the queue loses its entry. */
  lemma Settle(m: Metric, start: int, target: int, dist: map<int, Label>, prev: map<int, int>,
               via: map<int, nat>, rank: map<int, nat>, pq: seq<Entry>, floor: real, i: nat)
    requires NonNegative(m.net)
    requires Inv(m, start, target, dist, prev, via, rank, pq, floor, target, 0)
    requires i < |pq| && forall j | 0 <= j < |pq| :: EntryBelow(pq[i], pq[j])
    requires Current(dist, pq[i]) && pq[i].1 !in rank && pq[i].1 != target
    ensures Inv(m, start, target, dist, prev, via, rank[pq[i].1 := |rank|], Remove(pq, i), pq[i].0,
                pq[i].1, 0)
  {
    var d, u := pq[i].0, pq[i].1;
    var rank', pq' := rank[u := |rank|], Remove(pq, i);
    PopOptimal(m, start, target, dist, prev, via, rank, pq, floor, i);
    RemoveTop(dist, rank, pq, floor, i);
    assert |rank'| == |rank| + 1;
    forall v | v in prev
      ensures TreeEdge(m, dist, prev, via, rank', v)
    {
      assert TreeEdge(m, dist, prev, via, rank, v);
    }
    forall j | 0 <= j < |pq'|
      ensures EntrySound(dist, rank', pq'[j])
    {
      RemoveIndex(pq, i, j);
      var j' := if j < i then j else j + 1;
      assert pq'[j] == pq[j'] && j' != i;
      assert EntrySound(dist, rank, pq[j']);
      if pq[j'].1 == u && pq[j'].0 == d {
        assert false;
      }
    }
    forall v | v in dist && dist[v].Finite? && v !in rank'
      ensures (dist[v].value, v) in pq'
    {
      RemoveKeeps(pq, i, (dist[v].value, v));
    }
    forall v | v in rank'
      ensures RelaxedUpTo(m, dist, v, Quota(m, v, u, 0))
    {
      if v != u {
        assert RelaxedUpTo(m, dist, v, Quota(m, v, target, 0));
      }
    }
    forall v | v in rank'
      ensures OptimalAt(m, start, dist, v)
    {
      if v != u {
        assert OptimalAt(m, start, dist, v);
      }
    }
  }

  /** Once all of u's edges are relaxed, u is like every other settled node. */
  lemma FinishNode(m: Metric, start: int, target: int, dist: map<int, Label>, prev: map<int, int>,
                   via: map<int, nat>, rank: map<int, nat>, pq: seq<Entry>, floor: real, u: int)
    requires Inv(m, start, target, dist, prev, via, rank, pq, floor, u, |EdgesFrom(m.net.adjacency, u)|)
    ensures Inv(m, start, target, dist, prev, via, rank, pq, floor, target, 0)
  {
    forall v | v in rank
      ensures RelaxedUpTo(m, dist, v, Quota(m, v, target, 0))
    {
      assert RelaxedUpTo(m, dist, v, Quota(m, v, u, |EdgesFrom(m.net.adjacency, u)|));
    }
  }

  /** With the queue empty, the target was never labelled and no walk reaches it. */
  lemma Exhausted(m: Metric, start: int, target: int, dist: map<int, Label>, prev: map<int, int>,
                  via: map<int, nat>, rank: map<int, nat>, floor: real)
    requires NonNegative(m.net) && target in m.net.nodes
    requires Inv(m, start, target, dist, prev, via, rank, [], floor, target, 0)
    ensures dist[target].Infinite?
    ensures !Reaches(m.net, start, target)
  {
    if dist[target].Finite? {
      assert false;
    }
    forall w, ws | IsWalk(m.net, w, ws) && w[0] == start
      ensures Last(w) != target
    {
      var e := Frontier(m, start, target, dist, rank, [], w, ws);
    }
  }

  /** Relaxing the k-th edge of the node in progress when it does not improve its head. */
  lemma RelaxKeeps(m: Metric, start: int, target: int, dist: map<int, Label>, prev: map<int, int>,
                   via: map<int, nat>, rank: map<int, nat>, pq: seq<Entry>, floor: real,
                   u: int, k: nat, nd: real)
    requires Inv(m, start, target, dist, prev, via, rank, pq, floor, u, k)
    requires u in rank && k < |EdgesFrom(m.net.adjacency, u)| && dist[u] == Finite(floor)
    requires nd == floor + m.Step(u, k)
    requires !Below(nd, At(dist, m.net.adjacency[u][k].to))
    ensures Inv(m, start, target, dist, prev, via, rank, pq, floor, u, k + 1)
  {
    forall v | v in rank
      ensures RelaxedUpTo(m, dist, v, Quota(m, v, u, k + 1))
    {
      assert RelaxedUpTo(m, dist, v, Quota(m, v, u, k));
      if v == u {
        assert EdgeRelaxed(m, dist, u, k);
      }
    }
  }

  /** Where an improving edge leads: a labelled node that is neither settled nor the start. */
  lemma ImprovedHead(m: Metric, start: int, target: int, dist: map<int, Label>, prev: map<int, int>,
                     via: map<int, nat>, rank: map<int, nat>, pq: seq<Entry>, floor: real,
                     u: int, k: nat, nd: real)
    requires NonNegative(m.net)
    requires Inv(m, start, target, dist, prev, via, rank, pq, floor, u, k)
    requires u in rank && k < |EdgesFrom(m.net.adjacency, u)| && dist[u] == Finite(floor)
    requires nd == floor + m.Step(u, k)
    requires Below(nd, At(dist, m.net.adjacency[u][k].to))
    ensures var v := m.net.adjacency[u][k].to;
      v in dist && v !in rank && v != start && v != u && nd >= floor && Below(nd, dist[v])
  {
    StepNonNegative(m, u, k);
  }

  /** Relaxing the k-th edge of the node in progress when it improves its head v. */
  lemma RelaxImproves(m: Metric, start: int, target: int, dist: map<int, Label>, prev: map<int, int>,
                      via: map<int, nat>, rank: map<int, nat>, pq: seq<Entry>, floor: real,
                      u: int, k: nat, nd: real)
    requires NonNegative(m.net)
    requires Inv(m, start, target, dist, prev, via, rank, pq, floor, u, k)
    requires u in rank && k < |EdgesFrom(m.net.adjacency, u)| && dist[u] == Finite(floor)
    requires nd == floor + m.Step(u, k)
    requires Below(nd, At(dist, m.net.adjacency[u][k].to))
    ensures var v := m.net.adjacency[u][k].to;
      Inv(m, start, target, dist[v := Finite(nd)], prev[v := u], via[v := k], rank, pq + [(nd, v)],
          floor, u, k + 1)
  {
    var v := m.net.adjacency[u][k].to;
    ImprovedHead(m, start, target, dist, prev, via, rank, pq, floor, u, k, nd);
    RelaxTree(m, start, dist, prev, via, rank, floor, u, k, nd);
    RelaxEdges(m, start, dist, rank, floor, u, k, nd);
    RelaxQueue(dist, rank, pq, floor, v, nd);
  }

  lemma RelaxTree(m: Metric, start: int, dist: map<int, Label>, prev: map<int, int>,
                  via: map<int, nat>, rank: map<int, nat>, floor: real, u: int, k: nat, nd: real)
    requires Labels(m, start, dist) && Settled(dist, rank) && Tree(m, start, dist, prev, via, rank)
    requires u in rank && k < |EdgesFrom(m.net.adjacency, u)| && dist[u] == Finite(floor)
    requires nd == floor + m.Step(u, k)
    requires var v := m.net.adjacency[u][k].to;
      v in dist && v !in rank && v != start && nd >= floor
    ensures var v := m.net.adjacency[u][k].to;
      && Labels(m, start, dist[v := Finite(nd)])
      && Settled(dist[v := Finite(nd)], rank)
      && Tree(m, start, dist[v := Finite(nd)], prev[v := u], via[v := k], rank)
  {
    var v := m.net.adjacency[u][k].to;
    var dist', prev', via' := dist[v := Finite(nd)], prev[v := u], via[v := k];
    assert dist'.Keys == dist.Keys;
    forall w | w in prev'
      ensures TreeEdge(m, dist', prev', via', rank, w)
    {
      if w != v {
        assert TreeEdge(m, dist, prev, via, rank, w);
      }
    }
  }

  lemma RelaxEdges(m: Metric, start: int, dist: map<int, Label>, rank: map<int, nat>, floor: real,
                   u: int, k: nat, nd: real)
    requires AllRelaxed(m, dist, rank, u, k) && Optimal(m, start, dist, rank)
    requires u in rank && k < |EdgesFrom(m.net.adjacency, u)| && dist[u] == Finite(floor)
    requires nd == floor + m.Step(u, k)
    requires var v := m.net.adjacency[u][k].to;
      v in dist && v !in rank && Below(nd, dist[v])
    ensures var v := m.net.adjacency[u][k].to;
      && AllRelaxed(m, dist[v := Finite(nd)], rank, u, k + 1)
      && Optimal(m, start, dist[v := Finite(nd)], rank)
  {
    var v := m.net.adjacency[u][k].to;
    var dist' := dist[v := Finite(nd)];
    forall w | w in rank
      ensures RelaxedUpTo(m, dist', w, Quota(m, w, u, k + 1))
    {
      assert RelaxedUpTo(m, dist, w, Quota(m, w, u, k));
      forall j: nat | j < Quota(m, w, u, k + 1) && j < |EdgesFrom(m.net.adjacency, w)|
        ensures EdgeRelaxed(m, dist', w, j)
      {
        if w != u || j != k {
          assert EdgeRelaxed(m, dist, w, j);
        }
      }
    }
    forall w | w in rank
      ensures OptimalAt(m, start, dist', w)
    {
      assert OptimalAt(m, start, dist, w);
    }
  }

  lemma RelaxQueue(dist: map<int, Label>, rank: map<int, nat>, pq: seq<Entry>, floor: real, v: int, nd: real)
    requires QueueSound(dist, rank, pq) && QueueComplete(dist, rank, pq) && QueueSingle(dist, pq)
    requires Floor(dist, rank, pq, floor)
    requires v in dist && v !in rank && Below(nd, dist[v]) && nd >= floor
    ensures var dist', pq' := dist[v := Finite(nd)], pq + [(nd, v)];
      && QueueSound(dist', rank, pq') && QueueComplete(dist', rank, pq') && QueueSingle(dist', pq')
      && Floor(dist', rank, pq', floor)
  {
    var dist', pq' := dist[v := Finite(nd)], pq + [(nd, v)];
    forall i | 0 <= i < |pq'|
      ensures EntrySound(dist', rank, pq'[i]) && floor <= pq'[i].0
    {
      if i < |pq| {
        assert EntrySound(dist, rank, pq[i]);
      }
    }
    forall w | w in dist' && dist'[w].Finite? && w !in rank
      ensures (dist'[w].value, w) in pq'
    {
      if w == v {
        InAt(pq', |pq|, (nd, v));
      } else {
        assert (dist[w].value, w) in pq;
      }
    }
    forall i, j | 0 <= i < j < |pq'| && pq'[i] == pq'[j]
      ensures !Current(dist', pq'[i])
    {
      assert EntrySound(dist, rank, pq[i]);
      if j < |pq| && pq[i].1 != v {
        assert !Current(dist, pq[i]);
      }
    }
  }

  /** Before the loop: every node unreached except the start, which is queued at 0. */
  lemma InitInv(m: Metric, start: int, target: int, dist: map<int, Label>)
    requires start in m.net.nodes
    requires dist == (map id | id in m.net.nodes :: Infinite)[start := Finite(0.0)]
    ensures Inv(m, start, target, dist, map[], map[], map[], [(0.0, start)], 0.0, target, 0)
  {
    assert dist.Keys == m.net.nodes.Keys;
    forall v | v in dist && dist[v].Finite?
      ensures (dist[v].value, v) in [(0.0, start)]
    {
      InAt([(0.0, start)], 0, (0.0, start));
    }
  }

  /** A top that is not stale carries its node's label, and that node is not settled yet. */
  lemma NotStale(m: Metric, start: int, target: int, dist: map<int, Label>, prev: map<int, int>,
                 via: map<int, nat>, rank: map<int, nat>, pq: seq<Entry>, floor: real, i: nat)
    requires Inv(m, start, target, dist, prev, via, rank, pq, floor, target, 0)
    requires i < |pq| && !Above(pq[i].0, At(dist, pq[i].1))
    ensures Current(dist, pq[i]) && pq[i].1 !in rank && pq[i].1 in m.net.nodes
  {
    assert EntrySound(dist, rank, pq[i]);
  }

  /** Settling one more node shrinks the set of unsettled nodes. */
  lemma SettleShrinks(nodes: set<int>, settled: set<int>, u: int)
    requires u in nodes && u !in settled
    ensures |nodes - (settled + {u})| < |nodes - settled|
  {
    assert nodes - settled == (nodes - (settled + {u})) + {u};
  }

  /**
   * The search loop (src/graph.cpp:159-196): labels, predecessors, and the
   * settled nodes with their settling order and the edge that reached them.
   * The loop stops when the target's entry reaches the top of the queue or
   * the queue runs empty.
   */
  method Search(m: Metric, start: int, target: int)
    returns (dist: map<int, Label>, prev: map<int, int>, ghost via: map<int, nat>, ghost rank: map<int, nat>)
    requires Searchable(m, start, target)
    ensures Labels(m, start, dist) && Settled(dist, rank) && Tree(m, start, dist, prev, via, rank)
    ensures target !in rank
    ensures dist[target].Finite? ==> OptimalAt(m, start, dist, target)
    ensures dist[target].Infinite? ==> !Reaches(m.net, start, target)
  {
    dist := (map id | id in m.net.nodes :: Infinite)[start := Finite(0.0)];
    prev := map[];
    via, rank := map[], map[];
    var pq: seq<Entry> := [(0.0, start)];
    ghost var floor := 0.0;
    ghost var reached := false;
    InitInv(m, start, target, dist);
    while pq != []
      invariant Inv(m, start, target, dist, prev, via, rank, pq, floor, target, 0)
      decreases |m.net.nodes.Keys - rank.Keys|, |pq|
    {
      var i := MinIndex(pq);
      var currentDist, current := pq[i].0, pq[i].1;
      ghost var before := pq;
      pq := Remove(pq, i);
      if current == target {
        PopOptimal(m, start, target, dist, prev, via, rank, before, floor, i);
        reached := true;
        break;
      }
      if Above(currentDist, At(dist, current)) {
        PopStale(m, start, target, dist, prev, via, rank, before, floor, i);
        floor := currentDist;
        continue;
      }
      NotStale(m, start, target, dist, prev, via, rank, before, floor, i);
      Settle(m, start, target, dist, prev, via, rank, before, floor, i);
      SettleShrinks(m.net.nodes.Keys, rank.Keys, current);
      ghost var settledBefore := rank.Keys;
      rank := rank[current := |rank|];
      assert rank.Keys == settledBefore + {current};
      floor := currentDist;
      dist, prev, via, pq := RelaxAll(m, start, target, dist, prev, via, rank, pq, floor, current, currentDist);
    }
    if !reached {
      Exhausted(m, start, target, dist, prev, via, rank, floor);
    }
  }

  /** The inner loop (src/graph.cpp:183-195): relax every edge out of the node just settled. */
  method RelaxAll(m: Metric, start: int, target: int, dist0: map<int, Label>, prev0: map<int, int>,
                  ghost via0: map<int, nat>, ghost rank: map<int, nat>, pq0: seq<Entry>, ghost floor: real,
                  current: int, currentDist: real)
    returns (dist: map<int, Label>, prev: map<int, int>, ghost via: map<int, nat>, pq: seq<Entry>)
    requires Searchable(m, start, target)
    requires currentDist == floor
    requires current in rank && current in dist0 && dist0[current] == Finite(floor)
    requires Inv(m, start, target, dist0, prev0, via0, rank, pq0, floor, current, 0)
    ensures Inv(m, start, target, dist, prev, via, rank, pq, floor, target, 0)
  {
    dist, prev, via, pq := dist0, prev0, via0, pq0;
    var edges := EdgesFrom(m.net.adjacency, current);
    var k := 0;
    while k < |edges|
      invariant k <= |edges| && edges == EdgesFrom(m.net.adjacency, current)
      invariant current in dist && dist[current] == Finite(currentDist)
      invariant Inv(m, start, target, dist, prev, via, rank, pq, floor, current, k)
    {
      var edge := edges[k];
      StepIsEdgeWeight(m, current, k);
      var weight := EdgeWeight(edge, m.mode, m.hour);
      var newDist := currentDist + weight;
      if Below(newDist, At(dist, edge.to)) {
        RelaxImproves(m, start, target, dist, prev, via, rank, pq, floor, current, k, newDist);
        dist := dist[edge.to := Finite(newDist)];
        prev := prev[edge.to := current];
        via := via[edge.to := k];
        pq := pq + [(newDist, edge.to)];
      } else {
        RelaxKeeps(m, start, target, dist, prev, via, rank, pq, floor, current, k, newDist);
      }
      k := k + 1;
    }
    FinishNode(m, start, target, dist, prev, via, rank, pq, floor, current);
  }

  // ---------------------------------------------------------------------
  // Path reconstruction.

  /**
   * The reconstruction invariant: `fwd` is the walk from `current` to the
   * target along `steps` that the reversed `rev` spells out, its weight is
   * what separates the two labels, and its nodes before the target were
   * settled in increasing order.
   */
  ghost predicate Trail(m: Metric, dist: map<int, Label>, rank: map<int, nat>, target: int,
                        current: int, rev: seq<int>, fwd: seq<int>, steps: seq<nat>)
  {
    && current in dist && dist[current].Finite? && target in dist && dist[target].Finite?
    && IsWalk(m.net, fwd, steps) && fwd[0] == current && Last(fwd) == target
    && Reverse(rev + [current]) == fwd
    && dist[current].value + WalkWeight(m, fwd, steps) == dist[target].value
    && (forall i | 0 <= i < |fwd| - 1 :: fwd[i] in rank)
    && (forall i, j | 0 <= i < j < |fwd| - 1 :: rank[fwd[i]] < rank[fwd[j]])
    && (current in rank || fwd == [target])
  }

  /** One step back along the predecessors keeps the trail. */
  lemma TrailStep(m: Metric, start: int, target: int, dist: map<int, Label>, prev: map<int, int>,
                  via: map<int, nat>, rank: map<int, nat>, current: int, rev: seq<int>, fwd: seq<int>,
                  steps: seq<nat>)
    requires Labels(m, start, dist) && Tree(m, start, dist, prev, via, rank) && target !in rank
    requires Trail(m, dist, rank, target, current, rev, fwd, steps) && current != start
    ensures current in prev && current in via && prev[current] in rank
    ensures current in rank ==> rank[prev[current]] < rank[current]
    ensures Trail(m, dist, rank, target, prev[current], rev + [current], [prev[current]] + fwd,
                  [via[current]] + steps)
  {
    assert TreeEdge(m, dist, prev, via, rank, current);
    var p, k := prev[current], via[current];
    WalkPrepend(m, p, k, fwd, steps);
    ReverseSnoc(rev + [current], p);
    var fwd' := [p] + fwd;
    forall i, j | 0 <= i < j < |fwd'| - 1
      ensures rank[fwd'[i]] < rank[fwd'[j]]
    {
      if i == 0 && j > 1 {
        assert rank[fwd[0]] < rank[fwd[j - 1]];
      }
    }
  }

  /** A trail from the start is a walk through distinct nodes. */
  lemma TrailDistinct(m: Metric, dist: map<int, Label>, rank: map<int, nat>, target: int,
                      current: int, rev: seq<int>, fwd: seq<int>, steps: seq<nat>)
    requires Trail(m, dist, rank, target, current, rev, fwd, steps) && target !in rank
    ensures Distinct(fwd)
  {
    forall i, j | 0 <= i < j < |fwd|
      ensures fwd[i] != fwd[j]
    {
      if j == |fwd| - 1 {
        assert fwd[i] in rank;
      } else {
        assert rank[fwd[i]] < rank[fwd[j]];
      }
    }
  }

  /**
   * Following the predecessors back from a labelled target (src/graph.cpp:
   * 203-209) gives a walk from start whose weight is the target's label and
   * whose nodes are distinct; `steps` names the edge taken at each step.
   */
  method Reconstruct(m: Metric, start: int, target: int, dist: map<int, Label>, prev: map<int, int>,
                     ghost via: map<int, nat>, ghost rank: map<int, nat>)
    returns (path: seq<int>, ghost steps: seq<nat>)
    requires Labels(m, start, dist) && Settled(dist, rank) && Tree(m, start, dist, prev, via, rank)
    requires target in dist && dist[target].Finite? && target !in rank
    ensures IsWalk(m.net, path, steps) && path[0] == start && Last(path) == target
    ensures WalkWeight(m, path, steps) == dist[target].value
    ensures Distinct(path)
    ensures start == target ==> path == [start]
  {
    var rev: seq<int> := [];
    var current := target;
    ghost var fwd: seq<int> := [target];
    steps := [];
    TrivialWalk(m, target);
    while current != start
      invariant Trail(m, dist, rank, target, current, rev, fwd, steps)
      decreases if current in rank then rank[current] else |rank|
    {
      TrailStep(m, start, target, dist, prev, via, rank, current, rev, fwd, steps);
      fwd, steps := [prev[current]] + fwd, [via[current]] + steps;
      rev := rev + [current];
      current := prev[current];
    }
    path := Reverse(rev + [start]);
    TrailDistinct(m, dist, rank, target, current, rev, fwd, steps);
  }

  // ---------------------------------------------------------------------
  // The totals of the reported path.

  /** The position of the first edge into `to`, as a front-to-back scan finds it. */
  function FirstIndexTo(edges: seq<Edge>, to: int): (r: Option<nat>)
    ensures r.Some? ==> r.value < |edges| && edges[r.value].to == to
    ensures r.Some? ==> forall j | 0 <= j < r.value :: edges[j].to != to
    ensures r.None? ==> forall j | 0 <= j < |edges| :: edges[j].to != to
    decreases |edges|
  {
    if edges == [] then None
    else if edges[0].to == to then Some(0)
    else
      match FirstIndexTo(edges[1..], to)
      case None => None
      case Some(i) => Some(i + 1)
  }

  /** An edge into `to` with none before it is the first one. */
  lemma {:induction false} FirstIndexToIs(edges: seq<Edge>, to: int, k: nat)
    requires k < |edges| && edges[k].to == to
    requires forall j | 0 <= j < k :: edges[j].to != to
    ensures FirstIndexTo(edges, to) == Some(k)
    decreases |edges|
  {
    if k > 0 {
      FirstIndexToIs(edges[1..], to, k - 1);
    }
  }

  /**
   * The time (s) the totals loop charges for an edge: its length over the
   * learned speed at `hour`, whatever mode the route was searched in.
   */
  function TravelTime(e: Edge, hour: int): (t: real)
    requires Drivable(e)
    ensures t == EdgeWeight(e, Learned, hour)
    ensures e.distance >= 0.0 ==> t >= 0.0
  {
    e.distance / MetersPerSecond(TimeAdjustedSpeed(e, hour) * e.crowdMultiplier)
  }

  /** The length charged for going from a to b: that of the first edge a -> b, none if there is none. */
  function LegDistance(net: Network, a: int, b: int): (d: real)
    ensures NonNegative(net) ==> d >= 0.0
    ensures d != 0.0 ==> a in net.adjacency && exists k | 0 <= k < |net.adjacency[a]| :: net.adjacency[a][k].to == b
  {
    var edges := EdgesFrom(net.adjacency, a);
    match FirstIndexTo(edges, b)
    case None => 0.0
    case Some(i) => edges[i].distance
  }

  /** The time charged for going from a to b: the first edge a -> b at learned speed, none if there is none. */
  function LegTime(net: Network, hour: int, a: int, b: int): (t: real)
    requires WellFormed(net)
    ensures NonNegative(net) ==> t >= 0.0
    ensures t != 0.0 ==> a in net.adjacency && exists k | 0 <= k < |net.adjacency[a]| :: net.adjacency[a][k].to == b
  {
    var edges := EdgesFrom(net.adjacency, a);
    match FirstIndexTo(edges, b)
    case None => 0.0
    case Some(i) => TravelTime(edges[i], hour)
  }

  /** The total distance reported for `path`: the first edge of every leg. */
  function ReportedDistance(net: Network, path: seq<int>): (d: real)
    ensures NonNegative(net) ==> d >= 0.0
    ensures |path| < 2 ==> d == 0.0
    decreases |path|
  {
    if |path| < 2 then 0.0
    else ReportedDistance(net, path[..|path| - 1]) + LegDistance(net, path[|path| - 2], path[|path| - 1])
  }

  /** The estimated time reported for `path`: the first edge of every leg at learned speed. */
  function ReportedTime(net: Network, hour: int, path: seq<int>): (t: real)
    requires WellFormed(net)
    ensures NonNegative(net) ==> t >= 0.0
    ensures |path| < 2 ==> t == 0.0
    decreases |path|
  {
    if |path| < 2 then 0.0
    else ReportedTime(net, hour, path[..|path| - 1]) + LegTime(net, hour, path[|path| - 2], path[|path| - 1])
  }

  lemma LearnedSpeedPositive(e: Edge, hour: int)
    requires Drivable(e)
    ensures MetersPerSecond(TimeAdjustedSpeed(e, hour) * e.crowdMultiplier) > 0.0
  {
    var v := TimeAdjustedSpeed(e, hour);
    assert v > 0.0;
    assert v * e.crowdMultiplier > 0.0;
  }

  /** The reported totals of a prefix grow by one leg at a time. */
  lemma ReportedSnoc(net: Network, hour: int, path: seq<int>, i: nat)
    requires WellFormed(net) && i + 1 < |path|
    ensures ReportedDistance(net, path[..i + 2]) == ReportedDistance(net, path[..i + 1]) + LegDistance(net, path[i], path[i + 1])
    ensures ReportedTime(net, hour, path[..i + 2]) == ReportedTime(net, hour, path[..i + 1]) + LegTime(net, hour, path[i], path[i + 1])
  {
    assert path[..i + 2][..i + 1] == path[..i + 1];
  }

  /**
   * One leg of the totals loop (src/graph.cpp:213-225): scan a's edges for
   * the first one into b and add its length and learned travel time.
   */
  method AddLeg(net: Network, hour: int, a: int, b: int, distance0: real, time0: real)
    returns (distance: real, time: real)
    requires WellFormed(net)
    ensures distance == distance0 + LegDistance(net, a, b)
    ensures time == time0 + LegTime(net, hour, a, b)
  {
    distance, time := distance0, time0;
    var edges := EdgesFrom(net.adjacency, a);
    var j := 0;
    while j < |edges|
      invariant j <= |edges|
      invariant forall l | 0 <= l < j :: edges[l].to != b
      invariant distance == distance0 && time == time0
    {
      var edge := edges[j];
      if edge.to == b {
        FirstIndexToIs(edges, b, j);
        EdgeOkIsDrivable(edge);
        LearnedSpeedPositive(edge, hour);
        distance := distance + edge.distance;
        var speed := TimeAdjustedSpeed(edge, hour) * edge.crowdMultiplier;
        time := time + edge.distance / MetersPerSecond(speed);
        return;
      }
      j := j + 1;
    }
  }

  /**
   * The totals loop (src/graph.cpp:211-226): for each leg, the first edge to
   * the next node adds its length and its learned travel time.
   */
  method Totals(net: Network, hour: int, path: seq<int>) returns (totalDistance: real, estimatedTime: real)
    requires WellFormed(net) && |path| > 0
    ensures totalDistance == ReportedDistance(net, path)
    ensures estimatedTime == ReportedTime(net, hour, path)
  {
    totalDistance, estimatedTime := 0.0, 0.0;
    var i := 0;
    while i < |path| - 1
      invariant 0 <= i <= |path| - 1
      invariant totalDistance == ReportedDistance(net, path[..i + 1])
      invariant estimatedTime == ReportedTime(net, hour, path[..i + 1])
    {
      ReportedSnoc(net, hour, path, i);
      totalDistance, estimatedTime := AddLeg(net, hour, path[i], path[i + 1], totalDistance, estimatedTime);
      i := i + 1;
    }
    assert path[..|path|] == path;
  }

  /** When every step of a walk takes the first edge to its successor, the reported distance is its Distance weight. */
  lemma {:induction false} DistanceOfFirstEdgeWalk(net: Network, hour: int, path: seq<int>, steps: seq<nat>)
    requires WellFormed(net) && IsWalk(net, path, steps)
    requires forall i | 0 <= i < |steps| ::
               FirstIndexTo(EdgesFrom(net.adjacency, path[i]), path[i + 1]) == Some(steps[i])
    ensures ReportedDistance(net, path) == WalkWeight(Metric(net, Distance, hour), path, steps)
    decreases |steps|
  {
    if |steps| > 0 {
      var n := |steps| - 1;
      var p, ps := path[..|path| - 1], steps[..n];
      WalkPrefix(Metric(net, Distance, hour), path, steps);
      FirstEdgesOfPrefix(net, path, steps);
      DistanceOfFirstEdgeWalk(net, hour, p, ps);
      StepIsEdgeWeight(Metric(net, Distance, hour), path[n], steps[n]);
    }
  }

  /** ... and the reported time is its Learned weight at the query hour. */
  lemma {:induction false} TimeOfFirstEdgeWalk(net: Network, hour: int, path: seq<int>, steps: seq<nat>)
    requires WellFormed(net) && IsWalk(net, path, steps)
    requires forall i | 0 <= i < |steps| ::
               FirstIndexTo(EdgesFrom(net.adjacency, path[i]), path[i + 1]) == Some(steps[i])
    ensures ReportedTime(net, hour, path) == WalkWeight(Metric(net, Learned, hour), path, steps)
    decreases |steps|
  {
    if |steps| > 0 {
      var n := |steps| - 1;
      var p, ps := path[..|path| - 1], steps[..n];
      WalkPrefix(Metric(net, Learned, hour), path, steps);
      FirstEdgesOfPrefix(net, path, steps);
      TimeOfFirstEdgeWalk(net, hour, p, ps);
      StepIsEdgeWeight(Metric(net, Learned, hour), path[n], steps[n]);
    }
  }

  lemma FirstEdgesOfPrefix(net: Network, path: seq<int>, steps: seq<nat>)
    requires |path| == |steps| + 1 && |steps| > 0
    requires forall i | 0 <= i < |steps| ::
               FirstIndexTo(EdgesFrom(net.adjacency, path[i]), path[i + 1]) == Some(steps[i])
    ensures var p, ps := path[..|path| - 1], steps[..|steps| - 1];
      forall i | 0 <= i < |ps| :: FirstIndexTo(EdgesFrom(net.adjacency, p[i]), p[i + 1]) == Some(ps[i])
  {
    var p, ps := path[..|path| - 1], steps[..|steps| - 1];
    forall i | 0 <= i < |ps|
      ensures FirstIndexTo(EdgesFrom(net.adjacency, p[i]), p[i + 1]) == Some(ps[i])
    {
      assert p[i] == path[i] && p[i + 1] == path[i + 1] && ps[i] == steps[i];
    }
  }

  /** No two edges out of one node lead to the same node. */
  ghost predicate NoParallelEdges(net: Network)
  {
    forall a, i, j | a in net.adjacency && 0 <= i < j < |net.adjacency[a]| ::
      net.adjacency[a][i].to != net.adjacency[a][j].to
  }

  /** Without parallel edges every step of a walk takes the first edge to its successor. */
  lemma FirstEdgesOfWalk(net: Network, path: seq<int>, steps: seq<nat>)
    requires NoParallelEdges(net) && IsWalk(net, path, steps)
    ensures forall i | 0 <= i < |steps| ::
              FirstIndexTo(EdgesFrom(net.adjacency, path[i]), path[i + 1]) == Some(steps[i])
  {
    forall i | 0 <= i < |steps|
      ensures FirstIndexTo(EdgesFrom(net.adjacency, path[i]), path[i + 1]) == Some(steps[i])
    {
      var edges := EdgesFrom(net.adjacency, path[i]);
      assert forall j | 0 <= j < steps[i] :: edges[j].to != edges[steps[i]].to;
      FirstIndexToIs(edges, path[i + 1], steps[i]);
    }
  }
}
