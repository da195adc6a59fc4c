/**
 * The crowd-sourced learning simulation of src/graph.cpp
 * (applyLearnedPatterns), edge by edge: which road types draw a random
 * number, which multiplier a low draw installs, and what the change leaves
 * alone (every length, speed limit and road type, so every Distance and
 * SpeedLimit weight).
 */
module LearnedPatterns {
  import opened Roads
  import opened CostModel
  import opened RoadNetwork
  import opened Walks

  /** Road types that draw a number from [0, 1): exactly one draw per such edge. */
  predicate TakesDraw(e: Edge)
  {
    e.roadType == "motorway" || e.roadType == "trunk"
    || e.roadType == "primary" || e.roadType == "secondary"
    || e.roadType == "residential"
  }

  /**
   * The edge after its draw `d`: a motorway or trunk below 0.05 becomes
   * congested (0.6), a primary or secondary road below 0.03 a shortcut (1.4),
   * a residential street below 0.02 a parallel route (1.2).
   */
  function Learn(e: Edge, d: real): (r: Edge)
    ensures r == e.(crowdMultiplier := r.crowdMultiplier)
    ensures r.crowdMultiplier in {e.crowdMultiplier, 0.6, 1.4, 1.2}
  {
    if (e.roadType == "motorway" || e.roadType == "trunk") && d < 0.05 then e.(crowdMultiplier := 0.6)
    else if (e.roadType == "primary" || e.roadType == "secondary") && d < 0.03 then e.(crowdMultiplier := 1.4)
    else if e.roadType == "residential" && d < 0.02 then e.(crowdMultiplier := 1.2)
    else e
  }

  /** The thresholds, type by type: only a low enough draw changes anything. */
  lemma LearnThresholds(e: Edge, d: real)
    ensures (e.roadType == "motorway" || e.roadType == "trunk") ==>
              Learn(e, d).crowdMultiplier == (if d < 0.05 then 0.6 else e.crowdMultiplier)
    ensures (e.roadType == "primary" || e.roadType == "secondary") ==>
              Learn(e, d).crowdMultiplier == (if d < 0.03 then 1.4 else e.crowdMultiplier)
    ensures e.roadType == "residential" ==>
              Learn(e, d).crowdMultiplier == (if d < 0.02 then 1.2 else e.crowdMultiplier)
    ensures !TakesDraw(e) ==> Learn(e, d) == e
  {
  }

  /** The edge at `key` after the pass: learned from its own draw if its type takes one, unchanged otherwise. */
  ghost predicate LearnedAt<K>(before: Edge, after: Edge, slot: map<K, nat>, key: K, draw: nat -> real)
  {
    && (key in slot <==> TakesDraw(before))
    && after == (if key in slot then Learn(before, draw(slot[key])) else before)
  }

  /**
   * `slot` numbers its keys 0, 1, ..., draws - 1, each number once: every
   * draw taken from the generator went to exactly one edge.
   */
  ghost predicate Numbering<K>(slot: map<K, nat>, draws: nat)
  {
    && |slot| == draws
    && (forall p | p in slot :: slot[p] < draws)
    && (forall p, q | p in slot && q in slot && p != q :: slot[p] != slot[q])
  }

  /** Giving a fresh key the next number keeps the numbering. */
  lemma NumberingExtend<K>(slot: map<K, nat>, draws: nat, key: K)
    requires Numbering(slot, draws) && key !in slot
    ensures Numbering(slot[key := draws], draws + 1)
  {
    assert slot[key := draws].Keys == slot.Keys + {key};
  }

  /** Within the list leaving `k`, an edge further down took a later number. */
  ghost predicate InListOrder(slot: map<(int, nat), nat>, k: int)
  {
    forall p, q | p in slot && q in slot && p.0 == k && q.0 == k && p.1 < q.1 :: slot[p] < slot[q]
  }

  /** Numbering the next position of the list with a number above all earlier ones keeps the order. */
  lemma InListOrderExtend(slot: map<(int, nat), nat>, k: int, j: nat, draws: nat)
    requires InListOrder(slot, k)
    requires forall p | p in slot && p.0 == k :: p.1 < j && slot[p] < draws
    ensures InListOrder(slot[(k, j) := draws], k)
  {
    var slot' := slot[(k, j) := draws];
    forall p, q | p in slot' && q in slot' && p.0 == k && q.0 == k && p.1 < q.1
      ensures slot'[p] < slot'[q]
    {
      if q == (k, j) {
        assert p != (k, j) && p in slot;
      } else {
        assert p != (k, j) && p in slot && q in slot;
      }
    }
  }

  /** Numbers given to other lists' edges do not affect this list's order. */
  lemma InListOrderFrame(slot0: map<(int, nat), nat>, slot: map<(int, nat), nat>, k: int)
    requires InListOrder(slot0, k)
    requires forall p | p in slot0 :: p in slot && slot[p] == slot0[p]
    requires forall p | p in slot && p !in slot0 :: p.0 != k
    ensures InListOrder(slot, k)
  {
    forall p, q | p in slot && q in slot && p.0 == k && q.0 == k && p.1 < q.1
      ensures slot[p] < slot[q]
    {
      assert p in slot0 && q in slot0;
    }
  }

  /** Edge `r` of another list took a number between those of `p` and `q`, two edges of one list. */
  ghost predicate Interleaves(slot: map<(int, nat), nat>, p: (int, nat), q: (int, nat), r: (int, nat))
  {
    p in slot && q in slot && r in slot && p.0 == q.0 && r.0 != p.0 && slot[p] < slot[r] < slot[q]
  }

  /**
   * Each list's numbers form one unbroken block: no edge of another list
   * took a number between two numbers of the same list.
   */
  ghost predicate ListsInBlocks(slot: map<(int, nat), nat>)
  {
    forall p, q, r {:trigger Interleaves(slot, p, q, r)} :: !Interleaves(slot, p, q, r)
  }

  /** Numbering the list `k` with numbers above all earlier ones keeps every list in one block. */
  lemma ListsInBlocksExtend(slot0: map<(int, nat), nat>, slot: map<(int, nat), nat>, k: int, draws0: nat)
    requires ListsInBlocks(slot0)
    requires forall p | p in slot0 :: p.0 != k && slot0[p] < draws0
    requires forall p | p in slot0 :: p in slot && slot[p] == slot0[p]
    requires forall p | p in slot && p !in slot0 :: p.0 == k && draws0 <= slot[p]
    ensures ListsInBlocks(slot)
  {
    forall p, q, r
      ensures !Interleaves(slot, p, q, r)
    {
      if Interleaves(slot, p, q, r) {
        if q in slot0 {
          assert r in slot0 && p in slot0;
          assert Interleaves(slot0, p, q, r);
        } else {
          assert false;
        }
      }
    }
  }

  /**
   * A list of two motorway edges visited beside a list of one motorway edge,
   * with draws 0.5, 0.01, 0.5: whichever list comes first, the low draw goes
   * to the two-edge list, so the single edge keeps its multiplier.
   */
  lemma ListsTakeSeparateBlocks(
    edges1: seq<Edge>, learned1: seq<Edge>, edges2: seq<Edge>, learned2: seq<Edge>,
    slot: map<(int, nat), nat>, draw: nat -> real)
    requires |edges1| == 2 && edges1[0].roadType == "motorway" && edges1[1].roadType == "motorway"
    requires |edges2| == 1 && edges2[0].roadType == "motorway"
    requires LearnedList(edges1, learned1, slot, 1, draw) && LearnedList(edges2, learned2, slot, 2, draw)
    requires forall p | p in slot :: p.0 == 1 || p.0 == 2
    requires Numbering(slot, 3) && InListOrder(slot, 1) && ListsInBlocks(slot)
    requires draw(0) == 0.5 && draw(1) == 0.01 && draw(2) == 0.5
    ensures learned2[0] == edges2[0]
  {
    assert LearnedAt(edges1[0], learned1[0], slot, (1, 0), draw);
    assert LearnedAt(edges1[1], learned1[1], slot, (1, 1), draw);
    assert LearnedAt(edges2[0], learned2[0], slot, (2, 0), draw);
    assert slot[(1, 0)] < slot[(1, 1)];
    assert !Interleaves(slot, (1, 0), (1, 1), (2, 0));
  }

  /** The list leaving `k` after the pass, position by position. */
  ghost predicate LearnedList(before: seq<Edge>, after: seq<Edge>, slot: map<(int, nat), nat>, k: int, draw: nat -> real)
  {
    && |after| == |before|
    && forall j | 0 <= j < |before| :: LearnedAt(before[j], after[j], slot, (k, j), draw)
  }

  /** Numbers given to other lists' edges do not affect this list. */
  lemma LearnedListFrame(before: seq<Edge>, after: seq<Edge>, slot0: map<(int, nat), nat>,
                         slot: map<(int, nat), nat>, k: int, draw: nat -> real)
    requires LearnedList(before, after, slot0, k, draw)
    requires forall p | p in slot0 :: p in slot && slot[p] == slot0[p]
    requires forall p | p in slot && p !in slot0 :: p.0 != k
    ensures LearnedList(before, after, slot, k, draw)
  {
    forall j | 0 <= j < |before|
      ensures LearnedAt(before[j], after[j], slot, (k, j), draw)
    {
      assert LearnedAt(before[j], after[j], slot0, (k, j), draw);
    }
  }

  /**
   * Midway through the list leaving `k`: the first `j` edges are learned and
   * the rest untouched; `slot` extends `slot0` with numbers for this list's
   * first `j` positions only.
   */
  ghost predicate LearnedPrefix(edges: seq<Edge>, learned: seq<Edge>, slot0: map<(int, nat), nat>,
                                slot: map<(int, nat), nat>, k: int, j: nat, draws: nat, draw: nat -> real)
  {
    && j <= |edges| && |learned| == |edges| && learned[j..] == edges[j..]
    && (forall i | 0 <= i < j :: LearnedAt(edges[i], learned[i], slot, (k, i), draw))
    && (forall p | p in slot0 :: p in slot && slot[p] == slot0[p])
    && (forall p | p in slot && p !in slot0 :: p.0 == k && p.1 < j)
    && Numbering(slot, draws)
  }

  /** Learning edge j (taking the next number if its type draws) extends the prefix by one. */
  lemma LearnedPrefixStep(edges: seq<Edge>, learned: seq<Edge>, slot0: map<(int, nat), nat>,
                          slot: map<(int, nat), nat>, k: int, j: nat, draws: nat, draw: nat -> real,
                          edge: Edge, next: nat)
    requires LearnedPrefix(edges, learned, slot0, slot, k, j, draws, draw) && j < |edges|
    requires forall p | p in slot0 :: p.0 != k
    requires TakesDraw(edges[j]) ==> next == draws + 1 && edge == Learn(edges[j], draw(draws))
    requires !TakesDraw(edges[j]) ==> next == draws && edge == edges[j]
    ensures LearnedPrefix(edges, learned[j := edge], slot0, if next != draws then slot[(k, j) := draws] else slot,
                          k, j + 1, next, draw)
  {
    var slot' := if next != draws then slot[(k, j) := draws] else slot;
    var learned' := learned[j := edge];
    assert (k, j) !in slot;
    if next != draws {
      NumberingExtend(slot, draws, (k, j));
    }
    assert learned[j] == learned[j..][0] == edges[j];
    assert learned'[j + 1..] == learned[j + 1..] == edges[j + 1..] by {
      assert learned[j + 1..] == learned[j..][1..];
      assert edges[j + 1..] == edges[j..][1..];
    }
    forall i | 0 <= i < j + 1
      ensures LearnedAt(edges[i], learned'[i], slot', (k, i), draw)
    {
      if i < j {
        assert LearnedAt(edges[i], learned[i], slot, (k, i), draw);
      }
    }
  }

  /** The whole list learned. */
  lemma LearnedPrefixDone(edges: seq<Edge>, learned: seq<Edge>, slot0: map<(int, nat), nat>,
                          slot: map<(int, nat), nat>, k: int, draws: nat, draw: nat -> real)
    requires LearnedPrefix(edges, learned, slot0, slot, k, |edges|, draws, draw)
    ensures LearnedList(edges, learned, slot, k, draw)
  {
  }

  /**
   * Two motorway edges in one list with draws 0.01 and then 0.5: the first
   * edge takes the low number and is congested, the second keeps its multiplier.
   */
  lemma ListTakesDrawsInOrder(edges: seq<Edge>, learned: seq<Edge>, slot: map<(int, nat), nat>, k: int, draw: nat -> real)
    requires |edges| == 2 && edges[0].roadType == "motorway" && edges[1].roadType == "motorway"
    requires LearnedList(edges, learned, slot, k, draw) && Numbering(slot, 2) && InListOrder(slot, k)
    requires draw(0) == 0.01 && draw(1) == 0.5
    ensures learned[0] == edges[0].(crowdMultiplier := 0.6) && learned[1] == edges[1]
  {
    assert LearnedAt(edges[0], learned[0], slot, (k, 0), draw);
    assert LearnedAt(edges[1], learned[1], slot, (k, 1), draw);
    assert slot[(k, 0)] < slot[(k, 1)] < 2;
  }

  /** Two networks with the same nodes and the same edges up to their (positive) multipliers. */
  ghost predicate SameRoads(a: Network, b: Network)
  {
    && a.nodes == b.nodes
    && a.adjacency.Keys == b.adjacency.Keys
    && (forall k | k in a.adjacency :: |a.adjacency[k]| == |b.adjacency[k]|)
    && (forall k, j | k in a.adjacency && 0 <= j < |a.adjacency[k]| ::
          b.adjacency[k][j] == a.adjacency[k][j].(crowdMultiplier := b.adjacency[k][j].crowdMultiplier)
          && b.adjacency[k][j].crowdMultiplier > 0.0)
  }

  /** A learned edge keeps its speed-table entry and a positive multiplier. */
  lemma LearnKeepsEdgeOk(e: Edge, d: real)
    requires EdgeOk(e)
    ensures EdgeOk(Learn(e, d))
  {
  }

  /** A pass that learns every edge from its own draw changes nothing but multipliers. */
  lemma LearnedIsSameRoads(a: Network, b: Network, slot: map<(int, nat), nat>, draw: nat -> real)
    requires WellFormed(a)
    requires a.nodes == b.nodes && a.adjacency.Keys == b.adjacency.Keys
    requires forall k | k in a.adjacency :: LearnedList(a.adjacency[k], b.adjacency[k], slot, k, draw)
    ensures SameRoads(a, b)
  {
    forall k | k in a.adjacency
      ensures |a.adjacency[k]| == |b.adjacency[k]|
    {
      assert LearnedList(a.adjacency[k], b.adjacency[k], slot, k, draw);
    }
    forall k, j | k in a.adjacency && 0 <= j < |a.adjacency[k]|
      ensures b.adjacency[k][j] == a.adjacency[k][j].(crowdMultiplier := b.adjacency[k][j].crowdMultiplier)
      ensures b.adjacency[k][j].crowdMultiplier > 0.0
    {
      assert LearnedList(a.adjacency[k], b.adjacency[k], slot, k, draw);
      assert LearnedAt(a.adjacency[k][j], b.adjacency[k][j], slot, (k, j), draw);
      assert EdgeOk(a.adjacency[k][j]);
    }
  }

  /** The pass keeps the network well-formed and the edge count. */
  lemma {:induction false} SameRoadsKeepsShape(a: Network, b: Network)
    requires SameRoads(a, b) && WellFormed(a)
    ensures WellFormed(b)
    ensures TotalEdges(b.adjacency) == TotalEdges(a.adjacency)
  {
    assert forall k | k in a.adjacency :: |a.adjacency[k]| == |b.adjacency[k]|;
    SumLengthsAgree(a.adjacency, b.adjacency, a.adjacency.Keys);
    forall k, j | k in b.adjacency && 0 <= j < |b.adjacency[k]|
      ensures EdgeOk(b.adjacency[k][j])
    {
      assert EdgeOk(a.adjacency[k][j]);
    }
  }

  /** Walks are the same in both networks. */
  lemma SameRoadsSameWalks(a: Network, b: Network, w: seq<int>, ws: seq<nat>)
    requires SameRoads(a, b)
    ensures IsWalk(a, w, ws) <==> IsWalk(b, w, ws)
  {
    if IsWalk(a, w, ws) {
      forall i | 0 <= i < |ws|
        ensures w[i] in b.adjacency && ws[i] < |b.adjacency[w[i]]| && b.adjacency[w[i]][ws[i]].to == w[i + 1]
      {
        var k, j := w[i], ws[i];
        assert |a.adjacency[k]| == |b.adjacency[k]|;
        assert b.adjacency[k][j] == a.adjacency[k][j].(crowdMultiplier := b.adjacency[k][j].crowdMultiplier);
      }
    }
    if IsWalk(b, w, ws) {
      forall i | 0 <= i < |ws|
        ensures w[i] in a.adjacency && ws[i] < |a.adjacency[w[i]]| && a.adjacency[w[i]][ws[i]].to == w[i + 1]
      {
        var k, j := w[i], ws[i];
        assert |a.adjacency[k]| == |b.adjacency[k]|;
        assert b.adjacency[k][j] == a.adjacency[k][j].(crowdMultiplier := b.adjacency[k][j].crowdMultiplier);
      }
    }
  }

  /**
   * Learning never changes a Distance or SpeedLimit weight: every walk
   * weighs the same before and after, at every hour.
   */
  lemma {:induction false} SameRoadsSameStaticWeights(a: Network, b: Network, mode: RouteMode, hour: int,
                                                       w: seq<int>, ws: seq<nat>)
    requires SameRoads(a, b) && WellFormed(a) && IsWalk(a, w, ws)
    requires mode == Distance || mode == SpeedLimit
    ensures IsWalk(b, w, ws)
    ensures WalkWeight(Metric(a, mode, hour), w, ws) == WalkWeight(Metric(b, mode, hour), w, ws)
    decreases |ws|
  {
    SameRoadsSameWalks(a, b, w, ws);
    if |ws| > 0 {
      var n := |ws| - 1;
      WalkPrefix(Metric(a, mode, hour), w, ws);
      WalkPrefix(Metric(b, mode, hour), w, ws);
      SameRoadsSameStaticWeights(a, b, mode, hour, w[..|w| - 1], ws[..n]);
      var e, e' := a.adjacency[w[n]][ws[n]], b.adjacency[w[n]][ws[n]];
      assert EdgeOk(e);
      StaticModesIgnoreHour(e, hour, hour, e'.crowdMultiplier);
    }
  }
}
