/** Connected components, eccentricities, diameter and radius of the advertised graph. */
module Components {
  import opened Graphs
  import opened Distances
  import opened Sets

  // ------------------------------------------------------------- components

  /** Labels 1..k given so far: each belongs to a root that reaches all it labels. */
  ghost predicate Rooted(adj: Graph, ids: seq<int>, roots: seq<nat>) {
    && |ids| == |adj|
    && (forall c :: 0 <= c < |roots| ==> roots[c] < |adj| && ids[roots[c]] == c + 1)
    && (forall u :: 0 <= u < |adj| ==> ids[u] == -1 || 1 <= ids[u] <= |roots|)
    && (forall u :: 0 <= u < |adj| && ids[u] != -1 ==> Reaches(adj, roots[ids[u] - 1], u))
  }

  /** Edges out of labelled vertices that are not pending stay within the label;
      pending vertices have the newest. */
  ghost predicate Closed(adj: Graph, ids: seq<int>, roots: seq<nat>, pending: set<nat>) {
    && |ids| == |adj|
    && (forall u: nat, w :: u < |adj| && ids[u] != -1 && u !in pending && w in adj[u] && w < |adj| ==> ids[w] == ids[u])
    && (forall u :: u in pending ==> u < |adj| && ids[u] == |roots|)
  }

  ghost predicate Labelled(adj: Graph, ids: seq<int>, roots: seq<nat>, pending: set<nat>) {
    ValidGraph(adj) && Rooted(adj, ids, roots) && Closed(adj, ids, roots, pending)
  }

  ghost function Members(queue: seq<nat>): set<nat> {
    set u | u in queue
  }

  /** Once the queue is empty, walks stay within a label. */
  lemma {:induction false} WalkKeepsLabel(adj: Graph, ids: seq<int>, roots: seq<nat>, s: nat, t: nat, p: seq<nat>)
    requires Labelled(adj, ids, roots, {}) && IsWalk(adj, s, t, p) && ids[s] != -1
    ensures ids[t] == ids[s]
    decreases |p|
  {
    if |p| > 1 {
      WalkBack(adj, s, t, p);
      WalkKeepsLabel(adj, ids, roots, s, p[|p| - 2], p[..|p| - 1]);
    }
  }

  lemma SameLabelReaches(adj: Graph, ids: seq<int>, roots: seq<nat>, u: nat, v: nat)
    requires Labelled(adj, ids, roots, {}) && u < |adj| && v < |adj| && ids[u] != -1 && ids[v] != -1
    ensures ids[u] == ids[v] <==> Reaches(adj, u, v)
  {
    if ids[u] == ids[v] {
      HopDistMetric(adj, roots[ids[u] - 1], u, v);
    }
    if Reaches(adj, u, v) {
      var p :| IsWalk(adj, u, v, p);
      WalkKeepsLabel(adj, ids, roots, u, v, p);
    }
  }

  ghost function Unlabelled(ids: seq<int>): set<nat> {
    set u: nat | u < |ids| && ids[u] == -1
  }

  lemma ReachesItself(adj: Graph, s: nat)
    requires s < |adj|
    ensures Reaches(adj, s, s)
  {
    assert IsWalk(adj, s, s, [s]);
  }

  lemma LabelRoot(adj: Graph, ids: seq<int>, roots: seq<nat>, s: nat)
    requires Labelled(adj, ids, roots, {}) && s < |adj| && ids[s] == -1
    ensures Labelled(adj, ids[s := |roots| + 1], roots + [s], {s})
  {
    ReachesItself(adj, s);
    hide Reaches;
    LabelRootRooted(adj, ids, roots, s);
    LabelRootClosed(adj, ids, roots, s);
    hide Closed, Rooted;
  }

  lemma LabelRootRooted(adj: Graph, ids: seq<int>, roots: seq<nat>, s: nat)
    requires Rooted(adj, ids, roots) && s < |adj| && ids[s] == -1 && Reaches(adj, s, s)
    ensures Rooted(adj, ids[s := |roots| + 1], roots + [s])
  {
    hide Reaches;
    var n, more := ids[s := |roots| + 1], roots + [s];
    forall u | 0 <= u < |adj| && n[u] != -1 ensures Reaches(adj, more[n[u] - 1], u) {
      if u != s { assert more[ids[u] - 1] == roots[ids[u] - 1]; }
    }
  }

  lemma LabelRootClosed(adj: Graph, ids: seq<int>, roots: seq<nat>, s: nat)
    requires ValidGraph(adj) && Closed(adj, ids, roots, {}) && s < |adj| && ids[s] == -1
    ensures Closed(adj, ids[s := |roots| + 1], roots + [s], {s})
  {
    var n := ids[s := |roots| + 1];
    forall u: nat, w | u < |adj| && n[u] != -1 && u !in {s} && w in adj[u] && w < |adj| ensures n[w] == n[u] {
      assert ids[w] == ids[u];
    }
  }

  lemma ReachesOn(adj: Graph, s: nat, t: nat, w: nat)
    requires Reaches(adj, s, t) && w < |adj| && w in adj[t]
    ensures Reaches(adj, s, w)
  {
    var p :| IsWalk(adj, s, t, p);
    WalkOn(adj, s, t, w, p);
  }

  lemma LabelNeighbour(adj: Graph, ids: seq<int>, roots: seq<nat>, pending: set<nat>, u: nat, w: nat)
    requires Labelled(adj, ids, roots, pending) && u in pending && w in adj[u] && w < |adj| && ids[w] == -1
    ensures Labelled(adj, ids[w := |roots|], roots, pending + {w})
    ensures Unlabelled(ids[w := |roots|]) < Unlabelled(ids)
  {
    assert w in Unlabelled(ids) && Unlabelled(ids[w := |roots|]) == Unlabelled(ids) - {w};
    hide Reaches;
    assert ids[u] == |roots|;
    ReachesOn(adj, roots[|roots| - 1], u, w);
    LabelNeighbourRooted(adj, ids, roots, w);
    LabelNeighbourClosed(adj, ids, roots, pending, w);
    hide Closed, Rooted;
  }

  lemma LabelNeighbourRooted(adj: Graph, ids: seq<int>, roots: seq<nat>, w: nat)
    requires Rooted(adj, ids, roots) && w < |adj| && ids[w] == -1 && roots != [] && Reaches(adj, roots[|roots| - 1], w)
    ensures Rooted(adj, ids[w := |roots|], roots)
  {
    hide Reaches;
  }

  lemma LabelNeighbourClosed(adj: Graph, ids: seq<int>, roots: seq<nat>, pending: set<nat>, w: nat)
    requires ValidGraph(adj) && Closed(adj, ids, roots, pending) && w < |adj| && ids[w] == -1
    ensures Closed(adj, ids[w := |roots|], roots, pending + {w})
  {
    var n := ids[w := |roots|];
    forall x: nat, y | x < |adj| && n[x] != -1 && x !in pending + {w} && y in adj[x] && y < |adj| ensures n[y] == n[x] {
      assert ids[y] == ids[x];
    }
  }

  /** A neighbour of a pending vertex, if labelled at all, has the newest label. */
  lemma NeighbourLabelled(adj: Graph, ids: seq<int>, roots: seq<nat>, pending: set<nat>, u: nat, v: nat)
    requires Labelled(adj, ids, roots, pending) && u in pending && v in adj[u] && v < |adj| && ids[v] != -1
    ensures ids[v] == |roots|
  {
    assert u in adj[v];
  }

  lemma DropPending(adj: Graph, ids: seq<int>, roots: seq<nat>, pending: set<nat>, u: nat)
    requires Labelled(adj, ids, roots, pending + {u}) && u < |adj| == |ids|
    requires forall j :: 0 <= j < |adj[u]| ==> adj[u][j] < |adj| && ids[adj[u][j]] == |roots|
    ensures Labelled(adj, ids, roots, pending)
  {
    hide Reaches;
    assert u in pending + {u};
  }

  lemma PendingShape(adj: Graph, ids: seq<int>, roots: seq<nat>, pending: set<nat>, u: nat)
    requires Labelled(adj, ids, roots, pending) && u in pending
    ensures |ids| == |adj| && u < |adj| && forall j :: 0 <= j < |adj[u]| ==> adj[u][j] < |adj|
  {
    hide Reaches;
  }

  /** Labels everything reachable from s with the newest label. */
  method Flood(adj: Graph, ids0: seq<int>, ghost roots: seq<nat>, id: nat, s: nat) returns (ids: seq<int>)
    requires Labelled(adj, ids0, roots, {s}) && id == |roots|
    ensures Labelled(adj, ids, roots, {})
    ensures Keeps(ids0, ids)
  {
    hide Labelled;
    ids := ids0;
    var q := [s];
    assert Members(q) == {s};
    while q != []
      invariant Labelled(adj, ids, roots, Members(q))
      invariant Keeps(ids0, ids)
      decreases |Unlabelled(ids)|, |q|
    {
      var u := q[0];
      ghost var before := ids;
      assert Members(q) == Members(q[1..]) + {u};
      q := q[1..];
      ids, q := FloodFrom(adj, ids, roots, id, u, q);
      if Unlabelled(ids) < Unlabelled(before) { ProperSubsetSize(Unlabelled(ids), Unlabelled(before)); }
    }
    assert Members(q) == {};
  }

  /** Labels once given are kept. */
  ghost predicate Keeps(ids0: seq<int>, ids: seq<int>) {
    |ids| == |ids0| && forall x :: 0 <= x < |ids0| && ids0[x] != -1 ==> ids[x] == ids0[x]
  }

  /** One vertex of the flood. */
  method FloodFrom(adj: Graph, ids0: seq<int>, ghost roots: seq<nat>, id: nat, u: nat, q0: seq<nat>) returns (ids: seq<int>, q: seq<nat>)
    requires Labelled(adj, ids0, roots, Members(q0) + {u}) && id == |roots|
    ensures Labelled(adj, ids, roots, Members(q))
    ensures Keeps(ids0, ids)
    ensures (ids == ids0 && q == q0) || Unlabelled(ids) < Unlabelled(ids0)
  {
    hide Labelled;
    ids, q := ids0, q0;
    PendingShape(adj, ids, roots, Members(q) + {u}, u);
    for i := 0 to |adj[u]|
      invariant Labelled(adj, ids, roots, Members(q) + {u})
      invariant |ids| == |adj| && Keeps(ids0, ids)
      invariant forall j :: 0 <= j < i ==> ids[adj[u][j]] == id
      invariant (ids == ids0 && q == q0) || Unlabelled(ids) < Unlabelled(ids0)
    {
      var v := adj[u][i];
      if ids[v] == -1 {
        LabelNeighbour(adj, ids, roots, Members(q) + {u}, u, v);
        assert Members(q + [v]) + {u} == Members(q) + {u} + {v};
        ids := ids[v := id];
        q := q + [v];
      } else {
        NeighbourLabelled(adj, ids, roots, Members(q) + {u}, u, v);
      }
    }
    DropPending(adj, ids, roots, Members(q), u);
  }

  /** Labels agree exactly on mutually reachable vertices, and the labels are 1..count. */
  method ConnectedComponents(adj: Graph) returns (ids: seq<int>, count: nat)
    requires ValidGraph(adj)
    ensures |ids| == |adj|
    ensures forall u, v :: 0 <= u < |adj| && 0 <= v < |adj| ==> (ids[u] == ids[v] <==> Reaches(adj, u, v))
    ensures forall u :: 0 <= u < |adj| ==> 1 <= ids[u] <= count
    ensures forall c {:trigger c in ids} :: 1 <= c <= count ==> c in ids
  {
    hide Reaches, Labelled, Rooted, Closed, ValidGraph;
    ids, count := seq(|adj|, _ => -1), 0;
    ghost var roots: seq<nat> := [];
    NothingLabelled(adj, ids);
    for s := 0 to |adj|
      invariant Labelled(adj, ids, roots, {}) && count == |roots| && |ids| == |adj|
      invariant forall u :: 0 <= u < s ==> ids[u] != -1
    {
      if ids[s] != -1 { continue; }
      LabelRoot(adj, ids, roots, s);
      roots := roots + [s];
      count := count + 1;
      ids := Flood(adj, ids[s := count], roots, count, s);
    }
    forall u, v | 0 <= u < |adj| && 0 <= v < |adj|
      ensures ids[u] == ids[v] <==> Reaches(adj, u, v)
    {
      SameLabelReaches(adj, ids, roots, u, v);
    }
    LabelsUsed(adj, ids, roots);
  }

  lemma NothingLabelled(adj: Graph, ids: seq<int>)
    requires ValidGraph(adj) && |ids| == |adj| && forall u :: 0 <= u < |ids| ==> ids[u] == -1
    ensures Labelled(adj, ids, [], {})
  {
  }

  lemma LabelsUsed(adj: Graph, ids: seq<int>, roots: seq<nat>)
    requires Labelled(adj, ids, roots, {}) && forall u :: 0 <= u < |ids| ==> ids[u] != -1
    ensures |ids| == |adj| && forall u :: 0 <= u < |adj| ==> 1 <= ids[u] <= |roots|
    ensures forall c {:trigger c in ids} :: 1 <= c <= |roots| ==> c in ids
  {
    hide Reaches;
    assert forall c {:trigger c in ids} :: 1 <= c <= |roots| ==> ids[roots[c - 1]] == c;
  }

  // ----------------------------------------------------------- eccentricity

  const INT_MAX: int := 0x7fff_ffff

  /** A shortest walk visits one vertex at each distance, so distances stay below the vertex count. */
  lemma {:induction false} ShortestChain(adj: Graph, s: nat, dist: seq<int>, t: nat) returns (chain: seq<nat>)
    requires TrueDist(adj, s, dist) && t < |adj| && dist[t] >= 0
    ensures |chain| == dist[t] + 1
    ensures forall i :: 0 <= i < |chain| ==> chain[i] < |adj| && dist[chain[i]] == i
    decreases dist[t]
  {
    if dist[t] == 0 {
      chain := [t];
    } else {
      var p :| IsWalk(adj, s, t, p) && |p| == dist[t] + 1;
      var u := p[|p| - 2];
      WalkBack(adj, s, t, p);
      assert dist[u] < |p[..|p| - 1]|;
      EdgeStep(adj, s, dist, u, t);
      chain := ShortestChain(adj, s, dist, u);
      chain := chain + [t];
    }
  }

  lemma DistBelowSize(adj: Graph, s: nat, dist: seq<int>, t: nat)
    requires TrueDist(adj, s, dist) && t < |adj|
    ensures dist[t] < |adj|
  {
    if dist[t] >= 0 {
      var chain := ShortestChain(adj, s, dist, t);
      DistinctBelow(chain, |adj|);
    }
  }

  /** best is the greatest distance in dist. */
  ghost predicate IsGreatest(dist: seq<int>, best: int) {
    (forall t :: 0 <= t < |dist| ==> dist[t] <= best) && best in dist
  }

  /** The pass between vertices: what is discovered and the greatest distance so far. */
  ghost predicate Passing(adj: Graph, s: nat, dist: seq<int>, order: seq<nat>, h: nat, best: int) {
    Discovered(adj, s, dist, order, h) && IsGreatest(dist, best) && best >= 0
  }

  method Eccentricity(adj: Graph, s: nat) returns (best: int)
    requires ValidGraph(adj) && s < |adj|
    ensures IsGreatest(DistFrom(adj, s), best) && best >= 0
  {
    hide DistFrom;
    var dist := seq(|adj|, u => if u == s then 0 else -1);
    var bq := [s];
    best := 0;
    ghost var left: seq<nat> := [];
    Started(adj, s, dist);
    assert left + bq == [s] && dist[s] == 0;
    hide Discovered, IsGreatest;
    assert Passing(adj, s, dist, left + bq, |left|, best) by { StartPassing(adj, s, dist); }
    while bq != []
      invariant Passing(adj, s, dist, left + bq, |left|, best)
      decreases |adj| - |left|
    {
      var u := bq[0];
      assert left + bq == (left + [u]) + bq[1..];
      OrderBound(adj, s, dist, left + bq, |left|, best);
      dist, bq, best := Leave(adj, s, u, dist, left, bq[1..], best);
      left := left + [u];
    }
    assert left + bq == left;
    PassedAll(adj, s, dist, left, best);
  }

  lemma StartPassing(adj: Graph, s: nat, dist: seq<int>)
    requires Discovered(adj, s, dist, [s], 0) && s < |dist| && forall u :: 0 <= u < |dist| ==> dist[u] == if u == s then 0 else -1
    ensures Passing(adj, s, dist, [s], 0, 0)
  {
    hide Discovered;
    assert dist[s] == 0;
  }

  lemma OrderBound(adj: Graph, s: nat, dist: seq<int>, order: seq<nat>, h: nat, best: int)
    requires Passing(adj, s, dist, order, h, best)
    ensures |order| <= |adj| && |dist| == |adj| && forall i :: 0 <= i < |order| ==> order[i] < |adj|
  {
    hide IsGreatest;
    DistinctBelow(order, |adj|);
  }

  lemma PassedAll(adj: Graph, s: nat, dist: seq<int>, order: seq<nat>, best: int)
    requires ValidGraph(adj) && s < |adj| && Passing(adj, s, dist, order, |order|, best)
    ensures IsGreatest(DistFrom(adj, s), best) && best >= 0
  {
    hide IsGreatest;
    Finished(adj, s, dist, order);
    DistUnique(adj, s, dist, DistFrom(adj, s));
  }

  lemma LeavingShape(adj: Graph, s: nat, dist: seq<int>, order: seq<nat>, h: nat, i: nat, u: nat)
    requires Leaving(adj, s, dist, order, h, i) && order[h] == u && i < |adj[u]|
    ensures |dist| == |adj| && adj[u][i] < |adj| && dist[u] >= 0
  {
  }

  /** While leaving u, at position h of order: its first i edges have been followed. */
  ghost predicate LeavingFor(adj: Graph, s: nat, u: nat, dist: seq<int>, order: seq<nat>, h: nat, i: nat, best: int) {
    Leaving(adj, s, dist, order, h, i) && h < |order| && order[h] == u && IsGreatest(dist, best) && best >= 0
  }

  lemma FollowNew(adj: Graph, s: nat, u: nat, dist: seq<int>, order: seq<nat>, h: nat, i: nat, best: int)
    requires ValidGraph(adj) && u < |adj| && LeavingFor(adj, s, u, dist, order, h, i, best) && i < |adj[u]|
    ensures |dist| == |adj| && adj[u][i] < |adj| && dist[u] >= 0
    ensures var w, d := adj[u][i], dist[u] + 1;
      if dist[w] < 0 then LeavingFor(adj, s, u, dist[w := d], order + [w], h, i + 1, if d > best then d else best)
      else LeavingFor(adj, s, u, dist, order, h, i + 1, best)
  {
    LeavingShape(adj, s, dist, order, h, i, u);
    hide Leaving, ValidGraph;
    var w := adj[u][i];
    if dist[w] < 0 {
      Discover(adj, s, dist, order, h, i, dist[w := dist[u] + 1]);
      GreatestOn(dist, best, w, dist[u] + 1);
    } else {
      Skip(adj, s, dist, order, h, i);
    }
    hide IsGreatest;
  }

  /** Follows every edge out of u, which has just left the queue. */
  method Leave(adj: Graph, s: nat, u: nat, dist0: seq<int>, ghost left: seq<nat>, bq0: seq<nat>, best0: int)
    returns (dist: seq<int>, bq: seq<nat>, best: int)
    requires ValidGraph(adj) && u < |adj| && Passing(adj, s, dist0, left + [u] + bq0, |left|, best0)
    ensures Passing(adj, s, dist, left + [u] + bq, |left| + 1, best)
  {
    dist, bq, best := dist0, bq0, best0;
    ghost var h := |left|;
    assert LeavingFor(adj, s, u, dist, left + [u] + bq, h, 0, best);
    hide LeavingFor, Discovered, IsGreatest, ValidGraph;
    for i := 0 to |adj[u]|
      invariant LeavingFor(adj, s, u, dist, left + [u] + bq, h, i, best)
    {
      FollowNew(adj, s, u, dist, left + [u] + bq, h, i, best);
      var w := adj[u][i];
      if dist[w] < 0 {
        assert left + [u] + bq + [w] == left + [u] + (bq + [w]);
        dist := dist[w := dist[u] + 1];
        bq := bq + [w];
        if dist[w] > best { best := dist[w]; }
      }
    }
    LeftFor(adj, s, u, dist, left + [u] + bq, h, best);
  }

  lemma LeftFor(adj: Graph, s: nat, u: nat, dist: seq<int>, order: seq<nat>, h: nat, best: int)
    requires u < |adj| && LeavingFor(adj, s, u, dist, order, h, |adj[u]|, best)
    ensures Passing(adj, s, dist, order, h + 1, best)
  {
    hide IsGreatest;
    Left(adj, s, dist, order, h);
  }

  lemma GreatestOn(dist: seq<int>, best: int, w: nat, d: int)
    requires IsGreatest(dist, best) && w < |dist| && dist[w] < 0 <= best
    ensures IsGreatest(dist[w := d], if d > best then d else best)
  {
    var k :| 0 <= k < |dist| && dist[k] == best;
    var dist' := dist[w := d];
    assert dist'[w] == d && dist'[k] == best;
  }

  /** Eccentricities of all vertices, the greatest of them, and the least positive one (0 when none is). */
  method Extremes(adj: Graph) returns (eccentricity: seq<int>, diameter: int, radius: int)
    requires ValidGraph(adj) && |adj| <= INT_MAX
    ensures |eccentricity| == |adj|
    ensures forall s :: 0 <= s < |adj| ==> IsGreatest(DistFrom(adj, s), eccentricity[s])
    ensures forall s :: 0 <= s < |adj| ==> 0 <= eccentricity[s] <= diameter
    ensures diameter == 0 || diameter in eccentricity
    ensures forall s :: 0 <= s < |adj| && eccentricity[s] > 0 ==> 0 < radius <= eccentricity[s]
    ensures if exists s :: 0 <= s < |adj| && eccentricity[s] > 0 then radius in eccentricity else radius == 0
  {
    hide DistFrom;
    eccentricity, diameter := [], 0;
    for s := 0 to |adj|
      invariant |eccentricity| == s
      invariant forall r :: 0 <= r < s ==> IsGreatest(DistFrom(adj, r), eccentricity[r])
      invariant forall r :: 0 <= r < s ==> 0 <= eccentricity[r] <= diameter
      invariant diameter == 0 || diameter in eccentricity
      invariant forall r :: 0 <= r < s ==> eccentricity[r] < INT_MAX
    {
      var best := Eccentricity(adj, s);
      ghost var t :| 0 <= t < |adj| && DistFrom(adj, s)[t] == best;
      DistBelowSize(adj, s, DistFrom(adj, s), t);
      eccentricity := eccentricity + [best];
      if best > diameter { diameter := best; }
    }
    var least: int := INT_MAX;
    for i := 0 to |adj|
      invariant forall r :: 0 <= r < i && eccentricity[r] > 0 ==> least <= eccentricity[r]
      invariant least == INT_MAX || (least > 0 && least in eccentricity)
    {
      if eccentricity[i] > 0 && eccentricity[i] < least { least := eccentricity[i]; }
    }
    radius := if least == INT_MAX then 0 else least;
  }

  /** In a connected graph the diameter is between the radius and twice the radius. */
  lemma RadiusAndDiameter(adj: Graph, eccentricity: seq<int>, diameter: int, radius: int)
    requires ValidGraph(adj) && |adj| >= 2 && |eccentricity| == |adj|
    requires forall u, v :: 0 <= u < |adj| && 0 <= v < |adj| ==> Reaches(adj, u, v)
    requires forall s :: 0 <= s < |adj| ==> IsGreatest(DistFrom(adj, s), eccentricity[s])
    requires diameter in eccentricity
    requires forall s :: 0 <= s < |adj| && eccentricity[s] > 0 ==> 0 < radius <= eccentricity[s]
    requires if exists s :: 0 <= s < |adj| && eccentricity[s] > 0 then radius in eccentricity else radius == 0
    ensures 0 < radius <= diameter <= 2 * radius
  {
    PositiveEccentricity(adj, eccentricity);
    var a :| 0 <= a < |adj| && eccentricity[a] == diameter;
    var c :| 0 <= c < |adj| && eccentricity[c] == radius;
    var b :| 0 <= b < |adj| && DistFrom(adj, a)[b] == diameter;
    HopDistMetric(adj, c, a, b);
    assert DistFrom(adj, c)[a] <= radius && DistFrom(adj, c)[b] <= radius;
  }

  lemma PositiveEccentricity(adj: Graph, eccentricity: seq<int>)
    requires |adj| >= 2 && |eccentricity| == |adj|
    requires forall u, v :: 0 <= u < |adj| && 0 <= v < |adj| ==> Reaches(adj, u, v)
    requires forall s :: 0 <= s < |adj| ==> IsGreatest(DistFrom(adj, s), eccentricity[s])
    ensures forall s :: 0 <= s < |adj| ==> eccentricity[s] > 0
  {
    forall s | 0 <= s < |adj|
      ensures eccentricity[s] > 0
    {
      var t := if s == 0 then 1 else 0;
      assert Reaches(adj, s, t);
      assert HopDist(adj, s, t) != 0;
      assert DistFrom(adj, s)[t] <= eccentricity[s];
    }
  }
}
