/** Walks, hop distances, and the breadth-first search that finds them. */
module Distances {
  import opened Graphs

  /** p is a walk from s to t. */
  ghost predicate IsWalk(adj: Graph, s: nat, t: nat, p: seq<nat>) {
    && |p| > 0 && p[0] == s && p[|p| - 1] == t
    && (forall i :: 0 <= i < |p| ==> p[i] < |adj|)
    && (forall i :: 0 <= i < |p| - 1 ==> p[i + 1] in adj[p[i]])
  }

  /** Some walk from s to t has exactly d hops. */
  ghost predicate HasWalk(adj: Graph, s: nat, t: nat, d: int) {
    exists p :: IsWalk(adj, s, t, p) && |p| == d + 1
  }

  /** dist holds the hop distance from s, and -1 where s does not reach. */
  ghost predicate TrueDist(adj: Graph, s: nat, dist: seq<int>) {
    && |dist| == |adj| && s < |adj|
    && (forall t :: 0 <= t < |adj| ==> dist[t] >= -1)
    && (forall t :: 0 <= t < |adj| && dist[t] >= 0 ==> HasWalk(adj, s, t, dist[t]))
    && (forall t, p :: 0 <= t < |adj| && IsWalk(adj, s, t, p) ==> 0 <= dist[t] < |p|)
  }

  lemma WalkOn(adj: Graph, s: nat, t: nat, w: nat, p: seq<nat>)
    requires IsWalk(adj, s, t, p) && w < |adj| && w in adj[t]
    ensures IsWalk(adj, s, w, p + [w])
  {
  }

  lemma WalkBack(adj: Graph, s: nat, t: nat, p: seq<nat>)
    requires IsWalk(adj, s, t, p) && |p| > 1
    ensures IsWalk(adj, s, p[|p| - 2], p[..|p| - 1]) && t in adj[p[|p| - 2]]
  {
    assert p[|p| - 2 + 1] in adj[p[|p| - 2]];
  }

  lemma WalkPrefix(adj: Graph, s: nat, t: nat, p: seq<nat>, i: nat)
    requires IsWalk(adj, s, t, p) && i < |p|
    ensures IsWalk(adj, s, p[i], p[..i + 1])
  {
  }

  /** Distances are determined by the graph. */
  lemma DistUnique(adj: Graph, s: nat, d1: seq<int>, d2: seq<int>)
    requires TrueDist(adj, s, d1) && TrueDist(adj, s, d2)
    ensures d1 == d2
  {
    forall t | 0 <= t < |adj|
      ensures d1[t] == d2[t]
    {
      if d1[t] >= 0 {
        var p :| IsWalk(adj, s, t, p) && |p| == d1[t] + 1;
        assert d2[t] < |p|;
      }
      if d2[t] >= 0 {
        var p :| IsWalk(adj, s, t, p) && |p| == d2[t] + 1;
        assert d1[t] < |p|;
      }
    }
  }

  /** An edge out of a reached vertex leads to one at most a hop further. */
  lemma EdgeStep(adj: Graph, s: nat, dist: seq<int>, u: nat, w: nat)
    requires TrueDist(adj, s, dist) && u < |adj| && w < |adj| && w in adj[u] && dist[u] >= 0
    ensures 0 <= dist[w] <= dist[u] + 1
  {
    var p :| IsWalk(adj, s, u, p) && |p| == dist[u] + 1;
    WalkOn(adj, s, u, w, p);
    assert dist[w] < |p + [w]|;
  }

  // ------------------------------------------------------------ breadth first

  /** The first n edges of u have been followed. */
  ghost predicate Followed(adj: Graph, dist: seq<int>, u: nat, n: nat)
    requires |dist| == |adj| && u < |adj|
  {
    forall j :: 0 <= j < n && j < |adj[u]| && adj[u][j] < |adj| ==> 0 <= dist[adj[u][j]] <= dist[u] + 1
  }

  /** order lists the discovered vertices, nearest first; the first h of them
      have been left and the rest are queued. */
  ghost predicate Discovered(adj: Graph, s: nat, dist: seq<int>, order: seq<nat>, h: nat) {
    && ValidGraph(adj) && s < |adj| == |dist|
    && h <= |order|
    && Distinct(order)
    && (forall i :: 0 <= i < |order| ==> order[i] < |adj|)
    && (forall x :: 0 <= x < |adj| ==> dist[x] >= -1 && (dist[x] >= 0 <==> x in order))
    && s in order && dist[s] == 0
    && (forall i, j :: 0 <= i < j < |order| ==> dist[order[i]] <= dist[order[j]])
    && (forall x :: 0 <= x < |adj| && dist[x] >= 0 ==> HasWalk(adj, s, x, dist[x]))
    && (forall i :: 0 <= i < h ==> Followed(adj, dist, order[i], |adj[order[i]]|))
    && (forall j :: 0 <= j < |order| && h < |order| ==> dist[order[j]] <= dist[order[h]] + 1)
  }

  /** ... and the first n edges of the vertex at the head of the queue have been followed. */
  ghost predicate Leaving(adj: Graph, s: nat, dist: seq<int>, order: seq<nat>, h: nat, n: nat) {
    Discovered(adj, s, dist, order, h) && h < |order| && Followed(adj, dist, order[h], n)
  }

  lemma Started(adj: Graph, s: nat, dist: seq<int>)
    requires ValidGraph(adj) && s < |adj| == |dist| && dist[s] == 0
    requires forall x :: 0 <= x < |adj| && x != s ==> dist[x] == -1
    ensures Discovered(adj, s, dist, [s], 0)
  {
    assert IsWalk(adj, s, s, [s]);
  }

  lemma Discover(adj: Graph, s: nat, dist: seq<int>, order: seq<nat>, h: nat, n: nat, dist': seq<int>)
    requires Leaving(adj, s, dist, order, h, n) && n < |adj[order[h]]|
    requires var w := adj[order[h]][n]; dist[w] < 0 && dist' == dist[w := dist[order[h]] + 1]
    ensures Leaving(adj, s, dist', order + [adj[order[h]][n]], h, n + 1)
  {
    var v := order[h];
    var w := adj[v][n];
    assert v in order;
    WalkThere(adj, s, dist, v, w);
    DiscoverOrder(adj, s, dist, order, h, w, dist[v] + 1);
    forall x | 0 <= x < |adj| && dist'[x] >= 0
      ensures HasWalk(adj, s, x, dist'[x])
    {
      assert x == w || HasWalk(adj, s, x, dist[x]);
    }
    forall i | 0 <= i < h
      ensures Followed(adj, dist', (order + [w])[i], |adj[(order + [w])[i]]|)
    {
      assert Followed(adj, dist, order[i], |adj[order[i]]|);
    }
    hide HasWalk;
  }

  lemma WalkThere(adj: Graph, s: nat, dist: seq<int>, v: nat, w: nat)
    requires v < |adj| == |dist| && w < |adj| && w in adj[v] && dist[v] >= 0 && HasWalk(adj, s, v, dist[v])
    ensures HasWalk(adj, s, w, dist[v] + 1)
  {
    var p :| IsWalk(adj, s, v, p) && |p| == dist[v] + 1;
    WalkOn(adj, s, v, w, p);
  }

  /** A newly discovered vertex joins the end of the order. */
  lemma DiscoverOrder(adj: Graph, s: nat, dist: seq<int>, order: seq<nat>, h: nat, w: nat, d: int)
    requires Discovered(adj, s, dist, order, h) && h < |order| && w < |adj| && dist[w] < 0 && d == dist[order[h]] + 1 >= 1
    ensures Distinct(order + [w])
    ensures forall x :: 0 <= x < |adj| ==> dist[w := d][x] >= -1 && (dist[w := d][x] >= 0 <==> x in order + [w])
    ensures forall i :: 0 <= i < |order| ==> dist[w := d][order[i]] == dist[order[i]]
  {
    hide HasWalk, Followed, ValidGraph;
    assert w !in order;
    forall x | 0 <= x < |adj|
      ensures dist[w := d][x] >= 0 <==> x in order + [w]
    {
      assert x in order + [w] <==> x in order || x == w;
    }
    forall i | 0 <= i < |order|
      ensures order[i] != w
    {
      assert order[i] in order;
    }
  }

  lemma Skip(adj: Graph, s: nat, dist: seq<int>, order: seq<nat>, h: nat, n: nat)
    requires Leaving(adj, s, dist, order, h, n) && n < |adj[order[h]]|
    requires dist[adj[order[h]][n]] >= 0
    ensures Leaving(adj, s, dist, order, h, n + 1)
  {
    var w := adj[order[h]][n];
    assert w in order;
  }

  lemma Left(adj: Graph, s: nat, dist: seq<int>, order: seq<nat>, h: nat)
    requires h < |order| && order[h] < |adj| && Leaving(adj, s, dist, order, h, |adj[order[h]]|)
    ensures Discovered(adj, s, dist, order, h + 1)
  {
  }

  /** When the queue is empty every walk has been accounted for. */
  lemma {:induction false} WalkFollowed(adj: Graph, s: nat, dist: seq<int>, order: seq<nat>, t: nat, p: seq<nat>)
    requires Discovered(adj, s, dist, order, |order|)
    requires IsWalk(adj, s, t, p)
    ensures 0 <= dist[t] < |p|
    decreases |p|
  {
    if |p| > 1 {
      var u := p[|p| - 2];
      WalkBack(adj, s, t, p);
      WalkFollowed(adj, s, dist, order, u, p[..|p| - 1]);
      var i :| 0 <= i < |order| && order[i] == u;
      var j :| 0 <= j < |adj[u]| && adj[u][j] == t;
      assert Followed(adj, dist, order[i], |adj[order[i]]|);
    }
  }

  lemma Finished(adj: Graph, s: nat, dist: seq<int>, order: seq<nat>)
    requires Discovered(adj, s, dist, order, |order|)
    ensures TrueDist(adj, s, dist)
  {
    forall t, p | 0 <= t < |adj| && IsWalk(adj, s, t, p)
      ensures 0 <= dist[t] < |p|
    {
      WalkFollowed(adj, s, dist, order, t, p);
    }
  }

  // -------------------------------------------------- the distance function

  lemma {:induction false} LeastWalk(adj: Graph, s: nat, t: nat, d: nat) returns (least: nat)
    requires HasWalk(adj, s, t, d)
    ensures HasWalk(adj, s, t, least) && least <= d
    ensures forall e :: 0 <= e < least ==> !HasWalk(adj, s, t, e)
  {
    if e: nat :| e < d && HasWalk(adj, s, t, e) {
      least := LeastWalk(adj, s, t, e);
    } else {
      least := d;
    }
  }

  /** The fewest hops from s to t, or -1. */
  ghost function HopDist(adj: Graph, s: nat, t: nat): (h: int)
    ensures h >= -1
    ensures h >= 0 ==> HasWalk(adj, s, t, h)
    ensures forall p :: IsWalk(adj, s, t, p) ==> 0 <= h < |p|
  {
    if d: nat :| HasWalk(adj, s, t, d) then
      assert exists least: nat :: HasWalk(adj, s, t, least) && forall e :: 0 <= e < least ==> !HasWalk(adj, s, t, e) by {
        var least := LeastWalk(adj, s, t, d);
      }
      var least: nat :| HasWalk(adj, s, t, least) && forall e :: 0 <= e < least ==> !HasWalk(adj, s, t, e);
      assert forall p :: IsWalk(adj, s, t, p) ==> HasWalk(adj, s, t, |p| - 1);
      least
    else
      assert forall p :: IsWalk(adj, s, t, p) ==> HasWalk(adj, s, t, |p| - 1);
      -1
  }

  ghost function DistFrom(adj: Graph, s: nat): (dist: seq<int>)
    requires s < |adj|
    ensures TrueDist(adj, s, dist)
  {
    seq(|adj|, t requires 0 <= t < |adj| => HopDist(adj, s, t))
  }

  // ---------------------------------------------------------- joining walks

  lemma WalkJoin(adj: Graph, s: nat, u: nat, t: nat, p: seq<nat>, q: seq<nat>)
    requires IsWalk(adj, s, u, p) && IsWalk(adj, u, t, q)
    ensures IsWalk(adj, s, t, p + q[1..])
  {
    var r := p + q[1..];
    forall i | 0 <= i < |r| - 1
      ensures r[i + 1] in adj[r[i]]
    {
      if i >= |p| - 1 { assert r[i] == q[i - |p| + 1] && r[i + 1] == q[i - |p| + 1 + 1]; }
    }
  }

  lemma {:induction false} WalkReverse(adj: Graph, s: nat, t: nat, p: seq<nat>) returns (r: seq<nat>)
    requires ValidGraph(adj) && IsWalk(adj, s, t, p)
    ensures IsWalk(adj, t, s, r) && |r| == |p|
    decreases |p|
  {
    r := [t];
    if |p| > 1 {
      WalkBack(adj, s, t, p);
      var back := WalkReverse(adj, s, p[|p| - 2], p[..|p| - 1]);
      r := [t] + back;
      assert IsWalk(adj, t, p[|p| - 2], [t, p[|p| - 2]]);
      WalkJoin(adj, t, p[|p| - 2], s, [t, p[|p| - 2]], back);
      assert r == [t, p[|p| - 2]] + back[1..];
    }
  }

  /** s reaches t. */
  ghost predicate Reaches(adj: Graph, s: nat, t: nat) {
    exists p :: IsWalk(adj, s, t, p)
  }

  /** Hop distances are symmetric and obey the triangle inequality. */
  lemma HopDistMetric(adj: Graph, c: nat, a: nat, b: nat)
    requires ValidGraph(adj) && Reaches(adj, c, a) && Reaches(adj, c, b)
    ensures Reaches(adj, a, b) && 0 <= HopDist(adj, a, b) <= HopDist(adj, c, a) + HopDist(adj, c, b)
  {
    var pa :| IsWalk(adj, c, a, pa);
    var p :| IsWalk(adj, c, a, p) && |p| == HopDist(adj, c, a) + 1;
    var pb :| IsWalk(adj, c, b, pb);
    var q :| IsWalk(adj, c, b, q) && |q| == HopDist(adj, c, b) + 1;
    var r := WalkReverse(adj, c, a, p);
    WalkJoin(adj, a, c, b, r, q);
    assert HopDist(adj, a, b) < |r + q[1..]|;
  }
}
