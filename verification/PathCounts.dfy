/** Counting shortest walks, and those of them that pass through a given vertex. */
module PathCounts {
  import opened Graphs
  import opened Distances
  import opened Sums
  import opened Dependency
  import opened Sets

  /** The walks from s to t of exactly d hops that pass through every vertex of via. */
  ghost function Walks(adj: Graph, s: nat, t: nat, d: nat, via: set<nat>): set<seq<nat>> {
    set p | p in AllSeqs(|adj|, d + 1) && IsWalk(adj, s, t, p) && forall v :: v in via ==> v in p
  }

  /** How many shortest walks lead from s to t through via; none when t is out of reach. */
  ghost function Count(adj: Graph, s: nat, dist: seq<int>, t: int, via: set<nat>): real
    requires |dist| == |adj|
  {
    if 0 <= t < |adj| && dist[t] >= 0 then |Walks(adj, s, t, dist[t], via)| as real else 0.0
  }

  /** u is a predecessor of w on a shortest walk. */
  ghost predicate Pred(adj: Graph, dist: seq<int>, u: int, w: int)
    requires |dist| == |adj|
  {
    0 <= u < |adj| && 0 <= w < |adj| && w in adj[u] && dist[u] >= 0 && dist[w] == dist[u] + 1
  }

  // ------------------------------------------------------- counting walks

  lemma InAllSeqs(adj: Graph, s: nat, t: nat, p: seq<nat>, d: nat)
    requires IsWalk(adj, s, t, p) && |p| == d + 1
    ensures p in AllSeqs(|adj|, d + 1)
  {
  }

  /** The walks of d + 1 hops to t whose last hop leaves a vertex below n. */
  ghost function Arriving(adj: Graph, s: nat, t: nat, d: nat, via: set<nat>, n: nat): set<seq<nat>> {
    set p | p in Walks(adj, s, t, d + 1, via) && p[d] < n
  }

  ghost function Appended(ps: set<seq<nat>>, t: nat): set<seq<nat>> {
    set p | p in ps :: p + [t]
  }

  lemma AppendedCount(ps: set<seq<nat>>, t: nat)
    ensures |Appended(ps, t)| == |ps|
  {
    if ps == {} {
    } else {
      var q :| q in ps;
      var rest := ps - {q};
      AppendedCount(rest, t);
      assert Appended(ps, t) == Appended(rest, t) + {q + [t]};
      forall p | p in rest
        ensures p + [t] != q + [t]
      {
        assert p == (p + [t])[..|p + [t]| - 1] && q == (q + [t])[..|q + [t]| - 1];
      }
    }
  }

  lemma SplitLast(adj: Graph, s: nat, t: nat, d: nat, via: set<nat>, q: seq<nat>)
    requires q in Walks(adj, s, t, d + 1, via) && t !in via
    ensures q[d] < |adj| && t in adj[q[d]] && q[..d + 1] in Walks(adj, s, q[d], d, via) && q == q[..d + 1] + [t]
  {
    WalkBack(adj, s, t, q);
    InAllSeqs(adj, s, q[d], q[..d + 1], d);
    assert q == q[..d + 1] + [t];
    assert forall v :: v in q && v != t ==> v in q[..d + 1];
  }

  lemma JoinLast(adj: Graph, s: nat, t: nat, d: nat, via: set<nat>, u: nat, p: seq<nat>)
    requires t < |adj| && u < |adj| && t in adj[u] && p in Walks(adj, s, u, d, via)
    ensures p + [t] in Walks(adj, s, t, d + 1, via) && (p + [t])[d] == u
  {
    WalkOn(adj, s, u, t, p);
    InAllSeqs(adj, s, t, p + [t], d + 1);
    assert forall v :: v in p ==> v in p + [t];
  }

  lemma ArrivingSplit(adj: Graph, s: nat, t: nat, d: nat, via: set<nat>, u: nat)
    requires t < |adj| && u < |adj| && t !in via
    ensures Arriving(adj, s, t, d, via, u + 1) - Arriving(adj, s, t, d, via, u)
      == if t in adj[u] then Appended(Walks(adj, s, u, d, via), t) else {}
  {
    forall q | q in Arriving(adj, s, t, d, via, u + 1) - Arriving(adj, s, t, d, via, u)
      ensures t in adj[u] && q in Appended(Walks(adj, s, u, d, via), t)
    {
      SplitLast(adj, s, t, d, via, q);
    }
    if t in adj[u] {
      forall p | p in Walks(adj, s, u, d, via)
        ensures p + [t] in Arriving(adj, s, t, d, via, u + 1) && p + [t] !in Arriving(adj, s, t, d, via, u)
      {
        JoinLast(adj, s, t, d, via, u, p);
      }
    }
  }

  lemma ArrivingFrom(adj: Graph, s: nat, t: nat, d: nat, via: set<nat>, u: nat)
    requires t < |adj| && u < |adj| && t !in via
    ensures |Arriving(adj, s, t, d, via, u + 1)| as real == |Arriving(adj, s, t, d, via, u)| as real + FromEach(adj, s, t, d, via)(u)
  {
    var before, after := Arriving(adj, s, t, d, via, u), Arriving(adj, s, t, d, via, u + 1);
    assert after == before + (after - before);
    ArrivingSplit(adj, s, t, d, via, u);
    AppendedCount(Walks(adj, s, u, d, via), t);
  }

  /** How many walks arrive at t from each vertex. */
  ghost function FromEach(adj: Graph, s: nat, t: int, d: nat, via: set<nat>): int -> real {
    u => if 0 <= u < |adj| && t in adj[u] then |Walks(adj, s, u, d, via)| as real else 0.0
  }

  lemma {:induction false} ArrivingBelow(adj: Graph, s: nat, t: nat, d: nat, via: set<nat>, n: nat)
    requires t < |adj| && n <= |adj| && t !in via
    ensures |Arriving(adj, s, t, d, via, n)| as real == Sum(n, FromEach(adj, s, t, d, via))
  {
    if n == 0 {
      assert Arriving(adj, s, t, d, via, 0) == {};
    } else {
      ArrivingBelow(adj, s, t, d, via, n - 1);
      ArrivingFrom(adj, s, t, d, via, n - 1);
    }
  }

  lemma ArrivingAll(adj: Graph, s: nat, t: nat, d: nat, via: set<nat>)
    ensures Arriving(adj, s, t, d, via, |adj|) == Walks(adj, s, t, d + 1, via)
  {
  }

  /** The counts over the predecessors of t. */
  ghost function PredCount(adj: Graph, s: nat, dist: seq<int>, t: int, via: set<nat>): int -> real
    requires |dist| == |adj|
  {
    u => if Pred(adj, dist, u, t) then Count(adj, s, dist, u, via) else 0.0
  }

  /** Shortest walks to t are the shortest walks to its predecessors, one hop longer. */
  lemma {:induction false} CountFromPreds(adj: Graph, s: nat, dist: seq<int>, t: nat, via: set<nat>)
    requires ValidGraph(adj) && TrueDist(adj, s, dist)
    requires t < |adj| && dist[t] > 0 && t !in via
    ensures Count(adj, s, dist, t, via) == Sum(|adj|, PredCount(adj, s, dist, t, via))
  {
    var d := dist[t] - 1;
    ArrivingAll(adj, s, t, d, via);
    ArrivingBelow(adj, s, t, d, via, |adj|);
    var f, g := FromEach(adj, s, t, d, via), PredCount(adj, s, dist, t, via);
    forall u | 0 <= u < |adj|
      ensures f(u) == g(u)
    {
      if t in adj[u] && dist[u] != d {
        forall p | p in Walks(adj, s, u, d, via)
          ensures false
        {
          assert dist[u] < |p|;
          EdgeStep(adj, s, dist, u, t);
        }
        assert Walks(adj, s, u, d, via) == {};
      }
    }
    SumEqual(|adj|, f, g);
  }

  // ---------------------------------------------------- elementary counts

  lemma CountAtSource(adj: Graph, s: nat, dist: seq<int>)
    requires TrueDist(adj, s, dist)
    ensures dist[s] == 0 && Count(adj, s, dist, s, {}) == 1.0
  {
    assert IsWalk(adj, s, s, [s]);
    InAllSeqs(adj, s, s, [s], 0);
    assert dist[s] < |[s]|;
    assert forall p :: p in Walks(adj, s, s, 0, {}) ==> p == [s];
    assert Walks(adj, s, s, 0, {}) == {[s]};
  }

  lemma CountPositive(adj: Graph, s: nat, dist: seq<int>, t: nat)
    requires TrueDist(adj, s, dist) && t < |adj| && dist[t] >= 0
    ensures Count(adj, s, dist, t, {}) >= 1.0
  {
    var p :| IsWalk(adj, s, t, p) && |p| == dist[t] + 1;
    InAllSeqs(adj, s, t, p, dist[t]);
    assert p in Walks(adj, s, t, dist[t], {});
  }

  lemma CountThroughSelf(adj: Graph, s: nat, dist: seq<int>, t: nat)
    requires TrueDist(adj, s, dist) && t < |adj|
    ensures Count(adj, s, dist, t, {t}) == Count(adj, s, dist, t, {})
  {
    if dist[t] >= 0 {
      assert Walks(adj, s, t, dist[t], {t}) == Walks(adj, s, t, dist[t], {});
    }
  }

  lemma CountThroughAtMost(adj: Graph, s: nat, dist: seq<int>, t: int, v: nat)
    requires |dist| == |adj|
    ensures 0.0 <= Count(adj, s, dist, t, {v}) <= Count(adj, s, dist, t, {})
  {
    if 0 <= t < |adj| && dist[t] >= 0 {
      SubsetSize(Walks(adj, s, t, dist[t], {v}), Walks(adj, s, t, dist[t], {}));
    }
  }

  /** A shortest walk passes only through vertices nearer than its end. */
  lemma ThroughNearer(adj: Graph, s: nat, dist: seq<int>, t: int, v: nat)
    requires TrueDist(adj, s, dist) && t != v
    requires Count(adj, s, dist, t, {v}) != 0.0
    ensures v < |adj| && 0 <= t < |adj| && 0 <= dist[v] < dist[t]
  {
    assert Walks(adj, s, t, dist[t], {v}) != {};
    var p :| p in Walks(adj, s, t, dist[t], {v});
    assert v in p;
    var i :| 0 <= i < |p| && p[i] == v;
    WalkPrefix(adj, s, t, p, i);
    assert dist[v] < |p[..i + 1]|;
  }

  /** Every shortest walk starts at the source. */
  lemma ThroughSource(adj: Graph, s: nat, dist: seq<int>, t: int)
    requires TrueDist(adj, s, dist)
    ensures Count(adj, s, dist, t, {s}) == Count(adj, s, dist, t, {})
  {
    if 0 <= t < |adj| && dist[t] >= 0 {
      assert Walks(adj, s, t, dist[t], {s}) == Walks(adj, s, t, dist[t], {});
    }
  }

  // ------------------------------------------------- the laws of the counts

  ghost function CountsOf(adj: Graph, s: nat, dist: seq<int>): Counts
    requires |dist| == |adj|
  {
    Counts(|adj|, s, dist,
      (u: int, w: int) => Pred(adj, dist, u, w),
      (t: int) => Count(adj, s, dist, t, {}),
      (t: int, v: int) => if v >= 0 then Count(adj, s, dist, t, {v}) else 0.0)
  }

  lemma SumLaws(adj: Graph, s: nat, dist: seq<int>, t: nat)
    requires ValidGraph(adj) && TrueDist(adj, s, dist) && t < |adj| && dist[t] > 0
    ensures var g := CountsOf(adj, s, dist);
      && g.sigma(t) == Sum(g.n, OverPreds(g, t, g.sigma))
      && forall v :: 0 <= v < g.n && v != t ==> g.through(t, v) == Sum(g.n, OverPreds(g, t, ThroughOf(g, v)))
  {
    var g := CountsOf(adj, s, dist);
    CountFromPreds(adj, s, dist, t, {});
    SumEqual(g.n, PredCount(adj, s, dist, t, {}), OverPreds(g, t, g.sigma));
    forall v | 0 <= v < g.n && v != t
      ensures g.through(t, v) == Sum(g.n, OverPreds(g, t, ThroughOf(g, v)))
    {
      CountFromPreds(adj, s, dist, t, {v});
      SumEqual(g.n, PredCount(adj, s, dist, t, {v}), OverPreds(g, t, ThroughOf(g, v)));
    }
  }

  lemma ThroughLaws(adj: Graph, s: nat, dist: seq<int>, t: int, v: int)
    requires TrueDist(adj, s, dist)
    ensures var g := CountsOf(adj, s, dist);
      && 0.0 <= g.through(t, v) <= g.sigma(t)
      && (t != v && g.through(t, v) != 0.0 ==> Reached(g, v) && Reached(g, t) && g.dist[v] < g.dist[t])
      && g.through(t, t) == g.sigma(t) == g.through(t, g.s)
      && (Reached(g, t) ==> g.sigma(t) >= 1.0)
      && (!Reached(g, t) ==> g.sigma(t) == 0.0)
  {
    hide Walks, HasWalk;
    if v >= 0 {
      CountThroughAtMost(adj, s, dist, t, v);
      if t != v && Count(adj, s, dist, t, {v}) != 0.0 { ThroughNearer(adj, s, dist, t, v); }
    }
    ThroughSource(adj, s, dist, t);
    if 0 <= t < |adj| {
      CountThroughSelf(adj, s, dist, t);
      if dist[t] >= 0 { CountPositive(adj, s, dist, t); }
    }
  }

  lemma FarFromSource(adj: Graph, s: nat, dist: seq<int>, t: nat)
    requires TrueDist(adj, s, dist) && t < |adj| && t != s
    ensures dist[t] != 0
  {
    if dist[t] >= 0 {
      var p :| IsWalk(adj, s, t, p) && |p| == dist[t] + 1;
      assert p[0] != p[|p| - 1];
    }
  }

  lemma PredLaws(adj: Graph, s: nat, dist: seq<int>, u: int, w: int)
    requires TrueDist(adj, s, dist)
    ensures var g := CountsOf(adj, s, dist); g.pred(u, w) ==> Reached(g, u) && Reached(g, w) && g.dist[w] == g.dist[u] + 1
  {
    hide Count;
  }

  lemma SourceLaws(adj: Graph, s: nat, dist: seq<int>)
    requires ValidGraph(adj) && TrueDist(adj, s, dist)
    ensures var g := CountsOf(adj, s, dist); g.s < g.n == |g.dist| && g.dist[g.s] == 0 && g.sigma(g.s) == 1.0
  {
    CountAtSource(adj, s, dist);
  }

  lemma CountsLawfulCounts(adj: Graph, s: nat, dist: seq<int>)
    requires TrueDist(adj, s, dist)
    ensures LawfulCounts(CountsOf(adj, s, dist))
  {
    hide CountsOf, Count, ValidGraph, HasWalk;
    var g := CountsOf(adj, s, dist);
    forall t, v
      ensures 0.0 <= g.through(t, v) <= g.sigma(t)
      ensures t != v && g.through(t, v) != 0.0 ==> Reached(g, v) && Reached(g, t) && g.dist[v] < g.dist[t]
      ensures g.through(t, t) == g.sigma(t) == g.through(t, g.s)
      ensures Reached(g, t) ==> g.sigma(t) >= 1.0
      ensures !Reached(g, t) ==> g.sigma(t) == 0.0
    {
      ThroughLaws(adj, s, dist, t, v);
    }
  }

  lemma CountsLawfulAt(adj: Graph, s: nat, dist: seq<int>)
    requires ValidGraph(adj) && TrueDist(adj, s, dist)
    ensures LawfulAt(CountsOf(adj, s, dist))
  {
    hide CountsOf, LawfulCounts, ValidGraph, HasWalk;
    var g := CountsOf(adj, s, dist);
    SourceLaws(adj, s, dist);
    CountsLawfulCounts(adj, s, dist);
    forall u, w
      ensures g.pred(u, w) ==> Reached(g, u) && Reached(g, w) && g.dist[w] == g.dist[u] + 1
    {
      PredLaws(adj, s, dist, u, w);
    }
  }

  lemma CountsLawfulSums(adj: Graph, s: nat, dist: seq<int>)
    requires ValidGraph(adj) && TrueDist(adj, s, dist)
    ensures LawfulSums(CountsOf(adj, s, dist))
  {
    var g := CountsOf(adj, s, dist);
    forall t | Reached(g, t) && t != g.s
      ensures g.dist[t] > 0
      ensures g.sigma(t) == Sum(g.n, OverPreds(g, t, g.sigma))
      ensures forall v :: 0 <= v < g.n && v != t ==> g.through(t, v) == Sum(g.n, OverPreds(g, t, ThroughOf(g, v)))
    {
      FarFromSource(adj, s, dist, t);
      SumLaws(adj, s, dist, t);
    }
    hide Sum, OverPreds, ThroughOf;
  }

  /** The counts of shortest walks obey the laws of Dependency. */
  lemma CountsAreLawful(adj: Graph, s: nat, dist: seq<int>)
    requires ValidGraph(adj) && TrueDist(adj, s, dist)
    ensures Lawful(CountsOf(adj, s, dist))
  {
    CountsLawfulAt(adj, s, dist);
    CountsLawfulSums(adj, s, dist);
    hide LawfulAt, LawfulSums;
  }
}
