/** What the size-corrected closeness is, over true hop distances. */
module ClosenessLaw {
  import opened Dependency
  import opened Distances
  import opened Graphs
  import opened PathCounts
  import opened Sums

  ghost function CountsFrom(adj: Graph, s: nat): Counts
    requires s < |adj|
  {
    CountsOf(adj, s, DistFrom(adj, s))
  }

  /** The targets other than the source, one each, and their distances. */
  ghost function Others(g: Counts): int -> real {
    t => if t != g.s && Reached(g, t) then 1.0 else 0.0
  }

  ghost function Hops(g: Counts): int -> real {
    t => if t != g.s && Reached(g, t) then g.dist[t] as real else 0.0
  }

  /** The size-corrected closeness of Wasserman and Faust. */
  ghost function Closeness(g: Counts): real {
    Corrected(Sum(g.n, Others(g)), g.n, Sum(g.n, Hops(g)))
  }

  function Corrected(reach: real, n: nat, sumDist: real): real {
    if sumDist > 0.0 && n > 1 then reach / (n - 1) as real * (reach / sumDist) else 0.0
  }

  // ---------------------------------------------------- in terms of the graph

  /** The other vertices that s reaches. */
  ghost function ReachedFrom(adj: Graph, s: nat): set<nat> {
    set t: nat | t < |adj| && t != s && Reaches(adj, s, t)
  }

  /** Their hop distances, for a sum. */
  ghost function HopsFrom(adj: Graph, s: nat): int -> real {
    t => if 0 <= t < |adj| && t != s && Reaches(adj, s, t) then HopDist(adj, s, t) as real else 0.0
  }

  /** Closeness c times the number of other vertices times the sum of the distances
      to those reached is the square of their number; it is 0 when there are none,
      and 1 exactly when every other vertex is a neighbour. */
  ghost predicate CorrectedCloseness(adj: Graph, s: nat, c: real)
    requires s < |adj|
  {
    var reached := |ReachedFrom(adj, s)| as real;
    && c * ((|adj| as real - 1.0) * Sum(|adj|, HopsFrom(adj, s))) == reached * reached
    && (ReachedFrom(adj, s) == {} ==> c == 0.0)
    && (|adj| >= 2 ==> (c == 1.0 <==> forall t: nat :: t < |adj| && t != s ==> t in adj[s]))
  }

  lemma WalkMeansReached(adj: Graph, s: nat, t: nat)
    requires s < |adj| && t < |adj|
    ensures Reaches(adj, s, t) <==> DistFrom(adj, s)[t] >= 0
    ensures DistFrom(adj, s)[t] == HopDist(adj, s, t)
    ensures t != s && DistFrom(adj, s)[t] >= 0 ==> DistFrom(adj, s)[t] >= 1
    ensures t != s ==> (DistFrom(adj, s)[t] == 1 <==> t in adj[s])
  {
    var h := HopDist(adj, s, t);
    if h >= 0 {
      var p :| IsWalk(adj, s, t, p) && |p| == h + 1;
      if h == 1 { assert p[0 + 1] in adj[p[0]]; }
    }
    if t in adj[s] { assert IsWalk(adj, s, t, [s, t]); }
  }

  /** A sum of ones and zeros counts the ones. */
  lemma {:induction false} SumCounts(n: nat, f: int -> real, members: set<nat>)
    requires forall i: nat :: i in members ==> i < n
    requires forall i: nat :: i < n ==> f(i) == if i in members then 1.0 else 0.0
    ensures Sum(n, f) == |members| as real
  {
    if n == 0 {
      assert members == {};
    } else {
      SumCounts(n - 1, f, members - {n - 1});
    }
  }

  /** Terms at most as great, sums equal: terms equal. */
  lemma {:induction false} SumTight(n: nat, f: int -> real, g: int -> real)
    requires (forall i :: 0 <= i < n ==> f(i) <= g(i)) && Sum(n, f) == Sum(n, g)
    ensures forall i :: 0 <= i < n ==> f(i) == g(i)
  {
    if n > 0 {
      SumAtMost(n - 1, f, g);
      SumTight(n - 1, f, g);
    }
  }

  lemma OthersCount(adj: Graph, s: nat)
    requires s < |adj|
    ensures Sum(|adj|, Others(CountsFrom(adj, s))) == |ReachedFrom(adj, s)| as real
    ensures Sum(|adj|, Hops(CountsFrom(adj, s))) == Sum(|adj|, HopsFrom(adj, s))
    ensures forall t :: 0 <= t < |adj| ==> Others(CountsFrom(adj, s))(t) <= Hops(CountsFrom(adj, s))(t)
  {
    hide DistFrom, HopDist, Reaches;
    forall t: nat | t < |adj|
      ensures Others(CountsFrom(adj, s))(t) == if t in ReachedFrom(adj, s) then 1.0 else 0.0
      ensures Hops(CountsFrom(adj, s))(t) == HopsFrom(adj, s)(t)
      ensures Others(CountsFrom(adj, s))(t) <= Hops(CountsFrom(adj, s))(t)
    {
      WalkMeansReached(adj, s, t);
    }
    SumCounts(|adj|, Others(CountsFrom(adj, s)), ReachedFrom(adj, s));
    SumEqual(|adj|, Hops(CountsFrom(adj, s)), HopsFrom(adj, s));
  }

  ghost function ButSource(s: nat): int -> real {
    (i: int) => if i == s then 0.0 else 1.0
  }

  lemma TermsAt(adj: Graph, s: nat, t: nat)
    requires s < |adj| && t < |adj|
    ensures var g := CountsFrom(adj, s);
      && Others(g)(t) <= ButSource(s)(t) && Others(g)(t) <= Hops(g)(t)
      && (Others(g)(t) == ButSource(s)(t) && Hops(g)(t) == ButSource(s)(t) <==> t == s || t in adj[s])
  {
    hide DistFrom, HopDist, Reaches;
    WalkMeansReached(adj, s, t);
  }

  /** All others are reached and a hop away exactly when they are neighbours. */
  lemma NeighboursOnly(adj: Graph, s: nat, m: real)
    requires s < |adj| && m == |adj| as real - 1.0
    ensures var r, d := Sum(|adj|, Others(CountsFrom(adj, s))), Sum(|adj|, Hops(CountsFrom(adj, s)));
      r == m && d == m <==> forall t: nat :: t < |adj| && t != s ==> t in adj[s]
  {
    hide Others, Hops, CountsFrom;
    var g, n, full := CountsFrom(adj, s), |adj|, ButSource(s);
    SumCounts(n, full, Below(n) - {s});
    hide ButSource;
    forall t: nat | t < n
      ensures Others(g)(t) <= full(t) && Others(g)(t) <= Hops(g)(t)
      ensures Others(g)(t) == full(t) && Hops(g)(t) == full(t) <==> t == s || t in adj[s]
    {
      TermsAt(adj, s, t);
    }
    if Sum(n, Others(g)) == m && Sum(n, Hops(g)) == m {
      SumTight(n, Others(g), full);
      SumTight(n, Others(g), Hops(g));
    }
    if forall t: nat :: t < n && t != s ==> t in adj[s] {
      SumEqual(n, Others(g), full);
      SumEqual(n, Hops(g), full);
    }
  }

  ghost function Below(n: nat): (whole: set<nat>)
    ensures |whole| == n && forall t: nat :: t in whole <==> t < n
  {
    if n == 0 then {} else Below(n - 1) + {n - 1}
  }

  /** r * r out of m * d, with r at most m and at most d. */
  lemma SquareOver(r: real, m: real, d: real, c: real)
    requires 0.0 <= r <= m && r <= d && m > 0.0 && d > 0.0 && c == r / m * (r / d)
    ensures c * (m * d) == r * r
    ensures c == 1.0 <==> r == m && r == d
  {
    Regroup(r / m, r / d, m, d);
    assert r / m * m == r && r / d * d == r;
    if r < m {
      Less(r, m, d);
    } else if r < d {
      Less(r, d, m);
    } else {
      OverItself(r);
    }
  }

  lemma OverItself(r: real)
    requires r > 0.0
    ensures r / r * (r / r) == 1.0
  {
    var one := r / r;
    assert one == 1.0;
  }

  lemma Regroup(a: real, b: real, m: real, d: real)
    ensures a * b * (m * d) == (a * m) * (b * d)
  {
  }

  lemma Less(r: real, m: real, d: real)
    requires 0.0 <= r < m && r <= d && d > 0.0
    ensures r * r < m * d
  {
    assert r * r <= r * d;
    assert (m - r) * d > 0.0;
  }

  /** The closeness is the corrected one. */
  lemma ClosenessCorrected(adj: Graph, s: nat)
    requires s < |adj|
    ensures CorrectedCloseness(adj, s, Closeness(CountsFrom(adj, s)))
  {
    hide DistFrom, HopDist, Reaches, Sum, ReachedFrom, HopsFrom, CountsFrom;
    var g := CountsFrom(adj, s);
    assert g.n == |adj| && g.s == s by { SourceOf(adj, s); }
    var m := |adj| as real - 1.0;
    var r, d := Sum(|adj|, Others(g)), Sum(|adj|, Hops(g));
    OthersCount(adj, s);
    SumAtMost(|adj|, Others(g), Hops(g));
    NeighboursOnly(adj, s, m);
    AtMostOthers(adj, s);
    hide Others, Hops;
    assert (|adj| - 1) as real == m;
    if m > 0.0 && d > 0.0 { SquareOver(r, m, d, Closeness(g)); }
  }

  /** The closeness by the formula of the code. */
  lemma ClosenessIs(adj: Graph, s: nat, reach: nat, sumDist: real, c: real)
    requires s < |adj| && reach as real == Sum(|adj|, Others(CountsFrom(adj, s))) && sumDist == Sum(|adj|, Hops(CountsFrom(adj, s)))
    requires c == Corrected(reach as real, |adj|, sumDist)
    ensures CorrectedCloseness(adj, s, c)
    ensures reach == |ReachedFrom(adj, s)|
  {
    hide Sum, Others, Hops, CorrectedCloseness, CountsFrom, Corrected;
    SourceOf(adj, s);
    ClosenessCorrected(adj, s);
    OthersCount(adj, s);
  }

  lemma SourceOf(adj: Graph, s: nat)
    requires s < |adj|
    ensures CountsFrom(adj, s).n == |adj| && CountsFrom(adj, s).s == s
  {
  }

  lemma AtMostOthers(adj: Graph, s: nat)
    requires s < |adj|
    ensures |ReachedFrom(adj, s)| <= |adj| - 1
    ensures |ReachedFrom(adj, s)| == 0 ==> Sum(|adj|, HopsFrom(adj, s)) == 0.0
  {
    Within(ReachedFrom(adj, s), Below(|adj|) - {s});
    if |ReachedFrom(adj, s)| == 0 {
      forall t: int | 0 <= t < |adj|
        ensures HopsFrom(adj, s)(t) == 0.0
      {
        assert (t as nat) !in ReachedFrom(adj, s);
      }
      SumSingle(|adj|, -1, HopsFrom(adj, s));
    }
  }

  lemma Within(a: set<nat>, b: set<nat>)
    requires a <= b
    ensures |a| <= |b|
  {
    assert b == a + (b - a);
  }
}
