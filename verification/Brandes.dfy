/** Betweenness and closeness of every vertex, one breadth-first search per source. */
module Brandes {
  import opened Graphs
  import opened Distances
  import opened Sums
  import opened PathCounts
  import opened ClosenessLaw
  import opened Dependency

  const INT_MAX: nat := 0x7fff_ffff

  // ------------------------------------------------------ the forward pass

  /** followed holds the edges out of the first h vertices of order and the
      first n edges out of the next one. */
  ghost predicate EdgesSoFar(adj: Graph, dist: seq<int>, order: seq<nat>, h: nat, n: nat, followed: set<(nat, nat)>) {
    && (forall i :: 0 <= i < |order| ==> order[i] < |adj| == |dist|)
    && (forall u, w :: (u, w) in followed ==> u < |adj| == |dist| && w < |adj| && w in adj[u] && dist[u] >= 0 && dist[w] >= 0)
    && (forall u, w :: (u, w) in followed && h < |order| ==> dist[u] <= dist[order[h]])
    && (forall u, w, i :: (u, w) in followed && h < i < |order| ==> u != order[i])
    && (forall j :: h < |order| && n <= j < |adj[order[h]]| ==> (order[h], adj[order[h]][j]) !in followed)
    && (forall i, w :: 0 <= i < h && i < |order| && w in adj[order[i]] ==> (order[i], w) in followed)
    && (forall j :: h < |order| && 0 <= j < n && j < |adj[order[h]]| ==> (order[h], adj[order[h]][j]) in followed)
  }

  ghost function AsReals(sigma: seq<nat>): int -> real {
    u => if 0 <= u < |sigma| then sigma[u] as real else 0.0
  }

  /** The predecessor lists hold the edges followed that lead one hop further. */
  ghost predicate PredsTracked(adj: Graph, dist: seq<int>, followed: set<(nat, nat)>, preds: seq<seq<nat>>) {
    && |adj| == |dist| == |preds|
    && (forall w :: 0 <= w < |adj| ==> Distinct(preds[w]))
    && (forall w, u :: 0 <= w < |adj| ==>
          (u in preds[w] <==> (u, w) in followed && u < |adj| && dist[w] == dist[u] + 1))
  }

  /** A path count is the sum of those of the predecessors, and 1 at the source. */
  ghost predicate SigmaTracked(s: nat, sigma: seq<nat>, preds: seq<seq<nat>>) {
    && s < |sigma| == |preds| && sigma[s] == 1
    && (forall w :: 0 <= w < |sigma| && w != s ==> sigma[w] as real == SumList(preds[w], AsReals(sigma)))
  }

  ghost predicate Tracked(adj: Graph, s: nat, dist: seq<int>, followed: set<(nat, nat)>, sigma: seq<nat>, preds: seq<seq<nat>>) {
    PredsTracked(adj, dist, followed, preds) && SigmaTracked(s, sigma, preds)
  }

  lemma EdgesDiscover(adj: Graph, s: nat, dist: seq<int>, order: seq<nat>, h: nat, n: nat, followed: set<(nat, nat)>, dist': seq<int>)
    requires Leaving(adj, s, dist, order, h, n) && n < |adj[order[h]]|
    requires EdgesSoFar(adj, dist, order, h, n, followed)
    requires var w := adj[order[h]][n]; dist[w] < 0 && dist' == dist[w := dist[order[h]] + 1]
    ensures EdgesSoFar(adj, dist', order + [adj[order[h]][n]], h, n, followed)
  {
    hide HasWalk, Followed, Distinct;
    assert order[h] in order;
  }

  lemma TrackDiscover(adj: Graph, s: nat, dist: seq<int>, followed: set<(nat, nat)>, sigma: seq<nat>, preds: seq<seq<nat>>, w: nat, d: int)
    requires Tracked(adj, s, dist, followed, sigma, preds) && w < |adj| && dist[w] < 0
    requires forall u, x :: (u, x) in followed ==> u < |adj| && x < |adj| && u != w && x != w
    ensures Tracked(adj, s, dist[w := d], followed, sigma, preds)
  {
    var dist' := dist[w := d];
    forall x, u | 0 <= x < |adj|
      ensures u in preds[x] <==> (u, x) in followed && u < |adj| && dist'[x] == dist'[u] + 1
    {
      assert u in preds[x] <==> (u, x) in followed && u < |adj| && dist[x] == dist[u] + 1;
    }
    hide SigmaTracked, Distinct;
  }

  lemma FollowNext(adj: Graph, s: nat, dist: seq<int>, order: seq<nat>, h: nat, n: nat, followed: set<(nat, nat)>)
    requires Leaving(adj, s, dist, order, h, n) && n < |adj[order[h]]| && dist[adj[order[h]][n]] >= 0
    requires EdgesSoFar(adj, dist, order, h, n, followed)
    ensures EdgesSoFar(adj, dist, order, h, n + 1, followed + {(order[h], adj[order[h]][n])})
  {
    assert order[h] in order;
  }

  lemma FollowLeft(adj: Graph, s: nat, dist: seq<int>, order: seq<nat>, h: nat, followed: set<(nat, nat)>)
    requires h < |order| && order[h] < |adj| && Leaving(adj, s, dist, order, h, |adj[order[h]]|)
    requires EdgesSoFar(adj, dist, order, h, |adj[order[h]]|, followed)
    ensures EdgesSoFar(adj, dist, order, h + 1, 0, followed)
  {
    assert h + 1 < |order| ==> dist[order[h]] <= dist[order[h + 1]];
  }

  lemma TrackPreds(adj: Graph, dist: seq<int>, followed: set<(nat, nat)>, preds: seq<seq<nat>>, v: nat, w: nat)
    requires PredsTracked(adj, dist, followed, preds) && v < |adj| && w < |adj| && (v, w) !in followed
    ensures PredsTracked(adj, dist, followed + {(v, w)}, if dist[w] == dist[v] + 1 then preds[w := preds[w] + [v]] else preds)
  {
    if dist[w] == dist[v] + 1 {
      var preds' := preds[w := preds[w] + [v]];
      assert v !in preds[w];
      forall x | 0 <= x < |adj| ensures Distinct(preds'[x]) {
        assert Distinct(preds[x]);
      }
    }
    hide Distinct;
  }

  /** A vertex's count changes only before it is anyone's predecessor. */
  lemma TrackSigma(s: nat, sigma: seq<nat>, preds: seq<seq<nat>>, v: nat, w: nat)
    requires SigmaTracked(s, sigma, preds) && v < |sigma| && w < |sigma| && w != s && v != w
    requires forall x :: 0 <= x < |preds| ==> w !in preds[x]
    ensures SigmaTracked(s, sigma[w := sigma[w] + sigma[v]], preds[w := preds[w] + [v]])
  {
    var sigma' := sigma[w := sigma[w] + sigma[v]];
    forall x | 0 <= x < |preds|
      ensures SumList(preds[x], AsReals(sigma')) == SumList(preds[x], AsReals(sigma))
    {
      SumListEqual(preds[x], AsReals(sigma'), AsReals(sigma));
    }
    assert (preds[w] + [v])[..|preds[w]|] == preds[w];
  }

  /** One edge from v to w of the forward pass, after any discovery. */
  lemma TrackEdge(adj: Graph, s: nat, dist: seq<int>, followed: set<(nat, nat)>, sigma: seq<nat>, preds: seq<seq<nat>>,
      v: nat, w: nat, sigma': seq<nat>, preds': seq<seq<nat>>)
    requires Tracked(adj, s, dist, followed, sigma, preds)
    requires v < |adj| && w < |adj| && (v, w) !in followed && dist[s] == 0 <= dist[v]
    requires forall u, x :: (u, x) in followed ==> u < |adj| && dist[u] <= dist[v]
    requires if dist[w] == dist[v] + 1
      then sigma' == sigma[w := sigma[w] + sigma[v]] && preds' == preds[w := preds[w] + [v]]
      else sigma' == sigma && preds' == preds
    ensures Tracked(adj, s, dist, followed + {(v, w)}, sigma', preds')
  {
    TrackPreds(adj, dist, followed, preds, v, w);
    if dist[w] == dist[v] + 1 {
      forall x, u | 0 <= x < |preds| && u in preds[x] ensures u < |adj| && dist[u] <= dist[v] {
        assert (u, x) in followed;
      }
      TrackSigma(s, sigma, preds, v, w);
    }
    hide Distinct, SumList;
  }

  lemma SigmaStep(adj: Graph, s: nat, dist: seq<int>, sigma: seq<nat>, ps: seq<nat>, t: nat)
    requires ValidGraph(adj) && TrueDist(adj, s, dist) && t < |adj| && t != s && |sigma| == |adj|
    requires Distinct(ps) && (forall u: nat :: u in ps <==> Pred(adj, dist, u, t))
    requires sigma[t] as real == SumList(ps, AsReals(sigma))
    requires forall u: nat :: Pred(adj, dist, u, t) ==> sigma[u] as real == Count(adj, s, dist, u, {})
    ensures sigma[t] as real == Count(adj, s, dist, t, {})
  {
    var expected := PredCount(adj, s, dist, t, {});
    SumListIsSum(ps, |adj|, AsReals(sigma), expected);
    if dist[t] >= 0 {
      FarFromSource(adj, s, dist, t);
      CountFromPreds(adj, s, dist, t, {});
    } else {
      SumSingle(|adj|, -1, expected);
    }
  }

  /** When every edge is followed the tracked numbers are the counts of shortest walks. */
  lemma {:induction false} SigmaIsCount(adj: Graph, s: nat, dist: seq<int>, sigma: seq<nat>, preds: seq<seq<nat>>, t: nat)
    requires ValidGraph(adj) && TrueDist(adj, s, dist) && |sigma| == |preds| == |adj|
    requires forall w :: 0 <= w < |adj| ==> Distinct(preds[w]) && forall u: nat :: u in preds[w] <==> Pred(adj, dist, u, w)
    requires sigma[s] == 1
    requires forall w :: 0 <= w < |adj| && w != s ==> sigma[w] as real == SumList(preds[w], AsReals(sigma))
    requires t < |adj|
    ensures sigma[t] as real == Count(adj, s, dist, t, {})
    decreases dist[t] + 1
  {
    if t == s {
      CountAtSource(adj, s, dist);
    } else {
      forall u: nat | Pred(adj, dist, u, t)
        ensures sigma[u] as real == Count(adj, s, dist, u, {})
      {
        SigmaIsCount(adj, s, dist, sigma, preds, u);
      }
      SigmaStep(adj, s, dist, sigma, preds[t], t);
    }
  }

  lemma PredsAreShortest(adj: Graph, s: nat, dist: seq<int>, order: seq<nat>, followed: set<(nat, nat)>,
      sigma: seq<nat>, preds: seq<seq<nat>>, t: nat)
    requires Discovered(adj, s, dist, order, |order|)
    requires EdgesSoFar(adj, dist, order, |order|, 0, followed) && Tracked(adj, s, dist, followed, sigma, preds)
    requires t < |adj|
    ensures forall u: nat :: u in preds[t] <==> Pred(adj, dist, u, t)
  {
    hide HasWalk, Distinct, SumList, Followed;
    forall u: nat | Pred(adj, dist, u, t)
      ensures u in preds[t]
    {
      var i :| 0 <= i < |order| && order[i] == u;
      assert (order[i], t) in followed;
    }
    forall u: nat | u in preds[t]
      ensures Pred(adj, dist, u, t)
    {
      assert (u, t) in followed && dist[t] == dist[u] + 1;
    }
  }

  /** What the forward pass from s leaves behind. */
  ghost predicate Searched(adj: Graph, s: nat, dist: seq<int>, order: seq<nat>, sigma: seq<nat>, preds: seq<seq<nat>>) {
    && TrueDist(adj, s, dist)
    && |sigma| == |preds| == |adj|
    && Distinct(order)
    && (forall i :: 0 <= i < |order| ==> order[i] < |adj| && dist[order[i]] >= 0)
    && (forall x: nat :: x < |adj| && dist[x] >= 0 ==> x in order)
    && (forall i, j :: 0 <= i < j < |order| ==> dist[order[i]] <= dist[order[j]])
    && (forall t :: 0 <= t < |adj| ==> sigma[t] as real == Count(adj, s, dist, t, {}))
    && (forall t :: 0 <= t < |adj| ==> Distinct(preds[t]) && forall u: nat :: u in preds[t] <==> Pred(adj, dist, u, t))
  }

  lemma ForwardDone(adj: Graph, s: nat, dist: seq<int>, order: seq<nat>, followed: set<(nat, nat)>, sigma: seq<nat>, preds: seq<seq<nat>>)
    requires Discovered(adj, s, dist, order, |order|)
    requires EdgesSoFar(adj, dist, order, |order|, 0, followed) && Tracked(adj, s, dist, followed, sigma, preds)
    ensures Searched(adj, s, dist, order, sigma, preds)
  {
    Finished(adj, s, dist, order);
    forall t | 0 <= t < |adj|
      ensures forall u: nat :: u in preds[t] <==> Pred(adj, dist, u, t)
    {
      PredsAreShortest(adj, s, dist, order, followed, sigma, preds, t);
    }
    forall t | 0 <= t < |adj|
      ensures sigma[t] as real == Count(adj, s, dist, t, {})
    {
      SigmaIsCount(adj, s, dist, sigma, preds, t);
    }
  }

  /** The state of the pass from s: everything known about the first h vertices
      of order and the first n edges of the next one. */
  ghost predicate Passed(adj: Graph, s: nat, dist: seq<int>, order: seq<nat>, h: nat, n: nat, followed: set<(nat, nat)>,
      sigma: seq<nat>, preds: seq<seq<nat>>)
  {
    && Discovered(adj, s, dist, order, h)
    && (h < |order| ==> Followed(adj, dist, order[h], n))
    && EdgesSoFar(adj, dist, order, h, n, followed)
    && Tracked(adj, s, dist, followed, sigma, preds)
  }

  ghost predicate Fits(adj: Graph, sigma: seq<nat>) {
    forall t :: 0 <= t < |sigma| ==> sigma[t] <= INT_MAX
  }

  lemma StartPass(adj: Graph, s: nat, dist: seq<int>, sigma: seq<nat>, preds: seq<seq<nat>>)
    requires ValidGraph(adj) && s < |adj| == |dist| == |sigma| == |preds|
    requires forall u :: 0 <= u < |adj| ==> preds[u] == [] && dist[u] == (if u == s then 0 else -1) && sigma[u] == if u == s then 1 else 0
    ensures Passed(adj, s, dist, [s], 0, 0, {}, sigma, preds) && Fits(adj, sigma)
  {
    Started(adj, s, dist);
  }

  lemma PassVertex(adj: Graph, s: nat, dist: seq<int>, order: seq<nat>, h: nat, followed: set<(nat, nat)>, sigma: seq<nat>, preds: seq<seq<nat>>)
    requires h < |order| && order[h] < |adj| && Passed(adj, s, dist, order, h, |adj[order[h]]|, followed, sigma, preds)
    ensures Passed(adj, s, dist, order, h + 1, 0, followed, sigma, preds)
    ensures |order| <= |adj|
  {
    FollowLeft(adj, s, dist, order, h, followed);
    Left(adj, s, dist, order, h);
    DistinctBelow(order, |adj|);
  }

  lemma PassEdge(adj: Graph, s: nat, dist: seq<int>, order: seq<nat>, h: nat, n: nat, followed: set<(nat, nat)>,
      sigma: seq<nat>, preds: seq<seq<nat>>, sigma': seq<nat>, preds': seq<seq<nat>>)
    requires Passed(adj, s, dist, order, h, n, followed, sigma, preds)
    requires h < |order| && n < |adj[order[h]]| && dist[adj[order[h]][n]] >= 0
    requires var v := order[h]; var w := adj[v][n];
      if dist[w] == dist[v] + 1
      then sigma' == sigma[w := sigma[w] + sigma[v]] && preds' == preds[w := preds[w] + [v]]
      else sigma' == sigma && preds' == preds
    ensures Passed(adj, s, dist, order, h, n + 1, followed + {(order[h], adj[order[h]][n])}, sigma', preds')
  {
    TrackEdge(adj, s, dist, followed, sigma, preds, order[h], adj[order[h]][n], sigma', preds');
    Skip(adj, s, dist, order, h, n);
    FollowNext(adj, s, dist, order, h, n, followed);
  }

  lemma PassDiscover(adj: Graph, s: nat, dist: seq<int>, order: seq<nat>, h: nat, n: nat, followed: set<(nat, nat)>,
      sigma: seq<nat>, preds: seq<seq<nat>>)
    requires Passed(adj, s, dist, order, h, n, followed, sigma, preds)
    requires h < |order| && n < |adj[order[h]]| && dist[adj[order[h]][n]] < 0
    ensures Passed(adj, s, dist[adj[order[h]][n] := dist[order[h]] + 1], order + [adj[order[h]][n]], h, n, followed, sigma, preds)
  {
    var w, d := adj[order[h]][n], dist[order[h]] + 1;
    EdgesDiscover(adj, s, dist, order, h, n, followed, dist[w := d]);
    TrackDiscover(adj, s, dist, followed, sigma, preds, w, d);
    Discover(adj, s, dist, order, h, n, dist[w := d]);
    hide Discovered, EdgesSoFar, Tracked;
  }

  lemma PassShape(adj: Graph, s: nat, dist: seq<int>, order: seq<nat>, h: nat, n: nat, followed: set<(nat, nat)>,
      sigma: seq<nat>, preds: seq<seq<nat>>)
    requires h < |order| && Passed(adj, s, dist, order, h, n, followed, sigma, preds)
    ensures |dist| == |sigma| == |preds| == |adj| && order[h] < |adj| && dist[order[h]] >= 0
    ensures forall j :: 0 <= j < |adj[order[h]]| ==> adj[order[h]][j] < |adj|
  {
    hide HasWalk, Followed, Distinct, EdgesSoFar, SumList;
    assert order[h] in order;
  }

  /** Following one edge out of v. */
  method FollowEdge(adj: Graph, s: nat, v: nat, w: nat, dist0: seq<int>, bfsq0: seq<nat>, sigma0: seq<nat>, preds0: seq<seq<nat>>, ghost fits0: bool,
      ghost order0: seq<nat>, ghost h: nat, ghost n: nat, ghost followed: set<(nat, nat)>)
    returns (dist: seq<int>, bfsq: seq<nat>, sigma: seq<nat>, preds: seq<seq<nat>>, ghost fits: bool, ghost order: seq<nat>)
    requires h < |order0| && order0[h] == v < |adj| && n < |adj[v]| && adj[v][n] == w
    requires order0 == order0[..h + 1] + bfsq0
    requires Passed(adj, s, dist0, order0, h, n, followed, sigma0, preds0)
    requires fits0 <==> Fits(adj, sigma0)
    ensures Passed(adj, s, dist, order, h, n + 1, followed + {(v, w)}, sigma, preds)
    ensures order == order0[..h + 1] + bfsq
    ensures fits <==> Fits(adj, sigma)
  {
    hide Passed, Fits;
    PassShape(adj, s, dist0, order0, h, n, followed, sigma0, preds0);
    dist, bfsq, sigma, preds, fits, order := dist0, bfsq0, sigma0, preds0, fits0, order0;
    if dist[w] < 0 {
      PassDiscover(adj, s, dist, order, h, n, followed, sigma, preds);
      dist := dist[w := dist[v] + 1];
      bfsq := bfsq + [w];
      order := order + [w];
    }
    if dist[w] == dist[v] + 1 {
      fits := fits && sigma[w] + sigma[v] <= INT_MAX;
      sigma := sigma[w := sigma[w] + sigma[v]];
      preds := preds[w := preds[w] + [v]];
    }
    PassEdge(adj, s, dist, order, h, n, followed, sigma0, preds0, sigma, preds);
    FitsOn(adj, sigma0, w, sigma[w]);
  }

  /** Following every edge out of v, which has just moved from the queue to the stack. */
  method FollowEdges(adj: Graph, s: nat, v: nat, stk: seq<nat>, dist0: seq<int>, bfsq0: seq<nat>, sigma0: seq<nat>, preds0: seq<seq<nat>>, ghost fits0: bool,
      ghost followed0: set<(nat, nat)>)
    returns (dist: seq<int>, bfsq: seq<nat>, sigma: seq<nat>, preds: seq<seq<nat>>, ghost fits: bool, ghost followed: set<(nat, nat)>)
    requires stk != [] && stk[|stk| - 1] == v
    requires Passed(adj, s, dist0, stk + bfsq0, |stk| - 1, 0, followed0, sigma0, preds0)
    requires fits0 <==> Fits(adj, sigma0)
    ensures Passed(adj, s, dist, stk + bfsq, |stk|, 0, followed, sigma, preds)
    ensures |stk| <= |adj|
    ensures fits <==> Fits(adj, sigma)
  {
    dist, bfsq, sigma, preds, fits, followed := dist0, bfsq0, sigma0, preds0, fits0, followed0;
    ghost var order, h := stk + bfsq0, |stk| - 1;
    assert order[h] == v;
    for n := 0 to |adj[v]|
      invariant h < |order| && order[h] == v && order == stk + bfsq
      invariant Passed(adj, s, dist, order, h, n, followed, sigma, preds)
      invariant fits <==> Fits(adj, sigma)
    {
      assert order[..h + 1] == stk;
      dist, bfsq, sigma, preds, fits, order :=
        FollowEdge(adj, s, v, adj[v][n], dist, bfsq, sigma, preds, fits, order, h, n, followed);
      followed := followed + {(v, adj[v][n])};
    }
    PassVertex(adj, s, dist, order, h, followed, sigma, preds);
  }

  lemma FitsOn(adj: Graph, sigma: seq<nat>, w: nat, x: nat)
    requires w < |sigma| && sigma[w] <= x
    ensures Fits(adj, sigma[w := x]) <==> Fits(adj, sigma) && x <= INT_MAX
  {
    assert sigma[w := x][w] == x;
    if Fits(adj, sigma[w := x]) {
      forall t | 0 <= t < |sigma|
        ensures sigma[t] <= INT_MAX
      {
        assert sigma[w := x][t] <= INT_MAX;
      }
    }
  }

  /** Emptying the queue. */
  method Drain(adj: Graph, s: nat, dist0: seq<int>, sigma0: seq<nat>, preds0: seq<seq<nat>>)
    returns (dist: seq<int>, stk: seq<nat>, sigma: seq<nat>, preds: seq<seq<nat>>, ghost fits: bool, ghost followed: set<(nat, nat)>)
    requires Passed(adj, s, dist0, [s], 0, 0, {}, sigma0, preds0) && Fits(adj, sigma0)
    ensures Passed(adj, s, dist, stk, |stk|, 0, followed, sigma, preds)
    ensures fits <==> Fits(adj, sigma)
  {
    dist, sigma, preds, fits, stk, followed := dist0, sigma0, preds0, true, [], {};
    var bfsq := [s];
    assert stk + bfsq == [s];
    while bfsq != []
      invariant Passed(adj, s, dist, stk + bfsq, |stk|, 0, followed, sigma, preds)
      invariant fits <==> Fits(adj, sigma)
      decreases |adj| - |stk|
    {
      var v := bfsq[0];
      assert stk + bfsq == (stk + [v]) + bfsq[1..];
      bfsq := bfsq[1..];
      stk := stk + [v];
      dist, bfsq, sigma, preds, fits, followed := FollowEdges(adj, s, v, stk, dist, bfsq, sigma, preds, fits, followed);
    }
    assert stk + bfsq == stk;
  }

  /** The breadth-first pass from s. The counts are held in an int: fits says
      whether every sum formed on the way fits one. */
  method Forward(adj: Graph, s: nat)
    returns (dist: seq<int>, stk: seq<nat>, sigma: seq<nat>, preds: seq<seq<nat>>, ghost fits: bool)
    requires ValidGraph(adj) && s < |adj|
    ensures Searched(adj, s, dist, stk, sigma, preds)
    ensures fits <==> forall t :: 0 <= t < |adj| ==> Count(adj, s, dist, t, {}) <= INT_MAX as real
  {
    preds := seq(|adj|, _ => []);
    sigma := seq(|adj|, u => if u == s then 1 else 0);
    dist := seq(|adj|, u => if u == s then 0 else -1);
    StartPass(adj, s, dist, sigma, preds);
    ghost var followed;
    dist, stk, sigma, preds, fits, followed := Drain(adj, s, dist, sigma, preds);
    ForwardDone(adj, s, dist, stk, followed, sigma, preds);
  }

  // ----------------------------------------------------- the backward pass

  /** What v has inherited so far from the vertices in done. */
  ghost function InheritedFrom(g: Counts, done: seq<nat>, v: int): int -> real {
    w => if w in done then Inherited(g, v)(w) else 0.0
  }

  ghost predicate Gathered(g: Counts, done: seq<nat>, delta: seq<real>) {
    |delta| == g.n && forall v :: 0 <= v < g.n ==> delta[v] == Sum(g.n, InheritedFrom(g, done, v))
  }

  lemma NothingGathered(g: Counts, delta: seq<real>)
    requires |delta| == g.n && forall v :: 0 <= v < g.n ==> delta[v] == 0.0
    ensures Gathered(g, [], delta)
  {
    forall v | 0 <= v < g.n
      ensures delta[v] == Sum(g.n, InheritedFrom(g, [], v))
    {
      SumSingle(g.n, -1, InheritedFrom(g, [], v));
    }
  }

  /** Once every vertex that w precedes is done, w has its whole dependency. */
  lemma GatheredAll(g: Counts, done: seq<nat>, delta: seq<real>, w: nat)
    requires Dep(g, w) == Sum(g.n, Inherited(g, w)) && Gathered(g, done, delta) && w < g.n
    requires forall x :: 0 <= x < g.n && g.pred(w, x) ==> x in done
    ensures delta[w] == Dep(g, w)
  {
    forall x | 0 <= x < g.n
      ensures InheritedFrom(g, done, w)(x) == Inherited(g, w)(x)
    {
      if !g.pred(w, x) { assert Share(g, w, x) == 0.0; }
    }
    SumEqual(g.n, InheritedFrom(g, done, w), Inherited(g, w));
  }

  lemma GatherNext(g: Counts, done: seq<nat>, delta: seq<real>, w: nat, delta': seq<real>)
    requires Gathered(g, done, delta) && w < g.n == |delta'| && w !in done
    requires forall v :: 0 <= v < g.n ==> delta'[v] == delta[v] + Inherited(g, v)(w)
    ensures Gathered(g, [w] + done, delta')
  {
    forall v | 0 <= v < g.n
      ensures delta'[v] == Sum(g.n, InheritedFrom(g, [w] + done, v))
    {
      var only := (x: int) => if x == w then Inherited(g, v)(w) else 0.0;
      SumSingle(g.n, w, only);
      SumPlus(g.n, InheritedFrom(g, done, v), only, InheritedFrom(g, [w] + done, v));
    }
  }

  lemma HandedOn(g: Counts, v: nat, w: nat, sv: nat, sw: nat, dep: real)
    requires sv as real == g.sigma(v) && sw as real == g.sigma(w) && sw != 0 && dep == Dep(g, w)
    ensures Inherited(g, v)(w) == if g.pred(v, w) then sv as real / sw as real * (1.0 + dep) else 0.0
  {
    if !g.pred(v, w) { assert Share(g, v, w) == 0.0; }
  }

  /** Handing the dependency on w on to its predecessors. */
  method HandOn(ghost g: Counts, w: nat, preds: seq<nat>, sigma: seq<nat>, delta0: seq<real>) returns (delta: seq<real>)
    requires w < g.n == |delta0| == |sigma| && delta0[w] == Dep(g, w) && sigma[w] > 0
    requires Distinct(preds) && w !in preds && forall v: nat :: v in preds <==> v < g.n && g.pred(v, w)
    requires forall v :: 0 <= v < g.n ==> sigma[v] as real == g.sigma(v)
    ensures |delta| == g.n && delta[w] == delta0[w]
    ensures forall v :: 0 <= v < g.n ==> delta[v] == delta0[v] + Inherited(g, v)(w)
  {
    delta := delta0;
    for i := 0 to |preds|
      invariant |delta| == g.n && delta[w] == delta0[w]
      invariant forall v :: 0 <= v < g.n ==> delta[v] == delta0[v] + if v in preds[..i] then Inherited(g, v)(w) else 0.0
    {
      var v := preds[i];
      assert v in preds && v !in preds[..i];
      assert preds[..i + 1] == preds[..i] + [v];
      if sigma[w] == 0 { continue; }
      HandedOn(g, v, w, sigma[v], sigma[w], delta[w]);
      delta := delta[v := delta[v] + sigma[v] as real / sigma[w] as real * (1.0 + delta[w])];
    }
    assert preds[..|preds|] == preds;
    forall v: nat | v < g.n && v !in preds
      ensures Inherited(g, v)(w) == 0.0
    {
      HandedOn(g, v, w, sigma[v], sigma[w], delta[w]);
    }
  }

  /** The forward pass in terms of the counts alone. */
  ghost predicate Ready(g: Counts, order: seq<nat>, sigma: seq<nat>, preds: seq<seq<nat>>) {
    && |sigma| == |preds| == g.n == |g.dist|
    && (forall t :: 0 <= t < g.n ==> sigma[t] as real == g.sigma(t) && Distinct(preds[t]))
    && (forall t :: 0 <= t < g.n ==> forall u: nat :: u in preds[t] <==> u < g.n && g.pred(u, t))
    && (forall k :: 0 <= k < |order| ==> order[k] < g.n && order[k] !in order[k + 1..] && sigma[order[k]] > 0)
    && (forall k, x: nat :: 0 <= k < |order| && x < g.n && g.pred(order[k], x) ==> x in order[k + 1..])
    && (forall k :: 0 <= k < |order| ==> order[k] !in preds[order[k]])
    && (forall v :: 0 <= v < g.n ==> Dep(g, v) == if v in order then Sum(g.n, Inherited(g, v)) else 0.0)
  }

  lemma SuccessorsDone(adj: Graph, s: nat, dist: seq<int>, order: seq<nat>, sigma: seq<nat>, preds: seq<seq<nat>>, k: nat)
    requires Searched(adj, s, dist, order, sigma, preds) && k < |order|
    ensures forall x: nat :: Pred(adj, dist, order[k], x) ==> x in order[k + 1..]
  {
    forall x: nat | Pred(adj, dist, order[k], x)
      ensures x in order[k + 1..]
    {
      var j :| 0 <= j < |order| && order[j] == x;
      assert j > k;
      assert order[k + 1..][j - k - 1] == x;
    }
  }

  lemma OutOfReach(g: Counts, v: int)
    requires forall t :: t != v ==> g.through(t, v) == 0.0
    ensures Dep(g, v) == 0.0
  {
    forall t | 0 <= t < g.n
      ensures Fraction(g, v)(t) == 0.0
    {
      assert Ratio(0.0, g.sigma(t)) == 0.0;
    }
    SumSingle(g.n, -1, Fraction(g, v));
  }

  lemma SearchedIsReady(adj: Graph, s: nat, dist: seq<int>, order: seq<nat>, sigma: seq<nat>, preds: seq<seq<nat>>)
    requires ValidGraph(adj) && Searched(adj, s, dist, order, sigma, preds)
    ensures Ready(CountsOf(adj, s, dist), order, sigma, preds)
  {
    var g := CountsOf(adj, s, dist);
    forall k | 0 <= k < |order|
      ensures order[k] !in order[k + 1..] && sigma[order[k]] > 0
      ensures forall x: nat :: x < g.n && g.pred(order[k], x) ==> x in order[k + 1..]
    {
      SuccessorsDone(adj, s, dist, order, sigma, preds, k);
      CountPositive(adj, s, dist, order[k]);
    }
    forall v | 0 <= v < g.n
      ensures Dep(g, v) == if v in order then Sum(g.n, Inherited(g, v)) else 0.0
    {
      CountsAreLawful(adj, s, dist);
      if v in order { DepRecursion(g, v); } else { OutOfReach(g, v); }
    }
  }

  /** The source adds its dependencies, on every vertex but itself, to the running totals. */
  method Accumulate(ghost g: Counts, s: nat, order: seq<nat>, sigma: seq<nat>, preds: seq<seq<nat>>, totals: seq<real>)
    returns (betweenness: seq<real>, delta: seq<real>)
    requires Ready(g, order, sigma, preds) && s == g.s && |totals| == g.n
    ensures |betweenness| == |delta| == g.n
    ensures forall v :: 0 <= v < g.n && v in order ==> delta[v] == Dep(g, v)
    ensures forall v :: 0 <= v < g.n ==> betweenness[v] == totals[v] + InnerDep(g)(v)
  {
    betweenness, delta := totals, seq(|sigma|, _ => 0.0);
    var stk := order;
    NothingGathered(g, delta);
    assert order[|stk|..] == [];
    while stk != []
      invariant |stk| <= |order| && stk == order[..|stk|] && |betweenness| == g.n
      invariant Gathered(g, order[|stk|..], delta)
      invariant forall v :: 0 <= v < g.n ==>
        betweenness[v] == totals[v] + if v in order[|stk|..] then InnerDep(g)(v) else 0.0
    {
      var w := stk[|stk| - 1];
      ghost var done, delta0 := order[|stk|..], delta;
      stk := stk[..|stk| - 1];
      assert w == order[|stk|] && order[|stk|..] == [w] + done;
      GatheredAll(g, done, delta, w);
      delta := HandOn(g, w, preds[w], sigma, delta);
      GatherNext(g, done, delta0, w, delta);
      if w != s {
        betweenness := betweenness[w := betweenness[w] + delta[w]];
      }
    }
    assert order[0..] == order;
    forall v | 0 <= v < g.n && v in order
      ensures delta[v] == Dep(g, v)
    {
      var k :| 0 <= k < |order| && order[k] == v;
      GatheredAll(g, order, delta, v);
    }
  }

  // ------------------------------------------------------------- all sources

  /** Every count of shortest walks from s fits an int. */
  ghost predicate CountsFit(adj: Graph, s: nat)
    requires s < |adj|
  {
    forall t :: 0 <= t < |adj| ==> CountsFrom(adj, s).sigma(t) <= INT_MAX as real
  }

  /** What the source s, unless it is v itself, depends on v. */
  ghost function DepOn(adj: Graph, s: int, v: int): real {
    if 0 <= s < |adj| && s != v then Dep(CountsFrom(adj, s), v) else 0.0
  }

  ghost function DepsOn(adj: Graph, v: int): int -> real {
    s => DepOn(adj, s, v)
  }

  /** Half the sum over sources s and targets t, both other than v, of the
      fraction of shortest walks from s to t that pass through v. */
  ghost function Betweenness(adj: Graph, v: int): real {
    Sum(|adj|, DepsOn(adj, v)) / 2.0
  }

  /** The two sums over the vertices other than the source. */
  method SumDistances(adj: Graph, s: nat, dist: seq<int>) returns (sumDist: real, reach: nat)
    requires TrueDist(adj, s, dist)
    ensures reach as real == Sum(|adj|, Others(CountsOf(adj, s, dist))) && sumDist == Sum(|adj|, Hops(CountsOf(adj, s, dist)))
  {
    ghost var g := CountsOf(adj, s, dist);
    sumDist, reach := 0.0, 0;
    for i := 0 to |adj|
      invariant sumDist == Sum(i, Hops(g)) && reach as real == Sum(i, Others(g))
    {
      if i != s { FarFromSource(adj, s, dist, i); }
      if i != s && dist[i] > 0 {
        sumDist := sumDist + dist[i] as real;
        reach := reach + 1;
      }
    }
  }

  method MeasureCloseness(adj: Graph, s: nat, dist: seq<int>) returns (closeness: real, reach: nat)
    requires TrueDist(adj, s, dist)
    ensures reach == |ReachedFrom(adj, s)| && reach as real == Sum(|adj|, Others(CountsOf(adj, s, dist)))
    ensures CorrectedCloseness(adj, s, closeness)
  {
    hide Others, Hops, CorrectedCloseness, Sum, CountsOf, ReachedFrom, HasWalk, IsWalk;
    DistUnique(adj, s, dist, DistFrom(adj, s));
    var sumDist;
    sumDist, reach := SumDistances(adj, s, dist);
    closeness := 0.0;
    if sumDist > 0.0 && |adj| > 1 {
      closeness := reach as real / (|adj| - 1) as real * (reach as real / sumDist);
    }
    ClosenessIs(adj, s, reach, sumDist, closeness);
  }

  /** One source's contributions. The delta left at the source is its reach. */
  method FromSource(adj: Graph, s: nat, totals: seq<real>)
    returns (betweenness: seq<real>, closeness: real, delta: seq<real>, reach: nat, ghost fits: bool)
    requires ValidGraph(adj) && s < |adj| == |totals|
    ensures |betweenness| == |adj|
    ensures forall v :: 0 <= v < |adj| ==> betweenness[v] == totals[v] + DepOn(adj, s, v)
    ensures CorrectedCloseness(adj, s, closeness)
    ensures |delta| == |adj| && delta[s] == reach as real && reach == |ReachedFrom(adj, s)|
    ensures fits <==> CountsFit(adj, s)
  {
    hide Searched, Ready, Lawful, Dep, Closeness, CorrectedCloseness, ValidGraph, TrueDist, CountsFit, CountsFrom, CountsOf, DepOn, InnerDep, Others, Count, Reached;
    var dist, stk, sigma, preds;
    dist, stk, sigma, preds, fits := Forward(adj, s);
    SearchedFrom(adj, s, dist, stk, sigma, preds);
    closeness, reach := MeasureCloseness(adj, s, dist);
    betweenness, delta := Accumulate(CountsFrom(adj, s), s, stk, sigma, preds, totals);
    ReachAtSource(adj, s);
    forall v | 0 <= v < |adj| ensures InnerDep(CountsFrom(adj, s))(v) == DepOn(adj, s, v) { InnerIsOn(adj, s, v); }
    FitsMeans(adj, s, dist);
  }

  /** The pass from s is ready for accumulation, in terms of the true distances. */
  lemma SearchedFrom(adj: Graph, s: nat, dist: seq<int>, order: seq<nat>, sigma: seq<nat>, preds: seq<seq<nat>>)
    requires ValidGraph(adj) && s < |adj| && Searched(adj, s, dist, order, sigma, preds)
    ensures TrueDist(adj, s, dist) && dist == DistFrom(adj, s) && |dist| == |adj| && s in order
    ensures CountsOf(adj, s, dist) == CountsFrom(adj, s) && CountsFrom(adj, s).s == s && CountsFrom(adj, s).n == |adj|
    ensures Ready(CountsFrom(adj, s), order, sigma, preds)
  {
    hide Ready;
    DistUnique(adj, s, dist, DistFrom(adj, s));
    SearchedIsReady(adj, s, dist, order, sigma, preds);
    SourceListed(adj, s, dist, order, sigma, preds);
  }

  lemma ReachAtSource(adj: Graph, s: nat)
    requires ValidGraph(adj) && s < |adj|
    ensures Sum(|adj|, Others(CountsFrom(adj, s))) == Dep(CountsFrom(adj, s), s)
  {
    hide Lawful, Dep, Others, Closeness;
    CountsAreLawful(adj, s, DistFrom(adj, s));
    ClosenessUnit(CountsFrom(adj, s));
  }

  lemma InnerIsOn(adj: Graph, s: nat, v: nat)
    requires s < |adj|
    ensures InnerDep(CountsFrom(adj, s))(v) == DepOn(adj, s, v)
  {
  }

  lemma FitsMeans(adj: Graph, s: nat, dist: seq<int>)
    requires s < |adj| == |dist| && CountsOf(adj, s, dist) == CountsFrom(adj, s)
    ensures CountsFit(adj, s) <==> forall t :: 0 <= t < |adj| ==> Count(adj, s, dist, t, {}) <= INT_MAX as real
  {
    assert forall t :: CountsOf(adj, s, dist).sigma(t) == Count(adj, s, dist, t, {});
  }

  lemma SourceListed(adj: Graph, s: nat, dist: seq<int>, order: seq<nat>, sigma: seq<nat>, preds: seq<seq<nat>>)
    requires Searched(adj, s, dist, order, sigma, preds)
    ensures s in order
  {
    assert IsWalk(adj, s, s, [s]);
    assert dist[s] >= 0;
  }

  /** Every vertex's betweenness and closeness. fits says whether the int path
      counts held every number the passes formed. */
  method Centralities(adj: Graph) returns (betweenness: seq<real>, closeness: seq<real>, ghost fits: bool)
    requires ValidGraph(adj)
    ensures |betweenness| == |closeness| == |adj|
    ensures forall v :: 0 <= v < |adj| ==> betweenness[v] == Betweenness(adj, v)
    ensures forall s :: 0 <= s < |adj| ==> CorrectedCloseness(adj, s, closeness[s])
    ensures fits <==> forall s :: 0 <= s < |adj| ==> CountsFit(adj, s)
  {
    hide DepOn, CountsFrom, CountsFit, Closeness, CorrectedCloseness;
    betweenness, closeness := seq(|adj|, _ => 0.0), [];
    fits := true;
    for s := 0 to |adj|
      invariant |betweenness| == |adj| && |closeness| == s
      invariant forall v :: 0 <= v < |adj| ==> betweenness[v] == Sum(s, DepsOn(adj, v))
      invariant forall r :: 0 <= r < s ==> CorrectedCloseness(adj, r, closeness[r])
      invariant fits <==> forall r :: 0 <= r < s ==> CountsFit(adj, r)
    {
      var c, delta, reach;
      ghost var fitsFrom;
      betweenness, c, delta, reach, fitsFrom := FromSource(adj, s, betweenness);
      closeness := closeness + [c];
      fits := fits && fitsFrom;
    }
    betweenness := seq(|adj|, v requires 0 <= v < |betweenness| => betweenness[v] / 2.0);
  }

  // --------------------------------------------------- what the numbers mean

  lemma DepOnBounded(adj: Graph, s: nat, v: nat)
    requires ValidGraph(adj) && v < |adj| && s < |adj|
    ensures if s == v then DepOn(adj, s, v) == 0.0 else 0.0 <= DepOn(adj, s, v) <= |adj| as real - 2.0
  {
    CountsAreLawful(adj, s, DistFrom(adj, s));
    if s != v { DepBounded(CountsFrom(adj, s), v); }
  }

  lemma BetweennessBounded(adj: Graph, v: nat)
    requires ValidGraph(adj) && v < |adj|
    ensures 0.0 <= Betweenness(adj, v) <= (|adj| as real - 2.0) * (|adj| - 1) as real / 2.0
  {
    hide DepOn;
    forall s: nat | s < |adj|
      ensures if s == v then DepOn(adj, s, v) == 0.0 else 0.0 <= DepOn(adj, s, v) <= |adj| as real - 2.0
    {
      DepOnBounded(adj, s, v);
    }
    SumButOne(|adj|, v, |adj| as real - 2.0, DepsOn(adj, v));
  }

  /** Divided by (N-1)(N-2)/2, or by 1 below three vertices, betweenness lies in [0, 1]. */
  lemma BetweennessNormalised(adj: Graph, v: nat, normaliser: real)
    requires ValidGraph(adj) && v < |adj|
    requires normaliser == if |adj| >= 3 then (|adj| as real - 1.0) * (|adj| as real - 2.0) * 0.5 else 1.0
    ensures normaliser > 0.0 && 0.0 <= Betweenness(adj, v) / normaliser <= 1.0
  {
    hide Betweenness;
    BetweennessBounded(adj, v);
    NormaliserBounds(|adj|, |adj| as real, normaliser, Betweenness(adj, v));
    UnitQuotient(Betweenness(adj, v), normaliser);
  }

  lemma NormaliserBounds(n: nat, m: real, normaliser: real, b: real)
    requires n > 0 && m == n as real && 0.0 <= b <= (m - 2.0) * (n - 1) as real / 2.0
    requires normaliser == if n >= 3 then (m - 1.0) * (m - 2.0) * 0.5 else 1.0
    ensures 0.0 <= b <= normaliser && normaliser > 0.0
  {
    assert (n - 1) as real == m - 1.0;
    if n >= 3 {
      assert (m - 1.0) * (m - 2.0) > 0.0;
    } else if n == 1 {
      assert (m - 2.0) * (m - 1.0) == 0.0;
    }
  }

  lemma UnitQuotient(a: real, b: real)
    requires 0.0 <= a <= b && b > 0.0
    ensures 0.0 <= a / b <= 1.0
  {
  }

  /** Over the targets of s, the vertices strictly between s and the target. */
  ghost function AllBetween(adj: Graph, s: int): real {
    if 0 <= s < |adj| then Sum(|adj|, Between(CountsFrom(adj, s))) else 0.0
  }

  ghost function DepTable(adj: Graph): (int, int) -> real {
    (v, s) => DepOn(adj, s, v)
  }

  lemma {:induction false} DepColumn(adj: Graph, s: nat)
    requires ValidGraph(adj) && s < |adj|
    ensures AllBetween(adj, s) == Sum(|adj|, Column(DepTable(adj), s))
  {
    CountsAreLawful(adj, s, DistFrom(adj, s));
    InnerTotal(CountsFrom(adj, s));
    SumEqual(|adj|, InnerDep(CountsFrom(adj, s)), Column(DepTable(adj), s));
  }

  /** Total betweenness is half the sum, over ordered connected pairs, of the vertices between them. */
  lemma {:induction false} BetweennessTotal(adj: Graph, betweenness: int -> real)
    requires ValidGraph(adj) && forall v :: 0 <= v < |adj| ==> betweenness(v) == Betweenness(adj, v)
    ensures Sum(|adj|, betweenness) == Sum(|adj|, s => AllBetween(adj, s)) / 2.0
  {
    hide DepOn, AllBetween;
    var onEach := (v: int) => Sum(|adj|, Row(DepTable(adj), v));
    forall v | 0 <= v < |adj|
      ensures betweenness(v) == 0.5 * onEach(v)
    {
      SumEqual(|adj|, DepsOn(adj, v), Row(DepTable(adj), v));
    }
    forall s: nat | s < |adj|
      ensures AllBetween(adj, s) == Sum(|adj|, Column(DepTable(adj), s))
    {
      DepColumn(adj, s);
    }
    SumSwap(|adj|, |adj|, DepTable(adj), onEach, s => AllBetween(adj, s));
    SumScaled(|adj|, 0.5, onEach, betweenness);
  }

  lemma ClosenessBounded(g: Counts)
    requires g.s < g.n && forall t :: Reached(g, t) && t != g.s ==> g.dist[t] > 0
    ensures 0.0 <= Closeness(g) <= 1.0
  {
    SumButOne(g.n, g.s, 1.0, Others(g));
    SumAtMost(g.n, Others(g), Hops(g));
    UnitProduct(Sum(g.n, Others(g)), (g.n - 1) as real, Sum(g.n, Hops(g)));
  }

  /** Closeness lies in [0, 1], and reach is the dependency on the source itself. */
  lemma ClosenessUnit(g: Counts)
    requires Lawful(g)
    ensures Sum(g.n, Others(g)) == Dep(g, g.s)
    ensures 0.0 <= Closeness(g) <= 1.0
  {
    DepAtSource(g, Others(g));
    ClosenessBounded(g);
  }

  lemma UnitProduct(r: real, n: real, d: real)
    requires 0.0 <= r <= n && r <= d
    ensures n > 0.0 && d > 0.0 ==> 0.0 <= r / n * (r / d) <= 1.0
  {
    if n > 0.0 && d > 0.0 {
      RatioUnit(r, n);
      RatioUnit(r, d);
      var a, b := r / n, r / d;
      assert 0.0 <= a * b <= 1.0;
    }
  }
}
