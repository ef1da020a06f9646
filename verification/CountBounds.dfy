/** How large shortest-path counts can get: they fit an int on every graph of a given
    size exactly when it has at most 60 vertices. */
module CountBounds {
  import opened Graphs
  import opened Distances
  import opened Sets
  import opened Sums
  import opened PathCounts
  import opened Dependency
  import opened Brandes
  import opened ClosenessLaw

  function Pow3(n: nat): (p: nat)
    ensures p >= 1
  {
    if n == 0 then 1 else 3 * Pow3(n - 1)
  }

  lemma {:induction false} Pow3Sum(a: nat, b: nat)
    ensures Pow3(a + b) == Pow3(a) * Pow3(b)
  {
    if a > 0 {
      Pow3Sum(a - 1, b);
      assert Pow3(a + b) == 3 * Pow3(a - 1 + b);
    }
  }

  lemma {:induction false} Pow3Grows(a: nat, b: nat)
    requires a <= b
    ensures Pow3(a) <= Pow3(b)
  {
    if a < b { Pow3Grows(a, b - 1); }
  }

  /** Of the ways to split n vertices into layers, threes multiply to the most. */
  lemma {:induction false} CubeOfWidth(k: nat)
    ensures k * k * k <= Pow3(k)
  {
    if k > 3 {
      CubeOfWidth(k - 1);
      CubeStep(k - 1);
    } else if k == 3 {
      assert Pow3(3) == 27;
    }
  }

  lemma CubeStep(k: nat)
    requires k >= 3
    ensures (k + 1) * (k + 1) * (k + 1) <= 3 * (k * k * k)
  {
    assert k * k >= 3 * k;
    assert k * k * k >= 3 * (k * k) by { assert k * (k * k) >= 3 * (k * k); }
    assert (k + 1) * (k + 1) * (k + 1) == k * k * k + 3 * (k * k) + 3 * k + 1;
  }

  // ------------------------------------------------------------ the upper bound

  ghost predicate CubeWithin(x: real, n: nat) {
    x >= 0.0 && x * x * x <= Pow3(n) as real
  }

  function Times(k: nat, x: real): real {
    k as real * x
  }

  lemma TimesSteps(k: nat, x: real)
    ensures Times(0, x) == 0.0 && Times(k + 1, x) == Times(k, x) + x
  {
  }

  /** w times as many, over w more vertices. */
  lemma CubeTimes(x: real, w: nat, n: nat)
    requires CubeWithin(x, n)
    ensures CubeWithin(Times(w, x), n + w)
  {
    CubeOfWidth(w);
    Pow3Sum(n, w);
    RealCube(w);
    hide Pow3;
    CubeProduct(x, w as real, Pow3(n) as real, Pow3(w) as real, (w * w * w) as real);
  }

  lemma RealCube(w: nat)
    ensures (w * w * w) as real == w as real * w as real * w as real
  {
    assert (w * w) as real == w as real * w as real;
    assert (w * w * w) as real == (w * w) as real * w as real;
  }

  lemma CubeProduct(x: real, w: real, p: real, q: real, c: real)
    requires x >= 0.0 && w >= 0.0 && x * x * x <= p && c == w * w * w <= q
    ensures (w * x) * (w * x) * (w * x) <= p * q
  {
    var x3 := x * x * x;
    assert x3 >= 0.0 && c >= 0.0;
    assert (w * x) * (w * x) * (w * x) == c * x3;
    assert c * x3 <= q * x3;
    assert q * x3 <= q * p;
  }

  /** The vertices strictly between the source and distance d. */
  ghost function Nearer(dist: seq<int>, d: int): set<nat> {
    set v: nat | v < |dist| && 0 < dist[v] < d
  }

  ghost function Level(dist: seq<int>, d: int): set<nat> {
    set v: nat | v < |dist| && dist[v] == d
  }

  ghost predicate AtMostOn(n: nat, members: set<nat>, f: int -> real, most: real) {
    most >= 0.0 && forall v: nat :: v < n ==> f(v) <= if v in members then most else 0.0
  }

  lemma {:induction false} SumOver(n: nat, members: set<nat>, f: int -> real, most: real)
    requires members <= Below(n) && AtMostOn(n, members, f, most)
    ensures Sum(n, f) <= Times(|members|, most)
    decreases n
  {
    hide Times, AtMostOn;
    TimesSteps(0, most);
    if n > 0 {
      WithoutLast(n, members, f, most);
      SumOver(n - 1, members - {n - 1}, f, most);
      TimesSteps(|members - {n - 1}|, most);
    }
  }

  lemma WithoutLast(n: nat, members: set<nat>, f: int -> real, most: real)
    requires n > 0 && members <= Below(n) && AtMostOn(n, members, f, most)
    ensures members - {n - 1} <= Below(n - 1) && AtMostOn(n - 1, members - {n - 1}, f, most)
    ensures f(n - 1) <= if n - 1 in members then most else 0.0
    ensures |members| == |members - {n - 1}| + if n - 1 in members then 1 else 0
  {
    assert n - 1 !in members ==> members - {n - 1} == members;
  }

  ghost function Below(n: nat): (r: set<nat>)
    ensures |r| == n && forall v: nat :: v in r <==> v < n
  {
    if n == 0 then {} else Below(n - 1) + {n - 1}
  }

  ghost predicate CountWithin(adj: Graph, s: nat, dist: seq<int>, u: nat, n: nat)
    requires |dist| == |adj|
  {
    u < |adj| && CubeWithin(Count(adj, s, dist, u, {}), n)
  }

  /** A bound on the counts of several vertices that is itself within the cube. */
  lemma {:induction false} CommonBound(adj: Graph, s: nat, dist: seq<int>, members: set<nat>, n: nat) returns (most: real)
    requires |dist| == |adj| && forall u :: u in members ==> CountWithin(adj, s, dist, u, n)
    ensures CubeWithin(most, n) && forall u :: u in members ==> Count(adj, s, dist, u, {}) <= most
    decreases |members|
  {
    if members == {} {
      most := 0.0;
    } else {
      var u :| u in members;
      most := CommonBound(adj, s, dist, members - {u}, n);
      assert CountWithin(adj, s, dist, u, n);
      if most < Count(adj, s, dist, u, {}) { most := Count(adj, s, dist, u, {}); }
    }
  }

  /** One level further: all of the level before may lead on. */
  lemma CountCubeStep(adj: Graph, s: nat, dist: seq<int>, t: nat, n: nat)
    requires ValidGraph(adj) && TrueDist(adj, s, dist) && t < |adj| && dist[t] >= 2 && n == |Nearer(dist, dist[t] - 1)|
    requires forall u :: u in Level(dist, dist[t] - 1) ==> CountWithin(adj, s, dist, u, n)
    ensures CountWithin(adj, s, dist, t, |Nearer(dist, dist[t])|)
  {
    hide Count, ValidGraph, HasWalk, CubeWithin, Times;
    var d := dist[t];
    var level := Level(dist, d - 1);
    CountFromPreds(adj, s, dist, t, {});
    var most := CommonBound(adj, s, dist, level, n);
    WithinNonNegative(most, n);
    PredsInLevel(adj, s, dist, t, level, most);
    assert Nearer(dist, d) == Nearer(dist, d - 1) + level;
    UnionSize(Nearer(dist, d - 1), level, Nearer(dist, d));
    CubeTimes(most, |level|, n);
    CountNonNegative(adj, s, dist, t);
    CubeBelow(Count(adj, s, dist, t, {}), Times(|level|, most), n + |level|);
  }

  lemma WithinNonNegative(x: real, n: nat)
    requires CubeWithin(x, n)
    ensures x >= 0.0
  {
  }

  lemma CountNonNegative(adj: Graph, s: nat, dist: seq<int>, t: nat)
    requires |dist| == |adj|
    ensures Count(adj, s, dist, t, {}) >= 0.0
  {
  }

  /** The cube of a shortest-path count is at most three to the power of the vertices
      strictly between the ends. */
  lemma {:induction false} CountCube(adj: Graph, s: nat, dist: seq<int>, t: nat)
    requires ValidGraph(adj) && TrueDist(adj, s, dist) && t < |adj| && dist[t] >= 0
    ensures CountWithin(adj, s, dist, t, |Nearer(dist, dist[t])|)
    decreases dist[t]
  {
    hide Count, ValidGraph, HasWalk;
    CountAtSource(adj, s, dist);
    if dist[t] == 0 {
      if t != s { FarFromSource(adj, s, dist, t); }
    } else if dist[t] == 1 {
      CountFromPreds(adj, s, dist, t, {});
      OnePred(adj, s, dist, t);
      CountNonNegative(adj, s, dist, t);
      CubeBelow(Count(adj, s, dist, t, {}), 1.0, |Nearer(dist, 1)|);
    } else {
      var n := |Nearer(dist, dist[t] - 1)|;
      forall u | u in Level(dist, dist[t] - 1) ensures CountWithin(adj, s, dist, u, n) { CountCube(adj, s, dist, u); }
      CountCubeStep(adj, s, dist, t, n);
    }
  }

  lemma CubeBelow(x: real, y: real, n: nat)
    requires 0.0 <= x <= y && CubeWithin(y, n)
    ensures CubeWithin(x, n)
  {
    CubeGrows(x, y);
  }

  lemma CubeGrows(x: real, y: real)
    requires 0.0 <= x <= y
    ensures x * x * x <= y * y * y
  {
    assert x * x <= y * x <= y * y;
    assert x * x * x <= y * y * x <= y * y * y;
  }

  lemma OnePred(adj: Graph, s: nat, dist: seq<int>, t: nat)
    requires ValidGraph(adj) && TrueDist(adj, s, dist) && t < |adj| && dist[t] == 1
    requires Count(adj, s, dist, s, {}) == 1.0 && Count(adj, s, dist, t, {}) == Sum(|adj|, PredCount(adj, s, dist, t, {}))
    ensures Count(adj, s, dist, t, {}) <= 1.0
  {
    forall u | 0 <= u < |adj| && u != s
      ensures PredCount(adj, s, dist, t, {})(u) == 0.0
    {
      FarFromSource(adj, s, dist, u);
    }
    SumSingle(|adj|, s, PredCount(adj, s, dist, t, {}));
  }

  lemma PredsInLevel(adj: Graph, s: nat, dist: seq<int>, t: nat, level: set<nat>, most: real)
    requires |dist| == |adj| && t < |adj| && level == Level(dist, dist[t] - 1) && most >= 0.0
    requires forall u :: u in level ==> Count(adj, s, dist, u, {}) <= most
    ensures Sum(|adj|, PredCount(adj, s, dist, t, {})) <= Times(|level|, most)
  {
    hide Count;
    SumOver(|adj|, level, PredCount(adj, s, dist, t, {}), most);
  }

  lemma BetweenEnds(dist: seq<int>, s: nat, t: nat)
    requires s < |dist| && t < |dist| && s != t && dist[s] == 0
    ensures |Nearer(dist, dist[t])| + 2 <= |dist|
  {
    assert |{s, t}| == 2;
    Apart(Nearer(dist, dist[t]), {s, t}, Below(|dist|));
  }

  lemma Pow3Values()
    ensures Pow3(19) == 1162261467
    ensures Pow3(58) == 4710128697246244834921603689
  {
    assert Pow3(5) == 243;
    Pow3Sum(5, 4);
    Pow3Sum(5, 5);
    Pow3Sum(10, 9);
    Pow3Sum(19, 10);
    Pow3Sum(29, 29);
  }

  /** 3^58 is less than the cube of 2^31. */
  lemma CubeRoot(x: real, n: nat)
    requires CubeWithin(x, n) && n <= 58
    ensures x < INT_MAX as real
  {
    Pow3Values();
    Pow3Grows(n, 58);
    hide Pow3;
    if x >= INT_MAX as real { CubeGrows(INT_MAX as real, x); }
  }

  /** On a graph of at most 60 vertices every path count fits an int. */
  lemma SmallGraphsFit(adj: Graph, s: nat)
    requires ValidGraph(adj) && s < |adj| <= 60
    ensures CountsFit(adj, s)
  {
    var dist := DistFrom(adj, s);
    forall t | 0 <= t < |adj|
      ensures CountsFrom(adj, s).sigma(t) <= INT_MAX as real
    {
      CountAtSource(adj, s, dist);
      if dist[t] >= 0 && t != s {
        CountCube(adj, s, dist, t);
        BetweenEnds(dist, s, t);
        CubeRoot(Count(adj, s, dist, t, {}), |Nearer(dist, dist[t])|);
      }
    }
  }

  // ------------------------------------------------------------- a graph that overflows

  /** One vertex, nineteen layers of three, one of two, one vertex; further vertices
      stand alone. */
  function LayerOf(v: int): int {
    if v < 0 || v > 60 then -1 else if v == 60 then 21 else (v + 2) / 3
  }

  function First(i: nat): nat {
    if i == 0 then 0 else if i == 21 then 60 else 3 * i - 2
  }

  function Width(i: nat): nat {
    if i == 0 || i == 21 then 1 else if i == 20 then 2 else 3
  }

  lemma LayerRange(v: int, i: nat)
    requires i <= 21
    ensures LayerOf(v) == i <==> First(i) <= v < First(i) + Width(i)
  {
  }

  predicate Consecutive(u: int, v: int) {
    LayerOf(u) >= 0 && LayerOf(v) >= 0 && (LayerOf(u) == LayerOf(v) + 1 || LayerOf(v) == LayerOf(u) + 1)
  }

  function Near(u: nat, m: nat): (r: seq<nat>)
    ensures forall v :: v in r <==> v < m && Consecutive(u, v)
    ensures Increasing(r)
  {
    if m == 0 then []
    else
      var rest := Near(u, m - 1);
      assert forall i :: 0 <= i < |rest| ==> rest[i] in rest;
      if Consecutive(u, m - 1) then rest + [m - 1] else rest
  }

  function Layered(n: nat): (adj: Graph)
    ensures |adj| == n
  {
    seq(n, u requires 0 <= u < n => Near(u, n))
  }

  lemma LayeredValid(n: nat)
    ensures ValidGraph(Layered(n))
  {
    var adj := Layered(n);
    forall u, i | 0 <= u < n && 0 <= i < |adj[u]| ensures adj[u][i] < n { assert adj[u][i] in adj[u]; }
  }

  function LayerDist(n: nat): (dist: seq<int>)
    ensures |dist| == n
  {
    seq(n, LayerOf)
  }

  lemma {:induction false} LayerWalk(n: nat, t: nat, i: nat)
    requires n >= 61 && t < n && LayerOf(t) == i
    ensures HasWalk(Layered(n), 0, t, i)
  {
    if i == 0 {
      assert t == 0;
      assert IsWalk(Layered(n), 0, 0, [0]);
    } else {
      var u := First(i - 1);
      LayerRange(u, i - 1);
      LayerWalk(n, u, i - 1);
      var p :| IsWalk(Layered(n), 0, u, p) && |p| == i;
      assert Consecutive(u, t);
      assert t in Layered(n)[u];
      WalkOn(Layered(n), 0, u, t, p);
    }
  }

  lemma {:induction false} WalkLayers(n: nat, t: nat, p: seq<nat>)
    requires n >= 61 && IsWalk(Layered(n), 0, t, p)
    ensures 0 <= LayerOf(t) < |p|
    decreases |p|
  {
    if |p| > 1 {
      WalkBack(Layered(n), 0, t, p);
      WalkLayers(n, p[|p| - 2], p[..|p| - 1]);
      assert Consecutive(p[|p| - 2], t);
    }
  }

  lemma LayersAreDistances(n: nat)
    requires n >= 61
    ensures TrueDist(Layered(n), 0, LayerDist(n))
  {
    var adj, dist := Layered(n), LayerDist(n);
    forall t | 0 <= t < n && dist[t] >= 0 ensures HasWalk(adj, 0, t, dist[t]) { LayerWalk(n, t, LayerOf(t)); }
    forall t: nat, p | t < n && IsWalk(adj, 0, t, p) ensures 0 <= dist[t] < |p| { WalkLayers(n, t, p); }
  }

  lemma {:induction false} SumRange(n: nat, lo: nat, hi: nat, c: real, f: int -> real)
    requires lo <= hi <= n && forall v: int :: 0 <= v < n ==> f(v) == if lo <= v < hi then c else 0.0
    ensures Sum(n, f) == (hi - lo) as real * c
  {
    if n == 0 {
    } else if hi == n && lo < n {
      SumRange(n - 1, lo, n - 1, c, f);
      assert (n - lo) as real * c == (n - 1 - lo) as real * c + c;
    } else if lo == n {
      SumRange(n - 1, n - 1, n - 1, c, f);
    } else {
      SumRange(n - 1, lo, hi, c, f);
    }
  }

  /** The paths to a vertex of layer i. */
  function Paths(i: nat): nat {
    if i == 0 then 1 else Width(i - 1) * Paths(i - 1)
  }

  lemma {:induction false} PathsTriple(i: nat)
    requires 1 <= i <= 20
    ensures Paths(i) == Pow3(i - 1)
  {
    if i == 1 { assert Paths(0) == 1; } else { PathsTriple(i - 1); }
  }

  /** The vertices from lo to hi - 1 have c paths each. */
  ghost predicate AllCount(n: nat, lo: nat, hi: nat, c: real) {
    forall u: nat :: lo <= u < hi ==> u < n && Count(Layered(n), 0, LayerDist(n), u, {}) == c
  }

  lemma {:induction false} LayerCount(n: nat, i: nat, t: nat)
    requires n >= 61 && i <= 21 && t < n && LayerOf(t) == i
    ensures Count(Layered(n), 0, LayerDist(n), t, {}) == Paths(i) as real
  {
    hide Count, ValidGraph, TrueDist, Layered;
    if i == 0 {
      LayeredValid(n);
      LayersAreDistances(n);
      CountAtSource(Layered(n), 0, LayerDist(n));
    } else {
      var lo, hi := First(i - 1), First(i - 1) + Width(i - 1);
      assert AllCount(n, lo, hi, Paths(i - 1) as real) by {
        forall u: nat | lo <= u < hi
          ensures u < n && Count(Layered(n), 0, LayerDist(n), u, {}) == Paths(i - 1) as real
        {
          LayerRange(u, i - 1);
          LayerCount(n, i - 1, u);
        }
      }
      LayerCountStep(n, i, t, lo, hi);
    }
  }

  lemma LayerCountStep(n: nat, i: nat, t: nat, lo: nat, hi: nat)
    requires n >= 61 && 1 <= i <= 21 && t < n && LayerOf(t) == i && lo == First(i - 1) && hi == lo + Width(i - 1)
    requires AllCount(n, lo, hi, Paths(i - 1) as real)
    ensures Count(Layered(n), 0, LayerDist(n), t, {}) == Paths(i) as real
  {
    hide Count, ValidGraph, TrueDist, Layered, First, PredCount, Sum, AllCount;
    LayeredValid(n);
    LayersAreDistances(n);
    CountFromPreds(Layered(n), 0, LayerDist(n), t, {});
    SumOfLayer(n, i, t, lo, hi, Paths(i - 1) as real);
    RealProduct(Width(i - 1), Paths(i - 1));
  }

  lemma RealProduct(a: nat, b: nat)
    ensures (a * b) as real == a as real * b as real
  {
  }

  lemma SumOfLayer(n: nat, i: nat, t: nat, lo: nat, hi: nat, c: real)
    requires n >= 61 && 1 <= i <= 21 && t < n && LayerOf(t) == i && lo == First(i - 1) && hi == lo + Width(i - 1)
    requires AllCount(n, lo, hi, c)
    ensures Sum(n, PredCount(Layered(n), 0, LayerDist(n), t, {})) == Width(i - 1) as real * c
  {
    hide Count, Layered, Pred;
    var f := PredCount(Layered(n), 0, LayerDist(n), t, {});
    forall u: int | 0 <= u < n
      ensures f(u) == if lo <= u < hi then c else 0.0
    {
      LayerRange(u, i - 1);
      LayerPred(n, u, t);
    }
    SumRange(n, lo, hi, c, f);
  }

  lemma LayerPred(n: nat, u: nat, t: nat)
    requires u < n && t < n && LayerOf(t) >= 1
    ensures Pred(Layered(n), LayerDist(n), u, t) <==> LayerOf(u) == LayerOf(t) - 1
  {
    assert t in Layered(n)[u] <==> Consecutive(u, t);
  }

  /** On 61 vertices or more some path count overflows. */
  lemma LayeredOverflows(n: nat)
    requires n >= 61
    ensures ValidGraph(Layered(n)) && !CountsFit(Layered(n), 0)
  {
    var adj, dist := Layered(n), LayerDist(n);
    LayeredValid(n);
    LayersAreDistances(n);
    DistUnique(adj, 0, dist, DistFrom(adj, 0));
    LayerCount(n, 21, 60);
    PathsTriple(20);
    Pow3Values();
    assert Paths(21) == 2 * Paths(20);
    assert CountsFrom(adj, 0).sigma(60) > INT_MAX as real;
  }

  /** Path counts fit an int on every graph of n vertices exactly when n is at most 60. */
  lemma CountsFitUpTo60(n: nat)
    ensures (forall adj: Graph, s: nat :: ValidGraph(adj) && s < |adj| == n ==> CountsFit(adj, s)) <==> n <= 60
  {
    if n <= 60 {
      forall adj: Graph, s: nat | ValidGraph(adj) && s < |adj| == n ensures CountsFit(adj, s) { SmallGraphsFit(adj, s); }
    } else {
      LayeredOverflows(n);
    }
  }
}
