/** The triangle count and the clustering coefficient. */
module Triangles {
  import opened Graphs
  import opened Sums
  import opened CycleCounter

  predicate Adjacent(adj: Graph, a: nat, b: nat) {
    a < |adj| && b < |adj| && b in adj[a]
  }

  predicate Corners(adj: Graph, a: nat, b: nat, c: nat) {
    Adjacent(adj, a, b) && Adjacent(adj, b, c) && Adjacent(adj, c, a)
  }

  /** The triangles of the graph, as sets of three pairwise adjacent vertices. */
  ghost function TriangleSets(adj: Graph): set<set<nat>> {
    set a: nat, b: nat, c: nat | a < |adj| && b < |adj| && c < |adj| && Corners(adj, a, b, c) :: {a, b, c}
  }

  ghost function TrianglesAt(adj: Graph, v: nat): set<set<nat>> {
    set t | t in TriangleSets(adj) && v in t
  }

  /** f maps s one-to-one onto t. */
  lemma {:induction false} BijectionSize<A(!new), B(!new)>(s: set<A>, t: set<B>, f: A -> B)
    requires forall x, y :: x in s && y in s && f(x) == f(y) ==> x == y
    requires forall x :: x in s ==> f(x) in t
    requires forall y :: y in t ==> exists x :: x in s && f(x) == y
    ensures |s| == |t|
  {
    if s == {} {
      assert t == {};
    } else {
      var x :| x in s;
      BijectionSize(s - {x}, t - {f(x)}, f);
    }
  }

  // --------------------------------------------------- the triangles at v

  /** The adjacent pairs of neighbours visited before the pair i, j. */
  ghost function Pairs(adj: Graph, nb: seq<nat>, i: int, j: int): set<(int, int)> {
    set p, q | 0 <= p < |nb| && 0 <= q < |nb| && p < q && (p < i || (p == i && q < j)) && Adjacent(adj, nb[p], nb[q]) :: (p, q)
  }

  lemma PairsNext(adj: Graph, nb: seq<nat>, i: nat, j: nat)
    requires i < j < |nb|
    ensures |Pairs(adj, nb, i, j + 1)| == |Pairs(adj, nb, i, j)| + if Adjacent(adj, nb[i], nb[j]) then 1 else 0
  {
    assert Pairs(adj, nb, i, j + 1) == Pairs(adj, nb, i, j) + if Adjacent(adj, nb[i], nb[j]) then {(i, j)} else {};
  }

  lemma PairsRow(adj: Graph, nb: seq<nat>, i: nat)
    ensures Pairs(adj, nb, i, |nb|) == Pairs(adj, nb, i + 1, i + 2)
    ensures Pairs(adj, nb, 0, 1) == {}
  {
  }

  method EdgesAmongNeighbours(adj: Graph, v: nat) returns (edges: nat)
    requires ValidGraph(adj) && v < |adj|
    ensures edges == |TrianglesAt(adj, v)|
    ensures 2 * edges <= |adj[v]| * (|adj[v]| - 1)
  {
    hide Pairs;
    var nb := adj[v];
    edges := 0;
    PairsRow(adj, nb, 0);
    ghost var visited := 0;
    for i := 0 to |nb|
      invariant edges == |Pairs(adj, nb, i, i + 1)| <= visited && 2 * visited == i * (2 * |nb| - i - 1)
    {
      ghost var row := visited;
      for j := i + 1 to |nb|
        invariant edges == |Pairs(adj, nb, i, j)| <= visited == row + j - i - 1
      {
        var a, b := nb[i], nb[j];
        PairsNext(adj, nb, i, j);
        if b in adj[a] { edges := edges + 1; }
        visited := visited + 1;
      }
      PairsRow(adj, nb, i);
      assert 2 * row + 2 * (|nb| - i - 1) == (i + 1) * (2 * |nb| - (i + 1) - 1);
    }
    PairsAreTriangles(adj, v);
  }

  ghost function TriangleOf(nb: seq<nat>, v: nat): ((int, int)) -> set<nat> {
    (pq: (int, int)) => if 0 <= pq.0 < |nb| && 0 <= pq.1 < |nb| then {v, nb[pq.0], nb[pq.1]} else {}
  }

  lemma PairDetermined(nb: seq<nat>, v: nat, i: nat, j: nat, p: nat, q: nat)
    requires Increasing(nb) && v !in nb && i < j < |nb| && p < q < |nb|
    requires {v, nb[i], nb[j]} == {v, nb[p], nb[q]}
    ensures p == i && q == j
  {
    assert nb[i] in {v, nb[p], nb[q]} && nb[j] in {v, nb[p], nb[q]};
    assert nb[p] in {v, nb[i], nb[j]} && nb[q] in {v, nb[i], nb[j]};
  }

  lemma OtherTwo(adj: Graph, v: nat, t: set<nat>) returns (x: nat, y: nat)
    requires ValidGraph(adj) && t in TrianglesAt(adj, v)
    ensures x < y && t == {v, x, y} && Adjacent(adj, v, x) && Adjacent(adj, v, y) && Adjacent(adj, x, y)
  {
    var a: nat, b: nat, c: nat :| a < |adj| && b < |adj| && c < |adj| && Corners(adj, a, b, c) && t == {a, b, c};
    x, y := OrderedCorners(adj, a, b, c, v);
  }

  lemma OrderedCorners(adj: Graph, a: nat, b: nat, c: nat, v: nat) returns (x: nat, y: nat)
    requires ValidGraph(adj) && Corners(adj, a, b, c) && v in {a, b, c}
    ensures x < y && {a, b, c} == {v, x, y} && Adjacent(adj, v, x) && Adjacent(adj, v, y) && Adjacent(adj, x, y)
  {
    if v == a { x, y := b, c; } else if v == b { x, y := a, c; } else { x, y := a, b; }
    if y < x { x, y := y, x; }
  }

  lemma PairGivesTriangle(adj: Graph, v: nat, p: nat, q: nat)
    requires ValidGraph(adj) && v < |adj| && p < q < |adj[v]| && Adjacent(adj, adj[v][p], adj[v][q])
    ensures {v, adj[v][p], adj[v][q]} in TrianglesAt(adj, v)
  {
    var a, b := adj[v][p], adj[v][q];
    assert Corners(adj, v, a, b);
  }

  lemma TriangleGivesPair(adj: Graph, v: nat, t: set<nat>) returns (p: nat, q: nat)
    requires ValidGraph(adj) && v < |adj| && t in TrianglesAt(adj, v)
    ensures p < q < |adj[v]| && Adjacent(adj, adj[v][p], adj[v][q]) && t == {v, adj[v][p], adj[v][q]}
  {
    var x, y := OtherTwo(adj, v, t);
    p :| 0 <= p < |adj[v]| && adj[v][p] == x;
    q :| 0 <= q < |adj[v]| && adj[v][q] == y;
  }

  ghost function AllPairs(adj: Graph, v: nat): set<(int, int)>
    requires v < |adj|
  {
    Pairs(adj, adj[v], |adj[v]|, |adj[v]| + 1)
  }

  lemma PairIsTriangle(adj: Graph, v: nat, x: (int, int), y: (int, int))
    requires ValidGraph(adj) && v < |adj| && x in AllPairs(adj, v)
    ensures TriangleOf(adj[v], v)(x) in TrianglesAt(adj, v)
    ensures y in AllPairs(adj, v) && TriangleOf(adj[v], v)(x) == TriangleOf(adj[v], v)(y) ==> x == y
  {
    hide TrianglesAt;
    PairGivesTriangle(adj, v, x.0, x.1);
    if y in AllPairs(adj, v) && TriangleOf(adj[v], v)(x) == TriangleOf(adj[v], v)(y) {
      PairDetermined(adj[v], v, x.0, x.1, y.0, y.1);
    }
  }

  lemma TriangleIsPair(adj: Graph, v: nat, t: set<nat>)
    requires ValidGraph(adj) && v < |adj| && t in TrianglesAt(adj, v)
    ensures exists x :: x in AllPairs(adj, v) && TriangleOf(adj[v], v)(x) == t
  {
    hide TrianglesAt;
    var p, q := TriangleGivesPair(adj, v, t);
    assert (p, q) in AllPairs(adj, v) && TriangleOf(adj[v], v)((p, q)) == t;
  }

  lemma PairsAreTriangles(adj: Graph, v: nat)
    requires ValidGraph(adj) && v < |adj|
    ensures |Pairs(adj, adj[v], |adj[v]|, |adj[v]| + 1)| == |TrianglesAt(adj, v)|
  {
    hide TrianglesAt, TriangleOf, Pairs, ValidGraph;
    var pairs, f := AllPairs(adj, v), TriangleOf(adj[v], v);
    forall x, y | x in pairs && y in pairs && f(x) == f(y)
      ensures x == y
    {
      PairIsTriangle(adj, v, x, y);
    }
    forall x | x in pairs
      ensures f(x) in TrianglesAt(adj, v)
    {
      PairIsTriangle(adj, v, x, x);
    }
    forall t | t in TrianglesAt(adj, v)
      ensures exists x :: x in pairs && f(x) == t
    {
      TriangleIsPair(adj, v, t);
    }
    BijectionSize(pairs, TrianglesAt(adj, v), f);
  }

  // ------------------------------------------------------- all the vertices

  ghost function CountAt(triangles: set<set<nat>>): int -> real {
    v => |set t | t in triangles && v in t| as real
  }

  lemma ThreeCorners(n: nat, t: set<nat>, a: nat, b: nat, c: nat, f: int -> real)
    requires t == {a, b, c} && a < n && b < n && c < n && a != b && b != c && a != c
    requires forall v :: 0 <= v < n ==> f(v) == if v in t then 1.0 else 0.0
    ensures Sum(n, f) == 3.0
  {
    var fa, fb, fc := (v: int) => if v == a then 1.0 else 0.0, (v: int) => if v == b then 1.0 else 0.0, (v: int) => if v == c then 1.0 else 0.0;
    var ab := (v: int) => fa(v) + fb(v);
    SumSingle(n, a, fa);
    SumSingle(n, b, fb);
    SumSingle(n, c, fc);
    SumPlus(n, fa, fb, ab);
    SumPlus(n, ab, fc, f);
  }

  lemma CountSplit(triangles: set<set<nat>>, t: set<nat>, v: int)
    requires t in triangles
    ensures CountAt(triangles)(v) == CountAt(triangles - {t})(v) + if v in t then 1.0 else 0.0
  {
    var at, rest := set u | u in triangles && v in u, set u | u in triangles - {t} && v in u;
    assert at == rest + if v in t then {t} else {};
  }

  lemma {:induction false} TriangleCorners(adj: Graph, t: set<nat>, f: int -> real)
    requires ValidGraph(adj) && t in TriangleSets(adj)
    requires forall v :: 0 <= v < |adj| ==> f(v) == if v in t then 1.0 else 0.0
    ensures Sum(|adj|, f) == 3.0
  {
    var a: nat, b: nat, c: nat :| a < |adj| && b < |adj| && c < |adj| && Corners(adj, a, b, c) && t == {a, b, c};
    ThreeCorners(|adj|, t, a, b, c, f);
  }

  /** Counted at each vertex, every triangle is counted three times. */
  lemma {:induction false} CountedThrice(adj: Graph, triangles: set<set<nat>>)
    requires ValidGraph(adj) && triangles <= TriangleSets(adj)
    ensures Sum(|adj|, CountAt(triangles)) == 3.0 * |triangles| as real
  {
    hide TriangleSets;
    if triangles == {} {
      SumSingle(|adj|, -1, CountAt(triangles));
    } else {
      var t :| t in triangles;
      var rest := triangles - {t};
      CountedThrice(adj, rest);
      var here := (v: int) => if v in t then 1.0 else 0.0;
      TriangleCorners(adj, t, here);
      forall v
        ensures CountAt(triangles)(v) == CountAt(rest)(v) + here(v)
      {
        CountSplit(triangles, t, v);
      }
      SumPlus(|adj|, CountAt(rest), here, CountAt(triangles));
    }
  }

  /** The unordered pairs of a list of neighbours, and those of them that are adjacent. */
  ghost function Couples(nb: seq<nat>): set<(nat, nat)> {
    set a, b | a in nb && b in nb && a < b :: (a, b)
  }

  ghost function Linked(adj: Graph, nb: seq<nat>): set<(nat, nat)> {
    set a, b | a in nb && b in nb && a < b && Adjacent(adj, a, b) :: (a, b)
  }

  /** The share of pairs of neighbours that are adjacent, 0 without a pair. */
  ghost function LinkedShare(adj: Graph): int -> real {
    v => if 0 <= v < |adj| && Couples(adj[v]) != {} then |Linked(adj, adj[v])| as real / |Couples(adj[v])| as real else 0.0
  }

  ghost function PairedWith(nb: seq<nat>, x: nat): set<(nat, nat)> {
    set a | a in nb :: (a, x)
  }

  lemma {:induction false} CouplesGrow(nb: seq<nat>, x: nat)
    requires forall a :: a in nb ==> a < x
    ensures Couples(nb + [x]) == Couples(nb) + PairedWith(nb, x) && Couples(nb) * PairedWith(nb, x) == {}
  {
  }

  lemma {:induction false} PairedGrow(nb: seq<nat>, y: nat, x: nat)
    requires y !in nb
    ensures PairedWith(nb + [y], x) == PairedWith(nb, x) + {(y, x)} && (y, x) !in PairedWith(nb, x)
  {
  }

  lemma LastIsNew(nb: seq<nat>, front: seq<nat>, y: nat)
    requires Increasing(nb) && nb == front + [y]
    ensures Increasing(front) && y !in front && forall a :: a in front ==> a < y
  {
    forall i | 0 <= i < |front| ensures front[i] < y { assert nb[i] < nb[|front|]; }
    forall i, j | 0 <= i < j < |front| ensures front[i] < front[j] { assert nb[i] < nb[j]; }
  }

  lemma NonePaired(x: nat)
    ensures |PairedWith([], x)| == 0
  {
    assert PairedWith([], x) == {};
  }

  lemma {:induction false} PairedCount(nb: seq<nat>, x: nat)
    requires Increasing(nb)
    ensures |PairedWith(nb, x)| == |nb|
  {
    hide PairedWith, Increasing;
    if nb == [] {
      NonePaired(x);
    } else {
      var front, y := nb[..|nb| - 1], nb[|nb| - 1];
      assert nb == front + [y];
      LastIsNew(nb, front, y);
      PairedCount(front, x);
      PairedGrow(front, y, x);
    }
  }

  lemma OneMoreNeighbour(couples: nat, more: nat, k: nat, m: nat)
    requires 2 * couples == k * (k - 1) && more == couples + k && m == k + 1
    ensures 2 * more == m * (m - 1)
  {
    assert (k + 1) * k == k * (k - 1) + 2 * k;
  }

  lemma NoCouples()
    ensures |Couples([])| == 0
  {
    assert Couples([]) == {};
  }

  lemma {:induction false} CouplesCount(nb: seq<nat>)
    requires Increasing(nb)
    ensures 2 * |Couples(nb)| == |nb| * (|nb| - 1)
  {
    hide Couples, PairedWith, Increasing;
    if nb == [] {
      NoCouples();
    } else {
      var front, x := nb[..|nb| - 1], nb[|nb| - 1];
      assert nb == front + [x];
      LastIsNew(nb, front, x);
      CouplesCount(front);
      CouplesGrow(front, x);
      PairedCount(front, x);
      OneMoreNeighbour(|Couples(front)|, |Couples(nb)|, |front|, |nb|);
    }
  }

  ghost function VerticesOf(nb: seq<nat>): ((int, int)) -> (nat, nat) {
    (x: (int, int)) => if 0 <= x.0 < |nb| && 0 <= x.1 < |nb| then (nb[x.0], nb[x.1]) else (0, 0)
  }

  lemma LinkedPair(adj: Graph, v: nat, x: (int, int), y: (int, int))
    requires ValidGraph(adj) && v < |adj| && x in AllPairs(adj, v) && y in AllPairs(adj, v)
    ensures VerticesOf(adj[v])(x) in Linked(adj, adj[v])
    ensures VerticesOf(adj[v])(x) == VerticesOf(adj[v])(y) ==> x == y
  {
  }

  lemma PairLinked(adj: Graph, v: nat, d: (nat, nat))
    requires ValidGraph(adj) && v < |adj| && d in Linked(adj, adj[v])
    ensures exists x :: x in AllPairs(adj, v) && VerticesOf(adj[v])(x) == d
  {
    var nb := adj[v];
    var p :| 0 <= p < |nb| && nb[p] == d.0;
    var q :| 0 <= q < |nb| && nb[q] == d.1;
    assert (p, q) in AllPairs(adj, v) && VerticesOf(nb)((p, q)) == d;
  }

  lemma LinkedAreTriangles(adj: Graph, v: nat)
    requires ValidGraph(adj) && v < |adj|
    ensures |Linked(adj, adj[v])| == |TrianglesAt(adj, v)|
  {
    hide Linked, Pairs, VerticesOf, TrianglesAt, ValidGraph;
    PairsAreTriangles(adj, v);
    var pairs, f := AllPairs(adj, v), VerticesOf(adj[v]);
    forall x, y | x in pairs && y in pairs
      ensures f(x) in Linked(adj, adj[v]) && (f(x) == f(y) ==> x == y)
    {
      LinkedPair(adj, v, x, y);
    }
    forall d | d in Linked(adj, adj[v]) ensures exists x :: x in pairs && f(x) == d { PairLinked(adj, v, d); }
    BijectionSize(pairs, Linked(adj, adj[v]), f);
  }

  lemma ShareIsLocal(adj: Graph, v: nat)
    requires ValidGraph(adj) && v < |adj|
    ensures LinkedShare(adj)(v) == LocalClustering(adj)(v)
  {
    hide Couples, Linked, TrianglesAt, Increasing;
    CouplesCount(adj[v]);
    LinkedAreTriangles(adj, v);
    SameShare(|adj[v]|, |Linked(adj, adj[v])|, |Couples(adj[v])|);
  }

  lemma SameShare(k: nat, linked: nat, couples: nat)
    requires 2 * couples == k * (k - 1)
    ensures k < 2 ==> couples == 0
    ensures k >= 2 ==>
              couples > 0 && k as real * (k as real - 1.0) != 0.0
              && linked as real / couples as real == 2.0 * linked as real / (k as real * (k as real - 1.0))
  {
    if k >= 2 {
      RealProduct(k, k - 1, k as real, k as real - 1.0);
      Halved(linked as real, couples as real, k as real * (k as real - 1.0));
    } else {
      FewPairs(k, couples);
    }
  }

  lemma Halved(t: real, c: real, kk: real)
    requires 2.0 * c == kk && c > 0.0
    ensures kk != 0.0 && t / c == 2.0 * t / kk
  {
    assert t / c * c == t;
    assert t / c * kk == 2.0 * t;
  }

  /** The triangle count and the mean clustering coefficient. */
  method TrianglesAndClustering(adj: Graph) returns (triangles: nat, clustering: real)
    requires ValidGraph(adj)
    ensures triangles == |TriangleSets(adj)|
    ensures 0.0 <= clustering <= 1.0
    ensures clustering == if |adj| == 0 then 0.0 else Sum(|adj|, LinkedShare(adj)) / |adj| as real
  {
    hide LocalClustering, LinkedShare, CountAt;
    forall v: nat | v < |adj| ensures LinkedShare(adj)(v) == LocalClustering(adj)(v) { ShareIsLocal(adj, v); }
    SumEqual(|adj|, LinkedShare(adj), LocalClustering(adj));
    var clusterSum, triangles3 := 0.0, 0;
    for v := 0 to |adj|
      invariant triangles3 as real == Sum(v, CountAt(TriangleSets(adj)))
      invariant clusterSum == Sum(v, LocalClustering(adj)) && 0.0 <= clusterSum <= v as real
    {
      var edges := EdgesAmongNeighbours(adj, v);
      LocalCounts(adj, v, edges);
      if |adj[v]| < 2 { continue; }
      clusterSum := clusterSum + 2.0 * edges as real / (|adj[v]| as real * (|adj[v]| as real - 1.0));
      triangles3 := triangles3 + edges;
    }
    CountedThrice(adj, TriangleSets(adj));
    assert triangles3 as real == (3 * |TriangleSets(adj)|) as real;
    triangles := triangles3 / 3;
    clustering := 0.0;
    if |adj| > 0 {
      clustering := clusterSum / |adj| as real;
    }
  }

  /** The fraction of pairs of neighbours of v that are adjacent. */
  ghost function LocalClustering(adj: Graph): int -> real {
    v => if 0 <= v < |adj| && |adj[v]| >= 2
         then 2.0 * |TrianglesAt(adj, v)| as real / (|adj[v]| as real * (|adj[v]| as real - 1.0)) else 0.0
  }

  lemma LocalCounts(adj: Graph, v: nat, edges: nat)
    requires v < |adj| && edges == |TrianglesAt(adj, v)| && 2 * edges <= |adj[v]| * (|adj[v]| - 1)
    ensures edges as real == CountAt(TriangleSets(adj))(v)
    ensures |adj[v]| < 2 ==> edges == 0 && LocalClustering(adj)(v) == 0.0
    ensures |adj[v]| >= 2 ==> Unit(LocalClustering(adj)(v))
    ensures |adj[v]| >= 2 ==> LocalClustering(adj)(v) == 2.0 * edges as real / (|adj[v]| as real * (|adj[v]| as real - 1.0))
  {
    assert TrianglesAt(adj, v) == set t | t in TriangleSets(adj) && v in t;
    if |adj[v]| >= 2 {
      ClusteringAt(adj, v, edges);
    } else {
      FewPairs(|adj[v]|, edges);
    }
    hide TrianglesAt, TriangleSets, LocalClustering;
  }

  lemma FewPairs(k: nat, edges: nat)
    requires k < 2 && 2 * edges <= k * (k - 1)
    ensures edges == 0
  {
  }

  predicate Unit(x: real) {
    0.0 <= x <= 1.0
  }

  lemma ClusteringAt(adj: Graph, v: nat, edges: nat)
    requires v < |adj| && |adj[v]| >= 2 && edges == |TrianglesAt(adj, v)| && 2 * edges <= |adj[v]| * (|adj[v]| - 1)
    ensures |adj[v]| as real * (|adj[v]| as real - 1.0) != 0.0
    ensures LocalClustering(adj)(v) == 2.0 * edges as real / (|adj[v]| as real * (|adj[v]| as real - 1.0))
    ensures Unit(LocalClustering(adj)(v))
  {
    hide TrianglesAt, TriangleSets, Unit;
    PairFraction(|adj[v]|, edges);
    UnitSame(2.0 * edges as real / (|adj[v]| as real * (|adj[v]| as real - 1.0)), LocalClustering(adj)(v));
  }

  lemma UnitSame(x: real, y: real)
    requires Unit(x) && x == y
    ensures Unit(y)
  {
  }

  lemma PairFraction(k: nat, edges: nat)
    requires k >= 2 && 2 * edges <= k * (k - 1)
    ensures k as real * (k as real - 1.0) != 0.0
    ensures Unit(2.0 * edges as real / (k as real * (k as real - 1.0)))
  {
    RealProduct(k, k - 1, k as real, k as real - 1.0);
    UnitFraction(2.0 * edges as real, k as real * (k as real - 1.0), 2 * edges, k * (k - 1));
  }

  lemma {:induction false} RealProduct(a: nat, b: nat, x: real, y: real)
    requires x == a as real && y == b as real
    ensures (a * b) as real == x * y
    ensures a > 0 && b > 0 ==> a * b > 0
  {
    if b > 0 {
      RealProduct(a, b - 1, x, y - 1.0);
      assert a * b == a * (b - 1) + a;
      assert x * y == x * (y - 1.0) + x;
    }
  }

  lemma UnitFraction(x: real, y: real, a: nat, b: nat)
    requires x == a as real && y == b as real && a <= b && b > 0
    ensures y != 0.0 && Unit(x / y)
  {
  }

  // ------------------------------------------- agreement with the 3-cycles

  ghost function SidesOf(): set<nat> -> set<set<nat>> {
    t => set a, b | a in t && b in t && a != b :: {a, b}
  }

  lemma SidesOfThree(a: nat, b: nat, c: nat)
    requires a != b && b != c && a != c
    ensures SidesOf()({a, b, c}) == {{a, b}, {b, c}, {c, a}}
  {
    var t := {a, b, c};
    forall e | e in SidesOf()(t)
      ensures e in {{a, b}, {b, c}, {c, a}}
    {
      var x, y :| x in t && y in t && x != y && e == {x, y};
      assert {a, b} == {b, a} && {b, c} == {c, b} && {c, a} == {a, c};
      if x == a {
      } else if x == b {
      } else {
      }
    }
    assert a in t && b in t && c in t;
    assert {a, b} in SidesOf()(t) && {b, c} in SidesOf()(t) && {c, a} in SidesOf()(t);
  }

  lemma TourOfThree(adj: Graph, c: seq<nat>)
    requires ValidGraph(adj) && IsTour(adj, 3, c)
    ensures {c[0], c[1], c[2]} in TriangleSets(adj)
    ensures EdgesOf(c) == SidesOf()({c[0], c[1], c[2]})
  {
    assert c[0 + 1] in adj[c[0]] && c[1 + 1] in adj[c[1]];
    assert Corners(adj, c[0], c[1], c[2]);
    assert Edge(c, 0) == {c[0], c[1]} && Edge(c, 1) == {c[1], c[2]} && Edge(c, 2) == {c[2], c[0]};
    SidesOfThree(c[0], c[1], c[2]);
    assert EdgesOf(c) == {Edge(c, 0), Edge(c, 1), Edge(c, 2)};
  }

  lemma CornersOf(adj: Graph, t: set<nat>) returns (x: nat, y: nat, z: nat)
    requires t in TriangleSets(adj)
    ensures Corners(adj, x, y, z) && t == {x, y, z}
  {
    x, y, z :| x < |adj| && y < |adj| && z < |adj| && Corners(adj, x, y, z) && t == {x, y, z};
  }

  lemma TriangleTour(adj: Graph, t: set<nat>) returns (c: seq<nat>)
    requires ValidGraph(adj) && t in TriangleSets(adj)
    ensures IsTour(adj, 3, c) && t == {c[0], c[1], c[2]}
  {
    hide TriangleSets;
    var x, y, z := CornersOf(adj, t);
    c := [x, y, z];
    CornersDistinct(adj, x, y, z);
    hide ValidGraph;
    assert c[0 + 1] in adj[c[0]] && c[1 + 1] in adj[c[1]];
  }

  lemma CornersDistinct(adj: Graph, x: nat, y: nat, z: nat)
    requires ValidGraph(adj) && Corners(adj, x, y, z)
    ensures x != y && y != z && z != x
  {
  }

  lemma Sides(s: set<nat>, e: set<nat>, x: nat, y: nat)
    ensures e in SidesOf()(s) ==> e <= s
    ensures x in s && y in s && x != y ==> {x, y} in SidesOf()(s)
  {
  }

  lemma SidesCover(adj: Graph, s: set<nat>, t: set<nat>)
    requires ValidGraph(adj) && s in TriangleSets(adj) && SidesOf()(s) == SidesOf()(t)
    ensures s <= t
  {
    hide SidesOf, TriangleSets;
    var c := TriangleTour(adj, s);
    forall x | x in s
      ensures x in t
    {
      var y := if x == c[0] then c[1] else c[0];
      Sides(s, {}, x, y);
      Sides(t, {x, y}, x, y);
      assert x in {x, y};
    }
  }

  /** The cycle counter at length three counts the same triangles. */
  lemma TrianglesAreThreeCycles(adj: Graph)
    requires ValidGraph(adj)
    ensures |Cycles(adj, 3)| == |TriangleSets(adj)|
  {
    hide TriangleSets, SidesOf, EdgesOf;
    var ts, f := TriangleSets(adj), SidesOf();
    forall s, t | s in ts && t in ts && f(s) == f(t)
      ensures s == t
    {
      SidesCover(adj, s, t);
      SidesCover(adj, t, s);
    }
    forall e | e in Cycles(adj, 3)
      ensures exists t :: t in ts && f(t) == e
    {
      var c :| c in AllSeqs(|adj|, 3) && IsTour(adj, 3, c) && e == EdgesOf(c);
      TourOfThree(adj, c);
    }
    forall t | t in ts
      ensures f(t) in Cycles(adj, 3)
    {
      var c := TriangleTour(adj, t);
      TourOfThree(adj, c);
    }
    BijectionSize(ts, Cycles(adj, 3), f);
  }
}
