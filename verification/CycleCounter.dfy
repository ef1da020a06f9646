/** The backtracking k-cycle counter: its halved total is the number of distinct simple k-cycles. */
module CycleCounter {
  import opened Graphs

  /** c lists the vertices of a closed simple tour of length k. */
  ghost predicate IsTour(adj: Graph, k: nat, c: seq<nat>) {
    && |c| == k >= 3
    && Distinct(c)
    && (forall i :: 0 <= i < k ==> c[i] < |adj|)
    && (forall i :: 0 <= i < k - 1 ==> c[i + 1] in adj[c[i]])
    && c[0] in adj[c[k - 1]]
  }

  /** The index after i, going round. */
  function Next(k: nat, i: nat): nat {
    if i + 1 == k then 0 else i + 1
  }

  /** The undirected edge from the i-th vertex of a tour to the next one. */
  ghost function Edge(c: seq<nat>, i: nat): set<nat>
    requires i < |c|
  {
    {c[i], c[Next(|c|, i)]}
  }

  ghost function EdgesOf(c: seq<nat>): set<set<nat>> {
    set i | 0 <= i < |c| :: Edge(c, i)
  }

  /** The simple k-cycles of the graph, each one a set of undirected edges. */
  ghost function Cycles(adj: Graph, k: nat): set<set<set<nat>>> {
    set c | c in AllSeqs(|adj|, k) && IsTour(adj, k, c) :: EdgesOf(c)
  }

  /** A tour written from its least vertex. */
  ghost predicate Rooted(adj: Graph, k: nat, c: seq<nat>) {
    IsTour(adj, k, c) && forall i :: 0 < i < k ==> c[0] < c[i]
  }

  ghost function RootedTours(adj: Graph, k: nat): set<seq<nat>> {
    set c | c in AllSeqs(|adj|, k) && Rooted(adj, k, c)
  }

  /** The rooted tours that begin with p. */
  ghost function Extending(adj: Graph, k: nat, p: seq<nat>): set<seq<nat>> {
    set c | c in RootedTours(adj, k) && p <= c
  }

  /** The rooted tours that begin with p and go on to one of ws. */
  ghost function ExtendingInto(adj: Graph, k: nat, p: seq<nat>, ws: seq<nat>): set<seq<nat>>
    requires |p| < k
  {
    set c | c in RootedTours(adj, k) && p <= c && c[|p|] in ws
  }

  // ---------------------------------------------------------------- the search

  /** p is a partial tour from its least vertex. */
  ghost predicate Partial(adj: Graph, p: seq<nat>) {
    && |p| >= 2
    && Distinct(p)
    && (forall i :: 0 <= i < |p| ==> p[i] < |adj|)
    && (forall i :: 0 <= i < |p| - 1 ==> p[i + 1] in adj[p[i]])
    && (forall i :: 0 < i < |p| ==> p[0] < p[i])
  }

  lemma NextNeighbour(adj: Graph, k: nat, p: seq<nat>, ws: seq<nat>, w: nat)
    requires |p| < k && w !in ws
    ensures |ExtendingInto(adj, k, p, ws + [w])| == |ExtendingInto(adj, k, p, ws)| + |Extending(adj, k, p + [w])|
  {
    forall c | c in RootedTours(adj, k)
      ensures p + [w] <= c <==> p <= c && c[|p|] == w
    {
      if p <= c && c[|p|] == w { assert c[..|p| + 1] == p + [w]; }
    }
    assert ExtendingInto(adj, k, p, ws + [w]) == ExtendingInto(adj, k, p, ws) + Extending(adj, k, p + [w]);
    assert ExtendingInto(adj, k, p, ws) !! Extending(adj, k, p + [w]);
  }

  lemma NoneInto(adj: Graph, k: nat, p: seq<nat>)
    requires |p| < k
    ensures |ExtendingInto(adj, k, p, [])| == 0
  {
    assert ExtendingInto(adj, k, p, []) == {};
  }

  /** The i-th neighbour of u is a vertex other than u, not listed before. */
  lemma NeighbourNew(adj: Graph, u: nat, i: nat)
    requires ValidGraph(adj) && u < |adj| && i < |adj[u]|
    ensures adj[u][i] < |adj| && adj[u][i] != u && adj[u][i] !in adj[u][..i]
  {
  }

  lemma OnlyLaterUnvisited(adj: Graph, k: nat, p: seq<nat>, w: nat)
    requires 0 < |p| < k && Extending(adj, k, p + [w]) != {}
    ensures w !in p && p[0] < w
  {
    var c :| c in Extending(adj, k, p + [w]);
    assert c[|p|] == w && forall j :: 0 <= j < |p| ==> c[j] == p[j];
  }

  lemma AllNeighbours(adj: Graph, k: nat, p: seq<nat>)
    requires 0 < |p| < k && p[|p| - 1] < |adj|
    ensures ExtendingInto(adj, k, p, adj[p[|p| - 1]]) == Extending(adj, k, p)
  {
    forall c | c in Extending(adj, k, p)
      ensures c[|p|] in adj[p[|p| - 1]]
    {
      assert c[|p| - 1] == p[|p| - 1] && c[|p| - 1 + 1] in adj[c[|p| - 1]];
    }
  }

  lemma CompletePath(adj: Graph, k: nat, p: seq<nat>)
    requires Partial(adj, p) && |p| == k >= 3
    ensures Extending(adj, k, p) == if p[0] in adj[p[k - 1]] then {p} else {}
  {
    assert forall c :: c in Extending(adj, k, p) ==> c == p;
  }

  lemma ExtendPartial(adj: Graph, p: seq<nat>, w: nat)
    requires ValidGraph(adj) && Partial(adj, p)
    requires w in adj[p[|p| - 1]] && w !in p && w >= p[0]
    ensures Partial(adj, p + [w])
  {
  }

  class Search {
    var visited: array<bool>
    var path: seq<nat>
    var total: nat

    constructor (n: nat)
      ensures fresh(visited) && visited.Length == n
      ensures forall v :: 0 <= v < n ==> !visited[v]
      ensures path == [] && total == 0
    {
      visited := new bool[n](_ => false);
      path := [];
      total := 0;
    }

    /** The vertices marked visited are those on the path. */
    ghost predicate Marks()
      reads this, visited
    {
      forall v :: 0 <= v < visited.Length ==> (visited[v] <==> v in path)
    }

    /** One more tour when the path can be closed. */
    method Close(adj: Graph, start: nat, v: nat)
      requires v < |adj|
      modifies this`total
      ensures total == old(total) + if start in adj[v] then 1 else 0
    {
      for i := 0 to |adj[v]|
        invariant start !in adj[v][..i] && total == old(total)
      {
        if adj[v][i] == start {
          total := total + 1;
          return;
        }
      }
    }

    method Dfs(adj: Graph, k: nat, start: nat, v: nat, depth: nat)
      requires ValidGraph(adj) && visited.Length == |adj| && k >= 3
      requires Marks() && Partial(adj, path) && |path| == depth <= k
      requires path[0] == start && path[depth - 1] == v
      modifies this`path, this`total, visited
      ensures visited[..] == old(visited[..]) && path == old(path)
      ensures total == old(total) + |Extending(adj, k, path)|
      decreases k - depth, 1
    {
      ghost var p, before, marks := path, total, visited[..];
      if depth == k {
        CompletePath(adj, k, p);
        Close(adj, start, v);
        return;
      }
      var i := 0;
      while i < |adj[v]|
        invariant 0 <= i <= |adj[v]|
        invariant path == p && visited[..] == marks && Marks()
        invariant total == before + |ExtendingInto(adj, k, p, adj[v][..i])|
      {
        var w := adj[v][i];
        assert adj[v][..i + 1] == adj[v][..i] + [w];
        NextNeighbour(adj, k, p, adj[v][..i], w);
        if visited[w] || w < start {
          if Extending(adj, k, p + [w]) != {} { OnlyLaterUnvisited(adj, k, p, w); }
        } else {
          ExtendPartial(adj, p, w);
          Descend(adj, k, start, w, depth);
        }
        i := i + 1;
      }
      assert adj[v][..|adj[v]|] == adj[v];
      AllNeighbours(adj, k, p);
    }

    /** The search from one root vertex. */
    method FromRoot(adj: Graph, k: nat, s: nat)
      requires ValidGraph(adj) && visited.Length == |adj| && k >= 3 && s < |adj|
      requires Marks() && path == []
      modifies this`path, this`total, visited
      ensures Marks() && path == []
      ensures total == old(total) + |Extending(adj, k, [s])|
    {
      hide Extending, ExtendingInto;
      visited[s] := true;
      path := [s];
      NoneInto(adj, k, [s]);
      for i := 0 to |adj[s]|
        invariant path == [s] && Marks()
        invariant total == old(total) + |ExtendingInto(adj, k, [s], adj[s][..i])|
      {
        var w := adj[s][i];
        assert adj[s][..i + 1] == adj[s][..i] + [w];
        NeighbourNew(adj, s, i);
        NextNeighbour(adj, k, [s], adj[s][..i], w);
        hide ValidGraph;
        if w <= s {
          if Extending(adj, k, [s] + [w]) != {} { OnlyLaterUnvisited(adj, k, [s], w); }
        } else {
          Descend(adj, k, s, w, 1);
        }
      }
      path := [];
      visited[s] := false;
      assert adj[s][..|adj[s]|] == adj[s];
      AllNeighbours(adj, k, [s]);
    }

    /** One step down the search and back: mark, push, recurse, pop, unmark. */
    method Descend(adj: Graph, k: nat, start: nat, w: nat, depth: nat)
      requires ValidGraph(adj) && visited.Length == |adj| && k >= 3
      requires Marks() && Partial(adj, path + [w]) && |path| == depth < k
      requires path[0] == start
      modifies this`path, this`total, visited
      ensures visited[..] == old(visited[..]) && path == old(path) && Marks()
      ensures total == old(total) + |Extending(adj, k, path + [w])|
      decreases k - depth, 0
    {
      ghost var marks := visited[..];
      assert (path + [w])[depth] == w;
      visited[w] := true;
      path := path + [w];
      Dfs(adj, k, start, w, depth + 1);
      path := path[..|path| - 1];
      visited[w] := false;
      assert visited[..] == marks;
    }
  }
  // ------------------------------------------------------------ two-to-one

  /** The same tour walked the other way from the same vertex. */
  ghost function Reversed(c: seq<nat>): (r: seq<nat>)
    requires |c| > 0
    ensures |r| == |c| && r[0] == c[0]
    ensures forall i :: 0 < i < |c| ==> r[i] == c[|c| - i]
  {
    seq(|c|, i requires 0 <= i < |c| => if i == 0 then c[0] else c[|c| - i])
  }

  lemma ReversedTour(adj: Graph, k: nat, c: seq<nat>)
    requires ValidGraph(adj) && Rooted(adj, k, c)
    ensures Rooted(adj, k, Reversed(c)) && Reversed(c) != c
    ensures EdgesOf(Reversed(c)) == EdgesOf(c) && Reversed(Reversed(c)) == c
  {
    ReversedWalk(adj, k, c);
    assert Reversed(c)[1] == c[k - 1] && c[1] != c[k - 1];
    ReversedEdges(adj, k, c);
    hide EdgesOf, ValidGraph;
  }

  lemma ReversedWalk(adj: Graph, k: nat, c: seq<nat>)
    requires ValidGraph(adj) && Rooted(adj, k, c)
    ensures Rooted(adj, k, Reversed(c))
  {
    var r := Reversed(c);
    forall i | 0 <= i < k - 1
      ensures r[i + 1] in adj[r[i]]
    {
      if i == 0 {
        assert r[1] == c[k - 1];
      } else {
        var j := k - i - 1;
        assert r[i + 1] == c[j] && r[i] == c[j + 1];
      }
    }
    assert r[k - 1] == c[1] && c[0 + 1] in adj[c[0]];
  }

  lemma ReversedEdges(adj: Graph, k: nat, c: seq<nat>)
    requires Rooted(adj, k, c)
    ensures EdgesOf(Reversed(c)) == EdgesOf(c)
  {
    var r := Reversed(c);
    forall i | 0 <= i < k
      ensures Edge(c, i) == Edge(r, k - 1 - i)
    {
    }
    forall e | e in EdgesOf(r)
      ensures e in EdgesOf(c)
    {
      var i :| 0 <= i < k && e == Edge(r, i);
      assert e == Edge(c, k - 1 - i);
    }
  }

  /** Every edge of a tour at its i-th vertex leads to one of the two vertices beside it. */
  lemma TwoNeighbours(c: seq<nat>, i: nat, e: set<nat>, x: nat)
    requires |c| >= 3 && Distinct(c) && i < |c|
    requires e in EdgesOf(c) && e == {c[i], x}
    ensures x == c[Next(|c|, i)] || (i > 0 && x == c[i - 1]) || (i == 0 && x == c[|c| - 1])
  {
    var j :| 0 <= j < |c| && e == Edge(c, j);
    assert c[i] in e && x in e && c[j] in e && c[Next(|c|, j)] in e;
    assert c[j] != c[Next(|c|, j)];
  }

  lemma RootInside(c: seq<nat>, d: seq<nat>)
    requires |c| == |d| > 0 && EdgesOf(c) == EdgesOf(d)
    ensures c[0] in d
  {
    assert Edge(c, 0) in EdgesOf(d);
    var j :| 0 <= j < |d| && Edge(c, 0) == Edge(d, j);
    assert c[0] in Edge(d, j);
  }

  /** Two tours with the same edges, the same first and the same second vertex are the same. */
  lemma {:induction false} SameDirection(c: seq<nat>, d: seq<nat>, n: nat)
    requires |c| == |d| >= 3 && Distinct(c) && Distinct(d) && EdgesOf(c) == EdgesOf(d)
    requires c[0] == d[0] && c[1] == d[1] && n <= |c|
    ensures c[..n] == d[..n]
  {
    if n > 2 {
      SameDirection(c, d, n - 1);
      assert c[n - 2] == c[..n - 1][n - 2] == d[..n - 1][n - 2] == d[n - 2];
      assert c[n - 3] == c[..n - 1][n - 3] == d[..n - 1][n - 3] == d[n - 3];
      assert Edge(d, n - 2) in EdgesOf(c);
      TwoNeighbours(c, n - 2, {d[n - 2], d[n - 1]}, d[n - 1]);
      assert d[n - 1] != d[n - 3];
      assert d[n - 1] == c[n - 1];
      assert c[..n] == c[..n - 1] + [c[n - 1]] && d[..n] == d[..n - 1] + [d[n - 1]];
    } else {
      assert n == 2 ==> c[..n] == [c[0], c[1]] == d[..n];
    }
  }

  /** A rooted tour is determined by its edges up to direction. */
  lemma EdgesDetermineTour(adj: Graph, k: nat, c: seq<nat>, d: seq<nat>)
    requires ValidGraph(adj) && Rooted(adj, k, c) && Rooted(adj, k, d) && EdgesOf(c) == EdgesOf(d)
    ensures d == c || d == Reversed(c)
  {
    RootInside(c, d);
    RootInside(d, c);
    assert c[0] == d[0];
    assert Edge(d, 0) in EdgesOf(c);
    TwoNeighbours(c, 0, {d[0], d[1]}, d[1]);
    if d[1] == c[1] {
      SameDirection(c, d, k);
      assert c[..k] == c && d[..k] == d;
    } else {
      ReversedTour(adj, k, c);
      SameDirection(Reversed(c), d, k);
      assert Reversed(c)[..k] == Reversed(c) && d[..k] == d;
    }
  }

  ghost function EdgeSets(tours: set<seq<nat>>): set<set<set<nat>>> {
    set c | c in tours :: EdgesOf(c)
  }

  ghost predicate ClosedUnderReversal(adj: Graph, k: nat, tours: set<seq<nat>>) {
    forall c :: c in tours ==> Rooted(adj, k, c) && Reversed(c) in tours
  }

  lemma OtherPair(adj: Graph, k: nat, c: seq<nat>, d: seq<nat>)
    requires ValidGraph(adj) && Rooted(adj, k, c) && Rooted(adj, k, d)
    requires d != c && d != Reversed(c)
    ensures EdgesOf(d) != EdgesOf(c) && Reversed(d) != c && Reversed(d) != Reversed(c)
  {
    ReversedTour(adj, k, c);
    ReversedTour(adj, k, d);
    if EdgesOf(d) == EdgesOf(c) { EdgesDetermineTour(adj, k, c, d); }
  }

  lemma RemovePair(adj: Graph, k: nat, tours: set<seq<nat>>, c: seq<nat>)
    requires ValidGraph(adj) && ClosedUnderReversal(adj, k, tours) && c in tours
    ensures var rest := tours - {c} - {Reversed(c)};
      && ClosedUnderReversal(adj, k, rest)
      && |tours| == |rest| + 2
      && EdgesOf(c) !in EdgeSets(rest)
      && EdgeSets(tours) == EdgeSets(rest) + {EdgesOf(c)}
  {
    var r := Reversed(c);
    assert r in tours && r != c && EdgesOf(r) == EdgesOf(c) by { ReversedTour(adj, k, c); }
    var rest := tours - {c} - {r};
    forall d | d in rest
      ensures Reversed(d) in rest && EdgesOf(d) != EdgesOf(c)
    {
      OtherPair(adj, k, c, d);
    }
    forall d | d in tours
      ensures EdgesOf(d) in EdgeSets(rest) + {EdgesOf(c)}
    {
      if d in rest { assert EdgesOf(d) in EdgeSets(rest); }
    }
  }

  /** Tours closed under reversal come in pairs, one pair for each edge set. */
  lemma {:induction false} ToursComeInPairs(adj: Graph, k: nat, tours: set<seq<nat>>)
    requires ValidGraph(adj) && ClosedUnderReversal(adj, k, tours)
    ensures |tours| == 2 * |EdgeSets(tours)|
    decreases |tours|
  {
    if tours == {} {
    } else {
      var c :| c in tours;
      RemovePair(adj, k, tours, c);
      ToursComeInPairs(adj, k, tours - {c} - {Reversed(c)});
    }
  }

  ghost function Rotated(c: seq<nat>, m: nat): (r: seq<nat>)
    requires m < |c|
    ensures |r| == |c|
    ensures forall i :: 0 <= i < |c| ==> r[i] == c[if i + m < |c| then i + m else i + m - |c|]
  {
    c[m..] + c[..m]
  }

  lemma RotatedEdges(c: seq<nat>, m: nat)
    requires m < |c|
    ensures EdgesOf(Rotated(c, m)) == EdgesOf(c)
  {
    var r, k := Rotated(c, m), |c|;
    forall e | e in EdgesOf(r)
      ensures e in EdgesOf(c)
    {
      var i :| 0 <= i < k && e == Edge(r, i);
      assert e == Edge(c, if i + m < k then i + m else i + m - k);
    }
    forall e | e in EdgesOf(c)
      ensures e in EdgesOf(r)
    {
      var i :| 0 <= i < k && e == Edge(c, i);
      assert e == Edge(r, if i >= m then i - m else i - m + k);
    }
  }

  lemma RotatedTour(adj: Graph, k: nat, c: seq<nat>, m: nat)
    requires IsTour(adj, k, c) && m < k && forall i :: 0 <= i < k ==> c[m] <= c[i]
    ensures Rooted(adj, k, Rotated(c, m))
  {
    var r := Rotated(c, m);
    forall i | 0 <= i < k - 1
      ensures r[i + 1] in adj[r[i]]
    {
      var j := if i + m < k then i + m else i + m - k;
      assert r[i] == c[j] && r[i + 1] == c[Next(k, j)];
      if j + 1 < k { assert c[j + 1] in adj[c[j]]; }
    }
    assert r[k - 1] == c[if m == 0 then k - 1 else m - 1];
  }

  lemma {:induction false} LeastIndex(c: seq<nat>, n: nat) returns (m: nat)
    requires 0 < n <= |c|
    ensures m < n && forall i :: 0 <= i < n ==> c[m] <= c[i]
  {
    if n == 1 {
      m := 0;
    } else {
      m := LeastIndex(c, n - 1);
      if c[n - 1] < c[m] { m := n - 1; }
    }
  }

  /** The rooted tours number twice the simple k-cycles. */
  lemma RootedToursAreTwiceCycles(adj: Graph, k: nat)
    requires ValidGraph(adj)
    ensures |RootedTours(adj, k)| == 2 * |Cycles(adj, k)|
  {
    var tours := RootedTours(adj, k);
    forall c | c in tours
      ensures Reversed(c) in tours
    {
      ReversedTour(adj, k, c);
    }
    ToursComeInPairs(adj, k, tours);
    forall e | e in Cycles(adj, k)
      ensures e in EdgeSets(tours)
    {
      var c :| c in AllSeqs(|adj|, k) && IsTour(adj, k, c) && e == EdgesOf(c);
      var m := LeastIndex(c, k);
      RotatedTour(adj, k, c, m);
      RotatedEdges(c, m);
      assert Rotated(c, m) in tours;
    }
    assert EdgeSets(tours) == Cycles(adj, k);
  }

  // ---------------------------------------------------------- the entry point

  method CountCyclesOfLength(adj: Graph, k: nat) returns (count: nat)
    requires ValidGraph(adj)
    ensures count == |Cycles(adj, k)|
  {
    if k < 3 {
      assert Cycles(adj, k) == {};
      return 0;
    }
    var search := new Search(|adj|);
    ghost var roots: seq<nat> := [];
    for s := 0 to |adj|
      invariant fresh(search) && fresh(search.visited) && search.visited.Length == |adj|
      invariant search.path == [] && search.Marks()
      invariant |roots| == s && forall i :: 0 <= i < s ==> roots[i] == i
      invariant search.total == |ExtendingInto(adj, k, [], roots)|
    {
      search.FromRoot(adj, k, s);
      NextNeighbour(adj, k, [], roots, s);
      assert [] + [s] == [s];
      roots := roots + [s];
    }
    assert ExtendingInto(adj, k, [], roots) == RootedTours(adj, k) by {
      forall c | c in RootedTours(adj, k)
        ensures c[0] in roots
      {
        assert roots[c[0]] == c[0];
      }
    }
    RootedToursAreTwiceCycles(adj, k);
    return search.total / 2;
  }
}
