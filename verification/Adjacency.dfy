/** Building the adjacency lists from the advertised edges. */
module Adjacency {
  import opened Edges
  import opened Graphs
  import opened Sorting

  /** Some edge names the address. */
  ghost predicate Named(edges: seq<Edge>, x: Address) {
    exists i :: 0 <= i < |edges| && (edges[i].a == x || edges[i].b == x)
  }

  ghost predicate Joined(edges: seq<Edge>, x: Address, y: Address) {
    exists i :: 0 <= i < |edges| && (edges[i] == Edge(x, y) || edges[i] == Edge(y, x))
  }

  /** The indices of the addresses named: 0, 1, ... in the order of names. */
  ghost predicate Indexed(idx: map<Address, nat>, names: seq<Address>) {
    && (forall x :: x in idx <==> x in names)
    && (forall i :: 0 <= i < |names| ==> idx[names[i]] == i)
  }

  method Index(idx: map<Address, nat>, ghost names: seq<Address>, x: Address) returns (r: map<Address, nat>, ghost more: seq<Address>)
    requires Indexed(idx, names) && |idx| == |names|
    ensures Indexed(r, more) && |r| == |more|
    ensures forall y :: y in more <==> y in names || y == x
  {
    r, more := idx, names;
    if x !in idx {
      more := names + [x];
      r := idx[x := |idx|];
      assert r.Keys == idx.Keys + {x} && |r.Keys| == |r| && |idx.Keys| == |idx|;
    }
  }

  method IndexAddresses(edges: seq<Edge>) returns (idx: map<Address, nat>, ghost names: seq<Address>)
    ensures Indexed(idx, names) && |idx| == |names|
    ensures forall x :: x in idx <==> Named(edges, x)
  {
    idx, names := map[], [];
    for i := 0 to |edges|
      invariant Indexed(idx, names) && |idx| == |names|
      invariant forall x :: x in names <==> Named(edges[..i], x)
    {
      ghost var before := names;
      idx, names := Index(idx, names, edges[i].a);
      idx, names := Index(idx, names, edges[i].b);
      forall x ensures x in names <==> Named(edges[..i + 1], x) { NamedNext(edges, i, x); }
      hide Indexed, Named;
    }
    assert edges[..|edges|] == edges;
  }

  lemma NamedNext(edges: seq<Edge>, i: nat, x: Address)
    requires i < |edges|
    ensures Named(edges[..i + 1], x) <==> Named(edges[..i], x) || edges[i].a == x || edges[i].b == x
  {
    if Named(edges[..i], x) {
      var j :| 0 <= j < i && (edges[..i][j].a == x || edges[..i][j].b == x);
      assert edges[..i + 1][j] == edges[..i][j];
    }
    if edges[i].a == x || edges[i].b == x { assert edges[..i + 1][i] == edges[i]; }
    if Named(edges[..i + 1], x) {
      var j :| 0 <= j < i + 1 && (edges[..i + 1][j].a == x || edges[..i + 1][j].b == x);
      if j < i { assert edges[..i][j] == edges[..i + 1][j]; }
    }
  }

  /** std::sort, then std::unique and erase. */
  method SortUnique(s: seq<nat>) returns (r: seq<nat>)
    ensures Increasing(r)
    ensures forall x :: x in r <==> x in s
  {
    var sorted := Sort(s, (x: nat) => x as real);
    assert forall x :: x in sorted <==> x in multiset(sorted);
    assert forall x :: x in s <==> x in multiset(s);
    r := [];
    for i := 0 to |sorted|
      invariant Increasing(r)
      invariant forall x :: x in r <==> x in sorted[..i]
      invariant r != [] <==> i > 0
      invariant i > 0 ==> r[|r| - 1] == sorted[i - 1]
    {
      assert sorted[..i + 1] == sorted[..i] + [sorted[i]];
      if i > 0 { assert sorted[i - 1] as real <= sorted[i] as real; }
      if r == [] || r[|r| - 1] != sorted[i] { r := r + [sorted[i]]; }
    }
    assert sorted[..|sorted|] == sorted;
  }

  /** Vertices u and v are distinct ends of an edge. */
  ghost predicate Linked(links: seq<(nat, nat)>, u: nat, v: nat) {
    u != v && ((u, v) in links || (v, u) in links)
  }

  function Ends(edges: seq<Edge>, idx: map<Address, nat>): (r: seq<(nat, nat)>)
    requires forall i :: 0 <= i < |edges| ==> edges[i].a in idx && edges[i].b in idx
    ensures |r| == |edges|
  {
    seq(|edges|, i requires 0 <= i < |edges| => (idx[edges[i].a], idx[edges[i].b]))
  }

  /** Pushes both ends of every link that is not a loop, then sorts each list. */
  method Lists(n: nat, links: seq<(nat, nat)>) returns (adj: Graph)
    requires forall i :: 0 <= i < |links| ==> links[i].0 < n && links[i].1 < n
    ensures |adj| == n
    ensures forall u, v :: 0 <= u < n ==> (v in adj[u] <==> Linked(links, u, v))
    ensures forall u :: 0 <= u < n ==> Increasing(adj[u])
  {
    adj := seq(n, _ => []);
    for i := 0 to |links|
      invariant |adj| == n
      invariant forall u, v :: 0 <= u < n ==> (v in adj[u] <==> Linked(links[..i], u, v))
    {
      assert links[..i + 1] == links[..i] + [links[i]];
      var (u, v) := links[i];
      if u != v {
        adj := adj[u := adj[u] + [v]];
        adj := adj[v := adj[v] + [u]];
      }
    }
    assert links[..|links|] == links;
    for u := 0 to n
      invariant |adj| == n
      invariant forall w, v :: 0 <= w < n ==> (v in adj[w] <==> Linked(links, w, v))
      invariant forall w :: 0 <= w < u ==> Increasing(adj[w])
    {
      hide Linked, Increasing;
      var list := SortUnique(adj[u]);
      adj := adj[u := list];
    }
  }

  /** The lists form a valid graph whose vertices are the named addresses; two are
      adjacent exactly when they differ and some edge joins them. */
  method BuildAdjacency(edges: seq<Edge>) returns (idx: map<Address, nat>, adj: Graph)
    ensures ValidGraph(adj) && |idx| == |adj|
    ensures forall x :: x in idx <==> Named(edges, x)
    ensures forall x :: x in idx ==> idx[x] < |adj|
    ensures forall x, y :: x in idx && y in idx && idx[x] == idx[y] ==> x == y
    ensures forall x, y :: x in idx && y in idx ==> (idx[y] in adj[idx[x]] <==> x != y && Joined(edges, x, y))
  {
    ghost var names;
    idx, names := IndexAddresses(edges);
    forall i | 0 <= i < |edges| ensures edges[i].a in idx && edges[i].b in idx {
      assert Named(edges, edges[i].a) && Named(edges, edges[i].b);
    }
    IndexBijective(idx, names);
    var links := Ends(edges, idx);
    adj := Lists(|idx|, links);
    LinksValid(adj, links);
    forall x, y | x in idx && y in idx ensures Linked(links, idx[x], idx[y]) <==> x != y && Joined(edges, x, y) {
      LinkedIffJoined(edges, idx, x, y);
    }
    hide Linked, Joined, Named, Ends, ValidGraph, Indexed;
  }

  lemma IndexBijective(idx: map<Address, nat>, names: seq<Address>)
    requires Indexed(idx, names)
    ensures forall x :: x in idx ==> idx[x] < |names|
    ensures forall x, y :: x in idx && y in idx && idx[x] == idx[y] ==> x == y
  {
  }

  lemma LinksValid(adj: Graph, links: seq<(nat, nat)>)
    requires forall i :: 0 <= i < |links| ==> links[i].0 < |adj| && links[i].1 < |adj|
    requires forall u, v :: 0 <= u < |adj| ==> (v in adj[u] <==> Linked(links, u, v))
    requires forall u :: 0 <= u < |adj| ==> Increasing(adj[u])
    ensures ValidGraph(adj)
  {
    forall u, i | 0 <= u < |adj| && 0 <= i < |adj[u]| ensures adj[u][i] < |adj| {
      assert adj[u][i] in adj[u];
      assert Linked(links, u, adj[u][i]);
    }
    forall u, v | 0 <= u < |adj| && 0 <= v < |adj| ensures (v in adj[u] <==> u in adj[v]) && u !in adj[u] {
      assert Linked(links, u, v) == Linked(links, v, u);
    }
  }

  lemma LinkedIffJoined(edges: seq<Edge>, idx: map<Address, nat>, x: Address, y: Address)
    requires forall i :: 0 <= i < |edges| ==> edges[i].a in idx && edges[i].b in idx
    requires forall v, w :: v in idx && w in idx && idx[v] == idx[w] ==> v == w
    requires x in idx && y in idx
    ensures Linked(Ends(edges, idx), idx[x], idx[y]) <==> x != y && Joined(edges, x, y)
  {
    var links := Ends(edges, idx);
    if Joined(edges, x, y) {
      var i :| 0 <= i < |edges| && (edges[i] == Edge(x, y) || edges[i] == Edge(y, x));
      assert links[i] == (idx[edges[i].a], idx[edges[i].b]);
    }
    if Linked(links, idx[x], idx[y]) {
      var i :| 0 <= i < |links| && (links[i] == (idx[x], idx[y]) || links[i] == (idx[y], idx[x]));
      assert links[i] == (idx[edges[i].a], idx[edges[i].b]);
    }
  }
}
