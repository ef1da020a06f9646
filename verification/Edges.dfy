/** Advertised links: the directed pairs heard, the undirected edges they stand
    for, and when each edge was first and last advertised. */
module Edges {
  import opened Sets

  type Address = nat

  /** An unordered pair of addresses, smaller address first. */
  datatype Edge = Edge(a: Address, b: Address)

  function Canonical(x: Address, y: Address): Edge {
    if x > y then Edge(y, x) else Edge(x, y)
  }

  datatype Links = Links(directed: set<(Address, Address)>, undirected: set<Edge>,
                         firstSeen: map<Edge, real>, lastSeen: map<Edge, real>)

  const NO_LINKS := Links({}, {}, map[], map[])

  /** The canonical edge joins the two addresses, in either order, smaller first. */
  lemma CanonicalJoins(x: Address, y: Address, u: Address, v: Address)
    ensures Canonical(x, y).a <= Canonical(x, y).b && {Canonical(x, y).a, Canonical(x, y).b} == {x, y}
    ensures Canonical(x, y) == Canonical(u, v) <==> (x == u && y == v) || (x == v && y == u)
  {
  }

  function SeeLink(g: Links, x: Address, y: Address, now: real): Links {
    var e := Canonical(x, y);
    Links(g.directed + {(x, y)}, g.undirected + {e},
          if e in g.firstSeen then g.firstSeen else g.firstSeen[e := now], g.lastSeen[e := now])
  }

  function SeeLinks(g: Links, x: Address, ys: seq<Address>, now: real): Links {
    if ys == [] then g else SeeLink(SeeLinks(g, x, ys[..|ys| - 1], now), x, ys[|ys| - 1], now)
  }

  ghost function Undirected(directed: set<(Address, Address)>): set<Edge> {
    set d | d in directed :: Canonical(d.0, d.1)
  }

  /** The undirected edges are the canonical forms of the directed pairs, each
      with a first and a last time in order and not after now. */
  ghost predicate LinksAgree(g: Links, now: real) {
    && g.undirected == Undirected(g.directed)
    && g.firstSeen.Keys == g.lastSeen.Keys == g.undirected
    && forall e :: e in g.undirected ==> g.firstSeen[e] <= g.lastSeen[e] <= now
  }

  lemma SeeLinkAgrees(g: Links, x: Address, y: Address, before: real, now: real)
    requires LinksAgree(g, before) && before <= now
    ensures LinksAgree(SeeLink(g, x, y, now), now)
  {
    var h, e := SeeLink(g, x, y, now), Canonical(x, y);
    assert Undirected(h.directed) == Undirected(g.directed) + {e} by {
      assert (x, y) in h.directed;
      forall f | f in Undirected(g.directed) ensures f in Undirected(h.directed) {
        var d :| d in g.directed && f == Canonical(d.0, d.1);
        assert d in h.directed;
      }
    }
  }

  lemma {:induction false} SeeLinksAgrees(g: Links, x: Address, ys: seq<Address>, before: real, now: real)
    requires LinksAgree(g, before) && before <= now
    ensures LinksAgree(SeeLinks(g, x, ys, now), now)
  {
    if ys != [] {
      SeeLinksAgrees(g, x, ys[..|ys| - 1], before, now);
      SeeLinkAgrees(SeeLinks(g, x, ys[..|ys| - 1], now), x, ys[|ys| - 1], now, now);
    }
  }

  /** What a message's advertised list adds: the pairs from the sender, and a
      last time for each of their edges. */
  lemma {:induction false} SeeLinksAdds(g: Links, x: Address, ys: seq<Address>, now: real)
    ensures SeeLinks(g, x, ys, now).directed == g.directed + (set y | y in ys :: (x, y))
    ensures forall y :: y in ys ==>
      Canonical(x, y) in SeeLinks(g, x, ys, now).lastSeen && SeeLinks(g, x, ys, now).lastSeen[Canonical(x, y)] == now
    ensures forall e :: e in g.firstSeen ==> e in SeeLinks(g, x, ys, now).firstSeen && SeeLinks(g, x, ys, now).firstSeen[e] == g.firstSeen[e]
  {
    if ys != [] {
      SeeLinksAdds(g, x, ys[..|ys| - 1], now);
      assert ys == ys[..|ys| - 1] + [ys[|ys| - 1]];
    }
  }

  // ------------------------------------------------------- directed against undirected

  function Reverse(d: (Address, Address)): (Address, Address) {
    (d.1, d.0)
  }

  /** The pairs heard one way only. */
  ghost function OneWay(directed: set<(Address, Address)>): set<(Address, Address)> {
    set d | d in directed && Reverse(d) !in directed
  }

  ghost function Loops(directed: set<(Address, Address)>): set<(Address, Address)> {
    set d | d in directed && d.0 == d.1
  }

  /** Twice the undirected edges: the directed pairs, the missing reverses of the
      one-way pairs, and each loop once more. */
  lemma {:induction false} EdgesFromPairs(directed: set<(Address, Address)>)
    ensures 2 * |Undirected(directed)| == |directed| + |OneWay(directed)| + |Loops(directed)|
    decreases |directed|
  {
    if directed != {} {
      var d :| d in directed;
      var both := {d, Reverse(d)} * directed;
      var rest := directed - both;
      EdgesFromPairs(rest);
      RemoveBoth(directed, d, both, rest);
    }
  }

  /** both is the part of a pair and its reverse that was heard, rest the others. */
  ghost predicate Split(directed: set<(Address, Address)>, d: (Address, Address), both: set<(Address, Address)>, rest: set<(Address, Address)>) {
    d in directed && both == {d, Reverse(d)} * directed && rest == directed - both
  }

  lemma RemoveBoth(directed: set<(Address, Address)>, d: (Address, Address), both: set<(Address, Address)>, rest: set<(Address, Address)>)
    requires Split(directed, d, both, rest)
    ensures |rest| < |directed|
    ensures 2 * |Undirected(directed)| - |directed| - |OneWay(directed)| - |Loops(directed)|
         == 2 * |Undirected(rest)| - |rest| - |OneWay(rest)| - |Loops(rest)|
  {
    RemoveEdge(directed, d, both, rest);
    UnionSize(Undirected(rest), {Canonical(d.0, d.1)}, Undirected(directed));
    UnionSize(rest, both, directed);
    RemoveSides(directed, d, both, rest);
    hide Undirected, OneWay, Loops;
  }

  lemma RemoveSides(directed: set<(Address, Address)>, d: (Address, Address), both: set<(Address, Address)>, rest: set<(Address, Address)>)
    requires Split(directed, d, both, rest)
    ensures 2 == |both| + |OneWay(directed)| - |OneWay(rest)| + |Loops(directed)| - |Loops(rest)|
  {
    if d.0 == d.1 {
      assert both == {d};
      assert OneWay(directed) == OneWay(rest);
      assert Loops(directed) == Loops(rest) + {d};
    } else if Reverse(d) in directed {
      assert both == {d, Reverse(d)};
      assert OneWay(directed) == OneWay(rest);
      assert Loops(directed) == Loops(rest);
    } else {
      assert both == {d};
      assert OneWay(directed) == OneWay(rest) + {d};
      assert Loops(directed) == Loops(rest);
    }
  }

  lemma RemoveEdge(directed: set<(Address, Address)>, d: (Address, Address), both: set<(Address, Address)>, rest: set<(Address, Address)>)
    requires Split(directed, d, both, rest)
    ensures Undirected(directed) == Undirected(rest) + {Canonical(d.0, d.1)}
    ensures Canonical(d.0, d.1) !in Undirected(rest)
  {
    forall f | f in directed && f !in both ensures Canonical(f.0, f.1) in Undirected(rest) {
      assert f in rest;
    }
  }

  /** NumAsym: how many pairs have no pair the other way. */
  method CountOneWay(directed: set<(Address, Address)>) returns (count: nat)
    ensures count == |OneWay(directed)|
    ensures 2 * |Undirected(directed)| == |directed| + count + |Loops(directed)|
  {
    var todo := directed;
    count := 0;
    ghost var counted: set<(Address, Address)> := {};
    while todo != {}
      invariant todo <= directed
      invariant counted == (set d | d in directed - todo && Reverse(d) !in directed)
      invariant count == |counted|
      decreases |todo|
    {
      var d :| d in todo;
      todo := todo - {d};
      if Reverse(d) !in directed {
        count := count + 1;
        counted := counted + {d};
      }
    }
    assert counted == OneWay(directed);
    EdgesFromPairs(directed);
  }

  // ------------------------------------------------------------ halves of the window

  const FLOOR: real := 0.000001

  function HalfPoint(start: real, end: real): real {
    start + (if end - start > FLOOR then end - start else FLOOR) * 0.5
  }

  /** Edges first advertised in the late half, and edges not advertised after the
      early one. */
  ghost function Emerged(g: Links, half: real): set<Edge>
    requires g.undirected <= g.firstSeen.Keys
  {
    set e | e in g.undirected && g.firstSeen[e] >= half
  }

  ghost function Churned(g: Links, half: real): set<Edge>
    requires g.undirected <= g.lastSeen.Keys
  {
    set e | e in g.undirected && g.lastSeen[e] < half
  }

  /** Buckets every edge by window half; an edge in the late half only has
      emerged, one in the early half only has churned. */
  method EdgeHalves(g: Links, start: real, end: real, ghost now: real) returns (early: set<Edge>, late: set<Edge>, emerged: nat, churned: nat)
    requires LinksAgree(g, now)
    ensures early + late == g.undirected
    ensures emerged == |late - early| && churned == |early - late|
    ensures end - start > 0.000001 ==>
              && late - early == (set e | e in g.undirected && 2.0 * g.firstSeen[e] >= start + end)
              && early - late == (set e | e in g.undirected && 2.0 * g.lastSeen[e] < start + end)
    ensures end - start <= 0.000001 ==>
              && late - early == (set e | e in g.undirected && g.firstSeen[e] >= start + 0.0000005)
              && early - late == (set e | e in g.undirected && g.lastSeen[e] < start + 0.0000005)
    ensures emerged + churned <= |g.undirected|
  {
    var half := HalfPoint(start, end);
    early, late := Bucket(g, half);
    emerged := CountOutside(late, early);
    churned := CountOutside(early, late);
    HalvesCover(g, half, now, early, late);
    Apart(late - early, early - late, g.undirected);
    HalvesInWindow(g, start, end);
    hide Buckets, HalfPoint, LinksAgree, Emerged, Churned;
  }

  /** An edge emerged when first seen after the middle of the window, and churned when
      last seen before it. */
  lemma HalvesInWindow(g: Links, start: real, end: real)
    requires g.undirected <= g.firstSeen.Keys && g.undirected <= g.lastSeen.Keys
    ensures end - start > 0.000001 ==>
              && Emerged(g, HalfPoint(start, end)) == (set e | e in g.undirected && 2.0 * g.firstSeen[e] >= start + end)
              && Churned(g, HalfPoint(start, end)) == (set e | e in g.undirected && 2.0 * g.lastSeen[e] < start + end)
    ensures end - start <= 0.000001 ==>
              && Emerged(g, HalfPoint(start, end)) == (set e | e in g.undirected && g.firstSeen[e] >= start + 0.0000005)
              && Churned(g, HalfPoint(start, end)) == (set e | e in g.undirected && g.lastSeen[e] < start + 0.0000005)
  {
  }

  ghost predicate Buckets(g: Links, half: real, done: set<Edge>, early: set<Edge>, late: set<Edge>)
    requires done <= g.firstSeen.Keys * g.lastSeen.Keys
  {
    && early == (set e | e in done && g.firstSeen[e] < half)
    && late == (set e | e in done && g.lastSeen[e] >= half)
  }

  lemma HalvesCover(g: Links, half: real, now: real, early: set<Edge>, late: set<Edge>)
    requires LinksAgree(g, now) && Buckets(g, half, g.undirected, early, late)
    ensures early + late == g.undirected
    ensures late - early == Emerged(g, half) && early - late == Churned(g, half)
  {
    hide Undirected;
  }

  lemma BucketsGrow(g: Links, half: real, done: set<Edge>, e: Edge, early: set<Edge>, late: set<Edge>)
    requires done + {e} <= g.firstSeen.Keys * g.lastSeen.Keys && Buckets(g, half, done, early, late)
    ensures Buckets(g, half, done + {e}, if g.firstSeen[e] < half then early + {e} else early, if g.lastSeen[e] >= half then late + {e} else late)
  {
  }

  method Bucket(g: Links, half: real) returns (early: set<Edge>, late: set<Edge>)
    requires g.firstSeen.Keys == g.lastSeen.Keys == g.undirected
    ensures Buckets(g, half, g.undirected, early, late)
  {
    var todo := g.undirected;
    early, late := {}, {};
    while todo != {}
      invariant todo <= g.undirected
      invariant Buckets(g, half, g.undirected - todo, early, late)
      decreases |todo|
    {
      var e :| e in todo;
      assert g.undirected - (todo - {e}) == g.undirected - todo + {e};
      BucketsGrow(g, half, g.undirected - todo, e, early, late);
      hide Buckets;
      todo := todo - {e};
      if e in g.firstSeen && e in g.lastSeen {
        if g.firstSeen[e] < half { early := early + {e}; }
        if g.lastSeen[e] >= half { late := late + {e}; }
      }
    }
    assert g.undirected - {} == g.undirected;
  }

  method CountOutside(s: set<Edge>, t: set<Edge>) returns (count: nat)
    ensures count == |s - t|
  {
    var todo := s;
    count := 0;
    while todo != {}
      invariant todo <= s
      invariant count == |(s - todo) - t|
      decreases |todo|
    {
      var e :| e in todo;
      ghost var was := (s - todo) - t;
      todo := todo - {e};
      assert (s - todo) - t == if e in t then was else was + {e};
      if e !in t { count := count + 1; }
    }
    assert s - {} - t == s - t;
  }
}
