/** The selection of endpoint-disjoint data flows and its geometric hop bound. */
module FlowPairs {
  import opened Graphs
  import opened Shuffle

  const SERVER: nat := 0
  const CLIENT: nat := 1

  datatype Result<+T> = Success(value: T) | Aborted

  datatype Flow = Flow(src: nat, dst: nat)

  // -------------------------------------------------------------- geometry

  datatype Point = Point(x: real, y: real, z: real)

  function SquaredDistance(a: Point, b: Point): real {
    (a.x - b.x) * (a.x - b.x) + (a.y - b.y) * (a.y - b.y) + (a.z - b.z) * (a.z - b.z)
  }

  /** d is the Euclidean distance between the nodes placed at pos. */
  ghost predicate IsEuclid(pos: seq<Point>, d: (nat, nat) -> real) {
    forall a, b :: 0 <= a < |pos| && 0 <= b < |pos| ==> d(a, b) >= 0.0 && d(a, b) * d(a, b) == SquaredDistance(pos[a], pos[b])
  }

  lemma Square(a: real)
    ensures a * a >= 0.0
  {
  }

  /** (u.v)^2 <= |u|^2 |v|^2 */
  lemma CauchySchwarz(u1: real, u2: real, u3: real, v1: real, v2: real, v3: real)
    ensures (u1 * v1 + u2 * v2 + u3 * v3) * (u1 * v1 + u2 * v2 + u3 * v3)
      <= (u1 * u1 + u2 * u2 + u3 * u3) * (v1 * v1 + v2 * v2 + v3 * v3)
  {
    var p, q, r := u1 * v2 - u2 * v1, u1 * v3 - u3 * v1, u2 * v3 - u3 * v2;
    Square(p);
    Square(q);
    Square(r);
    assert (u1 * u1 + u2 * u2 + u3 * u3) * (v1 * v1 + v2 * v2 + v3 * v3)
      == (u1 * v1 + u2 * v2 + u3 * v3) * (u1 * v1 + u2 * v2 + u3 * v3) + p * p + q * q + r * r;
  }

  lemma SquareGrows(a: real, b: real)
    requires a > b >= 0.0
    ensures a * a > b * b
  {
    PositiveProduct(a - b, a + b);
    assert a * a - b * b == (a - b) * (a + b);
  }

  lemma PositiveProduct(p: real, q: real)
    requires p > 0.0 && q > 0.0
    ensures p * q > 0.0
  {
  }

  lemma SquareMonotone(a: real, b: real)
    requires b >= 0.0 && a * a <= b * b
    ensures a <= b
  {
    if a > b { SquareGrows(a, b); }
  }

  lemma TriangleInequality(a: Point, b: Point, c: Point, ab: real, bc: real, ac: real)
    requires ab >= 0.0 && bc >= 0.0 && ac >= 0.0
    requires ab * ab == SquaredDistance(a, b) && bc * bc == SquaredDistance(b, c) && ac * ac == SquaredDistance(a, c)
    ensures ac <= ab + bc
  {
    var u1, u2, u3 := a.x - b.x, a.y - b.y, a.z - b.z;
    var v1, v2, v3 := b.x - c.x, b.y - c.y, b.z - c.z;
    var dot := u1 * v1 + u2 * v2 + u3 * v3;
    CauchySchwarz(u1, u2, u3, v1, v2, v3);
    assert dot * dot <= ab * ab * (bc * bc) == (ab * bc) * (ab * bc);
    assert ab * bc >= 0.0;
    SquareMonotone(dot, ab * bc);
    assert ac * ac == ab * ab + bc * bc + 2.0 * dot;
    assert (ab + bc) * (ab + bc) == ab * ab + bc * bc + 2.0 * (ab * bc);
    SquareMonotone(ac, ab + bc);
  }

  /** A sequence of nodes, each within range of the one before. */
  ghost predicate RadioRoute(d: (nat, nat) -> real, n: nat, range: real, route: seq<nat>) {
    && route != []
    && (forall i :: 0 <= i < |route| ==> route[i] < n)
    && (forall i :: 0 <= i < |route| - 1 ==> d(route[i], route[i + 1]) <= range)
  }

  lemma NoDistance(pos: seq<Point>, d: (nat, nat) -> real, a: nat)
    requires IsEuclid(pos, d) && a < |pos|
    ensures d(a, a) == 0.0
  {
    var r := d(a, a);
    assert r * r == SquaredDistance(pos[a], pos[a]) == 0.0;
    SquareMonotone(r, 0.0);
  }

  lemma OneHopMore(pos: seq<Point>, d: (nat, nat) -> real, a: nat, b: nat, c: nat)
    requires IsEuclid(pos, d) && a < |pos| && b < |pos| && c < |pos|
    ensures d(a, c) <= d(a, b) + d(b, c)
  {
    hide SquaredDistance;
    TriangleInequality(pos[a], pos[b], pos[c], d(a, b), d(b, c), d(a, c));
  }

  lemma Multiples(range: real, k: nat, m: nat)
    requires range >= 0.0
    ensures (k + 1) as real * range == k as real * range + range
    ensures k <= m ==> k as real * range <= m as real * range
  {
  }

  lemma Further(near: real, hop: real, far: real, range: real, k: nat)
    requires near <= k as real * range && hop <= range && far <= near + hop
    ensures far <= (k + 1) as real * range
  {
    assert (k + 1) as real == k as real + 1.0;
  }

  /** k hops reach at most k times the range. */
  lemma {:induction false} RouteReach(pos: seq<Point>, d: (nat, nat) -> real, range: real, route: seq<nat>, k: nat)
    requires IsEuclid(pos, d) && RadioRoute(d, |pos|, range, route) && k < |route| && range >= 0.0
    ensures d(route[0], route[k]) <= k as real * range
  {
    hide IsEuclid;
    if k == 0 {
      NoDistance(pos, d, route[0]);
    } else {
      var j := k - 1;
      RouteReach(pos, d, range, route, j);
      OneHopMore(pos, d, route[0], route[j], route[j + 1]);
      Further(d(route[0], route[j]), d(route[j], route[j + 1]), d(route[0], route[j + 1]), range, j);
    }
  }

  function MinDist(minHops: nat, radioRange: real): real {
    if minHops >= 1 then (minHops - 1) as real * radioRange else 0.0
  }

  /** Any route between nodes further apart than the bound has at least minHops hops. */
  lemma FarPairsNeedHops(pos: seq<Point>, d: (nat, nat) -> real, range: real, minHops: nat, route: seq<nat>)
    requires IsEuclid(pos, d) && RadioRoute(d, |pos|, range, route) && range >= 0.0
    requires d(route[0], route[|route| - 1]) > MinDist(minHops, range)
    ensures |route| - 1 >= minHops
  {
    RouteReach(pos, d, range, route, |route| - 1);
    if |route| - 1 < minHops { FewHops(range, |route| - 1, minHops); }
    hide IsEuclid, MinDist;
  }

  lemma FewHops(range: real, k: nat, minHops: nat)
    requires range >= 0.0 && k < minHops
    ensures k as real * range <= MinDist(minHops, range)
  {
    Multiples(range, k, minHops - 1);
  }

  function Apart(a: nat, b: nat, range: real): real {
    if a < b then (b as real - a as real) * range else (a as real - b as real) * range
  }

  lemma ApartOnLine(a: nat, b: nat, range: real)
    requires range >= 0.0
    ensures Apart(a, b, range) >= 0.0
    ensures var x, y := a as real * range, b as real * range; Apart(a, b, range) * Apart(a, b, range) == (x - y) * (x - y)
  {
    var x, y := a as real * range, b as real * range;
    assert x - y == (a as real - b as real) * range;
    assert Apart(a, b, range) == x - y || Apart(a, b, range) == y - x;
  }

  function Line(n: nat, range: real): (pos: seq<Point>)
    ensures |pos| == n
  {
    seq(n, i requires 0 <= i < n => Point(i as real * range, 0.0, 0.0))
  }

  function AlongLine(range: real): (nat, nat) -> real {
    (a: nat, b: nat) => Apart(a, b, range)
  }

  lemma LineEuclid(n: nat, range: real)
    requires range >= 0.0
    ensures IsEuclid(Line(n, range), AlongLine(range))
  {
    hide Apart;
    forall a: nat, b: nat | a < n && b < n
      ensures Apart(a, b, range) >= 0.0 && Apart(a, b, range) * Apart(a, b, range) == SquaredDistance(Line(n, range)[a], Line(n, range)[b])
    {
      ApartOnLine(a, b, range);
      OnlyX(a as real * range, b as real * range);
    }
  }

  lemma OnlyX(x: real, y: real)
    ensures SquaredDistance(Point(x, 0.0, 0.0), Point(y, 0.0, 0.0)) == (x - y) * (x - y)
  {
  }

  lemma NextOnLine(i: nat, j: nat, range: real)
    requires j == i + 1
    ensures Apart(i, j, range) == range
  {
    assert j as real - i as real == 1.0;
  }

  /** The bound is tight: nodes in a line, each in range of the next, whose ends are
      exactly as far apart as the bound and joined by one hop fewer. */
  lemma BoundIsTight(minHops: nat, range: real) returns (pos: seq<Point>, d: (nat, nat) -> real, route: seq<nat>)
    requires range >= 0.0 && minHops >= 1
    ensures IsEuclid(pos, d) && RadioRoute(d, |pos|, range, route) && |route| - 1 == minHops - 1
    ensures d(route[0], route[|route| - 1]) == MinDist(minHops, range)
  {
    pos, d := Line(minHops, range), AlongLine(range);
    route := seq(minHops, i requires 0 <= i < minHops => i);
    LineEuclid(minHops, range);
    assert d(0, minHops - 1) == MinDist(minHops, range);
    hide IsEuclid, Apart, MinDist, Line;
    forall i: nat | i < |route| - 1
      ensures d(route[i], route[i + 1]) <= range
    {
      NextOnLine(i, i + 1, range);
    }
  }

  // ------------------------------------------------------------- selection

  /** The nodes that flows after the first may use. */
  function IsCandidate(n: nat, attackers: set<nat>, c: nat): bool {
    c < n && c !in attackers && c != SERVER && c != CLIENT
  }

  function Endpoints(flows: seq<Flow>): (e: seq<nat>)
    ensures |e| == 2 * |flows|
  {
    if flows == [] then []
    else Endpoints(flows[..|flows| - 1]) + [flows[|flows| - 1].src, flows[|flows| - 1].dst]
  }

  ghost predicate FreeBefore(n: nat, attackers: set<nat>, flows: seq<Flow>, k: nat, c: nat)
    requires k <= |flows|
  {
    c < n && c !in attackers && c != 0 && c != 1 && c !in Endpoints(flows[..k])
  }

  /** Flow k joins two candidates unused by the flows before it; they are beyond
      the bound, or no two unused candidates are and these are a farthest pair. */
  ghost predicate WellChosen(n: nat, attackers: set<nat>, d: (nat, nat) -> real, bound: real, flows: seq<Flow>, k: nat)
    requires k < |flows|
  {
    var f := flows[k];
    && FreeBefore(n, attackers, flows, k, f.src) && FreeBefore(n, attackers, flows, k, f.dst) && f.src != f.dst
    && (d(f.src, f.dst) > bound
        || forall a, b :: FreeBefore(n, attackers, flows, k, a) && FreeBefore(n, attackers, flows, k, b) && a != b ==>
             d(a, b) <= bound && d(a, b) <= d(f.src, f.dst))
  }

  /** cand lists the candidates that no flow uses yet, each once. */
  ghost predicate Pool(n: nat, attackers: set<nat>, flows: seq<Flow>, cand: seq<nat>) {
    Distinct(cand) && forall c :: c in cand <==> FreeBefore(n, attackers, flows, |flows|, c)
  }

  lemma FirstPool(n: nat, attackers: set<nat>, cand: seq<nat>)
    requires Distinct(cand) && forall c :: c in cand <==> IsCandidate(n, attackers, c)
    ensures Pool(n, attackers, [Flow(CLIENT, SERVER)], cand)
  {
    var flows := [Flow(CLIENT, SERVER)];
    assert Endpoints(flows) == Endpoints(flows[..0]) + [CLIENT, SERVER] && flows[..|flows|] == flows;
    assert Endpoints(flows) == [CLIENT, SERVER];
  }

  /** Removing two entries, the later one first. */
  function WithoutTwo(cand: seq<nat>, i: nat, j: nat): seq<nat>
    requires i < |cand| && j < |cand| && i != j
  {
    var hi, lo := if i > j then i else j, if i > j then j else i;
    var once := cand[..hi] + cand[hi + 1..];
    once[..lo] + once[lo + 1..]
  }

  lemma WithoutOneMembers(cand: seq<nat>, k: nat)
    requires k < |cand| && Distinct(cand)
    ensures var r := cand[..k] + cand[k + 1..];
      && |r| == |cand| - 1 && Distinct(r)
      && (forall c :: c in r <==> c in cand && c != cand[k])
      && forall m :: 0 <= m < k ==> r[m] == cand[m]
  {
    var r := cand[..k] + cand[k + 1..];
    assert forall m :: 0 <= m < |r| ==> r[m] == cand[if m < k then m else m + 1];
    forall c | c in cand && c != cand[k]
      ensures c in r
    {
      var m :| 0 <= m < |cand| && cand[m] == c;
      assert r[if m < k then m else m - 1] == c;
    }
  }

  lemma WithoutTwoMembers(cand: seq<nat>, i: nat, j: nat)
    requires i < |cand| && j < |cand| && i != j && Distinct(cand)
    ensures |WithoutTwo(cand, i, j)| == |cand| - 2 && Distinct(WithoutTwo(cand, i, j))
    ensures forall c :: c in WithoutTwo(cand, i, j) <==> c in cand && c != cand[i] && c != cand[j]
  {
    hide Distinct;
    var hi, lo := if i > j then i else j, if i > j then j else i;
    var once := cand[..hi] + cand[hi + 1..];
    WithoutOneMembers(cand, hi);
    WithoutOneMembers(once, lo);
    assert once[lo] == cand[lo];
    assert {cand[i], cand[j]} == {cand[hi], cand[lo]};
  }

  lemma EndpointsAppend(flows: seq<Flow>, f: Flow)
    ensures Endpoints(flows + [f]) == Endpoints(flows) + [f.src, f.dst]
  {
    assert (flows + [f])[..|flows|] == flows;
  }

  lemma NextPool(n: nat, attackers: set<nat>, flows: seq<Flow>, cand: seq<nat>, i: nat, j: nat)
    requires Pool(n, attackers, flows, cand) && i < |cand| && j < |cand| && i != j
    ensures Pool(n, attackers, flows + [Flow(cand[i], cand[j])], WithoutTwo(cand, i, j))
  {
    var on := flows + [Flow(cand[i], cand[j])];
    EndpointsAppend(flows, Flow(cand[i], cand[j]));
    WithoutTwoMembers(cand, i, j);
    assert flows[..|flows|] == flows && on[..|on|] == on;
  }

  /** The flows chosen so far, and what is left to choose from. */
  ghost predicate Chosen(n: nat, attackers: set<nat>, d: (nat, nat) -> real, bound: real, flows: seq<Flow>, cand: seq<nat>) {
    && flows != [] && flows[0] == Flow(CLIENT, SERVER)
    && Pool(n, attackers, flows, cand)
    && Distinct(Endpoints(flows))
    && forall k :: 1 <= k < |flows| ==> WellChosen(n, attackers, d, bound, flows, k)
  }

  lemma LastChosen(n: nat, attackers: set<nat>, d: (nat, nat) -> real, bound: real, flows: seq<Flow>, cand: seq<nat>, i: nat, j: nat)
    requires Pool(n, attackers, flows, cand) && i < |cand| && j < |cand| && i != j
    requires d(cand[i], cand[j]) > bound
      || forall a, b :: 0 <= a < |cand| && 0 <= b < |cand| && a != b ==>
           d(cand[a], cand[b]) <= bound && d(cand[a], cand[b]) <= d(cand[i], cand[j])
    ensures d(cand[i], cand[j]) > bound
      || forall a, b :: FreeBefore(n, attackers, flows, |flows|, a) && FreeBefore(n, attackers, flows, |flows|, b) && a != b ==>
           d(a, b) <= bound && d(a, b) <= d(cand[i], cand[j])
  {
    if d(cand[i], cand[j]) <= bound {
      forall a, b | FreeBefore(n, attackers, flows, |flows|, a) && FreeBefore(n, attackers, flows, |flows|, b) && a != b
        ensures d(a, b) <= bound && d(a, b) <= d(cand[i], cand[j])
      {
        assert a in cand && b in cand;
        var x :| 0 <= x < |cand| && cand[x] == a;
        var y :| 0 <= y < |cand| && cand[y] == b;
      }
    }
  }

  lemma ChooseNext(n: nat, attackers: set<nat>, d: (nat, nat) -> real, bound: real, flows: seq<Flow>, cand: seq<nat>, i: nat, j: nat)
    requires Chosen(n, attackers, d, bound, flows, cand) && i < |cand| && j < |cand| && i != j
    requires d(cand[i], cand[j]) > bound
      || forall a, b :: 0 <= a < |cand| && 0 <= b < |cand| && a != b ==>
           d(cand[a], cand[b]) <= bound && d(cand[a], cand[b]) <= d(cand[i], cand[j])
    ensures Chosen(n, attackers, d, bound, flows + [Flow(cand[i], cand[j])], WithoutTwo(cand, i, j))
  {
    var on := flows + [Flow(cand[i], cand[j])];
    NextPool(n, attackers, flows, cand, i, j);
    EndpointsAppend(flows, Flow(cand[i], cand[j]));
    assert cand[i] in cand && cand[j] in cand && flows[..|flows|] == flows;
    forall k | 1 <= k < |on|
      ensures WellChosen(n, attackers, d, bound, on, k)
    {
      assert on[..k] == flows[..k];
      assert forall c :: FreeBefore(n, attackers, on, k, c) <==> FreeBefore(n, attackers, flows, k, c);
      if k < |flows| { assert WellChosen(n, attackers, d, bound, flows, k); } else { LastChosen(n, attackers, d, bound, flows, cand, i, j); }
    }
  }

  /** The first pair beyond the bound, if any. */
  method FindFarPair(d: (nat, nat) -> real, bound: real, cand: seq<nat>) returns (made: bool, i: nat, j: nat)
    ensures made ==> i < |cand| && j < |cand| && i != j && d(cand[i], cand[j]) > bound
    ensures made ==> forall a, b :: 0 <= a < |cand| && 0 <= b < |cand| && a != b && (a < i || (a == i && b < j)) ==> d(cand[a], cand[b]) <= bound
    ensures !made ==> forall a, b :: 0 <= a < |cand| && 0 <= b < |cand| && a != b ==> d(cand[a], cand[b]) <= bound
  {
    made, i, j := false, 0, 0;
    for si := 0 to |cand|
      invariant !made && forall a, b :: 0 <= a < si && 0 <= b < |cand| && a != b ==> d(cand[a], cand[b]) <= bound
    {
      for di := 0 to |cand|
        invariant !made && forall b :: 0 <= b < di && b != si ==> d(cand[si], cand[b]) <= bound
      {
        if di == si { continue; }
        if d(cand[si], cand[di]) <= bound { continue; }
        return true, si, di;
      }
    }
  }

  /** best is the distance of the pair, all pairs before it are closer, and none among
      those looked at, the ones before (a, b), is farther. */
  ghost predicate Farthest(d: (nat, nat) -> real, cand: seq<nat>, bi: int, bj: int, best: real, a: int, b: int) {
    && 0 <= bi < |cand| && 0 <= bj < |cand| && bi != bj && best == d(cand[bi], cand[bj])
    && (forall x, y :: 0 <= x < |cand| && 0 <= y < |cand| && x != y && Earlier(x, y, bi, bj) ==> d(cand[x], cand[y]) < best)
    && (forall x, y :: 0 <= x < |cand| && 0 <= y < |cand| && x != y && Earlier(x, y, a, b) ==> d(cand[x], cand[y]) <= best)
  }

  ghost predicate Earlier(x: int, y: int, i: int, j: int) {
    x < i || (x == i && y < j)
  }

  lemma FarthestNext(d: (nat, nat) -> real, cand: seq<nat>, bi: int, bj: int, best: real, a: nat, b: nat)
    requires a < |cand| && b < |cand|
    requires Farthest(d, cand, bi, bj, best, a, b)
    ensures a == b || d(cand[a], cand[b]) <= best ==> Farthest(d, cand, bi, bj, best, a, b + 1)
    ensures a != b && d(cand[a], cand[b]) > best ==> Farthest(d, cand, a, b, d(cand[a], cand[b]), a, b + 1)
  {
  }

  lemma FarthestLine(d: (nat, nat) -> real, cand: seq<nat>, bi: int, bj: int, best: real, a: nat)
    requires Farthest(d, cand, bi, bj, best, a, |cand|)
    ensures Farthest(d, cand, bi, bj, best, a + 1, 0)
  {
  }

  /** Nothing is found yet, as long as only the pair (0, 0) is behind. */
  ghost predicate NoneFound(best: real, a: int, b: int) {
    best == -1.0 && a == 0 && b <= 1
  }

  /** The first farthest pair. */
  method FindFarthestPair(d: (nat, nat) -> real, cand: seq<nat>) returns (bi: nat, bj: nat)
    requires |cand| >= 2 && forall a, b :: 0 <= a < |cand| && 0 <= b < |cand| ==> d(cand[a], cand[b]) >= 0.0
    ensures bi < |cand| && bj < |cand| && Farthest(d, cand, bi, bj, d(cand[bi], cand[bj]), |cand|, 0)
  {
    hide Farthest;
    bi, bj := 0, 1;
    var best := -1.0;
    for a := 0 to |cand|
      invariant bi < |cand| && bj < |cand|
      invariant if a == 0 then best == -1.0 else Farthest(d, cand, bi, bj, best, a, 0)
    {
      for b := 0 to |cand|
        invariant bi < |cand| && bj < |cand|
        invariant NoneFound(best, a, b) || Farthest(d, cand, bi, bj, best, a, b)
      {
        if Farthest(d, cand, bi, bj, best, a, b) { FarthestNext(d, cand, bi, bj, best, a, b); }
        if a == b { continue; }
        if d(cand[a], cand[b]) > best {
          assert NoneFound(best, a, b) ==> Farthest(d, cand, a, b, d(cand[a], cand[b]), a, b + 1) by { FirstFound(d, cand); }
          best := d(cand[a], cand[b]);
          bi, bj := a, b;
        }
      }
      FarthestLine(d, cand, bi, bj, best, a);
    }
    FarthestIs(d, cand, bi, bj, best);
  }

  lemma FirstFound(d: (nat, nat) -> real, cand: seq<nat>)
    requires |cand| >= 2
    ensures Farthest(d, cand, 0, 1, d(cand[0], cand[1]), 0, 2)
  {
  }

  lemma FarthestIs(d: (nat, nat) -> real, cand: seq<nat>, bi: nat, bj: nat, best: real)
    requires Farthest(d, cand, bi, bj, best, |cand|, 0)
    ensures bi < |cand| && bj < |cand| && best == d(cand[bi], cand[bj])
  {
  }

  method Candidates(n: nat, attackers: set<nat>) returns (cand: seq<nat>)
    ensures Increasing(cand) && Distinct(cand) && forall c :: c in cand <==> IsCandidate(n, attackers, c)
  {
    cand := [];
    for i := 0 to n
      invariant Increasing(cand) && forall a :: 0 <= a < |cand| ==> cand[a] < i
      invariant forall c: nat :: c in cand <==> IsCandidate(n, attackers, c) && c < i
    {
      if i in attackers { continue; }
      if i == SERVER || i == CLIENT { continue; }
      assert i !in cand;
      cand := cand + [i];
    }
  }

  method ShuffledCandidates(cand0: seq<nat>, raw: Stream) returns (cand: seq<nat>)
    requires AlwaysAccepts(raw) && Distinct(cand0) && |cand0| <= RANGE
    ensures |cand| == |cand0| && Distinct(cand) && forall c :: c in cand <==> c in cand0
    ensures ShuffleOf(raw, 0, cand0, cand)
  {
    var a := new nat[|cand0|](i requires 0 <= i < |cand0| => cand0[i]);
    assert a[..] == cand0;
    var next;
    ghost var c, ends;
    next, c, ends := DeterministicShuffle(a, raw, 0);
    cand := a[..];
    ShuffledIsPermutation(cand0, c);
    Rearranged(cand0, cand);
  }

  lemma Rearranged(s: seq<nat>, r: seq<nat>)
    requires multiset(r) == multiset(s) && |r| == |s| && Distinct(s)
    ensures Distinct(r) && forall c :: c in r <==> c in s
  {
    forall c ensures c in r <==> c in s { assert c in multiset(r) <==> c in multiset(s); }
    forall i, j | 0 <= i < j < |r|
      ensures r[i] != r[j]
    {
      DistinctCounts(s, r[i]);
      if r[i] == r[j] { TwiceCounts(r, i, j); }
    }
  }

  lemma {:induction false} DistinctCounts(s: seq<nat>, x: nat)
    requires Distinct(s)
    ensures multiset(s)[x] <= 1
  {
    if s != [] {
      var front := s[..|s| - 1];
      assert s == front + [s[|s| - 1]];
      DistinctCounts(front, x);
      if x == s[|s| - 1] { assert x !in front; }
    }
  }

  lemma TwiceCounts(r: seq<nat>, i: nat, j: nat)
    requires i < j < |r| && r[i] == r[j]
    ensures multiset(r)[r[i]] >= 2
  {
    assert r == r[..j] + r[j..] && r[i] in r[..j] && r[j] in r[j..];
  }

  // ----------------------------------------------------- the order of the choice

  /** The x-th of the shuffled candidates is used by none of the first k flows. */
  ghost predicate Unused(order: seq<nat>, flows: seq<Flow>, k: nat, x: int)
    requires k <= |flows|
  {
    0 <= x < |order| && order[x] !in Endpoints(flows[..k])
  }

  /** Flow k joins the i-th to the j-th of the shuffled candidates: the first unused
      pair beyond the bound, or where there is none the first of the farthest. */
  ghost predicate PickedAt(order: seq<nat>, d: (nat, nat) -> real, bound: real, flows: seq<Flow>, k: nat, i: int, j: int)
    requires k < |flows|
  {
    && Unused(order, flows, k, i) && Unused(order, flows, k, j) && i != j && flows[k] == Flow(order[i], order[j])
    && forall x, y :: Unused(order, flows, k, x) && Unused(order, flows, k, y) && x != y ==>
         if d(order[i], order[j]) > bound then Earlier(x, y, i, j) ==> d(order[x], order[y]) <= bound
         else d(order[x], order[y]) <= bound && d(order[x], order[y]) <= d(order[i], order[j])
              && (Earlier(x, y, i, j) ==> d(order[x], order[y]) < d(order[i], order[j]))
  }

  ghost predicate Picked(order: seq<nat>, d: (nat, nat) -> real, bound: real, flows: seq<Flow>, k: nat)
    requires k < |flows|
  {
    exists i, j :: PickedAt(order, d, bound, flows, k, i, j)
  }

  /** at tells where in the shuffled list the remaining candidates stand. */
  ghost predicate Positions(order: seq<nat>, cand: seq<nat>, at: seq<nat>) {
    |at| == |cand| && Increasing(at) && forall a :: 0 <= a < |at| ==> at[a] < |order| && order[at[a]] == cand[a]
  }

  lemma PositionsWithoutOne(order: seq<nat>, cand: seq<nat>, at: seq<nat>, k: nat)
    requires Positions(order, cand, at) && k < |cand|
    ensures Positions(order, cand[..k] + cand[k + 1..], at[..k] + at[k + 1..])
  {
    var r := at[..k] + at[k + 1..];
    assert forall m :: 0 <= m < |r| ==> r[m] == at[if m < k then m else m + 1];
  }

  lemma PositionsWithoutTwo(order: seq<nat>, cand: seq<nat>, at: seq<nat>, i: nat, j: nat)
    requires Positions(order, cand, at) && i < |cand| && j < |cand| && i != j
    ensures Positions(order, WithoutTwo(cand, i, j), WithoutTwo(at, i, j))
  {
    hide Positions;
    assert |at| == |cand| by { SameLength(order, cand, at); }
    var hi, lo := if i > j then i else j, if i > j then j else i;
    PositionsWithoutOne(order, cand, at, hi);
    PositionsWithoutOne(order, cand[..hi] + cand[hi + 1..], at[..hi] + at[hi + 1..], lo);
  }

  lemma SameLength(order: seq<nat>, cand: seq<nat>, at: seq<nat>)
    requires Positions(order, cand, at)
    ensures |at| == |cand|
  {
  }

  /** An unused position is that of a remaining candidate. */
  lemma UnusedStands(n: nat, attackers: set<nat>, order: seq<nat>, flows: seq<Flow>, on: seq<Flow>, cand: seq<nat>, at: seq<nat>, x: int)
    returns (a: nat)
    requires Distinct(order) && (forall c :: c in order <==> IsCandidate(n, attackers, c))
    requires Pool(n, attackers, flows, cand) && Positions(order, cand, at) && flows <= on && Unused(order, on, |flows|, x)
    ensures a < |at| && at[a] == x && order[x] == cand[a]
  {
    assert on[..|flows|] == flows == flows[..|flows|];
    assert order[x] in order;
    assert FreeBefore(n, attackers, flows, |flows|, order[x]);
    a :| 0 <= a < |cand| && cand[a] == order[x];
  }

  lemma PickedNext(n: nat, attackers: set<nat>, order: seq<nat>, d: (nat, nat) -> real, bound: real, flows: seq<Flow>, cand: seq<nat>,
      at: seq<nat>, i: nat, j: nat, on: seq<Flow>)
    requires Distinct(order) && (forall c :: c in order <==> IsCandidate(n, attackers, c))
    requires Pool(n, attackers, flows, cand) && Positions(order, cand, at) && i < |cand| && j < |cand| && i != j
    requires on == flows + [Flow(cand[i], cand[j])]
    requires forall a, b :: 0 <= a < |cand| && 0 <= b < |cand| && a != b ==> PairOrdered(d, bound, cand, i, j, a, b)
    ensures Picked(order, d, bound, on, |flows|)
  {
    assert on[..|flows|] == flows == flows[..|flows|];
    assert cand[i] in cand && cand[j] in cand;
    assert FreeBefore(n, attackers, flows, |flows|, cand[i]) && FreeBefore(n, attackers, flows, |flows|, cand[j]);
    forall x, y | Unused(order, on, |flows|, x) && Unused(order, on, |flows|, y) && x != y
      ensures if d(cand[i], cand[j]) > bound then Earlier(x, y, at[i], at[j]) ==> d(order[x], order[y]) <= bound
              else d(order[x], order[y]) <= bound && d(order[x], order[y]) <= d(cand[i], cand[j])
                   && (Earlier(x, y, at[i], at[j]) ==> d(order[x], order[y]) < d(cand[i], cand[j]))
    {
      var a := UnusedStands(n, attackers, order, flows, on, cand, at, x);
      var b := UnusedStands(n, attackers, order, flows, on, cand, at, y);
      assert PairOrdered(d, bound, cand, i, j, a, b);
    }
    assert PickedAt(order, d, bound, on, |flows|, at[i], at[j]);
  }

  /** How any pair of the remaining candidates compares with the one found. */
  ghost predicate PairOrdered(d: (nat, nat) -> real, bound: real, cand: seq<nat>, i: nat, j: nat, a: int, b: int)
    requires i < |cand| && j < |cand| && 0 <= a < |cand| && 0 <= b < |cand|
  {
    if d(cand[i], cand[j]) > bound then Earlier(a, b, i, j) ==> d(cand[a], cand[b]) <= bound
    else d(cand[a], cand[b]) <= bound && d(cand[a], cand[b]) <= d(cand[i], cand[j])
         && (Earlier(a, b, i, j) ==> d(cand[a], cand[b]) < d(cand[i], cand[j]))
  }

  lemma PickedStays(order: seq<nat>, d: (nat, nat) -> real, bound: real, flows: seq<Flow>, f: Flow, k: nat)
    requires k < |flows| && Picked(order, d, bound, flows, k)
    ensures Picked(order, d, bound, flows + [f], k)
  {
    assert (flows + [f])[..k] == flows[..k];
    assert forall x :: Unused(order, flows + [f], k, x) <==> Unused(order, flows, k, x);
    var i, j :| PickedAt(order, d, bound, flows, k, i, j);
    hide Unused;
    assert PickedAt(order, d, bound, flows + [f], k, i, j);
  }

  /** The next pair, by either search. */
  method NextPair(d: (nat, nat) -> real, bound: real, cand: seq<nat>) returns (i: nat, j: nat)
    requires |cand| >= 2 && forall a, b :: 0 <= a < |cand| && 0 <= b < |cand| ==> d(cand[a], cand[b]) >= 0.0
    ensures i < |cand| && j < |cand| && i != j
    ensures forall a, b :: 0 <= a < |cand| && 0 <= b < |cand| && a != b ==> PairOrdered(d, bound, cand, i, j, a, b)
  {
    var made;
    made, i, j := FindFarPair(d, bound, cand);
    if !made { i, j := FindFarthestPair(d, cand); }
    if !made { assert forall a, b :: 0 <= a < |cand| && 0 <= b < |cand| ==> Earlier(a, b, |cand|, 0); }
  }

  /** numFlows flows: the legacy pair, then endpoint-disjoint pairs of candidates, each as far apart as promised. */
  method SelectDataFlowPairs(n: nat, attackers: set<nat>, minHops: nat, radioRange: real, ghost pos: seq<Point>,
      d: (nat, nat) -> real, raw: Stream, numFlows: nat) returns (r: Result<seq<Flow>>, ghost listed: seq<nat>, ghost order: seq<nat>)
    requires numFlows >= 1 && |pos| == n <= RANGE && IsEuclid(pos, d) && AlwaysAccepts(raw)
    ensures r == Aborted <==> |CandidateSet(n, attackers)| + 2 < 2 * numFlows
    ensures Increasing(listed) && (forall c :: c in listed <==> c in CandidateSet(n, attackers))
    ensures r.Success? ==>
      && |r.value| == numFlows && r.value[0] == Flow(1, 0)
      && Distinct(Endpoints(r.value))
      && ShuffleOf(raw, 0, listed, order)
      && var bound := if minHops >= 1 then (minHops - 1) as real * radioRange else 0.0;
        && (forall k :: 1 <= k < numFlows ==> Picked(order, d, bound, r.value, k))
        && (forall k :: 1 <= k < numFlows ==> WellChosen(n, attackers, d, bound, r.value, k))
    ensures r.Success? ==> ((forall e :: e in Endpoints(r.value) ==> e !in attackers) <==> 0 !in attackers && 1 !in attackers)
  {
    hide Picked, PairOrdered, ShuffleOf, MinDist, Chosen, Positions, WellChosen, CandidateSet, Endpoints, Distinct, IsEuclid, AlwaysAccepts;
    var bound := MinDist(minHops, radioRange);
    var cand := Candidates(n, attackers);
    listed, order := cand, cand;
    CandidateCount(n, attackers, cand);
    CandidatesListed(n, attackers, cand);
    if |cand| + 2 < 2 * numFlows { return Aborted, listed, order; }
    CandidatesFit(n, attackers, cand);
    cand := ShuffledCandidates(cand, raw);
    order := cand;
    ghost var at: seq<nat> := seq(|cand|, a => a);
    var flows := [Flow(CLIENT, SERVER)];
    FirstChosen(n, attackers, d, bound, cand);
    EachInPlace(cand, at);
    while |flows| < numFlows
      invariant Chosen(n, attackers, d, bound, flows, cand) && Positions(order, cand, at)
      invariant forall k :: 1 <= k < |flows| ==> Picked(order, d, bound, flows, k)
      invariant |flows| <= numFlows && |cand| + 2 * |flows| >= 2 * numFlows
    {
      AllApart(n, attackers, pos, d, bound, flows, cand);
      var i, j := NextPair(d, bound, cand);
      NextChosen(n, attackers, order, d, bound, flows, cand, at, i, j);
      flows, at := flows + [Flow(cand[i], cand[j])], WithoutTwo(at, i, j);
      cand := WithoutTwo(cand, i, j);
    }
    AttackersAvoided(n, attackers, d, bound, flows, cand);
    ChosenMeans(n, attackers, d, bound, flows, cand);
    assert bound == if minHops >= 1 then (minHops - 1) as real * radioRange else 0.0 by { BoundIs(minHops, radioRange); }
    r := Success(flows);
  }

  lemma BoundIs(minHops: nat, radioRange: real)
    ensures MinDist(minHops, radioRange) == if minHops >= 1 then (minHops - 1) as real * radioRange else 0.0
  {
  }

  lemma CandidatesListed(n: nat, attackers: set<nat>, cand: seq<nat>)
    requires forall c :: c in cand <==> IsCandidate(n, attackers, c)
    ensures forall c :: c in cand <==> c in CandidateSet(n, attackers)
  {
  }

  lemma FirstChosen(n: nat, attackers: set<nat>, d: (nat, nat) -> real, bound: real, cand: seq<nat>)
    requires Distinct(cand) && forall c :: c in cand <==> IsCandidate(n, attackers, c)
    ensures Chosen(n, attackers, d, bound, [Flow(CLIENT, SERVER)], cand)
  {
    FirstPool(n, attackers, cand);
    EndpointsAppend([], Flow(CLIENT, SERVER));
    assert Endpoints([Flow(CLIENT, SERVER)]) == [CLIENT, SERVER];
  }

  lemma EachInPlace(cand: seq<nat>, at: seq<nat>)
    requires |at| == |cand| && forall a :: 0 <= a < |at| ==> at[a] == a
    ensures Positions(cand, cand, at)
  {
  }

  lemma AllApart(n: nat, attackers: set<nat>, pos: seq<Point>, d: (nat, nat) -> real, bound: real, flows: seq<Flow>, cand: seq<nat>)
    requires Chosen(n, attackers, d, bound, flows, cand) && |pos| == n && IsEuclid(pos, d)
    ensures forall a, b :: 0 <= a < |cand| && 0 <= b < |cand| ==> d(cand[a], cand[b]) >= 0.0
  {
    InRange(n, attackers, flows, cand);
  }

  lemma ChosenMeans(n: nat, attackers: set<nat>, d: (nat, nat) -> real, bound: real, flows: seq<Flow>, cand: seq<nat>)
    requires Chosen(n, attackers, d, bound, flows, cand)
    ensures flows != [] && flows[0] == Flow(1, 0) && Distinct(Endpoints(flows))
    ensures forall k :: 1 <= k < |flows| ==> WellChosen(n, attackers, d, bound, flows, k)
  {
  }

  lemma NextChosen(n: nat, attackers: set<nat>, order: seq<nat>, d: (nat, nat) -> real, bound: real, flows: seq<Flow>, cand: seq<nat>,
      at: seq<nat>, i: nat, j: nat)
    requires Distinct(order) && (forall c :: c in order <==> IsCandidate(n, attackers, c))
    requires Chosen(n, attackers, d, bound, flows, cand) && Positions(order, cand, at) && i < |cand| && j < |cand| && i != j
    requires forall k :: 1 <= k < |flows| ==> Picked(order, d, bound, flows, k)
    requires forall a, b :: 0 <= a < |cand| && 0 <= b < |cand| && a != b ==> PairOrdered(d, bound, cand, i, j, a, b)
    ensures |at| == |cand| && |WithoutTwo(cand, i, j)| == |cand| - 2
    ensures var on := flows + [Flow(cand[i], cand[j])];
      && Chosen(n, attackers, d, bound, on, WithoutTwo(cand, i, j)) && Positions(order, WithoutTwo(cand, i, j), WithoutTwo(at, i, j))
      && forall k :: 1 <= k < |on| ==> Picked(order, d, bound, on, k)
  {
    hide Picked, PairOrdered, WithoutTwo, WellChosen, Distinct;
    SameLength(order, cand, at);
    var f := Flow(cand[i], cand[j]);
    FarOrFarthest(d, bound, cand, i, j);
    PickedNext(n, attackers, order, d, bound, flows, cand, at, i, j, flows + [f]);
    forall k | 1 <= k < |flows| ensures Picked(order, d, bound, flows + [f], k) { PickedStays(order, d, bound, flows, f, k); }
    ChooseNext(n, attackers, d, bound, flows, cand, i, j);
    WithoutTwoMembers(cand, i, j);
    PositionsWithoutTwo(order, cand, at, i, j);
    hide Pool, Positions, Chosen;
  }

  lemma FarOrFarthest(d: (nat, nat) -> real, bound: real, cand: seq<nat>, i: nat, j: nat)
    requires i < |cand| && j < |cand|
    requires forall a, b :: 0 <= a < |cand| && 0 <= b < |cand| && a != b ==> PairOrdered(d, bound, cand, i, j, a, b)
    ensures d(cand[i], cand[j]) > bound
      || forall a, b :: 0 <= a < |cand| && 0 <= b < |cand| && a != b ==>
           d(cand[a], cand[b]) <= bound && d(cand[a], cand[b]) <= d(cand[i], cand[j])
  {
    if d(cand[i], cand[j]) <= bound {
      forall a, b | 0 <= a < |cand| && 0 <= b < |cand| && a != b
        ensures d(cand[a], cand[b]) <= bound && d(cand[a], cand[b]) <= d(cand[i], cand[j])
      {
        assert PairOrdered(d, bound, cand, i, j, a, b);
      }
    }
  }

  ghost function CandidateSet(n: nat, attackers: set<nat>): set<nat> {
    set c: nat | c < n && c !in attackers && c != 0 && c != 1
  }

  lemma CandidateCount(n: nat, attackers: set<nat>, cand: seq<nat>)
    requires Distinct(cand) && forall c :: c in cand <==> IsCandidate(n, attackers, c)
    ensures |cand| == |CandidateSet(n, attackers)|
  {
    MembersCount(cand, CandidateSet(n, attackers));
  }

  lemma CandidatesFit(n: nat, attackers: set<nat>, cand: seq<nat>)
    requires Distinct(cand) && forall c :: c in cand <==> IsCandidate(n, attackers, c)
    ensures |cand| <= n
  {
    forall i | 0 <= i < |cand| ensures cand[i] < n { assert cand[i] in cand; }
    DistinctBelow(cand, n);
  }

  lemma {:induction false} MembersCount(s: seq<nat>, members: set<nat>)
    requires Distinct(s) && forall c :: c in s <==> c in members
    ensures |s| == |members|
  {
    if s == [] {
      assert members == {};
    } else {
      var front, x := s[..|s| - 1], s[|s| - 1];
      assert s == front + [x] && x !in front;
      MembersCount(front, members - {x});
    }
  }

  lemma InRange(n: nat, attackers: set<nat>, flows: seq<Flow>, cand: seq<nat>)
    requires Pool(n, attackers, flows, cand)
    ensures forall a :: 0 <= a < |cand| ==> cand[a] < n
  {
    forall a | 0 <= a < |cand| ensures cand[a] < n { assert cand[a] in cand; }
  }

  lemma {:induction false} LaterEndpoints(n: nat, attackers: set<nat>, d: (nat, nat) -> real, bound: real, flows: seq<Flow>, m: nat, e: nat)
    requires 1 <= m <= |flows| && flows[0] == Flow(CLIENT, SERVER)
    requires forall k :: 1 <= k < |flows| ==> WellChosen(n, attackers, d, bound, flows, k)
    requires e in Endpoints(flows[..m])
    ensures e == CLIENT || e == SERVER || e !in attackers
  {
    assert flows[..m] == flows[..m - 1] + [flows[m - 1]];
    EndpointsAppend(flows[..m - 1], flows[m - 1]);
    if m > 1 {
      assert WellChosen(n, attackers, d, bound, flows, m - 1);
      if e in Endpoints(flows[..m - 1]) { LaterEndpoints(n, attackers, d, bound, flows, m - 1, e); }
    } else {
      assert Endpoints(flows[..0]) == [];
    }
  }

  lemma {:induction false} FirstEndpoints(flows: seq<Flow>)
    requires flows != [] && flows[0] == Flow(CLIENT, SERVER)
    ensures CLIENT in Endpoints(flows) && SERVER in Endpoints(flows)
  {
    var front, f := flows[..|flows| - 1], flows[|flows| - 1];
    assert Endpoints(flows) == Endpoints(front) + [f.src, f.dst];
    if |flows| == 1 {
      assert Endpoints(flows)[0] == CLIENT && Endpoints(flows)[1] == SERVER;
    } else {
      FirstEndpoints(front);
    }
  }

  lemma AttackersAvoided(n: nat, attackers: set<nat>, d: (nat, nat) -> real, bound: real, flows: seq<Flow>, cand: seq<nat>)
    requires Chosen(n, attackers, d, bound, flows, cand)
    ensures (forall e :: e in Endpoints(flows) ==> e !in attackers) <==> CLIENT !in attackers && SERVER !in attackers
  {
    FirstEndpoints(flows);
    forall e | e in Endpoints(flows)
      ensures e == CLIENT || e == SERVER || e !in attackers
    {
      assert flows[..|flows|] == flows;
      LaterEndpoints(n, attackers, d, bound, flows, |flows|, e);
    }
  }
}
