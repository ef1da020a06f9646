/** Following next hops through the nodes' routing tables. */
module PathWalk {
  import opened Graphs

  type Address = nat

  datatype Entry = Entry(destAddr: Address, nextAddr: Address, distance: nat)

  datatype Option<+T> = None | Some(value: T)

  /** What the walk consults: which node owns an address, and each node's
      routing table, None where the node runs no OLSR. */
  datatype Network = Network(size: nat, ipToNode: map<Address, nat>, tables: map<nat, seq<Entry>>)

  /** Every address belongs to a node of its own. */
  ghost predicate ValidNetwork(net: Network) {
    && (forall a :: a in net.ipToNode ==> net.ipToNode[a] < net.size)
    && (forall a, b :: a in net.ipToNode && b in net.ipToNode && net.ipToNode[a] == net.ipToNode[b] ==> a == b)
  }

  /** The first entry for dst, if any. */
  function Lookup(entries: seq<Entry>, dst: Address): Option<Address> {
    if entries == [] then None
    else if entries[0].destAddr == dst then Some(entries[0].nextAddr)
    else Lookup(entries[1..], dst)
  }

  /** Where the node owning address a sends packets for dst. */
  function NextHop(net: Network, a: Address, dst: Address): Option<Address> {
    if a in net.ipToNode && net.ipToNode[a] in net.tables then Lookup(net.tables[net.ipToNode[a]], dst) else None
  }

  /** hops follows next hops from src to dst through known addresses, meeting dst only at its end. */
  ghost predicate Route(net: Network, src: Address, dst: Address, hops: seq<Address>) {
    && hops != [] && hops[0] == src && hops[|hops| - 1] == dst
    && (forall i :: 0 <= i < |hops| ==> hops[i] in net.ipToNode)
    && (forall i :: 0 <= i < |hops| - 1 ==> hops[i] != dst && NextHop(net, hops[i], dst) == Some(hops[i + 1]))
  }

  /** Next hops lead from src to dst. */
  ghost predicate Routed(net: Network, src: Address, dst: Address) {
    exists hops :: Route(net, src, dst, hops)
  }

  function NodesOf(net: Network, hops: seq<Address>): seq<nat>
    requires forall i :: 0 <= i < |hops| ==> hops[i] in net.ipToNode
  {
    seq(|hops|, i requires 0 <= i < |hops| => net.ipToNode[hops[i]])
  }

  /** The i-th address of hops leads to the one after it, the last to current. */
  ghost predicate Leads(net: Network, dst: Address, hops: seq<Address>, current: Address, i: nat)
    requires i < |hops|
  {
    NextHop(net, hops[i], dst) == Some(if i == |hops| - 1 then current else hops[i + 1])
  }

  /** The addresses left behind by the walk, the next of which is current. */
  ghost predicate Walked(net: Network, src: Address, dst: Address, hops: seq<Address>, current: Address) {
    && (forall i :: 0 <= i < |hops| ==> hops[i] in net.ipToNode && hops[i] != dst)
    && (forall i :: 0 <= i < |hops| ==> Leads(net, dst, hops, current, i))
    && (if hops == [] then current == src else hops[0] == src)
    && Distinct(hops)
  }

  lemma RouteHop(net: Network, src: Address, dst: Address, route: seq<Address>, i: nat)
    requires Route(net, src, dst, route) && i < |route| - 1
    ensures route[i] != dst && NextHop(net, route[i], dst) == Some(route[i + 1])
  {
  }

  /** Any route passes through what has been walked. */
  lemma {:induction false} RoutePrefix(net: Network, src: Address, dst: Address, hops: seq<Address>, current: Address, route: seq<Address>, n: nat)
    requires Walked(net, src, dst, hops, current) && Route(net, src, dst, route) && n <= |hops|
    ensures n < |route| && route[n] == (if n == |hops| then current else hops[n])
  {
    if n > 0 {
      RoutePrefix(net, src, dst, hops, current, route, n - 1);
      var i := n - 1;
      assert Leads(net, dst, hops, current, i);
      RouteHop(net, src, dst, route, i);
    }
  }

  lemma WalkStep(net: Network, src: Address, dst: Address, hops: seq<Address>, current: Address, next: Address)
    requires Walked(net, src, dst, hops, current) && current !in hops && current in net.ipToNode && current != dst
    requires NextHop(net, current, dst) == Some(next)
    ensures Walked(net, src, dst, hops + [current], next)
    ensures NodesOf(net, hops + [current]) == NodesOf(net, hops) + [net.ipToNode[current]]
  {
    var on := hops + [current];
    forall i | 0 <= i < |on|
      ensures Leads(net, dst, on, next, i)
    {
      if i < |hops| { assert Leads(net, dst, hops, current, i); }
    }
  }

  /** From the same address on, the same hops follow. */
  lemma {:induction false} RouteRepeats(net: Network, src: Address, dst: Address, route: seq<Address>, i: nat, j: nat, n: nat)
    requires Route(net, src, dst, route) && i < j < |route| && route[i] == route[j] && j + n < |route|
    ensures route[i + n] == route[j + n]
  {
    if n > 0 {
      RouteRepeats(net, src, dst, route, i, j, n - 1);
      RouteHop(net, src, dst, route, i + n - 1);
      RouteHop(net, src, dst, route, j + n - 1);
    }
  }

  /** A route never meets an address twice. */
  lemma RouteIsLoopFree(net: Network, src: Address, dst: Address, route: seq<Address>)
    requires Route(net, src, dst, route)
    ensures Distinct(route)
  {
    forall i, j | 0 <= i < j < |route|
      ensures route[i] != route[j]
    {
      if route[i] == route[j] { RouteRepeats(net, src, dst, route, i, j, |route| - 1 - j); }
    }
  }

  lemma RoutesAgree(net: Network, src: Address, dst: Address, a: seq<Address>, b: seq<Address>)
    requires Route(net, src, dst, a) && Route(net, src, dst, b)
    ensures a == b
  {
    RouteIsLoopFree(net, src, dst, a);
    RouteIsLoopFree(net, src, dst, b);
    var front := a[..|a| - 1];
    assert Walked(net, src, dst, front, dst) by {
      assert forall i :: 0 <= i < |front| ==> front[i] == a[i];
    }
    forall n | 0 <= n < |a|
      ensures n < |b| && a[n] == b[n]
    {
      RoutePrefix(net, src, dst, front, dst, b, n);
    }
  }

  lemma NodesBounded(net: Network, hops: seq<Address>)
    requires ValidNetwork(net) && Distinct(hops) && forall i :: 0 <= i < |hops| ==> hops[i] in net.ipToNode
    ensures |hops| <= net.size && Distinct(NodesOf(net, hops))
  {
    DistinctBelow(NodesOf(net, hops), net.size);
  }

  /** The walk: the nodes of the route, or nothing when there is none. The step bound never cuts a route off. */
  method WalkOlsrPath(net: Network, src: Address, dst: Address) returns (path: seq<nat>)
    requires ValidNetwork(net)
    ensures path != [] <==> Routed(net, src, dst)
    ensures forall hops :: Route(net, src, dst, hops) ==> path == NodesOf(net, hops)
    ensures Distinct(path)
  {
    path := [];
    var visited: set<Address> := {};
    var current := src;
    var maxHops := net.size + 2;
    ghost var hops: seq<Address> := [];
    for step := 0 to maxHops
      invariant Walked(net, src, dst, hops, current) && |hops| == step
      invariant forall a :: a in visited <==> a in hops
      invariant path == NodesOf(net, hops)
    {
      NodesBounded(net, hops);
      if current in visited {
        NoRouteLoop(net, src, dst, hops, current);
        return [];
      }
      visited := visited + {current};
      if current !in net.ipToNode {
        NoRouteUnknown(net, src, dst, hops, current);
        return [];
      }
      var nodeIdx := net.ipToNode[current];
      path := path + [nodeIdx];
      if current == dst {
        FoundRoute(net, src, dst, hops);
        return path;
      }
      if nodeIdx !in net.tables {
        NoRouteUnknown(net, src, dst, hops, current);
        return [];
      }
      var nextHop := Lookup(net.tables[nodeIdx], dst);
      if nextHop == None {
        NoRouteUnknown(net, src, dst, hops, current);
        return [];
      }
      WalkStep(net, src, dst, hops, current, nextHop.value);
      hops := hops + [current];
      current := nextHop.value;
    }
    NodesBounded(net, hops);
    return [];
  }

  lemma NoRouteLoop(net: Network, src: Address, dst: Address, hops: seq<Address>, current: Address)
    requires Walked(net, src, dst, hops, current) && current in hops
    ensures !Routed(net, src, dst)
  {
    forall route | Route(net, src, dst, route)
      ensures false
    {
      var i :| 0 <= i < |hops| && hops[i] == current;
      RoutePrefix(net, src, dst, hops, current, route, |hops|);
      RoutePrefix(net, src, dst, hops, current, route, i);
      RouteIsLoopFree(net, src, dst, route);
    }
  }

  lemma RouteContinues(net: Network, src: Address, dst: Address, hops: seq<Address>, current: Address, route: seq<Address>)
    requires Walked(net, src, dst, hops, current) && Route(net, src, dst, route)
    ensures current in net.ipToNode && (current == dst || NextHop(net, current, dst).Some?)
  {
    RoutePrefix(net, src, dst, hops, current, route, |hops|);
    if |hops| < |route| - 1 { RouteHop(net, src, dst, route, |hops|); }
  }

  lemma NoRouteUnknown(net: Network, src: Address, dst: Address, hops: seq<Address>, current: Address)
    requires Walked(net, src, dst, hops, current)
    requires current !in net.ipToNode || (current != dst && NextHop(net, current, dst) == None)
    ensures !Routed(net, src, dst)
  {
    forall route | Route(net, src, dst, route)
      ensures false
    {
      RouteContinues(net, src, dst, hops, current, route);
    }
  }

  lemma FoundRoute(net: Network, src: Address, dst: Address, hops: seq<Address>)
    requires ValidNetwork(net) && Walked(net, src, dst, hops, dst) && dst in net.ipToNode
    ensures Route(net, src, dst, hops + [dst])
    ensures Distinct(NodesOf(net, hops + [dst])) && NodesOf(net, hops + [dst]) == NodesOf(net, hops) + [net.ipToNode[dst]]
    ensures forall route :: Route(net, src, dst, route) ==> route == hops + [dst]
  {
    var route := hops + [dst];
    forall i | 0 <= i < |route| - 1
      ensures NextHop(net, route[i], dst) == Some(route[i + 1])
    {
      assert Leads(net, dst, hops, dst, i);
    }
    RouteIsLoopFree(net, src, dst, route);
    NodesBounded(net, route);
    forall other | Route(net, src, dst, other)
      ensures other == route
    {
      RoutesAgree(net, src, dst, route, other);
    }
  }
}
