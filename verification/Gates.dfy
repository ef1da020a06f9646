/** The acceptance gates, over the routing tables when the network has settled. */
module Gates {
  import opened FlowPairs
  import opened PathWalk
  import opened Sets

  datatype Verdict = Passed | Rejected(reason: string)

  /** The node runs OLSR and has a route to as many addresses as there are other nodes. */
  ghost predicate Connected(net: Network, i: nat) {
    i in net.tables && |set e | e in net.tables[i] :: e.destAddr| + 1 >= net.size
  }

  ghost predicate FirstUnconnected(net: Network, i: nat) {
    i < net.size && (forall j: nat :: j < i ==> Connected(net, j)) && !Connected(net, i)
  }

  method AssertConnectivity(net: Network) returns (v: Verdict)
    ensures v == Passed <==> forall i: nat :: i < net.size ==> Connected(net, i)
    ensures v.Rejected? ==> (exists i: nat :: FirstUnconnected(net, i) && v.reason == if i in net.tables then "assert_connectivity" else "no_olsr")
  {
    for i := 0 to net.size
      invariant forall j: nat :: j < i ==> Connected(net, j)
    {
      if i !in net.tables {
        assert FirstUnconnected(net, i);
        return Rejected("no_olsr");
      }
      var dests := CollectDestinations(net.tables[i]);
      if |dests| < net.size - 1 {
        assert FirstUnconnected(net, i);
        return Rejected("assert_connectivity");
      }
    }
    return Passed;
  }

  method CollectDestinations(entries: seq<Entry>) returns (dests: set<Address>)
    ensures dests == set e | e in entries :: e.destAddr
  {
    dests := {};
    for k := 0 to |entries|
      invariant dests == set e | e in entries[..k] :: e.destAddr
    {
      assert entries[..k + 1] == entries[..k] + [entries[k]];
      dests := dests + {entries[k].destAddr};
    }
    assert entries[..|entries|] == entries;
  }

  /** When a table lists only the other nodes' addresses, the count is the real thing:
      the gate passes the node exactly when it lists them all. */
  lemma ConnectedMeansAll(net: Network, i: nat, others: set<Address>)
    requires i in net.tables && net.size > 0 && |others| == net.size - 1
    requires forall e :: e in net.tables[i] ==> e.destAddr in others
    ensures Connected(net, i) <==> forall a :: a in others ==> exists e :: e in net.tables[i] && e.destAddr == a
  {
    var listed := set e | e in net.tables[i] :: e.destAddr;
    assert listed <= others;
    assert (forall a :: a in others ==> exists e :: e in net.tables[i] && e.destAddr == a) <==> listed == others;
    if listed != others { ProperSubsetSize(listed, others); }
  }

  /** The i-th entry is the first for dst. */
  ghost predicate FirstFor(entries: seq<Entry>, dst: Address, i: int) {
    0 <= i < |entries| && entries[i].destAddr == dst && forall j :: 0 <= j < i ==> entries[j].destAddr != dst
  }

  /** The entry that the gate goes by, the first for dst, is the one a walk of the
      routing tables follows. */
  lemma {:induction false} EntryIsFollowed(entries: seq<Entry>, dst: Address, a: Address)
    ensures Lookup(entries, dst) == Some(a) <==> exists i :: FirstFor(entries, dst, i) && entries[i].nextAddr == a
  {
    if entries != [] {
      EntryIsFollowed(entries[1..], dst, a);
      if i :| FirstFor(entries[1..], dst, i) && entries[1..][i].nextAddr == a && entries[0].destAddr != dst {
        assert FirstFor(entries, dst, i + 1);
      }
      if i :| FirstFor(entries, dst, i) && entries[i].nextAddr == a && entries[0].destAddr != dst {
        FirstOfRest(entries, dst, i);
      }
      if entries[0].destAddr == dst { assert FirstFor(entries, dst, 0); }
    }
  }

  lemma FirstOfRest(entries: seq<Entry>, dst: Address, i: int)
    requires FirstFor(entries, dst, i) && entries[0].destAddr != dst
    ensures FirstFor(entries[1..], dst, i - 1) && entries[1..][i - 1] == entries[i]
  {
    forall j | 0 <= j < i - 1 ensures entries[1..][j].destAddr != dst { assert entries[1..][j] == entries[j + 1]; }
  }

  /** The flow's source runs OLSR, and the first entry there for the destination's
      address has minHops hops or more. */
  ghost predicate FarEnough(net: Network, nodeToIp: map<nat, Address>, unset: Address, minHops: nat, f: Flow) {
    f.src in net.tables
    && var dst := if f.dst in nodeToIp then nodeToIp[f.dst] else unset;
    exists i :: FirstFor(net.tables[f.src], dst, i) && net.tables[f.src][i].distance >= minHops
  }

  /** Why the flow is refused. */
  ghost predicate RefusedFor(net: Network, nodeToIp: map<nat, Address>, unset: Address, minHops: nat, f: Flow, reason: string) {
    if f.src !in net.tables then reason == "no_olsr_on_client"
    else
      var dst := if f.dst in nodeToIp then nodeToIp[f.dst] else unset;
      if forall e :: e in net.tables[f.src] ==> e.destAddr != dst then reason == "no_route_to_victim"
      else reason == "too_close" && exists i :: FirstFor(net.tables[f.src], dst, i) && net.tables[f.src][i].distance < minHops
  }

  ghost predicate AllFar(net: Network, nodeToIp: map<nat, Address>, unset: Address, minHops: nat, flows: seq<Flow>) {
    forall k :: 0 <= k < |flows| ==> FarEnough(net, nodeToIp, unset, minHops, flows[k])
  }

  /** Rejects for the first flow without a route of minHops hops or more. */
  method AssertMinHops(net: Network, flows: seq<Flow>, nodeToIp: map<nat, Address>, unset: Address, minHops: nat) returns (v: Verdict)
    ensures v == Passed <==> net.size < 2 || AllFar(net, nodeToIp, unset, minHops, flows)
    ensures v.Rejected? ==>
              (exists k :: 0 <= k < |flows| && AllFar(net, nodeToIp, unset, minHops, flows[..k])
                           && RefusedFor(net, nodeToIp, unset, minHops, flows[k], v.reason))
  {
    if net.size < 2 { return Passed; }
    for k := 0 to |flows|
      invariant AllFar(net, nodeToIp, unset, minHops, flows[..k])
    {
      var f := flows[k];
      assert flows[..k + 1] == flows[..k] + [f];
      v := CheckFlow(net, f, nodeToIp, unset, minHops);
      if v.Rejected? { return v; }
    }
    assert flows[..|flows|] == flows;
    return Passed;
  }

  method CheckFlow(net: Network, f: Flow, nodeToIp: map<nat, Address>, unset: Address, minHops: nat) returns (v: Verdict)
    ensures v == Passed <==> FarEnough(net, nodeToIp, unset, minHops, f)
    ensures v.Rejected? ==> RefusedFor(net, nodeToIp, unset, minHops, f, v.reason)
  {
    if f.src !in net.tables { return Rejected("no_olsr_on_client"); }
    var dst := if f.dst in nodeToIp then nodeToIp[f.dst] else unset;
    var found, distance;
    ghost var i;
    found, distance, i := FindRoute(net.tables[f.src], dst);
    hide FirstFor;
    if !found { return Rejected("no_route_to_victim"); }
    if distance < minHops { return Rejected("too_close"); }
    return Passed;
  }

  method FindRoute(entries: seq<Entry>, dst: Address) returns (found: bool, distance: nat, ghost i: int)
    ensures found ==> FirstFor(entries, dst, i) && entries[i].distance == distance && forall j :: FirstFor(entries, dst, j) ==> j == i
    ensures found ==> !forall e :: e in entries ==> e.destAddr != dst
    ensures !found ==> (forall e :: e in entries ==> e.destAddr != dst) && forall j :: !FirstFor(entries, dst, j)
  {
    for k := 0 to |entries|
      invariant forall j :: 0 <= j < k ==> entries[j].destAddr != dst
    {
      if entries[k].destAddr == dst {
        assert entries[k] in entries;
        return true, entries[k].distance, k;
      }
    }
    return false, 0, -1;
  }
}
