/** A whole run of the harness with its own scenario table. */
module Study {
  import opened FlowPairs
  import opened Gates
  import opened PathWalk
  import opened Shuffle
  import opened SlotHarnesses
  import opened SlotSchedule
  import opened SlotSimulation
  import opened SlotTimeline

  /** The window order: as listed, or shuffled. */
  method WindowOrder(randomize: bool, raw: Stream) returns (order: seq<nat>)
    requires AlwaysAccepts(raw)
    ensures multiset(order) == multiset{0, 1, 2, 3} && |order| == 4
    ensures !randomize ==> order == [0, 1, 2, 3]
    ensures randomize ==> ShuffleOf(raw, 0, [0, 1, 2, 3], order)
  {
    hide Shuffled, Drawn, Accepts;
    var a := new nat[][0, 1, 2, 3];
    assert a[..] == [0, 1, 2, 3];
    if randomize {
      ghost var listed := a[..];
      var next;
      ghost var c, ends;
      next, c, ends := DeterministicShuffle(a, raw, 0);
      ShuffledIsPermutation(listed, c);
    }
    order := a[..];
  }

  lemma OrderInRange(order: seq<nat>)
    requires multiset(order) == multiset{0, 1, 2, 3}
    ensures forall k :: 0 <= k < |order| ==> order[k] < 4
  {
    forall k | 0 <= k < |order| ensures order[k] < 4 { assert order[k] in multiset(order); }
  }

  /** Every node has routes to all others, and every flow one that is long enough. */
  ghost predicate PassesGates(net: Network, flows: seq<Flow>, nodeToIp: map<nat, Address>, unset: Address, minHops: nat) {
    && (forall i: nat :: i < net.size ==> Connected(net, i))
    && (net.size < 2 || AllFar(net, nodeToIp, unset, minHops, flows))
  }

  /** Runs the four scenarios, in the listed or a shuffled order, unless a gate rejects
      the settled network; an accepted run adds to every file one row for each scenario. */
  method RunStudy(t: Tables, randomize: bool, raw: Stream, attackers: seq<nat>, spoofCount: nat, base: Attributes, shape: seq<(bool, bool)>,
      net: Network, flows: seq<Flow>, nodeToIp: map<nat, Address>, unset: Address, minHops: nat, first: nat, traffic: seq<Item>)
    returns (order: seq<nat>, accepted: bool)
    requires AlwaysAccepts(raw) && OnlyTraffic(first, 4, traffic)
    modifies t
    ensures multiset(order) == multiset{0, 1, 2, 3} && if randomize then ShuffleOf(raw, 0, [0, 1, 2, 3], order) else order == [0, 1, 2, 3]
    ensures accepted <==> PassesGates(net, flows, nodeToIp, unset, minHops)
    ensures !accepted ==> t.features == old(t.features) && t.labels == old(t.labels) && t.oracle == old(t.oracle) && t.runs == old(t.runs)
    ensures ValidConfig(Config(SCENARIOS, order, attackers, spoofCount, base))
    ensures var rows := AllRows(Config(SCENARIOS, order, attackers, spoofCount, base));
      OncePerScenario(rows, order)
      && (accepted ==>
            t.features == old(t.features) + rows && t.labels == old(t.labels) + rows && t.oracle == old(t.oracle) + rows
            && t.runs == old(t.runs) + [order])
  {
    hide Connected, AllFar, OncePerScenario, AllRows, AlwaysAccepts, ShuffleOf, Neutral, ValidConfig;
    order := WindowOrder(randomize, raw);
    OrderInRange(order);
    var cfg := Config(SCENARIOS, order, attackers, spoofCount, base);
    HarnessConfigValid(cfg);
    var connectivity := AssertConnectivity(net);
    var hops := AssertMinHops(net, flows, nodeToIp, unset, minHops);
    var h := new SlotHarness(cfg, shape);
    Simulate(h, t, first, connectivity.Rejected?, hops.Rejected?, traffic);
    accepted := !h.rejected;
    RowsOncePerScenario(cfg);
  }

  ghost predicate RowOf(row: Row, scenario: string, attack: nat, defense: nat) {
    row.scenario == scenario && row.attack == attack && row.defense == defense
  }

  /** Four rows, one for each combination of attack and defense, in the order of the
      windows, which are forty seconds long and start every hundred seconds. */
  ghost predicate OncePerScenario(rows: seq<Row>, order: seq<nat>) {
    && |rows| == |order| == 4
    && (forall k :: 0 <= k < 4 ==> rows[k].start == (120 + 100 * k) * 1_000_000_000 && rows[k].end == (160 + 100 * k) * 1_000_000_000)
    && (exists k :: 0 <= k < 4 && order[k] == 0 && RowOf(rows[k], "baseline", 0, 0))
    && (exists k :: 0 <= k < 4 && order[k] == 1 && RowOf(rows[k], "attack_only", 1, 0))
    && (exists k :: 0 <= k < 4 && order[k] == 2 && RowOf(rows[k], "defense_only", 0, 1))
    && (exists k :: 0 <= k < 4 && order[k] == 3 && RowOf(rows[k], "defense_vs_attack", 1, 1))
  }

  lemma SlotOf(order: seq<nat>, i: nat) returns (k: nat)
    requires multiset(order) == multiset{0, 1, 2, 3} && i < 4
    ensures k < |order| && order[k] == i
  {
    assert i in multiset(order);
    k :| 0 <= k < |order| && order[k] == i;
  }

  lemma RowsOncePerScenario(cfg: Config)
    requires ValidConfig(cfg) && cfg.table == SCENARIOS && |cfg.order| == 4 && multiset(cfg.order) == multiset{0, 1, 2, 3}
    ensures OncePerScenario(AllRows(cfg), cfg.order)
  {
    hide WindowStart, WindowEnd, ValidConfig;
    var rows := AllRows(cfg);
    var a := SlotOf(cfg.order, 0);
    var b := SlotOf(cfg.order, 1);
    var c := SlotOf(cfg.order, 2);
    var d := SlotOf(cfg.order, 3);
    assert RowOf(rows[a], "baseline", 0, 0) && RowOf(rows[b], "attack_only", 1, 0);
    assert RowOf(rows[c], "defense_only", 0, 1) && RowOf(rows[d], "defense_vs_attack", 1, 1);
    forall k: nat | k < 4
      ensures rows[k].start == (120 + 100 * k) * 1_000_000_000 && rows[k].end == (160 + 100 * k) * 1_000_000_000
    {
      SlotTimes(k);
    }
  }
}
