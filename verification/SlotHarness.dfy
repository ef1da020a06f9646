/** The harness object: its handlers, the event loop that fires them, and the
    promotion of staged rows. */
module SlotHarnesses {
  import opened SlotTimeline
  import opened SlotSchedule

  /** The result files: rows appended by every promoted run, and its window order. */
  class Tables {
    var features: seq<Row>
    var labels: seq<Row>
    var oracle: seq<Row>
    var runs: seq<seq<nat>>

    constructor ()
      ensures features == labels == oracle == [] && runs == []
    {
      features, labels, oracle, runs := [], [], [], [];
    }
  }

  /** Looks the scenario up by name. */
  method LabelsForScenario(table: seq<Scenario>, name: string) returns (attack: nat, defense: nat)
    ensures (forall i :: 0 <= i < |table| ==> table[i].name != name) ==> attack == defense == 0
    ensures forall i :: 0 <= i < |table| && table[i].name == name && (forall j :: 0 <= j < i ==> table[j].name != name) ==>
      attack == Label(table[i].attack) && defense == Label(table[i].defense)
  {
    for i := 0 to |table|
      invariant forall j :: 0 <= j < i ==> table[j].name != name
    {
      if table[i].name == name { return Label(table[i].attack), Label(table[i].defense); }
    }
    return 0, 0;
  }

  class SlotHarness {
    const cfg: Config
    const nodes: array<Node>
    var rejected: bool
    var attackOn: bool
    var defenseOn: bool
    var featuresActive: bool
    var features: seq<Row>
    var labels: seq<Row>
    var oracle: seq<Row>

    /** Installs the nodes, each with or without OLSR and a defense, everything off. */
    constructor (cfg: Config, shape: seq<(bool, bool)>)
      ensures this.cfg == cfg && fresh(nodes)
      ensures Neutral(Now()) && !featuresActive && |Now().nodes| == |shape|
      ensures forall i :: 0 <= i < |shape| ==> Now().nodes[i].olsr == shape[i].0 && Now().nodes[i].defended == shape[i].1
    {
      this.cfg := cfg;
      nodes := new Node[|shape|](i requires 0 <= i < |shape| => Node(shape[i].0, shape[i].1, false, 0, INERT, INERT, []));
      rejected, attackOn, defenseOn, featuresActive := false, false, false, false;
      features, labels, oracle := [], [], [];
    }

    function Now(): World
      reads this, nodes
    {
      World(rejected, attackOn, defenseOn, nodes[..], featuresActive, features, labels, oracle)
    }

    method SetAttackState(active: bool)
      modifies nodes
      ensures nodes[..] == if rejected then old(nodes[..]) else SetAttack(cfg, cfg.attackers, active, old(nodes[..]))
    {
      if rejected { return; }
      ghost var was := nodes[..];
      var ids := cfg.attackers;
      for j := 0 to |ids|
        invariant nodes[..] == SetAttack(cfg, ids[..j], active, was)
      {
        AttackOneMore(cfg, ids, j, active, was);
        if ids[j] < nodes.Length {
          var node := nodes[ids[j]];
          if node.olsr { nodes[ids[j]] := node.(malicious := active, spoofed := if active then cfg.spoofCount else 0); }
        }
      }
      assert ids[..|ids|] == ids;
    }

    method SetDefenseState(active: bool)
      modifies nodes
      ensures nodes[..] == if rejected then old(nodes[..]) else SetDefense(cfg, active, old(nodes[..]))
    {
      if rejected { return; }
      ghost var was := nodes[..];
      for i := 0 to nodes.Length
        invariant forall v :: 0 <= v < nodes.Length ==> nodes[v] == if v < i then Switched(cfg, active, was[v]) else was[v]
      {
        if nodes[i].olsr && nodes[i].defended {
          nodes[i] := nodes[i].(mirror := Attributes(active && cfg.base.forwardMonitor, active && cfg.base.consistencyRules,
                                                     active && cfg.base.alertDistribution, active));
        }
      }
    }

    method ForceDefenseColdStart()
      modifies nodes
      ensures nodes[..] == if rejected then old(nodes[..]) else ColdStart(old(nodes[..]))
    {
      if rejected { return; }
      ghost var was := nodes[..];
      for i := 0 to nodes.Length
        invariant forall v :: 0 <= v < nodes.Length ==> nodes[v] == if v < i then Restarted(was[v]) else was[v]
      {
        if nodes[i].olsr && nodes[i].defended {
          nodes[i] := nodes[i].(taken := []);
          nodes[i] := nodes[i].(live := nodes[i].mirror);
        }
      }
    }

    method ApplyScenarioState(slot: nat)
      requires ValidConfig(cfg) && slot < |cfg.order|
      modifies nodes, `attackOn, `defenseOn
      ensures Now() == Fire(cfg, old(Now()), Transition(slot))
    {
      if rejected { return; }
      var sc := cfg.table[cfg.order[slot]];
      hide SetAttack, SetDefense, ColdStart;
      if sc.attack != attackOn {
        SetAttackState(sc.attack);
        attackOn := sc.attack;
      }
      if sc.defense != defenseOn {
        SetDefenseState(sc.defense);
        defenseOn := sc.defense;
      }
      ForceDefenseColdStart();
    }

    method StartMeasurementWindow()
      requires ValidConfig(cfg)
      modifies `featuresActive
      ensures forall slot :: Now() == Fire(cfg, old(Now()), StartSlot(slot))
    {
      if !rejected { featuresActive := true; }
    }

    method EndMeasurementWindow(slot: nat)
      requires ValidConfig(cfg) && slot < |cfg.order|
      modifies `featuresActive, `features, `labels, `oracle
      ensures Now() == Fire(cfg, old(Now()), EndSlot(slot))
    {
      if rejected { return; }
      featuresActive := false;
      var name := cfg.table[cfg.order[slot]].name;
      var attack, defense := LabelsForScenario(cfg.table, name);
      var row := Row(name, WindowStart(slot), WindowEnd(slot), defense, attack);
      assert row == RowFor(cfg, slot) by { hide WindowStart, WindowEnd; }
      oracle := oracle + [row];
      labels := labels + [row];
      features := features + [row];
    }

    method AssertGate(fails: bool)
      requires ValidConfig(cfg)
      modifies `rejected
      ensures Now() == Fire(cfg, old(Now()), Gate(fails))
    {
      if rejected { return; }
      if fails { rejected := true; }
    }

    method Deliver(node: nat, what: int)
      requires ValidConfig(cfg)
      modifies nodes
      ensures Now() == Fire(cfg, old(Now()), Traffic(node, what))
    {
      if node < nodes.Length && nodes[node].olsr && nodes[node].defended {
        nodes[node] := nodes[node].(taken := nodes[node].taken + [what]);
      }
    }

    method Dispatch(a: Action)
      requires ValidConfig(cfg) && ValidAction(cfg, a)
      modifies this, nodes
      ensures Now() == Fire(cfg, old(Now()), a)
    {
      hide Fire;
      match a {
        case Gate(fails) => AssertGate(fails);
        case Transition(slot) => ApplyScenarioState(slot);
        case StartSlot(slot) => StartMeasurementWindow();
        case EndSlot(slot) => EndMeasurementWindow(slot);
        case Traffic(node, what) => Deliver(node, what);
      }
    }

    /** Appends the staged rows to the result files unless the run was rejected. */
    method PromoteStagedRows(t: Tables)
      modifies t, `features, `labels, `oracle
      ensures rejected ==> t.features == old(t.features) && t.labels == old(t.labels) && t.oracle == old(t.oracle) && t.runs == old(t.runs)
      ensures !rejected ==>
        && t.features == old(t.features) + old(features) && t.labels == old(t.labels) + old(labels)
        && t.oracle == old(t.oracle) + old(oracle) && t.runs == old(t.runs) + [cfg.order]
        && features == labels == oracle == []
    {
      if rejected { return; }
      t.features := t.features + features;
      t.labels := t.labels + labels;
      t.oracle := t.oracle + oracle;
      t.runs := t.runs + [cfg.order];
      features, labels, oracle := [], [], [];
    }
  }

  lemma AttackOneMore(cfg: Config, ids: seq<nat>, j: nat, active: bool, was: seq<Node>)
    requires j < |ids|
    ensures var now, id := SetAttack(cfg, ids[..j], active, was), ids[j];
      SetAttack(cfg, ids[..j + 1], active, was)
      == if id < |was| && was[id].olsr then now[id := now[id].(malicious := active, spoofed := if active then cfg.spoofCount else 0)] else now
    ensures ids[j] < |was| ==> SetAttack(cfg, ids[..j], active, was)[ids[j]].olsr == was[ids[j]].olsr
  {
    assert ids[..j + 1] == ids[..j] + [ids[j]];
  }
}
