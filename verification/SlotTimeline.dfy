/** The slot timeline: scheduled handlers, the attack and defense state they
    apply, and the rows they stage. */
module SlotTimeline {
  // ------------------------------------------------------------------ times

  /** Times are integer nanoseconds. */
  const SECOND: int := 1_000_000_000
  const INITIAL_STABILIZATION: int := 60 * SECOND
  const SLOT_STABILIZATION: int := 60 * SECOND
  const MEASUREMENT_DURATION: int := 40 * SECOND
  const SLOT_DURATION: int := SLOT_STABILIZATION + MEASUREMENT_DURATION

  function TransitionTime(slot: int): int {
    INITIAL_STABILIZATION + slot * SLOT_DURATION
  }

  function WindowStart(slot: int): int {
    TransitionTime(slot) + SLOT_STABILIZATION
  }

  function WindowEnd(slot: int): int {
    WindowStart(slot) + MEASUREMENT_DURATION
  }

  /** The first transition is a minute into the run; a slot takes a hundred seconds,
      of which the last forty are measured. */
  lemma SlotTimes(slot: nat)
    ensures TransitionTime(slot) == (60 + 100 * slot) * 1_000_000_000
    ensures WindowStart(slot) == (120 + 100 * slot) * 1_000_000_000 && WindowEnd(slot) == (160 + 100 * slot) * 1_000_000_000
    ensures TransitionTime(slot + 1) == WindowEnd(slot)
  {
  }

  // ------------------------------------------------------------------ state

  datatype Scenario = Scenario(name: string, attack: bool, defense: bool)

  const SCENARIOS: seq<Scenario> := [
    Scenario("baseline", false, false), Scenario("attack_only", true, false),
    Scenario("defense_only", false, true), Scenario("defense_vs_attack", true, true)]

  /** The switches of a defense object. */
  datatype Attributes = Attributes(forwardMonitor: bool, consistencyRules: bool, alertDistribution: bool, response: bool)

  const INERT := Attributes(false, false, false, false)

  /** A node: whether it runs OLSR and a defense, its attack attributes, the
      defense attributes as written, those the last setup read, and what the
      defense has taken in since. */
  datatype Node = Node(olsr: bool, defended: bool, malicious: bool, spoofed: nat, mirror: Attributes, live: Attributes, taken: seq<int>)

  datatype Config = Config(table: seq<Scenario>, order: seq<nat>, attackers: seq<nat>, spoofCount: nat, base: Attributes)

  datatype Row = Row(scenario: string, start: int, end: int, defense: nat, attack: nat)

  datatype World = World(rejected: bool, attackOn: bool, defenseOn: bool, nodes: seq<Node>, featuresActive: bool,
                         features: seq<Row>, labels: seq<Row>, oracle: seq<Row>)

  datatype Action = Gate(fails: bool) | Transition(slot: nat) | StartSlot(slot: nat) | EndSlot(slot: nat) | Traffic(node: nat, what: int)

  predicate ValidConfig(cfg: Config) {
    && (forall i, j :: 0 <= i < j < |cfg.table| ==> cfg.table[i].name != cfg.table[j].name)
    && (forall k :: 0 <= k < |cfg.order| ==> cfg.order[k] < |cfg.table|)
  }

  /** The harness's own table is valid with any order of its scenarios. */
  lemma HarnessConfigValid(cfg: Config)
    requires cfg.table == SCENARIOS && forall k :: 0 <= k < |cfg.order| ==> cfg.order[k] < |SCENARIOS|
    ensures ValidConfig(cfg)
  {
    assert |"baseline"| == 8 && |"attack_only"| == 11 && |"defense_only"| == 12 && |"defense_vs_attack"| == 17;
  }

  predicate ValidAction(cfg: Config, a: Action) {
    match a
    case Transition(slot) => slot < |cfg.order|
    case EndSlot(slot) => slot < |cfg.order|
    case _ => true
  }

  function ScenarioOf(cfg: Config, slot: nat): Scenario
    requires ValidConfig(cfg) && slot < |cfg.order|
  {
    cfg.table[cfg.order[slot]]
  }

  // --------------------------------------------------------------- handlers

  /** The attributes written for a defense switched on or off. */
  function AttributesFor(cfg: Config, on: bool): Attributes {
    Attributes(on && cfg.base.forwardMonitor, on && cfg.base.consistencyRules, on && cfg.base.alertDistribution, on)
  }

  function Attacked(cfg: Config, ids: seq<nat>, active: bool, i: nat, node: Node): Node {
    if i in ids && node.olsr then node.(malicious := active, spoofed := if active then cfg.spoofCount else 0) else node
  }

  function Switched(cfg: Config, active: bool, node: Node): Node {
    if node.olsr && node.defended then node.(mirror := AttributesFor(cfg, active)) else node
  }

  function Restarted(node: Node): Node {
    if node.olsr && node.defended then node.(live := node.mirror, taken := []) else node
  }

  function SetAttack(cfg: Config, ids: seq<nat>, active: bool, nodes: seq<Node>): (r: seq<Node>)
    ensures |r| == |nodes|
  {
    seq(|nodes|, i requires 0 <= i < |nodes| => Attacked(cfg, ids, active, i, nodes[i]))
  }

  function SetDefense(cfg: Config, active: bool, nodes: seq<Node>): (r: seq<Node>)
    ensures |r| == |nodes|
  {
    seq(|nodes|, i requires 0 <= i < |nodes| => Switched(cfg, active, nodes[i]))
  }

  function ColdStart(nodes: seq<Node>): (r: seq<Node>)
    ensures |r| == |nodes|
  {
    seq(|nodes|, i requires 0 <= i < |nodes| => Restarted(nodes[i]))
  }

  /** Applies a slot's scenario, writing only what changes, and restarts every defense. */
  function Apply(cfg: Config, w: World, slot: nat): World
    requires ValidConfig(cfg) && slot < |cfg.order|
  {
    if w.rejected then w
    else
      var sc := ScenarioOf(cfg, slot);
      var attacked := if sc.attack != w.attackOn then SetAttack(cfg, cfg.attackers, sc.attack, w.nodes) else w.nodes;
      var switched := if sc.defense != w.defenseOn then SetDefense(cfg, sc.defense, attacked) else attacked;
      w.(attackOn := sc.attack, defenseOn := sc.defense, nodes := ColdStart(switched))
  }

  function Label(b: bool): nat {
    if b then 1 else 0
  }

  function RowFor(cfg: Config, slot: nat): Row
    requires ValidConfig(cfg) && slot < |cfg.order|
  {
    var sc := ScenarioOf(cfg, slot);
    Row(sc.name, WindowStart(slot), WindowEnd(slot), Label(sc.defense), Label(sc.attack))
  }

  function Take(nodes: seq<Node>, node: nat, what: int): seq<Node> {
    if node < |nodes| && nodes[node].olsr && nodes[node].defended then
      nodes[node := nodes[node].(taken := nodes[node].taken + [what])]
    else nodes
  }

  function Fire(cfg: Config, w: World, a: Action): World
    requires ValidConfig(cfg) && ValidAction(cfg, a)
  {
    match a
    case Gate(fails) => if w.rejected then w else w.(rejected := fails)
    case Transition(slot) => Apply(cfg, w, slot)
    case StartSlot(slot) => if w.rejected then w else w.(featuresActive := true)
    case EndSlot(slot) =>
      if w.rejected then w
      else
        var row := RowFor(cfg, slot);
        w.(featuresActive := false, features := w.features + [row], labels := w.labels + [row], oracle := w.oracle + [row])
    case Traffic(node, what) => w.(nodes := Take(w.nodes, node, what))
  }

  predicate ValidActions(cfg: Config, actions: seq<Action>) {
    forall i :: 0 <= i < |actions| ==> ValidAction(cfg, actions[i])
  }

  function Run(cfg: Config, w: World, actions: seq<Action>): World
    requires ValidConfig(cfg) && ValidActions(cfg, actions)
  {
    if actions == [] then w else Fire(cfg, Run(cfg, w, actions[..|actions| - 1]), actions[|actions| - 1])
  }

  // ------------------------------------------------- what every run maintains

  /** The world before the first event: everything off, every defense installed inert. */
  ghost predicate Neutral(w: World) {
    && !w.rejected && !w.attackOn && !w.defenseOn
    && w.features == w.labels == w.oracle == []
    && forall i :: 0 <= i < |w.nodes| ==>
      !w.nodes[i].malicious && w.nodes[i].spoofed == 0 && w.nodes[i].mirror == w.nodes[i].live == INERT && w.nodes[i].taken == []
  }

  /** The slot whose transition came last, or -1. */
  ghost function LastTransition(actions: seq<Action>): int {
    if actions == [] then -1
    else if actions[|actions| - 1].Transition? then actions[|actions| - 1].slot
    else LastTransition(actions[..|actions| - 1])
  }

  /** What a node was given since the last transition. */
  ghost function GivenSince(actions: seq<Action>, i: nat): seq<int> {
    if actions == [] then []
    else
      var before, a := actions[..|actions| - 1], actions[|actions| - 1];
      if a.Transition? then [] else if a.Traffic? && a.node == i then GivenSince(before, i) + [a.what] else GivenSince(before, i)
  }

  ghost predicate AttackOn(cfg: Config, slot: int)
    requires ValidConfig(cfg) && slot < |cfg.order|
  {
    slot >= 0 && ScenarioOf(cfg, slot).attack
  }

  ghost predicate DefenseOn(cfg: Config, slot: int)
    requires ValidConfig(cfg) && slot < |cfg.order|
  {
    slot >= 0 && ScenarioOf(cfg, slot).defense
  }

  /** A node in a world whose attack and defense are as given: the attributes
      mirror the switches, and the defense is a fresh one plus what it was given. */
  ghost predicate NodeAgrees(cfg: Config, i: nat, node: Node, attack: bool, defense: bool, given: seq<int>) {
    && node.malicious == (attack && i in cfg.attackers && node.olsr)
    && node.spoofed == (if attack && i in cfg.attackers && node.olsr then cfg.spoofCount else 0)
    && node.mirror == node.live
    && node.live == (if node.olsr && node.defended && defense
                     then Attributes(cfg.base.forwardMonitor, cfg.base.consistencyRules, cfg.base.alertDistribution, true)
                     else Attributes(false, false, false, false))
    && node.taken == (if node.olsr && node.defended then given else [])
  }

  ghost predicate WorldAgrees(cfg: Config, w: World, actions: seq<Action>)
    requires ValidConfig(cfg) && LastTransition(actions) < |cfg.order|
  {
    var slot := LastTransition(actions);
    && w.attackOn == AttackOn(cfg, slot) && w.defenseOn == DefenseOn(cfg, slot)
    && forall i :: 0 <= i < |w.nodes| ==> NodeAgrees(cfg, i, w.nodes[i], w.attackOn, w.defenseOn, GivenSince(actions, i))
  }

  lemma {:induction false} LastTransitionInRange(cfg: Config, actions: seq<Action>)
    requires ValidActions(cfg, actions)
    ensures -1 <= LastTransition(actions) < |cfg.order|
  {
    if actions != [] { LastTransitionInRange(cfg, actions[..|actions| - 1]); }
  }

  lemma ApplyAgrees(cfg: Config, w: World, actions: seq<Action>, slot: nat)
    requires ValidConfig(cfg) && LastTransition(actions) < |cfg.order| && slot < |cfg.order|
    requires !w.rejected && WorldAgrees(cfg, w, actions)
    ensures WorldAgrees(cfg, Apply(cfg, w, slot), actions + [Transition(slot)])
  {
    var n, more := Apply(cfg, w, slot), actions + [Transition(slot)];
    forall i | 0 <= i < |n.nodes|
      ensures NodeAgrees(cfg, i, n.nodes[i], n.attackOn, n.defenseOn, GivenSince(more, i))
    {
      assert NodeAgrees(cfg, i, w.nodes[i], w.attackOn, w.defenseOn, GivenSince(actions, i));
    }
  }

  lemma OtherAgrees(cfg: Config, w: World, actions: seq<Action>, a: Action)
    requires ValidConfig(cfg) && LastTransition(actions) < |cfg.order|
    requires !w.rejected && WorldAgrees(cfg, w, actions) && ValidAction(cfg, a) && !a.Transition?
    ensures LastTransition(actions + [a]) == LastTransition(actions)
    ensures WorldAgrees(cfg, Fire(cfg, w, a), actions + [a])
  {
    assert (actions + [a])[..|actions|] == actions;
    var n := Fire(cfg, w, a);
    forall i | 0 <= i < |n.nodes|
      ensures NodeAgrees(cfg, i, n.nodes[i], n.attackOn, n.defenseOn, GivenSince(actions + [a], i))
    {
      assert NodeAgrees(cfg, i, w.nodes[i], w.attackOn, w.defenseOn, GivenSince(actions, i));
    }
  }

  /** After any events, unless the run was rejected, attack and defense are those of
      the last slot entered, the node attributes mirror them, and each defense holds
      nothing but what it was given since that slot's transition. */
  lemma {:induction false} RunAgrees(cfg: Config, w: World, actions: seq<Action>)
    requires ValidConfig(cfg) && Neutral(w) && ValidActions(cfg, actions)
    requires !Run(cfg, w, actions).rejected
    ensures LastTransition(actions) < |cfg.order| && WorldAgrees(cfg, Run(cfg, w, actions), actions)
  {
    LastTransitionInRange(cfg, actions);
    if actions != [] {
      var before, a := actions[..|actions| - 1], actions[|actions| - 1];
      assert actions == before + [a];
      RunAgrees(cfg, w, before);
      if a.Transition? {
        ApplyAgrees(cfg, Run(cfg, w, before), before, a.slot);
      } else {
        OtherAgrees(cfg, Run(cfg, w, before), before, a);
      }
      hide WorldAgrees, Apply;
    }
  }

  ghost predicate SameNodes(a: seq<Node>, b: seq<Node>) {
    |a| == |b| && forall i :: 0 <= i < |a| ==> a[i].olsr == b[i].olsr && a[i].defended == b[i].defended
  }

  lemma FireKeepsNodes(cfg: Config, w: World, a: Action)
    requires ValidConfig(cfg) && ValidAction(cfg, a)
    ensures SameNodes(Fire(cfg, w, a).nodes, w.nodes)
  {
    if a.Transition? { ApplyKeepsNodes(cfg, w, a.slot); }
    hide Apply;
  }

  lemma ApplyKeepsNodes(cfg: Config, w: World, slot: nat)
    requires ValidConfig(cfg) && slot < |cfg.order|
    ensures SameNodes(Apply(cfg, w, slot).nodes, w.nodes)
  {
  }

  lemma {:induction false} NodesFixed(cfg: Config, w: World, actions: seq<Action>)
    requires ValidConfig(cfg) && ValidActions(cfg, actions)
    ensures SameNodes(Run(cfg, w, actions).nodes, w.nodes)
  {
    hide Fire;
    if actions != [] {
      NodesFixed(cfg, w, actions[..|actions| - 1]);
      FireKeepsNodes(cfg, Run(cfg, w, actions[..|actions| - 1]), actions[|actions| - 1]);
    }
  }

  /** The defense forgets: two runs that entered a slot of the same scenario last and
      gave a node the same since leave that node's defense the same, whatever came before. */
  lemma {:induction false} DefenseForgets(cfg: Config, w: World, one: seq<Action>, two: seq<Action>, i: nat)
    requires ValidConfig(cfg) && Neutral(w) && ValidActions(cfg, one) && ValidActions(cfg, two) && i < |w.nodes|
    requires !Run(cfg, w, one).rejected && !Run(cfg, w, two).rejected
    requires LastTransition(one) < |cfg.order| && LastTransition(two) < |cfg.order|
    requires DefenseOn(cfg, LastTransition(one)) == DefenseOn(cfg, LastTransition(two))
    requires GivenSince(one, i) == GivenSince(two, i)
    ensures |Run(cfg, w, one).nodes| == |Run(cfg, w, two).nodes| == |w.nodes|
    ensures var a, b := Run(cfg, w, one).nodes[i], Run(cfg, w, two).nodes[i];
      a.mirror == b.mirror && a.live == b.live && a.taken == b.taken
  {
    NodesFixed(cfg, w, one);
    NodesFixed(cfg, w, two);
    RunAgrees(cfg, w, one);
    RunAgrees(cfg, w, two);
    hide Run;
    var a, b := Run(cfg, w, one), Run(cfg, w, two);
    assert NodeAgrees(cfg, i, a.nodes[i], a.attackOn, a.defenseOn, GivenSince(one, i));
    assert NodeAgrees(cfg, i, b.nodes[i], b.attackOn, b.defenseOn, GivenSince(two, i));
  }
}
