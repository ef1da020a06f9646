/** What the scheduler fires when: the handlers the harness schedules, any traffic
    in between, same-time events in insertion order. */
module SlotSchedule {
  import opened SlotTimeline

  /** A scheduled event; id is its place in the order of insertion. */
  datatype Item = Item(at: int, id: nat, action: Action)

  predicate Before(a: Item, b: Item) {
    a.at < b.at || (a.at == b.at && a.id < b.id)
  }

  // The handlers are inserted as three gates, then every transition, then each
  // slot's start and end.

  function TransitionItem(base: nat, slot: nat): Item {
    Item(TransitionTime(slot), base + 3 + slot, Transition(slot))
  }

  function StartItem(base: nat, n: nat, slot: nat): Item {
    Item(WindowStart(slot), base + 3 + n + 2 * slot, StartSlot(slot))
  }

  function EndItem(base: nat, n: nat, slot: nat): Item {
    Item(WindowEnd(slot), base + 3 + n + 2 * slot + 1, EndSlot(slot))
  }

  /** An event is traffic, or one of those the harness schedules. */
  predicate Expected(base: nat, n: nat, it: Item) {
    match it.action
    case Gate(_) => it.at == INITIAL_STABILIZATION && base <= it.id < base + 3
    case Transition(slot) => slot < n && it == TransitionItem(base, slot)
    case StartSlot(slot) => slot < n && it == StartItem(base, n, slot)
    case EndSlot(slot) => slot < n && it == EndItem(base, n, slot)
    case Traffic(_, _) => true
  }

  ghost predicate WellScheduled(base: nat, n: nat, items: seq<Item>) {
    && (forall i :: 0 <= i < |items| ==> Expected(base, n, items[i]))
    && (forall k: nat :: k < n ==> TransitionItem(base, k) in items)
    && (forall k: nat :: k < n ==> StartItem(base, n, k) in items)
    && (forall k: nat :: k < n ==> EndItem(base, n, k) in items)
  }

  ghost predicate InOrder(run: seq<Item>) {
    forall i, j :: 0 <= i < j < |run| ==> Before(run[i], run[j])
  }

  /** The whole run of a simulation: every scheduled event, in firing order. */
  ghost predicate Timeline(base: nat, n: nat, run: seq<Item>) {
    InOrder(run) && WellScheduled(base, n, run)
  }

  function Actions(run: seq<Item>): (r: seq<Action>)
    ensures |r| == |run|
  {
    seq(|run|, i requires 0 <= i < |run| => run[i].action)
  }

  lemma ActionsPrefix(run: seq<Item>, i: nat)
    requires i < |run|
    ensures Actions(run[..i + 1])[..i] == Actions(run[..i]) && Actions(run[..i + 1])[i] == run[i].action
  {
    assert run[..i + 1][..i] == run[..i];
  }

  lemma ActionsValid(cfg: Config, base: nat, run: seq<Item>, i: nat)
    requires WellScheduled(base, |cfg.order|, run) && i <= |run|
    ensures ValidActions(cfg, Actions(run[..i]))
  {
    forall j | 0 <= j < i ensures ValidAction(cfg, run[j].action) {
      assert Expected(base, |cfg.order|, run[j]);
    }
  }

  // ----------------------------------------------------- which slot is in force

  lemma {:induction false} LastTransitionAt(run: seq<Item>, i: nat) returns (at: int)
    requires i <= |run|
    ensures -1 <= at < i
    ensures forall j :: at < j < i ==> !run[j].action.Transition?
    ensures at >= 0 ==> run[at].action.Transition? && run[at].action.slot == LastTransition(Actions(run[..i]))
    ensures at < 0 ==> LastTransition(Actions(run[..i])) == -1
  {
    if i == 0 {
      at := -1;
    } else {
      ActionsPrefix(run, i - 1);
      if run[i - 1].action.Transition? {
        at := i - 1;
      } else {
        at := LastTransitionAt(run, i - 1);
      }
    }
  }

  /** At the i-th event, those before it in order have fired and no others. */
  lemma FiredIff(run: seq<Item>, i: nat, it: Item)
    requires InOrder(run) && i < |run| && it in run
    ensures it in run[..i] <==> Before(it, run[i])
  {
    var j :| 0 <= j < |run| && run[j] == it;
    if j < i { assert run[..i][j] == it; }
  }

  lemma EarlierFired(run: seq<Item>, i: nat, a: Item, b: Item)
    requires InOrder(run) && i <= |run| && a in run && b in run[..i] && (a == b || Before(a, b))
    ensures a in run[..i]
  {
    var j :| 0 <= j < i && run[..i][j] == b;
    FiredIff(run, j, a);
    assert run[..j] == run[..i][..j];
  }

  /** Between its own transition and the next, a slot is in force. */
  lemma SlotInForce(base: nat, n: nat, run: seq<Item>, i: nat, slot: nat)
    requires Timeline(base, n, run) && i <= |run| && slot < n
    requires TransitionItem(base, slot) in run[..i]
    requires slot + 1 < n ==> TransitionItem(base, slot + 1) !in run[..i]
    ensures LastTransition(Actions(run[..i])) == slot
  {
    var at := LastTransitionAt(run, i);
    var own :| 0 <= own < i && run[..i][own] == TransitionItem(base, slot);
    assert own <= at;
    var last := run[at].action.slot;
    assert Expected(base, n, run[at]) && run[..i][at] == run[at];
    assert slot <= last by {
      if own < at { assert Before(run[own], run[at]); }
    }
    NextFired(base, n, run, i, slot, last);
  }

  lemma NextFired(base: nat, n: nat, run: seq<Item>, i: nat, slot: nat, last: nat)
    requires Timeline(base, n, run) && i <= |run| && slot <= last < n
    requires TransitionItem(base, last) in run[..i]
    ensures slot < last ==> TransitionItem(base, slot + 1) in run[..i]
  {
    if slot < last {
      assert TransitionItem(base, slot + 1) in run;
      EarlierFired(run, i, TransitionItem(base, slot + 1), TransitionItem(base, last));
    }
  }

  /** i events have fired at instant t: all earlier ones and any of those at t. */
  ghost predicate AtInstant(run: seq<Item>, i: nat, t: int) {
    && i <= |run|
    && (forall j :: 0 <= j < i ==> run[j].at <= t)
    && (forall j :: i <= j < |run| ==> run[j].at >= t)
  }

  lemma InWindow(base: nat, n: nat, run: seq<Item>, i: nat, t: int, slot: nat)
    requires Timeline(base, n, run) && AtInstant(run, i, t) && slot < n && WindowStart(slot) <= t < WindowEnd(slot)
    ensures LastTransition(Actions(run[..i])) == slot
  {
    assert TransitionItem(base, slot) in run;
    var own :| 0 <= own < |run| && run[own] == TransitionItem(base, slot);
    assert own < i;
    assert run[..i][own] == TransitionItem(base, slot);
    SlotInForce(base, n, run, i, slot);
  }

  /** Throughout a measurement window, on every accepted timeline, attack and defense
      are as the window's row will label them, on every node. */
  lemma WindowsMatchLabels(cfg: Config, w: World, base: nat, run: seq<Item>, i: nat, t: int, slot: nat)
    requires ValidConfig(cfg) && Neutral(w) && Timeline(base, |cfg.order|, run) && AtInstant(run, i, t)
    requires slot < |cfg.order| && WindowStart(slot) <= t < WindowEnd(slot)
    requires ValidActions(cfg, Actions(run[..i])) && !Run(cfg, w, Actions(run[..i])).rejected
    ensures var now, row := Run(cfg, w, Actions(run[..i])), RowFor(cfg, slot);
      && row.attack == (if now.attackOn then 1 else 0) && row.defense == (if now.defenseOn then 1 else 0)
      && row.start <= t < row.end && row.scenario == cfg.table[cfg.order[slot]].name
      && forall v :: 0 <= v < |now.nodes| ==>
        NodeAgrees(cfg, v, now.nodes[v], row.attack == 1, row.defense == 1, GivenSince(Actions(run[..i]), v))
  {
    InWindow(base, |cfg.order|, run, i, t, slot);
    RunAgrees(cfg, w, Actions(run[..i]));
    hide Run;
  }

  /** A window's end fires after the next slot's transition: its row is written while
      the next scenario is already applied. */
  lemma EndFiresInNextSlot(base: nat, n: nat, run: seq<Item>, i: nat, slot: nat)
    requires Timeline(base, n, run) && i < |run| && run[i] == EndItem(base, n, slot) && slot < n
    ensures LastTransition(Actions(run[..i])) == if slot + 1 < n then slot + 1 else slot
  {
    var now := if slot + 1 < n then slot + 1 else slot;
    assert TransitionItem(base, now) in run;
    FiredIff(run, i, TransitionItem(base, now));
    if now + 1 < n {
      assert TransitionItem(base, now + 1) in run;
      FiredIff(run, i, TransitionItem(base, now + 1));
    }
    SlotInForce(base, n, run, i, now);
  }

  lemma GateFirst(base: nat, n: nat, gate: Item, it: Item)
    requires Expected(base, n, gate) && gate.action.Gate? && Expected(base, n, it)
    ensures it.action.Transition? || it.action.EndSlot? ==> !Before(it, gate)
  {
  }

  /** The acceptance gates fire before the first transition, with attack and defense off. */
  lemma GatesSeeNeutral(cfg: Config, w: World, base: nat, run: seq<Item>, i: nat)
    requires ValidConfig(cfg) && Neutral(w) && Timeline(base, |cfg.order|, run) && i < |run| && run[i].action.Gate?
    requires ValidActions(cfg, Actions(run[..i])) && !Run(cfg, w, Actions(run[..i])).rejected
    ensures LastTransition(Actions(run[..i])) == -1
    ensures !Run(cfg, w, Actions(run[..i])).attackOn && !Run(cfg, w, Actions(run[..i])).defenseOn
  {
    var at := LastTransitionAt(run, i);
    forall j | 0 <= j < i ensures !run[j].action.Transition? {
      assert Before(run[j], run[i]);
      GateFirst(base, |cfg.order|, run[i], run[j]);
    }
    RunAgrees(cfg, w, Actions(run[..i]));
    hide Run;
  }

  // --------------------------------------------------------------------- rows

  /** The slots whose ends fired, in order. */
  ghost function EndsIn(actions: seq<Action>): seq<nat> {
    if actions == [] then []
    else
      var before, a := EndsIn(actions[..|actions| - 1]), actions[|actions| - 1];
      if a.EndSlot? then before + [a.slot] else before
  }

  ghost function RowsFor(cfg: Config, slots: seq<nat>): (r: seq<Row>)
    requires ValidConfig(cfg) && forall j :: 0 <= j < |slots| ==> slots[j] < |cfg.order|
    ensures |r| == |slots|
  {
    seq(|slots|, j requires 0 <= j < |slots| => RowFor(cfg, slots[j]))
  }

  ghost function Upto(m: nat): seq<nat> {
    seq(m, k => k)
  }

  /** Ends fire in slot order, each once. */
  lemma {:induction false} EndsInOrder(base: nat, n: nat, run: seq<Item>, i: nat)
    requires Timeline(base, n, run) && i <= |run|
    ensures var ends := EndsIn(Actions(run[..i]));
      |ends| <= n && ends == Upto(|ends|) && forall k: nat :: k < n ==> (EndItem(base, n, k) in run[..i] <==> k < |ends|)
  {
    if i > 0 {
      EndsInOrder(base, n, run, i - 1);
      ActionsPrefix(run, i - 1);
      var before, it := EndsIn(Actions(run[..i - 1])), run[i - 1];
      assert run[..i] == run[..i - 1] + [it];
      assert Expected(base, n, it);
      if it.action.EndSlot? {
        NextEnd(base, n, run, i - 1, it.action.slot, |before|);
        assert before + [|before|] == Upto(|before| + 1);
      }
    }
  }

  lemma NextEnd(base: nat, n: nat, run: seq<Item>, i: nat, slot: nat, m: nat)
    requires Timeline(base, n, run) && i < |run| && slot < n && run[i] == EndItem(base, n, slot) && m <= n
    requires forall k: nat :: k < n ==> (EndItem(base, n, k) in run[..i] <==> k < m)
    ensures slot == m
  {
    FiredIff(run, i, run[i]);
    assert EndItem(base, n, m) in run;
    FiredIff(run, i, EndItem(base, n, m));
  }

  /** The staged rows of every table. */
  ghost predicate Staged(w: World, rows: seq<Row>) {
    w.features == w.labels == w.oracle == rows
  }

  lemma GateBeforeEnds(base: nat, n: nat, run: seq<Item>, i: nat)
    requires Timeline(base, n, run) && i < |run| && run[i].action.Gate?
    ensures EndsIn(Actions(run[..i])) == []
  {
    EndsInOrder(base, n, run, i);
    if n > 0 {
      assert EndItem(base, n, 0) in run;
      FiredIff(run, i, EndItem(base, n, 0));
      GateFirst(base, n, run[i], EndItem(base, n, 0));
    }
  }

  /** Until rejected, one row a table for each window that ended; once rejected, none. */
  lemma {:induction false} RowsSoFar(cfg: Config, w: World, base: nat, run: seq<Item>, i: nat)
    requires ValidConfig(cfg) && Neutral(w) && Timeline(base, |cfg.order|, run) && i <= |run|
    requires ValidActions(cfg, Actions(run[..i]))
    ensures var now, ends := Run(cfg, w, Actions(run[..i])), EndsIn(Actions(run[..i]));
      && |ends| <= |cfg.order| && ends == Upto(|ends|)
      && Staged(now, if now.rejected then [] else RowsFor(cfg, Upto(|ends|)))
  {
    EndsInOrder(base, |cfg.order|, run, i);
    if i > 0 {
      ActionsPrefix(run, i - 1);
      RowsSoFar(cfg, w, base, run, i - 1);
      if run[i - 1].action.Gate? { GateBeforeEnds(base, |cfg.order|, run, i - 1); }
      OneMore(cfg, Run(cfg, w, Actions(run[..i - 1])), EndsIn(Actions(run[..i - 1])), EndsIn(Actions(run[..i])), run[i - 1].action);
      hide Fire, RowsFor, Upto;
    }
  }

  lemma OneMore(cfg: Config, w: World, before: seq<nat>, after: seq<nat>, a: Action)
    requires ValidConfig(cfg) && ValidAction(cfg, a)
    requires after == if a.EndSlot? then before + [a.slot] else before
    requires |after| <= |cfg.order| && before == Upto(|before|) && after == Upto(|after|)
    requires Staged(w, if w.rejected then [] else RowsFor(cfg, Upto(|before|)))
    requires a.Gate? ==> before == []
    ensures Staged(Fire(cfg, w, a), if Fire(cfg, w, a).rejected then [] else RowsFor(cfg, Upto(|after|)))
  {
    if a.EndSlot? && !w.rejected {
      assert RowsFor(cfg, Upto(|after|)) == RowsFor(cfg, Upto(|before|)) + [RowFor(cfg, a.slot)];
    }
  }

  ghost function AllRows(cfg: Config): seq<Row>
    requires ValidConfig(cfg)
  {
    seq(|cfg.order|, k requires 0 <= k < |cfg.order| => RowFor(cfg, k))
  }

  /** A whole accepted run stages one row a slot, in slot order, in every table. */
  lemma AcceptedStagesAll(cfg: Config, w: World, base: nat, run: seq<Item>)
    requires ValidConfig(cfg) && Neutral(w) && Timeline(base, |cfg.order|, run)
    requires ValidActions(cfg, Actions(run)) && !Run(cfg, w, Actions(run)).rejected
    ensures Staged(Run(cfg, w, Actions(run)), AllRows(cfg))
  {
    assert run[..|run|] == run;
    var n := |cfg.order|;
    EndsInOrder(base, n, run, |run|);
    RowsSoFar(cfg, w, base, run, |run|);
    var ends := EndsIn(Actions(run));
    if n > 0 { assert EndItem(base, n, n - 1) in run; }
    assert RowsFor(cfg, Upto(n)) == AllRows(cfg);
  }

  /** Only a failing gate rejects. */
  lemma {:induction false} RejectedByGate(cfg: Config, w: World, actions: seq<Action>)
    requires ValidConfig(cfg) && Neutral(w) && ValidActions(cfg, actions)
    ensures Run(cfg, w, actions).rejected <==> Gate(true) in actions
  {
    if actions != [] {
      RejectedByGate(cfg, w, actions[..|actions| - 1]);
      assert actions == actions[..|actions| - 1] + [actions[|actions| - 1]];
    }
  }
}
