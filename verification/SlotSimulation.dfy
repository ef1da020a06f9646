/** A simulation from scheduling to promotion. */
module SlotSimulation {
  import opened SlotTimeline
  import opened SlotSchedule
  import opened SlotHarnesses

  predicate DistinctIds(items: seq<Item>) {
    forall i, j :: 0 <= i < j < |items| ==> items[i].id != items[j].id
  }

  ghost function GateItems(base: nat, fails: seq<bool>): (r: seq<Item>)
    ensures |r| == |fails|
  {
    seq(|fails|, i requires 0 <= i < |fails| => Item(INITIAL_STABILIZATION, base + i, Gate(fails[i])))
  }

  ghost function TransitionItems(base: nat, k: nat): (r: seq<Item>)
    ensures |r| == k
  {
    seq(k, i requires 0 <= i < k => TransitionItem(base, i))
  }

  ghost function BracketItems(base: nat, n: nat, k: nat): (r: seq<Item>)
    ensures |r| == 2 * k
  {
    if k == 0 then [] else BracketItems(base, n, k - 1) + [StartItem(base, n, k - 1), EndItem(base, n, k - 1)]
  }

  lemma {:induction false} Brackets(base: nat, n: nat, k: nat)
    requires k <= n
    ensures var r := BracketItems(base, n, k);
      && (forall p :: 0 <= p < |r| ==> Expected(base, n, r[p]) && r[p].id == base + 3 + n + p)
      && (forall i: nat :: i < k ==> StartItem(base, n, i) in r && EndItem(base, n, i) in r)
  {
    if k > 0 {
      Brackets(base, n, k - 1);
      var r, before := BracketItems(base, n, k), BracketItems(base, n, k - 1);
      var start, end := StartItem(base, n, k - 1), EndItem(base, n, k - 1);
      assert Expected(base, n, start) && Expected(base, n, end);
      hide StartItem, EndItem, Expected;
      assert r == before + [start, end];
      forall p | 0 <= p < |r| ensures Expected(base, n, r[p]) && r[p].id == base + 3 + n + p {
        if p < |before| { assert r[p] == before[p]; }
      }
      assert start in r && end in r;
    }
  }

  /** Schedules the gates, the transitions and the measurement brackets, in that order. */
  method ScheduleHandlers(base: nat, n: nat, fails: seq<bool>) returns (queue: seq<Item>)
    requires |fails| == 3
    ensures queue == GateItems(base, fails) + TransitionItems(base, n) + BracketItems(base, n, n)
  {
    queue := [Item(INITIAL_STABILIZATION, base, Gate(fails[0])), Item(INITIAL_STABILIZATION, base + 1, Gate(fails[1])),
              Item(INITIAL_STABILIZATION, base + 2, Gate(fails[2]))];
    for slot := 0 to n
      invariant queue == GateItems(base, fails) + TransitionItems(base, slot)
    {
      queue := queue + [Item(TransitionTime(slot), base + |queue|, Transition(slot))];
    }
    for slot := 0 to n
      invariant queue == GateItems(base, fails) + TransitionItems(base, n) + BracketItems(base, n, slot)
    {
      queue := queue + [Item(WindowStart(slot), base + |queue|, StartSlot(slot))];
      queue := queue + [Item(WindowEnd(slot), base + |queue|, EndSlot(slot))];
    }
  }

  /** Traffic inserted before or after the handlers. */
  ghost predicate OnlyTraffic(base: nat, n: nat, traffic: seq<Item>) {
    && DistinctIds(traffic)
    && forall i :: 0 <= i < |traffic| ==>
      traffic[i].action.Traffic? && !(base <= traffic[i].id < base + 3 + 3 * n)
  }

  ghost predicate Handlers(base: nat, n: nat, fails: seq<bool>, queue: seq<Item>) {
    |fails| == 3 && queue == GateItems(base, fails) + TransitionItems(base, n) + BracketItems(base, n, n)
  }

  lemma HandlerIds(base: nat, n: nat, fails: seq<bool>, queue: seq<Item>, p: nat)
    requires Handlers(base, n, fails, queue) && p < |queue|
    ensures Expected(base, n, queue[p]) && queue[p].id == base + p
  {
    Brackets(base, n, n);
    if p >= 3 + n { assert queue[p] == BracketItems(base, n, n)[p - 3 - n]; }
    hide BracketItems;
  }

  lemma HandlersPresent(base: nat, n: nat, fails: seq<bool>, queue: seq<Item>, k: nat)
    requires Handlers(base, n, fails, queue) && k < n
    ensures TransitionItem(base, k) in queue && StartItem(base, n, k) in queue && EndItem(base, n, k) in queue
  {
    Brackets(base, n, n);
    hide BracketItems, TransitionItem, StartItem, EndItem;
    assert queue[3 + k] == TransitionItem(base, k);
  }

  lemma HandlersWellScheduled(base: nat, n: nat, fails: seq<bool>, queue: seq<Item>, traffic: seq<Item>)
    requires Handlers(base, n, fails, queue) && OnlyTraffic(base, n, traffic)
    ensures WellScheduled(base, n, queue + traffic) && DistinctIds(queue + traffic)
    ensures forall b :: b in fails <==> Gate(b) in Actions(queue + traffic)
  {
    var all := queue + traffic;
    forall p | 0 <= p < |queue| ensures Expected(base, n, queue[p]) && queue[p].id == base + p {
      HandlerIds(base, n, fails, queue, p);
    }
    IdsApart(base, n, queue, traffic);
    forall k: nat | k < n ensures TransitionItem(base, k) in all && StartItem(base, n, k) in all && EndItem(base, n, k) in all {
      HandlersPresent(base, n, fails, queue, k);
    }
    GatesAreThree(base, n, fails, queue, traffic);
    hide Handlers, TransitionItem, StartItem, EndItem, Actions, DistinctIds;
  }

  lemma IdsApart(base: nat, n: nat, queue: seq<Item>, traffic: seq<Item>)
    requires |queue| == 3 + 3 * n && (forall p :: 0 <= p < |queue| ==> queue[p].id == base + p)
    requires OnlyTraffic(base, n, traffic)
    ensures DistinctIds(queue + traffic)
  {
  }

  lemma GatesAreThree(base: nat, n: nat, fails: seq<bool>, queue: seq<Item>, traffic: seq<Item>)
    requires Handlers(base, n, fails, queue)
    requires forall p :: 0 <= p < |queue| ==> Expected(base, n, queue[p]) && queue[p].id == base + p
    requires OnlyTraffic(base, n, traffic)
    ensures forall b :: b in fails <==> Gate(b) in Actions(queue + traffic)
  {
    var all := queue + traffic;
    forall b | Gate(b) in Actions(all) ensures b in fails {
      var p :| 0 <= p < |all| && Actions(all)[p] == Gate(b);
      assert p < |queue| && all[p] == queue[p];
      assert all[p] == GateItems(base, fails)[p];
    }
    forall b | b in fails ensures Gate(b) in Actions(all) {
      var p :| 0 <= p < 3 && fails[p] == b;
      assert all[p] == GateItems(base, fails)[p];
      assert Actions(all)[p] == Gate(b);
    }
  }

  // --------------------------------------------------------------- the event loop

  method Earliest(queue: seq<Item>) returns (first: nat)
    requires queue != [] && DistinctIds(queue)
    ensures first < |queue|
    ensures forall j :: 0 <= j < |queue| && j != first ==> Before(queue[first], queue[j])
  {
    first := 0;
    for i := 1 to |queue|
      invariant first < i
      invariant forall j :: 0 <= j < i && j != first ==> Before(queue[first], queue[j])
    {
      if Before(queue[i], queue[first]) { first := i; }
    }
  }

  /** What has fired, in order, and what is left, all of it later. */
  ghost predicate Fired(all: seq<Item>, run: seq<Item>, left: seq<Item>) {
    && multiset(run) + multiset(left) == multiset(all)
    && InOrder(run) && DistinctIds(left)
    && forall i, j :: 0 <= i < |run| && 0 <= j < |left| ==> Before(run[i], left[j])
  }

  lemma FireFirst(all: seq<Item>, run: seq<Item>, left: seq<Item>, first: nat)
    requires Fired(all, run, left) && first < |left|
    requires forall j :: 0 <= j < |left| && j != first ==> Before(left[first], left[j])
    ensures Fired(all, run + [left[first]], left[..first] + left[first + 1..])
  {
    var rest := left[..first] + left[first + 1..];
    TakenOut(all, run, left, first);
    forall j | 0 <= j < |rest| ensures rest[j] == left[if j < first then j else j + 1] {
    }
  }

  lemma TakenOut(all: seq<Item>, run: seq<Item>, left: seq<Item>, first: nat)
    requires multiset(run) + multiset(left) == multiset(all) && first < |left|
    ensures multiset(run + [left[first]]) + multiset(left[..first] + left[first + 1..]) == multiset(all)
  {
    assert left == left[..first] + [left[first]] + left[first + 1..];
  }

  lemma AllFired(base: nat, n: nat, all: seq<Item>, run: seq<Item>)
    requires Fired(all, run, []) && WellScheduled(base, n, all)
    ensures Timeline(base, n, run)
    ensures forall a :: a in Actions(all) ==> a in Actions(run)
  {
    assert multiset(run) == multiset(all);
    SameItems(all, run);
    forall i | 0 <= i < |run| ensures Expected(base, n, run[i]) {
      assert run[i] in all;
    }
    SameActions(all, run);
  }

  lemma SameItems(all: seq<Item>, run: seq<Item>)
    requires multiset(run) == multiset(all)
    ensures forall it :: it in all <==> it in run
  {
    forall it ensures it in all <==> it in run {
      assert it in all <==> it in multiset(all);
      assert it in run <==> it in multiset(run);
    }
  }

  lemma SameActions(all: seq<Item>, run: seq<Item>)
    requires forall it :: it in all ==> it in run
    ensures forall a :: a in Actions(all) ==> a in Actions(run)
  {
    forall a | a in Actions(all) ensures a in Actions(run) {
      var p :| 0 <= p < |all| && Actions(all)[p] == a;
      assert all[p] in run;
      var q :| 0 <= q < |run| && run[q] == all[p];
      assert Actions(run)[q] == a;
    }
  }

  /** Fires events, earliest first and same-time ones in insertion order, until none
      is left or a gate has rejected the run. */
  method RunEvents(h: SlotHarness, all: seq<Item>) returns (ghost run: seq<Item>, left: seq<Item>)
    requires ValidConfig(h.cfg) && ValidActions(h.cfg, Actions(all)) && DistinctIds(all)
    modifies h, h.nodes
    ensures Fired(all, run, left) && (left != [] ==> h.rejected)
    ensures ValidActions(h.cfg, Actions(run)) && h.Now() == SlotTimeline.Run(h.cfg, old(h.Now()), Actions(run))
  {
    run, left := [], all;
    while left != [] && !h.rejected
      invariant Fired(all, run, left)
      invariant ValidActions(h.cfg, Actions(run)) && ValidActions(h.cfg, Actions(left))
      invariant h.Now() == SlotTimeline.Run(h.cfg, old(h.Now()), Actions(run))
      decreases |left|
    {
      var first := Earliest(left);
      FireFirst(all, run, left, first);
      assert Actions(left)[first] == left[first].action;
      assert Actions(run + [left[first]]) == Actions(run) + [left[first].action];
      assert (Actions(run) + [left[first].action])[..|run|] == Actions(run);
      hide Fired, Fire;
      h.Dispatch(left[first].action);
      RestValid(h.cfg, left, first);
      run := run + [left[first]];
      left := left[..first] + left[first + 1..];
    }
  }

  lemma RestValid(cfg: Config, left: seq<Item>, first: nat)
    requires first < |left| && ValidActions(cfg, Actions(left))
    ensures ValidActions(cfg, Actions(left[..first] + left[first + 1..]))
  {
    var rest := left[..first] + left[first + 1..];
    forall j | 0 <= j < |rest| ensures ValidAction(cfg, Actions(rest)[j]) {
      assert rest[j] == left[if j < first then j else j + 1];
      assert ValidAction(cfg, Actions(left)[if j < first then j else j + 1]);
    }
  }

  /** A whole simulation: rejected exactly when an acceptance gate fails (the third
      handler scheduled with them only reports), and then no file changes; otherwise
      every file gains one row a slot, in slot order, labelled with the scenario of
      the slot. */
  method Simulate(h: SlotHarness, t: Tables, base: nat, disconnected: bool, tooClose: bool, traffic: seq<Item>)
    requires ValidConfig(h.cfg) && Neutral(h.Now()) && OnlyTraffic(base, |h.cfg.order|, traffic)
    modifies h, h.nodes, t
    ensures h.rejected <==> disconnected || tooClose
    ensures h.rejected ==> t.features == old(t.features) && t.labels == old(t.labels) && t.oracle == old(t.oracle) && t.runs == old(t.runs)
    ensures !h.rejected ==>
      && t.features == old(t.features) + AllRows(h.cfg) && t.labels == old(t.labels) + AllRows(h.cfg)
      && t.oracle == old(t.oracle) + AllRows(h.cfg) && t.runs == old(t.runs) + [h.cfg.order]
  {
    var n := |h.cfg.order|;
    var fails := [disconnected, tooClose, false];
    var queue := ScheduleHandlers(base, n, fails);
    HandlersWellScheduled(base, n, fails, queue, traffic);
    var all := queue + traffic;
    assert all[..|all|] == all;
    ActionsValid(h.cfg, base, all, |all|);
    ghost var run, left;
    run, left := RunEvents(h, all);
    Outcome(h.cfg, old(h.Now()), base, all, run, left, h.Now(), fails);
    h.PromoteStagedRows(t);
  }

  lemma Outcome(cfg: Config, w: World, base: nat, all: seq<Item>, run: seq<Item>, left: seq<Item>, now: World, fails: seq<bool>)
    requires ValidConfig(cfg) && Neutral(w) && WellScheduled(base, |cfg.order|, all)
    requires forall b :: b in fails <==> Gate(b) in Actions(all)
    requires Fired(all, run, left) && (left != [] ==> now.rejected)
    requires ValidActions(cfg, Actions(run)) && now == SlotTimeline.Run(cfg, w, Actions(run))
    ensures now.rejected <==> true in fails
    ensures !now.rejected ==> Staged(now, AllRows(cfg))
  {
    RejectedByGate(cfg, w, Actions(run));
    assert forall it :: it in run ==> it in all by {
      forall it | it in run ensures it in all {
        assert it in multiset(run) + multiset(left);
      }
    }
    SameActions(run, all);
    if !now.rejected {
      AllFired(base, |cfg.order|, all, run);
      AcceptedStagesAll(cfg, w, base, run);
    }
  }
}
