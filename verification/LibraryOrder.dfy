/** The layered order in which the ns-3 libraries are loaded. */
module LibraryOrder {
  import opened Graphs

  /** A library, by its file name. */
  datatype Lib = Lib(name: string)

  type Dependencies = map<Lib, seq<Lib>>

  /** Loaded layer by layer, or recursing without progress until Python gives up. */
  datatype Result = Ordered(steps: seq<seq<Lib>>) | Diverges

  /** Dependencies stay within the map and can be ranked, so there is no cycle. */
  ghost predicate Rankable(deps: Dependencies) {
    exists rank: map<Lib, nat> :: Ranks(deps, rank)
  }

  ghost predicate Ranks(deps: Dependencies, rank: map<Lib, nat>) {
    rank.Keys == deps.Keys && forall m, d :: m in deps && d in deps[m] ==> d in rank && rank[d] < rank[m]
  }

  /** c is a chain of dependencies that ends at m. */
  ghost predicate Chain(deps: Dependencies, c: seq<Lib>, m: Lib) {
    && c != [] && c[|c| - 1] == m
    && (forall i :: 0 <= i < |c| ==> c[i] in deps)
    && (forall i :: 0 <= i < |c| - 1 ==> c[i] in deps[c[i + 1]])
  }

  predicate CanLoad(deps: Dependencies, m: Lib, current: seq<Lib>)
    requires m in deps
  {
    forall d :: d in deps[m] ==> d in current
  }

  /** The pending modules whose dependencies are all loaded, in order. */
  function Loadable(deps: Dependencies, pending: seq<Lib>, current: seq<Lib>): (r: seq<Lib>)
    requires forall m :: m in pending ==> m in deps
    ensures forall m :: m in r <==> m in pending && CanLoad(deps, m, current)
    ensures Distinct(pending) ==> Distinct(r)
  {
    if pending == [] then []
    else
      var last := pending[|pending| - 1];
      var front := Loadable(deps, pending[..|pending| - 1], current);
      assert forall m :: m in pending <==> m in pending[..|pending| - 1] || m == last;
      if CanLoad(deps, last, current) then front + [last] else front
  }

  method ModulesThatCanBeLoaded(deps: Dependencies, pending: seq<Lib>, current: seq<Lib>) returns (modules: seq<Lib>)
    requires forall m :: m in pending ==> m in deps
    ensures modules == Loadable(deps, pending, current)
  {
    modules := [];
    for i := 0 to |pending|
      invariant forall m :: m in pending[..i] ==> m in deps
      invariant modules == Loadable(deps, pending[..i], current)
    {
      var canBeLoaded := true;
      var needs := deps[pending[i]];
      for j := 0 to |needs|
        invariant canBeLoaded && forall k :: 0 <= k < j ==> needs[k] in current
      {
        if needs[j] !in current {
          canBeLoaded := false;
          break;
        }
      }
      assert canBeLoaded <==> CanLoad(deps, pending[i], current);
      assert pending[..i + 1][..i] == pending[..i];
      if !canBeLoaded { continue; }
      modules := modules + [pending[i]];
    }
    assert pending[..|pending|] == pending;
  }

  // ------------------------------------------------------------- the layers

  /** level gives each module loaded so far its step. */
  ghost predicate InSteps(deps: Dependencies, steps: seq<seq<Lib>>, level: map<Lib, nat>) {
    && (forall m :: m in level ==> m in deps && level[m] < |steps|)
    && (forall k, m :: 0 <= k < |steps| ==> (m in steps[k] <==> m in level && level[m] == k))
    && (forall k :: 0 <= k < |steps| ==> Distinct(steps[k]))
  }

  /** Dependencies are loaded earlier. */
  ghost predicate Earlier(deps: Dependencies, level: map<Lib, nat>) {
    forall m, d :: m in level && m in deps && d in deps[m] ==> d in level && level[d] < level[m]
  }

  /** Nothing is loaded later than it has to be. */
  ghost predicate Needed(deps: Dependencies, level: map<Lib, nat>) {
    forall m :: m in level && m in deps && level[m] > 0 ==> NeededFrom(deps, m, level, level[m] - 1)
  }

  ghost predicate Layers(deps: Dependencies, steps: seq<seq<Lib>>, level: map<Lib, nat>) {
    InSteps(deps, steps, level) && Earlier(deps, level) && Needed(deps, level)
  }

  /** Some dependency of m is loaded at step k. */
  ghost predicate NeededFrom(deps: Dependencies, m: Lib, level: map<Lib, nat>, k: nat)
    requires m in deps
  {
    exists d :: d in deps[m] && d in level && level[d] == k
  }

  /** The modules still pending: each was held up at the last step. */
  ghost predicate HeldUp(deps: Dependencies, steps: seq<seq<Lib>>, level: map<Lib, nat>, pending: seq<Lib>, current: seq<Lib>) {
    && Distinct(pending)
    && (forall m :: m in current <==> m in level)
    && (forall m :: m in pending <==> m in deps && m !in level)
    && (|steps| > 0 ==> forall m :: m in pending ==> exists d :: d in deps[m] && (d !in level || level[d] == |steps| - 1))
  }

  ghost predicate Progress(deps: Dependencies, steps: seq<seq<Lib>>, level: map<Lib, nat>, pending: seq<Lib>, current: seq<Lib>) {
    Layers(deps, steps, level) && HeldUp(deps, steps, level, pending, current)
  }

  ghost function Raise(level: map<Lib, nat>, ready: seq<Lib>, step: nat): map<Lib, nat> {
    map m | m in level.Keys + (set x | x in ready) :: if m in ready then step else level[m]
  }

  function Without(pending: seq<Lib>, gone: seq<Lib>): (r: seq<Lib>)
    ensures forall m :: m in r <==> m in pending && m !in gone
    ensures Distinct(pending) ==> Distinct(r)
    ensures |r| <= |pending| && (gone != [] && gone[0] in pending ==> |r| < |pending|)
  {
    if pending == [] then []
    else
      var rest := Without(pending[1..], gone);
      assert forall m :: m in pending <==> m == pending[0] || m in pending[1..];
      if pending[0] in gone then rest else [pending[0]] + rest
  }

  lemma RaisedNeeds(deps: Dependencies, steps: seq<seq<Lib>>, level: map<Lib, nat>, pending: seq<Lib>, current: seq<Lib>, m: Lib)
    requires Progress(deps, steps, level, pending, current)
    requires var up := Raise(level, Loadable(deps, pending, current), |steps|); m in up && up[m] > 0
    ensures var up := Raise(level, Loadable(deps, pending, current), |steps|); NeededFrom(deps, m, up, up[m] - 1)
  {
    hide Loadable;
    var ready := Loadable(deps, pending, current);
    var up := Raise(level, ready, |steps|);
    if m in ready {
      var d :| d in deps[m] && (d !in level || level[d] == |steps| - 1);
      assert d in current && up[d] == up[m] - 1;
    } else {
      assert NeededFrom(deps, m, level, level[m] - 1);
      var d :| d in deps[m] && d in level && level[d] == level[m] - 1;
      assert up[d] == up[m] - 1;
    }
  }

  lemma RaisedStep(deps: Dependencies, steps: seq<seq<Lib>>, level: map<Lib, nat>, pending: seq<Lib>, current: seq<Lib>, k: nat, m: Lib)
    requires Progress(deps, steps, level, pending, current) && k <= |steps|
    ensures var ready := Loadable(deps, pending, current);
      var up := Raise(level, ready, |steps|);
      m in (steps + [ready])[k] <==> m in up && up[m] == k
  {
    hide Loadable, NeededFrom;
    if k < |steps| { assert m in steps[k] <==> m in level && level[m] == k; }
  }

  lemma RaisedNeeded(deps: Dependencies, steps: seq<seq<Lib>>, level: map<Lib, nat>, pending: seq<Lib>, current: seq<Lib>)
    requires Progress(deps, steps, level, pending, current)
    ensures Needed(deps, Raise(level, Loadable(deps, pending, current), |steps|))
  {
    var up := Raise(level, Loadable(deps, pending, current), |steps|);
    hide Loadable, NeededFrom, Progress, Raise;
    forall m | m in up && m in deps && up[m] > 0
      ensures NeededFrom(deps, m, up, up[m] - 1)
    {
      RaisedNeeds(deps, steps, level, pending, current, m);
    }
  }

  lemma RaisedEarlier(deps: Dependencies, steps: seq<seq<Lib>>, level: map<Lib, nat>, pending: seq<Lib>, current: seq<Lib>)
    requires Progress(deps, steps, level, pending, current)
    ensures Earlier(deps, Raise(level, Loadable(deps, pending, current), |steps|))
  {
    hide Loadable, NeededFrom;
  }

  lemma RaisedInSteps(deps: Dependencies, steps: seq<seq<Lib>>, level: map<Lib, nat>, pending: seq<Lib>, current: seq<Lib>)
    requires Progress(deps, steps, level, pending, current)
    ensures InSteps(deps, steps + [Loadable(deps, pending, current)], Raise(level, Loadable(deps, pending, current), |steps|))
  {
    hide Loadable, NeededFrom;
    var next, up := steps + [Loadable(deps, pending, current)], Raise(level, Loadable(deps, pending, current), |steps|);
    forall k, m | 0 <= k < |next|
      ensures m in next[k] <==> m in up && up[m] == k
    {
      RaisedStep(deps, steps, level, pending, current, k, m);
    }
  }

  lemma StillHeldUp(deps: Dependencies, steps: seq<seq<Lib>>, level: map<Lib, nat>, pending: seq<Lib>, current: seq<Lib>)
    requires Progress(deps, steps, level, pending, current)
    ensures var ready := Loadable(deps, pending, current);
      HeldUp(deps, steps + [ready], Raise(level, ready, |steps|), Without(pending, ready), current + ready)
  {
    hide Loadable, Without, NeededFrom;
    var ready := Loadable(deps, pending, current);
    var up := Raise(level, ready, |steps|);
    forall m | m in Without(pending, ready)
      ensures exists d :: d in deps[m] && (d !in up || up[d] == |steps|)
    {
      var d :| d in deps[m] && d !in current;
    }
  }

  lemma LayerLoaded(deps: Dependencies, steps: seq<seq<Lib>>, level: map<Lib, nat>, pending: seq<Lib>, current: seq<Lib>)
    requires Progress(deps, steps, level, pending, current)
    ensures var ready := Loadable(deps, pending, current);
      Progress(deps, steps + [ready], Raise(level, ready, |steps|), Without(pending, ready), current + ready)
  {
    RaisedNeeded(deps, steps, level, pending, current);
    RaisedEarlier(deps, steps, level, pending, current);
    RaisedInSteps(deps, steps, level, pending, current);
    StillHeldUp(deps, steps, level, pending, current);
  }

  // ------------------------------------------------------------- no progress

  lemma {:induction false} LeastRank(pending: seq<Lib>, rank: map<Lib, nat>) returns (m: Lib)
    requires pending != [] && forall x :: x in pending ==> x in rank
    ensures m in pending && forall x :: x in pending ==> rank[m] <= rank[x]
  {
    m := pending[0];
    if |pending| > 1 {
      var front, last := pending[..|pending| - 1], pending[|pending| - 1];
      assert pending == front + [last];
      m := LeastRank(front, rank);
      if rank[last] < rank[m] { m := last; }
    }
  }

  /** With ranked dependencies the least ranked pending module can be loaded. */
  lemma RankedCanLoad(deps: Dependencies, steps: seq<seq<Lib>>, level: map<Lib, nat>, pending: seq<Lib>, current: seq<Lib>, rank: map<Lib, nat>)
    requires Progress(deps, steps, level, pending, current) && pending != [] && Ranks(deps, rank)
    ensures Loadable(deps, pending, current) != []
  {
    var m := LeastRank(pending, rank);
    forall d | d in deps[m]
      ensures d in current
    {
      assert d in deps && d !in pending;
    }
    assert m in Loadable(deps, pending, current);
  }

  /** Modules are pending but none can be loaded: the dependencies cannot be ranked. */
  lemma StuckMeansUnranked(deps: Dependencies, steps: seq<seq<Lib>>, level: map<Lib, nat>, pending: seq<Lib>, current: seq<Lib>)
    requires Progress(deps, steps, level, pending, current) && pending != []
    requires Loadable(deps, pending, current) == []
    ensures !Rankable(deps)
  {
    forall rank | Ranks(deps, rank)
      ensures false
    {
      RankedCanLoad(deps, steps, level, pending, current, rank);
    }
  }

  /** Nothing is pending: the levels rank the dependencies. */
  lemma DoneMeansRanked(deps: Dependencies, steps: seq<seq<Lib>>, level: map<Lib, nat>, current: seq<Lib>)
    requires Progress(deps, steps, level, [], current)
    ensures Ranks(deps, level)
  {
  }

  /** list.remove: the first occurrence goes. */
  function Remove(pending: seq<Lib>, m: Lib): (r: seq<Lib>)
    requires m in pending
    ensures |r| == |pending| - 1
  {
    if pending[0] == m then pending[1..] else [pending[0]] + Remove(pending[1..], m)
  }

  /** Of distinct modules the others stay, in order. */
  lemma {:induction false} RemoveOne(pending: seq<Lib>, m: Lib)
    requires Distinct(pending) && m in pending
    ensures Remove(pending, m) == Without(pending, [m])
  {
    if pending[0] == m { WithoutNone(pending[1..], [m]); } else { RemoveOne(pending[1..], m); }
  }

  lemma {:induction false} WithoutNone(pending: seq<Lib>, gone: seq<Lib>)
    requires forall m :: m in pending ==> m !in gone
    ensures Without(pending, gone) == pending
  {
    if pending != [] {
      assert pending == [pending[0]] + pending[1..] && pending[0] !in gone;
      WithoutNone(pending[1..], gone);
    }
  }

  lemma {:induction false} WithoutMore(pending: seq<Lib>, gone: seq<Lib>, m: Lib)
    ensures Without(Without(pending, gone), [m]) == Without(pending, gone + [m])
  {
    if pending != [] {
      WithoutMore(pending[1..], gone, m);
      var first, rest := pending[0], Without(pending[1..], gone);
      assert ([first] + rest)[1..] == rest;
    }
  }

  lemma StillPending(was: seq<Lib>, ready: seq<Lib>, i: nat)
    requires Distinct(was) && Distinct(ready) && i < |ready| && forall m :: m in ready ==> m in was
    ensures Distinct(Without(was, ready[..i])) && ready[i] in Without(was, ready[..i])
  {
    assert ready[i] in was && ready[i] !in ready[..i];
  }

  lemma OneModuleMore(done: seq<seq<Lib>>, ready: seq<Lib>, i: nat)
    requires i < |ready|
    ensures (done + [ready[..i]])[|done| := ready[..i] + [ready[i]]] == done + [ready[..i + 1]]
    ensures ready[..i] + [ready[i]] == ready[..i + 1]
    ensures forall s: seq<Lib> :: s + ready[..i] + [ready[i]] == s + ready[..i + 1]
  {
  }

  /** The lists that the recursion updates: what is still to be loaded, what has
      been, and the steps so far. */
  class Loader {
    var pending: seq<Lib>
    var current: seq<Lib>
    var steps: seq<seq<Lib>>

    constructor (libs: seq<Lib>)
      ensures pending == libs && current == [] && steps == []
    {
      pending, current, steps := libs, [], [];
    }

    method Load(m: Lib)
      requires Distinct(pending) && m in pending && steps != []
      modifies this
      ensures steps == old(steps)[|old(steps)| - 1 := old(steps)[|old(steps)| - 1] + [m]]
      ensures current == old(current) + [m]
      ensures pending == Without(old(pending), [m])
    {
      RemoveOne(pending, m);
      hide Without, Distinct, Remove;
      steps := steps[|steps| - 1 := steps[|steps| - 1] + [m]];
      pending := Remove(pending, m);
      current := current + [m];
    }

    /** Moves the modules that can be loaded to a new step, one by one. */
    method LoadStep(ready: seq<Lib>)
      requires Distinct(pending) && Distinct(ready) && forall m :: m in ready ==> m in pending
      modifies this
      ensures steps == old(steps) + [ready]
      ensures current == old(current) + ready
      ensures pending == Without(old(pending), ready)
    {
      ghost var was, done := pending, steps;
      WithoutNone(pending, []);
      steps := steps + [[]];
      for i := 0 to |ready|
        invariant steps == done + [ready[..i]]
        invariant current == old(current) + ready[..i]
        invariant pending == Without(was, ready[..i])
      {
        hide Without, Distinct;
        StillPending(was, ready, i);
        OneModuleMore(done, ready, i);
        WithoutMore(was, ready[..i], ready[i]);
        Load(ready[i]);
      }
      assert ready[..|ready|] == ready;
    }

    /** Without progress the next call finds the same pending and loaded modules,
        so the recursion never ends. */
    method DependencyOrder(deps: Dependencies, ghost level: map<Lib, nat>) returns (done: bool, ghost final: map<Lib, nat>)
      requires Progress(deps, steps, level, pending, current)
      modifies this
      ensures done <==> Rankable(deps)
      ensures done ==> Ranks(deps, final) && Layers(deps, steps, final)
      decreases |pending|
    {
      if pending == [] {
        DoneMeansRanked(deps, steps, level, current);
        return true, level;
      }
      var ready := ModulesThatCanBeLoaded(deps, pending, current);
      if ready == [] {
        StuckMeansUnranked(deps, steps, level, pending, current);
        return false, level;
      }
      LayerLoaded(deps, steps, level, pending, current);
      assert ready[0] in pending;
      ghost var up := Raise(level, ready, |steps|);
      hide Progress, Layers, Rankable, Ranks, Raise;
      LoadStep(ready);
      done, final := DependencyOrder(deps, up);
    }
  }

  // -------------------------------------------------------- longest chains

  /** No chain to m is longer than its level allows. */
  lemma {:induction false} ChainBounded(deps: Dependencies, level: map<Lib, nat>, c: seq<Lib>, m: Lib)
    requires Ranks(deps, level) && Chain(deps, c, m)
    ensures |c| <= level[m] + 1
    decreases |c|
  {
    if |c| > 1 {
      var front := c[..|c| - 1];
      assert c[|c| - 2] in deps[c[|c| - 2 + 1]];
      ChainBounded(deps, level, front, c[|c| - 2]);
    }
  }

  /** Some chain to m is exactly that long. */
  lemma {:induction false} ChainOfLevel(deps: Dependencies, steps: seq<seq<Lib>>, level: map<Lib, nat>, m: Lib) returns (c: seq<Lib>)
    requires Layers(deps, steps, level) && m in level
    ensures Chain(deps, c, m) && |c| == level[m] + 1
    decreases level[m]
  {
    if level[m] == 0 {
      c := [m];
    } else {
      assert NeededFrom(deps, m, level, level[m] - 1);
      var d :| d in deps[m] && d in level && level[d] == level[m] - 1;
      c := ChainOfLevel(deps, steps, level, d);
      c := c + [m];
    }
  }

  ghost predicate LongestChain(deps: Dependencies, m: Lib, n: nat) {
    (exists c :: Chain(deps, c, m) && |c| == n) && forall c :: Chain(deps, c, m) ==> |c| <= n
  }

  /** All libraries in load order. */
  function Flattened(steps: seq<seq<Lib>>): seq<Lib> {
    if steps == [] then [] else Flattened(steps[..|steps| - 1]) + steps[|steps| - 1]
  }

  lemma DistinctJoin(a: seq<Lib>, b: seq<Lib>)
    requires Distinct(a) && Distinct(b) && forall m :: m in a ==> m !in b
    ensures Distinct(a + b)
  {
    forall i, j | 0 <= i < j < |a + b|
      ensures (a + b)[i] != (a + b)[j]
    {
      if i < |a| <= j { assert a[i] in a && b[j - |a|] in b; }
    }
  }

  lemma NothingTwice()
    ensures Distinct<Lib>([])
  {
  }

  lemma {:induction false} FlattenedOnce(deps: Dependencies, steps: seq<seq<Lib>>, level: map<Lib, nat>, n: nat)
    requires Layers(deps, steps, level) && n <= |steps|
    ensures Distinct(Flattened(steps[..n]))
    ensures forall m :: m in Flattened(steps[..n]) <==> m in level && level[m] < n
  {
    hide Earlier, Needed, Distinct;
    if n == 0 {
      assert Distinct<Lib>([]) by { NothingTwice(); }
    } else {
      FlattenedOnce(deps, steps, level, n - 1);
      assert steps[..n][..n - 1] == steps[..n - 1];
      assert forall m :: m in steps[n - 1] <==> m in level && level[m] == n - 1;
      DistinctJoin(Flattened(steps[..n - 1]), steps[n - 1]);
    }
  }

  /** libs lists the keys of deps. The libraries are put in an order exactly when
      the dependencies are closed and acyclic; each then stands once, in the step
      its longest dependency chain dictates, after everything it depends on. */
  method SortToDependencies(deps: Dependencies, libs: seq<Lib>) returns (r: Result, sorted: seq<Lib>)
    requires Distinct(libs) && forall m :: m in libs <==> m in deps
    ensures r.Ordered? <==> Rankable(deps)
    ensures r.Ordered? ==> Distinct(sorted) && forall m :: m in sorted <==> m in deps
    ensures r.Ordered? ==> forall k, m :: 0 <= k < |r.steps| ==> (m in r.steps[k] <==> m in deps && LongestChain(deps, m, k + 1))
    ensures r.Ordered? ==> sorted == Flattened(r.steps)
  {
    ghost var level;
    var loader := new Loader(libs);
    assert Progress(deps, [], map[], libs, []);
    var done;
    done, level := loader.DependencyOrder(deps, map[]);
    if !done { return Diverges, []; }
    r := Ordered(loader.steps);
    FlattenedOnce(deps, r.steps, level, |r.steps|);
    assert r.steps[..|r.steps|] == r.steps;
    sorted := Flattened(r.steps);
    forall k, m | 0 <= k < |r.steps|
      ensures m in r.steps[k] <==> m in deps && LongestChain(deps, m, k + 1)
    {
      if m in deps { LevelIsLongestChain(deps, r.steps, level, m, k); }
    }
  }

  lemma LevelIsLongestChain(deps: Dependencies, steps: seq<seq<Lib>>, level: map<Lib, nat>, m: Lib, k: nat)
    requires Layers(deps, steps, level) && Ranks(deps, level) && m in deps
    ensures LongestChain(deps, m, k + 1) <==> level[m] == k
  {
    var c := ChainOfLevel(deps, steps, level, m);
    forall c | Chain(deps, c, m)
      ensures |c| <= level[m] + 1
    {
      ChainBounded(deps, level, c, m);
    }
  }

  // ------------------------------------------------------ closed and acyclic

  ghost predicate Closed(deps: Dependencies) {
    forall m, d :: m in deps && d in deps[m] ==> d in deps
  }

  /** A chain of dependencies leads from a library back to itself. */
  ghost predicate Cyclic(deps: Dependencies) {
    exists c, m :: Chain(deps, c, m) && |c| > 1 && c[0] == m
  }

  lemma {:induction false} DistinctWithin(c: seq<Lib>, within: set<Lib>)
    requires Distinct(c) && forall i :: 0 <= i < |c| ==> c[i] in within
    ensures |c| <= |within|
  {
    if c != [] {
      var front, last := c[..|c| - 1], c[|c| - 1];
      DistinctWithin(front, within - {last});
    }
  }

  ghost predicate NeedsOneOf(deps: Dependencies, m: Lib, within: set<Lib>)
    requires m in deps
  {
    exists d :: d in deps[m] && d in within
  }

  ghost predicate AllNeed(deps: Dependencies, within: set<Lib>) {
    within <= deps.Keys && forall m :: m in within ==> NeedsOneOf(deps, m, within)
  }

  lemma ChainLonger(deps: Dependencies, c: seq<Lib>, m: Lib, d: Lib)
    requires Chain(deps, c, m) && d in deps && d in deps[c[0]]
    ensures Chain(deps, [d] + c, m)
  {
    var longer := [d] + c;
    forall k | 0 <= k < |longer| - 1 ensures longer[k] in deps[longer[k + 1]] {
      if k > 0 { assert c[k - 1] in deps[c[k - 1 + 1]]; }
    }
  }

  /** When every one of some libraries needs another of them, chains among them are as long as one likes. */
  lemma {:induction false} LongChain(deps: Dependencies, within: set<Lib>, k: nat) returns (c: seq<Lib>, m: Lib)
    requires within != {} && AllNeed(deps, within)
    ensures Chain(deps, c, m) && |c| == k + 1 && forall i :: 0 <= i < |c| ==> c[i] in within
  {
    if k == 0 {
      m :| m in within;
      c := [m];
    } else {
      var rest;
      rest, m := LongChain(deps, within, k - 1);
      var d := SomeNeeded(deps, rest[0], within);
      ChainLonger(deps, rest, m, d);
      hide Chain;
      c := [d] + rest;
    }
  }

  lemma SomeNeeded(deps: Dependencies, m: Lib, within: set<Lib>) returns (d: Lib)
    requires m in within && AllNeed(deps, within)
    ensures m in deps && d in deps[m] && d in within && d in deps
  {
    assert NeedsOneOf(deps, m, within);
    d :| d in deps[m] && d in within;
  }

  lemma ChainPart(deps: Dependencies, c: seq<Lib>, m: Lib, i: nat, j: nat)
    requires Chain(deps, c, m) && i <= j < |c|
    ensures Chain(deps, c[i..j + 1], c[j])
  {
    var part := c[i..j + 1];
    forall k | 0 <= k < |part| - 1 ensures part[k] in deps[part[k + 1]] { assert c[i + k] in deps[c[i + k + 1]]; }
  }

  lemma Repeated(c: seq<Lib>) returns (i: nat, j: nat)
    requires !Distinct(c)
    ensures i < j < |c| && c[i] == c[j]
  {
    i, j :| 0 <= i < j < |c| && c[i] == c[j];
  }

  /** So there is a cycle among them. */
  lemma CycleWithin(deps: Dependencies, within: set<Lib>)
    requires within != {} && AllNeed(deps, within)
    ensures Cyclic(deps)
  {
    hide AllNeed, Distinct;
    var c, m := LongChain(deps, within, |within|);
    if Distinct(c) { DistinctWithin(c, within); }
    var i, j := Repeated(c);
    ChainPart(deps, c, m, i, j);
    hide Chain;
    assert c[i..j + 1][0] == c[j];
  }

  ghost predicate Lower(done: map<Lib, nat>, d: Lib, m: Lib) {
    d in done && m in done && done[d] < done[m]
  }

  /** Ranks for some libraries, whose dependencies are among them. */
  ghost predicate PartlyRanked(deps: Dependencies, done: map<Lib, nat>) {
    && done.Keys <= deps.Keys
    && (forall m :: m in done ==> done[m] < |done|)
    && (forall m, d :: m in done && d in deps[m] ==> Lower(done, d, m))
  }

  /** One of the rest has all its dependencies ranked. */
  lemma NextRanked(deps: Dependencies, rest: set<Lib>) returns (m: Lib)
    requires !Cyclic(deps) && rest != {} && rest <= deps.Keys
    ensures m in rest && !NeedsOneOf(deps, m, rest)
  {
    hide Cyclic, NeedsOneOf;
    if AllNeed(deps, rest) { CycleWithin(deps, rest); }
    m :| m in rest && !NeedsOneOf(deps, m, rest);
  }

  lemma DependenciesRanked(deps: Dependencies, done: map<Lib, nat>, m: Lib, d: Lib)
    requires Closed(deps) && m in deps && !NeedsOneOf(deps, m, deps.Keys - done.Keys) && d in deps[m]
    ensures d in done
  {
    assert d in deps;
  }

  lemma RankOne(deps: Dependencies, done: map<Lib, nat>, m: Lib)
    requires Closed(deps) && PartlyRanked(deps, done) && m in deps && m !in done && !NeedsOneOf(deps, m, deps.Keys - done.Keys)
    ensures PartlyRanked(deps, done[m := |done|])
  {
    hide Closed, NeedsOneOf, Lower;
    var more := done[m := |done|];
    GrowsByOne(done, m, |done|);
    forall x, d | x in more && d in deps[x] ensures Lower(more, d, x) {
      if x == m { DependenciesRanked(deps, done, m, d); } else { assert Lower(done, d, x); }
      LowerKept(done, m, d, x);
    }
  }

  lemma GrowsByOne(done: map<Lib, nat>, m: Lib, rank: nat)
    requires m !in done
    ensures done[m := rank].Keys == done.Keys + {m} && |done[m := rank]| == |done| + 1
  {
    var more := done[m := rank];
    assert more.Keys == done.Keys + {m} && |more.Keys| == |more| && |done.Keys| == |done|;
  }

  lemma LowerKept(done: map<Lib, nat>, m: Lib, d: Lib, x: Lib)
    requires m !in done && (forall y :: y in done ==> done[y] < |done|)
    requires Lower(done, d, x) || (x == m && d in done)
    ensures Lower(done[m := |done|], d, x)
  {
  }

  lemma AllRanked(deps: Dependencies, done: map<Lib, nat>)
    requires PartlyRanked(deps, done) && deps.Keys - done.Keys == {}
    ensures Ranks(deps, done)
  {
    forall m | m in deps ensures m in done { assert m !in deps.Keys - done.Keys; }
    assert done.Keys == deps.Keys;
  }

  lemma {:induction false} RankRest(deps: Dependencies, done: map<Lib, nat>) returns (rank: map<Lib, nat>)
    requires Closed(deps) && !Cyclic(deps) && PartlyRanked(deps, done)
    ensures Ranks(deps, rank)
    decreases |deps.Keys - done.Keys|
  {
    hide PartlyRanked, Closed, Cyclic, NeedsOneOf, Ranks;
    var rest := deps.Keys - done.Keys;
    if rest == {} {
      AllRanked(deps, done);
      rank := done;
    } else {
      var m := NextRanked(deps, rest);
      RankOne(deps, done, m);
      assert deps.Keys - done[m := |done|].Keys == rest - {m};
      rank := RankRest(deps, done[m := |done|]);
    }
  }

  lemma {:induction false} ChainRises(deps: Dependencies, rank: map<Lib, nat>, c: seq<Lib>, m: Lib)
    requires Ranks(deps, rank) && Chain(deps, c, m) && |c| > 1
    ensures rank[c[0]] < rank[m]
    decreases |c|
  {
    assert c[|c| - 2] in deps[c[|c| - 2 + 1]];
    if |c| > 2 {
      ChainPart(deps, c, m, 0, |c| - 2);
      ChainRises(deps, rank, c[0..|c| - 1], c[|c| - 2]);
    }
  }

  /** The load order exists exactly when every dependency is itself a key and none leads back. */
  lemma RankableWhenAcyclic(deps: Dependencies)
    ensures Rankable(deps) <==> Closed(deps) && !Cyclic(deps)
  {
    if Closed(deps) && !Cyclic(deps) { var rank := RankRest(deps, map[]); }
    forall rank | Ranks(deps, rank)
      ensures Closed(deps) && !Cyclic(deps)
    {
      forall c, m | Chain(deps, c, m) && |c| > 1 ensures c[0] != m { ChainRises(deps, rank, c, m); }
    }
  }

  /** Two ways to diverge: a dependency that is not a key, and a cycle. */
  lemma DivergingMaps(a: Lib, b: Lib)
    requires a != b
    ensures !Rankable(map[a := [b]]) && !Rankable(map[a := [b], b := [a]])
  {
    var open, round := map[a := [b]], map[a := [b], b := [a]];
    assert a in open && b in open[a] && b !in open;
    assert !Closed(open);
    var c := [a, b, a];
    assert c[0] in round[c[0 + 1]] && c[1] in round[c[1 + 1]];
    assert Chain(round, c, a);
    RankableWhenAcyclic(open);
    RankableWhenAcyclic(round);
  }
}
