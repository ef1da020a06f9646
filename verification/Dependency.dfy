/** The algebra of shortest-path counts that Brandes' accumulation rests on,
    for any counts that obey the laws below. */
module Dependency {
  import opened Sums

  /** Counts of shortest walks from one source s. */
  datatype Counts = Counts(
    n: nat,
    s: nat,
    dist: seq<int>,                   // hops from s, -1 out of reach
    pred: (int, int) -> bool,         // pred(u, w): u comes just before w on a shortest walk
    sigma: int -> real,               // shortest walks to t
    through: (int, int) -> real)      // through(t, v): those of them that pass through v

  ghost predicate Reached(g: Counts, t: int) {
    0 <= t < g.n == |g.dist| && g.dist[t] >= 0
  }

  ghost function OverPreds(g: Counts, t: int, f: int -> real): int -> real {
    u => if g.pred(u, t) then f(u) else 0.0
  }

  ghost function ThroughOf(g: Counts, v: int): int -> real {
    t => g.through(t, v)
  }

  ghost predicate LawfulPreds(g: Counts) {
    forall u, w :: g.pred(u, w) ==> Reached(g, u) && Reached(g, w) && g.dist[w] == g.dist[u] + 1
  }

  /** What holds of the counts at each vertex. */
  ghost predicate LawfulCounts(g: Counts) {
    && (forall t :: Reached(g, t) ==> g.sigma(t) >= 1.0)
    && (forall t :: !Reached(g, t) ==> g.sigma(t) == 0.0)
    && (forall t, v :: 0.0 <= g.through(t, v) <= g.sigma(t))
    && (forall t, v :: t != v && g.through(t, v) != 0.0 ==> Reached(g, v) && Reached(g, t) && g.dist[v] < g.dist[t])
    && (forall t :: g.through(t, t) == g.sigma(t) == g.through(t, g.s))
  }

  ghost predicate LawfulAt(g: Counts) {
    && g.s < g.n == |g.dist| && g.dist[g.s] == 0 && g.sigma(g.s) == 1.0
    && LawfulPreds(g) && LawfulCounts(g)
  }

  /** Off the source, counts are sums over the predecessors. */
  ghost predicate LawfulSums(g: Counts) {
    && (forall t :: Reached(g, t) && t != g.s ==> g.dist[t] > 0)
    && (forall t :: Reached(g, t) && t != g.s ==> g.sigma(t) == Sum(g.n, OverPreds(g, t, g.sigma)))
    && (forall t, v :: Reached(g, t) && t != g.s && t != v && 0 <= v < g.n ==>
          g.through(t, v) == Sum(g.n, OverPreds(g, t, ThroughOf(g, v))))
  }

  ghost predicate Lawful(g: Counts) {
    LawfulAt(g) && LawfulSums(g)
  }

  function Ratio(a: real, b: real): real {
    if b == 0.0 then 0.0 else a / b
  }

  lemma RatioTimes(a: real, b: real)
    requires b != 0.0
    ensures Ratio(a, b) * b == a
  {
  }

  lemma RatioPart(a: real, b: real)
    requires b != 0.0
    ensures Ratio(a, b) == 1.0 / b * a
  {
  }

  lemma RatioUnit(a: real, b: real)
    requires 0.0 <= a <= b
    ensures 0.0 <= Ratio(a, b) <= 1.0
    ensures b > 0.0 && a == b ==> Ratio(a, b) == 1.0
  {
  }

  ghost function Fraction(g: Counts, v: int): int -> real {
    t => if t == v then 0.0 else Ratio(g.through(t, v), g.sigma(t))
  }

  /** The sum over targets t other than v of the fraction of shortest walks from s to t through v. */
  ghost function Dep(g: Counts, v: int): real {
    Sum(g.n, Fraction(g, v))
  }

  /** The part of the shortest walks to w that arrive over v. */
  ghost function Share(g: Counts, v: int, w: int): real {
    if g.pred(v, w) then Ratio(g.sigma(v), g.sigma(w)) else 0.0
  }

  // ------------------------------------------------- leaving v over one edge

  ghost function Onward(g: Counts, t: int, v: int): int -> real {
    w => Share(g, v, w) * g.through(t, w)
  }

  /** Onward terms of the predecessors u of t. */
  ghost function OnwardFrom(g: Counts, t: int, v: int): (int, int) -> real {
    (u, w) => if g.pred(u, t) then Share(g, v, w) * g.through(u, w) else 0.0
  }

  ghost predicate LeavesOverOneEdge(g: Counts, t: int, v: int) {
    g.through(t, v) == Sum(g.n, Onward(g, t, v)) + if t == v then g.sigma(v) else 0.0
  }

  lemma NoOnward(g: Counts, t: int, v: int)
    requires forall w :: 0 <= w < g.n && g.pred(v, w) ==> g.through(t, w) == 0.0
    ensures Sum(g.n, Onward(g, t, v)) == 0.0
  {
    forall w | 0 <= w < g.n
      ensures Onward(g, t, v)(w) == 0.0
    {
      if !g.pred(v, w) { assert Share(g, v, w) == 0.0; }
    }
    SumSingle(g.n, -1, Onward(g, t, v));
  }

  lemma OnwardColumn(g: Counts, t: int, v: int, w: int)
    requires g.through(t, w) == Sum(g.n, OverPreds(g, t, ThroughOf(g, w)))
    ensures Sum(g.n, Column(OnwardFrom(g, t, v), w)) == Onward(g, t, v)(w)
  {
    SumScaled(g.n, Share(g, v, w), OverPreds(g, t, ThroughOf(g, w)), Column(OnwardFrom(g, t, v), w));
  }

  lemma OnwardColumnAtEnd(g: Counts, t: int, v: int)
    requires forall u :: 0 <= u < g.n && g.pred(u, t) ==> g.through(u, t) == 0.0
    ensures Sum(g.n, Column(OnwardFrom(g, t, v), t)) == 0.0
  {
    SumSingle(g.n, -1, Column(OnwardFrom(g, t, v), t));
  }

  /** Summed over the predecessors of t, the onward terms are those of t itself less the last hop into t. */
  lemma OnwardTotal(g: Counts, t: int, v: int, rows: int -> real)
    requires 0 <= t < g.n
    requires forall u :: 0 <= u < g.n && g.pred(u, t) ==> g.through(u, t) == 0.0
    requires forall w :: 0 <= w < g.n && w != t ==> g.through(t, w) == Sum(g.n, OverPreds(g, t, ThroughOf(g, w)))
    requires forall u :: 0 <= u < g.n ==> rows(u) == Sum(g.n, Row(OnwardFrom(g, t, v), u))
    ensures Sum(g.n, rows) == Sum(g.n, Onward(g, t, v)) - Onward(g, t, v)(t)
  {
    var onward := Onward(g, t, v);
    var columns := w => Sum(g.n, Column(OnwardFrom(g, t, v), w));
    SumSwap(g.n, g.n, OnwardFrom(g, t, v), rows, columns);
    var last := w => if w == t then -onward(t) else 0.0;
    forall w | 0 <= w < g.n
      ensures columns(w) == onward(w) + last(w)
    {
      if w == t { OnwardColumnAtEnd(g, t, v); } else { OnwardColumn(g, t, v, w); }
    }
    SumPlus(g.n, onward, last, columns);
    SumSingle(g.n, t, last);
  }

  /** Split over the last hop, the walks through v are onward terms of the predecessors, or end at v. */
  lemma SplitOverPreds(g: Counts, t: int, v: int, rows: int -> real)
    requires 0 <= v < g.n
    requires forall u :: 0 <= u < g.n && g.pred(u, t) ==> LeavesOverOneEdge(g, u, v)
    requires forall u :: 0 <= u < g.n ==> rows(u) == Sum(g.n, Row(OnwardFrom(g, t, v), u))
    ensures Sum(g.n, OverPreds(g, t, ThroughOf(g, v))) == Sum(g.n, rows) + if g.pred(v, t) then g.sigma(v) else 0.0
  {
    var here := u => if u == v && g.pred(u, t) then g.sigma(v) else 0.0;
    forall u | 0 <= u < g.n
      ensures OverPreds(g, t, ThroughOf(g, v))(u) == rows(u) + here(u)
    {
      if g.pred(u, t) {
        SumEqual(g.n, Row(OnwardFrom(g, t, v), u), Onward(g, u, v));
      } else {
        SumSingle(g.n, -1, Row(OnwardFrom(g, t, v), u));
      }
    }
    SumPlus(g.n, rows, here, OverPreds(g, t, ThroughOf(g, v)));
    SumSingle(g.n, v, here);
  }

  lemma LastHop(g: Counts, t: int, v: int)
    requires g.through(t, t) == g.sigma(t) != 0.0
    ensures Onward(g, t, v)(t) == if g.pred(v, t) then g.sigma(v) else 0.0
  {
    RatioTimes(g.sigma(v), g.sigma(t));
  }

  lemma ThroughStep(g: Counts, t: int, v: int)
    requires Lawful(g) && Reached(g, t) && t != g.s && t != v && 0 <= v < g.n
    requires forall u :: 0 <= u < g.n && g.pred(u, t) ==> LeavesOverOneEdge(g, u, v)
    ensures LeavesOverOneEdge(g, t, v)
  {
    var rows := u => Sum(g.n, Row(OnwardFrom(g, t, v), u));
    SplitOverPreds(g, t, v, rows);
    OnwardTotal(g, t, v, rows);
    LastHop(g, t, v);
    assert g.through(t, v) == Sum(g.n, OverPreds(g, t, ThroughOf(g, v)));
  }

  /** A shortest walk through v either ends there or leaves it over exactly one edge. */
  lemma {:induction false} LeavesOver(g: Counts, t: int, v: int)
    requires Lawful(g) && Reached(g, t) && 0 <= v < g.n
    ensures LeavesOverOneEdge(g, t, v)
    decreases g.dist[t]
  {
    if t == v || t == g.s {
      NoOnward(g, t, v);
    } else {
      forall u | 0 <= u < g.n && g.pred(u, t)
        ensures LeavesOverOneEdge(g, u, v)
      {
        LeavesOver(g, u, v);
      }
      ThroughStep(g, t, v);
    }
  }

  // ------------------------------------------------ the recursion of Brandes

  ghost function Inherited(g: Counts, v: int): int -> real {
    w => Share(g, v, w) * (1.0 + Dep(g, w))
  }

  ghost function InheritedTable(g: Counts, v: int): (int, int) -> real {
    (w, t) => Share(g, v, w) * Ratio(g.through(t, w), g.sigma(t))
  }

  lemma InheritedRow(g: Counts, v: int, w: int)
    requires 0 <= w < g.n && (g.pred(v, w) ==> g.through(w, w) == g.sigma(w) >= 1.0)
    ensures Inherited(g, v)(w) == Sum(g.n, Row(InheritedTable(g, v), w))
  {
    var all := t => Ratio(g.through(t, w), g.sigma(t));
    SumScaled(g.n, Share(g, v, w), all, Row(InheritedTable(g, v), w));
    if g.pred(v, w) {
      var self := (t: int) => if t == w then 1.0 else 0.0;
      SumPlus(g.n, Fraction(g, w), self, all);
      SumSingle(g.n, w, self);
    }
  }

  lemma InheritedColumn(g: Counts, v: int, t: int)
    requires g.sigma(t) >= 1.0 ==> LeavesOverOneEdge(g, t, v)
    requires g.sigma(t) >= 1.0 || g.sigma(t) == g.through(t, v) == 0.0
    requires t == v ==> Sum(g.n, Onward(g, t, v)) == 0.0
    ensures Fraction(g, v)(t) == Sum(g.n, Column(InheritedTable(g, v), t))
  {
    hide Sum, Onward, Share, InheritedTable, Column, LeavesOverOneEdge;
    var column := Column(InheritedTable(g, v), t);
    if g.sigma(t) >= 1.0 {
      forall w | 0 <= w < g.n
        ensures column(w) == 1.0 / g.sigma(t) * Onward(g, t, v)(w)
      {
        InheritedTerm(g, v, t, w);
      }
      SumScaled(g.n, 1.0 / g.sigma(t), Onward(g, t, v), column);
      FractionFromOnward(g, v, t);
    } else {
      forall w ensures column(w) == 0.0 { NothingInherited(g, v, t, w); }
      SumSingle(g.n, -1, column);
    }
  }

  lemma NothingInherited(g: Counts, v: int, t: int, w: int)
    requires g.sigma(t) == 0.0
    ensures Column(InheritedTable(g, v), t)(w) == 0.0
  {
    assert Ratio(g.through(t, w), g.sigma(t)) == 0.0;
  }

  lemma InheritedTerm(g: Counts, v: int, t: int, w: int)
    requires g.sigma(t) >= 1.0
    ensures Column(InheritedTable(g, v), t)(w) == 1.0 / g.sigma(t) * Onward(g, t, v)(w)
  {
    RatioPart(g.through(t, w), g.sigma(t));
  }

  lemma FractionFromOnward(g: Counts, v: int, t: int)
    requires g.sigma(t) >= 1.0 && LeavesOverOneEdge(g, t, v)
    requires t == v ==> Sum(g.n, Onward(g, t, v)) == 0.0
    ensures Fraction(g, v)(t) == 1.0 / g.sigma(t) * Sum(g.n, Onward(g, t, v))
  {
    hide Sum, Onward;
    RatioPart(g.through(t, v), g.sigma(t));
  }

  /** The dependency on v is inherited from the vertices that v precedes. */
  lemma DepRecursion(g: Counts, v: int)
    requires Lawful(g) && 0 <= v < g.n
    ensures Dep(g, v) == Sum(g.n, Inherited(g, v))
  {
    forall w | 0 <= w < g.n
      ensures Inherited(g, v)(w) == Sum(g.n, Row(InheritedTable(g, v), w))
    {
      InheritedRow(g, v, w);
    }
    forall t | 0 <= t < g.n
      ensures Fraction(g, v)(t) == Sum(g.n, Column(InheritedTable(g, v), t))
    {
      if Reached(g, t) { LeavesOver(g, t, v); }
      if t == v { NoOnward(g, t, v); }
      InheritedColumn(g, v, t);
    }
    SumSwap(g.n, g.n, InheritedTable(g, v), Inherited(g, v), Fraction(g, v));
  }

  // ---------------------------------------------------------------- totals

  /** The dependency on the source counts the other vertices it reaches. */
  lemma DepAtSource(g: Counts, others: int -> real)
    requires Lawful(g)
    requires forall t :: 0 <= t < g.n ==> others(t) == if t != g.s && Reached(g, t) then 1.0 else 0.0
    ensures Dep(g, g.s) == Sum(g.n, others)
  {
    forall t | 0 <= t < g.n
      ensures Fraction(g, g.s)(t) == others(t)
    {
      RatioUnit(g.through(t, g.s), g.sigma(t));
    }
    SumEqual(g.n, Fraction(g, g.s), others);
  }

  ghost function Crossing(g: Counts, t: int): int -> real {
    v => g.through(t, v)
  }

  /** Each shortest walk to t crosses h vertices. */
  ghost predicate CrossesTimes(g: Counts, t: int, h: real) {
    Sum(g.n, Crossing(g, t)) == h * g.sigma(t)
  }

  ghost function CrossingTable(g: Counts, t: int): (int, int) -> real {
    (u, v) => if g.pred(u, t) then g.through(u, v) else 0.0
  }

  lemma CrossingRow(g: Counts, t: int, u: int, hops: real)
    requires g.pred(u, t) ==> CrossesTimes(g, u, hops)
    ensures Sum(g.n, Row(CrossingTable(g, t), u)) == hops * OverPreds(g, t, g.sigma)(u)
  {
    if g.pred(u, t) {
      SumEqual(g.n, Row(CrossingTable(g, t), u), Crossing(g, u));
    } else {
      SumSingle(g.n, -1, Row(CrossingTable(g, t), u));
    }
  }

  lemma CrossingColumn(g: Counts, t: int, v: int)
    requires forall u :: 0 <= u < g.n && g.pred(u, t) ==> g.through(u, t) == 0.0
    requires v != t ==> g.through(t, v) == Sum(g.n, OverPreds(g, t, ThroughOf(g, v)))
    ensures Sum(g.n, Column(CrossingTable(g, t), v)) == if v == t then 0.0 else g.through(t, v)
  {
    if v == t {
      SumSingle(g.n, -1, Column(CrossingTable(g, t), v));
    } else {
      SumEqual(g.n, Column(CrossingTable(g, t), v), OverPreds(g, t, ThroughOf(g, v)));
    }
  }

  lemma CrossingStep(g: Counts, t: int, hops: real)
    requires 0 <= t < g.n && g.through(t, t) == g.sigma(t) == Sum(g.n, OverPreds(g, t, g.sigma))
    requires forall u :: 0 <= u < g.n && g.pred(u, t) ==> CrossesTimes(g, u, hops)
    requires forall u :: 0 <= u < g.n && g.pred(u, t) ==> g.through(u, t) == 0.0
    requires forall v :: 0 <= v < g.n && v != t ==> g.through(t, v) == Sum(g.n, OverPreds(g, t, ThroughOf(g, v)))
    ensures CrossesTimes(g, t, hops + 1.0)
  {
    var rows := u => Sum(g.n, Row(CrossingTable(g, t), u));
    var columns := v => Sum(g.n, Column(CrossingTable(g, t), v));
    SumSwap(g.n, g.n, CrossingTable(g, t), rows, columns);
    CrossingRows(g, t, hops, rows);
    CrossingColumns(g, t, columns);
    OnceMore(hops, g.sigma(t));
    hide Sum, CrossingTable, Crossing;
  }

  lemma OnceMore(hops: real, x: real)
    ensures hops * x + x == (hops + 1.0) * x
  {
  }

  lemma CrossingRows(g: Counts, t: int, hops: real, rows: int -> real)
    requires forall u :: 0 <= u < g.n && g.pred(u, t) ==> CrossesTimes(g, u, hops)
    requires forall u :: 0 <= u < g.n ==> rows(u) == Sum(g.n, Row(CrossingTable(g, t), u))
    ensures Sum(g.n, rows) == hops * Sum(g.n, OverPreds(g, t, g.sigma))
  {
    forall u | 0 <= u < g.n
      ensures rows(u) == hops * OverPreds(g, t, g.sigma)(u)
    {
      CrossingRow(g, t, u, hops);
    }
    SumScaled(g.n, hops, OverPreds(g, t, g.sigma), rows);
  }

  lemma CrossingColumns(g: Counts, t: int, columns: int -> real)
    requires 0 <= t < g.n && g.through(t, t) == g.sigma(t)
    requires forall u :: 0 <= u < g.n && g.pred(u, t) ==> g.through(u, t) == 0.0
    requires forall v :: 0 <= v < g.n && v != t ==> g.through(t, v) == Sum(g.n, OverPreds(g, t, ThroughOf(g, v)))
    requires forall v :: 0 <= v < g.n ==> columns(v) == Sum(g.n, Column(CrossingTable(g, t), v))
    ensures Sum(g.n, Crossing(g, t)) == Sum(g.n, columns) + g.sigma(t)
  {
    var self := (v: int) => if v == t then g.sigma(t) else 0.0;
    forall v | 0 <= v < g.n
      ensures Crossing(g, t)(v) == columns(v) + self(v)
    {
      CrossingColumn(g, t, v);
    }
    SumPlus(g.n, columns, self, Crossing(g, t));
    SumSingle(g.n, t, self);
  }

  lemma CrossingAtSource(g: Counts)
    requires Lawful(g)
    ensures Sum(g.n, Crossing(g, g.s)) == 1.0
  {
    SumSingle(g.n, g.s, Crossing(g, g.s));
  }

  /** A shortest walk of d - 1 hops crosses d vertices. */
  lemma {:induction false} Crossings(g: Counts, t: int, d: int)
    requires Lawful(g) && Reached(g, t) && d == g.dist[t] + 1
    ensures CrossesTimes(g, t, d as real)
    decreases d
  {
    if t == g.s {
      CrossingAtSource(g);
    } else {
      var hops := (d - 1) as real;
      forall u | 0 <= u < g.n && g.pred(u, t)
        ensures CrossesTimes(g, u, hops)
      {
        Crossings(g, u, d - 1);
      }
      assert g.sigma(t) == Sum(g.n, OverPreds(g, t, g.sigma));
      CrossingStep(g, t, hops);
      assert hops + 1.0 == d as real;
    }
  }

  /** Dependencies on the vertices other than the source. */
  ghost function InnerDep(g: Counts): int -> real {
    v => if v == g.s then 0.0 else Dep(g, v)
  }

  ghost function InnerTable(g: Counts): (int, int) -> real {
    (v, t) => if v == g.s then 0.0 else Fraction(g, v)(t)
  }

  /** The vertices strictly between s and t on a shortest walk. */
  ghost function Between(g: Counts): int -> real {
    t => if Reached(g, t) && t != g.s then g.dist[t] as real - 1.0 else 0.0
  }

  /** The fractions through every vertex, the ends included. */
  ghost function AllThrough(g: Counts, t: int): int -> real {
    v => Ratio(g.through(t, v), g.sigma(t))
  }

  /** One less at each of two places. */
  ghost function LessAt(a: int, b: int): int -> real {
    v => (if v == a then -1.0 else 0.0) + if v == b then -1.0 else 0.0
  }

  lemma LessAtTotal(n: nat, a: int, b: int)
    requires 0 <= a < n && 0 <= b < n && a != b
    ensures Sum(n, LessAt(a, b)) == -2.0
  {
    var atA, atB := (v: int) => if v == a then -1.0 else 0.0, (v: int) => if v == b then -1.0 else 0.0;
    SumSingle(n, a, atA);
    SumSingle(n, b, atB);
    SumPlus(n, atA, atB, LessAt(a, b));
  }

  lemma AllThroughTotal(g: Counts, t: int, d: real)
    requires CrossesTimes(g, t, d) && g.sigma(t) >= 1.0
    ensures Sum(g.n, AllThrough(g, t)) == d
  {
    forall v
      ensures AllThrough(g, t)(v) == 1.0 / g.sigma(t) * Crossing(g, t)(v)
    {
      RatioPart(g.through(t, v), g.sigma(t));
    }
    SumScaled(g.n, 1.0 / g.sigma(t), Crossing(g, t), AllThrough(g, t));
    InverseTimes(d, g.sigma(t));
  }

  lemma InnerTerm(g: Counts, t: int, v: int)
    requires 0 <= t < g.n && g.s < g.n && t != g.s
    requires g.through(t, t) == g.through(t, g.s) == g.sigma(t) >= 1.0
    ensures Column(InnerTable(g), t)(v) == AllThrough(g, t)(v) + LessAt(t, g.s)(v)
  {
    RatioUnit(g.sigma(t), g.sigma(t));
    assert Column(InnerTable(g), t)(v) == if v == g.s then 0.0 else Fraction(g, v)(t);
  }

  lemma InnerColumnReached(g: Counts, t: int, d: real)
    requires 0 <= t < g.n && g.s < g.n && t != g.s
    requires CrossesTimes(g, t, d)
    requires g.through(t, t) == g.through(t, g.s) == g.sigma(t) >= 1.0
    ensures Sum(g.n, Column(InnerTable(g), t)) == d - 2.0
  {
    hide Sum, Column, InnerTable, AllThrough, LessAt, CrossesTimes;
    forall v
      ensures Column(InnerTable(g), t)(v) == AllThrough(g, t)(v) + LessAt(t, g.s)(v)
    {
      InnerTerm(g, t, v);
    }
    AllThroughTotal(g, t, d);
    LessAtTotal(g.n, t, g.s);
    SumPlus(g.n, AllThrough(g, t), LessAt(t, g.s), Column(InnerTable(g), t));
  }

  lemma InnerColumn(g: Counts, t: int)
    requires Lawful(g) && 0 <= t < g.n
    ensures Sum(g.n, Column(InnerTable(g), t)) == Between(g)(t)
  {
    if Reached(g, t) && t != g.s {
      Crossings(g, t, g.dist[t] + 1);
      InnerColumnReached(g, t, (g.dist[t] + 1) as real);
    } else {
      InnerColumnEmpty(g, t);
    }
  }

  lemma InnerColumnEmpty(g: Counts, t: int)
    requires forall v :: v != g.s && v != t ==> g.through(t, v) == 0.0
    ensures Sum(g.n, Column(InnerTable(g), t)) == 0.0
  {
    forall v | 0 <= v < g.n
      ensures Column(InnerTable(g), t)(v) == 0.0
    {
      assert v != g.s ==> Fraction(g, v)(t) == 0.0;
    }
    SumSingle(g.n, -1, Column(InnerTable(g), t));
  }

  lemma InverseTimes(a: real, b: real)
    requires b != 0.0
    ensures 1.0 / b * (a * b) == a
  {
  }

  /** Dependencies on inner vertices add up to the inner vertices of the shortest walks. */
  lemma InnerTotal(g: Counts)
    requires Lawful(g)
    ensures Sum(g.n, InnerDep(g)) == Sum(g.n, Between(g))
  {
    forall v | 0 <= v < g.n
      ensures InnerDep(g)(v) == Sum(g.n, Row(InnerTable(g), v))
    {
      if v == g.s {
        SumSingle(g.n, -1, Row(InnerTable(g), v));
      } else {
        SumEqual(g.n, Row(InnerTable(g), v), Fraction(g, v));
      }
    }
    forall t | 0 <= t < g.n
      ensures Between(g)(t) == Sum(g.n, Column(InnerTable(g), t))
    {
      InnerColumn(g, t);
    }
    SumSwap(g.n, g.n, InnerTable(g), InnerDep(g), Between(g));
  }

  /** At most n - 2 targets depend on an inner vertex. */
  lemma DepBounded(g: Counts, v: int)
    requires Lawful(g) && 0 <= v < g.n && v != g.s
    ensures 0.0 <= Dep(g, v) <= g.n as real - 2.0
  {
    var ones, atV, atS := (t: int) => 1.0, (t: int) => if t == v then -1.0 else 0.0, (t: int) => if t == g.s then -1.0 else 0.0;
    var butV := (t: int) => ones(t) + atV(t);
    var most := t => butV(t) + atS(t);
    SumOnes(g.n, ones);
    SumSingle(g.n, v, atV);
    SumSingle(g.n, g.s, atS);
    SumPlus(g.n, ones, atV, butV);
    SumPlus(g.n, butV, atS, most);
    forall t | 0 <= t < g.n
      ensures 0.0 <= Fraction(g, v)(t) <= most(t)
    {
      FractionBounded(g, t, v);
    }
    SumAtMost(g.n, Fraction(g, v), most);
    var none := (t: int) => 0.0;
    SumSingle(g.n, -1, none);
    SumAtMost(g.n, none, Fraction(g, v));
  }

  lemma FractionBounded(g: Counts, t: int, v: int)
    requires Lawful(g) && v != g.s
    ensures 0.0 <= Fraction(g, v)(t) <= if t == v || t == g.s then 0.0 else 1.0
  {
    RatioUnit(g.through(t, v), g.sigma(t));
  }
}
