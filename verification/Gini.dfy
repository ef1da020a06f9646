/** The sorted-rank Gini coefficient against its pairwise definition. */
module Gini {
  import opened Sorting

  function Same(): real -> real {
    x => x
  }

  /** |x - y| as a function of y. */
  function From(x: real): real -> real {
    y => if x < y then y - x else x - y
  }

  /** The sum of |x - y| over the members y of v. */
  ghost function Spread(v: seq<real>, x: real): real {
    Total(v, From(x))
  }

  /** The sum of |x - y| over all ordered pairs of members of v. */
  ghost function PairwiseSpread(v: seq<real>): real {
    Total(v, x => Spread(v, x))
  }

  /** The mean difference over twice the mean, from the total spread of n values. */
  function ByPairs(spread: real, n: real, total: real): real
    requires n != 0.0 && total != 0.0
  {
    spread / (2.0 * n * total)
  }

  /** The rank formula the code evaluates. */
  function ByRanks(cum: real, n: real, total: real): real
    requires n != 0.0 && total != 0.0
  {
    2.0 * cum / (n * total) - (n + 1.0) / n
  }

  /** g lies in [0, (n-1)/n]. */
  predicate InRange(g: real, n: real)
    requires n != 0.0
  {
    0.0 <= g <= (n - 1.0) / n
  }

  /** Half the relative mean absolute difference; 0 when there is nothing to share. */
  ghost function GiniIndex(v: seq<real>): real {
    var total := Total(v, Same());
    if |v| == 0 || total == 0.0 then 0.0
    else ByPairs(PairwiseSpread(v), |v| as real, total)
  }

  /** 1*v[0] + 2*v[1] + ... over the first n members. */
  ghost function RankSum(v: seq<real>, n: nat): real
    requires n <= |v|
  {
    if n == 0 then 0.0 else RankSum(v, n - 1) + n as real * v[n - 1]
  }

  // ------------------------------------------------------- order is no matter

  lemma {:induction false} TotalEqual(v: seq<real>, f: real -> real, g: real -> real)
    requires forall i :: 0 <= i < |v| ==> f(v[i]) == g(v[i])
    ensures Total(v, f) == Total(v, g)
  {
    if v != [] {
      TotalEqual(v[..|v| - 1], f, g);
    }
  }

  lemma PairwiseSpreadPermuted(v: seq<real>, r: seq<real>)
    requires multiset(v) == multiset(r)
    ensures PairwiseSpread(v) == PairwiseSpread(r)
  {
    var f, g := (x: real) => Spread(v, x), (x: real) => Spread(r, x);
    forall x
      ensures f(x) == g(x)
    {
      TotalPermuted(v, r, From(x));
    }
    TotalPermuted(v, r, f);
    TotalEqual(r, f, g);
  }

  // ------------------------------------------------- sorted ranks and pairs

  lemma {:induction false} SpreadAbove(v: seq<real>, x: real)
    requires forall i :: 0 <= i < |v| ==> v[i] <= x
    ensures Spread(v, x) == |v| as real * x - Total(v, Same())
  {
    if v != [] {
      SpreadAbove(v[..|v| - 1], x);
      assert |v| as real * x == (|v| - 1) as real * x + x;
      assert From(x)(v[|v| - 1]) == x - v[|v| - 1];
    }
  }

  lemma {:induction false} TotalPlus(v: seq<real>, f: real -> real, g: real -> real, h: real -> real)
    requires forall i :: 0 <= i < |v| ==> h(v[i]) == f(v[i]) + g(v[i])
    ensures Total(v, h) == Total(v, f) + Total(v, g)
  {
    if v != [] {
      TotalPlus(v[..|v| - 1], f, g, h);
    }
  }

  /** Adding a greatest member x adds its distance to every other one, twice. */
  lemma {:induction false} PairwiseSpreadGrows(v: seq<real>, x: real)
    requires forall i :: 0 <= i < |v| ==> v[i] <= x
    ensures PairwiseSpread(v + [x]) == PairwiseSpread(v) + 2.0 * (|v| as real * x - Total(v, Same()))
  {
    var w := v + [x];
    assert w[..|v|] == v;
    var before, after := (y: real) => Spread(v, y), (y: real) => Spread(w, y);
    forall y
      ensures after(y) == before(y) + From(x)(y)
    {
      assert Total(w, From(y)) == Total(v, From(y)) + From(y)(x);
      assert From(y)(x) == From(x)(y);
    }
    TotalPlus(v, before, From(x), after);
    SpreadAbove(v, x);
    assert Total(w, after) == Total(v, after) + after(x);
  }

  lemma TotalAppend(v: seq<real>, x: real)
    ensures Total(v + [x], Same()) == Total(v, Same()) + x
  {
    assert (v + [x])[..|v|] == v;
  }

  ghost predicate RankLaw(spread: real, ranks: real, n: real, total: real) {
    spread == 4.0 * ranks - 2.0 * (n + 1.0) * total
  }

  /** On an ascending sequence the ranks carry the pairwise differences. */
  lemma {:induction false} RanksArePairs(v: seq<real>, n: nat)
    requires n <= |v| && Ascending(v, Same())
    ensures RankLaw(PairwiseSpread(v[..n]), RankSum(v, n), n as real, Total(v[..n], Same()))
  {
    if n == 0 {
      assert PairwiseSpread(v[..0]) == 0.0;
    } else {
      hide PairwiseSpread, Total, RankLaw;
      RanksArePairs(v, n - 1);
      assert v[..n] == v[..n - 1] + [v[n - 1]];
      FrontBelow(v, n, v[..n - 1]);
      hide Ascending, Same;
      RanksGrow(v[..n - 1], v[n - 1], n, RankSum(v, n - 1));
    }
  }

  lemma RanksGrow(front: seq<real>, x: real, n: nat, ranks: real)
    requires |front| + 1 == n && forall i :: 0 <= i < |front| ==> front[i] <= x
    requires RankLaw(PairwiseSpread(front), ranks, (n - 1) as real, Total(front, Same()))
    ensures RankLaw(PairwiseSpread(front + [x]), ranks + n as real * x, n as real, Total(front + [x], Same()))
  {
    hide PairwiseSpread, Total, RankLaw;
    PairwiseSpreadGrows(front, x);
    TotalAppend(front, x);
    RankStep(|front| as real, n as real, x, ranks, Total(front, Same()), PairwiseSpread(front), Total(front + [x], Same()), PairwiseSpread(front + [x]));
  }

  lemma FrontBelow(v: seq<real>, n: nat, front: seq<real>)
    requires 0 < n <= |v| && Ascending(v, Same()) && front == v[..n - 1]
    ensures forall i :: 0 <= i < |front| ==> front[i] <= v[n - 1]
  {
    forall i | 0 <= i < n - 1
      ensures v[i] <= v[n - 1]
    {
      assert Same()(v[i]) <= Same()(v[n - 1]);
    }
  }

  lemma RankStep(m: real, n: real, x: real, ranks: real, total: real, spread: real, total': real, spread': real)
    requires n == m + 1.0 && RankLaw(spread, ranks, m, total)
    requires total' == total + x && spread' == spread + 2.0 * (m * x - total)
    ensures RankLaw(spread', ranks + n * x, n, total')
  {
    assert n * x == m * x + x;
  }

  predicate NonNegative(v: seq<real>) {
    forall i :: 0 <= i < |v| ==> v[i] >= 0.0
  }

  lemma NonNegativePermuted(v: seq<real>, w: seq<real>)
    requires multiset(w) == multiset(v) && NonNegative(v)
    ensures NonNegative(w)
  {
    forall i | 0 <= i < |w|
      ensures w[i] >= 0.0
    {
      assert w[i] in multiset(v);
    }
  }

  lemma {:induction false} RankSumBounded(v: seq<real>, n: nat)
    requires n <= |v| && NonNegative(v)
    ensures 0.0 <= RankSum(v, n) <= n as real * Total(v[..n], Same()) && Total(v[..n], Same()) >= 0.0
  {
    if n > 0 {
      RankSumBounded(v, n - 1);
      assert v[..n][..n - 1] == v[..n - 1];
      var m, t, x := (n - 1) as real, Total(v[..n - 1], Same()), v[n - 1];
      assert (m + 1.0) * (t + x) == m * t + t + (m + 1.0) * x;
      assert (m + 1.0) * x >= 0.0;
    }
  }

  lemma {:induction false} TotalNonNegative(v: seq<real>, f: real -> real)
    requires forall i :: 0 <= i < |v| ==> f(v[i]) >= 0.0
    ensures Total(v, f) >= 0.0
  {
    if v != [] {
      TotalNonNegative(v[..|v| - 1], f);
    }
  }

  lemma SpreadNonNegative(v: seq<real>)
    ensures PairwiseSpread(v) >= 0.0
  {
    forall x
      ensures Spread(v, x) >= 0.0
    {
      assert forall i :: 0 <= i < |v| ==> From(x)(v[i]) >= 0.0;
      TotalNonNegative(v, From(x));
    }
    TotalNonNegative(v, x => Spread(v, x));
  }

  lemma RankFormula(cum: real, n: real, total: real, spread: real)
    requires n > 0.0 && total != 0.0 && RankLaw(spread, cum, n, total)
    ensures ByRanks(cum, n, total) == ByPairs(spread, n, total)
  {
    var d := n * total;
    assert (n + 1.0) / n == (n + 1.0) * total / d;
    assert spread / (2.0 * d) == (2.0 * cum - (n + 1.0) * total) / d;
    assert 2.0 * n * total == 2.0 * d;
  }

  predicate AtMostSpread(spread: real, n: real, total: real) {
    spread <= 2.0 * (n - 1.0) * total
  }

  lemma Bounds(n: real, total: real, spread: real)
    requires n > 0.0 && total > 0.0 && spread >= 0.0 && AtMostSpread(spread, n, total)
    ensures InRange(ByPairs(spread, n, total), n)
  {
    var d := 2.0 * n * total;
    assert (n - 1.0) / n == 2.0 * (n - 1.0) * total / d;
  }

  lemma SpreadBound(n: real, cum: real, total: real, spread: real)
    requires cum <= n * total && RankLaw(spread, cum, n, total)
    ensures AtMostSpread(spread, n, total)
  {
  }

  /** What the two sums of the sorted values come to. */
  lemma SortedSums(v: seq<real>, w: seq<real>, cum: real, total: real)
    requires multiset(w) == multiset(v) && Ascending(w, Same()) && |w| == |v| > 0
    requires cum == RankSum(w, |w|) && total == Total(w, Same())
    ensures total == Total(v, Same())
    ensures RankLaw(PairwiseSpread(v), cum, |v| as real, total) && PairwiseSpread(v) >= 0.0
    ensures NonNegative(v) ==> AtMostSpread(PairwiseSpread(v), |v| as real, total)
  {
    hide PairwiseSpread, RankSum, Total;
    assert w[..|w|] == w;
    RanksArePairs(w, |w|);
    PairwiseSpreadPermuted(v, w);
    TotalPermuted(v, w, Same());
    SpreadNonNegative(v);
    if NonNegative(v) {
      NonNegativePermuted(v, w);
      RankSumBounded(w, |w|);
      SpreadBound(|w| as real, cum, total, PairwiseSpread(v));
    }
  }

  method RankAndTotal(w: seq<real>) returns (cum: real, total: real)
    ensures cum == RankSum(w, |w|) && total == Total(w, Same())
  {
    cum, total := 0.0, 0.0;
    for i := 0 to |w|
      invariant cum == RankSum(w, i) && total == Total(w[..i], Same())
    {
      assert w[..i + 1][..i] == w[..i];
      cum := cum + (i as real + 1.0) * w[i];
      total := total + w[i];
    }
    assert w[..|w|] == w;
  }

  lemma {:induction false} RanksGiveGini(v: seq<real>, w: seq<real>, cum: real, total: real)
    requires multiset(w) == multiset(v) && Ascending(w, Same()) && |w| == |v| > 0
    requires cum == RankSum(w, |w|) && total == Total(w, Same())
    ensures total == Total(v, Same())
    ensures GiniIndex(v) == if total == 0.0 then 0.0 else ByRanks(cum, |v| as real, total)
    ensures NonNegative(v) && total > 0.0 ==> InRange(GiniIndex(v), |v| as real)
  {
    hide PairwiseSpread, RankSum, Total, NonNegative, ByRanks, ByPairs, InRange, RankLaw, AtMostSpread;
    SortedSums(v, w, cum, total);
    if total != 0.0 {
      RankFormula(cum, |v| as real, total, PairwiseSpread(v));
      if total > 0.0 && NonNegative(v) { Bounds(|v| as real, total, PairwiseSpread(v)); }
    }
  }

  /** Gini of any values: the rank formula on the sorted values is the pairwise
      definition, and nonnegative values with something to share give a number in [0, (n-1)/n]. */
  method Gini(v: seq<real>) returns (g: real)
    ensures g == GiniIndex(v)
    ensures NonNegative(v) && Total(v, Same()) > 0.0 ==> |v| > 0 && InRange(g, |v| as real)
  {
    if v == [] { return 0.0; }
    hide *;
    var w := Sort(v, Same());
    assert |w| == |multiset(w)| == |multiset(v)| == |v|;
    var cum, total := RankAndTotal(w);
    RanksGiveGini(v, w, cum, total);
    if total == 0.0 { return 0.0; }
    g := ByRanks(cum, |w| as real, total);
  }
}
