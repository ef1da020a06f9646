/** The running mean and second moment of the scheduler benchmark's results. */
module Welford {
  datatype PhaseResult = PhaseResult(time: real, rate: real, period: real)

  datatype BenchResult = BenchResult(init: PhaseResult, run: PhaseResult)

  function Total(xs: seq<real>): real {
    if xs == [] then 0.0 else Total(xs[..|xs| - 1]) + xs[|xs| - 1]
  }

  /** The sum of squared deviations from c. */
  function Deviation(xs: seq<real>, c: real): real {
    if xs == [] then 0.0
    else Deviation(xs[..|xs| - 1], c) + (xs[|xs| - 1] - c) * (xs[|xs| - 1] - c)
  }

  function Mean(xs: seq<real>): real
    requires xs != []
  {
    Total(xs) / |xs| as real
  }

  /** The deviation from c of n samples with sum of squares q and total t. */
  function Moment(q: real, t: real, n: real, c: real): real {
    q - 2.0 * c * t + n * (c * c)
  }

  lemma {:induction false} DeviationExpanded(xs: seq<real>, c: real)
    ensures Deviation(xs, c) == Moment(Deviation(xs, 0.0), Total(xs), |xs| as real, c)
  {
    if xs == [] {
      NoMoment(c);
    } else {
      hide Moment;
      var front, x := xs[..|xs| - 1], xs[|xs| - 1];
      DeviationExpanded(front, c);
      Expand(Deviation(front, 0.0), Total(front), |front| as real, c, x, Deviation(xs, 0.0), Total(xs), |xs| as real);
    }
  }

  lemma NoMoment(c: real)
    ensures Moment(0.0, 0.0, 0.0, c) == 0.0
  {
  }

  lemma Expand(q: real, t: real, n: real, c: real, x: real, q': real, t': real, n': real)
    requires q' == q + (x - 0.0) * (x - 0.0) && t' == t + x && n' == n + 1.0
    ensures Moment(q, t, n, c) + (x - c) * (x - c) == Moment(q', t', n', c)
  {
    assert (x - c) * (x - c) == x * x - 2.0 * c * x + c * c;
    assert 2.0 * c * t' == 2.0 * c * t + 2.0 * c * x;
    assert n' * (c * c) == n * (c * c) + c * c;
  }

  /** One field of every result. */
  datatype Field = InitTime | InitRate | InitPeriod | RunTime | RunRate | RunPeriod

  function Get(f: Field, r: BenchResult): real {
    match f
    case InitTime => r.init.time
    case InitRate => r.init.rate
    case InitPeriod => r.init.period
    case RunTime => r.run.time
    case RunRate => r.run.rate
    case RunPeriod => r.run.period
  }

  function Column(f: Field, results: seq<BenchResult>): seq<real> {
    seq(|results|, i requires 0 <= i < |results| => Get(f, results[i]))
  }

  /** average and moment2 hold the mean of xs and the deviation from it; before the first sample, anything and 0. */
  ghost predicate Accumulated(xs: seq<real>, average: real, moment2: real) {
    moment2 == Deviation(xs, average) && (xs != [] ==> average == Mean(xs))
  }

  /** The arithmetic of one update: n samples with total t and sum of squares q, then x. */
  lemma UpdateAlgebra(n: real, t: real, q: real, a: real, x: real, a': real)
    requires n >= 0.0 && n * a == t && a' == a + (x - a) / (n + 1.0)
    ensures (n + 1.0) * a' == t + x
    ensures Moment(q, t, n, a) + (x - a) * (x - a') == Moment(q + (x - 0.0) * (x - 0.0), t + x, n + 1.0, a')
  {
    var e := (x - a) / (n + 1.0);
    assert (n + 1.0) * e == x - a;
    assert (n + 1.0) * a' == n * a + a + (n + 1.0) * e;
    var t' := t + x;
    assert 2.0 * a' * t' == 2.0 * a' * ((n + 1.0) * a') == 2.0 * ((n + 1.0) * (a' * a'));
    assert (n + 1.0) * (a' * a') == a' * ((n + 1.0) * a') == a' * t';
    assert 2.0 * a * t == 2.0 * (n * (a * a));
    assert n * (a * a) == a * t;
    // what is left: -a*t + (x-a)*(x-a') == x*x - a'*t'
    assert a' * t' == (a + e) * (t + x) == a * t + a * x + e * (t + x);
    assert e * (t + x) == e * ((n + 1.0) * a') == (x - a) * a';
    assert (x - a) * (x - a') == x * x - a * x - (x - a) * a';
  }

  lemma {:induction false} UpdateKeeps(xs: seq<real>, average: real, moment2: real, x: real, average': real, moment2': real)
    requires Accumulated(xs, average, moment2)
    requires average' == average + (x - average) / (|xs| + 1) as real
    requires moment2' == moment2 + (x - average) * (x - average')
    ensures Accumulated(xs + [x], average', moment2')
  {
    hide Moment, Deviation, Total;
    var n, on := |xs| as real, xs + [x];
    Append(xs, x, 0.0);
    DeviationExpanded(xs, average);
    DeviationExpanded(on, average');
    assert n * average == Total(xs) by {
      if xs == [] { Append(xs, x, 0.0); } else { MeanTimes(Total(xs), n, average); }
    }
    UpdateAlgebra(n, Total(xs), Deviation(xs, 0.0), average, x, average');
    MeanTimes(Total(on), n + 1.0, average');
  }

  lemma Append(xs: seq<real>, x: real, c: real)
    ensures Total(xs + [x]) == Total(xs) + x
    ensures Deviation(xs + [x], c) == Deviation(xs, c) + (x - c) * (x - c)
    ensures Total([]) == 0.0
  {
    assert (xs + [x])[..|xs|] == xs;
  }

  lemma MeanTimes(t: real, n: real, a: real)
    ensures n != 0.0 ==> (a == t / n <==> n * a == t)
  {
  }

  /** One ACCUMULATE for one field. */
  method Accumulate(x: real, average: real, moment2: real, count: nat, ghost xs: seq<real>) returns (average': real, moment2': real)
    requires count == |xs| + 1 && Accumulated(xs, average, moment2)
    ensures Accumulated(xs + [x], average', moment2')
  {
    var deltaPre := x - average;
    average' := average + deltaPre / count as real;
    var deltaPost := x - average';
    moment2' := moment2 + deltaPre * deltaPost;
    UpdateKeeps(xs, average, moment2, x, average', moment2');
  }

  ghost predicate AllAccumulated(results: seq<BenchResult>, average: BenchResult, moment2: BenchResult) {
    forall f :: Accumulated(Column(f, results), Get(f, average), Get(f, moment2))
  }

  lemma ColumnAppend(f: Field, results: seq<BenchResult>, n: nat)
    requires n < |results|
    ensures Column(f, results[..n + 1]) == Column(f, results[..n]) + [Get(f, results[n])]
  {
  }

  /** With at least two results, each field's mean, its sum of squared deviations from the mean, and the sample count. */
  method Log(results: seq<BenchResult>) returns (logged: bool, average: BenchResult, moment2: BenchResult, n: nat)
    ensures logged <==> |results| >= 2
    ensures logged ==> n == |results| && forall f ::
      Get(f, average) == Mean(Column(f, results)) && Get(f, moment2) == Deviation(Column(f, results), Mean(Column(f, results)))
  {
    var zero := PhaseResult(0.0, 0.0, 0.0);
    average, moment2, n := BenchResult(zero, zero), BenchResult(zero, zero), 0;
    if |results| < 2 { return false, average, moment2, n; }
    average := results[0];
    assert AllAccumulated(results[..0], average, moment2);
    while n < |results|
      invariant n <= |results| && AllAccumulated(results[..n], average, moment2)
    {
      average, moment2 := AccumulateAll(results[n], average, moment2, n + 1, results, n);
      n := n + 1;
    }
    assert results[..n] == results;
    logged := true;
  }

  method AccumulateAll(run: BenchResult, average: BenchResult, moment2: BenchResult, count: nat, ghost results: seq<BenchResult>, ghost n: nat)
    returns (average': BenchResult, moment2': BenchResult)
    requires n < |results| && run == results[n] && count == n + 1 && AllAccumulated(results[..n], average, moment2)
    ensures AllAccumulated(results[..n + 1], average', moment2')
  {
    hide Accumulated;
    ghost var done := results[..n];
    assert forall f :: Accumulated(Column(f, done), Get(f, average), Get(f, moment2));
    var a1, m1 := Accumulate(run.init.time, average.init.time, moment2.init.time, count, Column(InitTime, done));
    var a2, m2 := Accumulate(run.init.rate, average.init.rate, moment2.init.rate, count, Column(InitRate, done));
    var a3, m3 := Accumulate(run.init.period, average.init.period, moment2.init.period, count, Column(InitPeriod, done));
    var a4, m4 := Accumulate(run.run.time, average.run.time, moment2.run.time, count, Column(RunTime, done));
    var a5, m5 := Accumulate(run.run.rate, average.run.rate, moment2.run.rate, count, Column(RunRate, done));
    var a6, m6 := Accumulate(run.run.period, average.run.period, moment2.run.period, count, Column(RunPeriod, done));
    average' := BenchResult(PhaseResult(a1, a2, a3), PhaseResult(a4, a5, a6));
    moment2' := BenchResult(PhaseResult(m1, m2, m3), PhaseResult(m4, m5, m6));
    forall f
      ensures Accumulated(Column(f, results[..n + 1]), Get(f, average'), Get(f, moment2'))
    {
      ColumnAppend(f, results, n);
      match f
      case InitTime =>
      case InitRate =>
      case InitPeriod =>
      case RunTime =>
      case RunRate =>
      case RunPeriod =>
    }
  }
}
