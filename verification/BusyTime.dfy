/** Channel busy time: the union of the busy intervals inside the window.
    Times are integer nanoseconds. */
module BusyTime {
  import opened Sorting

  datatype Interval = Interval(first: int, second: int)

  /** The shortest window length divided by: 1e-6 s. */
  const FLOOR: int := 1000

  function Max(a: int, b: int): int {
    if a < b then b else a
  }

  ghost function Range(a: int, b: int): (r: set<int>)
    ensures forall x :: x in r <==> a <= x < b
    ensures |r| == Max(0, b - a)
    decreases b - a
  {
    if a >= b then {} else Range(a, b - 1) + {b - 1}
  }

  ghost predicate Inside(v: seq<Interval>, x: int) {
    exists i :: 0 <= i < |v| && v[i].first <= x < v[i].second
  }

  /** The instants of the window that lie in some interval. */
  ghost function Covered(v: seq<Interval>, winStart: int, winEnd: int): set<int> {
    set x | winStart <= x < winEnd && Inside(v, x)
  }

  function Clip(p: Interval, winStart: int, winEnd: int): Interval {
    Interval(if p.first < winStart then winStart else p.first, if p.second > winEnd then winEnd else p.second)
  }

  /** Clipping leaves the covered instants of the window and nothing else. */
  lemma ClippedCovers(v: seq<Interval>, w: seq<Interval>, winStart: int, winEnd: int, x: int)
    requires |w| == |v| && forall i :: 0 <= i < |v| ==> w[i] == Clip(v[i], winStart, winEnd)
    ensures Inside(w, x) <==> winStart <= x < winEnd && Inside(v, x)
  {
    if Inside(v, x) && winStart <= x < winEnd {
      var i :| 0 <= i < |v| && v[i].first <= x < v[i].second;
      assert w[i].first <= x < w[i].second;
    }
    if Inside(w, x) {
      var i :| 0 <= i < |w| && w[i].first <= x < w[i].second;
      assert v[i].first <= x < v[i].second;
    }
  }

  lemma PermutedCovers(v: seq<Interval>, w: seq<Interval>, x: int)
    requires multiset(v) == multiset(w) && Inside(v, x)
    ensures Inside(w, x)
  {
    var i :| 0 <= i < |v| && v[i].first <= x < v[i].second;
    assert v[i] in multiset(w);
    var j :| 0 <= j < |w| && w[j] == v[i];
  }

  /** The merge so far: the first i intervals cover done, which lies before curS, and the current run. */
  ghost predicate Merged(w: seq<Interval>, i: nat, done: set<int>, curS: int, curE: int) {
    && 0 < i <= |w|
    && (forall x :: Inside(w[..i], x) <==> x in done || curS <= x < curE)
    && (forall x :: x in done ==> x < curS)
    && (forall j :: i <= j < |w| ==> curS <= w[j].first)
  }

  lemma InsideNext(w: seq<Interval>, i: nat, x: int)
    requires i < |w|
    ensures Inside(w[..i + 1], x) <==> Inside(w[..i], x) || w[i].first <= x < w[i].second
  {
    if Inside(w[..i], x) {
      var j :| 0 <= j < i && w[..i][j].first <= x < w[..i][j].second;
      assert w[..i + 1][j] == w[..i][j];
    }
    if w[i].first <= x < w[i].second { assert w[..i + 1][i] == w[i]; }
    if Inside(w[..i + 1], x) {
      var j :| 0 <= j < i + 1 && w[..i + 1][j].first <= x < w[..i + 1][j].second;
      if j < i { assert w[..i][j] == w[..i + 1][j]; }
    }
  }

  ghost predicate ByFirst(w: seq<Interval>) {
    forall i, j :: 0 <= i < j < |w| ==> w[i].first <= w[j].first
  }

  /** The next interval meets the current run: the run grows. */
  lemma MergeOverlap(w: seq<Interval>, i: nat, done: set<int>, curS: int, curE: int)
    requires ByFirst(w) && i < |w| && Merged(w, i, done, curS, curE) && w[i].first <= curE
    ensures Merged(w, i + 1, done, curS, Max(curE, w[i].second))
  {
    hide Inside;
    var n := i + 1;
    forall x
      ensures Inside(w[..n], x) <==> x in done || curS <= x < Max(curE, w[i].second)
    {
      InsideNext(w, i, x);
      assert curS <= w[i].first;
    }
  }

  /** The next interval begins after the current run: the run is done. */
  lemma MergeGap(w: seq<Interval>, i: nat, done: set<int>, curS: int, curE: int)
    requires ByFirst(w) && i < |w| && Merged(w, i, done, curS, curE) && w[i].first > curE
    ensures Merged(w, i + 1, done + Range(curS, curE), w[i].first, w[i].second)
  {
    hide Inside;
    var n := i + 1;
    forall x
      ensures Inside(w[..n], x) <==> x in done + Range(curS, curE) || w[i].first <= x < w[i].second
    {
      InsideNext(w, i, x);
    }
    assert curS <= w[i].first;
  }

  ghost predicate Exactly(w: seq<Interval>, covered: set<int>) {
    forall x :: x in covered <==> Inside(w, x)
  }

  lemma MergeDone(w: seq<Interval>, done: set<int>, curS: int, curE: int, covered: set<int>)
    requires Merged(w, |w|, done, curS, curE) && Exactly(w, covered)
    ensures |covered| == |done| + Max(0, curE - curS)
  {
    assert w[..|w|] == w;
    forall x
      ensures x in covered <==> x in done + Range(curS, curE)
    {
      assert x in covered <==> Inside(w, x);
    }
    assert covered == done + Range(curS, curE) && done !! Range(curS, curE);
  }

  /** The total length of the union of ascending intervals. */
  method UnionLength(w: seq<Interval>, ghost covered: set<int>) returns (total: int)
    requires w != [] && ByFirst(w) && Exactly(w, covered)
    ensures total == |covered|
  {
    hide Exactly;
    var curS, curE := w[0].first, w[0].second;
    ghost var done: set<int> := {};
    total := 0;
    MergeStart(w);
    for i := 1 to |w|
      invariant Merged(w, i, done, curS, curE) && total == |done|
    {
      if w[i].first <= curE {
        MergeOverlap(w, i, done, curS, curE);
        if w[i].second > curE { curE := w[i].second; }
      } else {
        MergeGap(w, i, done, curS, curE);
        assert done !! Range(curS, curE);
        done := done + Range(curS, curE);
        total := total + Max(0, curE - curS);
        curS, curE := w[i].first, w[i].second;
      }
    }
    MergeDone(w, done, curS, curE, covered);
    total := total + Max(0, curE - curS);
  }

  lemma MergeStart(w: seq<Interval>)
    requires w != [] && ByFirst(w)
    ensures Merged(w, 1, {}, w[0].first, w[0].second)
  {
    forall x
      ensures Inside(w[..1], x) <==> w[0].first <= x < w[0].second
    {
      assert w[..1] == [w[0]];
      if w[0].first <= x < w[0].second { assert w[..1][0].first <= x < w[..1][0].second; }
    }
  }

  lemma CoveredFits(v: seq<Interval>, winStart: int, winEnd: int)
    ensures |Covered(v, winStart, winEnd)| <= Max(0, winEnd - winStart)
  {
    var c, r := Covered(v, winStart, winEnd), Range(winStart, winEnd);
    assert r == c + (r - c);
  }

  /** The busy fraction is the covered part of the window over its length; capping it at 1 changes nothing. */
  method ComputeBusyFraction(v: seq<Interval>, winStart: int, winEnd: int) returns (fraction: real)
    ensures fraction == |Covered(v, winStart, winEnd)| as real / (if winEnd - winStart > 1000 then winEnd - winStart else 1000) as real
    ensures 0.0 <= fraction <= 1.0
  {
    if v == [] {
      assert Covered(v, winStart, winEnd) == {};
      return 0.0;
    }
    var dur := Max(FLOOR, winEnd - winStart);
    var clipped := seq(|v|, i requires 0 <= i < |v| => Clip(v[i], winStart, winEnd));
    var w := Sort(clipped, (p: Interval) => p.first as real);
    assert |w| == |multiset(w)| == |multiset(clipped)|;
    assert ByFirst(w) by { SortedByFirst(w); }
    forall x
      ensures x in Covered(v, winStart, winEnd) <==> Inside(w, x)
    {
      ClippedCovers(v, clipped, winStart, winEnd, x);
      if Inside(clipped, x) { PermutedCovers(clipped, w, x); }
      if Inside(w, x) { PermutedCovers(w, clipped, x); }
    }
    var total := UnionLength(w, Covered(v, winStart, winEnd));
    CoveredFits(v, winStart, winEnd);
    assert 0 <= total <= dur;
    hide *;
    UnitFraction(total, dur);
    fraction := total as real / dur as real;
    if 1.0 < fraction { fraction := 1.0; }
  }

  lemma UnitFraction(a: int, b: int)
    requires 0 <= a <= b && b > 0
    ensures 0.0 <= a as real / b as real <= 1.0
  {
  }

  lemma SortedByFirst(w: seq<Interval>)
    requires Ascending(w, (p: Interval) => p.first as real)
    ensures ByFirst(w)
  {
    var key := (p: Interval) => p.first as real;
    forall i, j | 0 <= i < j < |w|
      ensures w[i].first <= w[j].first
    {
      assert key(w[i]) <= key(w[j]);
    }
  }
}
