/** Finite sums of reals over an index range or a list. */
module Sums {
  import opened Graphs

  /** f(0) + ... + f(n - 1) */
  ghost function Sum(n: nat, f: int -> real): real {
    if n == 0 then 0.0 else Sum(n - 1, f) + f(n - 1)
  }

  lemma {:induction false} SumEqual(n: nat, f: int -> real, g: int -> real)
    requires forall i :: 0 <= i < n ==> f(i) == g(i)
    ensures Sum(n, f) == Sum(n, g)
  {
    if n > 0 { SumEqual(n - 1, f, g); }
  }

  lemma {:induction false} SumAtMost(n: nat, f: int -> real, g: int -> real)
    requires forall i :: 0 <= i < n ==> f(i) <= g(i)
    ensures Sum(n, f) <= Sum(n, g)
  {
    if n > 0 { SumAtMost(n - 1, f, g); }
  }

  lemma {:induction false} SumPlus(n: nat, f: int -> real, g: int -> real, h: int -> real)
    requires forall i :: 0 <= i < n ==> h(i) == f(i) + g(i)
    ensures Sum(n, h) == Sum(n, f) + Sum(n, g)
  {
    if n > 0 { SumPlus(n - 1, f, g, h); }
  }

  lemma {:induction false} SumScaled(n: nat, c: real, f: int -> real, g: int -> real)
    requires forall i :: 0 <= i < n ==> g(i) == c * f(i)
    ensures Sum(n, g) == c * Sum(n, f)
  {
    if n > 0 { SumScaled(n - 1, c, f, g); }
  }

  /** A sum with one nonzero term. */
  lemma {:induction false} SumSingle(n: nat, k: int, f: int -> real)
    requires forall i :: 0 <= i < n && i != k ==> f(i) == 0.0
    ensures Sum(n, f) == if 0 <= k < n then f(k) else 0.0
  {
    if n > 0 { SumSingle(n - 1, k, f); }
  }

  ghost function Row(f: (int, int) -> real, i: int): int -> real {
    j => f(i, j)
  }

  ghost function Column(f: (int, int) -> real, j: int): int -> real {
    i => f(i, j)
  }

  /** The row sums of a table add up to what its column sums add up to. */
  lemma {:induction false} SumSwap(n: nat, m: nat, f: (int, int) -> real, rows: int -> real, columns: int -> real)
    requires forall i :: 0 <= i < n ==> rows(i) == Sum(m, Row(f, i))
    requires forall j :: 0 <= j < m ==> columns(j) == Sum(n, Column(f, j))
    ensures Sum(n, rows) == Sum(m, columns)
  {
    if n == 0 {
      SumSingle(m, -1, columns);
    } else {
      var shorter := j => Sum(n - 1, Column(f, j));
      SumSwap(n - 1, m, f, rows, shorter);
      SumPlus(m, shorter, Row(f, n - 1), columns);
    }
  }

  lemma {:induction false} SumOnes(n: nat, ones: int -> real)
    requires forall i :: 0 <= i < n ==> ones(i) == 1.0
    ensures Sum(n, ones) == n as real
  {
    if n > 0 { SumOnes(n - 1, ones); }
  }

  /** A sum of n - 1 terms, each within 0..most. */
  lemma SumButOne(n: nat, k: nat, most: real, f: int -> real)
    requires k < n && f(k) == 0.0
    requires forall i :: 0 <= i < n && i != k ==> 0.0 <= f(i) <= most
    ensures 0.0 <= Sum(n, f) <= most * (n - 1) as real
  {
    var none, each := (i: int) => 0.0, (i: int) => most;
    var self := (i: int) => if i == k then -most else 0.0;
    var bound, ones := (i: int) => each(i) + self(i), (i: int) => 1.0;
    SumOnes(n, ones);
    SumScaled(n, most, ones, each);
    SumSingle(n, k, self);
    SumPlus(n, each, self, bound);
    SumAtMost(n, f, bound);
    SumSingle(n, -1, none);
    SumAtMost(n, none, f);
  }

  ghost function SumList(xs: seq<nat>, f: int -> real): real {
    if xs == [] then 0.0 else SumList(xs[..|xs| - 1], f) + f(xs[|xs| - 1])
  }

  lemma {:induction false} SumListEqual(xs: seq<nat>, f: int -> real, g: int -> real)
    requires forall x :: x in xs ==> f(x) == g(x)
    ensures SumList(xs, f) == SumList(xs, g)
  {
    if xs != [] { SumListEqual(xs[..|xs| - 1], f, g); }
  }

  /** A duplicate-free list sums to the range sum over its members. */
  lemma {:induction false} SumListIsSum(xs: seq<nat>, n: nat, f: int -> real, g: int -> real)
    requires Distinct(xs) && forall x :: x in xs ==> x < n
    requires forall i :: 0 <= i < n ==> g(i) == if i in xs then f(i) else 0.0
    ensures SumList(xs, f) == Sum(n, g)
  {
    if xs == [] {
      SumSingle(n, -1, g);
    } else {
      var x, front := xs[|xs| - 1], xs[..|xs| - 1];
      assert xs == front + [x] && x !in front;
      forall i: int
        ensures i in xs <==> i in front || i == x
      {
      }
      var g' := (i: int) => if i in front then f(i) else 0.0;
      var only := (i: int) => if i == x then f(i) else 0.0;
      SumListIsSum(front, n, f, g');
      SumSingle(n, x, only);
      SumPlus(n, g', only, g);
    }
  }
}
