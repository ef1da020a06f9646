/** std::sort, known only by its contract: some ascending rearrangement, ties in any order. */
module Sorting {
  ghost predicate Ascending<T>(s: seq<T>, key: T -> real) {
    forall i, j :: 0 <= i < j < |s| ==> key(s[i]) <= key(s[j])
  }

  method Sort<T>(s: seq<T>, key: T -> real) returns (r: seq<T>)
    ensures multiset(r) == multiset(s)
    ensures Ascending(r, key)
  {
    r := [];
    for i := 0 to |s|
      invariant multiset(r) == multiset(s[..i])
      invariant Ascending(r, key)
    {
      assert s[..i + 1] == s[..i] + [s[i]];
      r := Insert(r, s[i], key);
    }
    assert s[..|s|] == s;
  }

  method Insert<T>(s: seq<T>, x: T, key: T -> real) returns (r: seq<T>)
    requires Ascending(s, key)
    ensures multiset(r) == multiset(s) + multiset{x}
    ensures Ascending(r, key)
  {
    var k := |s|;
    while k > 0 && key(s[k - 1]) > key(x)
      invariant 0 <= k <= |s|
      invariant forall j :: k <= j < |s| ==> key(x) < key(s[j])
    {
      k := k - 1;
    }
    r := s[..k] + [x] + s[k..];
    InsertedMembers(s, x, k);
    InsertedAscending(s, x, k, key);
  }

  lemma InsertedMembers<T>(s: seq<T>, x: T, k: nat)
    requires k <= |s|
    ensures multiset(s[..k] + [x] + s[k..]) == multiset(s) + multiset{x}
  {
    assert s == s[..k] + s[k..];
  }

  lemma InsertedAscending<T>(s: seq<T>, x: T, k: nat, key: T -> real)
    requires k <= |s| && Ascending(s, key)
    requires forall j :: k <= j < |s| ==> key(x) < key(s[j])
    requires k > 0 ==> key(s[k - 1]) <= key(x)
    ensures Ascending(s[..k] + [x] + s[k..], key)
  {
    var r := s[..k] + [x] + s[k..];
    forall i, j | 0 <= i < j < |r|
      ensures key(r[i]) <= key(r[j])
    {
      assert r[i] == if i < k then s[i] else if i == k then x else s[i - 1];
      assert r[j] == if j < k then s[j] else if j == k then x else s[j - 1];
      if i < k { assert key(s[i]) <= key(s[k - 1]); }
    }
  }

  /** Sums do not depend on the order of the terms. */
  ghost function Total<T>(s: seq<T>, f: T -> real): real {
    if s == [] then 0.0 else Total(s[..|s| - 1], f) + f(s[|s| - 1])
  }

  lemma {:induction false} TotalRemove<T>(s: seq<T>, k: nat, f: T -> real)
    requires k < |s|
    ensures Total(s, f) == Total(s[..k] + s[k + 1..], f) + f(s[k])
  {
    if k == |s| - 1 {
      assert s[..k] + s[k + 1..] == s[..k];
    } else {
      var front := s[..|s| - 1];
      TotalRemove(front, k, f);
      var cut := s[..k] + s[k + 1..];
      assert cut[..|cut| - 1] == front[..k] + front[k + 1..];
    }
  }

  lemma RemovedMembers<T>(r: seq<T>, k: nat)
    requires k < |r|
    ensures multiset(r) == multiset(r[..k] + r[k + 1..]) + multiset{r[k]}
  {
    var cut := r[..k] + r[k + 1..];
    InsertedMembers(cut, r[k], k);
    assert cut[..k] + [r[k]] + cut[k..] == r;
  }

  lemma Cancel<T>(a: multiset<T>, b: multiset<T>, x: T)
    requires a + multiset{x} == b + multiset{x}
    ensures a == b
  {
    forall y ensures a[y] == b[y] {
      assert (a + multiset{x})[y] == (b + multiset{x})[y];
    }
  }

  /** Taking the last element of one permutation out of the other. */
  lemma TakeOut<T>(s: seq<T>, r: seq<T>) returns (k: nat)
    requires multiset(s) == multiset(r) && s != []
    ensures k < |r| && r[k] == s[|s| - 1]
    ensures multiset(s[..|s| - 1]) == multiset(r[..k] + r[k + 1..])
  {
    var x, front := s[|s| - 1], s[..|s| - 1];
    assert front + s[|s| - 1 + 1..] == front;
    RemovedMembers(s, |s| - 1);
    assert x in multiset(r);
    k :| 0 <= k < |r| && r[k] == x;
    RemovedMembers(r, k);
    Cancel(multiset(front), multiset(r[..k] + r[k + 1..]), x);
  }

  lemma {:induction false} TotalPermuted<T>(s: seq<T>, r: seq<T>, f: T -> real)
    requires multiset(s) == multiset(r)
    ensures Total(s, f) == Total(r, f)
    decreases |s|
  {
    assert |s| == |multiset(s)| == |multiset(r)| == |r|;
    if s != [] {
      var k := TakeOut(s, r);
      TotalRemove(r, k, f);
      TotalPermuted(s[..|s| - 1], r[..k] + r[k + 1..], f);
    }
  }
}
